/** `loadFromSource`: read a source into a mapping, then assign every
    descriptor whose key the mapping holds, in descriptor order, stopping at
    the first value that does not convert. The target struct is modelled as a
    store from field paths to values. */
module Binding {
  import opened Outcomes
  import opened Schema
  import opened Coercion
  import LineGrammar

  /** The current contents of the target's leaf fields. */
  type Store = map<Path, Value>

  /** The target after a pass, and the error that ended the pass, if any. */
  datatype Outcome = Outcome(store: Store, failure: Option<Error>)

  /** What the store holds at `p`, if anything. */
  function Get(store: Store, p: Path): Option<Value> {
    if p in store then Some(store[p]) else None
  }

  /** No two descriptors designate the same field. */
  predicate DistinctPaths(ds: seq<Descriptor>) {
    forall i, j :: 0 <= i < j < |ds| ==> ds[i].path != ds[j].path
  }

  /** The descriptor loop of `loadFromSource`: a descriptor whose key is absent
      is passed over, one whose text converts is assigned, and the first one
      whose text does not convert ends the pass with that error. */
  function Bind(ds: seq<Descriptor>, vars: map<string, string>, store: Store, parseFloat: FloatParser): Outcome
    decreases |ds|
  {
    if ds == [] then Outcome(store, None)
    else if ds[0].key !in vars then Bind(ds[1..], vars, store, parseFloat)
    else match SetValue(ds[0].kind, vars[ds[0].key], parseFloat)
      case Err(e) => Outcome(store, Some(e))
      case Ok(v) => Bind(ds[1..], vars, store[ds[0].path := v], parseFloat)
  }

  /** `loadFromSource`: a source that does not read leaves the target as it was. */
  function LoadFromSource(lines: seq<string>, ds: seq<Descriptor>, store: Store, parseFloat: FloatParser): Outcome {
    match LineGrammar.ReadSource(lines)
    case Err(e) => Outcome(store, Some(e))
    case Ok(vars) => Bind(ds, vars, store, parseFloat)
  }

  /** A descriptor whose key is present and whose text converts. */
  predicate Converts(d: Descriptor, vars: map<string, string>, parseFloat: FloatParser) {
    d.key in vars && SetValue(d.kind, vars[d.key], parseFloat).Ok?
  }

  /** Descriptor `i` is the first one whose key is present and whose text
      does not convert. */
  predicate FailsAt(ds: seq<Descriptor>, vars: map<string, string>, parseFloat: FloatParser, i: int) {
    && 0 <= i < |ds| && ds[i].key in vars && SetValue(ds[i].kind, vars[ds[i].key], parseFloat).Err?
    && forall j :: 0 <= j < i ==> ds[j].key in vars ==> Converts(ds[j], vars, parseFloat)
  }

  /** A field that no descriptor designates is never written. */
  lemma {:induction false} BindFrame(ds: seq<Descriptor>, vars: map<string, string>, store: Store, parseFloat: FloatParser, p: Path)
    requires forall i :: 0 <= i < |ds| ==> ds[i].path != p
    ensures Get(Bind(ds, vars, store, parseFloat).store, p) == Get(store, p)
    decreases |ds|
  {
    if ds != [] {
      assert forall i :: 0 <= i < |ds[1..]| ==> ds[1..][i] == ds[i + 1];
      if ds[0].key !in vars {
        BindFrame(ds[1..], vars, store, parseFloat, p);
      } else if SetValue(ds[0].kind, vars[ds[0].key], parseFloat).Ok? {
        var v := SetValue(ds[0].kind, vars[ds[0].key], parseFloat).value;
        BindFrame(ds[1..], vars, store[ds[0].path := v], parseFloat, p);
      }
    }
  }

  /** A pass over the descriptors succeeds exactly when every descriptor whose
      key is present converts its text. */
  lemma {:induction false} BindSucceeds(ds: seq<Descriptor>, vars: map<string, string>, store: Store, parseFloat: FloatParser)
    ensures Bind(ds, vars, store, parseFloat).failure.None? <==>
      forall i :: 0 <= i < |ds| ==> ds[i].key in vars ==> Converts(ds[i], vars, parseFloat)
    decreases |ds|
  {
    if ds != [] {
      assert forall i :: 0 <= i < |ds[1..]| ==> ds[1..][i] == ds[i + 1];
      if ds[0].key !in vars {
        BindSucceeds(ds[1..], vars, store, parseFloat);
      } else if SetValue(ds[0].kind, vars[ds[0].key], parseFloat).Ok? {
        var v := SetValue(ds[0].kind, vars[ds[0].key], parseFloat).value;
        BindSucceeds(ds[1..], vars, store[ds[0].path := v], parseFloat);
      }
    }
  }

  /** After a pass that succeeds, every descriptor whose key is present holds
      the value converted from that key's text (two descriptors sharing a key
      both receive it), and every other designated field keeps its value. */
  lemma {:induction false} BindApplies(ds: seq<Descriptor>, vars: map<string, string>, store: Store, parseFloat: FloatParser)
    requires DistinctPaths(ds) && Bind(ds, vars, store, parseFloat).failure.None?
    ensures forall i :: 0 <= i < |ds| && ds[i].key in vars ==>
      && SetValue(ds[i].kind, vars[ds[i].key], parseFloat).Ok?
      && Get(Bind(ds, vars, store, parseFloat).store, ds[i].path) == Some(SetValue(ds[i].kind, vars[ds[i].key], parseFloat).value)
    ensures forall i :: 0 <= i < |ds| && ds[i].key !in vars ==>
      Get(Bind(ds, vars, store, parseFloat).store, ds[i].path) == Get(store, ds[i].path)
    decreases |ds|
  {
    if ds != [] {
      var rest := ds[1..];
      assert forall i :: 0 <= i < |rest| ==> rest[i] == ds[i + 1];
      assert forall i :: 0 <= i < |rest| ==> rest[i].path != ds[0].path;
      if ds[0].key !in vars {
        BindApplies(rest, vars, store, parseFloat);
        BindFrame(rest, vars, store, parseFloat, ds[0].path);
      } else {
        var v := SetValue(ds[0].kind, vars[ds[0].key], parseFloat).value;
        var store' := store[ds[0].path := v];
        BindApplies(rest, vars, store', parseFloat);
        BindFrame(rest, vars, store', parseFloat, ds[0].path);
        assert forall i :: 1 <= i < |ds| ==> Get(store', ds[i].path) == Get(store, ds[i].path);
      }
    }
  }

  /** Two descriptors bound to the same key of the same kind end up holding
      the same value after a successful pass. */
  lemma BindSharedKey(ds: seq<Descriptor>, vars: map<string, string>, store: Store, parseFloat: FloatParser, i: nat, j: nat)
    requires DistinctPaths(ds) && Bind(ds, vars, store, parseFloat).failure.None?
    requires i < |ds| && j < |ds| && ds[i].key == ds[j].key && ds[i].kind == ds[j].kind && ds[i].key in vars
    ensures Get(Bind(ds, vars, store, parseFloat).store, ds[i].path).Some?
    ensures Get(Bind(ds, vars, store, parseFloat).store, ds[i].path) == Get(Bind(ds, vars, store, parseFloat).store, ds[j].path)
  {
    BindApplies(ds, vars, store, parseFloat);
  }

  /** A pass fails exactly when some descriptor is the first not to convert;
      it then reports that descriptor's error, having assigned precisely what
      the descriptors before it assign. */
  lemma {:induction false} BindFails(ds: seq<Descriptor>, vars: map<string, string>, store: Store, parseFloat: FloatParser)
    ensures Bind(ds, vars, store, parseFloat).failure.Some? <==> exists i :: FailsAt(ds, vars, parseFloat, i)
    ensures forall i :: FailsAt(ds, vars, parseFloat, i) ==>
      && Bind(ds[..i], vars, store, parseFloat).failure.None?
      && Bind(ds, vars, store, parseFloat) ==
        Outcome(Bind(ds[..i], vars, store, parseFloat).store, Some(SetValue(ds[i].kind, vars[ds[i].key], parseFloat).error))
    decreases |ds|
  {
    if ds != [] {
      var rest := ds[1..];
      assert forall i :: 0 <= i < |rest| ==> rest[i] == ds[i + 1];
      var store' := if ds[0].key in vars && SetValue(ds[0].kind, vars[ds[0].key], parseFloat).Ok?
        then store[ds[0].path := SetValue(ds[0].kind, vars[ds[0].key], parseFloat).value] else store;
      BindFails(rest, vars, store', parseFloat);
      forall i | FailsAt(ds, vars, parseFloat, i)
        ensures && Bind(ds[..i], vars, store, parseFloat).failure.None?
          && Bind(ds, vars, store, parseFloat) ==
            Outcome(Bind(ds[..i], vars, store, parseFloat).store, Some(SetValue(ds[i].kind, vars[ds[i].key], parseFloat).error))
      {
        if i > 0 {
          assert FailsAt(rest, vars, parseFloat, i - 1);
          assert ds[..i][1..] == rest[..i - 1];
        }
      }
      if Bind(ds, vars, store, parseFloat).failure.Some? {
        if ds[0].key in vars && SetValue(ds[0].kind, vars[ds[0].key], parseFloat).Err? {
          assert FailsAt(ds, vars, parseFloat, 0);
        } else {
          var i :| FailsAt(rest, vars, parseFloat, i);
          assert FailsAt(ds, vars, parseFloat, i + 1);
        }
      }
    }
  }

  /** When a pass fails at descriptor `i`, the descriptors from `i` on are
      left untouched. */
  lemma BindFailureUntouched(ds: seq<Descriptor>, vars: map<string, string>, store: Store, parseFloat: FloatParser, i: nat)
    requires DistinctPaths(ds) && FailsAt(ds, vars, parseFloat, i)
    ensures forall j :: i <= j < |ds| ==>
      Get(Bind(ds, vars, store, parseFloat).store, ds[j].path) == Get(store, ds[j].path)
  {
    BindFails(ds, vars, store, parseFloat);
    forall j | i <= j < |ds|
      ensures Get(Bind(ds, vars, store, parseFloat).store, ds[j].path) == Get(store, ds[j].path)
    {
      BindFrame(ds[..i], vars, store, parseFloat, ds[j].path);
    }
  }

  /** A key absent from the source leaves its fields unchanged, whether or
      not the pass succeeds. */
  lemma AbsentKeyKeepsValue(ds: seq<Descriptor>, vars: map<string, string>, store: Store, parseFloat: FloatParser, p: Path)
    requires forall i :: 0 <= i < |ds| && ds[i].path == p ==> ds[i].key !in vars
    ensures Get(Bind(ds, vars, store, parseFloat).store, p) == Get(store, p)
    decreases |ds|
  {
    if ds != [] {
      var rest := ds[1..];
      assert forall i :: 0 <= i < |rest| ==> rest[i] == ds[i + 1];
      if ds[0].key !in vars {
        AbsentKeyKeepsValue(rest, vars, store, parseFloat, p);
      } else if SetValue(ds[0].kind, vars[ds[0].key], parseFloat).Ok? {
        var v := SetValue(ds[0].kind, vars[ds[0].key], parseFloat).value;
        AbsentKeyKeepsValue(rest, vars, store[ds[0].path := v], parseFloat, p);
      }
    }
  }

  /** A source with a malformed line changes nothing, even when other lines
      are well formed: the pass reports the first malformed line. */
  lemma MalformedSourceChangesNothing(lines: seq<string>, ds: seq<Descriptor>, store: Store, parseFloat: FloatParser, i: nat)
    requires i < |lines| && LineGrammar.ParseLine(lines[i]).Malformed?
    ensures LoadFromSource(lines, ds, store, parseFloat).store == store
    ensures LoadFromSource(lines, ds, store, parseFloat).failure.Some?
    ensures LoadFromSource(lines, ds, store, parseFloat).failure.value.MalformedLine?
  {
    LineGrammar.ReadSourceFails(lines);
  }

  /** With no line defining any descriptor's key, a pass that reads changes nothing. */
  lemma UnmentionedKeysChangeNothing(lines: seq<string>, ds: seq<Descriptor>, store: Store, parseFloat: FloatParser)
    requires LineGrammar.ReadSource(lines).Ok?
    requires forall i, j :: 0 <= i < |ds| && 0 <= j < |lines| ==> !LineGrammar.Defines(lines[j], ds[i].key)
    ensures LoadFromSource(lines, ds, store, parseFloat) == Outcome(store, None)
  {
    LineGrammar.ReadSourceLastWins(lines);
    var vars := LineGrammar.ReadSource(lines).value;
    assert forall i :: 0 <= i < |ds| ==> ds[i].key !in vars;
    NothingPresent(ds, vars, store, parseFloat);
  }

  lemma {:induction false} NothingPresent(ds: seq<Descriptor>, vars: map<string, string>, store: Store, parseFloat: FloatParser)
    requires forall i :: 0 <= i < |ds| ==> ds[i].key !in vars
    ensures Bind(ds, vars, store, parseFloat) == Outcome(store, None)
    decreases |ds|
  {
    if ds != [] {
      assert forall i :: 0 <= i < |ds[1..]| ==> ds[1..][i] == ds[i + 1];
      NothingPresent(ds[1..], vars, store, parseFloat);
    }
  }
}
