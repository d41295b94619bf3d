/** The `.env` line grammar (`readSource`): a sequence of lines becomes a
    key-to-value mapping, or the error for the first line that has no '='.
    The same grammar reads the file and the process environment, which both
    reach it as a sequence of lines. */
module LineGrammar {
  import opened Outcomes
  import opened Text

  /** How one source line is read. */
  datatype Line =
    /** Blank after trimming, or a comment. */
    | Skipped
    /** `key=value`, both sides trimmed. */
    | Entry(key: string, value: string)
    /** Neither skipped nor containing '='; carries the trimmed line. */
    | Malformed(text: string)

  /** A trimmed line that is blank or starts with '#' is ignored. */
  predicate IsBlankOrComment(t: string) {
    t == [] || t[0] == '#'
  }

  /** One iteration of the loop in `readSource`. */
  function ParseLine(raw: string): Line {
    var t := TrimSpace(raw);
    if IsBlankOrComment(t) then Skipped
    else match Cut(t, '=')
      case None => Malformed(t)
      case Some((k, v)) => Entry(TrimSpace(k), TrimSpace(v))
  }

  /** A line is skipped exactly when it is blank or a comment once trimmed; it
      is malformed exactly when it is not skipped and has no '=' anywhere; an
      entry's key holds no '=' and neither key nor value has white space at
      its ends. */
  lemma ParseLineCases(raw: string)
    ensures ParseLine(raw).Skipped? <==> IsBlankOrComment(TrimSpace(raw))
    ensures ParseLine(raw).Malformed? <==> !IsBlankOrComment(TrimSpace(raw)) && '=' !in raw
    ensures ParseLine(raw).Malformed? ==> ParseLine(raw).text == TrimSpace(raw)
    ensures ParseLine(raw).Entry? ==>
      '=' !in ParseLine(raw).key && Trimmed(ParseLine(raw).key) && Trimmed(ParseLine(raw).value)
  {
    var t := TrimSpace(raw);
    TrimSpaceKeeps(raw, '=');
    CutSpec(t, '=');
    match Cut(t, '=')
    case None =>
    case Some((k, v)) =>
      TrimSpaceStrips(k);
      TrimSpaceStrips(v);
      TrimSpaceKeeps(k, '=');
  }

  /** Whether `raw` is an entry for key `k`. */
  predicate Defines(raw: string, k: string) {
    ParseLine(raw).Entry? && ParseLine(raw).key == k
  }

  /** Every line of a source, classified. */
  function ParseAll(lines: seq<string>): (ls: seq<Line>)
    ensures |ls| == |lines|
    ensures forall i :: 0 <= i < |lines| ==> ls[i] == ParseLine(lines[i])
  {
    seq(|lines|, i requires 0 <= i < |lines| => ParseLine(lines[i]))
  }

  /** The mapping built from classified lines read front to back: a later
      entry for a key replaces an earlier one, and the first malformed line
      aborts the pass with its text. */
  function Accumulate(ls: seq<Line>): Result<map<string, string>>
    decreases |ls|
  {
    if ls == [] then Ok(map[])
    else
      var prefix := Accumulate(ls[..|ls| - 1]);
      if prefix.Err? then prefix
      else match ls[|ls| - 1]
        case Skipped => prefix
        case Malformed(t) => Err(MalformedLine(t))
        case Entry(k, v) => Ok(prefix.value[k := v])
  }

  /** `readSource`. */
  function ReadSource(lines: seq<string>): Result<map<string, string>> {
    Accumulate(ParseAll(lines))
  }

  /** An empty source reads to the empty mapping. */
  lemma ReadSourceEmpty()
    ensures ReadSource([]) == Ok(map[])
  {
  }

  /** The reading loop of `readSource` driven by `arrayIter` or `scannerIter`:
      both iterators only hand out the lines in order. */
  method ReadLines(lines: seq<string>) returns (r: Result<map<string, string>>)
    ensures r == ReadSource(lines)
  {
    ghost var ls := ParseAll(lines);
    var vars: map<string, string> := map[];
    var i := 0;
    while i < |lines|
      invariant 0 <= i <= |lines|
      invariant Accumulate(ls[..i]) == Ok(vars)
    {
      var l := ParseLine(lines[i]);
      assert ls[i] == l;
      AccumulateStep(ls, i);
      match l {
        case Malformed(t) =>
          AccumulateErrorSticks(ls[..i + 1], ls[i + 1..]);
          assert ls[..i + 1] + ls[i + 1..] == ls;
          return Err(MalformedLine(t));
        case Entry(k, v) =>
          vars := vars[k := v];
        case Skipped =>
      }
      i := i + 1;
    }
    assert ls[..i] == ls;
    r := Ok(vars);
  }

  /** One more line read by a pass that has not failed so far. */
  lemma AccumulateStep(ls: seq<Line>, i: nat)
    requires i < |ls| && Accumulate(ls[..i]).Ok?
    ensures Accumulate(ls[..i + 1]) == match ls[i]
      case Skipped => Accumulate(ls[..i])
      case Malformed(t) => Err(MalformedLine(t))
      case Entry(k, v) => Ok(Accumulate(ls[..i]).value[k := v])
  {
    assert ls[..i + 1][..i] == ls[..i];
  }

  /** Once a pass has failed, more lines do not change the error. */
  lemma {:induction false} AccumulateErrorSticks(a: seq<Line>, b: seq<Line>)
    requires Accumulate(a).Err?
    ensures Accumulate(a + b) == Accumulate(a)
    decreases |b|
  {
    if b == [] {
      assert a + b == a;
    } else {
      var b' := b[..|b| - 1];
      assert (a + b)[..|a + b| - 1] == a + b';
      AccumulateErrorSticks(a, b');
    }
  }

  lemma {:induction false} AccumulateFails(ls: seq<Line>)
    ensures Accumulate(ls).Err? <==> exists i :: 0 <= i < |ls| && ls[i].Malformed?
    ensures Accumulate(ls).Err? ==>
      exists i :: 0 <= i < |ls| && ls[i].Malformed? && Accumulate(ls).error == MalformedLine(ls[i].text)
        && forall j :: 0 <= j < i ==> !ls[j].Malformed?
    decreases |ls|
  {
    if ls != [] {
      var init := ls[..|ls| - 1];
      AccumulateFails(init);
      assert forall j :: 0 <= j < |init| ==> init[j] == ls[j];
    }
  }

  /** A pass fails exactly when some line is malformed, and the error carries
      the trimmed text of the first malformed line. */
  lemma ReadSourceFails(lines: seq<string>)
    ensures ReadSource(lines).Err? <==> exists i :: 0 <= i < |lines| && ParseLine(lines[i]).Malformed?
    ensures ReadSource(lines).Err? ==>
      exists i :: 0 <= i < |lines| && ParseLine(lines[i]).Malformed?
        && ReadSource(lines).error == MalformedLine(TrimSpace(lines[i]))
        && forall j :: 0 <= j < i ==> !ParseLine(lines[j]).Malformed?
  {
    AccumulateFails(ParseAll(lines));
  }

  ghost predicate LastEntryOf(ls: seq<Line>, k: string, v: string) {
    exists i :: 0 <= i < |ls| && ls[i] == Entry(k, v)
      && forall j :: i < j < |ls| ==> !(ls[j].Entry? && ls[j].key == k)
  }

  /** Over classified lines: the keys of a successful pass are the keys of its entries. */
  lemma {:induction false} AccumulateKeys(ls: seq<Line>)
    requires Accumulate(ls).Ok?
    ensures forall k :: k in Accumulate(ls).value <==> exists i :: 0 <= i < |ls| && ls[i].Entry? && ls[i].key == k
    decreases |ls|
  {
    if ls != [] {
      var init := ls[..|ls| - 1];
      var last := ls[|ls| - 1];
      assert Accumulate(init).Ok?;
      AccumulateKeys(init);
      var m := Accumulate(init).value;
      var m' := Accumulate(ls).value;
      assert m' == if last.Entry? then m[last.key := last.value] else m;
      forall k
        ensures k in m' <==> exists i :: 0 <= i < |ls| && ls[i].Entry? && ls[i].key == k
      {
        if k in m' && !(last.Entry? && last.key == k) {
          var i :| 0 <= i < |init| && init[i].Entry? && init[i].key == k;
          assert ls[i] == init[i];
        }
        if exists i :: 0 <= i < |ls| && ls[i].Entry? && ls[i].key == k {
          var i :| 0 <= i < |ls| && ls[i].Entry? && ls[i].key == k;
          if i < |init| {
            assert init[i] == ls[i];
          }
        }
      }
    }
  }

  /** Over classified lines: each key of a successful pass maps to the value
      of the last entry for it. */
  lemma {:induction false} AccumulateLastWins(ls: seq<Line>)
    requires Accumulate(ls).Ok?
    ensures forall k :: k in Accumulate(ls).value ==> LastEntryOf(ls, k, Accumulate(ls).value[k])
    decreases |ls|
  {
    if ls != [] {
      var init := ls[..|ls| - 1];
      var last := ls[|ls| - 1];
      assert Accumulate(init).Ok?;
      AccumulateLastWins(init);
      var m := Accumulate(init).value;
      var m' := Accumulate(ls).value;
      assert m' == if last.Entry? then m[last.key := last.value] else m;
      forall k | k in m'
        ensures LastEntryOf(ls, k, m'[k])
      {
        if last.Entry? && last.key == k {
          assert ls[|ls| - 1] == Entry(k, m'[k]);
        } else {
          var i :| 0 <= i < |init| && init[i] == Entry(k, m[k])
            && forall j :: i < j < |init| ==> !(init[j].Entry? && init[j].key == k);
          assert ls[i] == Entry(k, m'[k]);
          forall j | i < j < |ls|
            ensures !(ls[j].Entry? && ls[j].key == k)
          {
            if j < |init| {
              assert ls[j] == init[j];
            }
          }
        }
      }
    }
  }

  /** The last line among `lines` that is an entry for `k` has value `v`. */
  ghost predicate LastEntry(lines: seq<string>, k: string, v: string) {
    exists i :: 0 <= i < |lines| && ParseLine(lines[i]) == Entry(k, v)
      && forall j :: i < j < |lines| ==> !Defines(lines[j], k)
  }

  /** Last line wins: after a successful pass the mapping holds exactly the
      keys some line defines, each with the value of the last line defining it. */
  lemma ReadSourceLastWins(lines: seq<string>)
    requires ReadSource(lines).Ok?
    ensures forall k :: k in ReadSource(lines).value <==> exists i :: 0 <= i < |lines| && Defines(lines[i], k)
    ensures forall k :: k in ReadSource(lines).value ==> LastEntry(lines, k, ReadSource(lines).value[k])
  {
    var ls := ParseAll(lines);
    AccumulateKeys(ls);
    AccumulateLastWins(ls);
    forall k | k in ReadSource(lines).value
      ensures LastEntry(lines, k, ReadSource(lines).value[k])
    {
      var i :| 0 <= i < |ls| && ls[i] == Entry(k, ReadSource(lines).value[k])
        && forall j :: i < j < |ls| ==> !(ls[j].Entry? && ls[j].key == k);
      assert ParseLine(lines[i]) == ls[i];
    }
  }

  /** Drops the lines the grammar ignores: blank once trimmed, or a comment.
      `SignificantKeeps` and `SignificantAppend` add that every other line is
      kept, as often as it occurs and in its order. */
  function Significant(lines: seq<string>): (r: seq<string>)
    ensures forall i :: 0 <= i < |r| ==> !IsBlankOrComment(TrimSpace(r[i]))
    decreases |lines|
  {
    if lines == [] then []
    else
      var last := lines[|lines| - 1];
      Significant(lines[..|lines| - 1]) + (if IsBlankOrComment(TrimSpace(last)) then [] else [last])
  }

  /** Each line that is neither blank nor a comment is kept as often as it
      occurs, and no other line is kept. */
  lemma {:induction false} SignificantKeeps(lines: seq<string>)
    ensures forall s :: multiset(Significant(lines))[s] == (if IsBlankOrComment(TrimSpace(s)) then 0 else multiset(lines)[s])
    decreases |lines|
  {
    if lines != [] {
      var init, last := lines[..|lines| - 1], lines[|lines| - 1];
      SignificantKeeps(init);
      assert lines == init + [last];
    }
  }

  /** Filtering a concatenation filters each part in turn: the kept lines
      keep their relative order. */
  lemma {:induction false} SignificantAppend(a: seq<string>, b: seq<string>)
    ensures Significant(a + b) == Significant(a) + Significant(b)
    decreases |b|
  {
    if b == [] {
      assert a + b == a;
    } else {
      var init := b[..|b| - 1];
      SignificantAppend(a, init);
      assert (a + b)[..|a + b| - 1] == a + init;
      assert (a + b)[|a + b| - 1] == b[|b| - 1];
    }
  }

  /** Blank and comment lines contribute nothing: removing them leaves the
      result of the pass, mapping or error, unchanged. */
  lemma {:induction false} SkippedLinesIrrelevant(lines: seq<string>)
    ensures ReadSource(Significant(lines)) == ReadSource(lines)
    decreases |lines|
  {
    if lines != [] {
      var init := lines[..|lines| - 1];
      var last := lines[|lines| - 1];
      SkippedLinesIrrelevant(init);
      var s := Significant(init);
      assert ParseAll(lines)[..|lines| - 1] == ParseAll(init);
      if !IsBlankOrComment(TrimSpace(last)) {
        assert ParseAll(s + [last])[..|s|] == ParseAll(s);
      } else {
        assert s + [] == s;
      }
    }
  }

  lemma {:induction false} AccumulateAppend(a: seq<Line>, b: seq<Line>)
    ensures Accumulate(a).Err? ==> Accumulate(a + b) == Accumulate(a)
    ensures Accumulate(a).Ok? && Accumulate(b).Err? ==> Accumulate(a + b) == Accumulate(b)
    ensures Accumulate(a).Ok? && Accumulate(b).Ok? ==>
      Accumulate(a + b) == Ok(Accumulate(a).value + Accumulate(b).value)
    decreases |b|
  {
    if Accumulate(a).Err? {
      AccumulateErrorSticks(a, b);
    } else if b == [] {
      assert a + b == a;
      assert Accumulate(a).value + map[] == Accumulate(a).value;
    } else {
      var b' := b[..|b| - 1];
      assert (a + b)[..|a + b| - 1] == a + b';
      assert (a + b)[|a + b| - 1] == b[|b| - 1];
      AccumulateAppend(a, b');
      if Accumulate(b').Ok? && b[|b| - 1].Entry? {
        var e := b[|b| - 1];
        var ma, mb := Accumulate(a).value, Accumulate(b').value;
        assert (ma + mb)[e.key := e.value] == ma + mb[e.key := e.value];
      }
    }
  }

  /** Reading two line sequences one after the other: the second's entries
      override the first's, and the first error encountered wins. */
  lemma ReadSourceAppend(a: seq<string>, b: seq<string>)
    ensures ReadSource(a).Err? ==> ReadSource(a + b) == ReadSource(a)
    ensures ReadSource(a).Ok? && ReadSource(b).Err? ==> ReadSource(a + b) == ReadSource(b)
    ensures ReadSource(a).Ok? && ReadSource(b).Ok? ==>
      ReadSource(a + b) == Ok(ReadSource(a).value + ReadSource(b).value)
  {
    assert ParseAll(a + b) == ParseAll(a) + ParseAll(b);
    AccumulateAppend(ParseAll(a), ParseAll(b));
  }

  lemma TrimLeftNonEmpty(s: string)
    requires TrimLeft(s) != []
    ensures TrimRight(TrimLeft(s)) != [] && TrimRight(TrimLeft(s))[0] == TrimLeft(s)[0]
  {
    TrimLeftSpec(s);
    TrimRightSpec(TrimLeft(s));
  }

  /** Around a separator that is not white space, trimming the whole is
      trimming the left part's front and the right part's back. */
  lemma TrimAroundSeparator(k: string, v: string)
    ensures TrimSpace(k + "=" + v) == TrimLeft(k) + "=" + TrimRight(v)
  {
    var kl, vr := TrimLeft(k), TrimRight(v);
    TrimLeftSpec(k);
    TrimRightSpec(v);
    var kpad, vpad := k[..|k| - |kl|], v[|vr|..];
    assert k == kpad + kl;
    assert v == vr + vpad;
    Regroup(kpad, kl, "=", vr, vpad);
    SeparatedTrimmed(kl, vr);
    TrimSpacePadded(kpad, kl + "=" + vr, vpad);
  }

  /** Moving the padding of `k = kpad + kl` and `v = vr + vpad` to the outside. */
  lemma Regroup(kpad: string, kl: string, sep: string, vr: string, vpad: string)
    ensures (kpad + kl) + sep + (vr + vpad) == kpad + (kl + sep + vr) + vpad
  {
  }

  /** Joining a key without leading white space and a value without trailing
      white space around '=' gives a trimmed string. */
  lemma SeparatedTrimmed(kl: string, vr: string)
    requires kl == [] || !IsSpace(kl[0])
    requires vr == [] || !IsSpace(vr[|vr| - 1])
    ensures Trimmed(kl + "=" + vr)
  {
    var t := kl + "=" + vr;
    if kl != [] {
      assert t[0] == kl[0];
    }
    if vr != [] {
      assert t[|t| - 1] == vr[|vr| - 1];
    }
  }

  /** Formatting an entry as `key=value` and reading it back gives the trimmed
      key and value, whatever white space surrounds either side; the value may
      itself contain '='. */
  lemma EntryRoundTrip(k: string, v: string)
    requires '=' !in k
    requires !IsBlankOrComment(TrimSpace(k)) || TrimSpace(k) == []
    ensures ParseLine(k + "=" + v) == Entry(TrimSpace(k), TrimSpace(v))
  {
    var kl, vr := TrimLeft(k), TrimRight(v);
    TrimAroundSeparator(k, v);
    SeparatedNotBlank(k, v);
    TrimLeftKeeps(k, '=');
    CutJoin(kl, '=', vr);
    TrimSpaceOfTrimLeft(k);
    TrimSpaceOfTrimRight(v);
  }

  /** The trimmed text of a `key=value` line is neither blank nor a comment
      when the key does not trim to a comment. */
  lemma SeparatedNotBlank(k: string, v: string)
    requires !IsBlankOrComment(TrimSpace(k)) || TrimSpace(k) == []
    ensures !IsBlankOrComment(TrimLeft(k) + "=" + TrimRight(v))
  {
    var t := TrimLeft(k) + "=" + TrimRight(v);
    if TrimLeft(k) != [] {
      TrimLeftNonEmpty(k);
      assert t[0] == TrimLeft(k)[0];
    }
  }

  /** Dropping leading white space removes no other character. */
  lemma TrimLeftKeeps(k: string, c: char)
    requires c !in k
    ensures c !in TrimLeft(k)
  {
    var kl := TrimLeft(k);
    TrimLeftSpec(k);
    assert forall m :: 0 <= m < |kl| ==> kl[m] == k[m + |k| - |kl|];
  }

  /** Trimming after `TrimLeft` is trimming. */
  lemma TrimSpaceOfTrimLeft(k: string)
    ensures TrimSpace(TrimLeft(k)) == TrimSpace(k)
  {
    var kl := TrimLeft(k);
    TrimLeftSpec(k);
    assert k == k[..|k| - |kl|] + kl + [];
    TrimSpaceIgnoresPadding(k[..|k| - |kl|], kl, []);
  }

  /** Trimming after `TrimRight` is trimming. */
  lemma TrimSpaceOfTrimRight(v: string)
    ensures TrimSpace(TrimRight(v)) == TrimSpace(v)
  {
    var vr := TrimRight(v);
    TrimRightSpec(v);
    assert v == [] + vr + v[|vr|..];
    TrimSpaceIgnoresPadding([], vr, v[|vr|..]);
  }

  /** A key and a value with no white space at their ends, each padded with
      white space, read back as the bare key and value. */
  lemma PaddedEntry(a: string, k: string, b: string, c: string, v: string, d: string)
    requires AllSpace(a) && AllSpace(b) && AllSpace(c) && AllSpace(d)
    requires Trimmed(k) && Trimmed(v) && k != [] && k[0] != '#' && '=' !in k
    ensures ParseLine(a + k + b + "=" + c + v + d) == Entry(k, v)
  {
    var key, value := a + k + b, c + v + d;
    assert a + k + b + "=" + c + v + d == key + "=" + value;
    SpaceFree(a, '=');
    SpaceFree(b, '=');
    InThree(a, k, b, '=');
    TrimSpacePadded(a, k, b);
    TrimSpacePadded(c, v, d);
    EntryRoundTrip(key, value);
  }

  /** A key and a value with no white space at their ends read back as they are. */
  lemma BareEntry(k: string, v: string)
    requires Trimmed(k) && Trimmed(v) && k != [] && k[0] != '#' && '=' !in k
    ensures ParseLine(k + "=" + v) == Entry(k, v)
  {
    assert [] + k + [] + "=" + [] + v + [] == k + "=" + v;
    PaddedEntry([], k, [], [], v, []);
  }
}
