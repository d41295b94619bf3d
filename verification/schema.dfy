/** The shape of a configuration struct, as `parseStruct` sees it through
    reflection, and the flat list of bindable field descriptors it produces. */
module Schema {

  /** Bit width of a Go integer kind; `int` and `uint` are 64 bits wide. */
  datatype Width = W8 | W16 | W32 | W64

  /** Bit width of a Go floating-point kind. */
  datatype FloatWidth = F32 | F64

  /** The reflect.Kind families `setValue` distinguishes; every other kind
      (uintptr, complex, slice, map, pointer, interface, ...) is `Other`,
      carrying the kind's printed name. */
  datatype Kind =
    | Bool
    | Int(width: Width)
    | Uint(width: Width)
    | Float(fwidth: FloatWidth)
    | Str
    | Other(name: string)

  /** A declared struct field: whether it is exported, its `env` tag ("" when
      absent), and either a non-struct type or a nested struct's own fields. */
  datatype Field = Field(name: string, exported: bool, tag: string, shape: Shape)

  datatype Shape = Leaf(kind: Kind) | Struct(fields: seq<Field>)

  /** Where a field lives: the declaration index at each nesting level. */
  type Path = seq<nat>

  /** `structField`: the key to look up and a handle on the field, here its path. */
  datatype Descriptor = Descriptor(path: Path, key: string, kind: Kind)

  /** The descriptors of `fs`, whose first field sits at index `start` of the
      struct found at `base`: fields in declaration order, an exported nested
      struct spliced in at its position, a leaf only when exported and tagged. */
  function Collect(fs: seq<Field>, base: Path, start: nat): seq<Descriptor>
    decreases fs
  {
    if fs == [] then []
    else
      var f := fs[0];
      var p := base + [start];
      (if !f.exported then []
       else match f.shape
         case Struct(sub) => Collect(sub, p, 0)
         case Leaf(k) => if f.tag == "" then [] else [Descriptor(p, f.tag, k)])
      + Collect(fs[1..], base, start + 1)
  }

  /** What field `start` of a struct at `base` contributes, in front of the
      fields after it. */
  function CollectHead(f: Field, base: Path, start: nat): seq<Descriptor> {
    if !f.exported then []
    else match f.shape
      case Struct(sub) => Collect(sub, base + [start], 0)
      case Leaf(k) => if f.tag == "" then [] else [Descriptor(base + [start], f.tag, k)]
  }

  /** `parseStruct` on the target struct. */
  function ParseStruct(fs: seq<Field>): seq<Descriptor> {
    Collect(fs, [], 0)
  }

  /** Following `p` from a struct whose field list `fs` starts at index
      `start` passes only through exported fields and nested structs and ends
      on an exported leaf whose tag is the non-empty `key`. */
  ghost predicate ResolvesFrom(fs: seq<Field>, start: nat, p: Path, key: string, kind: Kind)
    decreases p
  {
    && |p| > 0 && start <= p[0] < start + |fs|
    && var f := fs[p[0] - start];
    && f.exported
    && match f.shape
      case Struct(sub) => ResolvesFrom(sub, 0, p[1..], key, kind)
      case Leaf(k) => |p| == 1 && f.tag != "" && key == f.tag && kind == k
  }

  /** A path that names a tagged, reachable leaf of the struct `fs`. */
  ghost predicate Resolves(fs: seq<Field>, p: Path, key: string, kind: Kind) {
    ResolvesFrom(fs, 0, p, key, kind)
  }

  /** Past the first field, resolving from the whole list and from the rest
      agree. */
  lemma ResolvesPastFirst(fs: seq<Field>, start: nat, q: Path, key: string, kind: Kind)
    requires fs != [] && |q| > 0 && q[0] != start
    ensures ResolvesFrom(fs[1..], start + 1, q, key, kind) <==> ResolvesFrom(fs, start, q, key, kind)
  {
    if start < q[0] < start + |fs| {
      assert fs[1..][q[0] - (start + 1)] == fs[q[0] - start];
    }
  }

  lemma {:induction false} CollectMember(fs: seq<Field>, base: Path, start: nat, d: Descriptor)
    ensures d in Collect(fs, base, start) <==>
      |d.path| >= |base| && d.path[..|base|] == base && ResolvesFrom(fs, start, d.path[|base|..], d.key, d.kind)
    decreases fs
  {
    if fs != [] {
      var f := fs[0];
      var p := base + [start];
      var q := if |d.path| >= |base| then d.path[|base|..] else [];
      assert Collect(fs, base, start) == CollectHead(f, base, start) + Collect(fs[1..], base, start + 1);
      CollectMember(fs[1..], base, start + 1, d);
      if |d.path| >= |base| && d.path[..|base|] == base && |q| > 0 && q[0] != start {
        ResolvesPastFirst(fs, start, q, d.key, d.kind);
      }
      if f.exported && f.shape.Struct? {
        CollectMember(f.shape.fields, p, 0, d);
        if |d.path| >= |p| && d.path[..|p|] == p {
          assert d.path[..|base|] == base;
          assert q[0] == start && q[1..] == d.path[|p|..];
        }
        if |d.path| >= |base| && d.path[..|base|] == base && |q| > 0 && q[0] == start {
          assert d.path[..|p|] == p;
        }
      } else if f.exported && f.tag != "" {
        if d.path == p {
          assert q == [start];
        }
        if |d.path| >= |base| && d.path[..|base|] == base && q == [start] {
          assert d.path == d.path[..|base|] + q;
        }
      }
    }
  }

  /** Exactly the exported, tagged leaves reachable through exported nested
      structs produce descriptors, each keyed by its own tag and typed by its
      own kind: unexported fields, untagged leaves and the tags of struct-typed
      fields contribute nothing. */
  lemma ParseStructMembers(fs: seq<Field>, d: Descriptor)
    ensures d in ParseStruct(fs) <==> Resolves(fs, d.path, d.key, d.kind)
  {
    CollectMember(fs, [], 0, d);
    assert d.path[..0] == [] && d.path[0..] == d.path;
  }

  /** Every field is an exported leaf with a tag. */
  predicate FlatAndTagged(fs: seq<Field>) {
    forall i :: 0 <= i < |fs| ==> fs[i].exported && fs[i].shape.Leaf? && fs[i].tag != ""
  }

  /** A struct of exported, tagged, non-struct fields yields one descriptor
      per field, in declaration order, keyed by the field's tag. */
  lemma {:induction false} CollectFlat(fs: seq<Field>, base: Path, start: nat)
    requires FlatAndTagged(fs)
    ensures Collect(fs, base, start) ==
      seq(|fs|, i requires 0 <= i < |fs| => Descriptor(base + [start + i], fs[i].tag, fs[i].shape.kind))
    decreases |fs|
  {
    if fs != [] {
      var rest := fs[1..];
      assert FlatAndTagged(rest) by {
        assert forall i :: 0 <= i < |rest| ==> rest[i] == fs[i + 1];
      }
      CollectFlat(rest, base, start + 1);
      var d0 := Descriptor(base + [start], fs[0].tag, fs[0].shape.kind);
      var tail := Collect(rest, base, start + 1);
      assert Collect(fs, base, start) == [d0] + tail;
      var want := seq(|fs|, i requires 0 <= i < |fs| => Descriptor(base + [start + i], fs[i].tag, fs[i].shape.kind));
      forall i | 0 <= i < |fs|
        ensures want[i] == ([d0] + tail)[i]
      {
        if i > 0 {
          assert tail[i - 1] == Descriptor(base + [start + 1 + (i - 1)], rest[i - 1].tag, rest[i - 1].shape.kind);
        }
      }
      assert want == [d0] + tail;
    }
  }

  /** `p` comes before `q` in declaration order: they agree up to some level,
      where `p` names an earlier field. */
  ghost predicate PathBefore(p: Path, q: Path) {
    exists m :: 0 <= m < |p| && m < |q| && p[..m] == q[..m] && p[m] < q[m]
  }

  lemma CollectPrefix(fs: seq<Field>, base: Path, start: nat, d: Descriptor)
    requires d in Collect(fs, base, start)
    ensures |d.path| > |base| && d.path[..|base|] == base && start <= d.path[|base|] < start + |fs|
  {
    CollectMember(fs, base, start, d);
  }

  /** Each descriptor's path comes before every later one's. */
  ghost predicate InOrder(ds: seq<Descriptor>) {
    forall i, j :: 0 <= i < j < |ds| ==> PathBefore(ds[i].path, ds[j].path)
  }

  /** Two ordered runs, every path of the first before every path of the
      second, make an ordered run. */
  lemma ConcatInOrder(head: seq<Descriptor>, tail: seq<Descriptor>)
    requires InOrder(head) && InOrder(tail)
    requires forall a, b :: a in head && b in tail ==> PathBefore(a.path, b.path)
    ensures InOrder(head + tail)
  {
    var ds := head + tail;
    forall i, j | 0 <= i < j < |ds|
      ensures PathBefore(ds[i].path, ds[j].path)
    {
      if j < |head| {
        assert ds[i] == head[i] && ds[j] == head[j];
      } else if |head| <= i {
        assert ds[i] == tail[i - |head|] && ds[j] == tail[j - |head|];
      } else {
        assert ds[i] in head && ds[j] in tail;
      }
    }
  }

  /** Every path a field contributes comes before every path the later
      fields contribute. */
  lemma HeadBeforeTail(fs: seq<Field>, base: Path, start: nat, a: Descriptor, b: Descriptor)
    requires fs != []
    requires a in CollectHead(fs[0], base, start) && b in Collect(fs[1..], base, start + 1)
    ensures PathBefore(a.path, b.path)
  {
    var p := base + [start];
    if fs[0].shape.Struct? {
      CollectPrefix(fs[0].shape.fields, p, 0, a);
      assert a.path[..|base|] == p[..|base|] == base;
      assert a.path[|base|] == p[|base|] == start;
    }
    CollectPrefix(fs[1..], base, start + 1, b);
    var m := |base|;
    assert 0 <= m < |a.path| && m < |b.path| && a.path[..m] == b.path[..m] && a.path[m] < b.path[m];
  }

  lemma {:induction false} CollectOrdered(fs: seq<Field>, base: Path, start: nat)
    ensures InOrder(Collect(fs, base, start))
    decreases fs
  {
    if fs != [] {
      var f := fs[0];
      var head := CollectHead(f, base, start);
      var tail := Collect(fs[1..], base, start + 1);
      assert Collect(fs, base, start) == head + tail;
      CollectOrdered(fs[1..], base, start + 1);
      if f.exported && f.shape.Struct? {
        CollectOrdered(f.shape.fields, base + [start], 0);
      }
      forall a, b | a in head && b in tail
        ensures PathBefore(a.path, b.path)
      {
        HeadBeforeTail(fs, base, start, a, b);
      }
      ConcatInOrder(head, tail);
    }
  }

  /** Descriptors come out in declaration order, a nested struct's own
      descriptors in place of the field that holds it; in particular no two
      descriptors share a path. */
  lemma ParseStructOrdered(fs: seq<Field>)
    ensures forall i, j :: 0 <= i < j < |ParseStruct(fs)| ==>
      PathBefore(ParseStruct(fs)[i].path, ParseStruct(fs)[j].path)
    ensures forall i, j :: 0 <= i < j < |ParseStruct(fs)| ==>
      ParseStruct(fs)[i].path != ParseStruct(fs)[j].path
  {
    CollectOrdered(fs, [], 0);
    var ds := ParseStruct(fs);
    assert InOrder(ds);
    forall i, j | 0 <= i < j < |ds|
      ensures ds[i].path != ds[j].path
    {
      assert PathBefore(ds[i].path, ds[j].path);
      var m :| 0 <= m < |ds[i].path| && m < |ds[j].path| && ds[i].path[m] < ds[j].path[m];
    }
  }

  /** The part of a descriptor that does not depend on where its field lives. */
  function Binding(d: Descriptor): (string, Kind) {
    (d.key, d.kind)
  }

  function Bindings(ds: seq<Descriptor>): (bs: seq<(string, Kind)>)
    ensures |bs| == |ds| && forall i :: 0 <= i < |ds| ==> bs[i] == Binding(ds[i])
  {
    seq(|ds|, i requires 0 <= i < |ds| => Binding(ds[i]))
  }

  lemma BindingsAppend(a: seq<Descriptor>, b: seq<Descriptor>)
    ensures Bindings(a + b) == Bindings(a) + Bindings(b)
  {
  }

  /** Keys and kinds do not depend on where the struct sits. */
  lemma {:induction false} CollectBindingsAnywhere(fs: seq<Field>, b1: Path, s1: nat, b2: Path, s2: nat)
    ensures Bindings(Collect(fs, b1, s1)) == Bindings(Collect(fs, b2, s2))
    decreases fs
  {
    if fs != [] {
      var f := fs[0];
      CollectBindingsAnywhere(fs[1..], b1, s1 + 1, b2, s2 + 1);
      if f.exported && f.shape.Struct? {
        CollectBindingsAnywhere(f.shape.fields, b1 + [s1], 0, b2 + [s2], 0);
      }
      var h1, h2 := CollectHead(f, b1, s1), CollectHead(f, b2, s2);
      BindingsAppend(h1, Collect(fs[1..], b1, s1 + 1));
      BindingsAppend(h2, Collect(fs[1..], b2, s2 + 1));
    }
  }

  lemma {:induction false} CollectAppend(a: seq<Field>, b: seq<Field>, base: Path, start: nat)
    ensures Collect(a + b, base, start) == Collect(a, base, start) + Collect(b, base, start + |a|)
    decreases |a|
  {
    if a == [] {
      assert a + b == b;
    } else {
      assert (a + b)[0] == a[0] && (a + b)[1..] == a[1..] + b;
      CollectAppend(a[1..], b, base, start + 1);
    }
  }

  lemma CollectSingleStruct(f: Field, base: Path, start: nat)
    requires f.exported && f.shape.Struct?
    ensures Collect([f], base, start) == Collect(f.shape.fields, base + [start], 0)
  {
    assert [f][0] == f && [f][1..] == [];
  }

  lemma BindingsAppend3(a: seq<Descriptor>, b: seq<Descriptor>, c: seq<Descriptor>)
    ensures Bindings(a + b + c) == Bindings(a) + Bindings(b) + Bindings(c)
  {
    BindingsAppend(a + b, c);
    BindingsAppend(a, b);
  }

  lemma SplitAtStruct(fs: seq<Field>, i: nat)
    requires i < |fs| && fs[i].exported && fs[i].shape.Struct?
    ensures ParseStruct(fs) ==
      Collect(fs[..i], [], 0) + Collect(fs[i].shape.fields, [i], 0) + Collect(fs[i + 1..], [], i + 1)
  {
    var f, pre, post := fs[i], fs[..i], fs[i + 1..];
    assert fs == pre + ([f] + post);
    CollectAppend(pre, [f] + post, [], 0);
    CollectAppend([f], post, [], i);
    CollectSingleStruct(f, [], i);
    assert [] + [i] == [i];
  }

  lemma SplitInlined(pre: seq<Field>, sub: seq<Field>, post: seq<Field>)
    ensures ParseStruct(pre + sub + post) ==
      Collect(pre, [], 0) + Collect(sub, [], |pre|) + Collect(post, [], |pre| + |sub|)
  {
    assert pre + sub + post == pre + (sub + post);
    CollectAppend(pre, sub + post, [], 0);
    CollectAppend(sub, post, [], |pre|);
  }

  /** Nested fields bind exactly like top-level ones: replacing an exported
      struct-typed field by the fields it holds leaves the sequence of
      (key, kind) bindings unchanged, whatever tag the struct field carried. */
  lemma FlattenNested(fs: seq<Field>, i: nat)
    requires i < |fs| && fs[i].exported && fs[i].shape.Struct?
    ensures Bindings(ParseStruct(fs)) ==
      Bindings(ParseStruct(fs[..i] + fs[i].shape.fields + fs[i + 1..]))
  {
    var sub := fs[i].shape.fields;
    SplitAtStruct(fs, i);
    SplitInlined(fs[..i], sub, fs[i + 1..]);
    CollectBindingsAnywhere(sub, [i], 0, [], i);
    CollectBindingsAnywhere(fs[i + 1..], [], i + 1, [], i + |sub|);
    BindingsAppend3(Collect(fs[..i], [], 0), Collect(sub, [i], 0), Collect(fs[i + 1..], [], i + 1));
    BindingsAppend3(Collect(fs[..i], [], 0), Collect(sub, [], i), Collect(fs[i + 1..], [], i + |sub|));
  }
}
