/** The two string primitives the line grammar relies on: Go's `strings.TrimSpace`
    and `strings.SplitN(s, "=", 2)`, over strings of Unicode code points.
    The functions are plain definitions; what they guarantee is stated by the
    lemmas that follow each of them. */
module Text {
  import opened Outcomes

  /** White space as Go's `unicode.IsSpace` defines it: within Latin-1 the
      controls '\t' '\n' '\v' '\f' '\r', the space, U+0085 and U+00A0; beyond
      it the Unicode White_Space code points. */
  predicate IsSpace(c: char) {
    || ('\t' <= c <= '\r') || c == ' ' || c == '\U{0085}' || c == '\U{00A0}'
    || (c > '\U{00FF}' && IsWideSpace(c))
  }

  /** The White_Space code points above U+00FF. */
  predicate IsWideSpace(c: char) {
    || c == '\U{1680}' || ('\U{2000}' <= c <= '\U{200A}')
    || c == '\U{2028}' || c == '\U{2029}' || c == '\U{202F}' || c == '\U{205F}' || c == '\U{3000}'
  }

  ghost predicate AllSpace(s: string) {
    forall i :: 0 <= i < |s| ==> IsSpace(s[i])
  }

  /** No white space at either end. */
  predicate Trimmed(s: string) {
    s == [] || (!IsSpace(s[0]) && !IsSpace(s[|s| - 1]))
  }

  /** `r` is `s` with white space runs removed from both ends: the padding
      that was removed is all white space and `r` has none left at its ends. */
  ghost predicate StripsTo(s: string, r: string) {
    exists i, j | 0 <= i <= j <= |s| :: s[i..j] == r && AllSpace(s[..i]) && AllSpace(s[j..]) && Trimmed(r)
  }

  /** Drops the leading white space. */
  function TrimLeft(s: string): string {
    if s != [] && IsSpace(s[0]) then TrimLeft(s[1..]) else s
  }

  /** Drops the trailing white space. */
  function TrimRight(s: string): string {
    if s != [] && IsSpace(s[|s| - 1]) then TrimRight(s[..|s| - 1]) else s
  }

  /** `strings.TrimSpace`. */
  function TrimSpace(s: string): string {
    TrimRight(TrimLeft(s))
  }

  /** `TrimLeft` returns a suffix of its input that does not start with white
      space, and what it dropped is all white space. */
  lemma {:induction false} TrimLeftSpec(s: string)
    ensures |TrimLeft(s)| <= |s| && TrimLeft(s) == s[|s| - |TrimLeft(s)|..]
    ensures AllSpace(s[..|s| - |TrimLeft(s)|])
    ensures TrimLeft(s) == [] || !IsSpace(TrimLeft(s)[0])
    decreases |s|
  {
    if s != [] && IsSpace(s[0]) {
      TrimLeftSpec(s[1..]);
      var n := |s| - |TrimLeft(s)|;
      assert forall i :: 1 <= i < n ==> s[..n][i] == s[1..][..n - 1][i - 1];
    }
  }

  /** `TrimRight` returns a prefix of its input that does not end with white
      space, and what it dropped is all white space. */
  lemma {:induction false} TrimRightSpec(s: string)
    ensures |TrimRight(s)| <= |s| && TrimRight(s) == s[..|TrimRight(s)|]
    ensures AllSpace(s[|TrimRight(s)|..])
    ensures TrimRight(s) == [] || !IsSpace(TrimRight(s)[|TrimRight(s)| - 1])
    decreases |s|
  {
    if s != [] && IsSpace(s[|s| - 1]) {
      var s' := s[..|s| - 1];
      TrimRightSpec(s');
      var n := |TrimRight(s)|;
      assert forall i :: 0 <= i < |s| - 1 - n ==> s[n..][i] == s'[n..][i];
    }
  }

  /** `TrimSpace` removes white space from the ends and nothing else. */
  lemma TrimSpaceStrips(s: string)
    ensures StripsTo(s, TrimSpace(s))
  {
    var l := TrimLeft(s);
    var r := TrimRight(l);
    TrimLeftSpec(s);
    TrimRightSpec(l);
    assert s[|s| - |l|..][..|r|] == s[|s| - |l|..|s| - |l| + |r|];
    assert s[|s| - |l| + |r|..] == l[|r|..];
    assert r == [] || !IsSpace(r[0]) by {
      if r != [] {
        assert r[0] == l[0];
      }
    }
  }

  lemma AllSpaceSlice(s: string, i: nat, j: nat)
    requires AllSpace(s) && i <= j <= |s|
    ensures AllSpace(s[i..j])
  {
    assert forall k :: 0 <= k < j - i ==> s[i..j][k] == s[i + k];
  }

  lemma AllSpaceConcat(a: string, b: string)
    requires AllSpace(a) && AllSpace(b)
    ensures AllSpace(a + b)
  {
    assert forall k :: 0 <= k < |a + b| ==> (a + b)[k] == if k < |a| then a[k] else b[k - |a|];
  }

  lemma SpaceFree(s: string, c: char)
    requires AllSpace(s) && !IsSpace(c)
    ensures c !in s
  {
  }

  lemma {:induction false} TrimLeftPadded(a: string, x: string)
    requires AllSpace(a)
    ensures TrimLeft(a + x) == TrimLeft(x)
    decreases |a|
  {
    if a != [] {
      assert (a + x)[0] == a[0] && IsSpace(a[0]);
      assert (a + x)[1..] == a[1..] + x;
      AllSpaceSlice(a, 1, |a|);
      TrimLeftPadded(a[1..], x);
    } else {
      assert a + x == x;
    }
  }

  lemma {:induction false} TrimRightPadded(x: string, b: string)
    requires AllSpace(b)
    ensures TrimRight(x + b) == TrimRight(x)
    decreases |b|
  {
    if b != [] {
      assert (x + b)[|x + b| - 1] == b[|b| - 1] && IsSpace(b[|b| - 1]);
      assert (x + b)[..|x + b| - 1] == x + b[..|b| - 1];
      AllSpaceSlice(b, 0, |b| - 1);
      TrimRightPadded(x, b[..|b| - 1]);
    } else {
      assert x + b == x;
    }
  }

  /** Surrounding a trimmed string with white space on either side does not
      change what `TrimSpace` returns. */
  lemma TrimSpacePadded(a: string, r: string, b: string)
    requires AllSpace(a) && AllSpace(b) && Trimmed(r)
    ensures TrimSpace(a + r + b) == r
  {
    assert a + r + b == a + (r + b);
    TrimLeftPadded(a, r + b);
    if r == [] {
      assert r + b == b;
      TrimLeftPadded(b, []);
      assert b + [] == b;
    } else {
      assert TrimLeft(r + b) == r + b by {
        assert (r + b)[0] == r[0];
      }
      TrimRightPadded(r, b);
    }
  }

  /** `TrimSpace` is characterised by `StripsTo`: its result is the only
      string that `s` strips to. */
  lemma TrimSpaceUnique(s: string, r: string)
    ensures StripsTo(s, r) <==> r == TrimSpace(s)
  {
    TrimSpaceStrips(s);
    if StripsTo(s, r) {
      var i, j :| 0 <= i <= j <= |s| && s[i..j] == r && AllSpace(s[..i]) && AllSpace(s[j..]) && Trimmed(r);
      SplitThree(s, i, j);
      TrimSpacePadded(s[..i], r, s[j..]);
    }
  }

  /** The three pieces `s[..i]`, `s[i..j]`, `s[j..]` make up `s`. */
  lemma SplitThree(s: string, i: nat, j: nat)
    requires i <= j <= |s|
    ensures s == s[..i] + s[i..j] + s[j..]
  {
  }

  /** A trimmed string between two runs of white space is what the whole strips to. */
  lemma StripsToAt(pre: string, r: string, post: string)
    requires AllSpace(pre) && AllSpace(post) && Trimmed(r)
    ensures StripsTo(pre + r + post, r)
  {
    var s := pre + r + post;
    var i, j := |pre|, |pre| + |r|;
    assert s[..i] == pre && s[i..j] == r && s[j..] == post;
  }

  lemma StripsToPadded(a: string, y: string, b: string, r: string)
    requires AllSpace(a) && AllSpace(b) && StripsTo(y, r)
    ensures StripsTo(a + y + b, r)
  {
    var i, j :| 0 <= i <= j <= |y| && y[i..j] == r && AllSpace(y[..i]) && AllSpace(y[j..]) && Trimmed(r);
    SplitThree(y, i, j);
    assert a + y + b == (a + y[..i]) + r + (y[j..] + b);
    AllSpaceConcat(a, y[..i]);
    AllSpaceConcat(y[j..], b);
    StripsToAt(a + y[..i], r, y[j..] + b);
  }

  /** White space around any string, trimmed or not, is invisible to `TrimSpace`. */
  lemma TrimSpaceIgnoresPadding(a: string, y: string, b: string)
    requires AllSpace(a) && AllSpace(b)
    ensures TrimSpace(a + y + b) == TrimSpace(y)
  {
    TrimSpaceStrips(y);
    StripsToPadded(a, y, b, TrimSpace(y));
    TrimSpaceUnique(a + y + b, TrimSpace(y));
  }

  /** Trimming twice is trimming once. */
  lemma TrimSpaceIdempotent(s: string)
    ensures TrimSpace(TrimSpace(s)) == TrimSpace(s)
  {
    TrimSpaceStrips(s);
    var r := TrimSpace(s);
    assert [] + r + [] == r;
    TrimSpacePadded([], r, []);
  }

  /** `TrimSpace` removes only white space, so a character that is not white
      space occurs in the trimmed string exactly when it occurs in the original. */
  lemma TrimSpaceKeeps(s: string, c: char)
    requires !IsSpace(c)
    ensures c in TrimSpace(s) <==> c in s
  {
    TrimSpaceStrips(s);
    var r := TrimSpace(s);
    var i, j :| 0 <= i <= j <= |s| && s[i..j] == r && AllSpace(s[..i]) && AllSpace(s[j..]) && Trimmed(r);
    var a, b := s[..i], s[j..];
    SplitThree(s, i, j);
    SpaceFree(a, c);
    SpaceFree(b, c);
    InThree(a, r, b, c);
  }

  lemma InThree(a: string, r: string, b: string, c: char)
    ensures c in a + r + b <==> c in a || c in r || c in b
  {
  }

  /** Position of the first occurrence of `c` in `s`, if any. */
  function IndexOf(s: string, c: char): Option<nat> {
    if s == [] then None
    else if s[0] == c then Some(0)
    else match IndexOf(s[1..], c)
      case None => None
      case Some(i) => Some(i + 1)
  }

  /** `IndexOf` finds the first occurrence, and finds none only when there is none. */
  lemma {:induction false} IndexOfSpec(s: string, c: char)
    ensures IndexOf(s, c).None? <==> c !in s
    ensures IndexOf(s, c).Some? ==>
      var i := IndexOf(s, c).value; i < |s| && s[i] == c && c !in s[..i]
    decreases |s|
  {
    if s != [] && s[0] != c {
      IndexOfSpec(s[1..], c);
      assert s == [s[0]] + s[1..];
      if IndexOf(s[1..], c).Some? {
        var i := IndexOf(s[1..], c).value;
        assert s[..i + 1] == [s[0]] + s[1..][..i];
      }
    }
  }

  /** `strings.SplitN(s, string(sep), 2)` when it yields two tokens: the text
      before the first `sep` and the text after it; None when `sep` does not occur. */
  function Cut(s: string, sep: char): Option<(string, string)> {
    match IndexOf(s, sep)
    case None => None
    case Some(i) =>
      IndexOfSpec(s, sep);
      Some((s[..i], s[i + 1..]))
  }

  /** `Cut` fails exactly when the separator is absent; otherwise the two
      parts rejoin to the input and the first part holds no separator. */
  lemma CutSpec(s: string, sep: char)
    ensures Cut(s, sep).None? <==> sep !in s
    ensures Cut(s, sep).Some? ==>
      s == Cut(s, sep).value.0 + [sep] + Cut(s, sep).value.1 && sep !in Cut(s, sep).value.0
  {
    IndexOfSpec(s, sep);
    if IndexOf(s, sep).Some? {
      var i := IndexOf(s, sep).value;
      assert s == s[..i] + [sep] + s[i + 1..];
    }
  }

  /** `Cut` undoes joining on a separator that the left part does not contain;
      the right part may contain the separator. */
  lemma CutJoin(k: string, sep: char, v: string)
    requires sep !in k
    ensures Cut(k + [sep] + v, sep) == Some((k, v))
  {
    var s := k + [sep] + v;
    CutSpec(s, sep);
    var r := Cut(s, sep);
    var k', v' := r.value.0, r.value.1;
    assert forall m :: 0 <= m < |k| ==> s[m] == k[m];
    assert forall m :: 0 <= m < |k'| ==> s[m] == k'[m];
    assert s[|k|] == sep && s[|k'|] == sep;
    assert |k'| == |k|;
    assert k' == s[..|k|] == k;
    assert v' == s[|k| + 1..] == v;
  }
}
