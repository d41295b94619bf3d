/** The parts of Go's `strconv` that `setValue` calls: `ParseBool`,
    `ParseUint(s, 10, 64)` and `ParseInt(s, 10, 64)`, with the formatting
    functions they invert. Errors carry the parsing function's name and the
    whole input, as `strconv.NumError` does. */
module Strconv {
  import opened Outcomes

  const MaxUint64: nat := 0xFFFF_FFFF_FFFF_FFFF
  /** 2^63: one past the largest int64, and the magnitude of the smallest. */
  const Pow63: nat := 0x8000_0000_0000_0000

  const TrueWords: set<string> := {"1", "t", "T", "TRUE", "true", "True"}
  const FalseWords: set<string> := {"0", "f", "F", "FALSE", "false", "False"}

  /** `strconv.ParseBool`: exactly twelve spellings are accepted; there is no
      general case folding. */
  function ParseBool(s: string): Result<bool> {
    if s in TrueWords then Ok(true)
    else if s in FalseWords then Ok(false)
    else Err(SyntaxError("ParseBool", s))
  }

  /** `strconv.FormatBool`. */
  function FormatBool(b: bool): string {
    if b then "true" else "false"
  }

  /** `ParseBool` accepts precisely the listed spellings, the true ones as
      true, and reads back what `FormatBool` writes. */
  lemma ParseBoolSpec(s: string, b: bool)
    ensures ParseBool(s).Ok? <==> s in TrueWords || s in FalseWords
    ensures ParseBool(s) == Ok(true) <==> s in TrueWords
    ensures ParseBool(s).Err? ==> ParseBool(s).error == SyntaxError("ParseBool", s)
    ensures ParseBool(FormatBool(b)) == Ok(b)
  {
    assert "true" in TrueWords && "false" in FalseWords;
    assert TrueWords !! FalseWords;
  }

  /** Three texts outside the twelve spellings are rejected: two mixed-case
      variants of listed words and one word that is not listed at all. */
  lemma ParseBoolIsNotCaseInsensitive()
    ensures ParseBool("tRUE").Err? && ParseBool("FaLsE").Err? && ParseBool("yes").Err?
  {
    assert "tRUE" !in TrueWords && "tRUE" !in FalseWords by {
      assert "tRUE"[1] == 'R';
    }
    assert "FaLsE" !in TrueWords && "FaLsE" !in FalseWords by {
      assert "FaLsE"[1] == 'a';
    }
  }

  predicate IsDigit(c: char) {
    '0' <= c <= '9'
  }

  function DigitValue(c: char): nat
    requires IsDigit(c)
  {
    (c as int) - ('0' as int)
  }

  predicate AllDigits(s: string) {
    forall i :: 0 <= i < |s| ==> IsDigit(s[i])
  }

  /** The number a string of decimal digits denotes. */
  function Decimal(s: string): nat
    requires AllDigits(s)
    decreases |s|
  {
    if s == [] then 0 else Decimal(s[..|s| - 1]) * 10 + DigitValue(s[|s| - 1])
  }

  /** How far the digit loop of `ParseUint` gets. */
  datatype Scan = Value(n: nat) | BadDigit | Overflow

  /** The loop of `ParseUint`: digits are consumed left to right, and the
      first character that is not a digit, or the first digit that takes the
      value past 2^64 - 1, stops it. An overflow is therefore reported even
      when a non-digit follows later. */
  function ScanDigits(s: string): Scan
    decreases |s|
  {
    if s == [] then Value(0)
    else match ScanDigits(s[..|s| - 1])
      case Value(v) =>
        var c := s[|s| - 1];
        if !IsDigit(c) then BadDigit
        else if v * 10 + DigitValue(c) > MaxUint64 then Overflow
        else Value(v * 10 + DigitValue(c))
      case other => other
  }

  /** `strconv.ParseUint(s, 10, 64)`. */
  function ParseUint(s: string): Result<nat> {
    if s == [] then Err(SyntaxError("ParseUint", s))
    else match ScanDigits(s)
      case Value(n) => Ok(n)
      case BadDigit => Err(SyntaxError("ParseUint", s))
      case Overflow => Err(RangeError("ParseUint", s))
  }

  /** `strconv.ParseInt(s, 10, 64)`: an optional sign, then what `ParseUint`
      accepts; a magnitude past the int64 range is a range error, and every
      error names `ParseInt` and the whole input. */
  function ParseInt(s: string): Result<int> {
    if s == [] then Err(SyntaxError("ParseInt", s))
    else
      var neg := s[0] == '-';
      var digits := if s[0] == '+' || s[0] == '-' then s[1..] else s;
      match ParseUint(digits)
      case Err(e) =>
        if e.SyntaxError? then Err(SyntaxError("ParseInt", s)) else Err(RangeError("ParseInt", s))
      case Ok(u) =>
        if !neg && u >= Pow63 then Err(RangeError("ParseInt", s))
        else if neg && u > Pow63 then Err(RangeError("ParseInt", s))
        else Ok(if neg then -(u as int) else u as int)
  }

  lemma {:induction false} DecimalPrefix(s: string, i: nat)
    requires AllDigits(s) && i <= |s|
    ensures AllDigits(s[..i]) && Decimal(s[..i]) <= Decimal(s)
    decreases |s|
  {
    if i < |s| {
      var s' := s[..|s| - 1];
      assert s'[..i] == s[..i];
      DecimalPrefix(s', i);
    } else {
      assert s[..i] == s;
    }
  }

  /** The digit loop succeeds exactly on all-digit strings whose value fits in
      64 bits, and then yields that value; a string whose digits all are
      digits can only overflow. */
  lemma {:induction false} ScanDigitsSpec(s: string)
    ensures ScanDigits(s).Value? <==> AllDigits(s) && Decimal(s) <= MaxUint64
    ensures ScanDigits(s).Value? ==> ScanDigits(s).n == Decimal(s)
    ensures AllDigits(s) && Decimal(s) > MaxUint64 ==> ScanDigits(s).Overflow?
    decreases |s|
  {
    if s != [] {
      var s' := s[..|s| - 1];
      ScanDigitsSpec(s');
      if AllDigits(s) {
        assert AllDigits(s');
        DecimalPrefix(s, |s| - 1);
      } else if AllDigits(s') {
        assert !IsDigit(s[|s| - 1]);
      }
    }
  }

  /** `ParseUint` accepts exactly the non-empty digit strings whose value is
      at most 2^64 - 1 (leading zeros allowed, no sign), yields that value,
      and rejects an all-digit string that is too large with a range error. */
  lemma ParseUintSpec(s: string)
    ensures ParseUint(s).Ok? <==> s != [] && AllDigits(s) && Decimal(s) <= MaxUint64
    ensures ParseUint(s).Ok? ==> ParseUint(s).value == Decimal(s)
    ensures s != [] && AllDigits(s) && Decimal(s) > MaxUint64 ==> ParseUint(s) == Err(RangeError("ParseUint", s))
    ensures ParseUint(s).Err? ==>
      ParseUint(s).error == SyntaxError("ParseUint", s) || ParseUint(s).error == RangeError("ParseUint", s)
  {
    ScanDigitsSpec(s);
  }

  /** Once the digit loop has stopped, the rest of the text is never looked at. */
  lemma {:induction false} ScanDigitsSticks(s: string, i: nat)
    requires i <= |s| && !ScanDigits(s[..i]).Value?
    ensures ScanDigits(s) == ScanDigits(s[..i])
    decreases |s|
  {
    if i < |s| {
      var s' := s[..|s| - 1];
      assert s'[..i] == s[..i];
      ScanDigitsSticks(s', i);
    } else {
      assert s[..i] == s;
    }
  }

  /** `ParseUint` reports errors in scan order: a run of leading digits that
      already exceeds 2^64 - 1 is a range error whatever follows it, and a
      non-digit reached while the value still fits is a syntax error whatever
      follows it. */
  lemma ParseUintScanOrder(s: string)
    ensures forall i :: 0 <= i <= |s| && AllDigits(s[..i]) && Decimal(s[..i]) > MaxUint64 ==>
      ParseUint(s) == Err(RangeError("ParseUint", s))
    ensures forall i :: 0 <= i < |s| && AllDigits(s[..i]) && Decimal(s[..i]) <= MaxUint64 && !IsDigit(s[i]) ==>
      ParseUint(s) == Err(SyntaxError("ParseUint", s))
  {
    forall i | 0 <= i <= |s| && AllDigits(s[..i]) && Decimal(s[..i]) > MaxUint64
      ensures ParseUint(s) == Err(RangeError("ParseUint", s))
    {
      ScanDigitsSpec(s[..i]);
      ScanDigitsSticks(s, i);
    }
    forall i | 0 <= i < |s| && AllDigits(s[..i]) && Decimal(s[..i]) <= MaxUint64 && !IsDigit(s[i])
      ensures ParseUint(s) == Err(SyntaxError("ParseUint", s))
    {
      ScanDigitsSpec(s[..i]);
      var t := s[..i + 1];
      assert t[..|t| - 1] == s[..i] && t[|t| - 1] == s[i];
      assert ScanDigits(t) == BadDigit;
      ScanDigitsSticks(s, i + 1);
    }
  }

  /** The text after an optional leading sign. */
  function Unsigned(s: string): string {
    if s != [] && (s[0] == '+' || s[0] == '-') then s[1..] else s
  }

  /** The int64 a well-formed decimal denotes, before range checking. */
  function SignedValue(s: string): int
    requires AllDigits(Unsigned(s))
  {
    if s != [] && s[0] == '-' then -(Decimal(Unsigned(s)) as int) else Decimal(Unsigned(s)) as int
  }

  /** `ParseInt` accepts exactly an optional sign followed by at least one
      digit whose signed value lies in [-2^63, 2^63 - 1], and yields that
      value; a well-formed number outside the range is a range error. */
  lemma ParseIntSpec(s: string)
    ensures ParseInt(s).Ok? <==>
      Unsigned(s) != [] && AllDigits(Unsigned(s)) && -(Pow63 as int) <= SignedValue(s) < Pow63
    ensures ParseInt(s).Ok? ==> ParseInt(s).value == SignedValue(s)
    ensures Unsigned(s) != [] && AllDigits(Unsigned(s)) && !(-(Pow63 as int) <= SignedValue(s) < Pow63) ==>
      ParseInt(s) == Err(RangeError("ParseInt", s))
    ensures ParseInt(s).Err? ==>
      ParseInt(s).error == SyntaxError("ParseInt", s) || ParseInt(s).error == RangeError("ParseInt", s)
  {
    if s != [] {
      ParseUintSpec(Unsigned(s));
    }
  }

  /** `ParseInt` reports errors in the same scan order over the text after
      the sign, naming `ParseInt` and the whole input. */
  lemma ParseIntScanOrder(s: string)
    ensures forall i :: 0 <= i <= |Unsigned(s)| && AllDigits(Unsigned(s)[..i]) && Decimal(Unsigned(s)[..i]) > MaxUint64 ==>
      ParseInt(s) == Err(RangeError("ParseInt", s))
    ensures forall i :: 0 <= i < |Unsigned(s)| && AllDigits(Unsigned(s)[..i]) && Decimal(Unsigned(s)[..i]) <= MaxUint64 && !IsDigit(Unsigned(s)[i]) ==>
      ParseInt(s) == Err(SyntaxError("ParseInt", s))
  {
    ParseUintScanOrder(Unsigned(s));
  }

  /** The decimal digits of `n`, most significant first, without leading zeros. */
  function FormatUint(n: nat): string
    decreases n
  {
    var d := ['0' + (n % 10) as char];
    if n < 10 then d else FormatUint(n / 10) + d
  }

  lemma {:induction false} FormatUintDigits(n: nat)
    ensures FormatUint(n) != [] && AllDigits(FormatUint(n)) && Decimal(FormatUint(n)) == n
    decreases n
  {
    var d := ['0' + (n % 10) as char];
    if n >= 10 {
      FormatUintDigits(n / 10);
      var s := FormatUint(n);
      assert s == FormatUint(n / 10) + d;
      assert s[..|s| - 1] == FormatUint(n / 10);
    }
  }

  /** `strconv.FormatInt(i, 10)`. */
  function FormatInt(i: int): string {
    if i < 0 then "-" + FormatUint(-i) else FormatUint(i)
  }

  /** Every 64-bit unsigned value survives formatting and parsing. */
  lemma ParseFormatUint(n: nat)
    requires n <= MaxUint64
    ensures ParseUint(FormatUint(n)) == Ok(n)
  {
    FormatUintDigits(n);
    ParseUintSpec(FormatUint(n));
  }

  /** Every int64 value survives formatting and parsing. */
  lemma ParseFormatInt(i: int)
    requires -(Pow63 as int) <= i < Pow63
    ensures ParseInt(FormatInt(i)) == Ok(i)
  {
    var s := FormatInt(i);
    var u := if i < 0 then -i else i;
    FormatUintDigits(u);
    assert FormatUint(u)[0] != '-' && FormatUint(u)[0] != '+' by {
      assert IsDigit(FormatUint(u)[0]);
    }
    assert Unsigned(s) == FormatUint(u);
    ParseIntSpec(s);
  }
}
