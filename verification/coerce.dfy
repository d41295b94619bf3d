/** `setValue`: turning the text found for a key into a value of the field's
    kind. Integer fields narrower than 64 bits receive the 64-bit parse
    result truncated to their width, as `reflect.Value.SetInt` and `SetUint`
    store it. */
module Coercion {
  import opened Outcomes
  import opened Schema
  import Strconv

  /** What a field holds after a successful assignment. */
  datatype Value =
    | BoolVal(b: bool)
    | IntVal(i: int)
    | UintVal(n: nat)
    | FloatVal(x: real)
    | StrVal(s: string)

  /** `strconv.ParseFloat(s, 64)`, which the model does not define: the caller
      supplies it. */
  type FloatParser = string -> Result<real>

  /** `parseFloat` fails as `strconv.ParseFloat` does: with a syntax or range
      error naming `ParseFloat` and the input. */
  ghost predicate ParsesLikeStrconv(parseFloat: FloatParser) {
    forall s :: parseFloat(s).Err? ==>
      parseFloat(s).error == SyntaxError("ParseFloat", s) || parseFloat(s).error == RangeError("ParseFloat", s)
  }

  /** 2 to the power of the width's bit count. */
  function Modulus(w: Width): nat {
    match w
    case W8 => 0x100
    case W16 => 0x1_0000
    case W32 => 0x1_0000_0000
    case W64 => 0x1_0000_0000_0000_0000
  }

  /** The range of a signed integer of width `w`. */
  predicate FitsInt(i: int, w: Width) {
    -(Modulus(w) / 2) <= i < Modulus(w) / 2
  }

  /** The range of an unsigned integer of width `w`. */
  predicate FitsUint(n: nat, w: Width) {
    n < Modulus(w)
  }

  /** Storing an int64 into a signed field of width `w`: two's-complement truncation. */
  function WrapInt(i: int, w: Width): int {
    var r := i % Modulus(w);
    if r >= Modulus(w) / 2 then r - Modulus(w) else r
  }

  /** Storing a uint64 into an unsigned field of width `w`: the low bits. */
  function WrapUint(n: nat, w: Width): nat {
    n % Modulus(w)
  }

  /** Euclidean remainders are unique: any decomposition `a * m + r` with
      `0 <= r < m` gives the remainder. */
  lemma ModUnique(i: int, m: int, a: int, r: int)
    requires m > 0 && 0 <= r < m && i == a * m + r
    ensures i % m == r
  {
    var d := a - i / m;
    assert d * m == i % m - r;
    if d >= 1 {
      assert false;
    } else if d <= -1 {
      assert false;
    }
  }

  /** Truncation lands in the field's range, agrees with the input modulo
      2^width, and leaves a value already in range alone. */
  lemma WrapIntSpec(i: int, w: Width)
    ensures FitsInt(WrapInt(i, w), w)
    ensures (WrapInt(i, w) - i) % Modulus(w) == 0
    ensures FitsInt(i, w) ==> WrapInt(i, w) == i
  {
    var m := Modulus(w);
    var q := i / m;
    assert i == q * m + i % m;
    if i % m >= m / 2 {
      assert WrapInt(i, w) - i == (-q - 1) * m;
      ModUnique(WrapInt(i, w) - i, m, -q - 1, 0);
    } else {
      assert WrapInt(i, w) - i == (-q) * m;
      ModUnique(WrapInt(i, w) - i, m, -q, 0);
    }
    if FitsInt(i, w) {
      if i < 0 {
        ModUnique(i, m, -1, i + m);
      } else {
        ModUnique(i, m, 0, i);
      }
    }
  }

  lemma WrapUintSpec(n: nat, w: Width)
    ensures FitsUint(WrapUint(n, w), w)
    ensures (WrapUint(n, w) - n) % Modulus(w) == 0
    ensures FitsUint(n, w) ==> WrapUint(n, w) == n
  {
    var m := Modulus(w);
    var q := n / m;
    assert n == q * m + n % m;
    assert WrapUint(n, w) - n == (-q) * m;
    ModUnique(WrapUint(n, w) - n, m, -q, 0);
    if FitsUint(n, w) {
      ModUnique(n, m, 0, n);
    }
  }

  /** `v` is a value a field of kind `k` can hold; no value fits an
      unsupported kind. */
  predicate Holds(k: Kind, v: Value) {
    match k
    case Bool => v.BoolVal?
    case Int(w) => v.IntVal? && FitsInt(v.i, w)
    case Uint(w) => v.UintVal? && FitsUint(v.n, w)
    case Float(_) => v.FloatVal?
    case Str => v.StrVal?
    case Other(_) => false
  }

  /** `setValue(field, text)`: the value the field is set to, or the error
      that leaves it untouched. */
  function SetValue(k: Kind, text: string, parseFloat: FloatParser): Result<Value> {
    match k
    case Bool =>
      var b :- Strconv.ParseBool(text);
      Ok(BoolVal(b))
    case Int(w) =>
      var i :- Strconv.ParseInt(text);
      Ok(IntVal(WrapInt(i, w)))
    case Uint(w) =>
      var n :- Strconv.ParseUint(text);
      Ok(UintVal(WrapUint(n, w)))
    case Float(_) =>
      var x :- parseFloat(text);
      Ok(FloatVal(x))
    case Str => Ok(StrVal(text))
    case Other(name) => Err(Unsupported(name))
  }

  /** Whatever `SetValue` produces fits the field it is meant for. */
  lemma SetValueHolds(k: Kind, text: string, parseFloat: FloatParser)
    ensures SetValue(k, text, parseFloat).Ok? ==> Holds(k, SetValue(k, text, parseFloat).value)
  {
    match k
    case Int(w) =>
      if Strconv.ParseInt(text).Ok? {
        WrapIntSpec(Strconv.ParseInt(text).value, w);
      }
    case Uint(w) =>
      if Strconv.ParseUint(text).Ok? {
        WrapUintSpec(Strconv.ParseUint(text).value, w);
      }
    case _ =>
  }

  /** Per kind, which texts are accepted and what they become, in terms of
      the accepted syntax of each strconv function: a string field takes the
      text verbatim, an unsupported kind fails whatever the text. */
  lemma SetValueCases(k: Kind, text: string, parseFloat: FloatParser)
    ensures k.Bool? ==>
      (SetValue(k, text, parseFloat).Ok? <==> text in Strconv.TrueWords || text in Strconv.FalseWords) &&
      (SetValue(k, text, parseFloat) == Ok(BoolVal(true)) <==> text in Strconv.TrueWords)
    ensures k.Int? ==>
      (SetValue(k, text, parseFloat).Ok? <==>
        Strconv.Unsigned(text) != [] && Strconv.AllDigits(Strconv.Unsigned(text)) &&
        -(Strconv.Pow63 as int) <= Strconv.SignedValue(text) < Strconv.Pow63) &&
      (SetValue(k, text, parseFloat).Ok? ==>
        SetValue(k, text, parseFloat).value == IntVal(WrapInt(Strconv.SignedValue(text), k.width)))
    ensures k.Uint? ==>
      (SetValue(k, text, parseFloat).Ok? <==>
        text != [] && Strconv.AllDigits(text) && Strconv.Decimal(text) <= Strconv.MaxUint64) &&
      (SetValue(k, text, parseFloat).Ok? ==>
        SetValue(k, text, parseFloat).value == UintVal(WrapUint(Strconv.Decimal(text), k.width)))
    ensures k.Float? ==>
      (SetValue(k, text, parseFloat).Ok? <==> parseFloat(text).Ok?) &&
      (SetValue(k, text, parseFloat).Ok? ==> SetValue(k, text, parseFloat).value == FloatVal(parseFloat(text).value))
    ensures k.Str? ==> SetValue(k, text, parseFloat) == Ok(StrVal(text))
    ensures k.Other? ==> SetValue(k, text, parseFloat) == Err(Unsupported(k.name))
  {
    Strconv.ParseBoolSpec(text, true);
    Strconv.ParseIntSpec(text);
    Strconv.ParseUintSpec(text);
  }

  /** The strconv function whose errors a kind's conversion reports. */
  function StrconvName(k: Kind): string {
    match k
    case Bool => "ParseBool"
    case Int(_) => "ParseInt"
    case Uint(_) => "ParseUint"
    case Float(_) => "ParseFloat"
    case _ => ""
  }

  /** A conversion fails only with a strconv error naming the parser and
      the text, or because the kind is unsupported. */
  lemma SetValueErrors(k: Kind, text: string, parseFloat: FloatParser)
    requires ParsesLikeStrconv(parseFloat)
    ensures SetValue(k, text, parseFloat).Err? ==>
      var e := SetValue(k, text, parseFloat).error;
      && (e.SyntaxError? || e.RangeError? || e.Unsupported?)
      && (e.SyntaxError? || e.RangeError? ==> e.input == text && e.func == StrconvName(k))
      && (e.Unsupported? <==> k.Other?)
  {
    Strconv.ParseBoolSpec(text, true);
    Strconv.ParseIntSpec(text);
    Strconv.ParseUintSpec(text);
  }

  /** For 64-bit fields no truncation happens: an int or int64 field gets
      exactly the value `ParseInt` reads, a uint or uint64 field exactly the
      value `ParseUint` reads. */
  lemma SetValueWide(text: string, parseFloat: FloatParser)
    ensures Strconv.ParseInt(text).Ok? ==> SetValue(Int(W64), text, parseFloat) == Ok(IntVal(Strconv.ParseInt(text).value))
    ensures Strconv.ParseUint(text).Ok? ==> SetValue(Uint(W64), text, parseFloat) == Ok(UintVal(Strconv.ParseUint(text).value))
  {
    Strconv.ParseIntSpec(text);
    Strconv.ParseUintSpec(text);
    if Strconv.ParseInt(text).Ok? {
      WrapIntSpec(Strconv.ParseInt(text).value, W64);
    }
    if Strconv.ParseUint(text).Ok? {
      WrapUintSpec(Strconv.ParseUint(text).value, W64);
    }
  }

  /** A textual form of a non-float value, as Go's formatting functions write it. */
  function Render(v: Value): string {
    match v
    case BoolVal(b) => Strconv.FormatBool(b)
    case IntVal(i) => Strconv.FormatInt(i)
    case UintVal(n) => Strconv.FormatUint(n)
    case FloatVal(_) => ""
    case StrVal(s) => s
  }

  /** Every value a non-float field can hold is set back from its textual
      form: `SetValue` is a left inverse of `Render` on each kind's range. */
  lemma SetValueRender(k: Kind, v: Value, parseFloat: FloatParser)
    requires Holds(k, v) && !k.Float?
    ensures SetValue(k, Render(v), parseFloat) == Ok(v)
  {
    match k
    case Bool => Strconv.ParseBoolSpec("", v.b);
    case Int(w) =>
      assert Modulus(w) / 2 <= Strconv.Pow63;
      Strconv.ParseFormatInt(v.i);
      WrapIntSpec(v.i, w);
    case Uint(w) =>
      Strconv.ParseFormatUint(v.n);
      WrapUintSpec(v.n, w);
    case Str =>
  }

  /** A narrow field takes any text that parses as a 64-bit integer and keeps
      its low bits: "300" sets an int8 field to 44, "-129" sets it to 127, and
      "256" sets a uint8 field to 0, all without an error.
      One lemma per example. */
  lemma WrapsInt8Above(parseFloat: FloatParser)
    ensures SetValue(Int(W8), "300", parseFloat) == Ok(IntVal(44))
  {
    assert Strconv.FormatUint(3) == "3";
    assert Strconv.FormatUint(30) == "30";
    assert Strconv.FormatUint(300) == "300";
    Strconv.ParseFormatInt(300);
    assert WrapInt(300, W8) == 44;
  }

  lemma WrapsInt8Below(parseFloat: FloatParser)
    ensures SetValue(Int(W8), "-129", parseFloat) == Ok(IntVal(127))
  {
    assert Strconv.FormatUint(1) == "1";
    assert Strconv.FormatUint(12) == "12";
    assert Strconv.FormatUint(129) == "129";
    assert Strconv.FormatInt(-129) == "-129";
    Strconv.ParseFormatInt(-129);
    assert WrapInt(-129, W8) == 127;
  }

  lemma WrapsUint8(parseFloat: FloatParser)
    ensures SetValue(Uint(W8), "256", parseFloat) == Ok(UintVal(0))
  {
    assert Strconv.FormatUint(2) == "2";
    assert Strconv.FormatUint(25) == "25";
    assert Strconv.FormatUint(256) == "256";
    Strconv.ParseFormatUint(256);
    assert WrapUint(256, W8) == 0;
  }
}
