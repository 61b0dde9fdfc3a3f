/**
 * The part of ECMAScript number semantics the QC rules use: `parseFloat`
 * (section 21.1.2.12 of ECMA-262), subtraction, `Math.abs` and the comparison
 * `> 0.5`. Values are exact reals; the rounding of binary64 is not modelled.
 */
module JsNumber {
  import opened JsText

  /** A double as the rules see it: not-a-number, a finite value, or a signed infinity. */
  datatype Double = NaN | Finite(value: real) | Infinity(negative: bool)

  /** StrWhiteSpaceChar: the white space and line terminators `parseFloat` skips. */
  predicate IsStrWhiteSpace(c: char) {
    c == '\t' || c == '\n' || c == '\U{B}' || c == '\U{C}' || c == '\r' || c == ' '
    || c == '\U{A0}' || c == '\U{1680}' || ('\U{2000}' <= c <= '\U{200A}')
    || c == '\U{2028}' || c == '\U{2029}' || c == '\U{202F}' || c == '\U{205F}'
    || c == '\U{3000}' || c == '\U{FEFF}'
  }

  function SkipWhiteSpace(s: string, i: nat): (j: nat)
    requires i <= |s|
    ensures i <= j <= |s|
    decreases |s| - i
  {
    if i < |s| && IsStrWhiteSpace(s[i]) then SkipWhiteSpace(s, i + 1) else i
  }

  /** End of the longest run of decimal digits starting at `i`. */
  function DigitRunEnd(s: string, i: nat): (j: nat)
    requires i <= |s|
    ensures i <= j <= |s|
    decreases |s| - i
  {
    if i < |s| && IsDigit(s[i]) then DigitRunEnd(s, i + 1) else i
  }

  function Pow10(n: nat): (p: nat)
    ensures p > 0
  {
    if n == 0 then 1 else 10 * Pow10(n - 1)
  }

  /**
   * The exponent part `e[+-]digits` found at `i`, or 0 when there is none
   * (an `e` not followed by digits is not part of the number).
   */
  function ExponentAt(s: string, i: nat): int
    requires i <= |s|
  {
    if i < |s| && (s[i] == 'e' || s[i] == 'E') then
      var signed := i + 1 < |s| && (s[i + 1] == '+' || s[i + 1] == '-');
      var start := if signed then i + 2 else i + 1;
      var end := DigitRunEnd(s, start);
      if end == start then 0
      else if signed && s[i + 1] == '-' then -(DecimalValue(s[start..end]) as int)
      else DecimalValue(s[start..end]) as int
    else 0
  }

  function Scale(m: real, e: int): real {
    if e >= 0 then m * Pow10(e) as real else m / Pow10(-e) as real
  }

  /**
   * `parseFloat(s)`: skip leading white space, read the longest prefix that is a
   * StrDecimalLiteral (an optional sign, then `Infinity` or digits with an optional
   * fraction and exponent) and ignore the rest; NaN when there is no such prefix.
   */
  function ParseFloat(s: string): Double {
    var i := SkipWhiteSpace(s, 0);
    var negative := i < |s| && s[i] == '-';
    var j := if i < |s| && (s[i] == '+' || s[i] == '-') then i + 1 else i;
    if StartsWithAt(s, j, "Infinity") then Infinity(negative)
    else UnsignedDecimalAt(s, j, negative)
  }

  /** Digits with an optional fraction and exponent at `j`, or NaN when no digit is there. */
  function UnsignedDecimalAt(s: string, j: nat, negative: bool): Double
    requires j <= |s|
  {
    var intEnd := DigitRunEnd(s, j);
    var hasPoint := intEnd < |s| && s[intEnd] == '.';
    var fracStart := if hasPoint then intEnd + 1 else intEnd;
    var fracEnd := if hasPoint then DigitRunEnd(s, fracStart) else intEnd;
    if intEnd == j && fracEnd == fracStart then NaN
    else
      var magnitude := Scale(DecimalFraction(s[j..intEnd], s[fracStart..fracEnd]), ExponentAt(s, fracEnd));
      Finite(if negative then -magnitude else magnitude)
  }

  /** The value of `whole.frac` written in decimal. */
  function DecimalFraction(whole: string, frac: string): real {
    DecimalValue(whole) as real + DecimalValue(frac) as real / Pow10(|frac|) as real
  }

  /** `a - b` on doubles. */
  function Sub(a: Double, b: Double): Double {
    match (a, b)
    case (NaN, _) => NaN
    case (_, NaN) => NaN
    case (Finite(x), Finite(y)) => Finite(x - y)
    case (Infinity(n), Finite(_)) => Infinity(n)
    case (Finite(_), Infinity(n)) => Infinity(!n)
    case (Infinity(n), Infinity(m)) => if n == m then NaN else Infinity(n)
  }

  /** `Math.abs(d)`. */
  function Abs(d: Double): Double {
    match d
    case NaN => NaN
    case Finite(x) => Finite(if x < 0.0 then -x else x)
    case Infinity(_) => Infinity(false)
  }

  /** `d > 0.5`; every comparison with NaN is false. */
  predicate ExceedsHalf(d: Double) {
    match d
    case NaN => false
    case Finite(x) => x > 0.5
    case Infinity(negative) => !negative
  }

  /** `Math.abs(a - b) > 0.5`, stated without the helpers: false whenever either side is NaN. */
  lemma DifferByMoreThanHalf(a: Double, b: Double)
    ensures ExceedsHalf(Abs(Sub(a, b))) <==>
      match (a, b)
      case (Finite(x), Finite(y)) => x - y > 0.5 || y - x > 0.5
      case (Infinity(n), Infinity(m)) => n != m
      case (NaN, _) => false
      case (_, NaN) => false
      case _ => true
  {
  }

  /** A text that starts with a digit has no white space, sign or `Infinity` in front. */
  lemma ParseFloatFromDigit(s: string)
    requires s != [] && IsDigit(s[0])
    ensures ParseFloat(s) == UnsignedDecimalAt(s, 0, false)
  {
    assert SkipWhiteSpace(s, 0) == 0 by { assert !IsStrWhiteSpace(s[0]); }
    assert !StartsWithAt(s, 0, "Infinity") by { assert s[0] != 'I'; }
  }

  /** A string of digits, optionally followed by a fraction, reads as its decimal value. */
  lemma ParseDecimal(whole: string, frac: string, rest: string)
    requires whole != [] && forall k :: 0 <= k < |whole| ==> IsDigit(whole[k])
    requires forall k :: 0 <= k < |frac| ==> IsDigit(frac[k])
    requires rest == [] || (!IsDigit(rest[0]) && rest[0] != 'e' && rest[0] != 'E')
    ensures ParseFloat(whole + "." + frac + rest) == Finite(DecimalFraction(whole, frac))
  {
    var s := whole + "." + frac + rest;
    assert s[0] == whole[0];
    ParseFloatFromDigit(s);
    UnsignedDecimalOf(whole, frac, rest);
  }

  lemma UnsignedDecimalOf(whole: string, frac: string, rest: string)
    requires whole != [] && forall k :: 0 <= k < |whole| ==> IsDigit(whole[k])
    requires forall k :: 0 <= k < |frac| ==> IsDigit(frac[k])
    requires rest == [] || (!IsDigit(rest[0]) && rest[0] != 'e' && rest[0] != 'E')
    ensures UnsignedDecimalAt(whole + "." + frac + rest, 0, false) == Finite(DecimalFraction(whole, frac))
  {
    var s := whole + "." + frac + rest;
    var fracEnd := |whole| + 1 + |frac|;
    DigitRunFrom(s, 0, |whole|);
    DigitRunFrom(s, |whole| + 1, fracEnd);
    assert s[..|whole|] == whole;
    assert s[|whole| + 1..fracEnd] == frac;
    assert ExponentAt(s, fracEnd) == 0 by {
      if fracEnd < |s| { assert s[fracEnd] == rest[0]; }
    }
    assert s[|whole|] == '.';
    var m := DecimalFraction(whole, frac);
    assert Scale(m, 0) == m by { assert Pow10(0) == 1; }
  }

  /** The run found is made of digits only. */
  lemma {:induction false} DigitRunDigits(s: string, i: nat)
    requires i <= |s|
    ensures forall k :: i <= k < DigitRunEnd(s, i) ==> IsDigit(s[k])
    decreases |s| - i
  {
    if i < |s| && IsDigit(s[i]) {
      DigitRunDigits(s, i + 1);
    }
  }

  lemma DigitRunFrom(s: string, i: nat, j: nat)
    requires i <= j <= |s|
    requires forall k :: i <= k < j ==> IsDigit(s[k])
    requires j < |s| ==> !IsDigit(s[j])
    ensures DigitRunEnd(s, i) == j
    decreases j - i
  {
    if i < j {
      DigitRunFrom(s, i + 1, j);
    }
  }

  /** A string of digits with no fraction reads as its integer value. */
  lemma ParseWhole(whole: string, rest: string)
    requires whole != [] && forall k :: 0 <= k < |whole| ==> IsDigit(whole[k])
    requires rest == [] || (!IsDigit(rest[0]) && rest[0] != '.' && rest[0] != 'e' && rest[0] != 'E')
    ensures ParseFloat(whole + rest) == Finite(DecimalValue(whole) as real)
  {
    var s := whole + rest;
    assert s[0] == whole[0];
    ParseFloatFromDigit(s);
    UnsignedWholeOf(whole, rest);
  }

  lemma UnsignedWholeOf(whole: string, rest: string)
    requires whole != [] && forall k :: 0 <= k < |whole| ==> IsDigit(whole[k])
    requires rest == [] || (!IsDigit(rest[0]) && rest[0] != '.' && rest[0] != 'e' && rest[0] != 'E')
    ensures UnsignedDecimalAt(whole + rest, 0, false) == Finite(DecimalValue(whole) as real)
  {
    var s := whole + rest;
    var n := |whole|;
    assert DigitRunEnd(s, 0) == n by { DigitRunFrom(s, 0, n); }
    assert n == |s| || s[n] != '.' by {
      if n < |s| { assert s[n] == rest[0]; }
    }
    assert ExponentAt(s, n) == 0 by {
      if n < |s| { assert s[n] == rest[0]; }
    }
    assert s[0..n] == whole;
    UnsignedWithoutFraction(s, n);
  }

  /** Digits up to `n` with neither a point nor an exponent after them read as their integer value. */
  lemma UnsignedWithoutFraction(s: string, n: nat)
    requires 0 < n <= |s| && DigitRunEnd(s, 0) == n
    requires n == |s| || s[n] != '.'
    requires ExponentAt(s, n) == 0
    ensures UnsignedDecimalAt(s, 0, false) == Finite(DecimalValue(s[0..n]) as real)
  {
    assert s[n..n] == "";
    NoFraction(s[0..n]);
    ScaleByZero(DecimalValue(s[0..n]) as real);
  }

  lemma NoFraction(whole: string)
    ensures DecimalFraction(whole, "") == DecimalValue(whole) as real
  {
    assert Pow10(0) == 1;
  }

  lemma ScaleByZero(m: real)
    ensures Scale(m, 0) == m
  {
    assert Pow10(0) == 1;
  }
}
