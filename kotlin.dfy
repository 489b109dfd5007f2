/** The few Kotlin/JVM primitives the repositories rely on, stated exactly:
    nullable values, exceptions, `Char.isWhitespace`, `String?.isNullOrBlank`,
    `String.toLongOrNull` and `Double.roundToLong`. */
module Kotlin {

  /** A Kotlin nullable value: `None` is `null`. */
  datatype Option<+T> = None | Some(value: T)

  /** The exceptions that can escape from the repositories. */
  datatype Exception =
    | CannotRoundNaN   // `roundToLong()` on NaN throws IllegalArgumentException
    | NullResultSet    // `executeAsOne()` on a query that returned no row
    | MoreThanOneRow   // `executeAsOne()` on a query that returned several rows
    | SqlInsertFailed  // the database refused an `insert`; the transaction rolls back

  /** A value, or the exception thrown instead of producing it. */
  datatype Result<+T> = Success(value: T) | Failure(error: Exception) {
    predicate IsFailure() { Failure? }

    function PropagateFailure<U>(): Result<U>
      requires Failure?
    {
      Failure(error)
    }

    function Extract(): T
      requires Success?
    {
      value
    }
  }

  /** `body ?: emptyList()` */
  function OrEmpty<T>(body: Option<seq<T>>): seq<T>
  {
    match body
    case None => []
    case Some(list) => list
  }

  const LONG_MIN: int := -0x8000_0000_0000_0000
  const LONG_MAX: int := 0x7FFF_FFFF_FFFF_FFFF

  /** The value fits a Kotlin `Long`. */
  predicate IsLong(n: int) { LONG_MIN <= n <= LONG_MAX }

  /** `Char.isWhitespace()` on the JVM: `Character.isWhitespace(c) || Character.isSpaceChar(c)`,
      that is the ASCII controls TAB..CR and FS..US, and every Unicode space, line and paragraph
      separator (including the no-break spaces). */
  predicate IsWhitespace(c: char)
  {
    var n := c as int;
    || (0x09 <= n <= 0x0D) || (0x1C <= n <= 0x20)
    || n == 0xA0 || n == 0x1680 || (0x2000 <= n <= 0x200A)
    || n == 0x2028 || n == 0x2029 || n == 0x202F || n == 0x205F || n == 0x3000
  }

  /** `String?.isNullOrBlank()`: null, or every character is whitespace (so also the empty string). */
  predicate IsNullOrBlank(s: Option<string>)
  {
    s.None? || forall i | 0 <= i < |s.value| :: IsWhitespace(s.value[i])
  }

  predicate IsDigit(c: char) { '0' <= c <= '9' }

  predicate AllDigits(d: string) { forall i | 0 <= i < |d| :: IsDigit(d[i]) }

  function DigitValue(c: char): nat
    requires IsDigit(c)
  {
    c as int - '0' as int
  }

  /** The value of a string of decimal digits, most significant first. */
  function DigitsValue(d: string): nat
    requires AllDigits(d)
  {
    if |d| == 0 then 0 else 10 * DigitsValue(d[..|d| - 1]) + DigitValue(d[|d| - 1])
  }

  /** The value of a two- or three-digit numeral, digit by digit. */
  lemma DigitsValueShort(d: string)
    requires AllDigits(d) && 2 <= |d| <= 3
    ensures |d| == 2 ==> DigitsValue(d) == 10 * DigitValue(d[0]) + DigitValue(d[1])
    ensures |d| == 3 ==> DigitsValue(d) == 100 * DigitValue(d[0]) + 10 * DigitValue(d[1]) + DigitValue(d[2])
  {
    assert DigitsValue(d[..1]) == DigitValue(d[0]) by {
      assert d[..1][..0] == [];
    }
    if |d| == 3 {
      assert d[..2][..1] == d[..1];
      assert DigitsValue(d[..2]) == 10 * DigitValue(d[0]) + DigitValue(d[1]);
    }
  }

  /** `String.toLongOrNull()` (radix 10): an optional single leading `-` or `+`, then one or
      more decimal digits whose value fits a `Long`; anything else, including surrounding
      whitespace, gives null. */
  function ToLongOrNull(s: string): (r: Option<int>)
    ensures r.Some? ==> IsLong(r.value)
    ensures r.Some? ==> |s| > 0 && forall i :: 0 <= i < |s| ==> !IsWhitespace(s[i])
  {
    var signed := |s| > 0 && (s[0] == '-' || s[0] == '+');
    var digits := if signed then s[1..] else s;
    if |digits| == 0 || !AllDigits(digits) then None
    else
      var magnitude: int := DigitsValue(digits);
      var value := if s[0] == '-' then -magnitude else magnitude;
      if IsLong(value) then
        assert forall i :: 0 <= i < |s| ==> !IsWhitespace(s[i]) by {
          forall i | 0 <= i < |s| ensures !IsWhitespace(s[i]) {
            if signed && i > 0 { assert s[i] == digits[i - 1]; }
          }
        }
        Some(value)
      else None
  }

  function DigitChar(d: nat): (c: char)
    requires d < 10
    ensures IsDigit(c) && DigitValue(c) == d
  {
    ('0' as int + d) as char
  }

  /** `Long.toString()` for a non-negative value: its decimal digits, without leading zeros. */
  function NatToString(n: nat): (s: string)
    ensures |s| > 0 && AllDigits(s)
  {
    if n < 10 then [DigitChar(n)] else NatToString(n / 10) + [DigitChar(n % 10)]
  }

  /** `Long.toString()`: a `-` in front of a negative value's digits. */
  function LongToString(n: int): string
  {
    if n < 0 then "-" + NatToString(-n) else NatToString(n)
  }

  lemma {:induction false} NatToStringValue(n: nat)
    ensures DigitsValue(NatToString(n)) == n
  {
    var s := NatToString(n);
    if n >= 10 {
      NatToStringValue(n / 10);
      assert s[..|s| - 1] == NatToString(n / 10);
    }
  }

  /** `toLongOrNull` reads back every `Long` that `toString` writes. */
  lemma ToLongOrNullRoundTrip(n: int)
    requires IsLong(n)
    ensures ToLongOrNull(LongToString(n)) == Some(n)
  {
    var s := LongToString(n);
    if n < 0 {
      var d := NatToString(-n);
      NatToStringValue(-n);
      assert s[0] == '-' && s[1..] == d;
    } else {
      var d := NatToString(n);
      NatToStringValue(n);
      assert s == d && IsDigit(s[0]);
      assert s[0] != '-' && s[0] != '+';
    }
  }

  /** The sign alone, a second sign and whitespace around the digits are rejected. */
  lemma ToLongOrNullRejectsMalformed()
    ensures ToLongOrNull("") == None && ToLongOrNull("-") == None && ToLongOrNull("+") == None
    ensures ToLongOrNull(" 1") == None && ToLongOrNull("1 ") == None && ToLongOrNull("+-1") == None
  {
    assert !AllDigits(" 1") by { assert !IsDigit(" 1"[0]); }
    assert !AllDigits("1 ") by { assert !IsDigit("1 "[1]); }
    assert !AllDigits("-1") by { assert !IsDigit("-1"[0]); }
  }

  /** A well-formed numeral whose value does not fit a `Long` is rejected too. */
  lemma ToLongOrNullRejectsOverflow(n: int)
    requires !IsLong(n)
    ensures ToLongOrNull(LongToString(n)) == None
  {
    var s := LongToString(n);
    if n < 0 {
      NatToStringValue(-n);
      assert s[1..] == NatToString(-n);
    } else {
      NatToStringValue(n);
      assert IsDigit(s[0]);
    }
  }

  function ClampToLong(x: int): (r: int)
    ensures IsLong(r)
    ensures IsLong(x) ==> r == x
    ensures x > LONG_MAX ==> r == LONG_MAX
    ensures x < LONG_MIN ==> r == LONG_MIN
  {
    if x < LONG_MIN then LONG_MIN else if x > LONG_MAX then LONG_MAX else x
  }

  /** `(num.toDouble() / den.toDouble()).roundToLong()` on the exact quotient: `Math.round`
      rounds half up and saturates at the `Long` bounds; a zero divisor gives an infinity
      (which saturates) or, for 0/0, NaN, on which `roundToLong` throws. */
  function RoundToLong(num: int, den: int): (r: Result<int>)
    ensures r.Failure? <==> num == 0 && den == 0
    ensures r.Failure? ==> r.error == CannotRoundNaN
    ensures r.Success? ==> IsLong(r.value)
    decreases if den < 0 then 1 else 0
  {
    if den == 0 then
      if num > 0 then Success(LONG_MAX)
      else if num < 0 then Success(LONG_MIN)
      else Failure(CannotRoundNaN)
    else if den < 0 then RoundToLong(-num, -den)
    else Success(ClampToLong((2 * num + den) / (2 * den)))
  }

  /** Within the `Long` range the result is the integer nearest to num/den, halves going up:
      r - 1/2 <= num/den < r + 1/2. */
  lemma RoundToLongIsNearest(num: int, den: int)
    requires den > 0
    requires (2 * LONG_MIN - 1) * den <= 2 * num < (2 * LONG_MAX + 1) * den
    ensures RoundToLong(num, den).Success?
    ensures var r := RoundToLong(num, den).value;
      (2 * r - 1) * den <= 2 * num < (2 * r + 1) * den
  {
    var q := (2 * num + den) / (2 * den);
    assert q * (2 * den) <= 2 * num + den < (q + 1) * (2 * den);
    assert (2 * q - 1) * den <= 2 * num < (2 * q + 1) * den;
    assert (2 * q - 1) * den < (2 * LONG_MAX + 1) * den;
    assert (2 * LONG_MIN - 1) * den < (2 * q + 1) * den;
    LessByPositiveFactor(2 * q - 1, 2 * LONG_MAX + 1, den);
    LessByPositiveFactor(2 * LONG_MIN - 1, 2 * q + 1, den);
    assert RoundToLong(num, den) == Success(ClampToLong(q));
  }

  lemma LessByPositiveFactor(a: int, b: int, d: int)
    requires d > 0 && a * d < b * d
    ensures a < b
  {
    assert (b - a) * d > 0;
  }
}
