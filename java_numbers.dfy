/**
 * Java integer semantics the modelled code depends on: the `int` range,
 * division that truncates toward zero, `Integer.parseInt` and
 * `Integer.toString`.
 */
module JavaNumbers {
  import opened Wrappers

  const INT_MIN: int := -0x8000_0000
  const INT_MAX: int := 0x7fff_ffff

  predicate IsInt32(n: int)
  {
    INT_MIN <= n <= INT_MAX
  }

  /** Two's-complement wrap-around of a mathematical integer into the `int` range. */
  function ToInt32(n: int): (r: int)
    ensures IsInt32(r)
    ensures (r - n) % 0x1_0000_0000 == 0
    ensures IsInt32(n) ==> r == n
  {
    var m := n % 0x1_0000_0000;
    if m > INT_MAX then m - 0x1_0000_0000 else m
  }

  function Abs(n: int): nat
  {
    if n < 0 then -n else n
  }

  /**
   * Java's `a / b` on mathematical integers: the quotient truncated toward zero
   * (Dafny's own `/` rounds so that the remainder is never negative).
   */
  function TruncDiv(a: int, b: int): int
    requires b != 0
  {
    if a == 0 then 0
    else
      var m: int := Abs(a) / Abs(b);
      if (a > 0) == (b > 0) then m else -m
  }

  lemma MulAtLeast(x: int, d: int)
    requires x >= 1 && d > 0
    ensures x * d >= d
  {}

  lemma {:induction false} DivOfMultiple(q: nat, d: nat)
    requires d > 0
    ensures (q * d) / d == q
  {
    var n := q * d;
    var q', r := n / d, n % d;
    assert n == q' * d + r && 0 <= r < d;
    if q' < q { MulAtLeast(q - q', d); assert false; }
    if q' > q { MulAtLeast(q' - q, d); assert false; }
  }

  /** Dividing an exact multiple gives back the factor, whatever the signs. */
  lemma TruncDivOfMultiple(n: int, k: int)
    requires k != 0
    ensures TruncDiv(n * k, k) == n
  {
    if n != 0 {
      assert Abs(n * k) == Abs(n) * Abs(k);
      DivOfMultiple(Abs(n), Abs(k));
      assert (n * k > 0) == ((n > 0) == (k > 0));
    }
  }

  /** Truncation differs from Dafny's `/` on negative operands. */
  lemma TruncDivRoundsTowardZero()
    ensures TruncDiv(-150, 100) == -1 && -150 / 100 == -2
    ensures TruncDiv(150, -100) == -1 && TruncDiv(150, 100) == 1
  {}

  // ---------------------------------------------------------------------------
  // Decimal strings

  predicate IsDigit(c: char)
  {
    '0' <= c <= '9'
  }

  predicate AllDigits(s: string)
  {
    forall i :: 0 <= i < |s| ==> IsDigit(s[i])
  }

  /** The number a string of decimal digits denotes, most significant first. */
  function DigitsValue(s: string): nat
    requires AllDigits(s)
  {
    if |s| == 0 then 0
    else DigitsValue(s[..|s| - 1]) * 10 + (s[|s| - 1] as int - '0' as int)
  }

  /**
   * `Integer.parseInt(s)`: an optional sign followed by at least one digit,
   * denoting a value in the `int` range; anything else is a NumberFormatException.
   */
  function ParseInt(s: string): (r: Result<int>)
    ensures r.Ok? ==> IsInt32(r.value)
    ensures r.Err? ==> r.error == NumberFormat
    ensures |s| == 0 ==> r.Err?
  {
    if |s| == 0 then Err(NumberFormat)
    else
      var signed := s[0] == '-' || s[0] == '+';
      var digits := if signed then s[1..] else s;
      if |digits| == 0 || !AllDigits(digits) then Err(NumberFormat)
      else
        var magnitude: int := DigitsValue(digits);
        var value := if s[0] == '-' then -magnitude else magnitude;
        if IsInt32(value) then Ok(value) else Err(NumberFormat)
  }

  function DigitChar(d: nat): (c: char)
    requires d < 10
    ensures IsDigit(c) && c as int - '0' as int == d
  {
    ('0' as int + d) as char
  }

  /** The decimal digits of a natural number, without leading zeros. */
  function NatToDigits(n: nat): (s: string)
    ensures |s| > 0 && AllDigits(s)
    ensures |s| > 1 ==> s[0] != '0'
    decreases n
  {
    if n < 10 then [DigitChar(n)]
    else NatToDigits(n / 10) + [DigitChar(n % 10)]
  }

  /** `Integer.toString(n)`: a minus sign for negative numbers, then the digits. */
  function IntToString(n: int): (s: string)
    ensures |s| > 0
  {
    if n < 0 then "-" + NatToDigits(-n) else NatToDigits(n)
  }

  lemma {:induction false} NatToDigitsValue(n: nat)
    ensures DigitsValue(NatToDigits(n)) == n
    decreases n
  {
    var s := NatToDigits(n);
    if n >= 10 {
      NatToDigitsValue(n / 10);
      assert s[..|s| - 1] == NatToDigits(n / 10);
    }
  }

  /** `Integer.parseInt(Integer.toString(n)) == n` for every `int`. */
  lemma {:induction false} ParseIntToStringRoundTrip(n: int)
    requires IsInt32(n)
    ensures ParseInt(IntToString(n)) == Ok(n)
  {
    var s := IntToString(n);
    if n < 0 {
      NatToDigitsValue(-n);
      assert s[1..] == NatToDigits(-n);
    } else {
      NatToDigitsValue(n);
    }
  }
}
