/**
 * The integer side of Go that the XPM header parser relies on: the 64-bit
 * `int` type with its wrap-around multiplication, and `strconv.Atoi`.
 */
module GoInts {
  import opened Wrappers

  const MinInt64: int := -0x8000_0000_0000_0000
  const MaxInt64: int := 0x7fff_ffff_ffff_ffff

  predicate InInt64(x: int) {
    MinInt64 <= x <= MaxInt64
  }

  /** The two's-complement 64-bit value of `x`: what a Go `int` holds after an overflowing operation. */
  function WrapInt64(x: int): (r: int)
    ensures InInt64(r)
    ensures (r - x) % 0x1_0000_0000_0000_0000 == 0
    ensures InInt64(x) ==> r == x
  {
    (x - MinInt64) % 0x1_0000_0000_0000_0000 + MinInt64
  }

  predicate IsDigit(c: char) {
    '0' <= c <= '9'
  }

  predicate AllDigits(s: string) {
    forall k :: 0 <= k < |s| ==> IsDigit(s[k])
  }

  function DigitValue(c: char): nat
    requires IsDigit(c)
  {
    c as int - '0' as int
  }

  /** The number that a string of decimal digits denotes, most significant first. */
  function DecimalValue(s: string): nat
    requires AllDigits(s)
  {
    if s == [] then 0 else 10 * DecimalValue(s[..|s| - 1]) + DigitValue(s[|s| - 1])
  }

  /**
   * `strconv.Atoi` on a 64-bit platform: an optional `+` or `-`, then one or
   * more decimal digits, denoting a value that fits in 64 bits. Every other
   * string fails. Go distinguishes a syntax error from a range error; the
   * model keeps one failure, `()`.
   */
  function Atoi(s: string): (r: Result<int, ()>)
    ensures r.Ok? ==> InInt64(r.value)
    ensures r.Ok? ==> s != [] && (IsDigit(s[0]) || s[0] == '-' || s[0] == '+')
    ensures r.Ok? ==> var digits := if s[0] == '-' || s[0] == '+' then s[1..] else s; digits != [] && AllDigits(digits)
    // Unsigned and negative digit strings read as their decimal value exactly when it fits in 64 bits.
    ensures s != [] && AllDigits(s) ==> (r.Ok? <==> DecimalValue(s) <= MaxInt64) && (r.Ok? ==> r.value == DecimalValue(s))
    ensures |s| >= 2 && s[0] == '-' && AllDigits(s[1..]) ==>
              (r.Ok? <==> MinInt64 <= 0 - DecimalValue(s[1..])) && (r.Ok? ==> r.value == 0 - DecimalValue(s[1..]))
  {
    var signed := s != [] && (s[0] == '-' || s[0] == '+');
    var digits := if signed then s[1..] else s;
    if digits == [] || !AllDigits(digits) then Err(())
    else
      var v: int := if signed && s[0] == '-' then 0 - DecimalValue(digits) as int else DecimalValue(digits);
      if InInt64(v) then Ok(v) else Err(())
  }

  function DigitChar(d: nat): (c: char)
    requires d < 10
    ensures IsDigit(c) && DigitValue(c) == d
  {
    (d + '0' as int) as char
  }

  /** Decimal digits of `n`, most significant first, without leading zeros. */
  function Digits(n: nat): (s: string)
    ensures s != [] && AllDigits(s)
  {
    if n < 10 then [DigitChar(n)] else Digits(n / 10) + [DigitChar(n % 10)]
  }

  /** `strconv.Itoa`: the decimal text of an integer, with `-` for a negative one. */
  function Itoa(i: int): string
  {
    if i < 0 then "-" + Digits(-i) else Digits(i)
  }

  lemma {:induction false} DigitsValue(n: nat)
    ensures DecimalValue(Digits(n)) == n
  {
    if n >= 10 {
      var s := Digits(n);
      assert s[..|s| - 1] == Digits(n / 10);
      DigitsValue(n / 10);
    }
  }

  /** Atoi reads back what Itoa writes, for every 64-bit integer. */
  lemma AtoiItoa(i: int)
    requires InInt64(i)
    ensures Atoi(Itoa(i)) == Ok(i)
  {
    if i < 0 {
      AtoiNegative(-i);
    } else {
      AtoiDigits(i);
    }
  }

  lemma AtoiDigits(n: nat)
    requires n <= MaxInt64
    ensures Atoi(Digits(n)) == Ok(n)
  {
    var s := Digits(n);
    assert IsDigit(s[0]);
    DigitsValue(n);
  }

  lemma AtoiNegative(n: nat)
    requires 0 < n && -(n as int) >= MinInt64
    ensures Atoi("-" + Digits(n)) == Ok(-(n as int))
  {
    var s := "-" + Digits(n);
    assert s[0] == '-' && s[1..] == Digits(n);
    DigitsValue(n);
  }
}
