/** Base-10 number text: reading digit strings (Rust's `str::parse` for `i64` and,
    up to rounding, `f64`) and the canonical base-10 rendering of integers. */
module Decimal {
  import opened Common

  function Pow10(n: nat): (r: nat)
    ensures r >= 1
  {
    if n == 0 then 1 else 10 * Pow10(n - 1)
  }

  predicate AllDigits(s: seq<byte>) {
    forall i :: 0 <= i < |s| ==> IsDigit(s[i])
  }

  function DigitValue(b: byte): (d: nat)
    requires IsDigit(b)
    ensures d < 10
  {
    (b - '0' as byte) as nat
  }

  function DigitByte(d: nat): (b: byte)
    requires d < 10
    ensures IsDigit(b) && DigitValue(b) == d
  {
    ('0' as int + d) as byte
  }

  /** The value of a digit string, most significant digit first. */
  function DigitsValue(s: seq<byte>): nat
    requires AllDigits(s)
    decreases |s|
  {
    if s == [] then 0 else DigitsValue(s[..|s| - 1]) * 10 + DigitValue(s[|s| - 1])
  }

  /** Rust's `<i64 as FromStr>::from_str`: an optional `+` or `-`, then at least one
      digit, and the value must fit in 64 bits. */
  function ParseI64(text: seq<byte>): (r: Option<i64>)
  {
    var signed := |text| > 0 && (text[0] == '-' as byte || text[0] == '+' as byte);
    var digits := if signed then text[1..] else text;
    if digits == [] || !AllDigits(digits) then None
    else
      var magnitude := DigitsValue(digits) as int;
      var v := if signed && text[0] == '-' as byte then -magnitude else magnitude;
      if -0x8000_0000_0000_0000 <= v < 0x8000_0000_0000_0000 then Some(v as i64) else None
  }

  lemma AllDigitsAppend(a: seq<byte>, b: seq<byte>)
    requires AllDigits(a) && AllDigits(b)
    ensures AllDigits(a + b)
  {
    assert forall i :: 0 <= i < |a + b| ==> (a + b)[i] == if i < |a| then a[i] else b[i - |a|];
  }

  /** Rust's `/` on integers: the quotient truncated toward zero. */
  function TruncDiv(a: int, b: int): (q: int)
    requires b > 0
    ensures a >= 0 ==> q == a / b
    ensures a < 0 ==> q == -((-a) / b)
  {
    if a >= 0 then a / b else -((-a) / b)
  }

  /** Rust's `%` on integers: the remainder takes the sign of the dividend. */
  function TruncRem(a: int, b: int): (r: int)
    requires b > 0
    ensures a == b * TruncDiv(a, b) + r
    ensures a >= 0 ==> r == a % b
    ensures a < 0 ==> r == -((-a) % b)
  {
    a - b * TruncDiv(a, b)
  }

  function Abs(a: int): nat { if a < 0 then -a else a }

  /** How many times `n /= 10` runs before `n` reaches zero (at least once). */
  function DigitCount(n: nat): (c: nat)
    ensures c >= 1
  {
    if n < 10 then 1 else 1 + DigitCount(n / 10)
  }

  /** The base-10 digits of `n`, most significant first. */
  function NatDigits(n: nat): (r: seq<byte>)
    ensures |r| == DigitCount(n) && AllDigits(r)
  {
    (if n < 10 then [] else NatDigits(n / 10)) + [DigitByte(n % 10)]
  }

  /** The digits denote the number they render. */
  lemma {:induction false} NatDigitsValue(n: nat)
    ensures DigitsValue(NatDigits(n)) == n
    decreases n
  {
    var r := NatDigits(n);
    var front: seq<byte> := if n < 10 then [] else NatDigits(n / 10);
    assert r == front + [DigitByte(n % 10)];
    assert r[..|r| - 1] == front && r[|r| - 1] == DigitByte(n % 10);
    assert DigitsValue(r) == DigitsValue(front) * 10 + n % 10;
    if n >= 10 {
      NatDigitsValue(n / 10);
    }
    assert DigitsValue(front) == n / 10;
    assert n == (n / 10) * 10 + n % 10;
  }

  /** The text the `i64` renderer writes: a `-` for negatives, then the digits of the magnitude. */
  function DecimalBytes(n: int): seq<byte>
  {
    if n < 0 then ['-' as byte] + NatDigits(-n) else NatDigits(n)
  }

  /** `DecimalBytes` as a Rust `String` (what `format!("{}", n)` produces). */
  function DecimalString(n: int): (s: string)
    ensures |s| == |DecimalBytes(n)|
    ensures forall i :: 0 <= i < |s| ==> s[i] == Latin1(DecimalBytes(n)[i])
  {
    seq(|DecimalBytes(n)|, i requires 0 <= i < |DecimalBytes(n)| => Latin1(DecimalBytes(n)[i]))
  }

  /** A digit string without leading zeros (a lone `0` included). */
  predicate Canonical(d: seq<byte>) {
    d != [] && AllDigits(d) && (|d| == 1 || d[0] != '0' as byte)
  }

  lemma {:induction false} CanonicalLeadingDigit(d: seq<byte>)
    requires Canonical(d) && |d| > 1
    ensures DigitsValue(d) >= Pow10(|d| - 1)
    decreases |d|
  {
    var init := d[..|d| - 1];
    if |init| > 1 {
      assert init[0] == d[0];
      CanonicalLeadingDigit(init);
      assert Pow10(|d| - 1) == 10 * Pow10(|init| - 1);
    } else {
      assert init == [d[0]];
      assert DigitsValue(init) == DigitsValue([]) * 10 + DigitValue(d[0]);
    }
  }

  /** The digits `NatDigits` produces have no leading zero. */
  lemma {:induction false} NatDigitsCanonical(n: nat)
    ensures Canonical(NatDigits(n))
    ensures NatDigits(n)[0] == '0' as byte <==> n == 0
    decreases n
  {
    if n >= 10 {
      NatDigitsCanonical(n / 10);
      assert NatDigits(n)[0] == NatDigits(n / 10)[0];
    }
  }

  /** Canonical digit strings are exactly the ones `NatDigits` produces: the
      rendering is the unique standard base-10 text of its value. */
  lemma {:induction false} CanonicalIsNatDigits(d: seq<byte>)
    requires Canonical(d)
    ensures d == NatDigits(DigitsValue(d))
    decreases |d|
  {
    var v := DigitsValue(d);
    var init := d[..|d| - 1];
    if |d| == 1 {
      assert DigitsValue(d) == DigitsValue(init) * 10 + DigitValue(d[0]);
      assert NatDigits(v) == [DigitByte(v % 10)];
    } else {
      assert init[0] == d[0];
      assert Canonical(init);
      CanonicalIsNatDigits(init);
      if |init| > 1 {
        CanonicalLeadingDigit(init);
      } else {
        assert DigitsValue(init) == DigitsValue([]) * 10 + DigitValue(init[0]);
      }
      assert DigitsValue(init) >= 1;
      assert v / 10 == DigitsValue(init) && v % 10 == DigitValue(d[|d| - 1]);
      assert d == init + [d[|d| - 1]];
    }
  }

  /** The rendering is standard base-10 text: a `-` exactly for negatives, then
      canonical digits whose value is the magnitude; its length is the digit count,
      plus one for the sign. */
  lemma DecimalBytesIsStandard(n: int)
    ensures n < 0 <==> (DecimalBytes(n) != [] && DecimalBytes(n)[0] == '-' as byte)
    ensures |DecimalBytes(n)| == DigitCount(Abs(n)) + (if n < 0 then 1 else 0)
    ensures n < 0 ==> DecimalBytes(n) == ['-' as byte] + Magnitude(n)
    ensures n >= 0 ==> DecimalBytes(n) == Magnitude(n)
    ensures Canonical(Magnitude(n)) && DigitsValue(Magnitude(n)) == Abs(n)
    ensures n == 0 <==> DecimalBytes(n) == ['0' as byte]
  {
    NatDigitsCanonical(Abs(n));
    NatDigitsValue(Abs(n));
    if n == 0 {
      assert NatDigits(0) == ['0' as byte];
    } else if n > 0 {
      assert NatDigits(n)[0] != '0' as byte;
      assert NatDigits(n) != ['0' as byte];
    } else {
      assert DecimalBytes(n)[1..] == NatDigits(-n);
    }
  }

  /** The digits of a rendering, after its sign. */
  function Magnitude(n: int): seq<byte> {
    if n < 0 then DecimalBytes(n)[1..] else DecimalBytes(n)
  }

  lemma ParseNegative(d: seq<byte>)
    requires d != [] && AllDigits(d) && -(DigitsValue(d) as int) >= -0x8000_0000_0000_0000
    ensures ParseI64(['-' as byte] + d) == Some(-(DigitsValue(d) as int) as i64)
  {
    assert (['-' as byte] + d)[1..] == d;
  }

  lemma ParseNonNegative(d: seq<byte>)
    requires d != [] && AllDigits(d) && DigitsValue(d) < 0x8000_0000_0000_0000
    ensures ParseI64(d) == Some(DigitsValue(d) as i64)
  {
    assert IsDigit(d[0]);
  }

  /** Reading the rendering of an `i64` back yields the same value. */
  lemma DecimalBytesParses(n: i64)
    ensures ParseI64(DecimalBytes(n as int)) == Some(n)
  {
    var m := Abs(n as int);
    NatDigitsValue(m);
    if n < 0 {
      ParseNegative(NatDigits(m));
    } else {
      ParseNonNegative(NatDigits(m));
    }
  }
}
