/** ASCII decimal numbers: the text the serializer prints and the readers of `src/message.rs`. */
module Decimal {
  import opened Bytes

  /** Shortest decimal text of `n`. */
  function Digits(n: nat): (s: seq<byte>)
    ensures |s| >= 1
  {
    if n < 10 then [ZERO + n] else Digits(n / 10) + [ZERO + n % 10]
  }

  /** The `width` low-order decimal digits of `n`, zero padded. */
  function Fixed(width: nat, n: nat): (s: seq<byte>)
    ensures |s| == width
  {
    if width == 0 then [] else Fixed(width - 1, n / 10) + [ZERO + n % 10]
  }

  predicate IsDigit(b: byte) { ZERO <= b <= ZERO + 9 }

  predicate AllDigits(s: seq<byte>) { forall k :: 0 <= k < |s| ==> IsDigit(s[k]) }

  /** The number a decimal text stands for. */
  function Value(s: seq<byte>): int {
    if s == [] then 0 else 10 * Value(s[..|s| - 1]) + (s[|s| - 1] - ZERO)
  }

  function Pow10(k: nat): (p: nat)
    ensures p > 0
  {
    if k == 0 then 1 else 10 * Pow10(k - 1)
  }

  lemma PowersOfTen()
    ensures Pow10(3) == 1_000 && Pow10(6) == 1_000_000
    ensures Pow10(10) == 10_000_000_000
    ensures Pow10(20) == 100_000_000_000_000_000_000
  {
    assert Pow10(2) == 100 && Pow10(4) == 100 * Pow10(2) && Pow10(6) == 100 * Pow10(4);
    assert Pow10(8) == 100 * Pow10(6) && Pow10(10) == 100 * Pow10(8) && Pow10(12) == 100 * Pow10(10);
    assert Pow10(14) == 100 * Pow10(12) && Pow10(16) == 100 * Pow10(14) && Pow10(18) == 100 * Pow10(16);
  }

  lemma {:induction false} DigitsValue(n: nat)
    ensures AllDigits(Digits(n)) && Value(Digits(n)) == n
  {
    if n >= 10 {
      DigitsValue(n / 10);
      assert Digits(n)[..|Digits(n)| - 1] == Digits(n / 10);
    } else {
      assert Value([ZERO + n]) == 10 * Value([]) + n;
    }
  }

  lemma {:induction false} FixedValue(width: nat, n: nat)
    ensures AllDigits(Fixed(width, n)) && Value(Fixed(width, n)) == n % Pow10(width)
  {
    if width > 0 {
      FixedValue(width - 1, n / 10);
      assert Fixed(width, n)[..width - 1] == Fixed(width - 1, n / 10);
      ModStep(n, Pow10(width - 1));
    }
  }

  lemma FixedThree(n: nat)
    ensures Fixed(3, n) == [ZERO + n / 100 % 10, ZERO + n / 10 % 10, ZERO + n % 10]
  {
    assert n / 10 / 10 == n / 100;
    assert Fixed(1, n / 100) == [ZERO + n / 100 % 10];
    assert Fixed(2, n / 10) == Fixed(1, n / 10 / 10) + [ZERO + n / 10 % 10];
  }

  lemma ModStep(n: nat, p: nat)
    requires p > 0
    ensures n % (10 * p) == 10 * ((n / 10) % p) + n % 10
  {
    var q, r := (n / 10) / p, (n / 10) % p;
    assert n == 10 * (q * p + r) + n % 10;
    assert n == q * (10 * p) + (10 * r + n % 10) by {
      assert 10 * (q * p + r) == q * (10 * p) + 10 * r;
    }
    DivModUnique(n, 10 * p, q, 10 * r + n % 10);
  }

  lemma DivModUnique(n: int, m: int, q: int, r: int)
    requires 0 <= r < m && n == q * m + r
    ensures n / m == q && n % m == r
  {
    var k := n / m - q;
    assert k * m == r - n % m by {
      assert k * m == (n / m) * m - q * m;
      assert n == (n / m) * m + n % m;
    }
    if k >= 1 {
      Multiple(k, m);
    } else if k <= -1 {
      Multiple(-k, m);
    }
    assert k == 0;
  }

  lemma Multiple(k: int, m: int)
    requires k >= 1 && m >= 0
    ensures k * m >= m
  {
    assert k * m == (k - 1) * m + m;
  }

  /** Reducing an accumulator before a multiply-and-add does not change the reduced result. */
  lemma WrapStep(x: int, d: int)
    ensures Wrap64(10 * Wrap64(x) + d) == Wrap64(10 * x + d)
    ensures WrapI64(10 * WrapI64(x) + d) == WrapI64(10 * x + d)
  {
    Wrap64Shift(10 * Wrap64(x) + d, 10 * (x / 0x1_0000_0000_0000_0000));
    var h := x + 0x8000_0000_0000_0000;
    Wrap64Shift(10 * WrapI64(x) + d + 0x8000_0000_0000_0000, 10 * (h / 0x1_0000_0000_0000_0000));
  }

  lemma WrapStep32(x: int, d: int)
    ensures Wrap32(10 * Wrap32(x) + d) == Wrap32(10 * x + d)
  {
    var q := 10 * (x / 0x1_0000_0000);
    assert 10 * x + d == 10 * Wrap32(x) + d + 0x1_0000_0000 * q;
    DivModUnique(10 * x + d, 0x1_0000_0000, q + (10 * Wrap32(x) + d) / 0x1_0000_0000, Wrap32(10 * Wrap32(x) + d));
  }

  lemma Wrap64Shift(a: int, k: int)
    ensures Wrap64(a + 0x1_0000_0000_0000_0000 * k) == Wrap64(a)
  {
    DivModUnique(a + 0x1_0000_0000_0000_0000 * k, 0x1_0000_0000_0000_0000,
                 k + a / 0x1_0000_0000_0000_0000, a % 0x1_0000_0000_0000_0000);
  }

  /** What `parse_u64` returns: every byte must be a digit, the accumulator wraps at 64 bits. */
  function ReadU64(s: seq<byte>): Option<u64> {
    if s == [] || !AllDigits(s) then None else Some(Wrap64(Value(s)))
  }

  /** What `parse_i64` returns; "-" alone reads as zero. */
  function ReadI64(s: seq<byte>): Option<int> {
    if s == [] then None
    else if s[0] == 0x2D then
      if AllDigits(s[1..]) then Some(WrapI64(-WrapI64(Value(s[1..])))) else None
    else
      if AllDigits(s) then Some(WrapI64(Value(s))) else None
  }

  method ParseU64(bytes: seq<byte>) returns (r: Option<u64>)
    ensures r == ReadU64(bytes)
  {
    if bytes == [] {
      return None;
    }
    var result: u64 := 0;
    for i := 0 to |bytes|
      invariant AllDigits(bytes[..i])
      invariant result == Wrap64(Value(bytes[..i]))
    {
      var b := bytes[i];
      if b < ZERO || b > ZERO + 9 {
        assert !AllDigits(bytes);
        return None;
      }
      WrapStep(Value(bytes[..i]), b - ZERO);
      assert bytes[..i + 1][..i] == bytes[..i];
      result := Wrap64(10 * result + (b - ZERO));
    }
    assert bytes[..|bytes|] == bytes;
    return Some(result);
  }

  method ParseI64(bytes: seq<byte>) returns (r: Option<int>)
    ensures r == ReadI64(bytes)
  {
    if bytes == [] {
      return None;
    }
    var negative := bytes[0] == 0x2D;
    var rest := if negative then bytes[1..] else bytes;
    var result := 0;
    for i := 0 to |rest|
      invariant AllDigits(rest[..i])
      invariant result == WrapI64(Value(rest[..i]))
    {
      var b := rest[i];
      if b < ZERO || b > ZERO + 9 {
        assert !AllDigits(rest);
        return None;
      }
      WrapStep(Value(rest[..i]), b - ZERO);
      assert rest[..i + 1][..i] == rest[..i];
      result := WrapI64(10 * result + (b - ZERO));
    }
    assert rest[..|rest|] == rest;
    return Some(if negative then WrapI64(-result) else result);
  }

  /** The text `write_i64` prints. */
  function SignedDigits(v: int): seq<byte> {
    if v < 0 then [0x2D] + Digits(-v) else Digits(v)
  }

  lemma U64RoundTrip(n: u64)
    ensures ReadU64(Digits(n)) == Some(n)
  {
    DigitsValue(n);
  }

  /** Holds down to the least 64-bit integer, whose negation wraps to itself on both sides. */
  lemma I64RoundTrip(v: int)
    requires -TWO_63 <= v < TWO_63
    ensures ReadI64(SignedDigits(v)) == Some(v)
  {
    WrapNegation(v);
    if v < 0 {
      NegativeReads(-v);
    } else {
      PositiveReads(v);
    }
  }

  lemma NegativeReads(n: nat)
    ensures ReadI64([0x2D] + Digits(n)) == Some(WrapI64(-WrapI64(n)))
  {
    DigitsValue(n);
    assert ([0x2D] + Digits(n))[1..] == Digits(n);
  }

  lemma PositiveReads(n: nat)
    ensures ReadI64(Digits(n)) == Some(WrapI64(n))
  {
    DigitsValue(n);
    assert IsDigit(Digits(n)[0]);
  }

  lemma WrapNegation(v: int)
    requires -TWO_63 <= v < TWO_63
    ensures WrapI64(v) == v && (v < 0 ==> WrapI64(-WrapI64(-v)) == v)
  {
  }

  /** No digit is printed in front of the number's own. */
  lemma {:induction false} DigitsShortest(n: nat)
    ensures Digits(n)[0] == ZERO <==> n == 0
    ensures |Digits(n)| == 1 <==> n < 10
  {
    if n >= 10 {
      DigitsShortest(n / 10);
      assert Digits(n)[0] == Digits(n / 10)[0];
    }
  }
}
