/** The CRC-32 of `src/journal.rs` (section 8 of RFC 1952), bit by bit on a 32-bit register. */
module Crc {
  import opened Bytes

  const POLYNOMIAL: u32 := 0xEDB8_8320
  const ONES: u32 := 0xFFFF_FFFF

  /** Exclusive or of the binary digits. */
  function Xor(a: nat, b: nat): nat
    decreases a + b
  {
    if a == 0 && b == 0 then 0 else (a + b) % 2 + 2 * Xor(a / 2, b / 2)
  }

  function Pow2(k: nat): (p: nat)
    ensures p > 0
  {
    if k == 0 then 1 else 2 * Pow2(k - 1)
  }

  lemma Pow2s()
    ensures Pow2(8) == 256 && Pow2(31) == 0x8000_0000 && Pow2(32) == TWO_32
  {
    assert Pow2(2) == 4 && Pow2(4) == 4 * Pow2(2) && Pow2(6) == 4 * Pow2(4) && Pow2(8) == 4 * Pow2(6);
    assert Pow2(10) == 4 * Pow2(8) && Pow2(12) == 4 * Pow2(10) && Pow2(14) == 4 * Pow2(12) && Pow2(16) == 4 * Pow2(14);
    assert Pow2(18) == 4 * Pow2(16) && Pow2(20) == 4 * Pow2(18) && Pow2(22) == 4 * Pow2(20) && Pow2(24) == 4 * Pow2(22);
    assert Pow2(26) == 4 * Pow2(24) && Pow2(28) == 4 * Pow2(26) && Pow2(30) == 4 * Pow2(28) && Pow2(31) == 2 * Pow2(30);
  }

  lemma XorHalves(a: nat, b: nat)
    ensures Xor(a, b) / 2 == Xor(a / 2, b / 2) && Xor(a, b) % 2 == (a + b) % 2
  {
  }

  lemma ParityAssoc(a: nat, b: nat, c: nat, p: nat, q: nat)
    requires p % 2 == (a + b) % 2 && q % 2 == (b + c) % 2
    ensures (p + c) % 2 == (a + q) % 2
  {
  }

  lemma SameHalves(x: nat, y: nat)
    requires x % 2 == y % 2 && x / 2 == y / 2
    ensures x == y
  {
  }

  lemma {:induction false} XorComm(a: nat, b: nat)
    ensures Xor(a, b) == Xor(b, a)
    decreases a + b
  {
    if a + b > 0 {
      XorComm(a / 2, b / 2);
    }
  }

  lemma {:induction false} XorAssoc(a: nat, b: nat, c: nat)
    ensures Xor(Xor(a, b), c) == Xor(a, Xor(b, c))
    decreases a + b + c
  {
    if a + b + c > 0 {
      XorAssoc(a / 2, b / 2, c / 2);
      XorHalves(a, b);
      XorHalves(b, c);
      XorHalves(Xor(a, b), c);
      XorHalves(a, Xor(b, c));
      ParityAssoc(a, b, c, Xor(a, b), Xor(b, c));
      SameHalves(Xor(Xor(a, b), c), Xor(a, Xor(b, c)));
    }
  }

  lemma {:induction false} XorZero(a: nat)
    ensures Xor(a, 0) == a && Xor(0, a) == a
  {
    if a > 0 {
      XorZero(a / 2);
    }
  }

  lemma {:induction false} XorSelf(a: nat)
    ensures Xor(a, a) == 0
  {
    if a > 0 {
      XorSelf(a / 2);
    }
  }

  /** Exclusive or with the same number can be undone. */
  lemma XorInjective(c: nat, a: nat, b: nat)
    requires Xor(c, a) == Xor(c, b)
    ensures a == b
  {
    XorAssoc(c, c, a);
    XorAssoc(c, c, b);
    XorSelf(c);
    XorZero(a);
    XorZero(b);
  }

  lemma {:induction false} XorBound(a: nat, b: nat, k: nat)
    requires a < Pow2(k) && b < Pow2(k)
    ensures Xor(a, b) < Pow2(k)
    decreases k
  {
    if k > 0 {
      XorBound(a / 2, b / 2, k - 1);
    }
  }

  /** A top bit only one side has stays. */
  lemma {:induction false} XorTop(a: nat, b: nat, k: nat)
    requires a < Pow2(k) <= b < 2 * Pow2(k)
    ensures Pow2(k) <= Xor(a, b) < 2 * Pow2(k)
    decreases k
  {
    if k > 0 {
      XorTop(a / 2, b / 2, k - 1);
    } else {
      assert Xor(0, 1) == 1;
    }
  }

  // ----- the register -----

  /** One turn of the inner loop. */
  function BitStep(c: nat): nat {
    if c % 2 == 1 then Xor(c / 2, POLYNOMIAL) else c / 2
  }

  function BitSteps(n: nat, c: nat): nat {
    if n == 0 then c else BitSteps(n - 1, BitStep(c))
  }

  lemma BitStepBound(c: nat)
    requires c < TWO_32
    ensures BitStep(c) < TWO_32
  {
    Pow2s();
    XorBound(c / 2, POLYNOMIAL, 32);
  }

  lemma {:induction false} BitStepsBound(n: nat, c: nat)
    requires c < TWO_32
    ensures BitSteps(n, c) < TWO_32
    decreases n
  {
    if n > 0 {
      BitStepBound(c);
      BitStepsBound(n - 1, BitStep(c));
    }
  }

  /** The polynomial's top bit tells whether a bit fell out, so a step loses nothing. */
  lemma BitStepInjective(a: nat, b: nat)
    requires a < TWO_32 && b < TWO_32 && BitStep(a) == BitStep(b)
    ensures a == b
  {
    Pow2s();
    XorTop(a / 2, POLYNOMIAL, 31);
    XorTop(b / 2, POLYNOMIAL, 31);
    XorComm(a / 2, POLYNOMIAL);
    XorComm(b / 2, POLYNOMIAL);
    if a % 2 == 1 && b % 2 == 1 {
      XorInjective(POLYNOMIAL, a / 2, b / 2);
    }
  }

  lemma {:induction false} BitStepsInjective(n: nat, a: nat, b: nat)
    requires a < TWO_32 && b < TWO_32 && BitSteps(n, a) == BitSteps(n, b)
    ensures a == b
    decreases n
  {
    if n > 0 {
      BitStepBound(a);
      BitStepBound(b);
      BitStepsInjective(n - 1, BitStep(a), BitStep(b));
      BitStepInjective(a, b);
    }
  }

  /** One turn of the outer loop. */
  function Update(c: nat, b: byte): nat { BitSteps(8, Xor(c, b)) }

  /** The register after `data`, starting from `c`. */
  function Register(c: nat, data: seq<byte>): nat {
    if data == [] then c else Update(Register(c, data[..|data| - 1]), data[|data| - 1])
  }

  function Crc32(data: seq<byte>): nat { Xor(Register(ONES, data), ONES) }

  lemma UpdateBound(c: nat, b: byte)
    requires c < TWO_32
    ensures Update(c, b) < TWO_32
  {
    Pow2s();
    XorBound(c, b, 32);
    BitStepsBound(8, Xor(c, b));
  }

  lemma {:induction false} RegisterBound(c: nat, data: seq<byte>)
    requires c < TWO_32
    ensures Register(c, data) < TWO_32
  {
    if data != [] {
      RegisterBound(c, data[..|data| - 1]);
      UpdateBound(Register(c, data[..|data| - 1]), data[|data| - 1]);
    }
  }

  lemma CrcBound(data: seq<byte>)
    ensures Crc32(data) < TWO_32
  {
    Pow2s();
    RegisterBound(ONES, data);
    XorBound(Register(ONES, data), ONES, 32);
  }

  /** `crc32_simple`. */
  method ComputeCrc32(data: seq<byte>) returns (crc: u32)
    ensures crc == Crc32(data)
  {
    crc := ONES;
    for i := 0 to |data|
      invariant crc == Register(ONES, data[..i])
    {
      ghost var before := Xor(crc, data[i]);
      Pow2s();
      XorBound(crc, data[i], 32);
      crc := Xor(crc, data[i]);
      for k := 0 to 8
        invariant BitSteps(8 - k, crc) == BitSteps(8, before)
      {
        BitStepBound(crc);
        crc := if crc % 2 != 0 then Xor(crc / 2, POLYNOMIAL) else crc / 2;
      }
      assert data[..i + 1][..i] == data[..i];
    }
    assert data[..|data|] == data;
    CrcBound(data);
    crc := Xor(crc, ONES);
  }

  // ----- the register as a division of the whole message -----

  lemma {:induction false} RegisterAppend(c: nat, a: seq<byte>, b: seq<byte>)
    ensures Register(c, a + b) == Register(Register(c, a), b)
    decreases |b|
  {
    if b == [] {
      assert a + b == a;
    } else {
      var n := |b| - 1;
      assert (a + b)[..|a + b| - 1] == a + b[..n];
      RegisterAppend(c, a, b[..n]);
    }
  }

  lemma RegisterOne(c: nat, b: byte)
    ensures Register(c, [b]) == Update(c, b)
  {
    assert Register(c, [b][..0]) == c;
  }

  lemma EvenAddend(x: nat, y: nat)
    ensures (x + 2 * y) % 2 == x % 2 && 2 * y / 2 == y
  {
  }

  /** Bits that are still to be shifted in do not meet the ones being divided. */
  lemma BitStepShift(x: nat, y: nat)
    ensures BitStep(Xor(x, 2 * y)) == Xor(BitStep(x), y)
  {
    XorHalves(x, 2 * y);
    EvenAddend(x, y);
    if x % 2 == 1 {
      XorAssoc(x / 2, y, POLYNOMIAL);
      XorComm(y, POLYNOMIAL);
      XorAssoc(x / 2, POLYNOMIAL, y);
    }
  }

  lemma {:induction false} BitStepsShift(n: nat, x: nat, y: nat)
    ensures BitSteps(n, Xor(x, Pow2(n) * y)) == Xor(BitSteps(n, x), y)
    decreases n
  {
    if n > 0 {
      var z := Pow2(n - 1) * y;
      assert Pow2(n) * y == 2 * z;
      BitStepShift(x, z);
      BitStepsShift(n - 1, BitStep(x), y);
    }
  }

  lemma {:induction false} BitStepsAdd(m: nat, n: nat, c: nat)
    ensures BitSteps(m + n, c) == BitSteps(n, BitSteps(m, c))
    decreases m
  {
    if m > 0 {
      BitStepsAdd(m - 1, n, BitStep(c));
    }
  }

  lemma XorUnfold(b: nat, e: nat, h: nat)
    requires h == Xor(b / 2, e / 2)
    ensures Xor(b, e) == (b + e) % 2 + 2 * h
  {
  }

  lemma XorEven(b: nat, z: nat)
    requires Xor(b / 2, z) == b / 2 + z
    ensures Xor(b, 2 * z) == b + 2 * z
  {
    var e := 2 * z;
    Half(e, z);
    XorUnfold(b, e, b / 2 + z);
    FromHalves(b, z);
  }

  lemma Half(e: nat, z: nat)
    requires e == 2 * z
    ensures e / 2 == z
  {
  }

  lemma FromHalves(b: nat, z: nat)
    ensures (b + 2 * z) % 2 + 2 * (b / 2 + z) == b + 2 * z
  {
  }

  lemma {:induction false} XorDisjoint(b: nat, y: nat, k: nat)
    requires b < Pow2(k)
    ensures Xor(b, Pow2(k) * y) == b + Pow2(k) * y
    decreases k
  {
    if k == 0 {
      XorZero(y);
    } else {
      var z := Pow2(k - 1) * y;
      assert Pow2(k) * y == 2 * z;
      XorDisjoint(b / 2, y, k - 1);
      XorEven(b, z);
    }
  }

  /** Dividing by one digit of `n` bits and then the rest is dividing by both together. */
  lemma DigitShift(n: nat, k: nat, c: nat, b: nat, y: nat, z: nat)
    requires b < Pow2(n) && z == Pow2(n) * y
    ensures BitSteps(n + k, Xor(c, b + z)) == BitSteps(k, Xor(BitSteps(n, Xor(c, b)), y))
  {
    BitStepsShift(n, Xor(c, b), y);
    XorAssoc(c, b, z);
    XorDisjoint(b, y, n);
    BitStepsAdd(n, k, Xor(c, b + z));
  }

  lemma ByteShift(c: nat, b: byte, n: nat, y: nat)
    ensures BitSteps(8 + n, Xor(c, b + 256 * y)) == BitSteps(n, Xor(Update(c, b), y))
  {
    Pow2s();
    DigitShift(8, n, c, b, y, 256 * y);
  }

  lemma RegisterFirst(c: nat, b: byte, rest: seq<byte>)
    ensures Register(c, [b] + rest) == Register(Update(c, b), rest)
  {
    RegisterAppend(c, [b], rest);
    RegisterOne(c, b);
  }

  /** Feeding bytes one at a time is one division of the whole little-endian number. */
  lemma {:induction false} RegisterWhole(c: nat, data: seq<byte>)
    ensures Register(c, data) == BitSteps(8 * |data|, Xor(c, FromLe(data)))
    decreases |data|
  {
    if data == [] {
      XorZero(c);
    } else {
      var b, rest := data[0], data[1..];
      assert data == [b] + rest;
      RegisterFirst(c, b, rest);
      RegisterWhole(Update(c, b), rest);
      ByteShift(c, b, 8 * |rest|, FromLe(rest));
      Regrouped(c, 8 * |data|, 8 + 8 * |rest|, FromLe(data), b + 256 * FromLe(rest));
    }
  }

  lemma Regrouped(c: nat, m: nat, n: nat, x: nat, y: nat)
    requires m == n && x == y
    ensures BitSteps(m, Xor(c, x)) == BitSteps(n, Xor(c, y))
  {
  }

  /** The table form of section 8 of RFC 1952: one table look-up per byte. */
  lemma TableForm(c: nat, b: byte)
    ensures var x := Xor(c, b); Update(c, b) == Xor(BitSteps(8, x % 256), x / 256)
  {
    var x := Xor(c, b);
    Pow2s();
    LowDigit(8, x % 256, x / 256, 256 * (x / 256));
  }

  lemma {:induction false} Halvings(k: nat)
    ensures BitSteps(k, Pow2(k)) == 1
  {
    if k > 0 {
      Halvings(k - 1);
    }
  }

  lemma LastHalving(c: nat)
    requires c == 1
    ensures BitSteps(1, c) == POLYNOMIAL
  {
    XorZero(POLYNOMIAL);
    assert BitSteps(1, c) == BitSteps(0, BitStep(c));
  }

  /** The table's entry for 128 is the polynomial that section 8 of RFC 1952 names, its lowest power in the top bit. */
  lemma TableTop()
    ensures BitSteps(8, Pow2(7)) == 0xEDB8_8320
  {
    BitStepsAdd(7, 1, Pow2(7));
    Halvings(7);
    LastHalving(1);
  }

  /** Whatever the data, followed by its own CRC, lowest byte first, it leaves one and the same register. */
  lemma SealedRegister(data: seq<byte>)
    ensures Register(ONES, data + ToLe(Crc32(data), 4)) == BitSteps(32, ONES)
  {
    var c, crc := Register(ONES, data), Crc32(data);
    CrcBound(data);
    LeWidths();
    LeRoundTrip(crc, 4);
    RegisterAppend(ONES, data, ToLe(crc, 4));
    RegisterWhole(c, ToLe(crc, 4));
    XorAssoc(c, c, ONES);
    XorSelf(c);
    XorZero(ONES);
  }

  lemma LowDigit(n: nat, low: nat, high: nat, z: nat)
    requires low < Pow2(n) && z == Pow2(n) * high
    ensures BitSteps(n, low + z) == Xor(BitSteps(n, low), high)
  {
    XorDisjoint(low, high, n);
    BitStepsShift(n, low, high);
  }

  // ----- detection -----

  lemma {:induction false} RegisterInjective(c: nat, d: nat, data: seq<byte>)
    requires c < TWO_32 && d < TWO_32 && Register(c, data) == Register(d, data)
    ensures c == d
    decreases |data|
  {
    if data != [] {
      var n := |data| - 1;
      var x, y := Register(c, data[..n]), Register(d, data[..n]);
      RegisterBound(c, data[..n]);
      RegisterBound(d, data[..n]);
      Pow2s();
      XorBound(x, data[n], 32);
      XorBound(y, data[n], 32);
      BitStepsInjective(8, Xor(x, data[n]), Xor(y, data[n]));
      XorComm(x, data[n]);
      XorComm(y, data[n]);
      XorInjective(data[n], x, y);
      RegisterInjective(c, d, data[..n]);
    }
  }

  lemma WindowInjective(c: nat, v: seq<byte>, w: seq<byte>)
    requires c < TWO_32 && |v| == |w| <= 4 && Register(c, v) == Register(c, w)
    ensures v == w
  {
    RegisterWhole(c, v);
    RegisterWhole(c, w);
    FourBytes(v);
    FourBytes(w);
    Pow2s();
    XorBound(c, FromLe(v), 32);
    XorBound(c, FromLe(w), 32);
    BitStepsInjective(8 * |v|, Xor(c, FromLe(v)), Xor(c, FromLe(w)));
    XorInjective(c, FromLe(v), FromLe(w));
    LeInverse(v);
    LeInverse(w);
  }

  lemma FourBytes(s: seq<byte>)
    requires |s| <= 4
    ensures FromLe(s) < TWO_32
  {
    LeInverse(s);
    LeWidths();
    assert Pow256(3) == 256 * Pow256(2) && Pow256(4) == 256 * Pow256(3) && Pow256(1) == 256 * Pow256(0);
  }

  /** Bodies that differ only inside a window of at most four bytes have different CRCs. */
  lemma BurstDetected(pre: seq<byte>, v: seq<byte>, w: seq<byte>, post: seq<byte>)
    requires |v| == |w| <= 4 && v != w
    ensures Crc32(pre + v + post) != Crc32(pre + w + post)
  {
    var c := Register(ONES, pre);
    RegisterBound(ONES, pre);
    RegisterAppend(ONES, pre, v);
    RegisterAppend(ONES, pre, w);
    RegisterAppend(ONES, pre + v, post);
    RegisterAppend(ONES, pre + w, post);
    RegisterBound(c, v);
    RegisterBound(c, w);
    if Crc32(pre + v + post) == Crc32(pre + w + post) {
      XorComm(Register(ONES, pre + v + post), ONES);
      XorComm(Register(ONES, pre + w + post), ONES);
      XorInjective(ONES, Register(ONES, pre + v + post), Register(ONES, pre + w + post));
      RegisterInjective(Register(c, v), Register(c, w), post);
      WindowInjective(c, v, w);
    }
  }

  /** In particular any single changed byte is noticed. */
  lemma ByteChangeDetected(data: seq<byte>, k: nat, b: byte)
    requires k < |data| && b != data[k]
    ensures Crc32(data[k := b]) != Crc32(data)
  {
    BurstDetected(data[..k], [data[k]], [b], data[k + 1..]);
    assert data == data[..k] + [data[k]] + data[k + 1..];
    assert data[k := b] == data[..k] + [b] + data[k + 1..];
  }
}
