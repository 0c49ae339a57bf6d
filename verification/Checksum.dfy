/** `src/checksum.rs`: the FIX CheckSum (byte sum modulo 256, three digits) and the
    backward search for the trailer that holds it. */
module Checksum {
  import opened Bytes
  import opened Decimal

  function Sum(data: seq<byte>): nat {
    if data == [] then 0 else Sum(data[..|data| - 1]) + data[|data| - 1]
  }

  /** SOH followed by "10=" starts at `k`. */
  predicate TrailerAt(msg: seq<byte>, k: nat) {
    k + 3 < |msg| && msg[k] == SOH && msg[k + 1] == 0x31 && msg[k + 2] == 0x30 && msg[k + 3] == EQUALS
  }

  /** One past the last SOH below `limit` that "10=" follows; 0 when there is none. */
  function LastTrailer(msg: seq<byte>, limit: nat): (start: nat)
    ensures start <= limit
    ensures start > 0 ==> TrailerAt(msg, start - 1)
    ensures forall k :: start <= k < limit ==> !TrailerAt(msg, k)
  {
    if limit == 0 then 0
    else if TrailerAt(msg, limit - 1) then limit
    else LastTrailer(msg, limit - 1)
  }

  predicate StartsWithTrailer(msg: seq<byte>) {
    |msg| >= 3 && msg[0] == 0x31 && msg[1] == 0x30 && msg[2] == EQUALS
  }

  /** The three stated digits read with `u8` arithmetic, which wraps. */
  function StatedChecksum(msg: seq<byte>, at: nat): byte
    requires at + 3 <= |msg|
  {
    Wrap8(Wrap8(msg[at] - ZERO) * 100 + Wrap8(msg[at + 1] - ZERO) * 10 + Wrap8(msg[at + 2] - ZERO))
  }

  /** The verdict on a whole message. */
  function Valid(msg: seq<byte>): bool {
    if |msg| < 7 then false else
    var start := LastTrailer(msg, |msg| - 4);
    if start == 0 && !StartsWithTrailer(msg) then false
    else if start + 6 > |msg| then false
    else Sum(msg[..start]) % 256 == StatedChecksum(msg, start + 3)
  }

  function WrapAdd32(a: u32, b: u32): u32 { Wrap32(a + b) }

  /** A wrapping accumulator holds its running total reduced to 32 bits. */
  lemma Accumulate(total: nat, b: byte)
    ensures WrapAdd32(Wrap32(total), b) == Wrap32(total + b)
  {
  }

  lemma Combine(a: nat, b: nat)
    ensures WrapAdd32(Wrap32(a), Wrap32(b)) == Wrap32(a + b)
  {
    Wrap32Shift(Wrap32(a) + Wrap32(b), a / 0x1_0000_0000 + b / 0x1_0000_0000);
  }

  lemma CombineAll(a: nat, b: nat, c: nat, d: nat)
    ensures WrapAdd32(WrapAdd32(WrapAdd32(Wrap32(a), Wrap32(b)), Wrap32(c)), Wrap32(d)) % 256 == (a + b + c + d) % 256
  {
    Combine(a, b);
    Combine(a + b, c);
    Combine(a + b + c, d);
    LowByte(a + b + c + d);
  }

  lemma Wrap32Shift(x: int, k: int)
    ensures Wrap32(x + 0x1_0000_0000 * k) == Wrap32(x)
  {
    DivModUnique(x + 0x1_0000_0000 * k, 0x1_0000_0000, k + x / 0x1_0000_0000, x % 0x1_0000_0000);
  }

  lemma LowByte(a: nat)
    ensures Wrap32(a) % 256 == a % 256
  {
  }

  lemma SumStep(data: seq<byte>, i: nat)
    requires i < |data|
    ensures Sum(data[..i + 1]) == Sum(data[..i]) + data[i]
  {
    assert data[..i + 1][..i] == data[..i];
  }

  /** The unrolled loop: four accumulators over whole chunks of four bytes, each with the
      unbounded total it stands for. */
  method AddChunks(data: seq<byte>)
    returns (sum0: u32, sum1: u32, sum2: u32, sum3: u32, i: nat,
      ghost t0: nat, ghost t1: nat, ghost t2: nat, ghost t3: nat)
    ensures i + |data| % 4 == |data| && t0 + t1 + t2 + t3 == Sum(data[..i])
    ensures sum0 == Wrap32(t0) && sum1 == Wrap32(t1) && sum2 == Wrap32(t2) && sum3 == Wrap32(t3)
  {
    sum0, sum1, sum2, sum3, i := 0, 0, 0, 0, 0;
    t0, t1, t2, t3 := 0, 0, 0, 0;
    for c := 0 to |data| / 4
      invariant i == 4 * c
      invariant sum0 == Wrap32(t0) && sum1 == Wrap32(t1) && sum2 == Wrap32(t2) && sum3 == Wrap32(t3)
      invariant t0 + t1 + t2 + t3 == Sum(data[..i])
    {
      Accumulate(t0, data[i]);
      Accumulate(t1, data[i + 1]);
      Accumulate(t2, data[i + 2]);
      Accumulate(t3, data[i + 3]);
      SumChunk(data, i);
      sum0 := WrapAdd32(sum0, data[i]);
      sum1 := WrapAdd32(sum1, data[i + 1]);
      sum2 := WrapAdd32(sum2, data[i + 2]);
      sum3 := WrapAdd32(sum3, data[i + 3]);
      t0, t1, t2, t3 := t0 + data[i], t1 + data[i + 1], t2 + data[i + 2], t3 + data[i + 3];
      i := i + 4;
    }
  }

  /** Four wrapping accumulators and a remainder loop still yield the plain sum modulo 256. */
  method Compute(data: seq<byte>) returns (cs: byte)
    ensures cs == Sum(data) % 256
  {
    var sum0: u32, sum1: u32, sum2: u32, sum3: u32, i: nat;
    ghost var t0: nat, t1: nat, t2: nat, t3: nat;
    sum0, sum1, sum2, sum3, i, t0, t1, t2, t3 := AddChunks(data);
    for j := 0 to |data| % 4
      invariant sum0 == Wrap32(t0) && t0 + t1 + t2 + t3 == Sum(data[..i + j])
    {
      Accumulate(t0, data[i + j]);
      SumStep(data, i + j);
      sum0 := WrapAdd32(sum0, data[i + j]);
      t0 := t0 + data[i + j];
    }
    assert data[..|data|] == data;
    CombineAll(t0, t1, t2, t3);
    return WrapAdd32(WrapAdd32(WrapAdd32(sum0, sum1), sum2), sum3) % 256;
  }

  lemma SumChunk(data: seq<byte>, i: nat)
    requires i + 4 <= |data|
    ensures Sum(data[..i + 4]) == Sum(data[..i]) + data[i] + data[i + 1] + data[i + 2] + data[i + 3]
  {
    SumStep(data, i);
    SumStep(data, i + 1);
    SumStep(data, i + 2);
    SumStep(data, i + 3);
  }

  method Format(checksum: byte, buf: array<byte>)
    requires buf.Length == 3
    modifies buf
    ensures buf[..] == Fixed(3, checksum)
  {
    buf[0] := ZERO + checksum / 100;
    buf[1] := ZERO + (checksum / 10) % 10;
    buf[2] := ZERO + checksum % 10;
    FixedThree(checksum);
  }

  method Validate(msg: seq<byte>) returns (ok: bool)
    ensures ok == Valid(msg)
  {
    var len := |msg|;
    if len < 7 {
      return false;
    }
    var checksumStart := 0;
    var i := len - 4;
    while i > 0
      invariant 0 <= i <= len - 4
      invariant LastTrailer(msg, len - 4) == LastTrailer(msg, i)
    {
      i := i - 1;
      if msg[i] == SOH && msg[i + 1] == 0x31 && msg[i + 2] == 0x30 && msg[i + 3] == EQUALS {
        checksumStart := i + 1;
        break;
      }
    }
    assert checksumStart == LastTrailer(msg, len - 4);
    if checksumStart == 0 && !(msg[0] == 0x31 && msg[1] == 0x30 && msg[2] == EQUALS) {
      return false;
    }
    var computed := Compute(msg[..checksumStart]);
    var csOffset := checksumStart + 3;
    if csOffset + 3 > len {
      return false;
    }
    return computed == StatedChecksum(msg, csOffset);
  }

  /** Changing one byte of the summed part always changes the sum modulo 256. */
  lemma {:induction false} SumDetectsChange(data: seq<byte>, k: nat, b: byte)
    requires k < |data| && b != data[k]
    ensures Sum(data[k := b]) == Sum(data) - data[k] + b
    ensures Sum(data[k := b]) % 256 != Sum(data) % 256
  {
    var n := |data| - 1;
    if k == n {
      assert data[k := b][..n] == data[..n];
    } else {
      assert data[k := b][..n] == data[..n][k := b];
      SumDetectsChange(data[..n], k, b);
    }
  }

  lemma StatedRoundTrip(msg: seq<byte>, at: nat, cs: byte)
    requires at + 3 <= |msg| && msg[at..at + 3] == Fixed(3, cs)
    ensures StatedChecksum(msg, at) == cs
  {
    FixedThree(cs);
    ThreeDigits(cs);
    var s := msg[at..at + 3];
    assert msg[at] == s[0] && msg[at + 1] == s[1] && msg[at + 2] == s[2];
    WrapSmall(cs / 100);
    WrapSmall(cs / 10 % 10);
    WrapSmall(cs % 10);
    WrapSmall(cs);
  }

  lemma WrapSmall(n: byte)
    ensures Wrap8(ZERO + n - ZERO) == n
  {
  }

  lemma ThreeDigits(n: nat)
    ensures n / 100 * 100 + n / 10 % 10 * 10 + n % 10 == n
  {
  }
}
