/** `src/simd.rs`: sixteen bytes at a time by comparison masks, against the byte-by-byte scan. */
module BlockScan {
  import opened Bytes

  // ----- the scalar meaning -----

  /** `iter().position`. */
  function Position(buf: seq<byte>, needle: byte): (r: Option<nat>)
    ensures r.Some? ==> r.value < |buf| && buf[r.value] == needle && needle !in buf[..r.value]
    ensures r.None? ==> needle !in buf
  {
    if buf == [] then None
    else if buf[0] == needle then Some(0)
    else
      var r := Position(buf[1..], needle);
      if r.None? then None
      else
        assert buf[..r.value + 1] == [buf[0]] + buf[1..][..r.value];
        Some(r.value + 1)
  }

  /** `filter().count`. */
  function Count(buf: seq<byte>, needle: byte): nat {
    if buf == [] then 0 else (if buf[0] == needle then 1 else 0) + Count(buf[1..], needle)
  }

  lemma {:induction false} CountAppend(a: seq<byte>, b: seq<byte>, needle: byte)
    ensures Count(a + b, needle) == Count(a, needle) + Count(b, needle)
  {
    if a == [] {
      assert a + b == b;
    } else {
      assert (a + b)[1..] == a[1..] + b;
      CountAppend(a[1..], b, needle);
    }
  }

  lemma {:induction false} PositionAppend(a: seq<byte>, b: seq<byte>, needle: byte)
    ensures Position(a + b, needle)
      == if Position(a, needle).Some? then Position(a, needle)
         else if Position(b, needle).Some? then Some(|a| + Position(b, needle).value)
         else None
  {
    if a == [] {
      assert a + b == b;
    } else {
      assert (a + b)[1..] == a[1..] + b;
      PositionAppend(a[1..], b, needle);
    }
  }

  // ----- words -----

  /** Number of zero bits below the lowest one bit. */
  function TrailingZeros(n: nat): nat
    requires n > 0
  {
    if n % 2 == 1 then 0 else 1 + TrailingZeros(n / 2)
  }

  /** Number of one bits. */
  function CountOnes(n: nat): nat {
    if n == 0 then 0 else n % 2 + CountOnes(n / 2)
  }

  // ----- SSE2: one mask bit per lane -----

  /** `_mm_movemask_epi8` of `_mm_cmpeq_epi8`: lane `k` sets bit `k`. */
  function MoveMask(chunk: seq<byte>, needle: byte): nat {
    if chunk == [] then 0 else (if chunk[0] == needle then 1 else 0) + 2 * MoveMask(chunk[1..], needle)
  }

  /** The lowest mask bit is the first match. */
  lemma {:induction false} MaskFindsFirst(chunk: seq<byte>, needle: byte)
    ensures MoveMask(chunk, needle) == 0 <==> Position(chunk, needle).None?
    ensures MoveMask(chunk, needle) != 0 ==> Position(chunk, needle) == Some(TrailingZeros(MoveMask(chunk, needle)))
  {
    if chunk != [] {
      MaskFindsFirst(chunk[1..], needle);
      assert MoveMask(chunk, needle) / 2 == MoveMask(chunk[1..], needle);
    }
  }

  /** The mask has one bit per match. */
  lemma {:induction false} MaskCounts(chunk: seq<byte>, needle: byte)
    ensures CountOnes(MoveMask(chunk, needle)) == Count(chunk, needle)
  {
    if chunk != [] {
      MaskCounts(chunk[1..], needle);
      assert MoveMask(chunk, needle) / 2 == MoveMask(chunk[1..], needle);
    }
  }

  // ----- NEON: a 0xFF byte per match, read as little-endian words -----

  /** `vceqq_u8`: every lane becomes 0xFF or 0. */
  function CompareLanes(chunk: seq<byte>, needle: byte): (lanes: seq<byte>)
    ensures |lanes| == |chunk|
  {
    seq(|chunk|, k requires 0 <= k < |chunk| => if chunk[k] == needle then 0xFF else 0)
  }

  /** The lowest bit of the lane word lies in the first matching byte. */
  lemma {:induction false} LanesFindFirst(chunk: seq<byte>, needle: byte)
    ensures var word := FromLe(CompareLanes(chunk, needle));
      && (word == 0 <==> Position(chunk, needle).None?)
      && (word != 0 ==> Position(chunk, needle) == Some(TrailingZeros(word) / 8))
  {
    if chunk != [] {
      var lanes := CompareLanes(chunk, needle);
      assert lanes[1..] == CompareLanes(chunk[1..], needle);
      LanesFindFirst(chunk[1..], needle);
      var tail := FromLe(lanes[1..]);
      if lanes[0] == 0 && tail != 0 {
        ShiftByte(tail);
      }
    }
  }

  lemma ShiftByte(n: nat)
    requires n > 0
    ensures TrailingZeros(256 * n) == 8 + TrailingZeros(n)
  {
    Double(n);
    Double(2 * n);
    Double(4 * n);
    Double(8 * n);
    Double(16 * n);
    Double(32 * n);
    Double(64 * n);
    Double(128 * n);
  }

  lemma Double(n: nat)
    requires n > 0
    ensures TrailingZeros(2 * n) == 1 + TrailingZeros(n)
  {
    assert 2 * n / 2 == n;
  }

  /** `vaddvq_u8` of the lanes shifted right by seven: the lane sum, which wraps at eight bits. */
  function AddLanes(lanes: seq<byte>): byte {
    if lanes == [] then 0 else Wrap8(lanes[0] / 128 + AddLanes(lanes[1..]))
  }

  lemma LaneBit(lane: byte, sum: nat)
    requires (lane == 0 || lane == 0xFF) && sum < 16
    ensures Wrap8(lane / 128 + sum) == (if lane == 0 then 0 else 1) + sum
  {
  }

  lemma {:induction false} LanesCount(chunk: seq<byte>, needle: byte)
    requires |chunk| <= 16
    ensures AddLanes(CompareLanes(chunk, needle)) == Count(chunk, needle) <= |chunk|
  {
    if chunk != [] {
      var lanes := CompareLanes(chunk, needle);
      assert lanes[1..] == CompareLanes(chunk[1..], needle);
      LanesCount(chunk[1..], needle);
      LaneBit(lanes[0], AddLanes(lanes[1..]));
    }
  }

  // ----- the four block scans -----

  lemma Advance(buf: seq<byte>, offset: nat, n: nat, needle: byte)
    requires offset + n <= |buf|
    ensures Count(buf[..offset + n], needle) == Count(buf[..offset], needle) + Count(buf[offset..offset + n], needle)
    ensures Position(buf[..offset], needle).None? && Position(buf[offset..offset + n], needle).None?
      ==> Position(buf[..offset + n], needle).None?
    ensures Position(buf[..offset], needle).None? && Position(buf[offset..offset + n], needle).Some?
      ==> Position(buf, needle) == Some(offset + Position(buf[offset..offset + n], needle).value)
  {
    var a, b, c := buf[..offset], buf[offset..offset + n], buf[offset + n..];
    assert buf[..offset + n] == a + b;
    assert buf == (a + b) + c;
    CountAppend(a, b, needle);
    PositionAppend(a, b, needle);
    PositionAppend(a + b, c, needle);
  }

  /** The scalar tail both searches end with. */
  method FindTail(buf: seq<byte>, offset: nat, needle: byte) returns (r: Option<nat>)
    requires offset <= |buf| && Position(buf[..offset], needle).None?
    ensures r == Position(buf, needle)
  {
    for i := offset to |buf|
      invariant Position(buf[..i], needle).None?
    {
      Advance(buf, i, 1, needle);
      assert buf[i..i + 1] == [buf[i]];
      if buf[i] == needle {
        return Some(i);
      }
    }
    assert buf[..|buf|] == buf;
    return None;
  }

  /** The scalar tail both counts end with. */
  method CountTail(buf: seq<byte>, offset: nat, needle: byte, soFar: nat) returns (total: nat)
    requires offset <= |buf| && soFar == Count(buf[..offset], needle)
    ensures total == Count(buf, needle)
  {
    total := soFar;
    for i := offset to |buf|
      invariant total == Count(buf[..i], needle)
    {
      Advance(buf, i, 1, needle);
      assert buf[i..i + 1] == [buf[i]] && [buf[i]][1..] == [];
      if buf[i] == needle {
        total := total + 1;
      }
    }
    assert buf[..|buf|] == buf;
  }

  method FindByteSse2(buf: seq<byte>, needle: byte) returns (r: Option<nat>)
    ensures r == Position(buf, needle)
  {
    var offset := 0;
    while offset + 16 <= |buf|
      invariant offset <= |buf| && Position(buf[..offset], needle).None?
    {
      var chunk := buf[offset..offset + 16];
      var mask := MoveMask(chunk, needle);
      MaskFindsFirst(chunk, needle);
      Advance(buf, offset, 16, needle);
      if mask != 0 {
        return Some(offset + TrailingZeros(mask));
      }
      offset := offset + 16;
    }
    r := FindTail(buf, offset, needle);
  }

  method CountByteSse2(buf: seq<byte>, needle: byte) returns (total: nat)
    ensures total == Count(buf, needle)
  {
    var offset := 0;
    total := 0;
    while offset + 16 <= |buf|
      invariant offset <= |buf| && total == Count(buf[..offset], needle)
    {
      var chunk := buf[offset..offset + 16];
      MaskCounts(chunk, needle);
      Advance(buf, offset, 16, needle);
      total := total + CountOnes(MoveMask(chunk, needle));
      offset := offset + 16;
    }
    total := CountTail(buf, offset, needle, total);
  }

  /** The two 64-bit lanes of a block are the comparisons of its halves. */
  lemma LaneHalves(buf: seq<byte>, offset: nat, needle: byte)
    requires offset + 16 <= |buf|
    ensures var cmp := CompareLanes(buf[offset..offset + 16], needle);
      && cmp[..8] == CompareLanes(buf[offset..offset + 8], needle)
      && cmp[8..] == CompareLanes(buf[offset + 8..offset + 16], needle)
  {
  }

  /** What one lane says about its eight bytes. */
  lemma LaneScanned(buf: seq<byte>, offset: nat, needle: byte, word: nat)
    requires offset + 8 <= |buf| && Position(buf[..offset], needle).None?
    requires word == FromLe(CompareLanes(buf[offset..offset + 8], needle))
    ensures if word == 0 then Position(buf[..offset + 8], needle).None?
            else Position(buf, needle) == Some(offset + TrailingZeros(word) / 8)
  {
    LanesFindFirst(buf[offset..offset + 8], needle);
    Advance(buf, offset, 8, needle);
  }

  method FindByteNeon(buf: seq<byte>, needle: byte) returns (r: Option<nat>)
    ensures r == Position(buf, needle)
  {
    var offset := 0;
    while offset + 16 <= |buf|
      invariant offset <= |buf| && Position(buf[..offset], needle).None?
    {
      var cmp := CompareLanes(buf[offset..offset + 16], needle);
      var lo, hi := FromLe(cmp[..8]), FromLe(cmp[8..]);
      LaneHalves(buf, offset, needle);
      LaneScanned(buf, offset, needle, lo);
      if lo != 0 {
        return Some(offset + TrailingZeros(lo) / 8);
      }
      LaneScanned(buf, offset + 8, needle, hi);
      if hi != 0 {
        return Some(offset + 8 + TrailingZeros(hi) / 8);
      }
      offset := offset + 16;
    }
    r := FindTail(buf, offset, needle);
  }

  method CountByteNeon(buf: seq<byte>, needle: byte) returns (total: nat)
    ensures total == Count(buf, needle)
  {
    var offset := 0;
    total := 0;
    while offset + 16 <= |buf|
      invariant offset <= |buf| && total == Count(buf[..offset], needle)
    {
      var chunk := buf[offset..offset + 16];
      LanesCount(chunk, needle);
      Advance(buf, offset, 16, needle);
      total := total + AddLanes(CompareLanes(chunk, needle));
      offset := offset + 16;
    }
    total := CountTail(buf, offset, needle, total);
  }
}
