/** `src/journal.rs`: a circular log over a fixed map of bytes, each entry a 24-byte little-endian
    header and a body protected by a CRC-32. */
module Journal {
  import opened Bytes
  import opened Crc

  const HEADER_SIZE: nat := 24

  datatype Header = Header(sessionHash: u64, seqNum: u64, bodyLength: u32, crc32: u32)
  datatype Record = Record(sessionHash: u64, seqNum: u64, body: seq<byte>)

  function HeaderBytes(h: Header): (s: seq<byte>)
    ensures |s| == HEADER_SIZE
  {
    ToLe(h.sessionHash, 8) + ToLe(h.seqNum, 8) + ToLe(h.bodyLength, 4) + ToLe(h.crc32, 4)
  }

  function HeaderAt(bytes: seq<byte>, at: nat): Header
    requires at + HEADER_SIZE <= |bytes|
  {
    LeWidths();
    LeInverse(bytes[at..at + 8]);
    LeInverse(bytes[at + 8..at + 16]);
    LeInverse(bytes[at + 16..at + 20]);
    LeInverse(bytes[at + 20..at + 24]);
    Header(FromLe(bytes[at..at + 8]), FromLe(bytes[at + 8..at + 16]),
           FromLe(bytes[at + 16..at + 20]), FromLe(bytes[at + 20..at + 24]))
  }

  /** The header `append` writes; the length is cut to 32 bits. */
  function Stamp(r: Record): Header {
    CrcBound(r.body);
    Header(r.sessionHash, r.seqNum, Wrap32(|r.body|), Crc32(r.body))
  }

  function EntryBytes(r: Record): (s: seq<byte>)
    ensures |s| == HEADER_SIZE + |r.body|
  {
    HeaderBytes(Stamp(r)) + r.body
  }

  /** `read_entry`. */
  function Read(bytes: seq<byte>, offset: nat): Option<(Header, seq<byte>)> {
    if offset + HEADER_SIZE > |bytes| then None
    else
      var h := HeaderAt(bytes, offset);
      var bodyStart := offset + HEADER_SIZE;
      if bodyStart + h.bodyLength > |bytes| then None
      else
        var body := bytes[bodyStart..bodyStart + h.bodyLength];
        if Crc32(body) != h.crc32 then None else Some((h, body))
  }

  // ----- one entry -----

  lemma SliceParts(bytes: seq<byte>, from: nat, to: nat, a: seq<byte>, b: seq<byte>)
    requires from <= to <= |bytes| && bytes[from..to] == a + b
    ensures bytes[from..from + |a|] == a && bytes[from + |a|..to] == b
  {
    assert bytes[from..from + |a|] == bytes[from..to][..|a|];
    assert bytes[from + |a|..to] == bytes[from..to][|a|..];
  }

  lemma FourParts(bytes: seq<byte>, at: nat, a: seq<byte>, b: seq<byte>, c: seq<byte>, d: seq<byte>)
    requires |a| == |b| == 8 && |c| == |d| == 4 && at + 24 <= |bytes| && bytes[at..at + 24] == a + b + c + d
    ensures bytes[at..at + 8] == a && bytes[at + 8..at + 16] == b
    ensures bytes[at + 16..at + 20] == c && bytes[at + 20..at + 24] == d
  {
    assert a + b + c + d == a + (b + (c + d));
    SliceParts(bytes, at, at + 24, a, b + (c + d));
    SliceParts(bytes, at + 8, at + 24, b, c + d);
    SliceParts(bytes, at + 16, at + 24, c, d);
  }

  lemma HeaderWritten(bytes: seq<byte>, at: nat, h: Header)
    requires at + HEADER_SIZE <= |bytes| && bytes[at..at + HEADER_SIZE] == HeaderBytes(h)
    ensures HeaderAt(bytes, at) == h
  {
    LeWidths();
    FourParts(bytes, at, ToLe(h.sessionHash, 8), ToLe(h.seqNum, 8), ToLe(h.bodyLength, 4), ToLe(h.crc32, 4));
    LeRoundTrip(h.sessionHash, 8);
    LeRoundTrip(h.seqNum, 8);
    LeRoundTrip(h.bodyLength, 4);
    LeRoundTrip(h.crc32, 4);
  }

  /** A header's bytes: session hash, sequence number, body length and CRC, lowest byte first. */
  lemma HeaderLaidOut(h: Header)
    ensures var b := HeaderBytes(h);
      FromLe(b[..8]) == h.sessionHash && FromLe(b[8..16]) == h.seqNum
      && FromLe(b[16..20]) == h.bodyLength && FromLe(b[20..24]) == h.crc32
  {
    var b := HeaderBytes(h);
    LeWidths();
    assert b[0..0 + 24] == b;
    FourParts(b, 0, ToLe(h.sessionHash, 8), ToLe(h.seqNum, 8), ToLe(h.bodyLength, 4), ToLe(h.crc32, 4));
    LeRoundTrip(h.sessionHash, 8);
    LeRoundTrip(h.seqNum, 8);
    LeRoundTrip(h.bodyLength, 4);
    LeRoundTrip(h.crc32, 4);
    assert b[..8] == b[0..0 + 8];
  }

  /** Reading depends only on the bytes of the entry, and gives back what was written. */
  lemma ReadWritten(bytes: seq<byte>, offset: nat, r: Record)
    requires |r.body| < TWO_32 && offset + HEADER_SIZE + |r.body| <= |bytes|
    requires bytes[offset..offset + HEADER_SIZE + |r.body|] == EntryBytes(r)
    ensures Read(bytes, offset) == Some((Stamp(r), r.body))
  {
    StampFits(r);
    ReadStored(bytes, offset, Stamp(r), r.body);
  }

  /** An entry's bytes read back whole if and only if its length fits the header's 32 bits. */
  lemma ReadsBackExactly(bytes: seq<byte>, offset: nat, r: Record)
    requires offset + HEADER_SIZE + |r.body| <= |bytes|
    requires bytes[offset..offset + HEADER_SIZE + |r.body|] == EntryBytes(r)
    ensures Read(bytes, offset) == Some((Stamp(r), r.body)) <==> |r.body| < TWO_32
  {
    if |r.body| < TWO_32 {
      ReadWritten(bytes, offset, r);
    } else if Read(bytes, offset).Some? {
      var (h, body) := Read(bytes, offset).value;
      assert |body| == h.bodyLength < TWO_32;
    }
  }

  /** And so does an appended one. */
  lemma AppendedReadsExactly(j: Log, r: Record)
    requires HEADER_SIZE + |r.body| <= |j.bytes|
    ensures Read(Append(j, r).bytes, Place(j, r)) == Some((Stamp(r), r.body)) <==> |r.body| < TWO_32
  {
    var at := Place(j, r);
    assert Append(j, r).bytes[at..at + HEADER_SIZE + |r.body|] == EntryBytes(r);
    ReadsBackExactly(Append(j, r).bytes, at, r);
  }

  lemma StampFits(r: Record)
    requires |r.body| < TWO_32
    ensures Stamp(r).bodyLength == |r.body| && Stamp(r).crc32 == Crc32(r.body)
  {
  }

  lemma ReadStored(bytes: seq<byte>, offset: nat, h: Header, body: seq<byte>)
    requires offset + HEADER_SIZE + |body| <= |bytes|
    requires bytes[offset..offset + HEADER_SIZE + |body|] == HeaderBytes(h) + body
    requires h.bodyLength == |body| && h.crc32 == Crc32(body)
    ensures Read(bytes, offset) == Some((h, body))
  {
    SliceParts(bytes, offset, offset + HEADER_SIZE + |body|, HeaderBytes(h), body);
    HeaderWritten(bytes, offset, h);
    ReadParts(bytes, offset, h, body);
  }

  lemma ReadParts(bytes: seq<byte>, offset: nat, h: Header, body: seq<byte>)
    requires offset + HEADER_SIZE + |body| <= |bytes| && HeaderAt(bytes, offset) == h
    requires bytes[offset + HEADER_SIZE..offset + HEADER_SIZE + |body|] == body
    requires h.bodyLength == |body| && h.crc32 == Crc32(body)
    ensures Read(bytes, offset) == Some((h, body))
  {
  }

  /** One changed byte anywhere in a stored body makes the entry unreadable. */
  lemma CorruptionDetected(bytes: seq<byte>, offset: nat, k: nat, b: byte)
    requires Read(bytes, offset).Some?
    requires k < |Read(bytes, offset).value.1| && b != Read(bytes, offset).value.1[k]
    ensures Read(bytes[offset + HEADER_SIZE + k := b], offset) == None
  {
    var at := offset + HEADER_SIZE;
    var body := Read(bytes, offset).value.1;
    var changed := bytes[at + k := b];
    HeaderUntouched(bytes, changed, offset);
    assert changed[at..at + |body|] == body[k := b];
    ByteChangeDetected(body, k, b);
  }

  lemma HeaderUntouched(a: seq<byte>, b: seq<byte>, at: nat)
    requires |a| == |b| && at + HEADER_SIZE <= |a|
    requires forall i :: at <= i < at + HEADER_SIZE ==> a[i] == b[i]
    ensures HeaderAt(a, at) == HeaderAt(b, at)
  {
    assert a[at..at + 8] == b[at..at + 8];
    assert a[at + 8..at + 16] == b[at + 8..at + 16];
    assert a[at + 16..at + 20] == b[at + 16..at + 20];
    assert a[at + 20..at + 24] == b[at + 20..at + 24];
  }

  // ----- runs of appends -----

  datatype Log = Log(bytes: seq<byte>, writeOffset: nat)

  predicate Fits(capacity: nat, r: Record) { HEADER_SIZE + |r.body| <= capacity && |r.body| < TWO_32 }

  /** Where the next entry goes: at the write offset, or back at the start when it does not fit. */
  function Place(j: Log, r: Record): nat {
    if j.writeOffset + HEADER_SIZE + |r.body| > |j.bytes| then 0 else j.writeOffset
  }

  function Append(j: Log, r: Record): Log
    requires HEADER_SIZE + |r.body| <= |j.bytes|
  {
    var at := Place(j, r);
    var end := at + HEADER_SIZE + |r.body|;
    Log(j.bytes[..at] + EntryBytes(r) + j.bytes[end..], end)
  }

  function Size(r: Record): nat { HEADER_SIZE + |r.body| }

  /** An entry that fits goes right behind everything written so far and leaves it alone; one that does not goes to
      the front. Nothing behind its end changes either way, and what it covers are its bytes. */
  lemma AppendedBehind(j: Log, r: Record)
    requires Size(r) <= |j.bytes| && j.writeOffset <= |j.bytes|
    ensures var after := Append(j, r); var at := after.writeOffset - Size(r);
      && |after.bytes| == |j.bytes|
      && at == (if j.writeOffset + Size(r) <= |j.bytes| then j.writeOffset else 0)
      && after.bytes[..at] == j.bytes[..at] && after.bytes[after.writeOffset..] == j.bytes[after.writeOffset..]
      && after.bytes[at..after.writeOffset] == EntryBytes(r)
  {
  }

  datatype Placed = Placed(offset: nat, record: Record)

  /** A run: the log, where each append went, and the records of the current lap. */
  datatype History = History(log: Log, placed: seq<Placed>, lap: seq<Record>)

  function Extend(h: History, r: Record): History
    requires Fits(|h.log.bytes|, r)
  {
    History(Append(h.log, r), h.placed + [Placed(Place(h.log, r), r)],
            if Place(h.log, r) == 0 then [r] else h.lap + [r])
  }

  function Replay(start: seq<byte>, rs: seq<Record>): (h: History)
    requires forall r :: r in rs ==> Fits(|start|, r)
    ensures |h.log.bytes| == |start| && |h.placed| == |rs|
    ensures h.log.writeOffset <= |start|
  {
    if rs == [] then History(Log(start, 0), [], [])
    else
      var n := |rs| - 1;
      assert rs[n] in rs;
      Extend(Replay(start, rs[..n]), rs[n])
  }

  predicate Overlap(a: Placed, b: Placed) {
    a.offset < b.offset + HEADER_SIZE + |b.record.body| && b.offset < a.offset + HEADER_SIZE + |a.record.body|
  }

  /** No append after the `i`-th touched its bytes. */
  predicate Spared(placed: seq<Placed>, i: nat) {
    i < |placed| && forall k :: i < k < |placed| ==> !Overlap(placed[i], placed[k])
  }

  predicate Stored(bytes: seq<byte>, p: Placed) {
    var end := p.offset + HEADER_SIZE + |p.record.body|;
    end <= |bytes| && bytes[p.offset..end] == EntryBytes(p.record)
  }

  lemma AppendStores(j: Log, r: Record)
    requires Fits(|j.bytes|, r)
    ensures Stored(Append(j, r).bytes, Placed(Place(j, r), r))
  {
  }

  lemma AppendSpares(j: Log, r: Record, p: Placed)
    requires Fits(|j.bytes|, r) && Stored(j.bytes, p) && !Overlap(p, Placed(Place(j, r), r))
    ensures Stored(Append(j, r).bytes, p)
  {
    var b := Append(j, r).bytes;
    var end := p.offset + HEADER_SIZE + |p.record.body|;
    forall i | p.offset <= i < end ensures b[i] == j.bytes[i] {}
  }

  lemma {:induction false} SparedStored(start: seq<byte>, rs: seq<Record>, i: nat)
    requires forall r :: r in rs ==> Fits(|start|, r)
    requires Spared(Replay(start, rs).placed, i)
    ensures Replay(start, rs).placed[i].record == rs[i]
    ensures Stored(Replay(start, rs).log.bytes, Replay(start, rs).placed[i])
  {
    var n := |rs| - 1;
    var before := Replay(start, rs[..n]);
    assert rs[n] in rs;
    if i == n {
      AppendStores(before.log, rs[n]);
    } else {
      var placed := Replay(start, rs).placed;
      forall k | i < k < n ensures !Overlap(before.placed[i], before.placed[k]) {
        assert placed[k] == before.placed[k];
      }
      SparedStored(start, rs[..n], i);
      assert placed[n] == Placed(Place(before.log, rs[n]), rs[n]);
      AppendSpares(before.log, rs[n], before.placed[i]);
    }
  }

  /** After any run of appends, every entry whose bytes no later append touched reads back whole. */
  lemma {:induction false} SurvivorsRead(start: seq<byte>, rs: seq<Record>, i: nat)
    requires forall r :: r in rs ==> Fits(|start|, r)
    requires Spared(Replay(start, rs).placed, i)
    ensures Read(Replay(start, rs).log.bytes, Replay(start, rs).placed[i].offset) == Some((Stamp(rs[i]), rs[i].body))
  {
    SparedStored(start, rs, i);
    assert rs[i] in rs;
    ReadWritten(Replay(start, rs).log.bytes, Replay(start, rs).placed[i].offset, rs[i]);
  }

  function Concat(rs: seq<Record>): seq<byte> {
    if rs == [] then [] else EntryBytes(rs[0]) + Concat(rs[1..])
  }

  lemma {:induction false} ConcatSnoc(rs: seq<Record>, r: Record)
    ensures Concat(rs + [r]) == Concat(rs) + EntryBytes(r)
  {
    if rs == [] {
      assert [r][1..] == [];
      assert Concat([r]) == EntryBytes(r) + Concat([]);
    } else {
      assert (rs + [r])[1..] == rs[1..] + [r];
      ConcatSnoc(rs[1..], r);
    }
  }

  /** The current lap fills the map from its start to the write offset, entry after entry. */
  lemma {:induction false} LapLaidOut(start: seq<byte>, rs: seq<Record>)
    requires forall r :: r in rs ==> Fits(|start|, r)
    ensures var h := Replay(start, rs); h.log.bytes[..h.log.writeOffset] == Concat(h.lap)
    ensures forall r :: r in Replay(start, rs).lap ==> r in rs
  {
    if rs != [] {
      var n := |rs| - 1;
      var before := Replay(start, rs[..n]);
      assert rs[n] in rs;
      LapLaidOut(start, rs[..n]);
      ConcatSnoc(before.lap, rs[n]);
      ConcatSnoc([], rs[n]);
      assert [] + [rs[n]] == [rs[n]];
      AppendPrefix(before.log, rs[n]);
    }
  }

  lemma AppendPrefix(j: Log, r: Record)
    requires Fits(|j.bytes|, r)
    ensures Append(j, r).bytes[..Append(j, r).writeOffset] == j.bytes[..Place(j, r)] + EntryBytes(r)
  {
  }

  /** Recovery: follow the header lengths from `from` until `to`. */
  function Walk(bytes: seq<byte>, from: nat, to: nat): seq<Record>
    decreases to - from
  {
    if from >= to then []
    else
      var entry := Read(bytes, from);
      if entry.None? then []
      else
        var (h, body) := entry.value;
        [Record(h.sessionHash, h.seqNum, body)] + Walk(bytes, from + HEADER_SIZE + |body|, to)
  }

  lemma WalkOne(bytes: seq<byte>, from: nat, to: nat, h: Header, r: Record, later: seq<Record>)
    requires from < to && Read(bytes, from) == Some((h, r.body))
    requires later == Walk(bytes, from + HEADER_SIZE + |r.body|, to)
    requires h.sessionHash == r.sessionHash && h.seqNum == r.seqNum
    ensures Walk(bytes, from, to) == [r] + later
  {
  }

  lemma EntryAhead(bytes: seq<byte>, from: nat, to: nat, r: Record, rest: seq<byte>)
    returns (next: nat, later: seq<Record>)
    requires from <= to <= |bytes| && bytes[from..to] == EntryBytes(r) + rest && |r.body| < TWO_32
    ensures from < next <= to && bytes[next..to] == rest && later == Walk(bytes, next, to)
    ensures Walk(bytes, from, to) == [r] + later
  {
    next := from + HEADER_SIZE + |r.body|;
    SliceParts(bytes, from, to, EntryBytes(r), rest);
    later := Walk(bytes, next, to);
    ReadWritten(bytes, from, r);
    WalkOne(bytes, from, to, Stamp(r), r, later);
  }

  lemma NothingLeft(bytes: seq<byte>, from: nat, to: nat)
    requires from <= to <= |bytes| && bytes[from..to] == []
    ensures Walk(bytes, from, to) == []
  {
    assert |bytes[from..to]| == to - from;
  }

  lemma Rejoin(found: seq<Record>, rs: seq<Record>, later: seq<Record>)
    requires rs != [] && found == [rs[0]] + later && later == rs[1..]
    ensures found == rs
  {
  }

  lemma {:induction false} WalkRecovers(bytes: seq<byte>, from: nat, to: nat, rs: seq<Record>)
    requires from <= to <= |bytes| && bytes[from..to] == Concat(rs)
    requires forall r :: r in rs ==> |r.body| < TWO_32
    ensures Walk(bytes, from, to) == rs
    decreases |rs|
  {
    if rs == [] {
      NothingLeft(bytes, from, to);
    } else {
      assert rs[0] in rs;
      var next, later := EntryAhead(bytes, from, to, rs[0], Concat(rs[1..]));
      WalkRecovers(bytes, next, to, rs[1..]);
      Rejoin(Walk(bytes, from, to), rs, later);
    }
  }

  /** Walking the header lengths from offset 0 to the write offset recovers the records of the
      current lap, in the order they were appended. */
  lemma {:induction false} RecoveryExact(start: seq<byte>, rs: seq<Record>)
    requires forall r :: r in rs ==> Fits(|start|, r)
    ensures var h := Replay(start, rs); Walk(h.log.bytes, 0, h.log.writeOffset) == h.lap
  {
    var h := Replay(start, rs);
    LapLaidOut(start, rs);
    assert h.log.bytes[0..h.log.writeOffset] == h.log.bytes[..h.log.writeOffset];
    WalkRecovers(h.log.bytes, 0, h.log.writeOffset, h.lap);
  }

  // ----- which records a lap holds -----

  function Total(rs: seq<Record>): nat {
    if rs == [] then 0 else Total(rs[..|rs| - 1]) + Size(rs[|rs| - 1])
  }

  /** The lap holds the records from the `n`-th on and fills the map up to `offset`; the first of them no longer
      fitted behind `older` bytes. */
  predicate Latest(capacity: nat, rs: seq<Record>, n: nat, older: nat, lap: seq<Record>, offset: nat) {
    && n <= |rs| && (n == |rs| ==> rs == []) && lap == rs[n..] && offset == Total(lap) <= capacity
    && (n > 0 ==> older + Size(rs[n]) > capacity)
  }

  lemma TotalMore(rs: seq<Record>, r: Record)
    ensures Total(rs + [r]) == Total(rs) + Size(r)
  {
    assert (rs + [r])[..|rs|] == rs;
  }

  lemma ExtendBehind(h: History, r: Record, after: History)
    requires Fits(|h.log.bytes|, r) && after == Extend(h, r) && h.log.writeOffset + Size(r) <= |h.log.bytes|
    ensures after.log.writeOffset == h.log.writeOffset + Size(r)
    ensures after.lap == if h.log.writeOffset == 0 then [r] else h.lap + [r]
  {
  }

  lemma ExtendOver(h: History, r: Record, after: History)
    requires Fits(|h.log.bytes|, r) && after == Extend(h, r) && h.log.writeOffset + Size(r) > |h.log.bytes|
    ensures after.log.writeOffset == Size(r) && after.lap == [r]
  {
  }

  lemma Longer(rs: seq<Record>, n: nat, m: nat, lap: seq<Record>)
    requires n <= m < |rs| && lap == rs[..m][n..]
    ensures rs[n..m + 1] == lap + [rs[m]] && Total(rs[n..m + 1]) == Total(lap) + Size(rs[m])
    ensures n < m ==> rs[..m][n] == rs[n] && Total(lap) > 0
  {
    assert rs[n..m + 1] == lap + [rs[m]];
    TotalMore(lap, rs[m]);
  }

  lemma LapGoesOn(capacity: nat, rs: seq<Record>, m: nat, n: nat, older: nat, lap: seq<Record>, offset: nat)
    requires m + 1 == |rs| && Latest(capacity, rs[..m], n, older, lap, offset) && offset + Size(rs[m]) <= capacity
    ensures Latest(capacity, rs, n, older, if offset == 0 then [rs[m]] else lap + [rs[m]], offset + Size(rs[m]))
  {
    Longer(rs, n, m, lap);
    assert rs[n..m + 1] == rs[n..];
    assert n == m ==> m == 0 && lap == [];
  }

  lemma LapStartsOver(capacity: nat, rs: seq<Record>, m: nat, offset: nat)
    requires m + 1 == |rs| && offset + Size(rs[m]) > capacity >= Size(rs[m])
    ensures Latest(capacity, rs, m, offset, [rs[m]], Size(rs[m]))
  {
    Longer(rs, m, m, []);
    assert rs[m..m + 1] == rs[m..] == [rs[m]];
  }

  lemma {:induction false} LapIsLatest(start: seq<byte>, rs: seq<Record>) returns (n: nat)
    requires forall r :: r in rs ==> Fits(|start|, r)
    ensures n <= |rs|
    ensures var h := Replay(start, rs);
      Latest(|start|, rs, n, Replay(start, rs[..n]).log.writeOffset, h.lap, h.log.writeOffset)
  {
    if rs == [] {
      n := 0;
    } else {
      var m: nat := |rs| - 1;
      var before, after := Replay(start, rs[..m]), Replay(start, rs);
      assert rs[m] in rs;
      if before.log.writeOffset + Size(rs[m]) <= |start| {
        n := LapIsLatest(start, rs[..m]);
        assert rs[..m][..n] == rs[..n];
        ExtendBehind(before, rs[m], after);
        LapGoesOn(|start|, rs, m, n, Replay(start, rs[..n]).log.writeOffset, before.lap, before.log.writeOffset);
      } else {
        n := m;
        ExtendOver(before, rs[m], after);
        LapStartsOver(|start|, rs, m, before.log.writeOffset);
      }
    }
  }

  lemma {:induction false} TotalPrefix(rs: seq<Record>, n: nat)
    requires n <= |rs|
    ensures Total(rs[..n]) <= Total(rs) && (n < |rs| ==> Total(rs[..n]) + Size(rs[n]) <= Total(rs))
  {
    if n < |rs| {
      var m: nat := |rs| - 1;
      assert n < m ==> rs[..m][..n] == rs[..n] && rs[..m][n] == rs[n];
      TotalPrefix(rs[..m], n);
    } else {
      assert rs[..n] == rs;
    }
  }

  lemma {:induction false} OffsetBelow(start: seq<byte>, rs: seq<Record>)
    requires forall r :: r in rs ==> Fits(|start|, r)
    ensures Replay(start, rs).log.writeOffset <= Total(rs)
  {
    if rs != [] {
      var m: nat := |rs| - 1;
      assert rs[m] in rs;
      OffsetBelow(start, rs[..m]);
    }
  }

  /** Recovery finds the latest records, as many as were written since the log last came back to its front; it came
      back because the first of them no longer fitted. */
  lemma RecoversLatest(start: seq<byte>, rs: seq<Record>) returns (n: nat)
    requires forall r :: r in rs ==> Fits(|start|, r)
    ensures n <= |rs| && (n == |rs| ==> rs == [])
    ensures var j := Replay(start, rs).log;
      Walk(j.bytes, 0, j.writeOffset) == rs[n..] && j.writeOffset == Total(rs[n..])
    ensures n > 0 ==> Replay(start, rs[..n]).log.writeOffset + Size(rs[n]) > |start|
  {
    n := LapIsLatest(start, rs);
    RecoveryExact(start, rs);
  }

  /** It finds every record if and only if all of them together fit the map. */
  lemma RecoversAllExactly(start: seq<byte>, rs: seq<Record>)
    requires forall r :: r in rs ==> Fits(|start|, r)
    ensures var j := Replay(start, rs).log; Walk(j.bytes, 0, j.writeOffset) == rs <==> Total(rs) <= |start|
  {
    var n := RecoversLatest(start, rs);
    if n > 0 {
      OffsetBelow(start, rs[..n]);
      TotalPrefix(rs, n);
    } else {
      assert rs[0..] == rs;
    }
  }

  // ----- the journal object -----

  datatype SyncPolicy = NoSync | Batch(millis: u32) | EveryMessage

  /** Two adjoining copies are one. */
  lemma SpliceTwice(s: seq<byte>, t: seq<byte>, u: seq<byte>, at: nat, a: seq<byte>, b: seq<byte>)
    requires at + |a| + |b| <= |s|
    requires t == s[..at] + a + s[at + |a|..]
    requires u == t[..at + |a|] + b + t[at + |a| + |b|..]
    ensures u == s[..at] + (a + b) + s[at + |a| + |b|..]
  {
  }

  lemma ReadDecided(bytes: seq<byte>, offset: nat, h: Header, body: seq<byte>, crc: nat)
    requires offset + HEADER_SIZE + h.bodyLength <= |bytes| && h == HeaderAt(bytes, offset)
    requires body == bytes[offset + HEADER_SIZE..offset + HEADER_SIZE + h.bodyLength] && crc == Crc32(body)
    ensures Read(bytes, offset) == if crc != h.crc32 then None else Some((h, body))
  {
  }

  class Journal {
    const mmap: array<byte>
    const capacity: nat
    const syncPolicy: SyncPolicy
    var writeOffset: nat
    var entryCount: u64

    ghost predicate Valid()
      reads this
    {
      mmap.Length == capacity && writeOffset <= capacity
    }

    ghost function View(): Log
      reads this, mmap
    {
      Log(mmap[..], writeOffset)
    }

    /** `open` maps whatever the file holds and starts writing at its beginning. */
    constructor (mmap: array<byte>, syncPolicy: SyncPolicy)
      ensures Valid() && this.mmap == mmap && View() == Log(mmap[..], 0) && entryCount == 0
    {
      this.mmap := mmap;
      capacity := mmap.Length;
      this.syncPolicy := syncPolicy;
      writeOffset := 0;
      entryCount := 0;
    }

    /** Returns the offset the entry was written at. */
    method AppendMessage(sessionHash: u64, seqNum: u64, message: seq<byte>) returns (offset: nat)
      requires Valid() && HEADER_SIZE + |message| <= capacity
      modifies this, mmap
      ensures Valid() && entryCount == Wrap64(old(entryCount) + 1)
      ensures var r := Record(sessionHash, seqNum, message);
        offset == Place(old(View()), r) && View() == Append(old(View()), r) && writeOffset == offset + Size(r)
    {
      var totalSize := HEADER_SIZE + |message|;
      if writeOffset + totalSize > capacity {
        writeOffset := 0;
      }
      offset := writeOffset;
      var crc := ComputeCrc32(message);
      var header := Header(sessionHash, seqNum, Wrap32(|message|), crc);
      ghost var before := mmap[..];
      CopyInto(mmap, offset, HeaderBytes(header));
      ghost var between := mmap[..];
      CopyInto(mmap, offset + HEADER_SIZE, message);
      SpliceTwice(before, between, mmap[..], offset, HeaderBytes(header), message);
      writeOffset := writeOffset + totalSize;
      entryCount := Wrap64(entryCount + 1);
    }

    method ReadEntry(offset: nat) returns (r: Option<(Header, seq<byte>)>)
      requires Valid()
      ensures r == Read(mmap[..], offset)
    {
      if offset + HEADER_SIZE > capacity {
        return None;
      }
      ghost var bytes := mmap[..];
      var header := HeaderAt(mmap[..], offset);
      var bodyStart := offset + HEADER_SIZE;
      var bodyEnd := bodyStart + header.bodyLength;
      if bodyEnd > capacity {
        return None;
      }
      var body := mmap[bodyStart..bodyEnd];
      assert body == bytes[bodyStart..bodyEnd];
      var crc := ComputeCrc32(body);
      ReadDecided(bytes, offset, header, body, crc);
      if crc != header.crc32 {
        return None;
      }
      return Some((header, body));
    }
  }
}
