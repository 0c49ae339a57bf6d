/** The replicated session table of `src/cluster.rs`: its byte form, log replay and snapshots. */
module SessionTable {
  import opened Bytes

  predicate Continuation(b: byte) { 0x80 <= b <= 0xBF }

  /** Well-formed UTF-8, as `std::str::from_utf8` accepts it (section 4 of RFC 3629). */
  predicate ValidUtf8(s: seq<byte>) {
    s == []
    || (s[0] < 0x80 && ValidUtf8(s[1..]))
    || (|s| >= 2 && 0xC2 <= s[0] <= 0xDF && Continuation(s[1]) && ValidUtf8(s[2..]))
    || (|s| >= 3 && 0xE0 <= s[0] <= 0xEF && Continuation(s[1]) && Continuation(s[2])
        && (s[0] == 0xE0 ==> s[1] >= 0xA0) && (s[0] == 0xED ==> s[1] <= 0x9F) && ValidUtf8(s[3..]))
    || (|s| >= 4 && 0xF0 <= s[0] <= 0xF4 && Continuation(s[1]) && Continuation(s[2]) && Continuation(s[3])
        && (s[0] == 0xF0 ==> s[1] >= 0x90) && (s[0] == 0xF4 ==> s[1] <= 0x8F) && ValidUtf8(s[4..]))
  }

  type Text = s: seq<byte> | ValidUtf8(s) witness []

  datatype Session = Session(
    sessionId: Text, senderCompId: Text, targetCompId: Text,
    outboundSeqNum: u64, inboundSeqNum: u64, state: byte, lastUpdatedMs: u64)

  datatype EntryType = SessionStateChange | SequenceUpdate | MessageJournal | Configuration | Snapshot
  datatype LogEntry = LogEntry(term: u64, index: u64, entryType: EntryType, data: seq<byte>)

  // ----- one session as bytes -----

  /** A text behind its length, which is cut to 16 bits. */
  function TextBytes(t: seq<byte>): seq<byte> { ToLe(Wrap16(|t|), 2) + t }

  function NumberBytes(s: Session): (b: seq<byte>)
    ensures |b| == 25
  {
    ToLe(s.outboundSeqNum, 8) + ToLe(s.inboundSeqNum, 8) + [s.state] + ToLe(s.lastUpdatedMs, 8)
  }

  function Encode(s: Session): seq<byte> {
    TextBytes(s.sessionId) + TextBytes(s.senderCompId) + TextBytes(s.targetCompId) + NumberBytes(s)
  }

  /** `read_str`: the text at `offset` and the offset behind it. */
  function TextAt(data: seq<byte>, offset: nat): (r: Option<(Text, nat)>)
    ensures r.Some? ==> offset + 2 <= r.value.1 <= |data| && |r.value.0| < TWO_16
  {
    if offset + 2 > |data| then None
    else
      var len := FromLe(data[offset..offset + 2]);
      LeWidths();
      LeInverse(data[offset..offset + 2]);
      if offset + 2 + len > |data| then None
      else
        var s := data[offset + 2..offset + 2 + len];
        if ValidUtf8(s) then Some((s, offset + 2 + len)) else None
  }

  function U64At(data: seq<byte>, offset: nat): u64
    requires offset + 8 <= |data|
  {
    LeWidths();
    LeInverse(data[offset..offset + 8]);
    FromLe(data[offset..offset + 8])
  }

  /** Trailing bytes are ignored. */
  function Decode(data: seq<byte>): (r: Option<Session>)
    ensures r.Some? ==> Short(r.value)
  {
    var id := TextAt(data, 0);
    if id.None? then None else
    var sender := TextAt(data, id.value.1);
    if sender.None? then None else
    var target := TextAt(data, sender.value.1);
    if target.None? then None else
    var at := target.value.1;
    if at + 25 > |data| then None
    else Some(Session(id.value.0, sender.value.0, target.value.0,
                      U64At(data, at), U64At(data, at + 8), data[at + 16], U64At(data, at + 17)))
  }

  /** Every text fits its 16-bit length. */
  predicate Short(s: Session) {
    |s.sessionId| < TWO_16 && |s.senderCompId| < TWO_16 && |s.targetCompId| < TWO_16
  }

  lemma TextRoundTrip(pre: seq<byte>, t: Text, post: seq<byte>)
    requires |t| < TWO_16
    ensures TextAt(pre + TextBytes(t) + post, |pre|) == Some((t, |pre| + 2 + |t|))
  {
    LeWidths();
    LeRoundTrip(|t|, 2);
    TwoParts(pre, ToLe(|t|, 2), t, post);
  }

  lemma TwoParts(pre: seq<byte>, a: seq<byte>, b: seq<byte>, post: seq<byte>)
    ensures var data, at := pre + (a + b) + post, |pre|;
      data[at..at + |a|] == a && data[at + |a|..at + |a| + |b|] == b
  {
    var data, at := pre + (a + b) + post, |pre|;
    assert data[at..at + |a|] == a;
    assert data[at + |a|..at + |a| + |b|] == b;
  }

  lemma FourParts(pre: seq<byte>, a: seq<byte>, b: seq<byte>, c: byte, d: seq<byte>)
    requires |a| == |b| == |d| == 8
    ensures var data, at := pre + (a + b + [c] + d), |pre|;
      data[at..at + 8] == a && data[at + 8..at + 16] == b && data[at + 16] == c && data[at + 17..at + 25] == d
  {
  }

  lemma NumbersRoundTrip(pre: seq<byte>, s: Session)
    ensures var data, at := pre + NumberBytes(s), |pre|;
      && U64At(data, at) == s.outboundSeqNum && U64At(data, at + 8) == s.inboundSeqNum
      && data[at + 16] == s.state && U64At(data, at + 17) == s.lastUpdatedMs
  {
    LeWidths();
    LeRoundTrip(s.outboundSeqNum, 8);
    LeRoundTrip(s.inboundSeqNum, 8);
    LeRoundTrip(s.lastUpdatedMs, 8);
    FourParts(pre, ToLe(s.outboundSeqNum, 8), ToLe(s.inboundSeqNum, 8), s.state, ToLe(s.lastUpdatedMs, 8));
  }

  lemma Regroup(a: seq<byte>, b: seq<byte>, c: seq<byte>, d: seq<byte>)
    ensures a + b + c + d == [] + a + (b + c + d)
    ensures a + b + c + d == a + b + (c + d)
  {
  }

  /** Decoding is reading three texts and the fixed part behind them. */
  lemma DecodeParts(pre: seq<byte>, s: Session, i: nat, j: nat)
    requires var data := pre + NumberBytes(s);
      && TextAt(data, 0) == Some((s.sessionId, i)) && TextAt(data, i) == Some((s.senderCompId, j))
      && TextAt(data, j) == Some((s.targetCompId, |pre|))
    ensures Decode(pre + NumberBytes(s)) == Some(s)
  {
    NumbersRoundTrip(pre, s);
  }

  lemma EncodedDecodes(s: Session)
    requires Short(s)
    ensures Decode(Encode(s)) == Some(s)
  {
    var a, b, c, n := TextBytes(s.sessionId), TextBytes(s.senderCompId), TextBytes(s.targetCompId), NumberBytes(s);
    Regroup(a, b, c, n);
    TextRoundTrip([], s.sessionId, b + c + n);
    TextRoundTrip(a, s.senderCompId, c + n);
    TextRoundTrip(a + b, s.targetCompId, n);
    var i, j := |a|, |a + b|;
    assert j == i + 2 + |s.senderCompId| && |a + b + c| == j + 2 + |s.targetCompId|;
    DecodeParts(a + b + c, s, i, j);
  }

  /** A session survives its byte form exactly when every text fits its 16-bit length. */
  lemma SessionRoundTrip(s: Session)
    ensures Decode(Encode(s)) == Some(s) <==> Short(s)
  {
    if Short(s) {
      EncodedDecodes(s);
    }
  }

  // ----- the table -----

  /** Position of a session id, the table's length when absent. */
  function Find(table: seq<Session>, id: Text): (k: nat)
    ensures k <= |table|
    ensures k < |table| ==> table[k].sessionId == id
    ensures forall i :: 0 <= i < k ==> table[i].sessionId != id
  {
    if table == [] then 0
    else if table[0].sessionId == id then 0
    else
      var k := Find(table[1..], id);
      assert forall i :: 1 <= i < k + 1 ==> table[i] == table[1..][i - 1];
      k + 1
  }

  /** An update keeps the identifiers first seen and replaces the rest. */
  function Updated(was: Session, s: Session): Session {
    was.(outboundSeqNum := s.outboundSeqNum, inboundSeqNum := s.inboundSeqNum,
          state := s.state, lastUpdatedMs := s.lastUpdatedMs)
  }

  function Upsert(table: seq<Session>, s: Session): seq<Session> {
    var k := Find(table, s.sessionId);
    if k < |table| then table[k := Updated(table[k], s)] else table + [s]
  }

  /** Entries of other kinds and undecodable entries change nothing. */
  function Apply(table: seq<Session>, e: LogEntry): seq<Session> {
    if e.entryType != SessionStateChange then table
    else
      var s := Decode(e.data);
      if s.None? then table else Upsert(table, s.value)
  }

  function ApplyAll(table: seq<Session>, log: seq<LogEntry>): seq<Session>
    decreases log
  {
    if log == [] then table else ApplyAll(Apply(table, log[0]), log[1..])
  }

  predicate Distinct(table: seq<Session>) {
    forall i, j :: 0 <= i < j < |table| ==> table[i].sessionId != table[j].sessionId
  }

  predicate AllShort(table: seq<Session>) { forall s :: s in table ==> Short(s) }

  lemma ApplyKeeps(table: seq<Session>, e: LogEntry)
    requires Distinct(table) && AllShort(table)
    ensures Distinct(Apply(table, e)) && AllShort(Apply(table, e))
  {
    if e.entryType == SessionStateChange && Decode(e.data).Some? {
      UpsertKeeps(table, Decode(e.data).value);
    }
  }

  lemma UpsertKeeps(table: seq<Session>, s: Session)
    requires Distinct(table) && AllShort(table) && Short(s)
    ensures Distinct(Upsert(table, s)) && AllShort(Upsert(table, s))
  {
    var k := Find(table, s.sessionId);
    if k < |table| {
      assert table[k] in table;
      assert Short(Updated(table[k], s));
    }
  }

  /** Every table built by replaying a log has distinct session ids and encodable texts. */
  lemma {:induction false} ReplayKeeps(table: seq<Session>, log: seq<LogEntry>)
    requires Distinct(table) && AllShort(table)
    ensures Distinct(ApplyAll(table, log)) && AllShort(ApplyAll(table, log))
    decreases log
  {
    if log != [] {
      ApplyKeeps(table, log[0]);
      ReplayKeeps(Apply(table, log[0]), log[1..]);
    }
  }

  lemma {:induction false} ReplaySplit(table: seq<Session>, a: seq<LogEntry>, b: seq<LogEntry>)
    ensures ApplyAll(table, a + b) == ApplyAll(ApplyAll(table, a), b)
    decreases a
  {
    if a == [] {
      assert a + b == b;
    } else {
      assert (a + b)[1..] == a[1..] + b;
      ReplaySplit(Apply(table, a[0]), a[1..], b);
    }
  }

  /** The last decodable change of a session decides its counters. */
  lemma LastChangeWins(table: seq<Session>, e: LogEntry)
    requires e.entryType == SessionStateChange && Decode(e.data).Some?
    ensures var s := Decode(e.data).value; var after := Apply(table, e); var k := Find(after, s.sessionId);
      && k < |after| && after[k].outboundSeqNum == s.outboundSeqNum && after[k].inboundSeqNum == s.inboundSeqNum
      && after[k].state == s.state && after[k].lastUpdatedMs == s.lastUpdatedMs
  {
    var s := Decode(e.data).value;
    var after := Apply(table, e);
    var k := Find(table, s.sessionId);
    assert after[k].sessionId == s.sessionId;
    assert forall i :: 0 <= i < k ==> after[i] == table[i];
  }

  /** Applying the entry `replicate_session_state` made for a session whose texts fit files that session. */
  lemma ReplicatedApplies(table: seq<Session>, term: u64, index: u64, s: Session)
    requires Short(s)
    ensures Apply(table, LogEntry(term, index, SessionStateChange, Encode(s))) == Upsert(table, s)
  {
    EncodedDecodes(s);
  }

  // ----- snapshots -----

  function EncodeEach(table: seq<Session>): (r: seq<seq<byte>>)
    ensures |r| == |table|
  {
    if table == [] then [] else [Encode(table[0])] + EncodeEach(table[1..])
  }

  /** Undecodable blocks are skipped. */
  function DecodeOne(block: seq<byte>): seq<Session> {
    var s := Decode(block);
    if s.None? then [] else [s.value]
  }

  function DecodeEach(blocks: seq<seq<byte>>): seq<Session> {
    if blocks == [] then [] else DecodeOne(blocks[0]) + DecodeEach(blocks[1..])
  }

  /** A block behind its length, which is cut to 32 bits. */
  function BlockBytes(b: seq<byte>): seq<byte> { ToLe(Wrap32(|b|), 4) + b }

  function Framed(blocks: seq<seq<byte>>): seq<byte> {
    if blocks == [] then [] else BlockBytes(blocks[0]) + Framed(blocks[1..])
  }

  /** `create_snapshot`: the session count, cut to 32 bits, and one block a session. */
  function SnapshotOf(table: seq<Session>): seq<byte> { ToLe(Wrap32(|table|), 4) + Framed(EncodeEach(table)) }

  /** At most `count` blocks off the front; a truncated one ends the reading. */
  function BlocksOf(data: seq<byte>, count: nat): seq<seq<byte>>
    decreases count
  {
    if count == 0 || |data| < 4 then []
    else
      var end := 4 + FromLe(data[..4]);
      if end > |data| then [] else [data[4..end]] + BlocksOf(data[end..], count - 1)
  }

  /** `restore_snapshot`. */
  function Restore(data: seq<byte>): seq<Session> {
    if |data| < 4 then [] else DecodeEach(BlocksOf(data[4..], FromLe(data[..4])))
  }

  lemma BlockOne(data: seq<byte>, head: seq<byte>, b: seq<byte>, rest: seq<byte>, more: seq<seq<byte>>, count: nat)
    requires data == head + b + rest && more == BlocksOf(rest, count)
    requires |head| == 4 && FromLe(head) == |b|
    ensures BlocksOf(data, count + 1) == [b] + more
  {
    assert data[..4] == head && data[4..4 + |b|] == b && data[4 + |b|..] == rest;
  }

  lemma FirstBlock(blocks: seq<seq<byte>>, more: seq<seq<byte>>, count: nat)
    requires blocks != [] && |blocks[0]| < TWO_32 && more == BlocksOf(Framed(blocks[1..]), count)
    ensures BlocksOf(Framed(blocks), count + 1) == [blocks[0]] + more
  {
    var n := |blocks[0]|;
    LengthRead(n);
    BlockOne(Framed(blocks), ToLe(n, 4), blocks[0], Framed(blocks[1..]), more, count);
  }

  lemma {:induction false} BlocksRead(blocks: seq<seq<byte>>, count: nat)
    requires count <= |blocks| && forall k :: 0 <= k < |blocks| ==> |blocks[k]| < TWO_32
    ensures BlocksOf(Framed(blocks), count) == blocks[..count]
    decreases count
  {
    if count > 0 {
      BlocksRead(blocks[1..], count - 1);
      FirstBlock(blocks, blocks[1..][..count - 1], count - 1);
      assert blocks[..count] == [blocks[0]] + blocks[1..][..count - 1];
    }
  }

  lemma LengthRead(n: nat)
    requires n < TWO_32
    ensures FromLe(ToLe(n, 4)) == n
  {
    LeWidths();
    LeRoundTrip(n, 4);
  }

  lemma EachFirst(table: seq<Session>, rest: seq<seq<byte>>)
    requires table != [] && Short(table[0]) && rest == EncodeEach(table[1..])
    ensures DecodeEach(EncodeEach(table)) == [table[0]] + DecodeEach(rest)
  {
    EncodedDecodes(table[0]);
    DecodeFirst(EncodeEach(table), Encode(table[0]), rest);
  }

  lemma {:induction false} EachDecodes(table: seq<Session>)
    requires AllShort(table)
    ensures DecodeEach(EncodeEach(table)) == table
  {
    if table != [] {
      assert table[0] in table;
      EachDecodes(table[1..]);
      EachFirst(table, EncodeEach(table[1..]));
      assert table == [table[0]] + table[1..];
    }
  }

  lemma {:induction false} EachShort(table: seq<Session>)
    requires AllShort(table)
    ensures forall k :: 0 <= k < |table| ==> |EncodeEach(table)[k]| < TWO_32
  {
    if table != [] {
      assert table[0] in table;
      EncodedLength(table[0]);
      EachShort(table[1..]);
      assert EncodeEach(table)[1..] == EncodeEach(table[1..]);
    }
  }

  lemma EncodedLength(s: Session)
    requires Short(s)
    ensures |Encode(s)| < TWO_32
  {
  }

  lemma {:induction false} EachPrefix(table: seq<Session>, n: nat)
    requires n <= |table|
    ensures EncodeEach(table)[..n] == EncodeEach(table[..n])
  {
    if n > 0 {
      EachPrefix(table[1..], n - 1);
      assert table[..n][1..] == table[1..][..n - 1];
      assert EncodeEach(table)[..n] == [Encode(table[0])] + EncodeEach(table[1..])[..n - 1];
    }
  }

  lemma RestoreCounted(head: seq<byte>, table: seq<Session>, n: nat)
    requires |head| == 4 && FromLe(head) == n <= |table| && AllShort(table)
    ensures Restore(head + Framed(EncodeEach(table))) == table[..n]
  {
    var data := head + Framed(EncodeEach(table));
    assert data[..4] == head && data[4..] == Framed(EncodeEach(table));
    EachShort(table);
    BlocksRead(EncodeEach(table), n);
    EachPrefix(table, n);
    EachDecodes(table[..n]);
  }

  /** Restoring a snapshot gives the table back exactly when the 32-bit count can hold its size;
      of a longer table it gives the leading sessions the wrapped count still covers. */
  lemma {:induction false} SnapshotRoundTrip(table: seq<Session>)
    requires AllShort(table)
    ensures Restore(SnapshotOf(table)) == table[..Wrap32(|table|)]
    ensures Restore(SnapshotOf(table)) == table <==> |table| < TWO_32
  {
    var n := Wrap32(|table|);
    LengthRead(n);
    RestoreCounted(ToLe(n, 4), table, n);
    CountFits(table);
  }

  lemma CountFits(table: seq<Session>)
    ensures table[..Wrap32(|table|)] == table <==> |table| < TWO_32
  {
    assert |table[..Wrap32(|table|)]| == Wrap32(|table|);
  }

  /** Snapshots are transparent: at any point of any log, replaying what came before, restoring the
      snapshot into an empty table and replaying the rest gives the table of the whole log. */
  lemma {:induction false} SnapshotTransparent(before: seq<LogEntry>, after: seq<LogEntry>)
    requires |ApplyAll([], before)| < TWO_32
    ensures ApplyAll(Restore(SnapshotOf(ApplyAll([], before))), after) == ApplyAll([], before + after)
  {
    ReplayKeeps([], before);
    SnapshotRoundTrip(ApplyAll([], before));
    ReplaySplit([], before, after);
  }

  // ----- the byte loops -----

  lemma {:induction false} EachSnoc(table: seq<Session>, s: Session)
    ensures EncodeEach(table + [s]) == EncodeEach(table) + [Encode(s)]
  {
    if table != [] {
      EachSnoc(table[1..], s);
      assert (table + [s])[1..] == table[1..] + [s];
    }
  }

  lemma {:induction false} FramedSnoc(blocks: seq<seq<byte>>, b: seq<byte>)
    ensures Framed(blocks + [b]) == Framed(blocks) + BlockBytes(b)
  {
    if blocks == [] {
      assert [b][1..] == [];
      assert Framed([b]) == BlockBytes(b) + Framed([]);
    } else {
      FramedSnoc(blocks[1..], b);
      assert (blocks + [b])[1..] == blocks[1..] + [b];
    }
  }

  /** One more session encoded is one more block framed. */
  lemma FramedGrows(table: seq<Session>, i: nat)
    requires i < |table|
    ensures var block := Encode(table[i]);
      Framed(EncodeEach(table[..i + 1])) == Framed(EncodeEach(table[..i])) + BlockBytes(block)
  {
    assert table[..i + 1] == table[..i] + [table[i]];
    EachSnoc(table[..i], table[i]);
    FramedSnoc(EncodeEach(table[..i]), Encode(table[i]));
  }

  /** Reading the block at `at` leaves the blocks behind it. */
  lemma BlockTaken(data: seq<byte>, at: nat, len: nat, count: nat)
    requires at + 4 + len <= |data| && FromLe(data[at..at + 4]) == len && count > 0
    ensures BlocksOf(data[at..], count) == [data[at + 4..at + 4 + len]] + BlocksOf(data[at + 4 + len..], count - 1)
  {
    var tail := data[at..];
    assert tail[..4] == data[at..at + 4];
    assert tail[4..4 + len] == data[at + 4..at + 4 + len];
    assert tail[4 + len..] == data[at + 4 + len..];
  }

  /** What was read and what `count` more blocks from `at` on would give make up `all`. */
  predicate Remaining(all: seq<Session>, table: seq<Session>, data: seq<byte>, at: nat, count: nat) {
    at <= |data| && all == table + DecodeEach(BlocksOf(data[at..], count))
  }

  lemma DecodeFirst(blocks: seq<seq<byte>>, block: seq<byte>, rest: seq<seq<byte>>)
    requires blocks == [block] + rest
    ensures DecodeEach(blocks) == DecodeOne(block) + DecodeEach(rest)
  {
    assert blocks[1..] == rest;
  }

  lemma BlockDecoded(blocks: seq<seq<byte>>, data: seq<byte>, at: nat, end: nat, rest: seq<seq<byte>>, count: nat)
    requires at + 4 <= end <= |data| && FromLe(data[at..at + 4]) == end - at - 4
    requires blocks == BlocksOf(data[at..], count + 1) && rest == BlocksOf(data[end..], count)
    ensures DecodeEach(blocks) == DecodeOne(data[at + 4..end]) + DecodeEach(rest)
  {
    BlockTaken(data, at, end - at - 4, count + 1);
    DecodeFirst(blocks, data[at + 4..end], rest);
  }

  lemma Regrouped(table: seq<Session>, one: seq<Session>, rest: seq<Session>)
    ensures table + (one + rest) == table + one + rest
  {
  }

  lemma SessionTaken(all: seq<Session>, table: seq<Session>, data: seq<byte>, at: nat, end: nat,
                     one: seq<Session>, count: nat)
    requires Remaining(all, table, data, at, count + 1)
    requires at + 4 <= end <= |data| && FromLe(data[at..at + 4]) == end - at - 4
    requires one == DecodeOne(data[at + 4..end])
    ensures Remaining(all, table + one, data, end, count)
  {
    BlockDecoded(BlocksOf(data[at..], count + 1), data, at, end, BlocksOf(data[end..], count), count);
    Regrouped(table, one, DecodeEach(BlocksOf(data[end..], count)));
  }

  lemma NothingRead(data: seq<byte>, at: nat, count: nat)
    requires at <= |data|
    ensures Remaining(DecodeEach(BlocksOf(data[at..], count)), [], data, at, count)
  {
  }

  /** A truncated block ends the reading. */
  lemma BlockTruncated(all: seq<Session>, table: seq<Session>, data: seq<byte>, at: nat, count: nat)
    requires Remaining(all, table, data, at, count)
    requires count == 0 || (at + 4 <= |data| ==> at + 4 + FromLe(data[at..at + 4]) > |data|)
    ensures all == table
  {
    if at + 4 <= |data| {
      assert data[at..][..4] == data[at..at + 4];
    }
  }

  /** `encode_session_state`: a vector grown field by field. */
  method EncodeSessionState(s: Session) returns (buf: seq<byte>)
    ensures buf == Encode(s)
  {
    buf := ToLe(Wrap16(|s.sessionId|), 2) + s.sessionId;
    buf := buf + (ToLe(Wrap16(|s.senderCompId|), 2) + s.senderCompId);
    buf := buf + (ToLe(Wrap16(|s.targetCompId|), 2) + s.targetCompId);
    var numbers := ToLe(s.outboundSeqNum, 8) + ToLe(s.inboundSeqNum, 8);
    numbers := numbers + [s.state] + ToLe(s.lastUpdatedMs, 8);
    buf := buf + numbers;
  }

  method ReadText(data: seq<byte>, offset: nat) returns (r: Option<(Text, nat)>)
    ensures r == TextAt(data, offset)
  {
    if offset + 2 > |data| {
      return None;
    }
    var len := FromLe(data[offset..offset + 2]);
    var at := offset + 2;
    if at + len > |data| {
      return None;
    }
    var s := data[at..at + len];
    return if ValidUtf8(s) then Some((s, at + len)) else None;
  }

  /** `decode_session_state`: an offset moved across the data, giving up at the first failure. */
  method DecodeSessionState(data: seq<byte>) returns (r: Option<Session>)
    ensures r == Decode(data)
  {
    var id := ReadText(data, 0);
    if id.None? {
      return None;
    }
    var sender := ReadText(data, id.value.1);
    if sender.None? {
      return None;
    }
    var target := ReadText(data, sender.value.1);
    if target.None? {
      return None;
    }
    var offset := target.value.1;
    if offset + 25 > |data| {
      return None;
    }
    var outbound := U64At(data, offset);
    offset := offset + 8;
    var inbound := U64At(data, offset);
    offset := offset + 8;
    var state := data[offset];
    offset := offset + 1;
    return Some(Session(id.value.0, sender.value.0, target.value.0, outbound, inbound, state, U64At(data, offset)));
  }

  /** `iter_mut().find()`. */
  method FindSession(table: seq<Session>, id: Text) returns (k: nat)
    ensures k == Find(table, id)
  {
    k := 0;
    while k < |table| && table[k].sessionId != id
      invariant k <= |table| && k <= Find(table, id)
    {
      k := k + 1;
    }
  }

  /** The body of `create_snapshot`. */
  method WriteSnapshot(table: seq<Session>) returns (buf: seq<byte>)
    ensures buf == SnapshotOf(table)
  {
    var head := ToLe(Wrap32(|table|), 4);
    buf := head;
    for i := 0 to |table|
      invariant buf == head + Framed(EncodeEach(table[..i]))
    {
      var encoded := EncodeSessionState(table[i]);
      FramedGrows(table, i);
      Associate(head, Framed(EncodeEach(table[..i])), ToLe(Wrap32(|encoded|), 4), encoded);
      buf := buf + ToLe(Wrap32(|encoded|), 4);
      buf := buf + encoded;
    }
    assert table[..|table|] == table;
  }

  lemma Associate(a: seq<byte>, b: seq<byte>, c: seq<byte>, d: seq<byte>)
    ensures a + b + c + d == a + (b + (c + d))
  {
  }

  /** One whole block of a snapshot. */
  method ReadSession(ghost all: seq<Session>, table: seq<Session>, data: seq<byte>, at: nat, len: nat, ghost count: nat)
    returns (after: seq<Session>, end: nat)
    requires Remaining(all, table, data, at, count + 1)
    requires at + 4 + len <= |data| && FromLe(data[at..at + 4]) == len
    ensures end <= |data| && Remaining(all, after, data, end, count)
  {
    end := at + 4 + len;
    var s := DecodeSessionState(data[at + 4..end]);
    var one := if s.Some? then [s.value] else [];
    after := table + one;
    SessionTaken(all, table, data, at, end, one, count);
  }

  /** The loop of `restore_snapshot`: `count` blocks from `start` on, or as many as are whole. */
  method ReadSessions(data: seq<byte>, start: nat, count: nat) returns (table: seq<Session>)
    requires start <= |data|
    ensures table == DecodeEach(BlocksOf(data[start..], count))
  {
    table := [];
    var offset: nat := start;
    ghost var all := DecodeEach(BlocksOf(data[start..], count));
    NothingRead(data, start, count);
    var left: nat := count;
    while left > 0
      invariant offset <= |data| && Remaining(all, table, data, offset, left)
    {
      if offset + 4 > |data| {
        BlockTruncated(all, table, data, offset, left);
        return;
      }
      var len := FromLe(data[offset..offset + 4]);
      if offset + 4 + len > |data| {
        BlockTruncated(all, table, data, offset, left);
        return;
      }
      left := left - 1;
      table, offset := ReadSession(all, table, data, offset, len, left);
    }
    BlockTruncated(all, table, data, offset, 0);
  }
}
