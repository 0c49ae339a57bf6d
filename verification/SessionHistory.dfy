/** What the replicated table of `src/cluster.rs` holds of a log, session by session, and where its byte forms keep
    their parts. */
module SessionHistory {
  import opened Bytes
  import opened SessionTable

  // ----- the table, session by session -----

  function Lookup(table: seq<Session>, id: Text): Option<Session> {
    var k := Find(table, id);
    if k < |table| then Some(table[k]) else None
  }

  /** The entry is a change of session `id`. */
  predicate Changes(e: LogEntry, id: Text) {
    e.entryType == SessionStateChange && Decode(e.data).Some? && Decode(e.data).value.sessionId == id
  }

  function Changed(e: LogEntry): Session
    requires Decode(e.data).Some?
  {
    Decode(e.data).value
  }

  lemma FindIs(table: seq<Session>, id: Text, k: nat)
    requires k <= |table| && (k < |table| ==> table[k].sessionId == id)
    requires forall i :: 0 <= i < k ==> table[i].sessionId != id
    ensures Find(table, id) == k
  {
  }

  lemma OthersStay(table: seq<Session>, e: LogEntry, id: Text)
    requires !Changes(e, id)
    ensures Lookup(Apply(table, e), id) == Lookup(table, id)
  {
    var after, k := Apply(table, e), Find(table, id);
    if e.entryType == SessionStateChange && Decode(e.data).Some? {
      FindIs(after, id, if k < |table| then k else |after|);
    }
  }

  lemma OwnIsFiled(table: seq<Session>, e: LogEntry, id: Text)
    requires Changes(e, id)
    ensures var s, was := Changed(e), Lookup(table, id);
      Lookup(Apply(table, e), id)
      == Some(if was.None? then s
              else Session(was.value.sessionId, was.value.senderCompId, was.value.targetCompId,
                           s.outboundSeqNum, s.inboundSeqNum, s.state, s.lastUpdatedMs))
  {
    var after, k := Apply(table, e), Find(table, id);
    FindIs(after, id, k);
  }

  lemma LastApplied(log: seq<LogEntry>)
    requires log != []
    ensures ApplyAll([], log) == Apply(ApplyAll([], log[..|log| - 1]), log[|log| - 1])
  {
    var n: nat := |log| - 1;
    assert log == log[..n] + [log[n]] && [log[n]][1..] == [];
    ReplaySplit([], log[..n], [log[n]]);
    assert ApplyAll(ApplyAll([], log[..n]), [log[n]]) == ApplyAll(Apply(ApplyAll([], log[..n]), log[n]), []);
  }

  /** What replaying a log from nothing tells of a session. */
  function Told(log: seq<LogEntry>, id: Text): Option<Session> { Lookup(ApplyAll([], log), id) }

  /** The names of one change and the numbers of another. */
  function Combined(first: Session, last: Session): Session {
    Session(first.sessionId, first.senderCompId, first.targetCompId,
            last.outboundSeqNum, last.inboundSeqNum, last.state, last.lastUpdatedMs)
  }

  lemma ToldAsBefore(log: seq<LogEntry>, id: Text)
    requires log != [] && !Changes(log[|log| - 1], id)
    ensures Told(log, id) == Told(log[..|log| - 1], id)
  {
    LastApplied(log);
    OthersStay(ApplyAll([], log[..|log| - 1]), log[|log| - 1], id);
  }

  lemma ToldAnew(log: seq<LogEntry>, id: Text, was: Option<Session>, s: Session)
    requires log != [] && Changes(log[|log| - 1], id) && s == Changed(log[|log| - 1])
    requires was == Told(log[..|log| - 1], id)
    ensures Told(log, id) == Some(if was.None? then s else Combined(was.value, s))
  {
    LastApplied(log);
    OwnIsFiled(ApplyAll([], log[..|log| - 1]), log[|log| - 1], id);
  }

  /** A session without a change in the log is not in the table. */
  lemma {:induction false} UnchangedIsAbsent(log: seq<LogEntry>, id: Text)
    requires forall k :: 0 <= k < |log| ==> !Changes(log[k], id)
    ensures Told(log, id) == None
  {
    if log != [] {
      ToldAsBefore(log, id);
      UnchangedIsAbsent(log[..|log| - 1], id);
    }
  }

  /** `i` is the first and `j` the last change of the session. */
  predicate Spans(log: seq<LogEntry>, id: Text, i: nat, j: nat) {
    && i <= j < |log| && Changes(log[i], id) && Changes(log[j], id)
    && (forall k :: 0 <= k < i ==> !Changes(log[k], id)) && (forall k :: j < k < |log| ==> !Changes(log[k], id))
  }

  lemma SpansShorter(log: seq<LogEntry>, id: Text, i: nat, j: nat, n: nat)
    requires Spans(log, id, i, j) && j < n <= |log|
    ensures Spans(log[..n], id, i, j) && log[..n][i] == log[i] && log[..n][j] == log[j]
  {
  }

  lemma {:induction false} LastMark(marks: seq<bool>, i: nat, n: nat) returns (k: nat)
    requires i < n <= |marks| && marks[i]
    ensures i <= k < n && marks[k] && forall m :: k < m < n ==> !marks[m]
  {
    if n == i + 1 || marks[n - 1] {
      k := n - 1;
    } else {
      k := LastMark(marks, i, n - 1);
    }
  }

  lemma SpansBefore(log: seq<LogEntry>, id: Text, i: nat, n: nat) returns (k: nat)
    requires Spans(log, id, i, n) && i < n
    ensures k < n && Spans(log[..n], id, i, k) && log[..n][i] == log[i]
  {
    var marks := seq(|log|, m requires 0 <= m < |log| => Changes(log[m], id));
    k := LastMark(marks, i, n);
    assert forall m :: 0 <= m < n ==> marks[m] == Changes(log[..n][m], id);
  }

  lemma FirstTold(log: seq<LogEntry>, id: Text, n: nat)
    requires Spans(log, id, n, n) && n + 1 == |log|
    ensures Told(log, id) == Some(Combined(Changed(log[n]), Changed(log[n])))
  {
    UnchangedIsAbsent(log[..n], id);
    ToldAnew(log, id, None, Changed(log[n]));
  }

  /** Any other session is there with the names of its first change and the numbers of its last. */
  lemma {:induction false} TableTells(log: seq<LogEntry>, id: Text, i: nat, j: nat)
    requires Spans(log, id, i, j)
    ensures Told(log, id) == Some(Combined(Changed(log[i]), Changed(log[j])))
    decreases |log|
  {
    var n: nat := |log| - 1;
    if j < n {
      SpansShorter(log, id, i, j, n);
      TableTells(log[..n], id, i, j);
      ToldAsBefore(log, id);
    } else if i == n {
      FirstTold(log, id, n);
    } else {
      var k := SpansBefore(log, id, i, n);
      TableTells(log[..n], id, i, k);
      ToldAnew(log, id, Told(log[..n], id), Changed(log[n]));
    }
  }

  // ----- byte forms -----

  lemma Middle(a: seq<byte>, b: seq<byte>, c: seq<byte>, s: seq<byte>)
    requires s == a + b + c
    ensures s[..|a|] == a && s[|a|..|a| + |b|] == b && s[|a| + |b|..] == c
  {
  }

  lemma ShortLength(t: seq<byte>)
    requires |t| < TWO_16
    ensures FromLe(TextBytes(t)[..2]) == |t| && TextBytes(t)[2..] == t
  {
    LengthReads(|t|);
    assert TextBytes(t)[..2] == ToLe(|t|, 2);
  }

  lemma LengthReads(n: nat)
    requires n < TWO_16
    ensures Wrap16(n) == n && FromLe(ToLe(n, 2)) == n
  {
    LeWidths();
    LeRoundTrip(n, 2);
  }

  /** A text and its length at `at`. */
  predicate TextStands(data: seq<byte>, at: nat, t: seq<byte>) {
    at + 2 + |t| <= |data| && FromLe(data[at..at + 2]) == |t| && data[at + 2..at + 2 + |t|] == t
  }

  lemma TextPlaced(pre: seq<byte>, t: seq<byte>, post: seq<byte>, data: seq<byte>)
    requires |t| < TWO_16 && data == pre + TextBytes(t) + post
    ensures TextStands(data, |pre|, t)
  {
    ShortLength(t);
    Middle(pre, TextBytes(t), post, data);
    assert data[|pre|..|pre| + 2] == TextBytes(t)[..2];
    assert data[|pre| + 2..|pre| + 2 + |t|] == TextBytes(t)[2..];
  }

  /** The counters, the state and the time at the end of the data, from `at` on. */
  predicate NumbersStand(data: seq<byte>, at: nat, s: Session) {
    && |data| == at + 25
    && FromLe(data[at..at + 8]) == s.outboundSeqNum && FromLe(data[at + 8..at + 16]) == s.inboundSeqNum
    && data[at + 16] == s.state && FromLe(data[at + 17..at + 25]) == s.lastUpdatedMs
  }

  lemma NumbersPlaced(pre: seq<byte>, s: Session, data: seq<byte>)
    requires data == pre + NumberBytes(s)
    ensures NumbersStand(data, |pre|, s)
  {
    LeWidths();
    LeRoundTrip(s.outboundSeqNum, 8);
    LeRoundTrip(s.inboundSeqNum, 8);
    LeRoundTrip(s.lastUpdatedMs, 8);
    var at, b := |pre|, NumberBytes(s);
    assert data[at..at + 8] == b[..8] == ToLe(s.outboundSeqNum, 8);
    assert data[at + 8..at + 16] == b[8..16] == ToLe(s.inboundSeqNum, 8);
    assert data[at + 17..at + 25] == b[17..25] == ToLe(s.lastUpdatedMs, 8);
  }

  lemma Groupings(x: seq<byte>, y: seq<byte>, z: seq<byte>, n: seq<byte>)
    ensures x + y + z + n == [] + x + (y + z + n) && x + y + z + n == x + y + (z + n)
  {
  }

  lemma TextsPlaced(id: seq<byte>, sender: seq<byte>, target: seq<byte>, numbers: seq<byte>, data: seq<byte>)
    requires |id| < TWO_16 && |sender| < TWO_16 && |target| < TWO_16
    requires data == TextBytes(id) + TextBytes(sender) + TextBytes(target) + numbers
    ensures TextStands(data, 0, id) && TextStands(data, 2 + |id|, sender)
    ensures TextStands(data, 4 + |id| + |sender|, target)
  {
    var x, y, z := TextBytes(id), TextBytes(sender), TextBytes(target);
    Groupings(x, y, z, numbers);
    TextPlaced([], id, y + z + numbers, data);
    TextPlaced(x, sender, z + numbers, data);
    TextPlaced(x + y, target, numbers, data);
  }

  /** Id, sender and target, each behind its length; then the outbound and the inbound counter, the state and the
      time, lowest byte first. */
  predicate LaidOut(data: seq<byte>, id: seq<byte>, sender: seq<byte>, target: seq<byte>, s: Session) {
    && TextStands(data, 0, id) && TextStands(data, 2 + |id|, sender) && TextStands(data, 4 + |id| + |sender|, target)
    && NumbersStand(data, 6 + |id| + |sender| + |target|, s)
  }

  lemma PartsLaidOut(data: seq<byte>, id: seq<byte>, sender: seq<byte>, target: seq<byte>, s: Session)
    requires |id| < TWO_16 && |sender| < TWO_16 && |target| < TWO_16
    requires data == TextBytes(id) + TextBytes(sender) + TextBytes(target) + NumberBytes(s)
    ensures LaidOut(data, id, sender, target, s)
  {
    TextsPlaced(id, sender, target, NumberBytes(s), data);
    NumbersBehind(TextBytes(id), TextBytes(sender), TextBytes(target), s, data);
  }

  /** How a session's bytes are laid out. */
  lemma SessionLaidOut(s: Session)
    requires Short(s)
    ensures LaidOut(Encode(s), s.sessionId, s.senderCompId, s.targetCompId, s)
  {
    PartsLaidOut(Encode(s), s.sessionId, s.senderCompId, s.targetCompId, s);
  }

  lemma NumbersBehind(x: seq<byte>, y: seq<byte>, z: seq<byte>, s: Session, data: seq<byte>)
    requires data == x + y + z + NumberBytes(s)
    ensures NumbersStand(data, |x| + |y| + |z|, s)
  {
    NumbersPlaced(x + y + z, s, data);
  }

  /** A snapshot's bytes: the number of sessions, and then block after block, each behind its length. */
  lemma SnapshotLaidOut(table: seq<Session>)
    requires |table| < TWO_32
    ensures var data := SnapshotOf(table);
      && |data| >= 4 && FromLe(data[..4]) == |table|
      && (table == [] ==> |data| == 4)
      && (table != [] && |Encode(table[0])| < TWO_32 ==>
            var end := 8 + |Encode(table[0])|;
            && end <= |data| && FromLe(data[4..8]) == |Encode(table[0])| && data[8..end] == Encode(table[0])
            && data[end..] == SnapshotOf(table[1..])[4..])
  {
    if table == [] {
      CountAhead(0, [], SnapshotOf(table));
    } else {
      BlocksLaidOut(table, SnapshotOf(table), SnapshotOf(table[1..]), Encode(table[0]));
    }
  }

  lemma BlocksLaidOut(table: seq<Session>, data: seq<byte>, less: seq<byte>, b: seq<byte>)
    requires table != [] && |table| < TWO_32 && b == Encode(table[0])
    requires data == SnapshotOf(table) && less == SnapshotOf(table[1..])
    ensures |data| >= 4 && |less| >= 4 && FromLe(data[..4]) == |table|
    ensures |b| < TWO_32 ==>
      8 + |b| <= |data| && FromLe(data[4..8]) == |b| && data[8..8 + |b|] == b && data[8 + |b|..] == less[4..]
  {
    var framed := Framed(EncodeEach(table[1..]));
    EachFirst(table, data, framed);
    CountAhead(|table| - 1, framed, less);
    if |b| < TWO_32 {
      FirstPlaced(b, framed, data[4..]);
      BehindFour(data, 8 + |b|);
    }
  }

  lemma CountAhead(n: nat, framed: seq<byte>, data: seq<byte>)
    requires n < TWO_32 && data == ToLe(Wrap32(n), 4) + framed
    ensures |data| >= 4 && FromLe(data[..4]) == n && data[4..] == framed
  {
    LeWidths();
    LeRoundTrip(n, 4);
    assert data[..4] == ToLe(n, 4);
  }

  lemma FramedFirst(b: seq<byte>, blocks: seq<seq<byte>>)
    ensures Framed([b] + blocks) == BlockBytes(b) + Framed(blocks)
  {
    assert ([b] + blocks)[1..] == blocks;
  }

  lemma EachFirst(table: seq<Session>, data: seq<byte>, framed: seq<byte>)
    requires table != [] && data == SnapshotOf(table) && framed == Framed(EncodeEach(table[1..])) && |table| < TWO_32
    ensures |data| >= 4 && FromLe(data[..4]) == |table| && data[4..] == BlockBytes(Encode(table[0])) + framed
  {
    CountAhead(|table|, Framed(EncodeEach(table)), data);
    FramedFirst(Encode(table[0]), EncodeEach(table[1..]));
  }

  lemma FirstPlaced(b: seq<byte>, rest: seq<byte>, framed: seq<byte>)
    requires |b| < TWO_32 && framed == BlockBytes(b) + rest
    ensures |framed| >= 4 + |b| && FromLe(framed[..4]) == |b| && framed[4..4 + |b|] == b && framed[4 + |b|..] == rest
  {
    LeWidths();
    LeRoundTrip(|b|, 4);
    assert framed[..4] == ToLe(|b|, 4);
  }

  lemma BehindFour(data: seq<byte>, end: nat)
    requires 8 <= end <= |data|
    ensures data[4..][..4] == data[4..8] && data[4..][4..end - 4] == data[8..end] && data[4..][end - 4..] == data[end..]
  {
  }
}
