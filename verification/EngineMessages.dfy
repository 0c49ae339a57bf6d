/** The session messages an engine sends: `build_logon`, `build_heartbeat` and `build_logout` of
    `src/serializer.rs`, as `src/engine.rs` calls them. */
module EngineMessages {
  import opened Bytes
  import opened Decimal
  import opened Message
  import opened WireFormat
  import opened Serializer
  import opened Parser
  import opened CodecRoundTrip
  import opened Framing
  import Timestamp

  /** The configured part of every message an engine builds. */
  datatype Identity = Identity(version: seq<byte>, sender: seq<byte>, target: seq<byte>, heartbeatSecs: int)

  datatype Kind = LogonKind | HeartbeatKind | LogoutKind

  /** Length of the engine's send buffer, and of the buffer it receives one frame into. */
  const SEND_BUFFER: nat := 4096
  const FRAME_LIMIT: nat := 8192

  /** No delimiter inside a configured text, and texts short enough for the send buffer. */
  predicate Usable(id: Identity) {
    && SohFree(id.version) && SohFree(id.sender) && SohFree(id.target)
    && |id.version| + |id.sender| + |id.target| + 111 <= SEND_BUFFER
    && -TWO_63 <= id.heartbeatSecs < TWO_63
  }

  function TypeBytes(kind: Kind): seq<byte> {
    match kind
    case LogonKind => [0x41]
    case HeartbeatKind => [0x30]
    case LogoutKind => [0x35]
  }

  function CommonFields(id: Identity, seqNum: u64, time: seq<byte>): seq<Field> {
    [Field(SENDER_COMP_ID, id.sender), Field(TARGET_COMP_ID, id.target),
     Field(MSG_SEQ_NUM, Digits(seqNum)), Field(SENDING_TIME, time)]
  }

  function SessionFields(id: Identity, kind: Kind, seqNum: u64, time: seq<byte>): seq<Field> {
    CommonFields(id, seqNum, time)
    + if kind == LogonKind then
        [Field(ENCRYPT_METHOD, SignedDigits(0)), Field(HEARTBT_INT, SignedDigits(id.heartbeatSecs))]
      else []
  }

  /** The message with outbound number `seqNum` built at `nanos` after the epoch. */
  function SessionMessage(id: Identity, kind: Kind, seqNum: u64, nanos: u64): seq<byte> {
    Encode(id.version, TypeBytes(kind), SessionFields(id, kind, seqNum, Timestamp.FixTimestamp(nanos, 3, 1_000_000)))
  }

  // ----- what a receiver makes of a message -----

  datatype Header = Header(msgType: Option<seq<byte>>, seqNum: Option<u64>)

  /** MsgType and MsgSeqNum of a message the parser accepts. */
  function ReadHeader(m: seq<byte>): Option<Header> {
    var r := Parse(DEFAULT, m);
    if r.Err? then None
    else
      var fs := Resolve(m, r.value.entries);
      Some(Header(Last(fs, MSG_TYPE), SeqNumOf(fs)))
  }

  /** One whole frame that fits the receive buffer, parses and carries `seqNum` and a type. */
  predicate WellFormed(m: seq<byte>, seqNum: u64) {
    && |m| <= FRAME_LIMIT && IsFrame(m)
    && var h := ReadHeader(m);
      h.Some? && h.value.msgType.Some? && h.value.seqNum == Some(seqNum)
  }

  lemma HeaderFound(bs: seq<byte>, mt: seq<byte>, fs: seq<Field>, header: Header)
    requires SohFree(bs) && SohFree(mt) && Clean(fs) && |fs| <= 500 && |Encode(bs, mt, fs)| <= FRAME_LIMIT
    requires header == Header(Last(Sealed(bs, mt, fs), MSG_TYPE), SeqNumOf(Sealed(bs, mt, fs)))
    ensures ReadHeader(Encode(bs, mt, fs)) == Some(header)
  {
    assert Encode(bs, mt, fs) + [] == Encode(bs, mt, fs);
    RoundTrip(bs, mt, fs, []);
  }

  /** The first field 34 and the last field 35 of a finished message. */
  lemma SealedHeader(bs: seq<byte>, mt: seq<byte>, fs: seq<Field>, i: nat)
    requires i < |fs| && fs[i].tag == MSG_SEQ_NUM
    requires forall k :: 0 <= k < i ==> fs[k].tag != MSG_SEQ_NUM
    requires forall k :: 0 <= k < |fs| ==> fs[k].tag != MSG_TYPE
    ensures First(Sealed(bs, mt, fs), MSG_SEQ_NUM) == Some(fs[i].value)
    ensures Last(Sealed(bs, mt, fs), MSG_TYPE) == Some(mt)
  {
    var all := Sealed(bs, mt, fs);
    assert all[..3] == [all[0], all[1], Field(MSG_TYPE, mt)];
    forall k | 0 <= k < |fs| ensures all[3 + k] == fs[k] {
    }
    FirstSkips(all, 3 + i, MSG_SEQ_NUM);
    assert all[3 + i..][0] == all[3 + i];
    LastSkips(all, 3, MSG_TYPE);
    assert all[..3][2] == Field(MSG_TYPE, mt);
  }

  // ----- the engine's own messages are well formed -----

  lemma {:induction false} DigitsShort(n: nat, k: nat)
    requires k > 0 && n < Pow10(k)
    ensures |Digits(n)| <= k
  {
    if n >= 10 {
      assert Pow10(1) == 10 * Pow10(0);
      DigitsShort(n / 10, k - 1);
    }
  }

  lemma NumbersShort(seqNum: u64, secs: int)
    requires -TWO_63 <= secs < TWO_63
    ensures |Digits(seqNum)| <= 20 && |SignedDigits(secs)| <= 20
  {
    PowersOfTen();
    DigitsShort(seqNum, 20);
    assert Pow10(20) == 10 * Pow10(19);
    DigitsShort(if secs < 0 then -secs else secs, 19);
  }

  lemma TagWidths()
    ensures |Digits(34)| == |Digits(35)| == |Digits(49)| == |Digits(52)| == |Digits(56)| == |Digits(98)| == 2
    ensures |Digits(108)| == 3
  {
  }

  lemma TwoFields(a: Field, b: Field)
    ensures |FieldsBytes([a, b])| == |FieldBytes(a)| + |FieldBytes(b)|
  {
    assert FieldsBytes([b]) == FieldBytes(b) + FieldsBytes([]);
    assert [a, b][1..] == [b];
  }

  lemma CommonLength(id: Identity, seqNum: u64, time: seq<byte>)
    requires Usable(id) && |time| == 21
    ensures |FieldsBytes(CommonFields(id, seqNum, time))| <= |id.sender| + |id.target| + 57
  {
    var fs := CommonFields(id, seqNum, time);
    assert fs == fs[..2] + fs[2..];
    FieldsBytesAppend(fs[..2], fs[2..]);
    TwoFields(fs[0], fs[1]);
    TwoFields(fs[2], fs[3]);
    TagWidths();
    NumbersShort(seqNum, 0);
  }

  lemma FieldsLength(id: Identity, kind: Kind, seqNum: u64, time: seq<byte>)
    requires Usable(id) && |time| == 21
    ensures |FieldsBytes(SessionFields(id, kind, seqNum, time))| <= |id.sender| + |id.target| + 87
  {
    CommonLength(id, seqNum, time);
    if kind == LogonKind {
      var a, b := Field(ENCRYPT_METHOD, SignedDigits(0)), Field(HEARTBT_INT, SignedDigits(id.heartbeatSecs));
      FieldsBytesAppend(CommonFields(id, seqNum, time), [a, b]);
      TwoFields(a, b);
      TagWidths();
      NumbersShort(seqNum, id.heartbeatSecs);
      assert |SignedDigits(0)| == 1;
    } else {
      assert SessionFields(id, kind, seqNum, time) == CommonFields(id, seqNum, time);
    }
  }

  lemma BodyLength(mt: seq<byte>, fs: seq<Field>)
    ensures |BodyBytes(mt, fs)| == |mt| + 4 + |FieldsBytes(fs)|
  {
    assert Body(mt, fs)[1..] == fs;
    TagWidths();
  }

  /** An engine's own message fits its send buffer. */
  lemma SessionMessageFits(id: Identity, kind: Kind, seqNum: u64, time: seq<byte>)
    requires Usable(id) && |time| == 21
    ensures |Encode(id.version, TypeBytes(kind), SessionFields(id, kind, seqNum, time))| <= SEND_BUFFER
  {
    var fs := SessionFields(id, kind, seqNum, time);
    EncodeLength(id.version, TypeBytes(kind), fs);
    BodyLength(TypeBytes(kind), fs);
    FieldsLength(id, kind, seqNum, time);
    SmallTags();
  }

  lemma DigitsNoSoh(n: nat)
    ensures SohFree(Digits(n))
  {
    DigitsValue(n);
    forall b | b in Digits(n) ensures b != SOH {
      assert IsDigit(b);
    }
  }

  lemma SignedNoSoh(v: int)
    ensures SohFree(SignedDigits(v))
  {
    DigitsNoSoh(if v < 0 then -v else v);
  }

  lemma SessionFieldsClean(id: Identity, kind: Kind, seqNum: u64, time: seq<byte>)
    requires Usable(id) && SohFree(time)
    ensures Clean(SessionFields(id, kind, seqNum, time)) && SohFree(TypeBytes(kind))
  {
    DigitsNoSoh(seqNum);
    SignedNoSoh(0);
    SignedNoSoh(id.heartbeatSecs);
  }

  lemma TimeText(nanos: u64)
    ensures var time := Timestamp.FixTimestamp(nanos, 3, 1_000_000); SohFree(time) && |time| == 21
  {
    Timestamp.TimestampShape(nanos, 3, 1_000_000);
  }

  lemma OwnFits(id: Identity, kind: Kind, seqNum: u64, nanos: u64)
    requires Usable(id)
    ensures |SessionMessage(id, kind, seqNum, nanos)| <= SEND_BUFFER
  {
    TimeText(nanos);
    SessionMessageFits(id, kind, seqNum, Timestamp.FixTimestamp(nanos, 3, 1_000_000));
  }

  lemma MessageRead(id: Identity, kind: Kind, seqNum: u64, time: seq<byte>)
    requires Usable(id) && SohFree(time) && |time| == 21
    ensures var m := Encode(id.version, TypeBytes(kind), SessionFields(id, kind, seqNum, time));
      |m| <= FRAME_LIMIT && IsFrame(m) && ReadHeader(m) == Some(Header(Some(TypeBytes(kind)), Some(seqNum)))
  {
    var fs := SessionFields(id, kind, seqNum, time);
    SessionFieldsClean(id, kind, seqNum, time);
    SessionMessageFits(id, kind, seqNum, time);
    EncodedIsFrame(id.version, TypeBytes(kind), fs);
    SealedHeader(id.version, TypeBytes(kind), fs, 2);
    U64RoundTrip(seqNum);
    HeaderFound(id.version, TypeBytes(kind), fs, Header(Some(TypeBytes(kind)), Some(seqNum)));
  }

  /** Every message an engine builds is one frame that its peer reads back with the type and number it
      was given. */
  lemma SessionMessageRead(id: Identity, kind: Kind, seqNum: u64, nanos: u64)
    requires Usable(id)
    ensures WellFormed(SessionMessage(id, kind, seqNum, nanos), seqNum)
    ensures ReadHeader(SessionMessage(id, kind, seqNum, nanos)) == Some(Header(Some(TypeBytes(kind)), Some(seqNum)))
  {
    TimeText(nanos);
    MessageRead(id, kind, seqNum, Timestamp.FixTimestamp(nanos, 3, 1_000_000));
  }

  /** Who sent a message, to whom, when, and what a Logon asks for, by the numbers of the fields. */
  predicate Tells(fs: seq<Field>, id: Identity, kind: Kind, nanos: u64) {
    && First(fs, 8) == Some(id.version) && First(fs, 49) == Some(id.sender) && First(fs, 56) == Some(id.target)
    && First(fs, 52) == Some(Timestamp.FixTimestamp(nanos, 3, 1_000_000))
    && (kind == LogonKind ==>
          && First(fs, 98) == Some([ZERO]) && First(fs, 108).Some?
          && ReadI64(First(fs, 108).value) == Some(id.heartbeatSecs))
  }

  lemma FirstOfSealed(bs: seq<byte>, mt: seq<byte>, fs: seq<Field>, i: nat)
    requires i < |fs| && fs[i].tag !in [8, 9, 35] && forall k :: 0 <= k < i ==> fs[k].tag != fs[i].tag
    ensures First(Sealed(bs, mt, fs), fs[i].tag) == Some(fs[i].value) && First(Sealed(bs, mt, fs), 8) == Some(bs)
  {
    var all := Sealed(bs, mt, fs);
    forall k | 0 <= k < |fs| ensures all[3 + k] == fs[k] {
    }
    FirstSkips(all, 3 + i, fs[i].tag);
    assert all[3 + i..][0] == all[3 + i];
  }

  lemma SealedTells(id: Identity, kind: Kind, seqNum: u64, nanos: u64, fs: seq<Field>)
    requires Usable(id) && fs == SessionFields(id, kind, seqNum, Timestamp.FixTimestamp(nanos, 3, 1_000_000))
    ensures Tells(Sealed(id.version, TypeBytes(kind), fs), id, kind, nanos)
  {
    FirstOfSealed(id.version, TypeBytes(kind), fs, 0);
    FirstOfSealed(id.version, TypeBytes(kind), fs, 1);
    FirstOfSealed(id.version, TypeBytes(kind), fs, 3);
    if kind == LogonKind {
      FirstOfSealed(id.version, TypeBytes(kind), fs, 4);
      FirstOfSealed(id.version, TypeBytes(kind), fs, 5);
      I64RoundTrip(id.heartbeatSecs);
    }
  }

  lemma FieldsFound(bs: seq<byte>, mt: seq<byte>, fs: seq<Field>, m: seq<byte>)
    requires SohFree(bs) && SohFree(mt) && Clean(fs) && |fs| <= 500 && m == Encode(bs, mt, fs) && |m| <= FRAME_LIMIT
    ensures var r := Parse(DEFAULT, m); r.Ok? && Resolve(m, r.value.entries) == Sealed(bs, mt, fs)
  {
    assert m + [] == m;
    RoundTrip(bs, mt, fs, []);
  }

  /** Every message an engine builds is read back with its sender, receiver and time in fields 49, 56 and 52, and a
      Logon with no encryption and the configured heartbeat interval in fields 98 and 108. */
  lemma SessionMessageTells(id: Identity, kind: Kind, seqNum: u64, nanos: u64)
    requires Usable(id)
    ensures var m := SessionMessage(id, kind, seqNum, nanos); var r := Parse(DEFAULT, m);
      r.Ok? && Tells(Resolve(m, r.value.entries), id, kind, nanos)
  {
    var time := Timestamp.FixTimestamp(nanos, 3, 1_000_000);
    var fs := SessionFields(id, kind, seqNum, time);
    TimeText(nanos);
    SessionFieldsClean(id, kind, seqNum, time);
    SessionMessageFits(id, kind, seqNum, time);
    FieldsFound(id.version, TypeBytes(kind), fs, SessionMessage(id, kind, seqNum, nanos));
    SealedTells(id, kind, seqNum, nanos, fs);
  }

  // ----- the builders -----

  /** The message a builder is asked for. */
  function Built(id: Identity, kind: Kind, seqNum: u64, time: seq<byte>): seq<byte> {
    Encode(id.version, TypeBytes(kind), SessionFields(id, kind, seqNum, time))
  }

  lemma AddedLength(mt: seq<byte>, fs: seq<Field>, a: Field, b: Field)
    ensures |BodyBytes(mt, fs + [a, b])| == |BodyBytes(mt, fs)| + |FieldBytes(a)| + |FieldBytes(b)|
  {
    BodyLength(mt, fs + [a, b]);
    BodyLength(mt, fs);
    FieldsBytesAppend(fs, [a, b]);
    TwoFields(a, b);
  }

  /** The four common fields fill the body one after the other. */
  lemma CommonSum(mt: seq<byte>, id: Identity, seqNum: u64, time: seq<byte>)
    ensures var fs := CommonFields(id, seqNum, time);
      |BodyBytes(mt, fs)|
      == |BodyBytes(mt, [])| + |FieldBytes(fs[0])| + |FieldBytes(fs[1])| + |FieldBytes(fs[2])| + |FieldBytes(fs[3])|
  {
    var fs := CommonFields(id, seqNum, time);
    AddedLength(mt, [], fs[0], fs[1]);
    AddedLength(mt, fs[..2], fs[2], fs[3]);
    assert fs[..2] == [] + [fs[0], fs[1]] && fs == fs[..2] + [fs[2], fs[3]];
  }

  lemma CommonFits(id: Identity, kind: Kind, seqNum: u64, time: seq<byte>)
    requires kind != LogonKind
    ensures SessionFields(id, kind, seqNum, time) == CommonFields(id, seqNum, time)
    ensures |Built(id, kind, seqNum, time)|
         == |Reserved(id.version, 0)| + |BodyBytes(TypeBytes(kind), CommonFields(id, seqNum, time))| + 7
  {
    EncodeLength(id.version, TypeBytes(kind), SessionFields(id, kind, seqNum, time));
    assert SessionFields(id, kind, seqNum, time) == CommonFields(id, seqNum, time);
  }

  lemma LogonFits(id: Identity, seqNum: u64, time: seq<byte>)
    ensures |Built(id, LogonKind, seqNum, time)|
         == |Reserved(id.version, 0)| + |BodyBytes(TypeBytes(LogonKind), CommonFields(id, seqNum, time))|
            + |FieldBytes(Field(ENCRYPT_METHOD, SignedDigits(0)))|
            + |FieldBytes(Field(HEARTBT_INT, SignedDigits(id.heartbeatSecs)))| + 7
  {
    var fs := CommonFields(id, seqNum, time);
    var a, b := Field(ENCRYPT_METHOD, SignedDigits(0)), Field(HEARTBT_INT, SignedDigits(id.heartbeatSecs));
    EncodeLength(id.version, TypeBytes(LogonKind), fs + [a, b]);
    AddedLength(TypeBytes(LogonKind), fs, a, b);
  }

  /** What the three builders share: `begin` and the four fields of every session message. */
  method BeginCommon(ser: FixSerializer, id: Identity, kind: Kind, seqNum: u64, time: seq<byte>)
    requires |Reserved(id.version, 0)| + |BodyBytes(TypeBytes(kind), CommonFields(id, seqNum, time))|
          <= ser.buffer.Length
    requires ser.Valid() && ser.Written() == []
    modifies ser, ser.buffer
    ensures ser.Open() && ser.beginString == id.version && ser.msgType == TypeBytes(kind)
    ensures ser.fields == CommonFields(id, seqNum, time)
    ensures ser.pos == |Reserved(id.version, 0)| + |BodyBytes(TypeBytes(kind), CommonFields(id, seqNum, time))|
  {
    CommonSum(TypeBytes(kind), id, seqNum, time);
    ser.Begin(id.version, TypeBytes(kind));
    assert ser.pos == |ser.Written()|;
    ser.AddStr(SENDER_COMP_ID, id.sender);
    ser.AddStr(TARGET_COMP_ID, id.target);
    ser.AddU64(MSG_SEQ_NUM, seqNum);
    ser.AddStr(SENDING_TIME, time);
  }

  method BuildHeartbeat(buf: array<byte>, id: Identity, seqNum: u64, time: seq<byte>) returns (len: nat)
    requires |Built(id, HeartbeatKind, seqNum, time)| <= buf.Length
    modifies buf
    ensures len <= buf.Length && buf[..len] == Built(id, HeartbeatKind, seqNum, time)
  {
    CommonFits(id, HeartbeatKind, seqNum, time);
    var ser := new FixSerializer(buf);
    BeginCommon(ser, id, HeartbeatKind, seqNum, time);
    len := ser.Finalize();
  }

  method BuildLogout(buf: array<byte>, id: Identity, seqNum: u64, time: seq<byte>) returns (len: nat)
    requires |Built(id, LogoutKind, seqNum, time)| <= buf.Length
    modifies buf
    ensures len <= buf.Length && buf[..len] == Built(id, LogoutKind, seqNum, time)
  {
    CommonFits(id, LogoutKind, seqNum, time);
    var ser := new FixSerializer(buf);
    BeginCommon(ser, id, LogoutKind, seqNum, time);
    len := ser.Finalize();
  }

  method BuildLogon(buf: array<byte>, id: Identity, seqNum: u64, time: seq<byte>) returns (len: nat)
    requires -TWO_63 <= id.heartbeatSecs < TWO_63 && |Built(id, LogonKind, seqNum, time)| <= buf.Length
    modifies buf
    ensures len <= buf.Length && buf[..len] == Built(id, LogonKind, seqNum, time)
  {
    LogonFits(id, seqNum, time);
    var ser := new FixSerializer(buf);
    BeginCommon(ser, id, LogonKind, seqNum, time);
    ser.AddInt(ENCRYPT_METHOD, 0);
    ser.AddInt(HEARTBT_INT, id.heartbeatSecs);
    len := ser.Finalize();
    assert SessionFields(id, LogonKind, seqNum, time) == CommonFields(id, seqNum, time)
      + [Field(ENCRYPT_METHOD, SignedDigits(0))] + [Field(HEARTBT_INT, SignedDigits(id.heartbeatSecs))];
  }
}
