/** `src/message.rs`: the field index a parse fills in, over an immutable wire buffer. */
module Message {
  import opened Bytes
  import opened Decimal

  const MAX_FIELDS: nat := 512

  const BEGIN_STRING: u32 := 8
  const BODY_LENGTH: u32 := 9
  const CHECKSUM: u32 := 10
  const MSG_SEQ_NUM: u32 := 34
  const MSG_TYPE: u32 := 35
  const SENDER_COMP_ID: u32 := 49
  const SENDING_TIME: u32 := 52
  const TARGET_COMP_ID: u32 := 56
  const ENCRYPT_METHOD: u32 := 98
  const HEARTBT_INT: u32 := 108

  datatype Field = Field(tag: u32, value: seq<byte>)
  datatype FieldEntry = FieldEntry(tag: u32, offset: u32, length: u16)

  predicate InBounds(buffer: seq<byte>, entries: seq<FieldEntry>) {
    forall e :: e in entries ==> e.offset + e.length <= |buffer|
  }

  function FieldValue(buffer: seq<byte>, e: FieldEntry): seq<byte>
    requires e.offset + e.length <= |buffer|
  {
    buffer[e.offset..e.offset + e.length]
  }

  /** The tag/value list an index stands for. */
  function Resolve(buffer: seq<byte>, entries: seq<FieldEntry>): (fs: seq<Field>)
    requires InBounds(buffer, entries)
    ensures |fs| == |entries|
    ensures forall k :: 0 <= k < |fs| ==> fs[k] == Field(entries[k].tag, FieldValue(buffer, entries[k]))
  {
    seq(|entries|, k requires 0 <= k < |entries| => Field(entries[k].tag, FieldValue(buffer, entries[k])))
  }

  /** The index holds 512 fields; later ones are dropped. */
  function AddEntry(entries: seq<FieldEntry>, e: FieldEntry): seq<FieldEntry> {
    if |entries| < MAX_FIELDS then entries + [e] else entries
  }

  /** The value of the first field carrying `tag`. */
  function First(fs: seq<Field>, tag: u32): Option<seq<byte>> {
    if fs == [] then None
    else if fs[0].tag == tag then Some(fs[0].value)
    else First(fs[1..], tag)
  }

  /** The value of the last field carrying `tag`. */
  function Last(fs: seq<Field>, tag: u32): Option<seq<byte>> {
    if fs == [] then None
    else if fs[|fs| - 1].tag == tag then Some(fs[|fs| - 1].value)
    else Last(fs[..|fs| - 1], tag)
  }

  lemma {:induction false} FirstSkips(fs: seq<Field>, i: nat, tag: u32)
    requires i <= |fs| && forall k :: 0 <= k < i ==> fs[k].tag != tag
    ensures First(fs, tag) == First(fs[i..], tag)
  {
    if i > 0 {
      FirstSkips(fs[1..], i - 1, tag);
      assert fs[1..][i - 1..] == fs[i..];
    } else {
      assert fs[0..] == fs;
    }
  }

  lemma {:induction false} LastSkips(fs: seq<Field>, i: nat, tag: u32)
    requires i <= |fs| && forall k :: i <= k < |fs| ==> fs[k].tag != tag
    ensures Last(fs, tag) == Last(fs[..i], tag)
  {
    if i < |fs| {
      LastSkips(fs[..|fs| - 1], i, tag);
      assert fs[..|fs| - 1][..i] == fs[..i];
    } else {
      assert fs[..i] == fs;
    }
  }

  /** `idx` is the position of the last tag 35, or 0 when there is none. */
  predicate MarksLast(entries: seq<FieldEntry>, idx: nat) {
    && (forall k :: idx < k < |entries| ==> entries[k].tag != MSG_TYPE)
    && (idx >= |entries| || entries[idx].tag != MSG_TYPE ==> idx == 0)
  }

  lemma MarkedLast(buffer: seq<byte>, entries: seq<FieldEntry>, idx: nat)
    requires InBounds(buffer, entries) && MarksLast(entries, idx)
    ensures Last(Resolve(buffer, entries), MSG_TYPE)
      == if idx < |entries| && entries[idx].tag == MSG_TYPE then Some(FieldValue(buffer, entries[idx]))
         else First(Resolve(buffer, entries), MSG_TYPE)
  {
    var fs := Resolve(buffer, entries);
    if idx < |entries| && entries[idx].tag == MSG_TYPE {
      LastSkips(fs, idx + 1, MSG_TYPE);
    } else {
      LastSkips(fs, 0, MSG_TYPE);
      FirstSkips(fs, |fs|, MSG_TYPE);
    }
  }

  class MessageView {
    const buffer: seq<byte>
    const fields: array<FieldEntry>
    var fieldCount: nat
    var msgTypeIdx: nat
    var checksumValid: bool

    ghost predicate Valid()
      reads this, fields
    {
      && fields.Length == MAX_FIELDS
      && fieldCount <= MAX_FIELDS
      && MarksLast(fields[..fieldCount], msgTypeIdx)
    }

    /** The index built so far. */
    ghost function Entries(): seq<FieldEntry>
      reads this, fields
      requires Valid()
    {
      fields[..fieldCount]
    }

    constructor (buffer: seq<byte>)
      ensures Valid() && fresh(this.fields) && this.buffer == buffer
      ensures Entries() == [] && !checksumValid
    {
      this.buffer := buffer;
      fields := new FieldEntry[MAX_FIELDS](_ => FieldEntry(0, 0, 0));
      fieldCount := 0;
      msgTypeIdx := 0;
      checksumValid := false;
    }

    /** Files an entry whatever its range; reading a value later needs it inside the buffer. */
    method AddField(tag: u32, offset: u32, length: u16)
      requires Valid()
      modifies this`fieldCount, this`msgTypeIdx, fields
      ensures Valid()
      ensures Entries() == AddEntry(old(Entries()), FieldEntry(tag, offset, length))
    {
      if fieldCount < MAX_FIELDS {
        ghost var was := Entries();
        fields[fieldCount] := FieldEntry(tag, offset, length);
        if tag == MSG_TYPE {
          msgTypeIdx := fieldCount;
        }
        fieldCount := fieldCount + 1;
        assert fields[..fieldCount] == was + [FieldEntry(tag, offset, length)];
      }
    }

    method GetField(tag: u32) returns (r: Option<seq<byte>>)
      requires Valid() && InBounds(buffer, Entries())
      ensures r == First(Resolve(buffer, Entries()), tag)
    {
      ghost var fs := Resolve(buffer, Entries());
      for i := 0 to fieldCount
        invariant forall k :: 0 <= k < i ==> fs[k].tag != tag
      {
        assert fields[i] == Entries()[i] && Entries()[i] in Entries();
        if fields[i].tag == tag {
          FirstSkips(fs, i, tag);
          assert fs[i..][0] == fs[i];
          return Some(buffer[fields[i].offset..fields[i].offset + fields[i].length]);
        }
      }
      FirstSkips(fs, fieldCount, tag);
      return None;
    }

    /** The cached index answers with the last tag 35, not the first. */
    method MsgType() returns (r: Option<seq<byte>>)
      requires Valid() && InBounds(buffer, Entries())
      ensures r == Last(Resolve(buffer, Entries()), MSG_TYPE)
    {
      MarkedLast(buffer, Entries(), msgTypeIdx);
      if msgTypeIdx < fieldCount && fields[msgTypeIdx].tag == MSG_TYPE {
        assert fields[msgTypeIdx] == Entries()[msgTypeIdx] && Entries()[msgTypeIdx] in Entries();
        r := Some(buffer[fields[msgTypeIdx].offset..fields[msgTypeIdx].offset + fields[msgTypeIdx].length]);
      } else {
        r := GetField(MSG_TYPE);
      }
    }

    method MsgSeqNum() returns (r: Option<u64>)
      requires Valid() && InBounds(buffer, Entries())
      ensures r == SeqNumOf(Resolve(buffer, Entries()))
    {
      var v := GetField(MSG_SEQ_NUM);
      if v.Some? {
        r := ParseU64(v.value);
      } else {
        r := None;
      }
    }
  }

  function SeqNumOf(fs: seq<Field>): Option<u64> {
    var v := First(fs, MSG_SEQ_NUM);
    if v.None? then None else ReadU64(v.value)
  }
}
