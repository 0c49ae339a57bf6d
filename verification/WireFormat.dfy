/** The FIX 4.4 byte form of a message: the reference the serializer is proved against
    and the parser is proved to invert. */
module WireFormat {
  import opened Bytes
  import opened Decimal
  import opened Message
  import Checksum

  /** "tag=value<SOH>" */
  function FieldBytes(f: Field): (s: seq<byte>)
    ensures |s| == |Digits(f.tag)| + |f.value| + 2
  {
    Digits(f.tag) + [EQUALS] + f.value + [SOH]
  }

  function FieldsBytes(fs: seq<Field>): seq<byte> {
    if fs == [] then [] else FieldBytes(fs[0]) + FieldsBytes(fs[1..])
  }

  lemma {:induction false} FieldsBytesAppend(a: seq<Field>, b: seq<Field>)
    ensures FieldsBytes(a + b) == FieldsBytes(a) + FieldsBytes(b)
  {
    if a == [] {
      assert a + b == b;
    } else {
      assert (a + b)[1..] == a[1..] + b;
      FieldsBytesAppend(a[1..], b);
    }
  }

  lemma FieldsBytesSnoc(fs: seq<Field>, f: Field)
    ensures FieldsBytes(fs + [f]) == FieldsBytes(fs) + FieldBytes(f)
  {
    FieldsBytesAppend(fs, [f]);
    assert FieldsBytes([f]) == FieldBytes(f) + FieldsBytes([]);
  }

  /** What BodyLength counts: everything after its own SOH up to the trailer. */
  function Body(msgType: seq<byte>, fields: seq<Field>): seq<Field> {
    [Field(MSG_TYPE, msgType)] + fields
  }

  function BodyBytes(msgType: seq<byte>, fields: seq<Field>): seq<byte> {
    FieldsBytes(Body(msgType, fields))
  }

  /** The fields of a message without its trailer. BodyLength has six digits. */
  function Unsealed(beginString: seq<byte>, msgType: seq<byte>, fields: seq<Field>): seq<Field> {
    [Field(BEGIN_STRING, beginString), Field(BODY_LENGTH, Fixed(6, |BodyBytes(msgType, fields)|))]
    + Body(msgType, fields)
  }

  function TrailerField(prefix: seq<byte>): Field {
    Field(CHECKSUM, Fixed(3, Checksum.Sum(prefix) % 256))
  }

  /** All fields of the finished message, tags 8, 9 and 35 in front and tag 10 at the end. */
  function Sealed(beginString: seq<byte>, msgType: seq<byte>, fields: seq<Field>): seq<Field> {
    var open := Unsealed(beginString, msgType, fields);
    open + [TrailerField(FieldsBytes(open))]
  }

  /** The finished message. */
  function Encode(beginString: seq<byte>, msgType: seq<byte>, fields: seq<Field>): seq<byte> {
    FieldsBytes(Sealed(beginString, msgType, fields))
  }

  /** What `begin` leaves ahead of the body: BeginString and six reserved zeros. */
  function Reserved(beginString: seq<byte>, n: nat): seq<byte> {
    FieldBytes(Field(BEGIN_STRING, beginString)) + [0x39, EQUALS] + Fixed(6, n) + [SOH]
  }

  lemma SmallTags()
    ensures Digits(8) == [0x38] && Digits(9) == [0x39] && Digits(10) == [0x31, 0x30] && Digits(35) == [0x33, 0x35]
  {
    assert Digits(1) == [0x31] && Digits(3) == [0x33];
  }

  lemma EncodeShape(beginString: seq<byte>, msgType: seq<byte>, fields: seq<Field>)
    ensures var body := BodyBytes(msgType, fields);
      FieldsBytes(Unsealed(beginString, msgType, fields)) == Reserved(beginString, |body|) + body
  {
    var body := BodyBytes(msgType, fields);
    var f8 := Field(BEGIN_STRING, beginString);
    var f9 := Field(BODY_LENGTH, Fixed(6, |body|));
    FieldsBytesAppend([f8, f9], Body(msgType, fields));
    assert [f8, f9] == [f8] + [f9];
    FieldsBytesSnoc([f8], f9);
    assert FieldsBytes([f8]) == FieldBytes(f8) + FieldsBytes([]);
    SmallTags();
  }

  lemma EncodeTrailer(beginString: seq<byte>, msgType: seq<byte>, fields: seq<Field>)
    ensures var open := FieldsBytes(Unsealed(beginString, msgType, fields));
      Encode(beginString, msgType, fields)
      == open + [0x31, 0x30, EQUALS] + Fixed(3, Checksum.Sum(open) % 256) + [SOH]
  {
    var open := Unsealed(beginString, msgType, fields);
    FieldsBytesSnoc(open, TrailerField(FieldsBytes(open)));
    SmallTags();
  }
}
