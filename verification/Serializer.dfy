/** `src/serializer.rs`: messages written in place into a caller's buffer, the body length
    patched back in once the body is known. */
module Serializer {
  import opened Bytes
  import opened Decimal
  import opened Message
  import opened WireFormat
  import Checksum

  /** The two-digit table: the pair at `2 * r` spells `r`. */
  const DIGIT_PAIRS: seq<byte> :=
    seq(200, (j: nat) requires j < 200 => if j % 2 == 0 then ZERO + j / 20 else ZERO + j / 2 % 10)

  lemma PairSpells(r: nat)
    requires r < 100
    ensures DIGIT_PAIRS[2 * r] == ZERO + r / 10 && DIGIT_PAIRS[2 * r + 1] == ZERO + r % 10
  {
  }

  /** Two digits at a time and one digit at a time spell the same text. */
  lemma DigitsByPair(n: nat)
    requires n >= 100
    ensures Digits(n) == Digits(n / 100) + [ZERO + n % 100 / 10, ZERO + n % 100 % 10]
  {
    assert n / 10 / 10 == n / 100 && n / 10 % 10 == n % 100 / 10 && n % 10 == n % 100 % 10;
    assert Digits(n) == Digits(n / 10) + [ZERO + n % 10];
    assert Digits(n / 10) == Digits(n / 100) + [ZERO + n / 10 % 10];
  }

  lemma DigitsLast(n: nat)
    requires 0 < n < 100
    ensures n >= 10 ==> Digits(n) == [ZERO + n / 10, ZERO + n % 10]
    ensures n < 10 ==> Digits(n) == [ZERO + n]
  {
  }

  /** One table step: two more low digits placed at `i - 2`. */
  method PutPair(buf: array<byte>, i: nat, r: nat)
    requires 2 <= i <= buf.Length && r < 100
    modifies buf
    ensures buf[i - 2..] == [ZERO + r / 10, ZERO + r % 10] + old(buf[i..])
  {
    PairSpells(r);
    buf[i - 2] := DIGIT_PAIRS[r * 2];
    buf[i - 1] := DIGIT_PAIRS[r * 2 + 1];
  }

  /** The last one or two digits in front of those at `i`. */
  method PutLast(buf: array<byte>, i: nat, val: nat) returns (j: nat)
    requires 0 < val < 100 && 1 <= i <= buf.Length && (val >= 10 ==> i >= 2)
    modifies buf
    ensures j <= buf.Length && buf[j..] == Digits(val) + old(buf[i..])
  {
    DigitsLast(val);
    if val >= 10 {
      PutPair(buf, i, val);
      j := i - 2;
    } else {
      j := i - 1;
      buf[j] := ZERO + val;
    }
  }

  lemma Pow10Step(val: nat, i: nat)
    requires i >= 2 && val < Pow10(i)
    ensures val / 100 < Pow10(i - 2)
  {
    assert Pow10(i) == 10 * Pow10(i - 1) && Pow10(i - 1) == 10 * Pow10(i - 2);
  }

  /** The loop shared by `write_u32` (ten places) and `write_u64` (twenty): the text is
      right-justified in a scratch array. */
  method RightJustify(val0: nat, buf: array<byte>) returns (i: nat)
    requires val0 > 0 && val0 < Pow10(buf.Length)
    modifies buf
    ensures i <= buf.Length && buf[i..] == Digits(val0)
  {
    var val := val0;
    i := buf.Length;
    while val >= 100
      invariant i <= buf.Length && 0 < val < Pow10(i)
      invariant Digits(val0) == Digits(val) + buf[i..]
    {
      PlacesFor(val, i);
      Pow10Step(val, i);
      var r := val % 100;
      ghost var tail := buf[i..];
      PutPair(buf, i, r);
      PairMoved(Digits(val0), val, tail, buf[i - 2..]);
      val := val / 100;
      i := i - 2;
    }
    PlacesFor(val, i);
    i := PutLast(buf, i, val);
  }

  /** Two more digits moved from the number to the text. */
  lemma PairMoved(all: seq<byte>, val: nat, tail: seq<byte>, longer: seq<byte>)
    requires val >= 100 && all == Digits(val) + tail && longer == [ZERO + val % 100 / 10, ZERO + val % 100 % 10] + tail
    ensures all == Digits(val / 100) + longer
  {
    DigitsByPair(val);
  }

  lemma PlacesFor(val: nat, i: nat)
    requires 0 < val < Pow10(i)
    ensures i >= 1 && (val >= 10 ==> i >= 2)
  {
    assert Pow10(1) == 10 * Pow10(0);
  }

  /** What `n` has left to print is the front of `d`, the digits of the whole number; nothing once it is
      zero. */
  predicate Leading(d: seq<byte>, n: nat, printed: seq<byte>) {
    d == (if n == 0 then [] else Digits(n)) + printed
  }

  lemma LeadingStep(d: seq<byte>, n: nat, printed: seq<byte>, longer: seq<byte>)
    requires n > 0 && Leading(d, n, printed) && longer == [ZERO + n % 10] + printed
    ensures Leading(d, n / 10, longer)
  {
    if n < 10 {
      assert Digits(n) == [ZERO + n % 10];
    } else {
      assert Digits(n) == Digits(n / 10) + [ZERO + n % 10];
    }
  }

  lemma SixPlaces(n: nat, i: nat)
    requires 0 < n < Pow10(i)
    ensures i > 0 && n / 10 < Pow10(i - 1)
  {
  }

  lemma FixedStep(i: nat, val: nat, whole: seq<byte>, printed: seq<byte>, longer: seq<byte>)
    requires i > 0 && whole == Fixed(i, val) + printed && longer == [ZERO + val % 10] + printed
    ensures whole == Fixed(i - 1, val / 10) + longer
  {
    assert Fixed(i, val) == Fixed(i - 1, val / 10) + [ZERO + val % 10];
  }

  /** The digit loop of `write_u64_to_buf`, from the back of a six-byte scratch array. */
  method FillDigits(val0: nat, tmp: array<byte>) returns (i: nat, ghost val: nat)
    requires tmp.Length == 6 && val0 > 0
    modifies tmp
    ensures i < 6 && (i == 0 || val == 0) && Fixed(6, val0) == Fixed(i, val) + tmp[i..]
    ensures val0 < 1_000_000 ==> val == 0
    ensures Leading(Digits(val0), val, tmp[i..])
  {
    var rest: nat := val0;
    i := 6;
    ghost var whole := Fixed(6, val0);
    ghost var small := val0 < 1_000_000;
    PowersOfTen();
    while rest > 0 && i > 0
      invariant i <= 6 && (i == 6 ==> rest > 0)
      invariant whole == Fixed(i, rest) + tmp[i..]
      invariant Leading(Digits(val0), rest, tmp[i..]) && (small ==> rest < Pow10(i))
    {
      ghost var printed := tmp[i..];
      if small {
        SixPlaces(rest, i);
      }
      tmp[i - 1] := ZERO + rest % 10;
      FixedStep(i, rest, whole, printed, tmp[i - 1..]);
      LeadingStep(Digits(val0), rest, printed, tmp[i - 1..]);
      i, rest := i - 1, rest / 10;
    }
    val := rest;
  }

  /** The digits of `write_u64_to_buf`: the number's own when it is below one million, and the low six
      otherwise. */
  method WriteU64ToBuf(val0: nat, buf: array<byte>) returns (len: nat)
    requires buf.Length == 6
    modifies buf
    ensures 1 <= len <= 6
    ensures Fixed(6, val0) == Fixed(6 - len, 0) + buf[..len]
    ensures val0 < 1_000_000 ==> buf[..len] == Digits(val0)
  {
    if val0 == 0 {
      buf[0] := ZERO;
      assert Fixed(6, 0) == Fixed(5, 0) + [ZERO];
      return 1;
    }
    var tmp := new byte[6](_ => 0);
    var i, rest := FillDigits(val0, tmp);
    len := 6 - i;
    CopyInto(buf, 0, tmp[i..6]);
    assert buf[..len] == tmp[i..];
  }

  lemma {:induction false} FixedZero(k: nat)
    ensures Fixed(k, 0) == seq(k, _ => ZERO)
  {
    if k > 0 {
      FixedZero(k - 1);
    }
  }

  /** Overwriting the middle third of a prefix leaves its other two thirds. */
  lemma Patched(was: seq<byte>, now: seq<byte>, pos: nat,
                head: seq<byte>, mid: seq<byte>, patch: seq<byte>, tail: seq<byte>)
    requires pos <= |was| && was[..pos] == head + mid + tail && |mid| == |patch|
    requires now == was[..|head|] + patch + was[|head| + |mid|..]
    ensures now[..pos] == head + patch + tail
  {
    assert was[..|head|] == was[..pos][..|head|] == head;
    assert was[|head| + |mid|..pos] == was[..pos][|head| + |mid|..] == tail;
  }

  /** The magnitude `write_i64` prints, the least `i64` included. */
  lemma NegationPrints(val: int)
    requires -TWO_63 <= val < 0
    ensures Wrap64(WrapI64(-val)) == -val
  {
  }

  lemma TrailerJoined(open: seq<byte>, cs: seq<byte>)
    requires |cs| == 3
    ensures open + [0x31, 0x30, EQUALS, cs[0], cs[1], cs[2], SOH] == open + [0x31, 0x30, EQUALS] + cs + [SOH]
  {
  }

  lemma ZeroPrefix(n: nat, k: nat)
    requires k <= n
    ensures Fixed(n, 0)[..k] == Fixed(k, 0)
  {
    FixedZero(n);
    FixedZero(k);
  }

  /** Text laid over the end of a middle part. */
  lemma Overlaid(a: seq<byte>, mid: seq<byte>, c: seq<byte>, digits: seq<byte>, was: seq<byte>, now: seq<byte>)
    requires was == a + mid + c && |digits| <= |mid|
    requires var at := |a| + |mid| - |digits|; now == was[..at] + digits + was[at + |digits|..]
    ensures now == a + mid[..|mid| - |digits|] + digits + c
  {
    var at := |a| + |mid| - |digits|;
    assert was[..at] == a + mid[..|mid| - |digits|];
    assert was[at + |digits|..] == c;
  }

  lemma Padded(a: seq<byte>, zeros: seq<byte>, digits: seq<byte>, d: seq<byte>)
    ensures a + zeros + digits + d == a + (zeros + digits) + d
  {
  }

  lemma ReservedSplit(written: seq<byte>, bs: seq<byte>, body: seq<byte>)
    requires written == Reserved(bs, 0) + body
    ensures written == FieldBytes(Field(BEGIN_STRING, bs)) + [0x39, EQUALS] + Fixed(6, 0) + ([SOH] + body)
  {
  }

  /** The patched prefix is the message without its trailer. */
  lemma PatchedUnsealed(now: seq<byte>, bs: seq<byte>, mt: seq<byte>, fs: seq<Field>)
    requires var body := BodyBytes(mt, fs);
      now == FieldBytes(Field(BEGIN_STRING, bs)) + [0x39, EQUALS] + Fixed(6, |body|) + ([SOH] + body)
    ensures now == FieldsBytes(Unsealed(bs, mt, fs))
  {
    EncodeShape(bs, mt, fs);
    var body := BodyBytes(mt, fs);
    assert now == Reserved(bs, |body|) + body;
  }

  class FixSerializer {
    const buffer: array<byte>
    var pos: nat
    var bodyStart: nat
    // The message under construction, for specifications.
    ghost var beginString: seq<byte>
    ghost var msgType: seq<byte>
    ghost var fields: seq<Field>

    ghost predicate Valid()
      reads this
    {
      pos <= buffer.Length
    }

    ghost function Written(): seq<byte>
      reads this, buffer
      requires Valid()
    {
      buffer[..pos]
    }

    /** `begin` has run and only whole fields have been added since. */
    ghost predicate Open()
      reads this, buffer
    {
      && Valid()
      && bodyStart == |Reserved(beginString, 0)|
      && Written() == Reserved(beginString, 0) + BodyBytes(msgType, fields)
    }

    constructor (buffer: array<byte>)
      ensures Valid() && this.buffer == buffer && Written() == []
    {
      this.buffer := buffer;
      pos := 0;
      bodyStart := 0;
      beginString, msgType, fields := [], [], [];
    }

    method WriteBytes(data: seq<byte>)
      requires Valid() && pos + |data| <= buffer.Length
      modifies this`pos, buffer
      ensures Valid() && Written() == old(Written()) + data
    {
      CopyInto(buffer, pos, data);
      pos := pos + |data|;
    }

    method WriteByte(b: byte)
      requires Valid() && pos < buffer.Length
      modifies this`pos, buffer
      ensures Valid() && Written() == old(Written()) + [b]
    {
      buffer[pos] := b;
      pos := pos + 1;
    }

    method WriteU32(val: u32)
      requires Valid() && pos + |Digits(val)| <= buffer.Length
      modifies this`pos, buffer
      ensures Valid() && Written() == old(Written()) + Digits(val)
    {
      if val == 0 {
        WriteByte(ZERO);
        return;
      }
      var buf := new byte[10](_ => 0);
      PowersOfTen();
      var i := RightJustify(val, buf);
      WriteBytes(buf[i..10]);
    }

    method WriteU64(val: u64)
      requires Valid() && pos + |Digits(val)| <= buffer.Length
      modifies this`pos, buffer
      ensures Valid() && Written() == old(Written()) + Digits(val)
    {
      if val == 0 {
        WriteByte(ZERO);
        return;
      }
      var buf := new byte[20](_ => 0);
      PowersOfTen();
      var i := RightJustify(val, buf);
      WriteBytes(buf[i..20]);
    }

    method WriteMinus(magnitude: u64)
      requires Valid() && pos + 1 + |Digits(magnitude)| <= buffer.Length
      modifies this`pos, buffer
      ensures Valid() && Written() == old(Written()) + ([0x2D] + Digits(magnitude))
    {
      WriteByte(0x2D);
      WriteU64(magnitude);
    }

    /** The least `i64` wraps to itself under negation and is printed in full. */
    method WriteI64(val: int)
      requires -TWO_63 <= val < TWO_63
      requires Valid() && pos + |SignedDigits(val)| <= buffer.Length
      modifies this`pos, buffer
      ensures Valid() && Written() == old(Written()) + SignedDigits(val)
    {
      if val < 0 {
        var magnitude := Wrap64(WrapI64(-val));
        NegationPrints(val);
        WriteMinus(magnitude);
      } else {
        WriteU64(val);
      }
    }

    method WriteTag(tag: u32)
      requires Valid() && pos + |Digits(tag)| < buffer.Length
      modifies this`pos, buffer
      ensures Valid() && Written() == old(Written()) + Digits(tag) + [EQUALS]
    {
      WriteU32(tag);
      WriteByte(EQUALS);
    }

    method WriteTagValue(tag: u32, value: seq<byte>)
      requires Valid() && pos + |FieldBytes(Field(tag, value))| <= buffer.Length
      modifies this`pos, buffer
      ensures Valid() && Written() == old(Written()) + FieldBytes(Field(tag, value))
    {
      WriteTag(tag);
      WriteBytes(value);
      WriteByte(SOH);
    }

    method Begin(beginString: seq<byte>, msgType: seq<byte>)
      requires Valid() && Written() == []
      requires |Reserved(beginString, 0)| + |BodyBytes(msgType, [])| <= buffer.Length
      modifies this, buffer
      ensures Open()
      ensures this.beginString == beginString && this.msgType == msgType && fields == []
    {
      assert BodyBytes(msgType, []) == FieldBytes(Field(MSG_TYPE, msgType)) + FieldsBytes([]);
      WriteTagValue(BEGIN_STRING, beginString);
      FixedZero(6);
      WriteBytes([0x39, EQUALS, ZERO, ZERO, ZERO, ZERO, ZERO, ZERO, SOH]);
      bodyStart := pos;
      assert Written() == Reserved(beginString, 0);
      WriteTagValue(MSG_TYPE, msgType);
      this.beginString, this.msgType, fields := beginString, msgType, [];
    }

    /** One more whole field in the body. */
    ghost method Append(f: Field)
      requires Valid() && bodyStart == |Reserved(beginString, 0)|
      requires Written() == Reserved(beginString, 0) + BodyBytes(msgType, fields) + FieldBytes(f)
      modifies this`fields
      ensures Open() && fields == old(fields) + [f]
    {
      FieldsBytesSnoc(Body(msgType, fields), f);
      assert Body(msgType, fields + [f]) == Body(msgType, fields) + [f];
      fields := fields + [f];
    }

    method AddStr(tag: u32, value: seq<byte>)
      requires Open() && pos + |FieldBytes(Field(tag, value))| <= buffer.Length
      modifies this`pos, this`fields, buffer
      ensures Open() && fields == old(fields) + [Field(tag, value)]
      ensures pos == old(pos) + |FieldBytes(Field(tag, value))|
    {
      WriteTagValue(tag, value);
      Append(Field(tag, value));
    }

    method AddInt(tag: u32, value: int)
      requires -TWO_63 <= value < TWO_63
      requires Open() && pos + |FieldBytes(Field(tag, SignedDigits(value)))| <= buffer.Length
      modifies this`pos, this`fields, buffer
      ensures Open() && fields == old(fields) + [Field(tag, SignedDigits(value))]
      ensures pos == old(pos) + |FieldBytes(Field(tag, SignedDigits(value)))|
    {
      WriteTag(tag);
      WriteI64(value);
      WriteByte(SOH);
      Append(Field(tag, SignedDigits(value)));
    }

    method AddU64(tag: u32, value: u64)
      requires Open() && pos + |FieldBytes(Field(tag, Digits(value)))| <= buffer.Length
      modifies this`pos, this`fields, buffer
      ensures Open() && fields == old(fields) + [Field(tag, Digits(value))]
      ensures pos == old(pos) + |FieldBytes(Field(tag, Digits(value)))|
    {
      WriteTag(tag);
      WriteU64(value);
      WriteByte(SOH);
      Append(Field(tag, Digits(value)));
    }

    method ZeroLength(at: nat)
      requires at + 6 <= buffer.Length
      modifies buffer
      ensures buffer[..] == old(buffer[..at]) + Fixed(6, 0) + old(buffer[at + 6..])
    {
      for i := 0 to 6
        invariant buffer[..] == old(buffer[..at]) + seq(i, _ => ZERO) + old(buffer[at + i..])
      {
        buffer[at + i] := ZERO;
      }
      FixedZero(6);
    }

    /** Zeroes the reserved digits at `at`, then right-justifies the `n`-digit text over them. */
    method PutLength(at: nat, digits: seq<byte>)
      requires |digits| <= 6 && at + 6 <= buffer.Length
      modifies buffer
      ensures buffer[..] == old(buffer[..at]) + Fixed(6 - |digits|, 0) + digits + old(buffer[at + 6..])
    {
      ghost var a, c := buffer[..at], buffer[at + 6..];
      ZeroLength(at);
      ghost var zeroed := buffer[..];
      CopyInto(buffer, at + (6 - |digits|), digits);
      ZeroPrefix(6, 6 - |digits|);
      Overlaid(a, Fixed(6, 0), c, digits, zeroed, buffer[..]);
    }

    /** Six digits of `n` over whatever stood at `at`. */
    method WriteLength(at: nat, n: nat)
      requires at + 6 <= buffer.Length
      modifies buffer
      ensures buffer[..] == old(buffer[..at]) + Fixed(6, n) + old(buffer[at + 6..])
    {
      var blBuf := new byte[6](_ => 0);
      var blLen := WriteU64ToBuf(n, blBuf);
      var digits := blBuf[..blLen];
      PutLength(at, digits);
      Padded(old(buffer[..at]), Fixed(6 - blLen, 0), digits, old(buffer[at + 6..]));
    }

    /** Replaces the six reserved zeros; everything around them stays. */
    method PatchBodyLength()
      requires Open()
      modifies buffer
      ensures Written() == FieldsBytes(Unsealed(beginString, msgType, fields))
    {
      ghost var head := FieldBytes(Field(BEGIN_STRING, beginString)) + [0x39, EQUALS];
      ghost var body := BodyBytes(msgType, fields);
      var bodyLength := pos - bodyStart;
      var blStart := bodyStart - 7;
      ReservedSplit(Written(), beginString, body);
      ghost var was := buffer[..];
      WriteLength(blStart, bodyLength);
      Patched(was, buffer[..], pos, head, Fixed(6, 0), Fixed(6, bodyLength), [SOH] + body);
      PatchedUnsealed(Written(), beginString, msgType, fields);
    }

    /** Patches the length, sums everything before the trailer and appends the trailer. */
    method Finalize() returns (len: nat)
      requires Open() && pos + 7 <= buffer.Length
      modifies this`pos, buffer
      ensures Valid() && len == pos && Written() == Encode(beginString, msgType, fields)
    {
      PatchBodyLength();
      EncodeTrailer(beginString, msgType, fields);
      var cs := Checksum.Compute(buffer[..pos]);
      var csBuf := new byte[3](_ => 0);
      Checksum.Format(cs, csBuf);
      TrailerJoined(Written(), csBuf[..]);
      WriteBytes([0x31, 0x30, EQUALS, csBuf[0], csBuf[1], csBuf[2], SOH]);
      return pos;
    }
  }
}
