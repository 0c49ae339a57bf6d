/** `src/parser.rs`: the loop parser over a wire buffer, and the search for a message boundary. */
module Parser {
  import opened Bytes
  import opened Decimal
  import opened Message
  import Checksum

  datatype ParseError =
    | BufferTooShort | MissingBeginString | MissingBodyLength | InvalidBodyLength | MissingMsgType
    | InvalidChecksum | MalformedField | InvalidTag | MessageTooLarge

  datatype FixParser = FixParser(validateChecksum: bool, validateBodyLength: bool, maxMessageSize: nat)

  /** `FixParser::new()`: both validations on. */
  const DEFAULT: FixParser := FixParser(true, true, 65_536)

  /** First position at or after `pos` holding `b`; the end of the buffer when there is none. */
  function FirstFrom(buf: seq<byte>, pos: nat, b: byte): (k: nat)
    requires pos <= |buf|
    ensures pos <= k <= |buf|
    ensures k < |buf| ==> buf[k] == b
    ensures forall i :: pos <= i < k ==> buf[i] != b
    decreases |buf| - pos
  {
    if pos == |buf| || buf[pos] == b then pos else FirstFrom(buf, pos + 1, b)
  }

  /** One `tag=value<SOH>`: the value is `buf[start..end]`. */
  datatype Scan = Broken(error: ParseError) | Scanned(tag: u32, start: nat, end: nat)

  function ScanField(buf: seq<byte>, pos: nat): (s: Scan)
    requires pos <= |buf|
    ensures s.Scanned? ==> pos < s.start <= s.end < |buf|
  {
    var eq := FirstFrom(buf, pos, EQUALS);
    if !AllDigits(buf[pos..eq]) then Broken(InvalidTag)
    else if eq == |buf| then Broken(MalformedField)
    else
      var soh := FirstFrom(buf, eq + 1, SOH);
      if soh == |buf| then Broken(MalformedField)
      else Scanned(Wrap32(Value(buf[pos..eq])), eq + 1, soh)
  }

  lemma TagStep(buf: seq<byte>, pos: nat, eq: nat)
    requires pos <= eq < |buf| && AllDigits(buf[pos..eq]) && IsDigit(buf[eq])
    ensures AllDigits(buf[pos..eq + 1])
    ensures Wrap32(Value(buf[pos..eq + 1])) == Wrap32(10 * Wrap32(Value(buf[pos..eq])) + (buf[eq] - ZERO))
  {
    assert buf[pos..eq + 1] == buf[pos..eq] + [buf[eq]];
    WrapStep32(Value(buf[pos..eq]), buf[eq] - ZERO);
    assert buf[pos..eq + 1][..eq - pos] == buf[pos..eq];
  }

  lemma NotDigits(buf: seq<byte>, pos: nat, end: nat, k: nat)
    requires pos <= k < end <= |buf| && !IsDigit(buf[k])
    ensures !AllDigits(buf[pos..end])
  {
    assert buf[pos..end][k - pos] == buf[k];
  }

  /** The tag loop: stops at '=', at the end, or at a byte that is not a digit. */
  method ReadTag(buf: seq<byte>, pos: nat) returns (tag: Option<u32>, eq: nat)
    requires pos <= |buf|
    ensures tag.Some? <==> AllDigits(buf[pos..FirstFrom(buf, pos, EQUALS)])
    ensures tag.Some? ==> eq == FirstFrom(buf, pos, EQUALS) && tag.value == Wrap32(Value(buf[pos..eq]))
  {
    eq := pos;
    var t: u32 := 0;
    while eq < |buf| && buf[eq] != EQUALS
      invariant pos <= eq <= |buf| && FirstFrom(buf, pos, EQUALS) == FirstFrom(buf, eq, EQUALS)
      invariant AllDigits(buf[pos..eq]) && t == Wrap32(Value(buf[pos..eq]))
    {
      var b := buf[eq];
      if b < ZERO || b > ZERO + 9 {
        NotDigits(buf, pos, FirstFrom(buf, pos, EQUALS), eq);
        return None, eq;
      }
      TagStep(buf, pos, eq);
      t := Wrap32(10 * t + (b - ZERO));
      eq := eq + 1;
    }
    tag := Some(t);
  }

  /** The value loop. */
  method ReadValue(buf: seq<byte>, start: nat) returns (end: nat)
    requires start <= |buf|
    ensures end == FirstFrom(buf, start, SOH)
  {
    end := start;
    while end < |buf| && buf[end] != SOH
      invariant start <= end <= |buf| && FirstFrom(buf, start, SOH) == FirstFrom(buf, end, SOH)
    {
      end := end + 1;
    }
  }

  method ReadField(buf: seq<byte>, pos: nat) returns (s: Scan)
    requires pos <= |buf|
    ensures s == ScanField(buf, pos)
  {
    var tag, eq := ReadTag(buf, pos);
    if tag.None? {
      return Broken(InvalidTag);
    }
    if eq >= |buf| {
      return Broken(MalformedField);
    }
    var end := ReadValue(buf, eq + 1);
    return if end >= |buf| then Broken(MalformedField) else Scanned(tag.value, eq + 1, end);
  }

  /** The stated BodyLength: bytes are not checked to be digits, and both the subtraction and
      the accumulator wrap. */
  function StatedLength(value: seq<byte>): u64 {
    if value == [] then 0
    else Wrap64(10 * StatedLength(value[..|value| - 1]) + Wrap8(value[|value| - 1] - ZERO))
  }

  method ReadLength(value: seq<byte>) returns (n: u64)
    ensures n == StatedLength(value)
  {
    n := 0;
    for i := 0 to |value|
      invariant n == StatedLength(value[..i])
    {
      assert value[..i + 1][..i] == value[..i];
      n := Wrap64(10 * n + Wrap8(value[i] - ZERO));
    }
    assert value[..|value|] == value;
  }

  /** Where the parse loop stands. */
  datatype Cursor = Cursor(pos: nat, fieldNum: nat, bodyStart: nat, stated: u64, entries: seq<FieldEntry>, done: bool)

  const START: Cursor := Cursor(0, 0, 0, 0, [], false)

  /** The check on the first three tags. */
  function Structural(fieldNum: nat, tag: u32): Option<ParseError> {
    if fieldNum == 0 && tag != BEGIN_STRING then Some(MissingBeginString)
    else if fieldNum == 1 && tag != BODY_LENGTH then Some(MissingBodyLength)
    else if fieldNum == 2 && tag != MSG_TYPE then Some(MissingMsgType)
    else None
  }

  /** One turn of the parse loop. */
  function Advance(buf: seq<byte>, c: Cursor): (r: Result<Cursor, ParseError>)
    requires c.pos <= |buf|
    ensures r.Ok? ==> c.pos < r.value.pos <= |buf|
    ensures r.Ok? && InBounds(buf, c.entries) ==> InBounds(buf, r.value.entries)
  {
    match ScanField(buf, c.pos)
    case Broken(error) => Err(error)
    case Scanned(tag, start, end) =>
      var wrong := Structural(c.fieldNum, tag);
      if wrong.Some? then Err(wrong.value)
      else
        var second := c.fieldNum == 1;
        Ok(Cursor(end + 1, c.fieldNum + 1,
                  if second then end + 1 else c.bodyStart,
                  if second then StatedLength(buf[start..end]) else c.stated,
                  AddEntry(c.entries, FieldEntry(tag, Wrap32(start), Wrap16(end - start))),
                  tag == CHECKSUM))
  }

  function Run(buf: seq<byte>, c: Cursor): (r: Result<Cursor, ParseError>)
    requires c.pos <= |buf|
    ensures r.Ok? ==> c.pos <= r.value.pos <= |buf|
    ensures r.Ok? && InBounds(buf, c.entries) ==> InBounds(buf, r.value.entries)
    decreases |buf| - c.pos
  {
    if c.done || c.pos == |buf| then Ok(c)
    else
      var next := Advance(buf, c);
      if next.Err? then next else Run(buf, next.value)
  }

  /** `find_checksum_tag_start`. */
  function TrailerStart(buf: seq<byte>, end: nat): nat
    requires end <= |buf|
  {
    if end < 7 then 0 else Checksum.LastTrailer(buf, end - 4)
  }

  /** The two validations of a finished scan. */
  function Verdict(p: FixParser, buf: seq<byte>, c: Cursor): Option<ParseError>
    requires c.pos <= |buf|
  {
    var trailer := TrailerStart(buf, c.pos);
    if p.validateBodyLength && c.bodyStart > 0 && trailer > 0 && Wrap64(trailer - c.bodyStart) != c.stated
      then Some(InvalidBodyLength)
    else if p.validateChecksum && !Checksum.Valid(buf[..c.pos]) then Some(InvalidChecksum)
    else None
  }

  /** The index and the number of bytes consumed. */
  datatype Parsed = Parsed(entries: seq<FieldEntry>, consumed: nat)

  function Parse(p: FixParser, buf: seq<byte>): (r: Result<Parsed, ParseError>)
    ensures r.Ok? ==> r.value.consumed <= |buf| && InBounds(buf, r.value.entries)
  {
    if |buf| < 20 then Err(BufferTooShort)
    else if |buf| > p.maxMessageSize then Err(MessageTooLarge)
    else
      var scan := Run(buf, START);
      if scan.Err? then Err(scan.error)
      else
        var wrong := Verdict(p, buf, scan.value);
        if wrong.Some? then Err(wrong.value) else Ok(Parsed(scan.value.entries, scan.value.pos))
  }

  method FindChecksumTagStart(buf: seq<byte>, end: nat) returns (start: nat)
    requires end <= |buf|
    ensures start == TrailerStart(buf, end)
  {
    if end < 7 {
      return 0;
    }
    var i := end - 4;
    while i > 0
      invariant 0 <= i <= end - 4
      invariant Checksum.LastTrailer(buf, end - 4) == Checksum.LastTrailer(buf, i)
    {
      i := i - 1;
      if buf[i] == SOH && buf[i + 1] == 0x31 && buf[i + 2] == 0x30 && buf[i + 3] == EQUALS {
        return i + 1;
      }
    }
    return 0;
  }

  method CheckStructure(fieldNum: nat, tag: u32) returns (wrong: Option<ParseError>)
    ensures wrong == Structural(fieldNum, tag)
  {
    if fieldNum == 0 && tag != BEGIN_STRING {
      return Some(MissingBeginString);
    } else if fieldNum == 1 && tag != BODY_LENGTH {
      return Some(MissingBodyLength);
    } else if fieldNum == 2 && tag != MSG_TYPE {
      return Some(MissingMsgType);
    }
    return None;
  }

  /** The loop body of `parse`: reads a field, checks the structural tags, files it. */
  method ParseField(view: MessageView, c: Cursor) returns (r: Result<Cursor, ParseError>)
    requires view.Valid() && c.pos <= |view.buffer| && view.Entries() == c.entries
    modifies view, view.fields
    ensures view.Valid() && r == Advance(view.buffer, c)
    ensures r.Ok? ==> view.Entries() == r.value.entries
  {
    var s := ReadField(view.buffer, c.pos);
    match s {
      case Broken(error) => r := Err(error);
      case Scanned(tag, start, end) =>
        var wrong := CheckStructure(c.fieldNum, tag);
        if wrong.Some? {
          return Err(wrong.value);
        }
        var stated, bodyStart := c.stated, c.bodyStart;
        if c.fieldNum == 1 {
          stated := ReadLength(view.buffer[start..end]);
          bodyStart := end + 1;
        }
        view.AddField(tag, Wrap32(start), Wrap16(end - start));
        r := Ok(Cursor(end + 1, c.fieldNum + 1, bodyStart, stated,
                       AddEntry(c.entries, FieldEntry(tag, Wrap32(start), Wrap16(end - start))), tag == CHECKSUM));
    }
  }

  method ParseFields(view: MessageView) returns (r: Result<Cursor, ParseError>)
    requires view.Valid() && view.Entries() == []
    modifies view, view.fields
    ensures view.Valid() && r == Run(view.buffer, START)
    ensures r.Ok? ==> view.Entries() == r.value.entries
  {
    var c := START;
    while c.pos < |view.buffer| && !c.done
      invariant view.Valid() && c.pos <= |view.buffer| && view.Entries() == c.entries
      invariant Run(view.buffer, START) == Run(view.buffer, c)
      decreases |view.buffer| - c.pos
    {
      var next := ParseField(view, c);
      if next.Err? {
        return next;
      }
      c := next.value;
    }
    return Ok(c);
  }

  method Check(p: FixParser, buf: seq<byte>, c: Cursor) returns (wrong: Option<ParseError>)
    requires c.pos <= |buf|
    ensures wrong == Verdict(p, buf, c)
  {
    if p.validateBodyLength && c.bodyStart > 0 {
      var trailer := FindChecksumTagStart(buf, c.pos);
      if trailer > 0 && Wrap64(trailer - c.bodyStart) != c.stated {
        return Some(InvalidBodyLength);
      }
    }
    if p.validateChecksum {
      var valid := Checksum.Validate(buf[..c.pos]);
      if !valid {
        return Some(InvalidChecksum);
      }
    }
    return None;
  }

  method ParseMessage(p: FixParser, buf: seq<byte>) returns (r: Result<(MessageView, nat), ParseError>)
    ensures r.Err? ==> Parse(p, buf) == Err(r.error)
    ensures r.Ok? ==> var (view, consumed) := r.value;
      fresh(view) && view.Valid() && InBounds(buf, view.Entries()) && view.buffer == buf && view.checksumValid
      && Parse(p, buf) == Ok(Parsed(view.Entries(), consumed))
  {
    if |buf| < 20 {
      return Err(BufferTooShort);
    }
    if |buf| > p.maxMessageSize {
      return Err(MessageTooLarge);
    }
    var view := new MessageView(buf);
    var scan := ParseFields(view);
    if scan.Err? {
      return Err(scan.error);
    }
    var wrong := Check(p, buf, scan.value);
    if wrong.Some? {
      return Err(wrong.value);
    }
    view.checksumValid := true;
    return Ok((view, scan.value.pos));
  }

  /** SOH, "10=", any three bytes, SOH. */
  predicate BoundaryAt(buf: seq<byte>, i: nat) {
    i + 8 <= |buf| && Checksum.TrailerAt(buf, i) && buf[i + 7] == SOH
  }

  function BoundaryFrom(buf: seq<byte>, i: nat): (r: Option<nat>)
    requires i <= |buf|
    ensures r.Some? ==> i + 8 <= r.value <= |buf| && BoundaryAt(buf, r.value - 8)
    ensures forall k :: i <= k && (r.Some? ==> k + 8 < r.value) ==> !BoundaryAt(buf, k)
    decreases |buf| - i
  {
    if i + 8 > |buf| then None
    else if BoundaryAt(buf, i) then Some(i + 8)
    else BoundaryFrom(buf, i + 1)
  }

  /** Length of the first complete message, by its trailer pattern alone. */
  function Boundary(buf: seq<byte>): (r: Option<nat>)
    ensures r.Some? ==> 8 <= r.value <= |buf|
  {
    BoundaryFrom(buf, 0)
  }

  method FindMessageBoundary(buf: seq<byte>) returns (r: Option<nat>)
    ensures r == Boundary(buf)
  {
    var len := |buf|;
    if len < 7 {
      return None;
    }
    var i := 0;
    while i + 8 <= len
      invariant i <= len && Boundary(buf) == BoundaryFrom(buf, i)
    {
      if buf[i] == SOH && buf[i + 1] == 0x31 && buf[i + 2] == 0x30 && buf[i + 3] == EQUALS && buf[i + 7] == SOH {
        return Some(i + 8);
      }
      i := i + 1;
    }
    return None;
  }
}
