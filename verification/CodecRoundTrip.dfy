/** The parser inverts the serializer: `Parse` on the bytes of `Encode`, trailing bytes allowed. */
module CodecRoundTrip {
  import opened Bytes
  import opened Decimal
  import opened Message
  import opened WireFormat
  import opened Parser
  import Checksum

  predicate SohFree(s: seq<byte>) { SOH !in s }

  /** Values hold no delimiter and no field is a trailer. */
  predicate Clean(fs: seq<Field>) {
    forall f :: f in fs ==> SohFree(f.value) && f.tag != CHECKSUM
  }

  /** The index entry of a field printed at offset `base`. */
  function EntryOf(base: nat, f: Field): FieldEntry {
    FieldEntry(f.tag, Wrap32(base + |Digits(f.tag)| + 1), Wrap16(|f.value|))
  }

  /** The index entries of fields printed from offset `base` on. */
  function EntriesOf(base: nat, fs: seq<Field>): (es: seq<FieldEntry>)
    ensures |es| == |fs|
    decreases fs
  {
    if fs == [] then []
    else
      [EntryOf(base, fs[0])] + EntriesOf(base + |FieldBytes(fs[0])|, fs[1..])
  }

  function AddAll(es: seq<FieldEntry>, more: seq<FieldEntry>): seq<FieldEntry>
    decreases more
  {
    if more == [] then es else AddAll(AddEntry(es, more[0]), more[1..])
  }

  function Keep<T>(s: seq<T>): seq<T> {
    if |s| <= MAX_FIELDS then s else s[..MAX_FIELDS]
  }

  lemma {:induction false} AddAllKeeps(es: seq<FieldEntry>, more: seq<FieldEntry>)
    requires |es| <= MAX_FIELDS
    ensures AddAll(es, more) == Keep(es + more)
    decreases more
  {
    if more != [] {
      AddAllKeeps(AddEntry(es, more[0]), more[1..]);
      assert es + more == (es + [more[0]]) + more[1..];
    } else {
      assert es + more == es;
    }
  }

  lemma Regroup(a: seq<byte>, b: seq<byte>, c: seq<byte>, d: seq<byte>)
    ensures a + (b + c) + d == (a + b) + c + d
    ensures a + (b + c) + d == a + b + (c + d)
  {
  }

  lemma FirstFromIs(buf: seq<byte>, pos: nat, b: byte, k: nat)
    requires pos <= k < |buf| && buf[k] == b && b !in buf[pos..k]
    ensures FirstFrom(buf, pos, b) == k
  {
    forall i | pos <= i < k ensures buf[i] != b {
      assert buf[pos..k][i - pos] == buf[i];
    }
  }

  /** A printed field is read back, whatever surrounds it. */
  lemma ScanPrinted(pre: seq<byte>, f: Field, post: seq<byte>)
    requires SohFree(f.value)
    ensures var start := |pre| + |Digits(f.tag)| + 1;
      ScanField(pre + FieldBytes(f) + post, |pre|) == Scanned(f.tag, start, start + |f.value|)
  {
    var buf := pre + FieldBytes(f) + post;
    var d := Digits(f.tag);
    var start := |pre| + |d| + 1;
    DigitsValue(f.tag);
    assert buf[|pre|..start - 1] == d;
    FirstFromIs(buf, |pre|, EQUALS, start - 1);
    assert buf[start..start + |f.value|] == f.value;
    FirstFromIs(buf, start, SOH, start + |f.value|);
  }

  /** The cursor after one printed field. */
  function Next(c: Cursor, f: Field): Cursor {
    var end := c.pos + |FieldBytes(f)|;
    var second := c.fieldNum == 1;
    Cursor(end, c.fieldNum + 1, if second then end else c.bodyStart, if second then StatedLength(f.value) else c.stated,
           AddAll(c.entries, EntriesOf(c.pos, [f])), f.tag == CHECKSUM)
  }

  lemma AdvancePrinted(pre: seq<byte>, f: Field, post: seq<byte>, c: Cursor)
    requires SohFree(f.value) && c.pos == |pre| && Structural(c.fieldNum, f.tag).None?
    ensures Advance(pre + FieldBytes(f) + post, c) == Ok(Next(c, f))
  {
    var buf := pre + FieldBytes(f) + post;
    ScanPrinted(pre, f, post);
    var start := |pre| + |Digits(f.tag)| + 1;
    assert buf[start..start + |f.value|] == f.value;
    var e := EntryOf(c.pos, f);
    assert EntriesOf(c.pos, [f]) == [e] + EntriesOf(c.pos + |FieldBytes(f)|, []);
    assert AddAll(c.entries, [e]) == AddAll(AddEntry(c.entries, e), []);
  }

  /** The cursor after a list of printed fields. */
  function NextAll(c: Cursor, fs: seq<Field>): Cursor
    decreases fs
  {
    if fs == [] then c else NextAll(Next(c, fs[0]), fs[1..])
  }

  /** The tag order `parse` insists on, from field number `num` on. */
  predicate InOrder(num: nat, fs: seq<Field>) {
    forall k :: 0 <= k < |fs| ==> Structural(num + k, fs[k].tag).None?
  }

  /** The loop runs through printed fields up to and including the trailer, and stops there. */
  lemma {:induction false} RunPrinted(buf: seq<byte>, pre: seq<byte>, fs: seq<Field>, last: Field,
                                      post: seq<byte>, c: Cursor)
    requires Clean(fs) && last.tag == CHECKSUM && SohFree(last.value)
    requires c.pos == |pre| && !c.done && InOrder(c.fieldNum, fs + [last])
    requires buf == pre + FieldsBytes(fs + [last]) + post
    ensures Run(buf, c) == Ok(NextAll(c, fs + [last]))
    decreases fs
  {
    var all := fs + [last];
    var f := all[0];
    var rest := FieldsBytes(all[1..]) + post;
    Regroup(pre, FieldBytes(f), FieldsBytes(all[1..]), post);
    assert Structural(c.fieldNum + 0, all[0].tag).None?;
    AdvancePrinted(pre, f, rest, c);
    if fs == [] {
      assert all[1..] == [];
      assert NextAll(c, all) == NextAll(Next(c, f), []);
    } else {
      assert all[1..] == fs[1..] + [last];
      InOrderTail(c.fieldNum, all);
      RunPrinted(buf, pre + FieldBytes(f), fs[1..], last, post, Next(c, f));
    }
  }

  lemma InOrderTail(num: nat, fs: seq<Field>)
    requires fs != [] && InOrder(num, fs)
    ensures InOrder(num + 1, fs[1..])
  {
    forall k | 0 <= k < |fs[1..]| ensures Structural(num + 1 + k, fs[1..][k].tag).None? {
      assert Structural(num + (k + 1), fs[k + 1].tag).None?;
    }
  }

  /** Where the loop stands after all fields: how far, with which entries. */
  lemma {:induction false} NextAllSums(c: Cursor, fs: seq<Field>)
    ensures NextAll(c, fs).pos == c.pos + |FieldsBytes(fs)|
    ensures c.fieldNum >= 2 ==> NextAll(c, fs).bodyStart == c.bodyStart && NextAll(c, fs).stated == c.stated
    decreases fs
  {
    if fs != [] {
      NextAllSums(Next(c, fs[0]), fs[1..]);
    }
  }

  lemma {:induction false} NextAllEntries(c: Cursor, fs: seq<Field>)
    ensures NextAll(c, fs).entries == AddAll(c.entries, EntriesOf(c.pos, fs))
    decreases fs
  {
    if fs != [] {
      NextAllEntries(Next(c, fs[0]), fs[1..]);
      var e := EntriesOf(c.pos, fs);
      assert EntriesOf(c.pos, [fs[0]]) == [e[0]] + EntriesOf(c.pos + |FieldBytes(fs[0])|, []);
      assert AddAll(c.entries, [e[0]]) == AddAll(AddEntry(c.entries, e[0]), []);
      assert e[1..] == EntriesOf(c.pos + |FieldBytes(fs[0])|, fs[1..]);
    }
  }

  /** An SOH inside printed fields ends one of them: another field starts right after it. */
  lemma {:induction false} SohEndsField(fs: seq<Field>, i: nat) returns (j: nat)
    requires forall f :: f in fs ==> SohFree(f.value)
    requires i + 1 < |FieldsBytes(fs)| && FieldsBytes(fs)[i] == SOH
    ensures 0 < j < |fs| && |FieldsBytes(fs[..j])| == i + 1
  {
    var head := FieldBytes(fs[0]);
    assert FieldsBytes(fs) == head + FieldsBytes(fs[1..]);
    FieldInside(fs[0]);
    if i < |head| {
      assert i == |head| - 1;
      assert fs[..1] == [fs[0]] && FieldsBytes([fs[0]]) == head + FieldsBytes([]);
      j := 1;
    } else {
      var k := SohEndsField(fs[1..], i - |head|);
      j := k + 1;
      assert fs[..j][1..] == fs[1..][..k];
    }
  }

  /** Within one printed field, '=' stands right after the tag digits and SOH only at the end. */
  lemma FieldInside(f: Field)
    requires SohFree(f.value)
    ensures var d := |Digits(f.tag)|; var b := FieldBytes(f);
      && b[..d] == Digits(f.tag) && AllDigits(b[..d]) && b[d] == EQUALS && b[|b| - 1] == SOH
      && (forall k :: 0 <= k < |b| - 1 ==> b[k] != SOH)
  {
    DigitsValue(f.tag);
    var d := |Digits(f.tag)|;
    var b := FieldBytes(f);
    assert b[d + 1..|b| - 1] == f.value;
    forall k | 0 <= k < |b| - 1 ensures b[k] != SOH {
      if k < d {
        assert IsDigit(b[..d][k]);
      } else if k > d {
        assert b[d + 1..|b| - 1][k - d - 1] == b[k];
      }
    }
  }

  /** Only a field with tag 10 begins with "10=". */
  lemma NotATrailer(pre: seq<byte>, f: Field, post: seq<byte>)
    requires SohFree(f.value) && f.tag != CHECKSUM && pre != []
    ensures !Checksum.TrailerAt(pre + FieldBytes(f) + post, |pre| - 1)
  {
    var buf := pre + FieldBytes(f) + post;
    var d := |Digits(f.tag)|;
    FieldInside(f);
    DigitsValue(f.tag);
    SmallTags();
    assert forall k :: 0 <= k < |FieldBytes(f)| ==> buf[|pre| + k] == FieldBytes(f)[k];
    assert forall k :: 0 <= k < d ==> IsDigit(FieldBytes(f)[..d][k]);
    DigitsValue(10);
    assert Digits(f.tag) != Digits(10);
  }

  /** Printed fields cut in front of the `j`-th. */
  lemma CutAt(fs: seq<Field>, post: seq<byte>, j: nat)
    requires j < |fs|
    ensures FieldsBytes(fs) + post
      == FieldsBytes(fs[..j]) + FieldBytes(fs[j]) + (FieldsBytes(fs[j + 1..]) + post)
  {
    assert fs == fs[..j] + fs[j..];
    FieldsBytesAppend(fs[..j], fs[j..]);
    assert fs[j..][1..] == fs[j + 1..];
    Regroup(FieldsBytes(fs[..j]), FieldBytes(fs[j]), FieldsBytes(fs[j + 1..]), post);
  }

  /** No trailer pattern starts before the last byte of clean printed fields. */
  lemma NoEarlyTrailer(fs: seq<Field>, post: seq<byte>, i: nat)
    requires Clean(fs) && i + 1 < |FieldsBytes(fs)|
    ensures !Checksum.TrailerAt(FieldsBytes(fs) + post, i)
  {
    if FieldsBytes(fs)[i] == SOH {
      var j := SohEndsField(fs, i);
      CutAt(fs, post, j);
      NotATrailer(FieldsBytes(fs[..j]), fs[j], FieldsBytes(fs[j + 1..]) + post);
    }
  }

  /** `open` is a finished message without its trailer, `digits` the three checksum digits. */
  function Trailer(digits: seq<byte>): seq<byte> {
    [0x31, 0x30, EQUALS] + digits + [SOH]
  }

  lemma EndsWithSoh(fs: seq<Field>)
    requires fs != []
    ensures FieldsBytes(fs) != [] && FieldsBytes(fs)[|FieldsBytes(fs)| - 1] == SOH
  {
    var n := |fs| - 1;
    assert fs == fs[..n] + [fs[n]];
    FieldsBytesSnoc(fs[..n], fs[n]);
  }

  /** Searching backwards from the end of a message finds its own trailer. */
  lemma TrailerFound(fs: seq<Field>, digits: seq<byte>, rest: seq<byte>)
    requires Clean(fs) && fs != [] && |digits| == 3
    ensures var open := FieldsBytes(fs);
      Checksum.LastTrailer(open + Trailer(digits) + rest, |open| + 3) == |open|
  {
    var open := FieldsBytes(fs);
    var buf := open + Trailer(digits) + rest;
    EndsWithSoh(fs);
    assert Checksum.TrailerAt(buf, |open| - 1);
    var start := Checksum.LastTrailer(buf, |open| + 3);
    assert buf[|open|..|open| + 3] == [0x31, 0x30, EQUALS];
    assert !Checksum.TrailerAt(buf, |open|) && !Checksum.TrailerAt(buf, |open| + 1)
        && !Checksum.TrailerAt(buf, |open| + 2);
  }

  /** Searching forwards finds the same place first. */
  lemma BoundaryFound(fs: seq<Field>, digits: seq<byte>, rest: seq<byte>)
    requires Clean(fs) && fs != [] && |digits| == 3
    ensures var msg := FieldsBytes(fs) + Trailer(digits);
      Boundary(msg + rest) == Some(|msg|)
  {
    var open := FieldsBytes(fs);
    var buf := open + Trailer(digits) + rest;
    EndsWithSoh(fs);
    assert buf == open + (Trailer(digits) + rest);
    forall i: nat | i + 1 < |open| ensures !BoundaryAt(buf, i) {
      NoEarlyTrailer(fs, Trailer(digits) + rest, i);
    }
    assert BoundaryAt(buf, |open| - 1);
  }

  lemma {:induction false} LengthValue(s: seq<byte>)
    requires AllDigits(s)
    ensures StatedLength(s) == Wrap64(Value(s))
  {
    if s != [] {
      LengthValue(s[..|s| - 1]);
      WrapStep(Value(s[..|s| - 1]), s[|s| - 1] - ZERO);
    }
  }

  /** Six digits state a body length faithfully exactly when it is below one million. */
  lemma StatedFaithful(n: nat)
    requires n < TWO_64
    ensures StatedLength(Fixed(6, n)) == n <==> n < 1_000_000
  {
    FixedValue(6, n);
    LengthValue(Fixed(6, n));
    PowersOfTen();
    BelowMillion(n);
  }

  lemma BelowMillion(n: nat)
    ensures Wrap64(n % 1_000_000) == n <==> n < 1_000_000
  {
  }

  /** The finished message is the unsealed fields and a trailer that states their sum. */
  lemma EncodeParts(bs: seq<byte>, mt: seq<byte>, fs: seq<Field>)
    ensures var open := FieldsBytes(Unsealed(bs, mt, fs));
      Encode(bs, mt, fs) == open + Trailer(Fixed(3, Checksum.Sum(open) % 256))
  {
    EncodeTrailer(bs, mt, fs);
  }

  lemma UnsealedClean(bs: seq<byte>, mt: seq<byte>, fs: seq<Field>)
    requires SohFree(bs) && SohFree(mt) && Clean(fs)
    ensures Clean(Unsealed(bs, mt, fs))
    ensures InOrder(0, Sealed(bs, mt, fs))
    ensures SohFree(TrailerField(FieldsBytes(Unsealed(bs, mt, fs))).value)
  {
    var n := |BodyBytes(mt, fs)|;
    FixedValue(6, n);
    assert SohFree(Fixed(6, n)) by { assert forall b :: b in Fixed(6, n) ==> IsDigit(b); }
    var cs := Checksum.Sum(FieldsBytes(Unsealed(bs, mt, fs))) % 256;
    FixedValue(3, cs);
    assert SohFree(Fixed(3, cs)) by { assert forall b :: b in Fixed(3, cs) ==> IsDigit(b); }
  }

  /** The checksum verdict on a finished message. */
  lemma ChecksumAccepts(open: seq<byte>, fs: seq<Field>)
    requires Clean(fs) && fs != [] && open == FieldsBytes(fs)
    ensures Checksum.Valid(open + Trailer(Fixed(3, Checksum.Sum(open) % 256)))
  {
    var cs := Checksum.Sum(open) % 256;
    TrailerFound(fs, Fixed(3, cs), []);
    assert open + Trailer(Fixed(3, cs)) + [] == open + Trailer(Fixed(3, cs));
    VerdictOn(open, cs);
    EndsWithSoh(fs);
  }

  /** The parse loop over a finished message goes through every field and stops at its end. */
  lemma RunSealed(buf: seq<byte>, open: seq<Field>, last: Field, rest: seq<byte>, c: Cursor)
    requires Clean(open) && last.tag == CHECKSUM && SohFree(last.value) && InOrder(0, open + [last])
    requires c.pos == c.fieldNum == 0 && !c.done
    requires buf == FieldsBytes(open + [last]) + rest
    ensures Run(buf, c) == Ok(NextAll(c, open + [last]))
  {
    RunPrinted(buf, [], open, last, rest, c);
  }

  /** After BeginString and BodyLength the cursor knows where the body starts. */
  lemma HeaderSteps(bs: seq<byte>, mt: seq<byte>, fs: seq<Field>)
    ensures var c := NextAll(START, Sealed(bs, mt, fs));
      c.bodyStart == |Reserved(bs, 0)| && c.stated == StatedLength(Fixed(6, |BodyBytes(mt, fs)|))
  {
    var all := Sealed(bs, mt, fs);
    var f8, f9 := all[0], all[1];
    var c1 := Next(START, f8);
    var c2 := Next(c1, f9);
    SmallTags();
    assert c2.bodyStart == |FieldBytes(f8)| + |FieldBytes(f9)| == |Reserved(bs, 0)|;
    assert NextAll(START, all) == NextAll(c1, all[1..]);
    assert NextAll(c1, all[1..]) == NextAll(c2, all[1..][1..]);
    NextAllSums(c2, all[1..][1..]);
  }

  lemma EntriesEncoded(bs: seq<byte>, mt: seq<byte>, fs: seq<Field>)
    ensures NextAll(START, Sealed(bs, mt, fs)).entries == Keep(EntriesOf(0, Sealed(bs, mt, fs)))
  {
    var es := EntriesOf(0, Sealed(bs, mt, fs));
    NextAllEntries(START, Sealed(bs, mt, fs));
    AddAllKeeps([], es);
    assert [] + es == es;
  }

  lemma EncodeLength(bs: seq<byte>, mt: seq<byte>, fs: seq<Field>)
    ensures |Encode(bs, mt, fs)| == |Reserved(bs, 0)| + |BodyBytes(mt, fs)| + 7
    ensures |FieldsBytes(Unsealed(bs, mt, fs))| == |Reserved(bs, 0)| + |BodyBytes(mt, fs)|
    ensures |Encode(bs, mt, fs)| >= 20
  {
    EncodeParts(bs, mt, fs);
    EncodeShape(bs, mt, fs);
    SmallTags();
    assert |BodyBytes(mt, fs)| >= |FieldBytes(Field(MSG_TYPE, mt))|;
  }

  lemma TrailerStartEncoded(bs: seq<byte>, mt: seq<byte>, fs: seq<Field>, rest: seq<byte>)
    requires SohFree(bs) && SohFree(mt) && Clean(fs)
    ensures TrailerStart(Encode(bs, mt, fs) + rest, |Encode(bs, mt, fs)|)
      == |Reserved(bs, 0)| + |BodyBytes(mt, fs)|
  {
    var open := Unsealed(bs, mt, fs);
    UnsealedClean(bs, mt, fs);
    EncodeParts(bs, mt, fs);
    EncodeLength(bs, mt, fs);
    TrailerFound(open, Fixed(3, Checksum.Sum(FieldsBytes(open)) % 256), rest);
  }

  lemma ValidEncoded(bs: seq<byte>, mt: seq<byte>, fs: seq<Field>)
    requires SohFree(bs) && SohFree(mt) && Clean(fs)
    ensures Checksum.Valid(Encode(bs, mt, fs))
  {
    UnsealedClean(bs, mt, fs);
    EncodeParts(bs, mt, fs);
    ChecksumAccepts(FieldsBytes(Unsealed(bs, mt, fs)), Unsealed(bs, mt, fs));
  }

  lemma VerdictIs(p: FixParser, msg: seq<byte>, rest: seq<byte>, c: Cursor, trailer: nat)
    requires c.pos == |msg| && Checksum.Valid(msg) && TrailerStart(msg + rest, |msg|) == trailer
    requires 0 < c.bodyStart <= trailer < TWO_64
    ensures Verdict(p, msg + rest, c)
      == if p.validateBodyLength && trailer - c.bodyStart != c.stated then Some(InvalidBodyLength) else None
  {
    assert (msg + rest)[..|msg|] == msg;
  }

  /** The validations of a finished message: only a body of a million bytes or more, whose length
      six digits cannot state, is turned away. */
  lemma VerdictEncoded(p: FixParser, bs: seq<byte>, mt: seq<byte>, fs: seq<Field>, rest: seq<byte>, c: Cursor)
    requires SohFree(bs) && SohFree(mt) && Clean(fs)
    requires |Reserved(bs, 0)| + |BodyBytes(mt, fs)| < TWO_64
    requires c.pos == |Encode(bs, mt, fs)| && c.bodyStart == |Reserved(bs, 0)|
    requires c.stated == StatedLength(Fixed(6, |BodyBytes(mt, fs)|))
    ensures Verdict(p, Encode(bs, mt, fs) + rest, c)
      == if p.validateBodyLength && |BodyBytes(mt, fs)| >= 1_000_000 then Some(InvalidBodyLength) else None
  {
    TrailerStartEncoded(bs, mt, fs, rest);
    ValidEncoded(bs, mt, fs);
    StatedFaithful(|BodyBytes(mt, fs)|);
    VerdictIs(p, Encode(bs, mt, fs), rest, c, |Reserved(bs, 0)| + |BodyBytes(mt, fs)|);
  }

  /** Parsing a finished message followed by anything: accepted exactly when six digits can state
      its body length (or nobody checks), and then exactly its own bytes are consumed. */
  lemma ParseEncoded(p: FixParser, bs: seq<byte>, mt: seq<byte>, fs: seq<Field>, rest: seq<byte>)
    requires SohFree(bs) && SohFree(mt) && Clean(fs)
    requires |Encode(bs, mt, fs) + rest| <= p.maxMessageSize < TWO_64
    ensures Parse(p, Encode(bs, mt, fs) + rest)
      == if p.validateBodyLength && |BodyBytes(mt, fs)| >= 1_000_000 then Err(InvalidBodyLength)
         else Ok(Parsed(Keep(EntriesOf(0, Sealed(bs, mt, fs))), |Encode(bs, mt, fs)|))
  {
    EncodeLength(bs, mt, fs);
    UnsealedClean(bs, mt, fs);
    RunSealed(Encode(bs, mt, fs) + rest, Unsealed(bs, mt, fs), TrailerField(FieldsBytes(Unsealed(bs, mt, fs))),
              rest, START);
    NextAllSums(START, Sealed(bs, mt, fs));
    HeaderSteps(bs, mt, fs);
    EntriesEncoded(bs, mt, fs);
    VerdictEncoded(p, bs, mt, fs, rest, NextAll(START, Sealed(bs, mt, fs)));
  }

  lemma ResolveCons(buf: seq<byte>, e: FieldEntry, es: seq<FieldEntry>)
    requires e.offset + e.length <= |buf| && InBounds(buf, es)
    ensures InBounds(buf, [e] + es)
    ensures Resolve(buf, [e] + es) == [Field(e.tag, FieldValue(buf, e))] + Resolve(buf, es)
  {
  }

  lemma HeadResolves(buf: seq<byte>, pre: seq<byte>, f: Field, post: seq<byte>)
    requires buf == pre + FieldBytes(f) + post && |buf| <= 65_536
    ensures var e := EntryOf(|pre|, f);
      e.offset + e.length <= |buf| && Field(e.tag, FieldValue(buf, e)) == f
  {
    var start := |pre| + |Digits(f.tag)| + 1;
    assert buf[start..start + |f.value|] == f.value;
  }

  /** Index entries of printed fields stand for those fields, as long as offsets and lengths fit
      their 32 and 16 bits. */
  lemma {:induction false} EntriesResolve(buf: seq<byte>, pre: seq<byte>, fs: seq<Field>, post: seq<byte>)
    requires buf == pre + FieldsBytes(fs) + post && |buf| <= 65_536
    ensures InBounds(buf, EntriesOf(|pre|, fs)) && Resolve(buf, EntriesOf(|pre|, fs)) == fs
    decreases fs
  {
    if fs != [] {
      var f := fs[0];
      var next := pre + FieldBytes(f);
      Regroup(pre, FieldBytes(f), FieldsBytes(fs[1..]), post);
      EntriesResolve(buf, next, fs[1..], post);
      HeadResolves(buf, pre, f, FieldsBytes(fs[1..]) + post);
      ResolveCons(buf, EntryOf(|pre|, f), EntriesOf(|next|, fs[1..]));
      EntriesStep(|pre|, |next|, fs);
      assert fs == [f] + fs[1..];
    }
  }

  lemma EntriesStep(base: nat, next: nat, fs: seq<Field>)
    requires fs != [] && next == base + |FieldBytes(fs[0])|
    ensures EntriesOf(base, fs) == [EntryOf(base, fs[0])] + EntriesOf(next, fs[1..])
  {
  }

  lemma ResolveKeep(buf: seq<byte>, es: seq<FieldEntry>)
    requires InBounds(buf, es)
    ensures InBounds(buf, Keep(es)) && Resolve(buf, Keep(es)) == Keep(Resolve(buf, es))
  {
  }

  lemma ResolvePrinted(all: seq<Field>, rest: seq<byte>)
    requires |FieldsBytes(all) + rest| <= 65_536
    ensures var buf := FieldsBytes(all) + rest; var es := Keep(EntriesOf(0, all));
      InBounds(buf, es) && Resolve(buf, es) == Keep(all)
  {
    EntriesResolve(FieldsBytes(all) + rest, [], all, rest);
    ResolveKeep(FieldsBytes(all) + rest, EntriesOf(0, all));
  }

  /** The round trip: with both validations on, the tag/value list read back is the one written,
      tags 8, 9 and 35 in front and 10 at the end (its first 512 fields if it is longer). */
  lemma RoundTrip(bs: seq<byte>, mt: seq<byte>, fs: seq<Field>, rest: seq<byte>)
    requires SohFree(bs) && SohFree(mt) && Clean(fs)
    requires |Encode(bs, mt, fs) + rest| <= DEFAULT.maxMessageSize
    ensures var buf := Encode(bs, mt, fs) + rest; var r := Parse(DEFAULT, buf);
      r.Ok? && r.value.consumed == |Encode(bs, mt, fs)| && Resolve(buf, r.value.entries) == Keep(Sealed(bs, mt, fs))
  {
    ParseEncoded(DEFAULT, bs, mt, fs, rest);
    EncodeLength(bs, mt, fs);
    ResolvePrinted(Sealed(bs, mt, fs), rest);
  }

  /** A finished message is one frame: the boundary search stops exactly at its end. */
  lemma EncodedBoundary(bs: seq<byte>, mt: seq<byte>, fs: seq<Field>, rest: seq<byte>)
    requires SohFree(bs) && SohFree(mt) && Clean(fs)
    ensures Boundary(Encode(bs, mt, fs) + rest) == Some(|Encode(bs, mt, fs)|)
  {
    UnsealedClean(bs, mt, fs);
    EncodeParts(bs, mt, fs);
    var open := Unsealed(bs, mt, fs);
    BoundaryFound(open, Fixed(3, Checksum.Sum(FieldsBytes(open)) % 256), rest);
  }

  /** A field that ends right behind a would-be trailer pattern is too short to spell its tag. */
  lemma LastFieldShort(buf: seq<byte>, f: Field, i: nat, n: nat, b: byte)
    requires SohFree(f.value) && i + 1 + |FieldBytes(f)| <= n <= |buf| && i + 4 >= n
    requires forall k :: 0 <= k < |FieldBytes(f)| ==> buf[i + 1 + k] == FieldBytes(f)[k]
    ensures !Checksum.TrailerAt(buf[n - 1 := b], i)
  {
    assert |Digits(f.tag)| == 1 && FieldBytes(f)[1] == EQUALS;
    assert buf[i + 2] == EQUALS;
  }

  /** Destroying the SOH in front of the trailer leaves no other trailer to find. */
  lemma NoTrailerWithoutSoh(fs: seq<Field>, post: seq<byte>, b: byte, i: nat)
    requires Clean(fs) && i + 1 < |FieldsBytes(fs)| && b != SOH
    ensures !Checksum.TrailerAt((FieldsBytes(fs) + post)[|FieldsBytes(fs)| - 1 := b], i)
  {
    var n := |FieldsBytes(fs)|;
    var buf := FieldsBytes(fs) + post;
    NoEarlyTrailer(fs, post, i);
    if i + 4 >= n && buf[i] == SOH {
      var j := SohEndsField(fs, i);
      CutAt(fs, post, j);
      LastFieldShort(buf, fs[j], i, n, b);
    }
  }

  /** Any single changed byte in front of the trailer's tag makes the checksum verdict negative. */
  lemma ChangeRejected(bs: seq<byte>, mt: seq<byte>, fs: seq<Field>, k: nat, b: byte)
    requires SohFree(bs) && SohFree(mt) && Clean(fs)
    requires k < |Encode(bs, mt, fs)| - 7 && b != Encode(bs, mt, fs)[k]
    ensures !Checksum.Valid(Encode(bs, mt, fs)[k := b])
  {
    var fields := Unsealed(bs, mt, fs);
    UnsealedClean(bs, mt, fs);
    EncodeParts(bs, mt, fs);
    ChangeRejectedIn(fields, k, b);
  }

  lemma ChangeRejectedIn(fs: seq<Field>, k: nat, b: byte)
    requires Clean(fs) && fs != [] && fs[0].tag == BEGIN_STRING && k < |FieldsBytes(fs)| && b != FieldsBytes(fs)[k]
    ensures !Checksum.Valid((FieldsBytes(fs) + Trailer(Fixed(3, Checksum.Sum(FieldsBytes(fs)) % 256)))[k := b])
  {
    var open := FieldsBytes(fs);
    var cs := Checksum.Sum(open) % 256;
    EndsWithSoh(fs);
    if k == |open| - 1 {
      StartsWithEight(fs);
      LostTrailer(fs, Trailer(Fixed(3, cs)), b);
    } else {
      ChangeInside(open, cs, k, b);
    }
  }

  lemma ChangeInside(open: seq<byte>, cs: byte, k: nat, b: byte)
    requires k + 1 < |open| && open[|open| - 1] == SOH && b != open[k] && cs == Checksum.Sum(open) % 256
    ensures !Checksum.Valid((open + Trailer(Fixed(3, cs)))[k := b])
  {
    KeptTrailer(open, Fixed(3, cs), k, b);
    Checksum.SumDetectsChange(open, k, b);
    ChangeCommutes(open, Trailer(Fixed(3, cs)), k, b);
    VerdictOn(open[k := b], cs);
  }

  lemma ChangeCommutes(open: seq<byte>, t: seq<byte>, k: nat, b: byte)
    requires k < |open|
    ensures (open + t)[k := b] == open[k := b] + t
  {
  }

  /** Where the search finds `open`'s end, the verdict compares its sum with the stated digits. */
  lemma VerdictOn(open: seq<byte>, cs: byte)
    requires var msg := open + Trailer(Fixed(3, cs));
      open != [] && Checksum.LastTrailer(msg, |open| + 3) == |open|
    ensures Checksum.Valid(open + Trailer(Fixed(3, cs))) <==> Checksum.Sum(open) % 256 == cs
  {
    var msg := open + Trailer(Fixed(3, cs));
    assert msg[..|open|] == open;
    assert msg[|open| + 3..|open| + 6] == Fixed(3, cs);
    Checksum.StatedRoundTrip(msg, |open| + 3, cs);
  }

  lemma StartsWithEight(fs: seq<Field>)
    requires fs != [] && fs[0].tag == BEGIN_STRING
    ensures |FieldsBytes(fs)| >= 3 && FieldsBytes(fs)[0] == 0x38
  {
    SmallTags();
    assert FieldBytes(fs[0])[0] == Digits(8)[0];
  }

  lemma LostTrailer(fs: seq<Field>, trailer: seq<byte>, b: byte)
    requires Clean(fs) && |FieldsBytes(fs)| >= 3 && FieldsBytes(fs)[0] == 0x38 && b != SOH
    requires |trailer| == 7 && trailer[..3] == [0x31, 0x30, EQUALS]
    ensures !Checksum.Valid((FieldsBytes(fs) + trailer)[|FieldsBytes(fs)| - 1 := b])
  {
    var n := |FieldsBytes(fs)|;
    var msg := (FieldsBytes(fs) + trailer)[n - 1 := b];
    forall i: nat | i < n + 3 ensures !Checksum.TrailerAt(msg, i) {
      if i + 1 < n {
        NoTrailerWithoutSoh(fs, trailer, b, i);
      } else {
        assert msg[n..n + 3] == trailer[..3];
      }
    }
    assert Checksum.LastTrailer(msg, n + 3) == 0;
  }

  /** A change elsewhere leaves the trailer where it is. */
  lemma KeptTrailer(open: seq<byte>, digits: seq<byte>, k: nat, b: byte)
    requires k + 1 < |open| && open[|open| - 1] == SOH && |digits| == 3
    ensures Checksum.LastTrailer((open + Trailer(digits))[k := b], |open| + 3) == |open|
  {
    var t := Trailer(digits);
    assert t[0] == 0x31 && t[1] == 0x30 && t[2] == EQUALS;
    TrailerStays((open + t)[k := b], open, t, k, b);
  }

  lemma TrailerStays(msg: seq<byte>, open: seq<byte>, t: seq<byte>, k: nat, b: byte)
    requires k + 1 < |open| && open[|open| - 1] == SOH && |t| == 7 && t[0] == 0x31 && t[1] == 0x30 && t[2] == EQUALS
    requires msg == (open + t)[k := b]
    ensures Checksum.LastTrailer(msg, |open| + 3) == |open|
  {
    var n := |open|;
    assert msg[n - 1] == SOH && msg[n] == 0x31 && msg[n + 1] == 0x30 && msg[n + 2] == EQUALS;
    OnlyTrailerAt(msg, n);
  }

  lemma OnlyTrailerAt(msg: seq<byte>, n: nat)
    requires 0 < n && n + 3 <= |msg|
    requires msg[n - 1] == SOH && msg[n] == 0x31 && msg[n + 1] == 0x30 && msg[n + 2] == EQUALS
    ensures Checksum.LastTrailer(msg, n + 3) == n
  {
    assert Checksum.TrailerAt(msg, n - 1);
    var start := Checksum.LastTrailer(msg, n + 3);
    assert !Checksum.TrailerAt(msg, n) && !Checksum.TrailerAt(msg, n + 1) && !Checksum.TrailerAt(msg, n + 2);
  }
}
