/** What `parse` of `src/parser.rs` accepts and what it refuses, said of printed fields rather than of its loops. */
module ParserAccepts {
  import opened Bytes
  import opened Decimal
  import opened Message
  import opened Parser
  import opened WireFormat
  import opened CodecRoundTrip
  import Checksum

  /** A field as it stands on the wire: any digits may spell its tag. */
  datatype Raw = Raw(tag: seq<byte>, value: seq<byte>)

  function RawBytes(f: Raw): (s: seq<byte>)
    ensures |s| == |f.tag| + |f.value| + 2
  {
    f.tag + [EQUALS] + f.value + [SOH]
  }

  function Printed(fs: seq<Raw>): seq<byte> {
    if fs == [] then [] else RawBytes(fs[0]) + Printed(fs[1..])
  }

  predicate Good(f: Raw) { AllDigits(f.tag) && SohFree(f.value) }

  /** Tags are read modulo 2^32. */
  function TagOf(f: Raw): u32 { Wrap32(Value(f.tag)) }

  /** The first three tags. */
  predicate TagInPlace(k: nat, tag: u32) {
    (k == 0 ==> tag == 8) && (k == 1 ==> tag == 9) && (k == 2 ==> tag == 35)
  }

  /** Fields the loop reads one after the other from its `num`-th on, with no trailer among them. */
  predicate Readable(num: nat, fs: seq<Raw>) {
    forall k :: 0 <= k < |fs| ==> Good(fs[k]) && TagInPlace(num + k, TagOf(fs[k])) && TagOf(fs[k]) != 10
  }

  /** The bytes hold these fields from `pos` on. */
  predicate Holds(buf: seq<byte>, pos: nat, fs: seq<Raw>) {
    pos + |Printed(fs)| <= |buf| && buf[pos..pos + |Printed(fs)|] == Printed(fs)
  }

  // ----- one field -----

  lemma SliceOf(buf: seq<byte>, pos: nat, b: seq<byte>, i: nat, j: nat)
    requires pos + |b| <= |buf| && buf[pos..pos + |b|] == b && i <= j <= |b|
    ensures buf[pos + i..pos + j] == b[i..j] && (i < |b| ==> buf[pos + i] == b[i])
  {
    forall k | 0 <= k < |b| ensures buf[pos + k] == b[k] {
      assert buf[pos..pos + |b|][k] == b[k];
    }
  }

  lemma FieldHeld(buf: seq<byte>, pos: nat, f: Raw)
    requires pos + |RawBytes(f)| <= |buf| && buf[pos..pos + |RawBytes(f)|] == RawBytes(f)
    ensures var eq := pos + |f.tag|;
      buf[pos..eq] == f.tag && buf[eq] == EQUALS && buf[eq + 1..eq + 1 + |f.value|] == f.value
      && buf[eq + 1 + |f.value|] == SOH
  {
    var b := RawBytes(f);
    var d := |f.tag|;
    SliceOf(buf, pos, b, 0, d);
    SliceOf(buf, pos, b, d, d);
    SliceOf(buf, pos, b, d + 1, d + 1 + |f.value|);
    SliceOf(buf, pos, b, d + 1 + |f.value|, d + 1 + |f.value|);
    assert b[..d] == f.tag && b[d + 1..d + 1 + |f.value|] == f.value;
  }

  lemma NoEquals(s: seq<byte>)
    requires AllDigits(s)
    ensures EQUALS !in s
  {
  }

  lemma ScanHeld(buf: seq<byte>, pos: nat, f: Raw)
    requires Good(f) && pos + |RawBytes(f)| <= |buf| && buf[pos..pos + |RawBytes(f)|] == RawBytes(f)
    ensures ScanField(buf, pos) == Scanned(TagOf(f), pos + |f.tag| + 1, pos + |f.tag| + 1 + |f.value|)
  {
    var eq := pos + |f.tag|;
    FieldHeld(buf, pos, f);
    NoEquals(f.tag);
    FirstFromIs(buf, pos, EQUALS, eq);
    FirstFromIs(buf, eq + 1, SOH, eq + 1 + |f.value|);
  }

  lemma ScannedHeld(buf: seq<byte>, pos: nat) returns (f: Raw)
    requires pos <= |buf| && ScanField(buf, pos).Scanned?
    ensures Good(f) && pos + |RawBytes(f)| <= |buf| && buf[pos..pos + |RawBytes(f)|] == RawBytes(f)
  {
    var eq := FirstFrom(buf, pos, EQUALS);
    var soh := FirstFrom(buf, eq + 1, SOH);
    f := Raw(buf[pos..eq], buf[eq + 1..soh]);
    assert SohFree(f.value);
    assert buf[pos..soh + 1] == RawBytes(f);
  }

  // ----- one turn of the loop -----

  function Entry(base: nat, f: Raw): FieldEntry {
    FieldEntry(TagOf(f), Wrap32(base + |f.tag| + 1), Wrap16(|f.value|))
  }

  /** The index of fields printed from offset `base` on. */
  function Index(base: nat, fs: seq<Raw>): (es: seq<FieldEntry>)
    ensures |es| == |fs|
    decreases fs
  {
    if fs == [] then [] else [Entry(base, fs[0])] + Index(base + |RawBytes(fs[0])|, fs[1..])
  }

  function Turn(c: Cursor, f: Raw): Cursor {
    var end := c.pos + |RawBytes(f)|;
    var second := c.fieldNum == 1;
    Cursor(end, c.fieldNum + 1, if second then end else c.bodyStart, if second then StatedLength(f.value) else c.stated,
           AddEntry(c.entries, Entry(c.pos, f)), TagOf(f) == 10)
  }

  lemma AdvanceHeld(buf: seq<byte>, c: Cursor, f: Raw)
    requires Good(f) && c.pos + |RawBytes(f)| <= |buf| && buf[c.pos..c.pos + |RawBytes(f)|] == RawBytes(f)
    ensures c.pos <= |buf| && ScanField(buf, c.pos).Scanned? && ScanField(buf, c.pos).tag == TagOf(f)
    ensures TagInPlace(c.fieldNum, TagOf(f)) ==> Advance(buf, c) == Ok(Turn(c, f))
  {
    ScanHeld(buf, c.pos, f);
    FieldHeld(buf, c.pos, f);
  }

  function Turns(c: Cursor, fs: seq<Raw>): Cursor
    decreases fs
  {
    if fs == [] then c else Turns(Turn(c, fs[0]), fs[1..])
  }

  lemma FirstHeld(buf: seq<byte>, pos: nat, fs: seq<Raw>)
    requires fs != [] && Holds(buf, pos, fs)
    ensures pos + |RawBytes(fs[0])| <= |buf| && buf[pos..pos + |RawBytes(fs[0])|] == RawBytes(fs[0])
    ensures Holds(buf, pos + |RawBytes(fs[0])|, fs[1..])
  {
    var n := |RawBytes(fs[0])|;
    SliceOf(buf, pos, Printed(fs), 0, n);
    SliceOf(buf, pos, Printed(fs), n, |Printed(fs)|);
  }

  lemma ReadableTail(num: nat, fs: seq<Raw>)
    requires fs != [] && Readable(num, fs)
    ensures Good(fs[0]) && TagInPlace(num, TagOf(fs[0])) && TagOf(fs[0]) != 10 && Readable(num + 1, fs[1..])
  {
    forall k | 0 <= k < |fs[1..]|
      ensures Good(fs[1..][k]) && TagInPlace(num + 1 + k, TagOf(fs[1..][k])) && TagOf(fs[1..][k]) != 10
    {
      assert TagInPlace(num + (k + 1), TagOf(fs[k + 1]));
    }
    assert TagInPlace(num + 0, TagOf(fs[0]));
  }

  lemma OneTurn(buf: seq<byte>, c: Cursor, next: Cursor)
    requires c.pos < |buf| && !c.done && Advance(buf, c) == Ok(next)
    ensures Run(buf, c) == Run(buf, next)
  {
  }

  /** The loop goes through readable fields. */
  lemma {:induction false} Through(buf: seq<byte>, c: Cursor, fs: seq<Raw>)
    requires Readable(c.fieldNum, fs) && Holds(buf, c.pos, fs) && !c.done
    ensures Turns(c, fs).pos == c.pos + |Printed(fs)| && Turns(c, fs).fieldNum == c.fieldNum + |fs|
    ensures !Turns(c, fs).done && Run(buf, c) == Run(buf, Turns(c, fs))
    decreases fs
  {
    if fs != [] {
      FirstHeld(buf, c.pos, fs);
      ReadableTail(c.fieldNum, fs);
      AdvanceHeld(buf, c, fs[0]);
      OneTurn(buf, c, Turn(c, fs[0]));
      Through(buf, Turn(c, fs[0]), fs[1..]);
    }
  }

  lemma ReadableCons(num: nat, f: Raw, fs: seq<Raw>)
    requires Good(f) && TagInPlace(num, TagOf(f)) && TagOf(f) != 10 && Readable(num + 1, fs)
    ensures Readable(num, [f] + fs)
  {
    var all := [f] + fs;
    forall k | 0 <= k < |all| ensures Good(all[k]) && TagInPlace(num + k, TagOf(all[k])) && TagOf(all[k]) != 10 {
      if k > 0 {
        assert TagInPlace(num + 1 + (k - 1), TagOf(fs[k - 1]));
      }
    }
  }

  lemma HoldsCons(buf: seq<byte>, pos: nat, f: Raw, fs: seq<Raw>)
    requires pos + |RawBytes(f)| <= |buf| && buf[pos..pos + |RawBytes(f)|] == RawBytes(f)
    requires Holds(buf, pos + |RawBytes(f)|, fs)
    ensures Holds(buf, pos, [f] + fs) && |Printed([f] + fs)| == |RawBytes(f)| + |Printed(fs)|
  {
    var mid, end := pos + |RawBytes(f)|, pos + |RawBytes(f)| + |Printed(fs)|;
    assert ([f] + fs)[1..] == fs;
    assert buf[pos..end] == buf[pos..mid] + buf[mid..end];
  }

  /** The next field is the trailer, or the loop cannot read on. */
  predicate Halts(buf: seq<byte>, pos: nat, num: nat) {
    pos <= |buf| && match ScanField(buf, pos)
      case Broken(_) => true
      case Scanned(tag, _, _) => !TagInPlace(num, tag) || tag == 10
  }

  predicate HaltsAt(buf: seq<byte>, pos: nat, num: nat) { pos == |buf| || Halts(buf, pos, num) }

  /** Readable fields, up to where the loop halts. */
  predicate ReadUpTo(buf: seq<byte>, pos: nat, num: nat, fs: seq<Raw>) {
    Readable(num, fs) && Holds(buf, pos, fs) && HaltsAt(buf, pos + |Printed(fs)|, num + |fs|)
  }

  lemma NoneAhead(buf: seq<byte>, pos: nat, num: nat)
    requires pos <= |buf| && HaltsAt(buf, pos, num)
    ensures ReadUpTo(buf, pos, num, [])
  {
  }

  /** The loop reads on at this field. */
  predicate NextIs(buf: seq<byte>, pos: nat, num: nat, f: Raw, next: nat) {
    && Good(f) && TagInPlace(num, TagOf(f)) && TagOf(f) != 10 && next == pos + |RawBytes(f)|
    && pos < next <= |buf| && buf[pos..next] == RawBytes(f)
  }

  lemma AheadCons(buf: seq<byte>, pos: nat, num: nat, f: Raw, rest: seq<Raw>, next: nat)
    requires NextIs(buf, pos, num, f, next) && ReadUpTo(buf, next, num + 1, rest)
    ensures ReadUpTo(buf, pos, num, [f] + rest)
  {
    ReadableCons(num, f, rest);
    HoldsCons(buf, pos, f, rest);
  }

  lemma NextField(buf: seq<byte>, pos: nat, num: nat) returns (f: Raw, next: nat)
    requires pos <= |buf| && !HaltsAt(buf, pos, num)
    ensures pos < next <= |buf| && NextIs(buf, pos, num, f, next)
  {
    f := ScannedHeld(buf, pos);
    ScanHeld(buf, pos, f);
    next := pos + |RawBytes(f)|;
  }

  /** The fields ahead of the place where the loop halts. */
  lemma {:induction false} Ahead(buf: seq<byte>, pos: nat, num: nat) returns (fs: seq<Raw>)
    requires pos <= |buf|
    ensures ReadUpTo(buf, pos, num, fs)
    decreases |buf| - pos
  {
    if HaltsAt(buf, pos, num) {
      NoneAhead(buf, pos, num);
      fs := [];
    } else {
      var f, next := NextField(buf, pos, num);
      var rest := Ahead(buf, next, num + 1);
      AheadCons(buf, pos, num, f, rest, next);
      fs := [f] + rest;
    }
  }

  // ----- what is accepted -----

  /** The buffer starts with these fields, each digits and a value, 8, 9 and 35 in front; the first tag 10 is the
      last of them, and without one they fill the buffer. */
  predicate IsMessage(buf: seq<byte>, fs: seq<Raw>) {
    && Printed(fs) <= buf
    && (forall k :: 0 <= k < |fs| ==> Good(fs[k]) && TagInPlace(k, TagOf(fs[k])))
    && (forall k :: 0 <= k < |fs| - 1 ==> TagOf(fs[k]) != 10)
    && (Printed(fs) == buf || (fs != [] && TagOf(fs[|fs| - 1]) == 10))
  }

  lemma {:induction false} PrintedAppend(a: seq<Raw>, b: seq<Raw>)
    ensures Printed(a + b) == Printed(a) + Printed(b)
  {
    if a == [] {
      assert a + b == b;
    } else {
      assert (a + b)[1..] == a[1..] + b;
      PrintedAppend(a[1..], b);
    }
  }

  lemma PrintedLast(fs: seq<Raw>)
    requires fs != []
    ensures Printed(fs) == Printed(fs[..|fs| - 1]) + RawBytes(fs[|fs| - 1])
  {
    var n: nat := |fs| - 1;
    assert fs == fs[..n] + [fs[n]];
    PrintedAppend(fs[..n], [fs[n]]);
    assert [fs[n]][1..] == [] && Printed([fs[n]]) == RawBytes(fs[n]) + Printed([]);
  }

  lemma {:induction false} TurnsMore(c: Cursor, fs: seq<Raw>, f: Raw)
    ensures Turns(c, fs + [f]) == Turn(Turns(c, fs), f)
    decreases fs
  {
    if fs == [] {
      assert [] + [f] == [f] && [f][1..] == [];
      assert Turns(c, [f]) == Turns(Turn(c, f), []);
    } else {
      assert (fs + [f])[1..] == fs[1..] + [f];
      TurnsMore(Turn(c, fs[0]), fs[1..], f);
    }
  }

  lemma Prefixes(buf: seq<byte>, a: seq<byte>, b: seq<byte>)
    requires a + b <= buf
    ensures |a| + |b| <= |buf| && buf[0..|a|] == a && buf[|a|..|a| + |b|] == b
  {
    assert buf[..|a + b|] == a + b;
  }

  /** The loop reads a message through its trailer. */
  /** The trailer stands here, as the `num`-th field. */
  predicate TrailerIs(buf: seq<byte>, pos: nat, num: nat, t: Raw) {
    && Good(t) && TagOf(t) == 10 && TagInPlace(num, TagOf(t))
    && pos + |RawBytes(t)| <= |buf| && buf[pos..pos + |RawBytes(t)|] == RawBytes(t)
  }

  lemma ReadsTrailer(buf: seq<byte>, start: Cursor, body: seq<Raw>, t: Raw, mid: Cursor, c: Cursor)
    requires !start.done && Readable(start.fieldNum, body) && Holds(buf, start.pos, body) && mid == Turns(start, body)
    requires TrailerIs(buf, start.pos + |Printed(body)|, start.fieldNum + |body|, t) && c == Turn(mid, t)
    ensures Run(buf, start) == Ok(c) && c.pos == start.pos + |Printed(body)| + |RawBytes(t)|
  {
    Through(buf, start, body);
    TrailerRead(buf, mid, t, c);
  }

  lemma TrailerRead(buf: seq<byte>, mid: Cursor, t: Raw, c: Cursor)
    requires !mid.done && TrailerIs(buf, mid.pos, mid.fieldNum, t) && c == Turn(mid, t)
    ensures Run(buf, mid) == Ok(c) && c.pos == mid.pos + |RawBytes(t)|
  {
    AdvanceHeld(buf, mid, t);
    LastTurn(buf, mid, c);
  }

  lemma LastTurn(buf: seq<byte>, c: Cursor, end: Cursor)
    requires c.pos < |buf| && !c.done && Advance(buf, c) == Ok(end) && end.done
    ensures Run(buf, c) == Ok(end)
  {
  }

  /** And to the end of the buffer when there is none. */
  lemma ReadsAll(buf: seq<byte>, fs: seq<Raw>)
    requires Readable(0, fs) && Printed(fs) == buf
    ensures Run(buf, START) == Ok(Turns(START, fs)) && Turns(START, fs).pos == |buf|
  {
    assert buf[0..|buf|] == buf;
    Through(buf, START, fs);
  }

  lemma BodyReadable(buf: seq<byte>, fs: seq<Raw>, n: nat)
    requires IsMessage(buf, fs) && n <= |fs| && (n == |fs| > 0 ==> TagOf(fs[n - 1]) != 10)
    ensures Readable(0, fs[..n])
  {
  }

  lemma RunReads(buf: seq<byte>, fs: seq<Raw>)
    requires IsMessage(buf, fs)
    ensures Run(buf, START) == Ok(Turns(START, fs)) && Turns(START, fs).pos == |Printed(fs)|
  {
    if fs != [] && TagOf(fs[|fs| - 1]) == 10 {
      var n: nat := |fs| - 1;
      PrintedLast(fs);
      BodyReadable(buf, fs, n);
      TurnsMore(START, fs[..n], fs[n]);
      Unsnoc(fs);
      Prefixes(buf, Printed(fs[..n]), RawBytes(fs[n]));
      ReadsTrailer(buf, START, fs[..n], fs[n], Turns(START, fs[..n]), Turns(START, fs));
    } else {
      BodyReadable(buf, fs, |fs|);
      assert fs[..|fs|] == fs;
      ReadsAll(buf, fs);
    }
  }

  lemma Unsnoc<T>(s: seq<T>)
    requires s != []
    ensures s[..|s| - 1] + [s[|s| - 1]] == s
  {
  }

  lemma AllAccepted(buf: seq<byte>, fs: seq<Raw>)
    requires Readable(0, fs) && Holds(buf, 0, fs) && |Printed(fs)| == |buf|
    ensures IsMessage(buf, fs)
  {
    assert buf[0..|buf|] == buf;
    forall k | 0 <= k < |fs| ensures Good(fs[k]) && TagInPlace(k, TagOf(fs[k])) && TagOf(fs[k]) != 10 {
      assert TagInPlace(0 + k, TagOf(fs[k]));
    }
  }

  lemma TrailerAccepted(buf: seq<byte>, body: seq<Raw>, t: Raw)
    requires Readable(0, body) && Good(t) && TagOf(t) == 10 && TagInPlace(|body|, TagOf(t))
    requires Holds(buf, 0, body) && Holds(buf, |Printed(body)|, [t])
    ensures IsMessage(buf, body + [t])
  {
    var fs := body + [t];
    PrintedAppend(body, [t]);
    Together(buf, Printed(body), Printed([t]));
    forall k | 0 <= k < |body| ensures fs[k] == body[k] && TagInPlace(k, TagOf(fs[k])) {
      assert TagInPlace(0 + k, TagOf(body[k]));
    }
  }

  lemma Together(buf: seq<byte>, a: seq<byte>, b: seq<byte>)
    requires |a| + |b| <= |buf| && buf[0..|a|] == a && buf[|a|..|a| + |b|] == b
    ensures a + b <= buf
  {
    assert buf[..|a| + |b|] == buf[0..|a|] + buf[|a|..|a| + |b|];
  }

  lemma HaltedAtTrailer(buf: seq<byte>, c: Cursor) returns (t: Raw)
    requires c.pos < |buf| && !c.done && Halts(buf, c.pos, c.fieldNum) && Run(buf, c).Ok?
    ensures Good(t) && TagOf(t) == 10 && TagInPlace(c.fieldNum, TagOf(t)) && Holds(buf, c.pos, [t])
  {
    t := ScannedHeld(buf, c.pos);
    ScanHeld(buf, c.pos, t);
    assert [t][1..] == [] && Printed([t]) == RawBytes(t) + Printed([]);
  }

  /** The loop has come to `c` through `body` and stops there, or at the field behind it. */
  predicate Reached(buf: seq<byte>, c: Cursor, body: seq<Raw>) {
    && Readable(0, body) && Holds(buf, 0, body) && c.pos == |Printed(body)| && c.fieldNum == |body| && !c.done
    && (c.pos == |buf| || Halts(buf, c.pos, c.fieldNum))
  }

  lemma ReachedFrom(buf: seq<byte>, start: Cursor) returns (body: seq<Raw>, c: Cursor)
    requires start.pos == start.fieldNum == 0 && !start.done
    ensures Reached(buf, c, body) && c == Turns(start, body) && Run(buf, start) == Run(buf, c)
  {
    body := Ahead(buf, 0, 0);
    Through(buf, start, body);
    c := Turns(start, body);
  }

  lemma AcceptsReached(buf: seq<byte>, c: Cursor, body: seq<Raw>) returns (fs: seq<Raw>)
    requires Reached(buf, c, body) && Run(buf, c).Ok?
    ensures IsMessage(buf, fs)
  {
    if c.pos == |buf| {
      AllAccepted(buf, body);
      fs := body;
    } else {
      var t := HaltedAtTrailer(buf, c);
      TrailerAccepted(buf, body, t);
      fs := body + [t];
    }
  }

  lemma RunAccepts(buf: seq<byte>) returns (fs: seq<Raw>)
    requires Run(buf, START).Ok?
    ensures IsMessage(buf, fs)
  {
    var body, c := ReachedFrom(buf, START);
    fs := AcceptsReached(buf, c, body);
  }

  // ----- the trailer -----

  const TEN: seq<byte> := [0x31, 0x30]

  /** The message ends in a field spelled "10=". */
  predicate HasTrailer(fs: seq<Raw>) { fs != [] && fs[|fs| - 1].tag == TEN }

  function Front(fs: seq<Raw>): seq<Raw>
    requires fs != []
  {
    fs[..|fs| - 1]
  }

  lemma {:induction false} PrintedLong(fs: seq<Raw>)
    ensures |Printed(fs)| >= 2 * |fs|
  {
    if fs != [] {
      PrintedLong(fs[1..]);
    }
  }

  lemma TenIsTen()
    ensures Value(TEN) == 10
  {
    assert TEN[..1] == [0x31] && [0x31][..0] == [];
    assert Value([0x31]) == 1;
  }

  /** A message with a trailer has its three opening fields ahead of it. */
  lemma TrailerBehindThree(buf: seq<byte>, fs: seq<Raw>)
    requires IsMessage(buf, fs) && HasTrailer(fs)
    ensures |fs| >= 4 && |Printed(fs)| >= 8 && |Printed(Front(fs))| >= 6 && TagOf(fs[|fs| - 1]) == 10
  {
    TenIsTen();
    assert TagInPlace(|fs| - 1, TagOf(fs[|fs| - 1]));
    PrintedLong(fs);
    PrintedLong(Front(fs));
  }

  /** An SOH inside printed fields ends one of them. */
  lemma {:induction false} SohEnds(fs: seq<Raw>, i: nat) returns (j: nat)
    requires forall k :: 0 <= k < |fs| ==> Good(fs[k])
    requires i < |Printed(fs)| && Printed(fs)[i] == SOH
    ensures 0 < j <= |fs| && |Printed(fs[..j])| == i + 1
  {
    var head := RawBytes(fs[0]);
    if i < |head| {
      OneSoh(fs[0], i);
      assert fs[..1] == [fs[0]] && [fs[0]][1..] == [] && Printed([fs[0]]) == head + Printed([]);
      j := 1;
    } else {
      var k := SohEnds(fs[1..], i - |head|);
      j := k + 1;
      assert fs[..j][1..] == fs[1..][..k];
    }
  }

  lemma OneSoh(f: Raw, i: nat)
    requires Good(f) && i < |RawBytes(f)| && RawBytes(f)[i] == SOH
    ensures i == |RawBytes(f)| - 1
  {
  }

  /** A field that begins "10=" has tag 10. */
  lemma SpeltTen(f: Raw)
    requires Good(f) && |RawBytes(f)| >= 3
    requires RawBytes(f)[0] == 0x31 && RawBytes(f)[1] == 0x30 && RawBytes(f)[2] == EQUALS
    ensures f.tag == TEN
  {
    var b, d := RawBytes(f), |f.tag|;
    assert b[d] == EQUALS && forall k :: 0 <= k < d ==> b[k] == f.tag[k];
    assert d == 2;
  }

  lemma Cut(fs: seq<Raw>, j: nat)
    requires j < |fs|
    ensures Printed(fs) == Printed(fs[..j]) + (RawBytes(fs[j]) + Printed(fs[j + 1..]))
  {
    SplitAt(fs, j);
    PrintedAppend(fs[..j], fs[j..]);
    PrintedHead(fs[j..], fs[j], fs[j + 1..]);
  }

  lemma SplitAt<T>(s: seq<T>, j: nat)
    requires j < |s|
    ensures s == s[..j] + s[j..] && s[j..] != [] && s[j..][0] == s[j] && s[j..][1..] == s[j + 1..]
  {
  }

  lemma PrintedHead(fs: seq<Raw>, f: Raw, rest: seq<Raw>)
    requires fs != [] && fs[0] == f && fs[1..] == rest
    ensures Printed(fs) == RawBytes(f) + Printed(rest)
  {
  }

  lemma InsideCut(s: seq<byte>, a: seq<byte>, b: seq<byte>, c: seq<byte>)
    requires s == a + (b + c)
    ensures forall k :: 0 <= k < |b| ==> s[|a| + k] == b[k]
  {
  }

  /** Bytes `at` to `at + 3` say "10=". */
  predicate SaysTen(s: seq<byte>, at: nat) {
    at + 3 <= |s| && s[at] == 0x31 && s[at + 1] == 0x30 && s[at + 2] == EQUALS
  }

  lemma SaysTenThere(s: seq<byte>, a: seq<byte>, f: Raw, c: seq<byte>)
    requires Good(f) && s == a + (RawBytes(f) + c) && SaysTen(s, |a|)
    ensures f.tag == TEN
  {
    var b := RawBytes(f);
    InsideCut(s, a, b, c);
    assert b[|f.tag|] == EQUALS;
    assert s[|a| + 0] == b[0] && s[|a| + 1] == b[1];
    assert |f.tag| >= 1;
    assert s[|a| + 2] == b[2];
    SpeltTen(f);
  }

  /** In a message "10=" follows an SOH at its trailer only. */
  lemma OnlyTrailer(fs: seq<Raw>, k: nat)
    requires forall j :: 0 <= j < |fs| ==> Good(fs[j])
    requires forall j :: 0 <= j < |fs| - 1 ==> TagOf(fs[j]) != 10
    requires k < |Printed(fs)| && Printed(fs)[k] == SOH && SaysTen(Printed(fs), k + 1)
    ensures HasTrailer(fs) && k + 1 == |Printed(Front(fs))|
  {
    var j := SohEnds(fs, k);
    assert fs[..|fs|] == fs;
    Cut(fs, j);
    SaysTenThere(Printed(fs), Printed(fs[..j]), fs[j], Printed(fs[j + 1..]));
    TenIsTen();
  }

  lemma EndsInSoh(fs: seq<Raw>)
    requires fs != []
    ensures Printed(fs) != [] && Printed(fs)[|Printed(fs)| - 1] == SOH
  {
    PrintedLast(fs);
  }

  lemma TrailerSays(fs: seq<Raw>)
    requires HasTrailer(fs) && Front(fs) != []
    ensures var s, at := Printed(fs), |Printed(Front(fs))|; 0 < at && SaysTen(s, at) && s[at - 1] == SOH
  {
    PrintedLast(fs);
    EndsInSoh(Front(fs));
    var b := RawBytes(fs[|fs| - 1]);
    assert b[0] == 0x31 && b[1] == 0x30 && b[2] == EQUALS;
    assert Printed(fs)[|Printed(Front(fs))| - 1] == Printed(Front(fs))[|Printed(Front(fs))| - 1];
  }

  lemma SameBytes(buf: seq<byte>, s: seq<byte>, k: nat)
    requires s <= buf && k + 4 < |s|
    ensures Checksum.TrailerAt(buf, k) <==> s[k] == SOH && SaysTen(s, k + 1)
  {
  }

  /** The backward search from the end of a message finds its trailer, and nothing when it has none. */
  lemma TrailerPlace(buf: seq<byte>, fs: seq<Raw>)
    requires IsMessage(buf, fs)
    ensures |Printed(fs)| >= 4 ==>
      Checksum.LastTrailer(buf, |Printed(fs)| - 4) == if HasTrailer(fs) then |Printed(Front(fs))| else 0
    ensures HasTrailer(fs) ==> |fs| >= 4 && |Printed(fs)| >= 8 && |Printed(Front(fs))| >= 6
  {
    var s := Printed(fs);
    if |s| >= 4 {
      forall k: nat | k < |s| - 4 && Checksum.TrailerAt(buf, k)
        ensures HasTrailer(fs) && k + 1 == |Printed(Front(fs))|
      {
        SameBytes(buf, s, k);
        OnlyTrailer(fs, k);
      }
    }
    if HasTrailer(fs) {
      TrailerBehindThree(buf, fs);
      TrailerSays(fs);
      PrintedLast(fs);
      SameBytes(buf, s, |Printed(Front(fs))| - 1);
    }
  }

  // ----- the two validations -----

  /** If there is a trailer, BodyLength states the length of what lies between it and the second field. */
  predicate LengthHolds(fs: seq<Raw>) {
    HasTrailer(fs) && |fs| >= 3 ==> StatedLength(fs[1].value) == Wrap64(|Printed(fs[2..|fs| - 1])|)
  }

  /** There is a trailer, and its first three bytes state the sum of everything ahead of it; a value of two digits
      is read together with its delimiter. */
  predicate ChecksumHolds(fs: seq<Raw>) {
    && HasTrailer(fs) && |fs[|fs| - 1].value| >= 2
    && Checksum.StatedChecksum(fs[|fs| - 1].value + [SOH], 0) == Checksum.Sum(Printed(Front(fs))) % 256
  }

  /** What the loop remembers of the second field. */
  lemma {:induction false} TurnsRemember(c: Cursor, fs: seq<Raw>)
    requires c.fieldNum >= 2
    ensures Turns(c, fs).bodyStart == c.bodyStart && Turns(c, fs).stated == c.stated
    decreases fs
  {
    if fs != [] {
      TurnsRemember(Turn(c, fs[0]), fs[1..]);
    }
  }

  lemma PrintedTwo(fs: seq<Raw>)
    requires |fs| >= 2
    ensures |Printed(fs[..2])| == |RawBytes(fs[0])| + |RawBytes(fs[1])|
  {
    assert fs[..2][1..] == [fs[1]] && [fs[1]][1..] == [];
    assert Printed([fs[1]]) == RawBytes(fs[1]) + Printed([]);
  }

  lemma TurnsSecond(fs: seq<Raw>)
    requires |fs| >= 2
    ensures Turns(START, fs).bodyStart == |Printed(fs[..2])| > 0
    ensures Turns(START, fs).stated == StatedLength(fs[1].value)
  {
    var c := Turn(Turn(START, fs[0]), fs[1]);
    assert fs[1..][1..] == fs[2..];
    assert Turns(START, fs) == Turns(c, fs[2..]);
    PrintedTwo(fs);
    TurnsRemember(c, fs[2..]);
  }

  lemma BetweenTwo(fs: seq<Raw>)
    requires |fs| >= 3
    ensures |Printed(Front(fs))| == |Printed(fs[..2])| + |Printed(fs[2..|fs| - 1])|
  {
    assert Front(fs) == fs[..2] + fs[2..|fs| - 1];
    PrintedAppend(fs[..2], fs[2..|fs| - 1]);
  }

  lemma ChecksumDecided(fs: seq<Raw>)
    requires IsMessage(Printed(fs), fs)
    ensures Checksum.Valid(Printed(fs)) <==> ChecksumHolds(fs)
  {
    var msg := Printed(fs);
    TrailerPlace(msg, fs);
    if HasTrailer(fs) {
      var t := fs[|fs| - 1];
      PrintedLast(fs);
      ChecksumAt(msg, Printed(Front(fs)), t);
    } else if fs != [] {
      NotTenFirst(fs);
    }
  }

  lemma NotTenFirst(fs: seq<Raw>)
    requires fs != [] && Good(fs[0]) && TagOf(fs[0]) == 8
    ensures !Checksum.StartsWithTrailer(Printed(fs))
  {
    if Checksum.StartsWithTrailer(Printed(fs)) {
      SaysTenThere(Printed(fs), [], fs[0], Printed(fs[1..]));
      TenIsTen();
    }
  }

  lemma SameStated(msg: seq<byte>, at: nat, v: seq<byte>)
    requires at + 3 <= |msg| && 3 <= |v| && msg[at] == v[0] && msg[at + 1] == v[1] && msg[at + 2] == v[2]
    ensures Checksum.StatedChecksum(msg, at) == Checksum.StatedChecksum(v, 0)
  {
  }

  lemma StatedIn(msg: seq<byte>, open: seq<byte>, t: Raw)
    requires msg == open + RawBytes(t) && t.tag == TEN && |t.value| >= 2
    ensures Checksum.StatedChecksum(msg, |open| + 3) == Checksum.StatedChecksum(t.value + [SOH], 0)
  {
    var at, v := |open| + 3, t.value + [SOH];
    assert msg == (open + TEN + [EQUALS]) + v;
    assert msg[at] == v[0] && msg[at + 1] == v[1] && msg[at + 2] == v[2];
    SameStated(msg, at, v);
  }

  lemma ValidAt(msg: seq<byte>, at: nat, sum: nat)
    requires |msg| >= 7 && at > 0 && Checksum.LastTrailer(msg, |msg| - 4) == at && sum == Checksum.Sum(msg[..at])
    ensures Checksum.Valid(msg) <==> at + 6 <= |msg| && sum % 256 == Checksum.StatedChecksum(msg, at + 3)
  {
  }

  lemma ChecksumAt(msg: seq<byte>, open: seq<byte>, t: Raw)
    requires msg == open + RawBytes(t) && t.tag == TEN && |open| >= 6
    requires Checksum.LastTrailer(msg, |msg| - 4) == |open|
    ensures Checksum.Valid(msg)
       <==> |t.value| >= 2 && Checksum.StatedChecksum(t.value + [SOH], 0) == Checksum.Sum(open) % 256
  {
    assert msg[..|open|] == open;
    ValidAt(msg, |open|, Checksum.Sum(open));
    if |t.value| >= 2 {
      StatedIn(msg, open, t);
    }
  }

  // ----- the verdicts -----

  lemma TrailerStartIs(buf: seq<byte>, fs: seq<Raw>, end: nat)
    requires IsMessage(buf, fs) && end == |Printed(fs)|
    ensures TrailerStart(buf, end) == if HasTrailer(fs) then |Printed(Front(fs))| else 0
    ensures HasTrailer(fs) ==> |fs| >= 4 && |Printed(Front(fs))| > 0
  {
    TrailerPlace(buf, fs);
  }

  lemma LengthDecided(buf: seq<byte>, fs: seq<Raw>, c: Cursor, trailer: nat)
    requires IsMessage(buf, fs) && c == Turns(START, fs) && trailer == TrailerStart(buf, |Printed(fs)|)
    ensures c.bodyStart > 0 && trailer > 0 && Wrap64(trailer - c.bodyStart) != c.stated <==> !LengthHolds(fs)
  {
    TrailerStartIs(buf, fs, |Printed(fs)|);
    if HasTrailer(fs) {
      TurnsSecond(fs);
      BetweenTwo(fs);
    }
  }

  /** The validations that are switched on hold. */
  predicate Sound(p: FixParser, fs: seq<Raw>) {
    (p.validateBodyLength ==> LengthHolds(fs)) && (p.validateChecksum ==> ChecksumHolds(fs))
  }

  lemma VerdictIs(p: FixParser, buf: seq<byte>, fs: seq<Raw>, c: Cursor)
    requires IsMessage(buf, fs) && c == Turns(START, fs) && c.pos == |Printed(fs)|
    ensures Verdict(p, buf, c)
         == if p.validateBodyLength && !LengthHolds(fs) then Some(InvalidBodyLength)
            else if p.validateChecksum && !ChecksumHolds(fs) then Some(InvalidChecksum)
            else None
  {
    LengthDecided(buf, fs, c, TrailerStart(buf, c.pos));
    assert buf[..c.pos] == Printed(fs);
    Itself(buf, fs);
    ChecksumDecided(fs);
  }

  lemma Itself(buf: seq<byte>, fs: seq<Raw>)
    requires IsMessage(buf, fs)
    ensures IsMessage(Printed(fs), fs)
  {
  }

  /** The index keeps the first 512 fields. */
  lemma {:induction false} TurnsIndex(c: Cursor, fs: seq<Raw>)
    requires |c.entries| <= MAX_FIELDS
    ensures Turns(c, fs).entries == Keep(c.entries + Index(c.pos, fs))
    decreases fs
  {
    if fs == [] {
      assert c.entries + [] == c.entries;
    } else {
      var e, rest := Entry(c.pos, fs[0]), Index(c.pos + |RawBytes(fs[0])|, fs[1..]);
      TurnsIndex(Turn(c, fs[0]), fs[1..]);
      KeptMore(c.entries, e, rest);
    }
  }

  lemma KeptMore(es: seq<FieldEntry>, e: FieldEntry, rest: seq<FieldEntry>)
    requires |es| <= MAX_FIELDS
    ensures Keep(AddEntry(es, e) + rest) == Keep(es + ([e] + rest))
  {
    assert es + ([e] + rest) == es + [e] + rest;
  }

  predicate SizeFits(p: FixParser, buf: seq<byte>) { 20 <= |buf| <= p.maxMessageSize }

  /** What comes back for a message: its fields, indexed where they stand, and its length. */
  lemma ParsesTo(p: FixParser, buf: seq<byte>, fs: seq<Raw>)
    requires SizeFits(p, buf) && IsMessage(buf, fs)
    ensures Parse(p, buf)
         == if p.validateBodyLength && !LengthHolds(fs) then Err(InvalidBodyLength)
            else if p.validateChecksum && !ChecksumHolds(fs) then Err(InvalidChecksum)
            else Ok(Parsed(Keep(Index(0, fs)), |Printed(fs)|))
  {
    var c := Turns(START, fs);
    RunReads(buf, fs);
    VerdictIs(p, buf, fs, c);
    TurnsIndex(START, fs);
    assert [] + Index(0, fs) == Index(0, fs);
  }

  /** The parser accepts exactly the buffers of an admitted size that start with a message for which the validations
      switched on hold. */
  lemma AcceptsExactly(p: FixParser, buf: seq<byte>)
    ensures Parse(p, buf).Ok? <==> SizeFits(p, buf) && exists fs :: IsMessage(buf, fs) && Sound(p, fs)
  {
    if SizeFits(p, buf) && Run(buf, START).Ok? {
      var fs := RunAccepts(buf);
      ParsesTo(p, buf, fs);
      assert Parse(p, buf).Ok? ==> Sound(p, fs);
    }
    forall fs | SizeFits(p, buf) && IsMessage(buf, fs) && Sound(p, fs) ensures Parse(p, buf).Ok? {
      ParsesTo(p, buf, fs);
    }
  }

  /** Whatever is accepted under checksum validation is valid as far as it was read. */
  lemma AcceptedIsValid(p: FixParser, buf: seq<byte>)
    requires Parse(p, buf).Ok? && p.validateChecksum
    ensures Checksum.Valid(buf[..Parse(p, buf).value.consumed])
  {
  }

  lemma InvalidNotWhole(p: FixParser, msg: seq<byte>)
    requires !Checksum.Valid(msg) && p.validateChecksum
    ensures Parse(p, msg).Ok? ==> Parse(p, msg).value.consumed < |msg|
  {
    if Parse(p, msg).Ok? {
      AcceptedIsValid(p, msg);
      assert msg[..|msg|] == msg;
    }
  }

  /** No changed byte ahead of the trailer's tag is accepted as the whole message. */
  lemma ChangeNotAccepted(p: FixParser, bs: seq<byte>, mt: seq<byte>, fs: seq<Field>, k: nat, b: byte)
    requires SohFree(bs) && SohFree(mt) && Clean(fs) && p.validateChecksum
    requires k < |Encode(bs, mt, fs)| - 7 && b != Encode(bs, mt, fs)[k]
    ensures var changed := Encode(bs, mt, fs)[k := b];
      Parse(p, changed).Ok? ==> Parse(p, changed).value.consumed < |changed|
  {
    ChangeRejected(bs, mt, fs, k, b);
    InvalidNotWhole(p, Encode(bs, mt, fs)[k := b]);
  }

  // ----- what is refused -----

  /** Behind a readable front the next field, the `num`-th, begins with something that is no digit ahead of any '=';
      or has no '=' or no delimiter; or is one of the first three with another tag. */
  ghost predicate Refuses(rest: seq<byte>, num: nat, e: ParseError) {
    match e
    case InvalidTag => exists k :: 0 <= k < |rest| && !IsDigit(rest[k]) && EQUALS !in rest[..k + 1]
    case MalformedField =>
      rest != [] && (AllDigits(rest) || exists k ::
                       0 <= k < |rest| && rest[k] == EQUALS && AllDigits(rest[..k]) && SOH !in rest[k + 1..])
    case MissingBeginString => num == 0 && OtherTag(rest, 8)
    case MissingBodyLength => num == 1 && OtherTag(rest, 9)
    case MissingMsgType => num == 2 && OtherTag(rest, 35)
    case _ => false
  }

  ghost predicate OtherTag(rest: seq<byte>, tag: u32) {
    exists f :: Good(f) && RawBytes(f) <= rest && TagOf(f) != tag
  }

  lemma Behind(buf: seq<byte>, pos: nat, k: nat)
    requires pos + k <= |buf|
    ensures buf[pos..][..k] == buf[pos..pos + k] && buf[pos..][k..] == buf[pos + k..]
    ensures pos + k < |buf| ==> buf[pos..][k] == buf[pos + k]
  {
  }

  lemma BadTagRefuses(buf: seq<byte>, pos: nat, num: nat)
    requires pos <= |buf| && !AllDigits(buf[pos..FirstFrom(buf, pos, EQUALS)])
    ensures Refuses(buf[pos..], num, InvalidTag)
  {
    var eq := FirstFrom(buf, pos, EQUALS);
    var k :| 0 <= k < eq - pos && !IsDigit(buf[pos..eq][k]);
    BadDigit(buf[pos..], k, eq - pos);
  }

  lemma BadDigit(rest: seq<byte>, k: nat, eq: nat)
    requires k < eq <= |rest| && !IsDigit(rest[k]) && forall i :: 0 <= i < eq ==> rest[i] != EQUALS
    ensures exists j :: 0 <= j < |rest| && !IsDigit(rest[j]) && EQUALS !in rest[..j + 1]
  {
    assert !IsDigit(rest[k]) && EQUALS !in rest[..k + 1];
  }

  lemma RefusesBadTag(buf: seq<byte>, pos: nat, num: nat)
    requires pos <= |buf| && Refuses(buf[pos..], num, InvalidTag)
    ensures ScanField(buf, pos) == Broken(InvalidTag)
  {
    var rest := buf[pos..];
    var k: nat :| k < |rest| && !IsDigit(rest[k]) && EQUALS !in rest[..k + 1];
    var eq := FirstFrom(buf, pos, EQUALS);
    assert forall i :: 0 <= i <= k ==> rest[i] in rest[..k + 1];
    assert eq < |buf| ==> rest[eq - pos] == EQUALS;
    NotDigits(buf, pos, eq, pos + k);
  }

  lemma MalformedRefuses(buf: seq<byte>, pos: nat, num: nat)
    requires pos < |buf| && ScanField(buf, pos) == Broken(MalformedField)
    ensures Refuses(buf[pos..], num, MalformedField)
  {
    var eq := FirstFrom(buf, pos, EQUALS);
    Behind(buf, pos, eq - pos);
    if eq < |buf| {
      assert buf[pos..][eq - pos + 1..] == buf[eq + 1..];
    } else {
      assert buf[pos..eq] == buf[pos..];
    }
  }

  lemma RefusesMalformed(buf: seq<byte>, pos: nat, num: nat)
    requires pos <= |buf| && Refuses(buf[pos..], num, MalformedField)
    ensures ScanField(buf, pos) == Broken(MalformedField)
  {
    var rest := buf[pos..];
    if AllDigits(rest) {
      NoDelimiter(buf, pos);
    } else {
      var k: nat :| k < |rest| && rest[k] == EQUALS && AllDigits(rest[..k]) && SOH !in rest[k + 1..];
      Unended(buf, pos, k);
    }
  }

  lemma NoDelimiter(buf: seq<byte>, pos: nat)
    requires pos <= |buf| && AllDigits(buf[pos..])
    ensures ScanField(buf, pos) == Broken(MalformedField)
  {
    var eq := FirstFrom(buf, pos, EQUALS);
    forall k | pos <= k < |buf| ensures buf[k] != EQUALS {
      assert IsDigit(buf[pos..][k - pos]);
    }
    assert buf[pos..eq] == buf[pos..];
  }

  lemma Unended(buf: seq<byte>, pos: nat, k: nat)
    requires pos + k < |buf| && buf[pos..][k] == EQUALS && AllDigits(buf[pos..][..k]) && SOH !in buf[pos..][k + 1..]
    ensures ScanField(buf, pos) == Broken(MalformedField)
  {
    Behind(buf, pos, k);
    Behind(buf, pos, k + 1);
    NoEquals(buf[pos..][..k]);
    FirstFromIs(buf, pos, EQUALS, pos + k);
    NoSoh(buf, pos + k + 1);
  }

  lemma NoSoh(buf: seq<byte>, from: nat)
    requires from <= |buf| && SOH !in buf[from..]
    ensures FirstFrom(buf, from, SOH) == |buf|
  {
    forall k | from <= k < |buf| ensures buf[k] != SOH {
      assert buf[k] == buf[from..][k - from];
    }
  }

  lemma OtherTagRead(buf: seq<byte>, c: Cursor, tag: u32)
    requires c.pos <= |buf| && OtherTag(buf[c.pos..], tag)
    ensures ScanField(buf, c.pos).Scanned? && ScanField(buf, c.pos).tag != tag
  {
    var f :| Good(f) && RawBytes(f) <= buf[c.pos..] && TagOf(f) != tag;
    Behind(buf, c.pos, |RawBytes(f)|);
    AdvanceHeld(buf, c, f);
  }

  lemma ReadOtherTag(buf: seq<byte>, pos: nat, tag: u32)
    requires pos <= |buf| && ScanField(buf, pos).Scanned? && ScanField(buf, pos).tag != tag
    ensures OtherTag(buf[pos..], tag)
  {
    var f := ScannedHeld(buf, pos);
    ScanHeld(buf, pos, f);
    Behind(buf, pos, |RawBytes(f)|);
  }

  lemma AdvanceRefuses(buf: seq<byte>, c: Cursor, e: ParseError)
    requires c.pos < |buf|
    ensures Advance(buf, c) == Err(e) <==> Refuses(buf[c.pos..], c.fieldNum, e)
  {
    if Advance(buf, c) == Err(e) {
      AdvanceRefused(buf, c, e);
    }
    if Refuses(buf[c.pos..], c.fieldNum, e) {
      RefusedAdvance(buf, c, e);
    }
  }

  lemma AdvanceRefused(buf: seq<byte>, c: Cursor, e: ParseError)
    requires c.pos < |buf| && Advance(buf, c) == Err(e)
    ensures Refuses(buf[c.pos..], c.fieldNum, e)
  {
    match e
    case InvalidTag => BadTagRefuses(buf, c.pos, c.fieldNum);
    case MalformedField => MalformedRefuses(buf, c.pos, c.fieldNum);
    case MissingBeginString => ReadOtherTag(buf, c.pos, 8);
    case MissingBodyLength => ReadOtherTag(buf, c.pos, 9);
    case MissingMsgType => ReadOtherTag(buf, c.pos, 35);
    case _ =>
  }

  lemma RefusedAdvance(buf: seq<byte>, c: Cursor, e: ParseError)
    requires c.pos < |buf| && Refuses(buf[c.pos..], c.fieldNum, e)
    ensures Advance(buf, c) == Err(e)
  {
    match e
    case InvalidTag => RefusesBadTag(buf, c.pos, c.fieldNum);
    case MalformedField => RefusesMalformed(buf, c.pos, c.fieldNum);
    case MissingBeginString => OtherTagRead(buf, c, 8);
    case MissingBodyLength => OtherTagRead(buf, c, 9);
    case MissingMsgType => OtherTagRead(buf, c, 35);
  }

  /** The loop gives up behind a readable front, where the next field is refused. */
  ghost predicate Stopped(buf: seq<byte>, fs: seq<Raw>, e: ParseError) {
    Readable(0, fs) && Printed(fs) <= buf && Refuses(buf[|Printed(fs)|..], |fs|, e)
  }

  lemma SomethingRefused(buf: seq<byte>, pos: nat, num: nat, e: ParseError)
    requires pos <= |buf| && Refuses(buf[pos..], num, e)
    ensures pos < |buf|
  {
  }

  lemma FailsFrom(buf: seq<byte>, c: Cursor, e: ParseError)
    requires c.pos <= |buf| && !c.done && Refuses(buf[c.pos..], c.fieldNum, e)
    ensures Run(buf, c) == Err(e)
  {
    SomethingRefused(buf, c.pos, c.fieldNum, e);
    RefusedAdvance(buf, c, e);
  }

  lemma StoppedThrough(buf: seq<byte>, start: Cursor, fs: seq<Raw>) returns (c: Cursor)
    requires start.pos == start.fieldNum == 0 && !start.done && Readable(0, fs) && Printed(fs) <= buf
    ensures c.pos == |Printed(fs)| && c.fieldNum == |fs| && !c.done && Run(buf, start) == Run(buf, c)
  {
    assert buf[0..|Printed(fs)|] == Printed(fs);
    Through(buf, start, fs);
    c := Turns(start, fs);
  }

  lemma StoppedFails(buf: seq<byte>, fs: seq<Raw>, e: ParseError)
    requires Stopped(buf, fs, e)
    ensures Run(buf, START) == Err(e)
  {
    var c := StoppedThrough(buf, START, fs);
    FailsFrom(buf, c, e);
  }

  lemma FailsStopped(buf: seq<byte>, e: ParseError) returns (fs: seq<Raw>)
    requires Run(buf, START) == Err(e)
    ensures Stopped(buf, fs, e)
  {
    var body, c := ReachedFrom(buf, START);
    fs := body;
    FailsReached(buf, c, body, e);
  }

  lemma FailsReached(buf: seq<byte>, c: Cursor, body: seq<Raw>, e: ParseError)
    requires Reached(buf, c, body) && Run(buf, c) == Err(e)
    ensures Stopped(buf, body, e)
  {
    assert buf[0..c.pos] == buf[..c.pos];
    OnlyTurn(buf, c, e);
    AdvanceRefused(buf, c, e);
  }

  lemma OnlyTurn(buf: seq<byte>, c: Cursor, e: ParseError)
    requires c.pos <= |buf| && Halts(buf, c.pos, c.fieldNum) && Run(buf, c) == Err(e)
    ensures c.pos < |buf| && Advance(buf, c) == Err(e)
  {
  }

  /** When the parser answers with error `e`. */
  ghost predicate Rejects(p: FixParser, buf: seq<byte>, e: ParseError) {
    match e
    case BufferTooShort => |buf| < 20
    case MessageTooLarge => |buf| >= 20 && |buf| > p.maxMessageSize
    case InvalidBodyLength =>
      SizeFits(p, buf) && p.validateBodyLength && exists fs :: IsMessage(buf, fs) && !LengthHolds(fs)
    case InvalidChecksum =>
      SizeFits(p, buf) && p.validateChecksum
      && exists fs :: IsMessage(buf, fs) && (p.validateBodyLength ==> LengthHolds(fs)) && !ChecksumHolds(fs)
    case _ => SizeFits(p, buf) && exists fs :: Stopped(buf, fs, e)
  }

  lemma RejectsSo(p: FixParser, buf: seq<byte>, e: ParseError)
    requires Rejects(p, buf, e)
    ensures Parse(p, buf) == Err(e)
  {
    match e
    case BufferTooShort =>
    case MessageTooLarge =>
    case InvalidBodyLength =>
      var fs :| IsMessage(buf, fs) && !LengthHolds(fs);
      ParsesTo(p, buf, fs);
    case InvalidChecksum =>
      var fs :| IsMessage(buf, fs) && (p.validateBodyLength ==> LengthHolds(fs)) && !ChecksumHolds(fs);
      ParsesTo(p, buf, fs);
    case _ =>
      var fs :| Stopped(buf, fs, e);
      StoppedFails(buf, fs, e);
  }

  lemma RejectedSo(p: FixParser, buf: seq<byte>, e: ParseError)
    requires Parse(p, buf) == Err(e)
    ensures Rejects(p, buf, e)
  {
    if SizeFits(p, buf) {
      if Run(buf, START).Ok? {
        var fs := RunAccepts(buf);
        ParsesTo(p, buf, fs);
      } else {
        var fs := FailsStopped(buf, e);
      }
    }
  }

  /** The parser answers with an error exactly where the message says so. */
  lemma RejectsExactly(p: FixParser, buf: seq<byte>, e: ParseError)
    ensures Parse(p, buf) == Err(e) <==> Rejects(p, buf, e)
  {
    if Rejects(p, buf, e) {
      RejectsSo(p, buf, e);
    }
    if Parse(p, buf) == Err(e) {
      RejectedSo(p, buf, e);
    }
  }

  // ----- the fields that come back -----

  lemma EntryResolves(buf: seq<byte>, pos: nat, f: Raw)
    requires pos + |RawBytes(f)| <= |buf| <= 0x1_0000 && buf[pos..pos + |RawBytes(f)|] == RawBytes(f)
    ensures var e := Entry(pos, f); e.offset + e.length <= |buf| && FieldValue(buf, e) == f.value
  {
    FieldHeld(buf, pos, f);
  }

  lemma {:induction false} IndexResolves(buf: seq<byte>, pos: nat, fs: seq<Raw>, k: nat)
    requires Holds(buf, pos, fs) && k < |fs| && |buf| <= 0x1_0000
    ensures var e := Index(pos, fs)[k];
      e.offset + e.length <= |buf| && e.tag == TagOf(fs[k]) && FieldValue(buf, e) == fs[k].value
    decreases fs
  {
    FirstHeld(buf, pos, fs);
    if k == 0 {
      EntryResolves(buf, pos, fs[0]);
    } else {
      IndexResolves(buf, pos + |RawBytes(fs[0])|, fs[1..], k - 1);
    }
  }

  /** The tag and value of every field up to the 512th, for a buffer of at most 65,536 bytes. */
  lemma AcceptedFields(p: FixParser, buf: seq<byte>, fs: seq<Raw>, k: nat)
    requires Parse(p, buf).Ok? && IsMessage(buf, fs) && k < |fs| && k < MAX_FIELDS && |buf| <= 0x1_0000
    ensures var es := Parse(p, buf).value.entries;
      |es| == (if |fs| <= MAX_FIELDS then |fs| else MAX_FIELDS)
      && Resolve(buf, es)[k] == Field(TagOf(fs[k]), fs[k].value)
  {
    ParsesTo(p, buf, fs);
    assert buf[0..|Printed(fs)|] == Printed(fs);
    IndexResolves(buf, 0, fs, k);
  }
}
