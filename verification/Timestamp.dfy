/** `src/timestamp.rs`: FIX UTC timestamps at millisecond, microsecond and nanosecond precision. */
module Timestamp {
  import opened Bytes
  import opened Decimal
  import opened Calendar

  /** A zero-padded number and the separator written behind it. */
  datatype Part = Part(width: nat, value: nat, separator: seq<byte>)

  function Render(parts: seq<Part>): seq<byte> {
    if parts == [] then []
    else Fixed(parts[0].width, parts[0].value) + parts[0].separator + Render(parts[1..])
  }

  // ----- byte-wise order -----

  /** Lexicographic order of byte strings. */
  predicate LexLess(a: seq<byte>, b: seq<byte>) {
    if a == [] || b == [] then a == [] && b != []
    else a[0] < b[0] || (a[0] == b[0] && LexLess(a[1..], b[1..]))
  }

  lemma {:induction false} LexPrefix(a: seq<byte>, b: seq<byte>, c: seq<byte>, d: seq<byte>)
    requires |a| == |b| && LexLess(a, b)
    ensures LexLess(a + c, b + d)
  {
    assert (a + c)[1..] == a[1..] + c && (b + d)[1..] == b[1..] + d;
    if a[0] == b[0] {
      LexPrefix(a[1..], b[1..], c, d);
    }
  }

  lemma {:induction false} LexCommon(p: seq<byte>, a: seq<byte>, b: seq<byte>)
    requires LexLess(a, b)
    ensures LexLess(p + a, p + b)
  {
    if p == [] {
      assert p + a == a && p + b == b;
    } else {
      assert (p + a)[1..] == p[1..] + a && (p + b)[1..] == p[1..] + b;
      LexCommon(p[1..], a, b);
    }
  }

  lemma {:induction false} LexIrreflexive(a: seq<byte>)
    ensures !LexLess(a, a)
  {
    if a != [] {
      LexIrreflexive(a[1..]);
    }
  }

  /** Numbers padded to one width sort like numbers. */
  lemma {:induction false} FixedOrdered(width: nat, u: nat, v: nat)
    requires u < v < Pow10(width)
    ensures LexLess(Fixed(width, u), Fixed(width, v))
  {
    if u / 10 < v / 10 {
      FixedOrdered(width - 1, u / 10, v / 10);
      LexPrefix(Fixed(width - 1, u / 10), Fixed(width - 1, v / 10), [ZERO + u % 10], [ZERO + v % 10]);
    } else {
      assert u / 10 == v / 10;
      LexCommon(Fixed(width - 1, u / 10), [ZERO + u % 10], [ZERO + v % 10]);
    }
  }

  /** Two part lists of one layout, every value within its width. */
  predicate SameLayout(p: seq<Part>, q: seq<Part>) {
    && |p| == |q|
    && forall k :: 0 <= k < |p| ==>
         && p[k].width == q[k].width && p[k].separator == q[k].separator
         && p[k].value < Pow10(p[k].width) && q[k].value < Pow10(q[k].width)
  }

  predicate PartsLess(p: seq<Part>, q: seq<Part>)
    requires |p| == |q|
  {
    p != [] && (p[0].value < q[0].value || (p[0].value == q[0].value && PartsLess(p[1..], q[1..])))
  }

  lemma {:induction false} RenderOrdered(p: seq<Part>, q: seq<Part>)
    requires SameLayout(p, q) && PartsLess(p, q)
    ensures LexLess(Render(p), Render(q))
  {
    var a, b := p[0], q[0];
    var restP, restQ := a.separator + Render(p[1..]), b.separator + Render(q[1..]);
    assert Render(p) == Fixed(a.width, a.value) + restP;
    assert Render(q) == Fixed(b.width, b.value) + restQ;
    if a.value < b.value {
      FixedOrdered(a.width, a.value, b.value);
      LexPrefix(Fixed(a.width, a.value), Fixed(b.width, b.value), restP, restQ);
    } else {
      RenderOrdered(p[1..], q[1..]);
      LexCommon(a.separator, Render(p[1..]), Render(q[1..]));
      LexCommon(Fixed(a.width, a.value), restP, restQ);
    }
  }

  // ----- the components -----

  /** `to_utc_components`. */
  datatype Utc = Utc(date: Date, hour: nat, minute: nat, second: nat, frac: nat)

  function ToUtc(nanos: nat): Utc {
    var secs := nanos / 1_000_000_000;
    var daySecs := secs % 86400;
    Utc(CivilFromDays(secs / 86400), daySecs / 3600, daySecs % 3600 / 60, daySecs % 60, nanos % 1_000_000_000)
  }

  lemma DaysInRange(nanos: u64)
    ensures 0 <= nanos / 1_000_000_000 / 86400 < 213_504
  {
  }

  lemma YearEnds()
    ensures DayNumber(Date(1970, 1, 1)) == 0
    ensures DayNumber(Date(2555, 1, 1)) == 213_667
  {
    assert DaysBeforeYear(1970) == 719_162;
    assert DaysBeforeYear(2555) == 932_829;
  }

  lemma YearOfDay(d: Date)
    requires ValidDate(d) && 0 <= DayNumber(d) < 213_504
    ensures 1970 <= d.year < 2555
  {
    YearEnds();
    if Earlier(d, Date(1970, 1, 1)) {
      DayNumberGrows(d, Date(1970, 1, 1));
    } else if Earlier(Date(2555, 1, 1), d) {
      DayNumberGrows(Date(2555, 1, 1), d);
    }
  }

  /** Every nanosecond count of 64 bits falls in a four-digit year. */
  lemma YearInRange(nanos: u64)
    ensures ValidDate(ToUtc(nanos).date) && 1970 <= ToUtc(nanos).date.year < 2555
  {
    DaysInRange(nanos);
    CivilCounts(nanos / 1_000_000_000 / 86400);
    YearOfDay(ToUtc(nanos).date);
  }

  predicate ValidUtc(u: Utc) {
    && ValidDate(u.date) && 0 <= u.date.year < 10_000
    && u.hour < 24 && u.minute < 60 && u.second < 60 && u.frac < 1_000_000_000
  }

  lemma UtcValid(nanos: u64)
    ensures ValidUtc(ToUtc(nanos))
  {
    YearInRange(nanos);
    ClockRange(nanos);
  }

  lemma ClockRange(nanos: nat)
    ensures var u := ToUtc(nanos); u.hour < 24 && u.minute < 60 && u.second < 60 && u.frac < 1_000_000_000
  {
  }

  /** The parts of a timestamp with `width` fractional digits worth `unit` nanoseconds each. */
  function Parts(u: Utc, width: nat, unit: nat): (p: seq<Part>)
    requires ValidUtc(u) && unit > 0
    ensures |p| == 7
  {
    [Part(4, u.date.year, []), Part(2, u.date.month, []), Part(2, u.date.day, [0x2D]),
     Part(2, u.hour, [0x3A]), Part(2, u.minute, [0x3A]), Part(2, u.second, [0x2E]), Part(width, u.frac / unit, [])]
  }

  /** Milliseconds, microseconds and nanoseconds: three, six and nine digits. */
  predicate Precision(width: nat, unit: nat) {
    (width == 3 && unit == 1_000_000) || (width == 6 && unit == 1_000) || (width == 9 && unit == 1)
  }

  /** The text of `to_fix_timestamp`, `to_fix_timestamp_us` and `to_fix_timestamp_ns`. */
  function FixTimestamp(nanos: u64, width: nat, unit: nat): seq<byte>
    requires unit > 0
  {
    UtcValid(nanos);
    Render(Parts(ToUtc(nanos), width, unit))
  }

  lemma FracRange(frac: nat, width: nat, unit: nat)
    requires Precision(width, unit) && frac < 1_000_000_000
    ensures frac / unit < Pow10(width)
  {
    PowersOfTen();
    assert Pow10(9) == 1_000 * Pow10(6) by { assert Pow10(8) == 100 * Pow10(6); }
  }

  lemma PartsFit(u: Utc, v: Utc, width: nat, unit: nat)
    requires ValidUtc(u) && ValidUtc(v) && Precision(width, unit)
    ensures SameLayout(Parts(u, width, unit), Parts(v, width, unit))
  {
    FracRange(u.frac, width, unit);
    FracRange(v.frac, width, unit);
    assert Pow10(2) == 100 && Pow10(4) == 100 * Pow10(2);
  }

  // ----- order -----

  lemma {:induction false} PartsLessAt(p: seq<Part>, q: seq<Part>, k: nat)
    requires |p| == |q| && k < |p| && p[k].value < q[k].value
    requires forall i :: 0 <= i < k ==> p[i].value == q[i].value
    ensures PartsLess(p, q)
  {
    if k > 0 {
      assert forall i :: 0 <= i < k - 1 ==> p[1..][i] == p[i + 1] && q[1..][i] == q[i + 1];
      PartsLessAt(p[1..], q[1..], k - 1);
    }
  }

  /** Which component of the text tells two instants apart first. */
  function FirstDifference(u: Utc, v: Utc): nat {
    if u.date.year != v.date.year then 0
    else if u.date.month != v.date.month then 1
    else if u.date.day != v.date.day then 2
    else if u.hour != v.hour then 3
    else if u.minute != v.minute then 4
    else if u.second != v.second then 5
    else 6
  }

  predicate UtcEarlier(u: Utc, v: Utc, unit: nat)
    requires unit > 0
  {
    || Earlier(u.date, v.date)
    || (u.date == v.date && (u.hour < v.hour
        || (u.hour == v.hour && (u.minute < v.minute
            || (u.minute == v.minute && (u.second < v.second
                || (u.second == v.second && u.frac / unit < v.frac / unit)))))))
  }

  lemma ClockOrdered(s: nat, t: nat)
    requires s < t < 86400
    ensures s / 3600 <= t / 3600
    ensures s / 3600 == t / 3600 ==> s % 3600 / 60 <= t % 3600 / 60
    ensures s / 3600 == t / 3600 && s % 3600 / 60 == t % 3600 / 60 ==> s % 60 < t % 60
  {
  }

  /** A later tick of the chosen precision is a later instant of the UTC clock. */
  lemma UtcOrdered(m: u64, n: u64, width: nat, unit: nat)
    requires Precision(width, unit) && m / unit < n / unit
    ensures UtcEarlier(ToUtc(m), ToUtc(n), unit)
  {
    var a, b := m / 1_000_000_000, n / 1_000_000_000;
    TickSplit(m, n, width, unit);
    if a / 86400 < b / 86400 {
      CivilOrdered(a / 86400, b / 86400);
    } else if a < b {
      SameDay(a, b);
      ClockOrdered(a % 86400, b % 86400);
    }
  }

  lemma SameDay(a: nat, b: nat)
    requires a < b && a / 86400 >= b / 86400
    ensures a / 86400 == b / 86400 && a % 86400 < b % 86400
  {
  }

  /** A tick count is whole seconds in ticks plus the ticks of the fraction. */
  lemma TickOf(m: nat, width: nat, unit: nat)
    requires Precision(width, unit)
    ensures var a, f := m / 1_000_000_000, m % 1_000_000_000 / unit;
      if width == 3 then m / unit == 1_000 * a + f && f < 1_000
      else if width == 6 then m / unit == 1_000_000 * a + f && f < 1_000_000
      else m / unit == 1_000_000_000 * a + f && f < 1_000_000_000
  {
    var a, r := m / 1_000_000_000, m % 1_000_000_000;
    if width == 3 {
      DivModUnique(m, 1_000_000, 1_000 * a + r / 1_000_000, r % 1_000_000);
    } else if width == 6 {
      DivModUnique(m, 1_000, 1_000_000 * a + r / 1_000, r % 1_000);
    }
  }

  lemma TickSplit(m: u64, n: u64, width: nat, unit: nat)
    requires Precision(width, unit)
    ensures var a, b := m / 1_000_000_000, n / 1_000_000_000;
      var f, g := m % 1_000_000_000 / unit, n % 1_000_000_000 / unit;
      && (m / unit < n / unit <==> a < b || (a == b && f < g))
      && (m / unit == n / unit <==> a == b && f == g)
  {
    TickOf(m, width, unit);
    TickOf(n, width, unit);
  }

  lemma PartsOrdered(u: Utc, v: Utc, width: nat, unit: nat)
    requires ValidUtc(u) && ValidUtc(v) && unit > 0 && UtcEarlier(u, v, unit)
    ensures PartsLess(Parts(u, width, unit), Parts(v, width, unit))
  {
    PartsLessAt(Parts(u, width, unit), Parts(v, width, unit), FirstDifference(u, v));
  }

  lemma LaterSortsAfter(m: u64, n: u64, width: nat, unit: nat)
    requires Precision(width, unit) && m / unit < n / unit
    ensures LexLess(FixTimestamp(m, width, unit), FixTimestamp(n, width, unit))
  {
    var u, v := ToUtc(m), ToUtc(n);
    UtcValid(m);
    UtcValid(n);
    UtcOrdered(m, n, width, unit);
    PartsOrdered(u, v, width, unit);
    PartsFit(u, v, width, unit);
    RenderOrdered(Parts(u, width, unit), Parts(v, width, unit));
  }

  lemma SameTickSameText(m: u64, n: u64, width: nat, unit: nat)
    requires Precision(width, unit) && m / unit == n / unit
    ensures FixTimestamp(m, width, unit) == FixTimestamp(n, width, unit)
  {
    TickSplit(m, n, width, unit);
    UtcValid(m);
    UtcValid(n);
    assert Parts(ToUtc(m), width, unit) == Parts(ToUtc(n), width, unit);
  }

  /** Timestamps sort by their bytes exactly as their instants do, at the precision printed:
      a later tick prints a greater text and only the same tick prints the same text. */
  lemma TimestampOrdered(m: u64, n: u64, width: nat, unit: nat)
    requires Precision(width, unit)
    ensures m / unit < n / unit <==> LexLess(FixTimestamp(m, width, unit), FixTimestamp(n, width, unit))
    ensures m / unit == n / unit <==> FixTimestamp(m, width, unit) == FixTimestamp(n, width, unit)
  {
    var s, t := FixTimestamp(m, width, unit), FixTimestamp(n, width, unit);
    LexIrreflexive(s);
    if m / unit < n / unit {
      LaterSortsAfter(m, n, width, unit);
    } else if m / unit > n / unit {
      LaterSortsAfter(n, m, width, unit);
      LexAsymmetric(t, s);
    } else {
      SameTickSameText(m, n, width, unit);
    }
  }

  lemma {:induction false} LexAsymmetric(a: seq<byte>, b: seq<byte>)
    requires LexLess(a, b)
    ensures !LexLess(b, a)
  {
    if a != [] && a[0] == b[0] {
      LexAsymmetric(a[1..], b[1..]);
    }
  }

  // ----- byte classes -----

  /** The pattern of a part list: None for a digit, Some for a fixed separator. */
  function Pattern(parts: seq<Part>): seq<Option<byte>> {
    if parts == [] then []
    else
      seq(parts[0].width, _ => None)
      + seq(|parts[0].separator|, k requires 0 <= k < |parts[0].separator| => Some(parts[0].separator[k]))
      + Pattern(parts[1..])
  }

  predicate Matches(s: seq<byte>, pattern: seq<Option<byte>>) {
    |s| == |pattern|
    && forall k :: 0 <= k < |s| ==> if pattern[k].Some? then s[k] == pattern[k].value else IsDigit(s[k])
  }

  lemma {:induction false} RenderMatches(parts: seq<Part>)
    ensures Matches(Render(parts), Pattern(parts))
  {
    if parts != [] {
      RenderMatches(parts[1..]);
      FixedValue(parts[0].width, parts[0].value);
      MatchesConcat(Fixed(parts[0].width, parts[0].value) + parts[0].separator, Render(parts[1..]),
                    Pattern(parts)[..parts[0].width + |parts[0].separator|], Pattern(parts[1..]));
    }
  }

  lemma MatchesConcat(a: seq<byte>, b: seq<byte>, p: seq<Option<byte>>, q: seq<Option<byte>>)
    requires Matches(a, p) && Matches(b, q)
    ensures Matches(a + b, p + q)
  {
  }

  /** YYYYMMDD-HH:MM:SS.fff..., a digit in every place but the four separators. */
  function Layout(width: nat): seq<Option<byte>> {
    [None, None, None, None, None, None, None, None, Some(0x2D),
     None, None, Some(0x3A), None, None, Some(0x3A), None, None, Some(0x2E)]
    + seq(width, _ => None)
  }

  lemma PatternAt(p: seq<Part>, k: nat, width: nat, separator: seq<byte>, tail: seq<Option<byte>>)
    requires k < |p| && p[k].width == width && p[k].separator == separator && |separator| <= 1
    requires Pattern(p[k + 1..]) == tail
    ensures Pattern(p[k..]) == seq(width, _ => None) + (if separator == [] then [] else [Some(separator[0])]) + tail
  {
    assert p[k..][1..] == p[k + 1..];
  }

  lemma PartsPattern(u: Utc, width: nat, unit: nat)
    requires ValidUtc(u) && unit > 0
    ensures Pattern(Parts(u, width, unit)) == Layout(width)
  {
    var p := Parts(u, width, unit);
    var frac: seq<Option<byte>> := seq(width, _ => None);
    assert p[7..] == [];
    PatternAt(p, 6, width, [], []);
    assert frac + [] + [] == frac;
    ClockPattern(p, frac);
    DatePattern(p, Pattern(p[3..]));
    assert p[0..] == p;
  }

  lemma ClockPattern(p: seq<Part>, frac: seq<Option<byte>>)
    requires |p| == 7 && Pattern(p[6..]) == frac && p[3].width == p[4].width == p[5].width == 2
    requires p[3].separator == p[4].separator == [0x3A] && p[5].separator == [0x2E]
    ensures Pattern(p[3..]) == [None, None, Some(0x3A), None, None, Some(0x3A), None, None, Some(0x2E)] + frac
  {
    PatternAt(p, 5, 2, [0x2E], frac);
    PatternAt(p, 4, 2, [0x3A], Pattern(p[5..]));
    PatternAt(p, 3, 2, [0x3A], Pattern(p[4..]));
  }

  lemma DatePattern(p: seq<Part>, clock: seq<Option<byte>>)
    requires |p| == 7 && Pattern(p[3..]) == clock && p[0].width == 4 && p[1].width == p[2].width == 2
    requires p[0].separator == p[1].separator == [] && p[2].separator == [0x2D]
    ensures Pattern(p[0..]) == [None, None, None, None, None, None, None, None, Some(0x2D)] + clock
  {
    PatternAt(p, 2, 2, [0x2D], clock);
    PatternAt(p, 1, 2, [], Pattern(p[2..]));
    PatternAt(p, 0, 4, [], Pattern(p[1..]));
  }

  /** Fixed length, every byte of its class; in particular no byte is a field delimiter. */
  lemma TimestampShape(nanos: u64, width: nat, unit: nat)
    requires unit > 0
    ensures Matches(FixTimestamp(nanos, width, unit), Layout(width))
    ensures SOH !in FixTimestamp(nanos, width, unit)
  {
    UtcValid(nanos);
    RenderMatches(Parts(ToUtc(nanos), width, unit));
    PartsPattern(ToUtc(nanos), width, unit);
    MatchesNoSoh(FixTimestamp(nanos, width, unit), width);
  }

  lemma MatchesNoSoh(s: seq<byte>, width: nat)
    requires Matches(s, Layout(width))
    ensures SOH !in s
  {
    forall k | 0 <= k < |s| ensures s[k] != SOH {
      assert Layout(width)[k].Some? ==> k < 18;
    }
  }

  // ----- the in-place writers -----

  lemma {:induction false} FixedAt(width: nat, n: nat, i: nat)
    requires i < width
    ensures Fixed(width, n)[i] == ZERO + n / Pow10(width - 1 - i) % 10
  {
    if i < width - 1 {
      FixedAt(width - 1, n / 10, i);
      DivTwice(n, Pow10(width - 2 - i));
      assert Pow10(width - 1 - i) == 10 * Pow10(width - 2 - i);
    }
  }

  lemma DivTwice(n: nat, p: nat)
    requires p > 0
    ensures n / 10 / p == n / (10 * p)
  {
    var q, r := n / 10 / p, n / 10 % p;
    assert n == q * (10 * p) + (10 * r + n % 10) by { assert 10 * (q * p + r) == q * (10 * p) + 10 * r; }
    DivModUnique(n, 10 * p, q, 10 * r + n % 10);
  }

  lemma FixedPair(n: nat)
    ensures Fixed(2, n) == [ZERO + n / 10 % 10, ZERO + n % 10]
  {
    assert Fixed(1, n / 10) == Fixed(0, n / 10 / 10) + [ZERO + n / 10 % 10];
  }

  lemma FixedFour(n: nat)
    ensures Fixed(4, n) == [ZERO + n / 1000 % 10, ZERO + n / 100 % 10, ZERO + n / 10 % 10, ZERO + n % 10]
  {
    assert Pow10(2) == 100 && Pow10(3) == 10 * Pow10(2);
    FixedAt(4, n, 0);
    FixedAt(4, n, 1);
    FixedAt(4, n, 2);
  }

  /** A number of `width + 3` digits is a number of `width` digits and three more. */
  lemma {:induction false} FixedSplit(width: nat, n: nat)
    ensures Fixed(width + 3, n) == Fixed(width, n / 1000) + Fixed(3, n)
  {
    assert Fixed(width + 3, n) == Fixed(width + 2, n / 10) + [ZERO + n % 10];
    assert Fixed(width + 2, n / 10) == Fixed(width + 1, n / 10 / 10) + [ZERO + n / 10 % 10];
    assert Fixed(width + 1, n / 10 / 10) == Fixed(width, n / 10 / 10 / 10) + [ZERO + n / 10 / 10 % 10];
    assert n / 10 / 10 / 10 == n / 1000 && n / 10 / 10 == n / 100;
    FixedThree(n);
  }

  method WriteByte(buf: array<byte>, at: nat, b: byte)
    requires at < buf.Length
    modifies buf
    ensures buf[..at + 1] == old(buf[..at]) + [b]
  {
    buf[at] := b;
  }

  method WriteDigits2(buf: array<byte>, at: nat, val: nat)
    requires at + 2 <= buf.Length && val < 100
    modifies buf
    ensures buf[..at + 2] == old(buf[..at]) + Fixed(2, val)
  {
    FixedPair(val);
    buf[at] := ZERO + val / 10;
    buf[at + 1] := ZERO + val % 10;
  }

  method WriteDigits3(buf: array<byte>, at: nat, val: nat)
    requires at + 3 <= buf.Length && val < 1_000
    modifies buf
    ensures buf[..at + 3] == old(buf[..at]) + Fixed(3, val)
  {
    FixedThree(val);
    buf[at] := ZERO + val / 100;
    buf[at + 1] := ZERO + val / 10 % 10;
    buf[at + 2] := ZERO + val % 10;
  }

  method WriteDigits4(buf: array<byte>, at: nat, val: nat)
    requires at + 4 <= buf.Length && val < 10_000
    modifies buf
    ensures buf[..at + 4] == old(buf[..at]) + Fixed(4, val)
  {
    FixedFour(val);
    buf[at] := ZERO + val / 1000;
    buf[at + 1] := ZERO + val / 100 % 10;
    buf[at + 2] := ZERO + val / 10 % 10;
    buf[at + 3] := ZERO + val % 10;
  }

  lemma Thousands(n: nat)
    ensures n / 1000 / 100_000 == n / 100_000_000 && n / 1000 / 10_000 == n / 10_000_000
    ensures n / 1000 / 1_000 == n / 1_000_000
    ensures n / 1000 / 100 == n / 100_000 && n / 1000 / 10 == n / 10_000
  {
  }

  lemma FixedSix(n: nat)
    requires n < 1_000_000
    ensures Fixed(6, n) == [ZERO + n / 100_000, ZERO + n / 10_000 % 10, ZERO + n / 1_000 % 10]
                         + [ZERO + n / 100 % 10, ZERO + n / 10 % 10, ZERO + n % 10]
  {
    FixedSplit(3, n);
    FixedThree(n / 1000);
    FixedThree(n);
    Thousands(n);
    SixDigits(Fixed(3, n / 1000), n / 1000, n);
  }

  lemma SixDigits(high: seq<byte>, k: nat, n: nat)
    requires high == [ZERO + k / 100 % 10, ZERO + k / 10 % 10, ZERO + k % 10] && k < 1000 && k == n / 1000
    requires k / 100 == n / 100_000 && k / 10 == n / 10_000
    ensures high == [ZERO + n / 100_000, ZERO + n / 10_000 % 10, ZERO + n / 1_000 % 10]
  {
  }

  method WriteDigits6(buf: array<byte>, at: nat, val: nat)
    requires at + 6 <= buf.Length && val < 1_000_000
    modifies buf
    ensures buf[..at + 6] == old(buf[..at]) + Fixed(6, val)
  {
    FixedSix(val);
    buf[at] := ZERO + val / 100_000;
    buf[at + 1] := ZERO + val / 10_000 % 10;
    buf[at + 2] := ZERO + val / 1_000 % 10;
    buf[at + 3] := ZERO + val / 100 % 10;
    buf[at + 4] := ZERO + val / 10 % 10;
    buf[at + 5] := ZERO + val % 10;
  }

  lemma FixedNine(n: nat)
    requires n < 1_000_000_000
    ensures Fixed(9, n) == [ZERO + n / 100_000_000, ZERO + n / 10_000_000 % 10, ZERO + n / 1_000_000 % 10]
                         + [ZERO + n / 100_000 % 10, ZERO + n / 10_000 % 10, ZERO + n / 1_000 % 10]
                         + [ZERO + n / 100 % 10, ZERO + n / 10 % 10, ZERO + n % 10]
  {
    FixedSplit(6, n);
    FixedSix(n / 1000);
    FixedThree(n);
    Thousands(n);
  }

  method WriteDigits9(buf: array<byte>, at: nat, val: nat)
    requires at + 9 <= buf.Length && val < 1_000_000_000
    modifies buf
    ensures buf[..at + 9] == old(buf[..at]) + Fixed(9, val)
  {
    FixedNine(val);
    buf[at] := ZERO + val / 100_000_000;
    buf[at + 1] := ZERO + val / 10_000_000 % 10;
    buf[at + 2] := ZERO + val / 1_000_000 % 10;
    buf[at + 3] := ZERO + val / 100_000 % 10;
    buf[at + 4] := ZERO + val / 10_000 % 10;
    buf[at + 5] := ZERO + val / 1_000 % 10;
    buf[at + 6] := ZERO + val / 100 % 10;
    buf[at + 7] := ZERO + val / 10 % 10;
    buf[at + 8] := ZERO + val % 10;
  }

  /** `write_date`, the '-', `write_time` and the '.': the eighteen bytes every precision shares. */
  method WriteDateAndTime(buf: array<byte>, u: Utc)
    requires buf.Length >= 18 && ValidUtc(u)
    modifies buf
    ensures buf[..18] == Fixed(4, u.date.year) + Fixed(2, u.date.month) + Fixed(2, u.date.day) + [0x2D]
                       + Fixed(2, u.hour) + [0x3A] + Fixed(2, u.minute) + [0x3A] + Fixed(2, u.second) + [0x2E]
  {
    WriteDigits4(buf, 0, u.date.year);
    assert buf[..4] == Fixed(4, u.date.year);
    WriteDigits2(buf, 4, u.date.month);
    WriteDigits2(buf, 6, u.date.day);
    WriteByte(buf, 8, 0x2D);
    WriteDigits2(buf, 9, u.hour);
    WriteByte(buf, 11, 0x3A);
    WriteDigits2(buf, 12, u.minute);
    WriteByte(buf, 14, 0x3A);
    WriteDigits2(buf, 15, u.second);
    WriteByte(buf, 17, 0x2E);
  }

  lemma RenderAt(p: seq<Part>, k: nat)
    requires k < |p|
    ensures Render(p[k..]) == Fixed(p[k].width, p[k].value) + p[k].separator + Render(p[k + 1..])
  {
    assert p[k..][1..] == p[k + 1..];
  }

  lemma RenderClock(u: Utc, width: nat, unit: nat, frac: nat, clock: seq<byte>)
    requires ValidUtc(u) && unit > 0 && frac == u.frac / unit && clock == Render(Parts(u, width, unit)[3..])
    ensures clock
      == Fixed(2, u.hour) + [0x3A] + (Fixed(2, u.minute) + [0x3A] + (Fixed(2, u.second) + [0x2E] + Fixed(width, frac)))
  {
    var p := Parts(u, width, unit);
    RenderAt(p, 6);
    assert p[7..] == [];
    assert Fixed(width, frac) + [] + [] == Fixed(width, frac);
    RenderAt(p, 5);
    RenderAt(p, 4);
    RenderAt(p, 3);
  }

  lemma RenderDate(u: Utc, width: nat, unit: nat, clock: seq<byte>, all: seq<byte>)
    requires ValidUtc(u) && unit > 0
    requires clock == Render(Parts(u, width, unit)[3..]) && all == Render(Parts(u, width, unit))
    ensures all
      == Fixed(4, u.date.year) + [] + (Fixed(2, u.date.month) + [] + (Fixed(2, u.date.day) + [0x2D] + clock))
  {
    var p := Parts(u, width, unit);
    RenderAt(p, 2);
    RenderAt(p, 1);
    RenderAt(p, 0);
    assert p[0..] == p;
  }

  lemma Flat(all: seq<byte>, clock: seq<byte>, y: seq<byte>, m: seq<byte>, d: seq<byte>, dash: seq<byte>,
             h: seq<byte>, n: seq<byte>, s: seq<byte>, colon: seq<byte>, dot: seq<byte>, f: seq<byte>)
    requires all == y + [] + (m + [] + (d + dash + clock)) && clock == h + colon + (n + colon + (s + dot + f))
    ensures all == y + m + d + dash + h + colon + n + colon + s + dot + f
  {
  }

  lemma RenderShape(u: Utc, width: nat, unit: nat, frac: nat, all: seq<byte>)
    requires ValidUtc(u) && unit > 0 && frac == u.frac / unit && all == Render(Parts(u, width, unit))
    ensures all
      == Fixed(4, u.date.year) + Fixed(2, u.date.month) + Fixed(2, u.date.day) + [0x2D]
       + Fixed(2, u.hour) + [0x3A] + Fixed(2, u.minute) + [0x3A] + Fixed(2, u.second) + [0x2E] + Fixed(width, frac)
  {
    var clock := Render(Parts(u, width, unit)[3..]);
    RenderClock(u, width, unit, frac, clock);
    RenderDate(u, width, unit, clock, all);
    Flat(all, clock, Fixed(4, u.date.year), Fixed(2, u.date.month), Fixed(2, u.date.day), [0x2D],
         Fixed(2, u.hour), Fixed(2, u.minute), Fixed(2, u.second), [0x3A], [0x2E], Fixed(width, frac));
  }

  // ----- reading a timestamp -----

  function DateRead(s: seq<byte>): Date
    requires |s| >= 18
  {
    Date(Value(s[..4]), Value(s[4..6]), Value(s[6..8]))
  }

  /** A clock time with two digits each. */
  predicate ClockRead(s: seq<byte>)
    requires |s| >= 18
  {
    0 <= Value(s[9..11]) < 24 && 0 <= Value(s[12..14]) < 60 && 0 <= Value(s[15..17]) < 60
  }

  function SecondOfDay(s: seq<byte>): int
    requires |s| >= 18
  {
    3600 * Value(s[9..11]) + 60 * Value(s[12..14]) + Value(s[15..17])
  }

  lemma Slices(all: seq<byte>, y: seq<byte>, m: seq<byte>, d: seq<byte>, dash: seq<byte>,
               h: seq<byte>, n: seq<byte>, s: seq<byte>, colon: seq<byte>, dot: seq<byte>, f: seq<byte>)
    requires all == y + m + d + dash + h + colon + n + colon + s + dot + f
    requires |y| == 4 && |m| == |d| == |h| == |n| == |s| == 2 && |dash| == |colon| == |dot| == 1
    ensures |all| == 18 + |f| && all[..4] == y && all[4..6] == m && all[6..8] == d
    ensures all[9..11] == h && all[12..14] == n && all[15..17] == s && all[18..] == f
  {
  }

  lemma FixedReads(width: nat, n: nat)
    requires n < Pow10(width)
    ensures Value(Fixed(width, n)) == n
  {
    FixedValue(width, n);
  }

  /** The text shows these components. */
  predicate Shows(s: seq<byte>, width: nat, u: Utc, frac: nat) {
    && |s| == 18 + width && DateRead(s) == u.date && Value(s[18..]) == frac
    && Value(s[9..11]) == u.hour && Value(s[12..14]) == u.minute && Value(s[15..17]) == u.second
  }

  lemma FieldsRead(u: Utc, width: nat, unit: nat, s: seq<byte>)
    requires ValidUtc(u) && Precision(width, unit) && s == Render(Parts(u, width, unit))
    ensures Shows(s, width, u, u.frac / unit)
  {
    var frac := u.frac / unit;
    RenderShape(u, width, unit, frac, s);
    Slices(s, Fixed(4, u.date.year), Fixed(2, u.date.month), Fixed(2, u.date.day), [0x2D],
           Fixed(2, u.hour), Fixed(2, u.minute), Fixed(2, u.second), [0x3A], [0x2E], Fixed(width, frac));
    FracRange(u.frac, width, unit);
    assert Pow10(2) == 100 && Pow10(4) == 100 * Pow10(2);
    FixedReads(4, u.date.year);
    FixedReads(2, u.date.month);
    FixedReads(2, u.date.day);
    FixedReads(2, u.hour);
    FixedReads(2, u.minute);
    FixedReads(2, u.second);
    FixedReads(width, frac);
  }

  lemma ClockAdds(daySecs: nat)
    ensures 3600 * (daySecs / 3600) + 60 * (daySecs % 3600 / 60) + daySecs % 60 == daySecs
  {
    DivModUnique(daySecs, 60, 60 * (daySecs / 3600) + daySecs % 3600 / 60, daySecs % 3600 % 60);
  }

  lemma UtcAdds(nanos: nat, u: Utc, secs: nat)
    requires u == ToUtc(nanos) && secs == nanos / 1_000_000_000
    ensures u.date == CivilFromDays(secs / 86400) && u.frac == nanos % 1_000_000_000
    ensures 3600 * u.hour + 60 * u.minute + u.second == secs % 86400
  {
    ClockAdds(secs % 86400);
  }

  lemma PowerOf(width: nat, unit: nat)
    requires Precision(width, unit)
    ensures Pow10(width) == if width == 3 then 1_000 else if width == 6 then 1_000_000 else 1_000_000_000
  {
    PowersOfTen();
    assert Pow10(9) == 1_000 * Pow10(6) by { assert Pow10(8) == 100 * Pow10(6); }
  }

  lemma TicksAdd(nanos: nat, width: nat, unit: nat, secs: nat, frac: nat)
    requires Precision(width, unit) && secs == nanos / 1_000_000_000 && frac == nanos % 1_000_000_000 / unit
    ensures secs * Pow10(width) + frac == nanos / unit
  {
    TickOf(nanos, width, unit);
    PowerOf(width, unit);
  }

  /** The instant a text states, in ticks of its precision. */
  function Instant(s: seq<byte>, width: nat): int
    requires |s| == 18 + width && ValidDate(DateRead(s))
  {
    (DayNumber(DateRead(s)) * 86400 + SecondOfDay(s)) * Pow10(width) + Value(s[18..])
  }

  lemma InstantAdds(d: Date, second: int, secs: nat)
    requires ValidDate(d) && DayNumber(d) == secs / 86400 && second == secs % 86400
    ensures DayNumber(d) * 86400 + second == secs
  {
  }

  lemma ComponentsAdd(nanos: nat, u: Utc, secs: nat)
    requires u == ToUtc(nanos) && secs == nanos / 1_000_000_000
    ensures ValidDate(u.date) && DayNumber(u.date) * 86400 + (3600 * u.hour + 60 * u.minute + u.second) == secs
    ensures u.frac == nanos % 1_000_000_000
  {
    UtcAdds(nanos, u, secs);
    CivilCounts(secs / 86400);
    InstantAdds(u.date, 3600 * u.hour + 60 * u.minute + u.second, secs);
  }

  /** The text states instant `n`. */
  predicate States(s: seq<byte>, width: nat, n: int) {
    |s| == 18 + width && ValidDate(DateRead(s)) && ClockRead(s) && Instant(s, width) == n
  }

  /** The components add up to `n` ticks. */
  predicate Amounts(u: Utc, width: nat, frac: nat, n: nat) {
    && ValidUtc(u)
    && (DayNumber(u.date) * 86400 + (3600 * u.hour + 60 * u.minute + u.second)) * Pow10(width) + frac == n
  }

  lemma ShowsInstant(s: seq<byte>, width: nat, u: Utc, frac: nat, n: nat)
    requires Shows(s, width, u, frac) && Amounts(u, width, frac, n)
    ensures States(s, width, n)
  {
  }

  lemma AmountsIs(u: Utc, width: nat, secs: nat, frac: nat, n: nat)
    requires ValidUtc(u) && DayNumber(u.date) * 86400 + (3600 * u.hour + 60 * u.minute + u.second) == secs
    requires secs * Pow10(width) + frac == n
    ensures Amounts(u, width, frac, n)
  {
  }

  lemma UtcAmounts(nanos: nat, width: nat, unit: nat, u: Utc, frac: nat, n: nat)
    requires Precision(width, unit) && u == ToUtc(nanos) && ValidUtc(u) && frac == u.frac / unit && n == nanos / unit
    ensures Amounts(u, width, frac, n)
  {
    var secs := nanos / 1_000_000_000;
    ComponentsAdd(nanos, u, secs);
    TicksAdd(nanos, width, unit, secs, frac);
    AmountsIs(u, width, secs, frac, n);
  }

  lemma TextStates(nanos: u64, width: nat, unit: nat, u: Utc, frac: nat, n: nat, s: seq<byte>)
    requires Precision(width, unit) && u == ToUtc(nanos) && ValidUtc(u) && frac == u.frac / unit && n == nanos / unit
    requires s == Render(Parts(u, width, unit))
    ensures States(s, width, n)
  {
    FieldsRead(u, width, unit, s);
    UtcAmounts(nanos, width, unit, u, frac, n);
    ShowsInstant(s, width, u, frac, n);
  }

  /** Read back, a timestamp is a calendar date and a clock time, and the days since 1970-01-01, the seconds of the
      day and the fraction add up to the instant it was printed for. */
  lemma TimestampReads(nanos: u64, width: nat, unit: nat)
    requires Precision(width, unit)
    ensures States(FixTimestamp(nanos, width, unit), width, nanos / unit)
  {
    var u := ToUtc(nanos);
    UtcValid(nanos);
    TextStates(nanos, width, unit, u, u.frac / unit, nanos / unit, FixTimestamp(nanos, width, unit));
  }

  // ----- the three precisions -----

  method ToFixTimestamp(nanos: u64) returns (buf: array<byte>)
    ensures fresh(buf) && buf[..] == FixTimestamp(nanos, 3, 1_000_000) && States(buf[..], 3, nanos / 1_000_000)
  {
    TimestampReads(nanos, 3, 1_000_000);
    UtcValid(nanos);
    var u := ToUtc(nanos);
    buf := new byte[21](_ => 0);
    WriteDateAndTime(buf, u);
    WriteDigits3(buf, 18, u.frac / 1_000_000);
    RenderShape(u, 3, 1_000_000, u.frac / 1_000_000, FixTimestamp(nanos, 3, 1_000_000));
    assert buf[..] == buf[..21];
  }

  method ToFixTimestampUs(nanos: u64) returns (buf: array<byte>)
    ensures fresh(buf) && buf[..] == FixTimestamp(nanos, 6, 1_000) && States(buf[..], 6, nanos / 1_000)
  {
    TimestampReads(nanos, 6, 1_000);
    UtcValid(nanos);
    var u := ToUtc(nanos);
    buf := new byte[24](_ => 0);
    WriteDateAndTime(buf, u);
    WriteDigits6(buf, 18, u.frac / 1_000);
    RenderShape(u, 6, 1_000, u.frac / 1_000, FixTimestamp(nanos, 6, 1_000));
    assert buf[..] == buf[..24];
  }

  method ToFixTimestampNs(nanos: u64) returns (buf: array<byte>)
    ensures fresh(buf) && buf[..] == FixTimestamp(nanos, 9, 1) && States(buf[..], 9, nanos / 1)
  {
    TimestampReads(nanos, 9, 1);
    UtcValid(nanos);
    var u := ToUtc(nanos);
    buf := new byte[27](_ => 0);
    WriteDateAndTime(buf, u);
    WriteDigits9(buf, 18, u.frac);
    RenderShape(u, 9, 1, u.frac, FixTimestamp(nanos, 9, 1));
    assert buf[..] == buf[..27];
  }
}
