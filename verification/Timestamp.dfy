/** The ISO-8601 UTC timestamp built from the civil date and the time of day. */
module Timestamp {
  import opened Calendar

  function Digit(n: nat): char
    requires n < 10
  {
    '0' + n as char
  }

  /** `n` in decimal, padded on the left with zeros to at least `w` characters. */
  function Padded(n: nat, w: nat): string
    decreases n, w
  {
    if n < 10 && w <= 1 then [Digit(n)]
    else Padded(n / 10, if w > 0 then w - 1 else 0) + [Digit(n % 10)]
  }

  /** Zero padding counts the sign of a negative number. */
  function PaddedSigned(n: int, w: nat): string {
    if n >= 0 then Padded(n, w) else "-" + Padded(-n, if w > 0 then w - 1 else 0)
  }

  const DAY := 86_400

  /** `secs` is the clock reading; the date part is the closed form of the civil date. */
  function UtcTimestamp(secs: int): string {
    var days := secs / 86_400;
    var tod := secs % 86_400;
    var t := CivilFromUnixDays(days);
    var h := tod / 3600;
    var mi := tod % 3600 / 60;
    var s := tod % 60;
    PaddedSigned(t.y, 4) + "-" + PaddedSigned(t.m, 2) + "-" + PaddedSigned(t.d, 2) + "T" +
    Padded(h, 2) + ":" + Padded(mi, 2) + ":" + Padded(s, 2) + "Z"
  }

  // ----- Lexicographic order of strings of one length

  ghost predicate LexBefore(a: string, b: string) {
    |a| == |b| && exists k :: 0 <= k < |a| && a[..k] == b[..k] && a[k] < b[k]
  }

  lemma LexPrefix(p: string, a: string, b: string)
    requires LexBefore(a, b)
    ensures LexBefore(p + a, p + b)
  {
    var k :| 0 <= k < |a| && a[..k] == b[..k] && a[k] < b[k];
    assert (p + a)[..|p| + k] == p + a[..k] && (p + b)[..|p| + k] == p + b[..k];
  }

  lemma LexSuffix(a: string, b: string, s: string, t: string)
    requires LexBefore(a, b) && |s| == |t|
    ensures LexBefore(a + s, b + t)
  {
    var k :| 0 <= k < |a| && a[..k] == b[..k] && a[k] < b[k];
    assert (a + s)[..k] == a[..k] && (b + t)[..k] == b[..k];
  }

  function Pow10(w: nat): nat {
    if w == 0 then 1 else 10 * Pow10(w - 1)
  }

  lemma {:induction false} PaddedLength(n: nat, w: nat)
    requires w > 0 && n < Pow10(w)
    ensures |Padded(n, w)| == w
    decreases w
  {
    if w > 1 { PaddedLength(n / 10, w - 1); }
  }

  lemma {:induction false} PaddedOrder(m: nat, n: nat, w: nat)
    requires w > 0 && m < n < Pow10(w)
    ensures LexBefore(Padded(m, w), Padded(n, w))
    decreases w
  {
    if w == 1 {
      LexDigit(m, n);
    } else if m / 10 < n / 10 {
      PaddedOrder(m / 10, n / 10, w - 1);
      LexSuffix(Padded(m / 10, w - 1), Padded(n / 10, w - 1), [Digit(m % 10)], [Digit(n % 10)]);
    } else {
      LastDigitOrder(m / 10, n / 10, m % 10, n % 10);
      LexPrefix(Padded(m / 10, w - 1), [Digit(m % 10)], [Digit(n % 10)]);
    }
  }

  lemma LastDigitOrder(a: nat, b: nat, c: nat, d: nat)
    requires c < 10 && d < 10 && 10 * a + c < 10 * b + d && a >= b
    ensures a == b && LexBefore([Digit(c)], [Digit(d)])
  {
    LexDigit(c, d);
  }

  lemma LexDigit(m: nat, n: nat)
    requires m < n < 10
    ensures LexBefore([Digit(m)], [Digit(n)])
  {
    assert [Digit(m)][..0] == [Digit(n)][..0];
  }

  // ----- The order of timestamps

  /** The fields from the year down to the second, each with its width and its separator. */
  function Render(fields: seq<nat>, widths: seq<nat>, separators: string): string
    requires |fields| == |widths| == |separators|
  {
    if |fields| == 0 then ""
    else Padded(fields[0], widths[0]) + [separators[0]] + Render(fields[1..], widths[1..], separators[1..])
  }

  ghost predicate Fit(fields: seq<nat>, widths: seq<nat>)
    requires |fields| == |widths|
  {
    forall i :: 0 <= i < |fields| ==> 0 < widths[i] && fields[i] < Pow10(widths[i])
  }

  ghost predicate FieldsBefore(a: seq<nat>, b: seq<nat>)
    requires |a| == |b|
  {
    |a| > 0 && (a[0] < b[0] || (a[0] == b[0] && FieldsBefore(a[1..], b[1..])))
  }

  function Total(widths: seq<nat>): nat {
    if |widths| == 0 then 0 else widths[0] + 1 + Total(widths[1..])
  }

  lemma {:induction false} RenderLength(a: seq<nat>, widths: seq<nat>, separators: string)
    requires |a| == |widths| == |separators| && Fit(a, widths)
    ensures |Render(a, widths, separators)| == Total(widths)
    decreases |a|
  {
    if |a| > 0 {
      PaddedLength(a[0], widths[0]);
      RenderLength(a[1..], widths[1..], separators[1..]);
    }
  }

  /** Fixed-width fields in order of significance render in the order of the fields. */
  lemma {:induction false} RenderOrder(a: seq<nat>, b: seq<nat>, widths: seq<nat>, separators: string)
    requires |a| == |b| == |widths| == |separators| && Fit(a, widths) && Fit(b, widths)
    requires FieldsBefore(a, b)
    ensures LexBefore(Render(a, widths, separators), Render(b, widths, separators))
    decreases |a|
  {
    var ra, rb := Render(a[1..], widths[1..], separators[1..]), Render(b[1..], widths[1..], separators[1..]);
    var ha, hb := Padded(a[0], widths[0]) + [separators[0]], Padded(b[0], widths[0]) + [separators[0]];
    RenderLength(a[1..], widths[1..], separators[1..]);
    RenderLength(b[1..], widths[1..], separators[1..]);
    if a[0] < b[0] {
      PaddedOrder(a[0], b[0], widths[0]);
      LexSuffix(Padded(a[0], widths[0]), Padded(b[0], widths[0]), [separators[0]], [separators[0]]);
      LexSuffix(ha, hb, ra, rb);
    } else {
      RenderOrder(a[1..], b[1..], widths[1..], separators[1..]);
      LexPrefix(ha, ra, rb);
    }
  }

  const WIDTHS: seq<nat> := [4, 2, 2, 2, 2, 2]
  const SEPARATORS := "--T::Z"

  function Fields(t: Date, tod: int): seq<nat>
    requires ValidDate(t) && t.y >= 0 && 0 <= tod < 86_400
  {
    [t.y, t.m, t.d, tod / 3600, tod % 3600 / 60, tod % 60]
  }

  const FIRST_SECOND := -62_167_219_200   // 0000-01-01T00:00:00Z
  const END_SECOND := 253_402_300_800     // one past 9999-12-31T23:59:59Z

  lemma FieldsFit(t: Date, tod: int)
    requires ValidDate(t) && 0 <= t.y <= 9999 && 0 <= tod < 86_400
    ensures Fit(Fields(t, tod), WIDTHS)
  {
    assert Pow10(2) == 100 && Pow10(4) == 10_000;
  }

  lemma CalendarEnds() returns (first: int, last: int)
    ensures first == -719_528 && CalendarDay(first) == Date(0, 1, 1)
    ensures last == 2_932_896 && CalendarDay(last) == Date(9999, 12, 31)
  {
    first, last := -719_528, 2_932_896;
    DayNamed(first, -1, 146_037, 399, Date(0, 1, 1));
    DayNamed(last, 24, 146_036, 399, Date(9999, 12, 31));
  }

  lemma YearFits(days: int)
    requires FIRST_I32_DAY <= days <= LAST_I32_DAY
    ensures CivilFromUnixDays(days) == CalendarDay(days)
  {
    CivilIsCalendarExactlyWhenYearFits(days);
  }

  lemma FourDigitYear(days: int)
    requires -719_528 <= days <= 2_932_896
    ensures 0 <= CalendarDay(days).y <= 9999
  {
    var first, last := CalendarEnds();
    if days > first { LaterDayLaterDate(first, days); }
    if days < last { LaterDayLaterDate(days, last); }
  }

  lemma TimestampIsRendered(secs: int)
    requires FIRST_SECOND <= secs < END_SECOND
    ensures var t := CalendarDay(secs / DAY);
            0 <= t.y <= 9999 && UtcTimestamp(secs) == Render(Fields(t, secs % DAY), WIDTHS, SEPARATORS)
  {
    FourDigitYear(secs / DAY);
    YearFits(secs / DAY);
    var f := Fields(CalendarDay(secs / DAY), secs % DAY);
    RenderSix(f[0], f[1], f[2], f[3], f[4], f[5]);
  }

  lemma RenderCons(x: nat, fields: seq<nat>, w: nat, widths: seq<nat>, c: char, separators: string)
    requires |fields| == |widths| == |separators|
    ensures Render([x] + fields, [w] + widths, [c] + separators) ==
            Padded(x, w) + [c] + Render(fields, widths, separators)
  {
    assert ([x] + fields)[1..] == fields && ([w] + widths)[1..] == widths && ([c] + separators)[1..] == separators;
  }

  lemma RenderSix(y: nat, m: nat, d: nat, h: nat, mi: nat, s: nat)
    ensures Render([y, m, d, h, mi, s], WIDTHS, SEPARATORS) ==
            Padded(y, 4) + "-" + Padded(m, 2) + "-" + Padded(d, 2) + "T" +
            Padded(h, 2) + ":" + Padded(mi, 2) + ":" + Padded(s, 2) + "Z"
  {
    var time := Padded(h, 2) + ":" + Padded(mi, 2) + ":" + Padded(s, 2) + "Z";
    RenderTime(h, mi, s);
    RenderCons(d, [h, mi, s], 2, [2, 2, 2], 'T', "::Z");
    RenderCons(m, [d] + [h, mi, s], 2, [2] + [2, 2, 2], '-', ['T'] + "::Z");
    RenderCons(y, [m] + ([d] + [h, mi, s]), 4, [2] + ([2] + [2, 2, 2]), '-', ['-'] + (['T'] + "::Z"));
    assert [y, m, d, h, mi, s] == [y] + ([m] + ([d] + [h, mi, s]));
    assert WIDTHS == [4] + ([2] + ([2] + [2, 2, 2])) && SEPARATORS == ['-'] + (['-'] + (['T'] + "::Z"));
    Regroup(Padded(y, 4), "-", Padded(m, 2), "-", Padded(d, 2), "T", time);
    Flatten(Padded(y, 4) + "-" + Padded(m, 2) + "-" + Padded(d, 2) + "T", Padded(h, 2), ":", Padded(mi, 2), ":",
            Padded(s, 2), "Z");
  }

  lemma RenderTime(h: nat, mi: nat, s: nat)
    ensures Render([h, mi, s], [2, 2, 2], "::Z") == Padded(h, 2) + ":" + Padded(mi, 2) + ":" + Padded(s, 2) + "Z"
  {
    RenderCons(s, [], 2, [], 'Z', "");
    RenderCons(mi, [s], 2, [2], ':', "Z");
    RenderCons(h, [mi, s], 2, [2, 2], ':', ":Z");
    assert [s] + [] == [s] && [2] + [] == [2] && ['Z'] + "" == "Z";
    assert [mi] + [s] == [mi, s] && [2] + [2] == [2, 2] && [':'] + "Z" == ":Z";
    assert [h] + [mi, s] == [h, mi, s] && [2] + [2, 2] == [2, 2, 2] && [':'] + ":Z" == "::Z";
    Regroup(Padded(h, 2), ":", Padded(mi, 2), ":", Padded(s, 2), "Z", "");
  }

  /** Concatenation is associative, seven pieces at a time. */
  lemma Regroup(a: string, b: string, c: string, d: string, e: string, f: string, g: string)
    ensures a + b + (c + d + (e + f + g)) == a + b + c + d + e + f + g
  {
  }

  lemma Flatten(p: string, a: string, b: string, c: string, d: string, e: string, f: string)
    ensures p + (a + b + c + d + e + f) == p + a + b + c + d + e + f
  {
  }

  /** Every timestamp with a four-digit year has 20 characters. */
  lemma {:induction false} TimestampLength(secs: int)
    requires FIRST_SECOND <= secs < END_SECOND
    ensures |UtcTimestamp(secs)| == 20
  {
    TimestampIsRendered(secs);
    FieldsFit(CalendarDay(secs / DAY), secs % DAY);
    RenderLength(Fields(CalendarDay(secs / DAY), secs % DAY), WIDTHS, SEPARATORS);
    assert Total(WIDTHS[5..]) == 3;
    assert Total(WIDTHS[4..]) == 6;
    assert Total(WIDTHS[3..]) == 9;
    assert Total(WIDTHS[2..]) == 12;
    assert Total(WIDTHS[1..]) == 15;
  }

  /** A later second has a lexicographically larger timestamp. */
  lemma TimestampOrder(a: int, b: int)
    requires FIRST_SECOND <= a < b < END_SECOND
    ensures LexBefore(UtcTimestamp(a), UtcTimestamp(b))
  {
    var s := MomentFields(a);
    var t := MomentFields(b);
    LaterSecondLaterFields(a, b);
    RenderOrder(s, t, WIDTHS, SEPARATORS);
  }

  lemma MomentFields(secs: int) returns (fields: seq<nat>)
    requires FIRST_SECOND <= secs < END_SECOND
    ensures CalendarDay(secs / DAY).y >= 0 && fields == Fields(CalendarDay(secs / DAY), secs % DAY)
    ensures |fields| == |WIDTHS| == |SEPARATORS| && Fit(fields, WIDTHS) &&
            UtcTimestamp(secs) == Render(fields, WIDTHS, SEPARATORS)
  {
    TimestampIsRendered(secs);
    FieldsFit(CalendarDay(secs / DAY), secs % DAY);
    fields := Fields(CalendarDay(secs / DAY), secs % DAY);
  }

  lemma LaterSecondLaterFields(a: int, b: int)
    requires a < b && CalendarDay(a / DAY).y >= 0 && CalendarDay(b / DAY).y >= 0
    ensures FieldsBefore(Fields(CalendarDay(a / DAY), a % DAY), Fields(CalendarDay(b / DAY), b % DAY))
  {
    if a / DAY < b / DAY { LaterDayLaterDate(a / DAY, b / DAY); }
    LaterMomentLaterFields(CalendarDay(a / DAY), a % DAY, CalendarDay(b / DAY), b % DAY);
  }

  lemma LaterMomentLaterFields(s: Date, a: int, t: Date, b: int)
    requires ValidDate(s) && ValidDate(t) && 0 <= s.y && 0 <= t.y && 0 <= a < DAY && 0 <= b < DAY
    requires Before(s, t) || (s == t && a < b)
    ensures FieldsBefore(Fields(s, a), Fields(t, b))
  {
    var f, g := Fields(s, a), Fields(t, b);
    if s == t {
      assert FieldsBefore(f[3..], g[3..]) by {
        if f[3] == g[3] && f[4] == g[4] { assert FieldsBefore(f[5..], g[5..]); }
        if f[3] == g[3] { assert FieldsBefore(f[4..], g[4..]); }
      }
    }
    if f[0] == g[0] && f[1] == g[1] { assert FieldsBefore(f[2..], g[2..]); }
    if f[0] == g[0] { assert FieldsBefore(f[1..], g[1..]); }
  }

  // ----- Reading a timestamp back

  predicate IsNumeral(s: string) {
    |s| > 0 && forall i :: 0 <= i < |s| ==> '0' <= s[i] <= '9'
  }

  /** The number a decimal numeral stands for. */
  function Number(s: string): nat
    requires forall i :: 0 <= i < |s| ==> '0' <= s[i] <= '9'
  {
    if |s| == 0 then 0 else Number(s[..|s| - 1]) * 10 + (s[|s| - 1] - '0') as nat
  }

  predicate Reads(s: string, n: nat) {
    IsNumeral(s) && Number(s) == n
  }

  lemma ReadsDigit(s: string, n: nat, d: nat)
    requires d < 10 && if s == "" then n == 0 else Reads(s, n)
    ensures Reads(s + [Digit(d)], n * 10 + d)
  {
    var t := s + [Digit(d)];
    assert t[..|t| - 1] == s && t[|t| - 1] == Digit(d);
  }

  /** A padded number is a numeral that stands for it. */
  lemma {:induction false} PaddedReads(n: nat, w: nat)
    ensures Reads(Padded(n, w), n)
    decreases n, w
  {
    if n < 10 && w <= 1 {
      ReadsDigit("", 0, n);
      assert "" + [Digit(n)] == [Digit(n)];
    } else {
      PaddedReads(n / 10, if w > 0 then w - 1 else 0);
      ReadsDigit(Padded(n / 10, if w > 0 then w - 1 else 0), n / 10, n % 10);
    }
  }

  lemma SliceKept(a: string, b: string, i: nat, j: nat)
    requires i <= j <= |a|
    ensures (a + b)[i..j] == a[i..j]
  {
  }

  lemma SliceAdded(a: string, b: string)
    ensures (a + b)[|a|..|a| + |b|] == b
  {
  }

  /** A field of two characters and its separator, behind what is there. */
  lemma PlaceField(before: string, field: string, c: char, all: string)
    requires |field| == 2 && all == before + field + [c]
    ensures |all| == |before| + 3 && all[|before|..|before| + 2] == field && all[|before| + 2] == c
    ensures all[..|before|] == before
  {
    SliceAdded(before, field);
    SliceKept(before + field, [c], |before|, |before| + 2);
  }

  lemma PrefixPlaces(p: string, u: string, i: nat, j: nat)
    requires j <= |p| <= |u| && u[..|p|] == p && i <= j
    ensures u[i..j] == p[i..j] && forall k :: i <= k < j ==> u[k] == p[k]
  {
    assert forall k :: 0 <= k < |p| ==> u[k] == p[k];
  }

  /** The characters of a timestamp are where the format says. */
  lemma PlacesOfSix(y: string, m: string, d: string, h: string, mi: string, s: string, u: string)
    requires |y| == 4 && |m| == |d| == |h| == |mi| == |s| == 2
    requires u == y + "-" + m + "-" + d + "T" + h + ":" + mi + ":" + s + "Z"
    ensures |u| == 20 && u[4] == u[7] == '-' && u[10] == 'T' && u[13] == u[16] == ':' && u[19] == 'Z'
    ensures u[..4] == y && u[5..7] == m && u[8..10] == d && u[11..13] == h && u[14..16] == mi && u[17..19] == s
  {
    var p1 := y + "-";
    var p2 := p1 + m + "-";
    var p3 := p2 + d + "T";
    var p4 := p3 + h + ":";
    var p5 := p4 + mi + ":";
    SliceKept(y, "-", 0, 4);
    PlaceField(p1, m, '-', p2);
    PlaceField(p2, d, 'T', p3);
    PlaceField(p3, h, ':', p4);
    PlaceField(p4, mi, ':', p5);
    PlaceField(p5, s, 'Z', u);
    PrefixPlaces(p5, u, 14, 17);
    PrefixPlaces(p4, p5, 11, 14);
    PrefixPlaces(p3, p4, 8, 11);
    PrefixPlaces(p2, p3, 5, 8);
    PrefixPlaces(p1, p2, 0, 5);
    PrefixesOfFive(p1, p2, p3, p4, p5, u);
  }

  lemma PrefixesOfFive(p1: string, p2: string, p3: string, p4: string, p5: string, u: string)
    requires |p1| == 5 && |p2| == 8 && |p3| == 11 && |p4| == 14 && |p5| == 17 && |u| == 20
    requires u[..17] == p5 && p5[..14] == p4 && p4[..11] == p3 && p3[..8] == p2 && p2[..5] == p1
    ensures u[..14] == p4 && u[..11] == p3 && u[..8] == p2 && u[..5] == p1
    ensures u[..4] == p1[..4] && u[4] == p1[4] && u[5..7] == p2[5..7] && u[7] == p2[7] && u[8..10] == p3[8..10]
    ensures u[10] == p3[10] && u[11..13] == p4[11..13] && u[13] == p4[13] && u[14..16] == p5[14..16] && u[16] == p5[16]
  {
    assert u[..17][..14] == u[..14];
    assert u[..14][..11] == u[..11];
    assert u[..11][..8] == u[..8];
    assert u[..8][..5] == u[..5];
    assert u[..17][14..16] == u[14..16] && u[..14][11..13] == u[11..13];
    assert u[..11][8..10] == u[8..10] && u[..8][5..7] == u[5..7] && u[..5][..4] == u[..4];
  }

  /** The numerals at the places of the hour, the minute and the second. */
  predicate ReadsTime(u: string, h: nat, mi: nat, s: nat)
    requires |u| == 20
  {
    Reads(u[11..13], h) && Reads(u[14..16], mi) && Reads(u[17..19], s) && h < 24 && mi < 60 && s < 60
  }

  predicate ReadsDate(u: string, t: Date)
    requires |u| == 20
  {
    t.y >= 0 && t.m >= 0 && t.d >= 0 && Reads(u[..4], t.y) && Reads(u[5..7], t.m) && Reads(u[8..10], t.d)
  }

  predicate HasSeparators(u: string)
    requires |u| == 20
  {
    u[4] == u[7] == '-' && u[10] == 'T' && u[13] == u[16] == ':' && u[19] == 'Z'
  }

  /** Read as a year, month, day, hour, minute and second at their places, a timestamp with a four-digit year
      gives back the date of the calendar and the time of day, and with them the clock reading. */
  lemma TimestampReadsBack(secs: int) returns (h: nat, mi: nat, s: nat)
    requires FIRST_SECOND <= secs < END_SECOND
    ensures var u := UtcTimestamp(secs);
            |u| == 20 && HasSeparators(u) && ReadsDate(u, CalendarDay(secs / DAY)) && ReadsTime(u, h, mi, s)
    ensures secs == DayNumber(CalendarDay(secs / DAY)) * 86_400 + h * 3600 + mi * 60 + s
  {
    var t, tod := CalendarDay(secs / DAY), secs % DAY;
    TimestampIsRendered(secs);
    h, mi, s := tod / 3600, tod % 3600 / 60, tod % 60;
    assert Fields(t, tod) == [t.y, t.m, t.d, h, mi, s];
    TimeOfDay(tod);
    ReadsSix(t.y, t.m, t.d, h, mi, s, UtcTimestamp(secs));
    DayNumberOfCalendarDay(secs / DAY);
  }

  lemma TimeOfDay(tod: nat)
    requires tod < 86_400
    ensures tod / 3600 < 24 && tod % 3600 / 60 < 60
    ensures tod == tod / 3600 * 3600 + tod % 3600 / 60 * 60 + tod % 60
  {
  }

  lemma ReadsSix(y: nat, m: nat, d: nat, h: nat, mi: nat, s: nat, u: string)
    requires u == Render([y, m, d, h, mi, s], WIDTHS, SEPARATORS)
    requires y < 10_000 && m < 100 && d < 100 && h < 100 && mi < 100 && s < 100
    ensures |u| == 20 && HasSeparators(u) && Reads(u[..4], y) && Reads(u[5..7], m) && Reads(u[8..10], d)
    ensures Reads(u[11..13], h) && Reads(u[14..16], mi) && Reads(u[17..19], s)
  {
    assert Pow10(2) == 100 && Pow10(4) == 10_000;
    RenderSix(y, m, d, h, mi, s);
    PaddedLength(y, 4);
    PaddedLength(m, 2);
    PaddedLength(d, 2);
    PaddedLength(h, 2);
    PaddedLength(mi, 2);
    PaddedLength(s, 2);
    PlacesOfSix(Padded(y, 4), Padded(m, 2), Padded(d, 2), Padded(h, 2), Padded(mi, 2), Padded(s, 2), u);
    PaddedReads(y, 4);
    PaddedReads(m, 2);
    PaddedReads(d, 2);
    PaddedReads(h, 2);
    PaddedReads(mi, 2);
    PaddedReads(s, 2);
  }
}
