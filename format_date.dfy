/** `Elapsed.formatDate(date, format, utc)`: renders a .NET-style custom date and
    time pattern by an ordered list of token passes, then resolves the month and
    weekday names that the passes left as sentinel characters, then drops the
    escaping backslashes. */
module DateFormat {
  import opened Digits
  import opened Passes

  /** The calendar fields a host Date exposes in one frame of reference
      (`getFullYear`, `getMonth` (0-11), `getDate`, `getDay` (0 = Sunday),
      `getHours`, `getMinutes`, `getSeconds`, `getMilliseconds`, or their UTC forms). */
  datatype Fields = Fields(
    year: int, month: nat, date: nat, day: nat,
    hours: nat, minutes: nat, seconds: nat, ms: nat)

  /** A host Date: its local fields, its UTC fields, and `getTimezoneOffset()`
      (UTC minus local time, in minutes). */
  datatype Instant = Instant(local: Fields, universal: Fields, timezoneOffset: int)

  /** The ranges a host Date's getters always return in. */
  predicate InRange(f: Fields) {
    && f.month < 12 && 1 <= f.date <= 31 && f.day < 7
    && f.hours < 24 && f.minutes < 60 && f.seconds < 60 && f.ms < 1000
  }

  /** The field set the `utc` flag selects. */
  function Pick(d: Instant, utc: bool): Fields {
    if utc then d.universal else d.local
  }

  /** The four name tables; slot 0 holds the sentinel character that stands for
      the name until all token passes are done. */
  function MonthNames(): seq<string> {
    ["\0", "January", "February", "March", "April", "May", "June",
     "July", "August", "September", "October", "November", "December"]
  }

  function MonthAbbrevs(): seq<string> {
    ["\U{1}", "Jan", "Feb", "Mar", "Apr", "May", "Jun", "Jul", "Aug", "Sep", "Oct", "Nov", "Dec"]
  }

  function WeekdayNames(): seq<string> {
    ["\U{2}", "Sunday", "Monday", "Tuesday", "Wednesday", "Thursday", "Friday", "Saturday"]
  }

  function WeekdayAbbrevs(): seq<string> {
    ["\U{3}", "Sun", "Mon", "Tue", "Wed", "Thu", "Fri", "Sat"]
  }

  /** `s.substr(start, length)` for non-negative arguments: clipped to the string. */
  function Substr(s: string, start: nat, length: nat): string {
    var b := if start < |s| then start else |s|;
    var e := if start + length < |s| then start + length else |s|;
    s[b..e]
  }

  /** The 12-hour clock value: `H > 12 ? H - 12 : H == 0 ? 12 : H`. */
  function TwelveHour(hours: nat): nat {
    if hours > 12 then hours - 12 else if hours == 0 then 12 else hours
  }

  function Meridiem(hours: nat): string {
    if hours < 12 then "AM" else "PM"
  }

  /** `toLowerCase` on ASCII text (the only text it is applied to is "AM" or "PM"). */
  function Lower(s: string): (r: string)
    ensures |r| == |s|
  {
    if s == [] then []
    else [if 'A' <= s[0] <= 'Z' then (s[0] as int + 32) as char else s[0]] + Lower(s[1..])
  }

  /** `Math.round(x / 10)` for a non-negative integer `x`: halves round up. */
  function Round10(x: nat): nat {
    (x + 5) / 10
  }

  /** The text of the `K` token. In UTC mode it is "Z". Otherwise it is a sign
      ("Z" for a zero offset) followed by the hours and minutes of the offset's
      magnitude, each padded to two digits and joined by a colon. */
  function ZoneText(timezoneOffset: int, utc: bool): string {
    var tz := -timezoneOffset;
    var sign := if utc || tz == 0 then "Z" else if tz > 0 then "+" else "-";
    if utc then sign
    else
      var magnitude := if tz < 0 then -tz else tz;
      sign + Padded(magnitude / 60, 2) + ":" + Padded(magnitude % 60, 2)
  }

  function YearPasses(c: Fields): seq<Pass> {
    var y := IntToString(c.year);
    [Pass('y', 4, true, y), Pass('y', 2, false, Substr(y, 2, 2)), Pass('y', 1, false, y)]
  }

  function MonthPasses(c: Fields): seq<Pass> {
    var m := c.month + 1;
    [Pass('M', 4, true, MonthNames()[0]), Pass('M', 3, false, MonthAbbrevs()[0]),
     Pass('M', 2, false, Padded(m, 2)), Pass('M', 1, false, NatToString(m))]
  }

  function DayPasses(c: Fields): seq<Pass> {
    [Pass('d', 4, true, WeekdayNames()[0]), Pass('d', 3, false, WeekdayAbbrevs()[0]),
     Pass('d', 2, false, Padded(c.date, 2)), Pass('d', 1, false, NatToString(c.date))]
  }

  /** A padded pass `XX+` followed by an unpadded pass `X`, as for hours,
      minutes and seconds. */
  function NumberPasses(letter: char, n: nat): seq<Pass> {
    [Pass(letter, 2, true, Padded(n, 2)), Pass(letter, 1, false, NatToString(n))]
  }

  function FractionPasses(c: Fields): seq<Pass> {
    var f1 := Round10(c.ms);
    [Pass('f', 3, true, Padded(c.ms, 3)), Pass('f', 2, false, Padded(f1, 2)),
     Pass('f', 1, false, NatToString(Round10(f1)))]
  }

  /** `XX+` renders the whole designator, `X` its first letter. */
  function MeridiemPasses(letter: char, text: string): seq<Pass>
    requires |text| >= 1
  {
    [Pass(letter, 2, true, text), Pass(letter, 1, false, text[..1])]
  }

  /** Every token pass of the source, in the order it runs them. */
  function TokenPasses(c: Fields, timezoneOffset: int, utc: bool): seq<Pass> {
    YearPasses(c) + MonthPasses(c) + DayPasses(c)
    + NumberPasses('H', c.hours) + NumberPasses('h', TwelveHour(c.hours))
    + NumberPasses('m', c.minutes) + NumberPasses('s', c.seconds)
    + FractionPasses(c)
    + MeridiemPasses('T', Meridiem(c.hours)) + MeridiemPasses('t', Lower(Meridiem(c.hours)))
    + [Pass('K', 1, false, ZoneText(timezoneOffset, utc))]
  }

  /** Replaces the four sentinels by the weekday and month names, weekday tables first. */
  function ResolveNames(s: string, c: Fields): string
    requires InRange(c)
  {
    var day, m := c.day + 1, c.month + 1;
    var s1 := ReplaceChar(s, WeekdayNames()[0][0], WeekdayNames()[day]);
    var s2 := ReplaceChar(s1, WeekdayAbbrevs()[0][0], WeekdayAbbrevs()[day]);
    var s3 := ReplaceChar(s2, MonthNames()[0][0], MonthNames()[m]);
    ReplaceChar(s3, MonthAbbrevs()[0][0], MonthAbbrevs()[m])
  }

  /** The date tokens `y`, `M`, `d` (src/elapsed.js:137-152). */
  function DateTokens(c: Fields, s: string): string {
    ApplyGroup(DayPasses(c), ApplyGroup(MonthPasses(c), ApplyGroup(YearPasses(c), s)))
  }

  /** The clock tokens `H`, `h`, `m`, `s` (src/elapsed.js:154-168). */
  function ClockTokens(c: Fields, s: string): string {
    var s1 := ApplyGroup(NumberPasses('H', c.hours), s);
    var s2 := ApplyGroup(NumberPasses('h', TwelveHour(c.hours)), s1);
    ApplyGroup(NumberPasses('s', c.seconds), ApplyGroup(NumberPasses('m', c.minutes), s2))
  }

  /** The fraction and designator tokens `f`, `T`, `t` (src/elapsed.js:170-183). */
  function FractionMeridiemTokens(c: Fields, s: string): string {
    var s1 := ApplyGroup(FractionPasses(c), s);
    ApplyGroup(MeridiemPasses('t', Lower(Meridiem(c.hours))), ApplyGroup(MeridiemPasses('T', Meridiem(c.hours)), s1))
  }

  /** All token passes, in source order. */
  function RenderTokens(c: Fields, timezoneOffset: int, utc: bool, pattern: string): string {
    var s := FractionMeridiemTokens(c, ClockTokens(c, DateTokens(c, pattern)));
    Apply(Pass('K', 1, false, ZoneText(timezoneOffset, utc)), s)
  }

  /** What `formatDate(date, pattern, utc)` returns. */
  function Format(d: Instant, pattern: string, utc: bool): string
    requires InRange(Pick(d, utc))
  {
    var c := Pick(d, utc);
    Unescape(ResolveNames(RenderTokens(c, d.timezoneOffset, utc, pattern), c))
  }

  /** `formatDate` as the source runs it: the working string goes through the
      token passes, the name sentinels are resolved, and the backslashes dropped. */
  method FormatDate(date: Instant, format: string, utc: bool) returns (r: string)
    requires InRange(Pick(date, utc))
    ensures r == Format(date, format, utc)
  {
    var c := if utc then date.universal else date.local;
    var out := ReplaceDateTokens(c, format);
    out := ReplaceClockTokens(c, out);
    out := ReplaceFractionMeridiemTokens(c, out);
    var zone := ZoneToken(date.timezoneOffset, utc);
    out := Apply(Pass('K', 1, false, zone), out);
    assert c == Pick(date, utc) && out == RenderTokens(c, date.timezoneOffset, utc, format);
    out := ReplaceNameSentinels(c, out);
    r := Unescape(out);
  }

  /** The four sentinel replacements (src/elapsed.js:195-200), weekday tables first. */
  method ReplaceNameSentinels(c: Fields, s: string) returns (out: string)
    requires InRange(c)
    ensures out == ResolveNames(s, c)
  {
    var day, m := c.day + 1, c.month + 1;
    out := ReplaceChar(s, WeekdayNames()[0][0], WeekdayNames()[day]);
    out := ReplaceChar(out, WeekdayAbbrevs()[0][0], WeekdayAbbrevs()[day]);
    out := ReplaceChar(out, MonthNames()[0][0], MonthNames()[m]);
    out := ReplaceChar(out, MonthAbbrevs()[0][0], MonthAbbrevs()[m]);
  }

  method ReplaceDateTokens(c: Fields, format: string) returns (out: string)
    ensures out == DateTokens(c, format)
  {
    out := format;
    var y := IntToString(c.year);
    out := Apply(Pass('y', 4, true, y), out);
    out := Apply(Pass('y', 2, false, Substr(y, 2, 2)), out);
    out := Apply(Pass('y', 1, false, y), out);
    ghost var s1 := out;
    assert s1 == ApplyGroup(YearPasses(c), format);

    var m := c.month + 1;
    var mm := Pad(m, 2);
    out := Apply(Pass('M', 4, true, MonthNames()[0]), out);
    out := Apply(Pass('M', 3, false, MonthAbbrevs()[0]), out);
    out := Apply(Pass('M', 2, false, mm), out);
    out := Apply(Pass('M', 1, false, NatToString(m)), out);
    ghost var s2 := out;
    assert s2 == ApplyGroup(MonthPasses(c), s1);

    var d := c.date;
    var dd := Pad(d, 2);
    out := Apply(Pass('d', 4, true, WeekdayNames()[0]), out);
    out := Apply(Pass('d', 3, false, WeekdayAbbrevs()[0]), out);
    out := Apply(Pass('d', 2, false, dd), out);
    out := Apply(Pass('d', 1, false, NatToString(d)), out);
    assert out == ApplyGroup(DayPasses(c), s2);
  }

  method ReplaceClockTokens(c: Fields, format: string) returns (out: string)
    ensures out == ClockTokens(c, format)
  {
    out := format;
    var hours := c.hours;
    var hh := Pad(hours, 2);
    out := Apply(Pass('H', 2, true, hh), out);
    out := Apply(Pass('H', 1, false, NatToString(hours)), out);
    ghost var s1 := out;

    var h := TwelveHour(hours);
    hh := Pad(h, 2);
    out := Apply(Pass('h', 2, true, hh), out);
    out := Apply(Pass('h', 1, false, NatToString(h)), out);
    ghost var s2 := out;

    var minutes := c.minutes;
    var mm := Pad(minutes, 2);
    out := Apply(Pass('m', 2, true, mm), out);
    out := Apply(Pass('m', 1, false, NatToString(minutes)), out);
    ghost var s3 := out;

    var seconds := c.seconds;
    var ss := Pad(seconds, 2);
    out := Apply(Pass('s', 2, true, ss), out);
    out := Apply(Pass('s', 1, false, NatToString(seconds)), out);
    assert s1 == ApplyGroup(NumberPasses('H', c.hours), format);
    assert s2 == ApplyGroup(NumberPasses('h', TwelveHour(c.hours)), s1);
    assert s3 == ApplyGroup(NumberPasses('m', c.minutes), s2);
  }

  method ReplaceFractionMeridiemTokens(c: Fields, format: string) returns (out: string)
    ensures out == FractionMeridiemTokens(c, format)
  {
    out := format;
    var f := c.ms;
    var fff := Pad(f, 3);
    out := Apply(Pass('f', 3, true, fff), out);
    f := Round10(f);
    var ff := Pad(f, 2);
    out := Apply(Pass('f', 2, false, ff), out);
    f := Round10(f);
    out := Apply(Pass('f', 1, false, NatToString(f)), out);
    ghost var s1 := out;

    var upper := Meridiem(c.hours);
    out := Apply(Pass('T', 2, true, upper), out);
    out := Apply(Pass('T', 1, false, upper[..1]), out);
    ghost var s2 := out;

    var lower := Lower(upper);
    out := Apply(Pass('t', 2, true, lower), out);
    out := Apply(Pass('t', 1, false, lower[..1]), out);
    assert s1 == ApplyGroup(FractionPasses(c), format);
    assert s2 == ApplyGroup(MeridiemPasses('T', Meridiem(c.hours)), s1);
  }

  /** The `K` text as the source builds it (src/elapsed.js:185-192): the sign first, then,
      outside UTC mode, the offset's magnitude appended. */
  method ZoneToken(timezoneOffset: int, utc: bool) returns (zone: string)
    ensures zone == ZoneText(timezoneOffset, utc)
  {
    var tz := -timezoneOffset;
    zone := if utc || tz == 0 then "Z" else if tz > 0 then "+" else "-";
    if !utc {
      ghost var sign := zone;
      tz := if tz < 0 then -tz else tz;
      var tzHours := Pad(tz / 60, 2);
      var tzMinutes := Pad(tz % 60, 2);
      zone := zone + tzHours + ":" + tzMinutes;
      assert zone == sign + Padded(tz / 60, 2) + ":" + Padded(tz % 60, 2);
      ZoneTextLocal(timezoneOffset, sign, tz);
    }
  }

  lemma ZoneTextLocal(timezoneOffset: int, sign: string, magnitude: nat)
    requires sign == if timezoneOffset == 0 then "Z" else if timezoneOffset < 0 then "+" else "-"
    requires magnitude == if timezoneOffset < 0 then -timezoneOffset else timezoneOffset
    ensures ZoneText(timezoneOffset, false) == sign + Padded(magnitude / 60, 2) + ":" + Padded(magnitude % 60, 2)
  {
  }

  /** A short group of passes applied one by one, spelled out. */
  function ApplyGroup(group: seq<Pass>, s: string): string
    requires 1 <= |group| <= 4
  {
    var s1 := Apply(group[0], s);
    if |group| == 1 then s1 else
    var s2 := Apply(group[1], s1);
    if |group| == 2 then s2 else
    var s3 := Apply(group[2], s2);
    if |group| == 3 then s3 else Apply(group[3], s3)
  }

  lemma ApplyGroupIsApplyAll(group: seq<Pass>, s: string)
    requires 1 <= |group| <= 4
    ensures ApplyGroup(group, s) == ApplyAll(group, s)
  {
    assert group[..1][..0] == [];
    if |group| >= 2 { assert group[..2][..1] == group[..1]; }
    if |group| >= 3 { assert group[..3][..2] == group[..2]; }
    if |group| == 4 { assert group[..3] == group[..4][..3]; }
    assert group == group[..|group|];
  }

  /** Running the groups one after another is running the whole pass list. */
  lemma RenderTokensIsApplyAll(c: Fields, timezoneOffset: int, utc: bool, pattern: string)
    ensures RenderTokens(c, timezoneOffset, utc, pattern)
         == ApplyAll(TokenPasses(c, timezoneOffset, utc), pattern)
  {
    var y, mo, d := YearPasses(c), MonthPasses(c), DayPasses(c);
    var hh, h12 := NumberPasses('H', c.hours), NumberPasses('h', TwelveHour(c.hours));
    var mi, se := NumberPasses('m', c.minutes), NumberPasses('s', c.seconds);
    var fr, up := FractionPasses(c), MeridiemPasses('T', Meridiem(c.hours));
    var lo := MeridiemPasses('t', Lower(Meridiem(c.hours)));
    var k := [Pass('K', 1, false, ZoneText(timezoneOffset, utc))];
    var s1 := ApplyGroup(y, pattern);
    GroupThen([], y, pattern, pattern);
    assert [] + y == y;
    var s2 := ApplyGroup(mo, s1);
    GroupThen(y, mo, pattern, s1);
    var s3 := ApplyGroup(d, s2);
    GroupThen(y + mo, d, pattern, s2);
    assert s3 == DateTokens(c, pattern);
    var s4 := ApplyGroup(hh, s3);
    GroupThen(y + mo + d, hh, pattern, s3);
    var s5 := ApplyGroup(h12, s4);
    GroupThen(y + mo + d + hh, h12, pattern, s4);
    var s6 := ApplyGroup(mi, s5);
    GroupThen(y + mo + d + hh + h12, mi, pattern, s5);
    var s7 := ApplyGroup(se, s6);
    GroupThen(y + mo + d + hh + h12 + mi, se, pattern, s6);
    assert s7 == ClockTokens(c, s3);
    var s8 := ApplyGroup(fr, s7);
    GroupThen(y + mo + d + hh + h12 + mi + se, fr, pattern, s7);
    var s9 := ApplyGroup(up, s8);
    GroupThen(y + mo + d + hh + h12 + mi + se + fr, up, pattern, s8);
    var s10 := ApplyGroup(lo, s9);
    GroupThen(y + mo + d + hh + h12 + mi + se + fr + up, lo, pattern, s9);
    assert s10 == FractionMeridiemTokens(c, s7);
    GroupThen(y + mo + d + hh + h12 + mi + se + fr + up + lo, k, pattern, s10);
  }

  /** Running one more group extends the list of passes run. */
  lemma GroupThen(before: seq<Pass>, group: seq<Pass>, pattern: string, s: string)
    requires s == ApplyAll(before, pattern)
    requires 1 <= |group| <= 4
    ensures ApplyGroup(group, s) == ApplyAll(before + group, pattern)
  {
    ApplyGroupIsApplyAll(group, s);
    ApplyAllAppend(before, group, pattern);
  }
}
