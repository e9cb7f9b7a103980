/** The phrase `Elapsed.action` writes into each element: the seconds elapsed
    since the element's timestamp pick one of six phrases, and the older ones
    show the past instant through `formatDate` with "h:mmTT" or
    "h:mmTT, d MMMM yyyy" in local time. */
module Humanize {
  import opened Digits
  import opened Passes
  import opened DateFormat
  import opened FormatProperties
  import opened TokenValues

  // ---------------------------------------------------------------------------
  // The two patterns the phrases use.

  /** The time of day as "h:mmTT" shows it: the 12-hour value, a colon, the
      minutes in two digits and the designator. */
  function ClockText(c: Fields): string {
    NatToString(TwelveHour(c.hours)) + ":" + Padded(c.minutes, 2) + Meridiem(c.hours)
  }

  /** The full form: the clock text, a comma, the day of the month, the month's
      name and the year. */
  function DateText(c: Fields): string
    requires c.month < 12
  {
    ClockText(c) + ", " + NatToString(c.date) + " " + MonthNames()[c.month + 1] + " " + IntToString(c.year)
  }

  lemma TwelveHourValue(c: Fields)
    ensures ClockValue(c, 'h') == TwelveHour(c.hours)
  {
  }

  /** "h:mmTT" renders the clock text. */
  lemma ClockPattern(d: Instant, utc: bool)
    requires InRange(Pick(d, utc))
    ensures Format(d, "h:mmTT", utc) == ClockText(Pick(d, utc))
  {
    var c := Pick(d, utc);
    assert "h:mmTT" == "h" + ":mmTT" && ":mmTT" == ":" + "mmTT";
    assert AllOf("h", 'h') && Inert(":") && '\\' !in "h" && ":mmTT"[0] !in TokenLetters;
    FormatSplit(d, "h", ":mmTT", utc);
    FormatPrefix(d, ":", "mmTT", utc);
    FormatClock(d, utc, 'h', "h");
    FormatMinutesDesignator(d, utc);
    var x, y, z := Format(d, "h", utc), Format(d, ":mmTT", utc), Format(d, "mmTT", utc);
    assert Format(d, "h:mmTT", utc) == x + y;
    assert y == ":" + z;
    TwelveHourValue(c);
    assert x == NatToString(TwelveHour(c.hours));
    Regroup(x, ":", Padded(c.minutes, 2), Meridiem(c.hours));
  }

  lemma Regroup(a: string, b: string, c: string, e: string)
    ensures a + (b + (c + e)) == a + b + c + e
  {
  }

  lemma DatePatternPieces()
    ensures "h:mmTT, d MMMM yyyy" == "h:mmTT" + ", d MMMM yyyy"
    ensures ", d MMMM yyyy" == ", " + "d MMMM yyyy"
    ensures "d MMMM yyyy" == "d" + " MMMM yyyy"
    ensures " MMMM yyyy" == " " + "MMMM yyyy"
    ensures "MMMM yyyy" == "MMMM" + " yyyy"
    ensures " yyyy" == " " + "yyyy"
    ensures '\\' !in "h:mmTT" && '\\' !in "d" && '\\' !in "MMMM"
    ensures ',' !in TokenLetters && ' ' !in TokenLetters
    ensures Inert(", ") && Inert(" ")
    ensures AllOf("d", 'd') && AllOf("MMMM", 'M') && AllOf("yyyy", 'y')
    ensures |"d"| == 1 && |"MMMM"| == 4 && |"yyyy"| == 4
  {
  }

  /** "h:mmTT, d MMMM yyyy" renders the full form. */
  lemma DatePattern(d: Instant, utc: bool)
    requires InRange(Pick(d, utc))
    ensures Format(d, "h:mmTT, d MMMM yyyy", utc) == DateText(Pick(d, utc))
  {
    var c := Pick(d, utc);
    var ct, n, m, y := ClockText(c), NatToString(c.date), MonthNames()[c.month + 1], IntToString(c.year);
    DateJoin(d, utc);
    ClockPattern(d, utc);
    DayPart(d, utc);
    JoinParts(Format(d, "h:mmTT", utc), Format(d, "d MMMM yyyy", utc), ct, n, m, y);
    assert DateText(c) == ct + ", " + n + " " + m + " " + y;
  }

  lemma JoinParts(clockOut: string, dayOut: string, clock: string, date: string, month: string, year: string)
    requires clockOut == clock && dayOut == date + " " + month + (" " + year)
    ensures clockOut + (", " + dayOut) == clock + ", " + date + " " + month + " " + year
  {
  }

  lemma DateJoin(d: Instant, utc: bool)
    requires InRange(Pick(d, utc))
    ensures Format(d, "h:mmTT, d MMMM yyyy", utc)
         == Format(d, "h:mmTT", utc) + (", " + Format(d, "d MMMM yyyy", utc))
  {
    DatePatternPieces();
    FormatSplit(d, "h:mmTT", ", d MMMM yyyy", utc);
    FormatPrefix(d, ", ", "d MMMM yyyy", utc);
  }

  lemma DayPart(d: Instant, utc: bool)
    requires InRange(Pick(d, utc))
    ensures var c := Pick(d, utc);
      Format(d, "d MMMM yyyy", utc) == NatToString(c.date) + " " + MonthNames()[c.month + 1] + (" " + IntToString(c.year))
  {
    var c := Pick(d, utc);
    DatePatternPieces();
    FormatSplit(d, "d", " MMMM yyyy", utc);
    FormatPrefix(d, " ", "MMMM yyyy", utc);
    FormatDay(d, utc, "d");
    MonthYearPart(d, utc);
    var x, y := Format(d, "d", utc), Format(d, "MMMM yyyy", utc);
    assert Format(d, "d MMMM yyyy", utc) == x + (" " + y);
    assert x == NatToString(c.date);
    Regroup(x, " ", MonthNames()[c.month + 1], " " + IntToString(c.year));
  }

  lemma MonthYearPart(d: Instant, utc: bool)
    requires InRange(Pick(d, utc))
    ensures var c := Pick(d, utc);
      Format(d, "MMMM yyyy", utc) == MonthNames()[c.month + 1] + (" " + IntToString(c.year))
  {
    var c := Pick(d, utc);
    DatePatternPieces();
    FormatSplit(d, "MMMM", " yyyy", utc);
    FormatPrefix(d, " ", "yyyy", utc);
    FormatMonth(d, utc, "MMMM");
    FormatYearFull(d, utc, "yyyy");
    var x, y := Format(d, "MMMM", utc), Format(d, "yyyy", utc);
    assert Format(d, "MMMM yyyy", utc) == x + (" " + y);
  }

  /** The clock text loses nothing: two times of day that render alike have the
      same hour and the same minute. */
  lemma ClockTextInjective(a: Fields, b: Fields)
    requires InRange(a) && InRange(b)
    requires ClockText(a) == ClockText(b)
    ensures a.hours == b.hours && a.minutes == b.minutes
  {
    var ha, hb := NatToString(TwelveHour(a.hours)), NatToString(TwelveHour(b.hours));
    ClockTextShape(a);
    ClockTextShape(b);
    var s := ClockText(a);
    assert |ha| == |hb|;
    assert ha == s[..|ha|] == hb;
    assert Padded(a.minutes, 2) == s[|ha| + 1..|ha| + 3] == Padded(b.minutes, 2);
    assert Meridiem(a.hours) == s[|ha| + 3..] == Meridiem(b.hours);
    NatToStringInjective(TwelveHour(a.hours), TwelveHour(b.hours));
    PaddedValue(a.minutes, 2);
    PaddedValue(b.minutes, 2);
    TwelveHourInjective(a.hours, b.hours);
  }

  /** The pieces of the clock text sit at fixed places around the colon. */
  lemma ClockTextShape(c: Fields)
    requires InRange(c)
    ensures var h, s := NatToString(TwelveHour(c.hours)), ClockText(c);
      && |s| == |h| + 5
      && s[..|h|] == h
      && s[|h| + 1..|h| + 3] == Padded(c.minutes, 2)
      && s[|h| + 3..] == Meridiem(c.hours)
  {
    var h := NatToString(TwelveHour(c.hours));
    PaddedTwo(c.minutes);
    assert |Meridiem(c.hours)| == 2;
  }

  // ---------------------------------------------------------------------------
  // The elapsed seconds and the phrase they pick.

  /** `parseInt(n / k)`: the quotient truncated toward zero. */
  function TruncDiv(n: int, k: nat): int
    requires k > 0
  {
    if n >= 0 then n / k else -((-n) / k)
  }

  /** The truncated quotient is the multiple of `k` nearest zero that the
      dividend does not pass. */
  lemma TruncDivBounds(n: int, k: nat)
    requires k > 0
    ensures var q := TruncDiv(n, k);
      && (n >= 0 ==> 0 <= q * k <= n < q * k + k)
      && (n < 0 ==> q * k - k < n <= q * k <= 0)
  {
    var m := if n >= 0 then n else -n;
    FloorDivBounds(m, k);
    if n < 0 {
      assert TruncDiv(n, k) * k == -((m / k) * k);
    }
  }

  lemma FloorDivBounds(m: nat, k: nat)
    requires k > 0
    ensures 0 <= (m / k) * k <= m < (m / k) * k + k
  {
    assert m == (m / k) * k + m % k;
  }

  /** `ago`: the current time in whole seconds (`parseInt(now.getTime() / 1000)`)
      minus the element's timestamp in seconds. */
  function Ago(nowMillis: int, pastSeconds: int): int {
    TruncDiv(nowMillis, 1000) - pastSeconds
  }

  /** The six phrases, in the order the threshold chain tries them. */
  datatype Phrase = JustNow | FewMinutesAgo | MinutesAgo(count: nat) | TodayAt | YesterdayAt | OnDate

  /** The threshold chain; the first test that holds picks the phrase. */
  function Classify(ago: int): Phrase {
    if ago < 60 then JustNow
    else if ago < 120 then FewMinutesAgo
    else if ago < 3570 then MinutesAgo(TruncDiv(ago, 60))
    else if ago < 86400 then TodayAt
    else if ago < 172800 then YesterdayAt
    else OnDate
  }

  /** Each phrase is picked on exactly one interval of `ago`; everything below a
      minute, the future included, is "just now", and the minute count lies in
      2..59 and is the number of whole minutes elapsed. */
  lemma ClassifyIntervals(ago: int)
    ensures Classify(ago) == JustNow <==> ago < 60
    ensures Classify(ago) == FewMinutesAgo <==> 60 <= ago < 120
    ensures Classify(ago).MinutesAgo? <==> 120 <= ago < 3570
    ensures Classify(ago) == TodayAt <==> 3570 <= ago < 86400
    ensures Classify(ago) == YesterdayAt <==> 86400 <= ago < 172800
    ensures Classify(ago) == OnDate <==> 172800 <= ago
    ensures Classify(ago).MinutesAgo? ==>
      var n := Classify(ago).count;
      2 <= n <= 59 && n * 60 <= ago < n * 60 + 60
  {
    if 120 <= ago < 3570 {
      TruncDivBounds(ago, 60);
    }
  }

  /** The position of a phrase in the chain, the minute count breaking ties. */
  function Rank(p: Phrase): nat {
    match p
    case JustNow => 0
    case FewMinutesAgo => 1
    case MinutesAgo(n) => 2 + n
    case TodayAt => 100
    case YesterdayAt => 101
    case OnDate => 102
  }

  /** As time passes an element's phrase only moves down the chain, and the
      minute count never goes back. */
  lemma ClassifyMonotone(a: int, b: int)
    requires a <= b
    ensures Rank(Classify(a)) <= Rank(Classify(b))
  {
    ClassifyIntervals(a);
    ClassifyIntervals(b);
    if Classify(a).MinutesAgo? && Classify(b).MinutesAgo? {
      MinuteCountMonotone(a, b);
    }
  }

  lemma MinuteCountMonotone(a: int, b: int)
    requires 0 <= a <= b
    ensures a / 60 <= b / 60
  {
  }

  /** The thresholds, one second either side of each. */
  lemma ClassifyBoundaries()
    ensures Classify(59) == JustNow && Classify(60) == FewMinutesAgo
    ensures Classify(119) == FewMinutesAgo && Classify(120) == MinutesAgo(2)
    ensures Classify(3569) == MinutesAgo(59) && Classify(3570) == TodayAt
    ensures Classify(86399) == TodayAt && Classify(86400) == YesterdayAt
    ensures Classify(172799) == YesterdayAt && Classify(172800) == OnDate
  {
  }

  /** The text `action` puts into the element, for the past instant the
      element's timestamp denotes (`formatDate` without `utc`: local fields). */
  function Message(ago: int, past: Instant): string
    requires InRange(past.local)
  {
    match Classify(ago)
    case JustNow => "just now"
    case FewMinutesAgo => "a few minutes ago"
    case MinutesAgo(n) => NatToString(n) + " minutes ago"
    case TodayAt => "today, at " + Format(past, "h:mmTT", false)
    case YesterdayAt => "yesterday, at " + Format(past, "h:mmTT", false)
    case OnDate => Format(past, "h:mmTT, d MMMM yyyy", false)
  }

  /** What each phrase reads, with the formatter's output spelled out. */
  lemma MessageText(ago: int, past: Instant)
    requires InRange(past.local)
    ensures var c := past.local;
      Message(ago, past) ==
        if ago < 60 then "just now"
        else if ago < 120 then "a few minutes ago"
        else if ago < 3570 then NatToString(ago / 60) + " minutes ago"
        else if ago < 86400 then "today, at " + ClockText(c)
        else if ago < 172800 then "yesterday, at " + ClockText(c)
        else DateText(c)
  {
    var c := past.local;
    ClassifyIntervals(ago);
    if ago < 120 {
    } else if ago < 3570 {
      assert Classify(ago) == MinutesAgo(ago / 60);
    } else if ago < 172800 {
      ClockPattern(past, false);
    } else {
      DatePattern(past, false);
    }
  }
}
