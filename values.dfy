/** What the numbers behind the tokens mean: the 12-hour clock and its
    designator, the two roundings of the millisecond cascade, and the short year. */
module TokenValues {
  import opened Digits
  import opened DateFormat
  import opened FormatProperties

  /** The hour of the day that a 12-hour value and a designator stand for. */
  function DayHour(twelve: nat, pm: bool): nat {
    if pm then (if twelve == 12 then 12 else twelve + 12)
    else (if twelve == 12 then 0 else twelve)
  }

  /** On a real hour the 12-hour value lies in 1..12, and together with the
      designator it gives the hour back: midnight is 12 AM, noon is 12 PM. */
  lemma TwelveHourReadBack(hours: nat)
    requires hours < 24
    ensures 1 <= TwelveHour(hours) <= 12
    ensures Meridiem(hours) == "PM" <==> hours >= 12
    ensures DayHour(TwelveHour(hours), Meridiem(hours) == "PM") == hours
  {
  }

  /** Two hours that render to the same 12-hour value and designator are equal. */
  lemma TwelveHourInjective(a: nat, b: nat)
    requires a < 24 && b < 24
    requires TwelveHour(a) == TwelveHour(b) && Meridiem(a) == Meridiem(b)
    ensures a == b
  {
    TwelveHourReadBack(a);
    TwelveHourReadBack(b);
  }

  /** `Math.round(x / 10)` is the integer nearest to x/10, halves going up: the
      truncated tenth or one more. */
  lemma Round10Nearest(x: nat)
    ensures 10 * Round10(x) - 5 <= x < 10 * Round10(x) + 5
    ensures x / 10 <= Round10(x) <= x / 10 + 1
  {
  }

  /** The three fraction widths on 456 ms give "456", "46" and "5". */
  lemma FractionOf456(d: Instant, utc: bool)
    requires InRange(Pick(d, utc)) && Pick(d, utc).ms == 456
    ensures Format(d, "fff", utc) == "456"
    ensures Format(d, "ff", utc) == "46"
    ensures Format(d, "f", utc) == "5"
  {
    FractionRendered(d, utc, "fff", "456");
    FractionRendered(d, utc, "ff", "46");
    FractionRendered(d, utc, "f", "5");
  }

  lemma FractionRendered(d: Instant, utc: bool, t: string, r: string)
    requires InRange(Pick(d, utc)) && Pick(d, utc).ms == 456
    requires (t, r) in {("fff", "456"), ("ff", "46"), ("f", "5")}
    ensures Format(d, t, utc) == r
  {
    FormatFraction(d, utc, t);
    NumberTexts();
  }

  /** At 995 ms `ff` renders three digits: rounding carries into the hundreds
      and nothing is cut to the width. */
  lemma FractionOf995(d: Instant, utc: bool)
    requires InRange(Pick(d, utc)) && Pick(d, utc).ms == 995
    ensures Format(d, "ff", utc) == "100"
  {
    FormatFraction(d, utc, "ff");
    NumberTexts();
  }

  /** For a four-digit year `substr(2, 2)` is the last two digits, zero padded:
      the short year agrees with the year modulo 100 there. */
  lemma ShortYearFourDigits(year: int)
    requires 1000 <= year <= 9999
    ensures Substr(IntToString(year), 2, 2) == Padded(year % 100, 2)
  {
    var t, u := year / 10 % 10, year % 10;
    FourDigits(year);
    LowDigits(year);
    TwoDigitText(t, u);
  }

  /** The last two digits of a number are its tens digit and its units digit. */
  lemma LowDigits(n: nat)
    ensures n % 100 == 10 * (n / 10 % 10) + n % 10
  {
    var q := n / 100;
    var r := n % 100;
    assert n == 100 * q + r;
    assert n / 10 == 10 * q + r / 10;
  }

  /** Two digits padded to width 2 read as those two digits. */
  lemma TwoDigitText(t: nat, u: nat)
    requires t < 10 && u < 10
    ensures Padded(10 * t + u, 2) == [DigitChar(t), DigitChar(u)]
  {
    var n := 10 * t + u;
    assert n / 10 == t && n % 10 == u;
    if t == 0 {
      assert NatToString(n) == [DigitChar(u)];
    } else {
      assert NatToString(n) == NatToString(t) + [DigitChar(u)];
    }
  }

  lemma FourDigits(year: nat)
    requires 1000 <= year <= 9999
    ensures var s := NatToString(year);
      |s| == 4 && s[2..4] == [DigitChar(year / 10 % 10), DigitChar(year % 10)]
  {
    var n1 := year / 10;
    var n2 := n1 / 10;
    assert 100 <= n1 < 1000 && 10 <= n2 < 100;
    var head := NatToString(n2);
    assert |head| == 2 by {
      assert head == NatToString(n2 / 10) + [DigitChar(n2 % 10)];
    }
    assert NatToString(n1) == head + [DigitChar(n1 % 10)];
    assert NatToString(year) == head + [DigitChar(n1 % 10)] + [DigitChar(year % 10)];
  }

  /** The decimal texts and roundings the examples below rely on. */
  lemma NumberTexts()
    ensures Round10(456) == 46 && Round10(46) == 5 && Round10(995) == 100
    ensures NatToString(456) == "456" && NatToString(46) == "46" && NatToString(5) == "5"
    ensures NatToString(100) == "100" && NatToString(2014) == "2014"
    ensures Substr("2014", 2, 2) + "2014" == "142014"
  {
  }

  /** `yyy` with year 2014 renders "142014": the `yy` pass takes the first two
      letters and the lone `y` pass the third. */
  lemma ThreeLetterYear2014(d: Instant, utc: bool)
    requires InRange(Pick(d, utc)) && Pick(d, utc).year == 2014
    ensures Format(d, "yyy", utc) == "142014"
  {
    FormatYearThree(d, utc);
    NumberTexts();
  }
}
