/** What `Elapsed.formatDate` promises, proved about the `Format` model: the
    token values, the rendering of single-token patterns, escaping, and
    patterns without tokens. */
module FormatProperties {
  import opened Digits
  import opened Passes
  import opened DateFormat

  /** The letters some pass substitutes. */
  const TokenLetters: set<char> := {'y', 'M', 'd', 'H', 'h', 'm', 's', 'f', 'T', 't', 'K'}

  /** The sentinel characters standing for month and weekday names. */
  predicate IsSentinel(c: char) {
    c == '\0' || c == '\U{1}' || c == '\U{2}' || c == '\U{3}'
  }

  predicate Lacks(s: string, letters: set<char>) {
    forall i :: 0 <= i < |s| ==> s[i] !in letters
  }

  /** Text no later step of the formatter touches: no token letter, no sentinel,
      no backslash. */
  predicate Inert(s: string) {
    forall i :: 0 <= i < |s| ==> s[i] !in TokenLetters && !IsSentinel(s[i]) && s[i] != '\\'
  }

  // ---------------------------------------------------------------------------
  // Tools: passes whose letter is missing, and the phases of the formatter.

  lemma GroupAbsent(g: seq<Pass>, s: string)
    requires 1 <= |g| <= 4
    requires forall i :: 0 <= i < |g| ==> g[i].letter !in s
    ensures ApplyGroup(g, s) == s
  {
    for i := 0 to |g|
      invariant forall j :: 0 <= j < i ==> Apply(g[j], s) == s
    {
      ApplyFromAbsent(g[i], s, true);
    }
  }

  lemma DateInert(c: Fields, s: string)
    requires Lacks(s, {'y', 'M', 'd'})
    ensures DateTokens(c, s) == s
  {
    GroupAbsent(YearPasses(c), s);
    GroupAbsent(MonthPasses(c), s);
    GroupAbsent(DayPasses(c), s);
  }

  lemma ClockInert(c: Fields, s: string)
    requires Lacks(s, {'H', 'h', 'm', 's'})
    ensures ClockTokens(c, s) == s
  {
    GroupAbsent(NumberPasses('H', c.hours), s);
    GroupAbsent(NumberPasses('h', TwelveHour(c.hours)), s);
    GroupAbsent(NumberPasses('m', c.minutes), s);
    GroupAbsent(NumberPasses('s', c.seconds), s);
  }

  lemma FractionMeridiemInert(c: Fields, s: string)
    requires Lacks(s, {'f', 'T', 't'})
    ensures FractionMeridiemTokens(c, s) == s
  {
    GroupAbsent(FractionPasses(c), s);
    GroupAbsent(MeridiemPasses('T', Meridiem(c.hours)), s);
    GroupAbsent(MeridiemPasses('t', Lower(Meridiem(c.hours))), s);
  }

  /** Once the date phase is done, text without the remaining letters passes
      through the rest of the token passes unchanged. */
  lemma AfterDateInert(c: Fields, timezoneOffset: int, utc: bool, pattern: string, s: string)
    requires DateTokens(c, pattern) == s
    requires Lacks(s, {'H', 'h', 'm', 's', 'f', 'T', 't', 'K'})
    ensures RenderTokens(c, timezoneOffset, utc, pattern) == s
  {
    ClockInert(c, s);
    FractionMeridiemInert(c, s);
    ApplyFromAbsent(Pass('K', 1, false, ZoneText(timezoneOffset, utc)), s, true);
  }

  /** Name resolution leaves text without sentinels alone. */
  lemma ResolveNamesAbsent(s: string, c: Fields)
    requires InRange(c)
    requires forall i :: 0 <= i < |s| ==> !IsSentinel(s[i])
    ensures ResolveNames(s, c) == s
  {
    ReplaceCharAbsent(s, '\U{2}', WeekdayNames()[c.day + 1]);
    ReplaceCharAbsent(s, '\U{3}', WeekdayAbbrevs()[c.day + 1]);
    ReplaceCharAbsent(s, '\0', MonthNames()[c.month + 1]);
    ReplaceCharAbsent(s, '\U{1}', MonthAbbrevs()[c.month + 1]);
  }

  /** Name resolution and unescaping leave text without sentinels and backslashes alone. */
  lemma FinishPlain(s: string, c: Fields)
    requires InRange(c)
    requires forall i :: 0 <= i < |s| ==> !IsSentinel(s[i]) && s[i] != '\\'
    ensures Unescape(ResolveNames(s, c)) == s
  {
    ResolveNamesAbsent(s, c);
    UnescapePlain(s);
  }

  lemma DigitsInert(s: string)
    requires AllDigits(s)
    ensures Inert(s)
  {
  }

  lemma IntToStringInert(n: int)
    ensures Inert(IntToString(n))
  {
    assert Inert(NatToString(if n < 0 then -n else n));
  }

  /** A string that no single token pass changes comes through all of them. */
  lemma RenderFixed(c: Fields, timezoneOffset: int, utc: bool, s: string)
    requires forall p: Pass :: p.letter in TokenLetters ==> Apply(p, s) == s
    ensures RenderTokens(c, timezoneOffset, utc, s) == s
  {
    DateFixed(c, s);
    ClockFixed(c, s);
    FractionMeridiemFixed(c, s);
    assert Pass('K', 1, false, ZoneText(timezoneOffset, utc)).letter in TokenLetters;
  }

  lemma DateFixed(c: Fields, s: string)
    requires forall p: Pass :: p.letter in TokenLetters ==> Apply(p, s) == s
    ensures DateTokens(c, s) == s
  {
    GroupFixed(YearPasses(c), s);
    GroupFixed(MonthPasses(c), s);
    GroupFixed(DayPasses(c), s);
  }

  lemma ClockFixed(c: Fields, s: string)
    requires forall p: Pass :: p.letter in TokenLetters ==> Apply(p, s) == s
    ensures ClockTokens(c, s) == s
  {
    GroupFixed(NumberPasses('H', c.hours), s);
    GroupFixed(NumberPasses('h', TwelveHour(c.hours)), s);
    GroupFixed(NumberPasses('m', c.minutes), s);
    GroupFixed(NumberPasses('s', c.seconds), s);
  }

  lemma FractionMeridiemFixed(c: Fields, s: string)
    requires forall p: Pass :: p.letter in TokenLetters ==> Apply(p, s) == s
    ensures FractionMeridiemTokens(c, s) == s
  {
    GroupFixed(FractionPasses(c), s);
    GroupFixed(MeridiemPasses('T', Meridiem(c.hours)), s);
    GroupFixed(MeridiemPasses('t', Lower(Meridiem(c.hours))), s);
  }

  lemma GroupFixed(g: seq<Pass>, s: string)
    requires 1 <= |g| <= 4
    requires forall p: Pass :: p.letter in TokenLetters ==> Apply(p, s) == s
    requires forall i :: 0 <= i < |g| ==> g[i].letter in TokenLetters
    ensures ApplyGroup(g, s) == s
  {
  }

  // ---------------------------------------------------------------------------
  // Patterns without tokens, and escaping.

  /** A pattern with no token letter and no sentinel comes back with only its
      escaping backslashes removed. */
  lemma {:induction false} FormatWithoutTokens(d: Instant, pattern: string, utc: bool)
    requires InRange(Pick(d, utc))
    requires forall i :: 0 <= i < |pattern| ==> pattern[i] !in TokenLetters && !IsSentinel(pattern[i])
    ensures Format(d, pattern, utc) == Unescape(pattern)
  {
    var c := Pick(d, utc);
    forall p: Pass | p.letter in TokenLetters
      ensures Apply(p, pattern) == pattern
    {
      ApplyFromAbsent(p, pattern, true);
    }
    RenderFixed(c, d.timezoneOffset, utc, pattern);
    ResolveNamesAbsent(pattern, c);
  }

  /** In particular a pattern that is inert text is returned unchanged. */
  lemma FormatInert(d: Instant, pattern: string, utc: bool)
    requires InRange(Pick(d, utc))
    requires Inert(pattern)
    ensures Format(d, pattern, utc) == pattern
  {
    FormatWithoutTokens(d, pattern, utc);
    UnescapePlain(pattern);
  }

  lemma EscapeChars(t: string)
    ensures forall i :: 0 <= i < |Escape(t)| ==> Escape(t)[i] == '\\' || Escape(t)[i] in t
  {
    EscapeForm(t);
    forall i | 0 <= i < |Escape(t)|
      ensures Escape(t)[i] == '\\' || Escape(t)[i] in t
    {
      if i % 2 == 1 {
        assert Escape(t)[2 * (i / 2) + 1] == t[i / 2];
      }
    }
  }

  /** No token pass changes a fully escaped pattern. */
  lemma RenderEscaped(c: Fields, timezoneOffset: int, utc: bool, t: string)
    ensures RenderTokens(c, timezoneOffset, utc, Escape(t)) == Escape(t)
  {
    var e := Escape(t);
    EscapeForm(t);
    forall p: Pass | p.letter in TokenLetters
      ensures Apply(p, e) == e
    {
      assert p.letter != '\\';
      ApplyFromEscaped(p, e, true);
    }
    RenderFixed(c, timezoneOffset, utc, e);
  }

  /** Writing a backslash before every character makes the whole pattern literal:
      no token is substituted, and only the backslashes are dropped. */
  lemma {:induction false} FormatEscaped(d: Instant, t: string, utc: bool)
    requires InRange(Pick(d, utc))
    requires forall i :: 0 <= i < |t| ==> !IsLineTerminator(t[i]) && !IsSentinel(t[i])
    ensures Format(d, Escape(t), utc) == t
  {
    var c := Pick(d, utc);
    RenderEscaped(c, d.timezoneOffset, utc, t);
    EscapeChars(t);
    ResolveNamesAbsent(Escape(t), c);
    UnescapeEscape(t);
  }

  // ---------------------------------------------------------------------------
  // From the phase that renders a pattern to the formatter's result.

  /** No sentinel and no backslash: what name resolution and unescaping keep. */
  predicate Plain(s: string) {
    forall i :: 0 <= i < |s| ==> !IsSentinel(s[i]) && s[i] != '\\'
  }

  /** The names that replace the sentinels bring no sentinel and no backslash. */
  lemma NamesPlain(c: Fields)
    requires InRange(c)
    ensures Plain(MonthNames()[c.month + 1]) && Plain(MonthAbbrevs()[c.month + 1])
    ensures Plain(WeekdayNames()[c.day + 1]) && Plain(WeekdayAbbrevs()[c.day + 1])
  {
  }

  lemma FinishDate(d: Instant, utc: bool, pattern: string, s: string)
    requires InRange(Pick(d, utc))
    requires DateTokens(Pick(d, utc), pattern) == s
    requires Lacks(s, {'H', 'h', 'm', 's', 'f', 'T', 't', 'K'})
    ensures Format(d, pattern, utc) == Unescape(ResolveNames(s, Pick(d, utc)))
  {
    AfterDateInert(Pick(d, utc), d.timezoneOffset, utc, pattern, s);
  }

  lemma FinishClock(d: Instant, utc: bool, pattern: string, s: string)
    requires InRange(Pick(d, utc))
    requires Lacks(pattern, {'y', 'M', 'd'})
    requires ClockTokens(Pick(d, utc), pattern) == s
    requires Lacks(s, {'f', 'T', 't', 'K'})
    ensures Format(d, pattern, utc) == Unescape(ResolveNames(s, Pick(d, utc)))
  {
    var c := Pick(d, utc);
    DateInert(c, pattern);
    FractionMeridiemInert(c, s);
    ApplyFromAbsent(Pass('K', 1, false, ZoneText(d.timezoneOffset, utc)), s, true);
  }

  lemma FinishFractionMeridiem(d: Instant, utc: bool, pattern: string, s: string)
    requires InRange(Pick(d, utc))
    requires Lacks(pattern, {'y', 'M', 'd', 'H', 'h', 'm', 's'})
    requires FractionMeridiemTokens(Pick(d, utc), pattern) == s
    requires 'K' !in s
    ensures Format(d, pattern, utc) == Unescape(ResolveNames(s, Pick(d, utc)))
  {
    var c := Pick(d, utc);
    DateInert(c, pattern);
    ClockInert(c, pattern);
    ApplyFromAbsent(Pass('K', 1, false, ZoneText(d.timezoneOffset, utc)), s, true);
  }

  /** Once a phase has produced inert text, that text is the result. */
  lemma DateDone(d: Instant, utc: bool, pattern: string, s: string)
    requires InRange(Pick(d, utc))
    requires DateTokens(Pick(d, utc), pattern) == s && Inert(s)
    ensures Format(d, pattern, utc) == s
  {
    FinishDate(d, utc, pattern, s);
    FinishPlain(s, Pick(d, utc));
  }

  lemma YearDone(d: Instant, utc: bool, pattern: string, s: string)
    requires InRange(Pick(d, utc))
    requires ApplyGroup(YearPasses(Pick(d, utc)), pattern) == s && Inert(s)
    ensures Format(d, pattern, utc) == s
  {
    MonthDayKeep(Pick(d, utc), s);
    DateDone(d, utc, pattern, s);
  }

  /** The month and day passes leave inert text alone. */
  lemma MonthDayKeep(c: Fields, s: string)
    requires Inert(s)
    ensures ApplyGroup(DayPasses(c), ApplyGroup(MonthPasses(c), s)) == s
  {
    GroupAbsent(MonthPasses(c), s);
    GroupAbsent(DayPasses(c), s);
  }

  lemma YearTextInert(year: int)
    ensures Inert(IntToString(year)) && Inert(Substr(IntToString(year), 2, 2))
  {
    var y := IntToString(year);
    IntToStringInert(year);
    var b := if 2 < |y| then 2 else |y|;
    var e := if 4 < |y| then 4 else |y|;
    assert Substr(y, 2, 2) == y[b..e];
    assert forall i :: 0 <= i < e - b ==> y[b..e][i] == y[b + i];
  }

  // ---------------------------------------------------------------------------
  // The year tokens.

  /** `yyyy` and longer runs render the whole year. */
  lemma FormatYearFull(d: Instant, utc: bool, t: string)
    requires InRange(Pick(d, utc))
    requires AllOf(t, 'y') && |t| >= 4
    ensures Format(d, t, utc) == IntToString(Pick(d, utc).year)
  {
    var c := Pick(d, utc);
    var y := IntToString(c.year);
    YearTextInert(c.year);
    assert [] + t + [] == t;
    MatchOnce(YearPasses(c)[0], [], t, [], true);
    assert [] + y + ApplyFrom(YearPasses(c)[0], [], false) == y;
    ApplyFromAbsent(YearPasses(c)[1], y, true);
    ApplyFromAbsent(YearPasses(c)[2], y, true);
    YearDone(d, utc, t, y);
  }

  /** `yy` renders the third and fourth characters of the year's decimal form,
      not a zero-padded two-digit year. */
  lemma FormatYearShort(d: Instant, utc: bool)
    requires InRange(Pick(d, utc))
    ensures Format(d, "yy", utc) == Substr(IntToString(Pick(d, utc).year), 2, 2)
  {
    var c := Pick(d, utc);
    var yy := Substr(IntToString(c.year), 2, 2);
    YearTextInert(c.year);
    assert [] + "yy" + [] == "yy";
    SkipShort(YearPasses(c)[0], [], "yy", [], true);
    MatchOnce(YearPasses(c)[1], [], "yy", [], true);
    assert [] + yy + ApplyFrom(YearPasses(c)[1], [], false) == yy;
    ApplyFromAbsent(YearPasses(c)[2], yy, true);
    YearDone(d, utc, "yy", yy);
  }

  /** A lone `y` renders the whole year. */
  lemma FormatYearSingle(d: Instant, utc: bool)
    requires InRange(Pick(d, utc))
    ensures Format(d, "y", utc) == IntToString(Pick(d, utc).year)
  {
    var c := Pick(d, utc);
    var y := IntToString(c.year);
    YearTextInert(c.year);
    assert [] + "y" + [] == "y";
    SkipShort(YearPasses(c)[0], [], "y", [], true);
    SkipShort(YearPasses(c)[1], [], "y", [], true);
    MatchOnce(YearPasses(c)[2], [], "y", [], true);
    YearDone(d, utc, "y", y);
  }

  /** `yyy` is not a token of its own: the `yy` pass takes the first two letters
      and the `y` pass the third, so the short year is followed by the full year
      (2014 renders as "142014"). */
  lemma FormatYearThree(d: Instant, utc: bool)
    requires InRange(Pick(d, utc))
    ensures var y := IntToString(Pick(d, utc).year);
      Format(d, "yyy", utc) == Substr(y, 2, 2) + y
  {
    var c := Pick(d, utc);
    var y := IntToString(c.year);
    YearTextInert(c.year);
    YearThreeGroup(c);
    YearDone(d, utc, "yyy", Substr(y, 2, 2) + y);
  }

  lemma YearThreeGroup(c: Fields)
    ensures var y := IntToString(c.year);
      ApplyGroup(YearPasses(c), "yyy") == Substr(y, 2, 2) + y
  {
    var y := IntToString(c.year);
    var yy := Substr(y, 2, 2);
    YearTextInert(c.year);
    ShortPassKeeps(YearPasses(c)[0], "yyy");
    ShortYearStep(YearPasses(c)[1]);
    LoneYearStep(YearPasses(c)[2], yy);
  }

  /** The `yy` pass on "yyy" takes the first two letters and leaves the third. */
  lemma ShortYearStep(p: Pass)
    requires p.letter == 'y' && p.run == 2 && !p.orMore && 'y' !in p.rep
    ensures Apply(p, "yyy") == p.rep + "y"
  {
    assert "yyy" == [] + "yy" + "y";
    MatchOnce(p, [], "yy", "y", true);
    SkipShortRun(p, "y", [], false);
    assert "y" + [] == "y";
  }

  /** The lone `y` pass after inert text renders the year there. */
  lemma LoneYearStep(p: Pass, a: string)
    requires p.letter == 'y' && p.run == 1 && !p.orMore && Inert(a)
    ensures Apply(p, a + "y") == a + p.rep
  {
    assert a + "y" == a + "y" + [];
    MatchOnce(p, a, "y", [], true);
  }

  // ---------------------------------------------------------------------------
  // The month and day tokens.

  lemma NumberInert(n: nat, len: nat)
    ensures Inert(NatToString(n)) && Inert(Padded(n, len))
  {
    PaddedValue(n, len);
    DigitsInert(NatToString(n));
    DigitsInert(Padded(n, len));
  }

  /** A lone sentinel resolves to the name at the month or weekday index. */
  lemma ResolveSentinels(c: Fields)
    requires InRange(c)
    ensures ResolveNames([MonthNames()[0][0]], c) == MonthNames()[c.month + 1]
    ensures ResolveNames([MonthAbbrevs()[0][0]], c) == MonthAbbrevs()[c.month + 1]
    ensures ResolveNames([WeekdayNames()[0][0]], c) == WeekdayNames()[c.day + 1]
    ensures ResolveNames([WeekdayAbbrevs()[0][0]], c) == WeekdayAbbrevs()[c.day + 1]
  {
    NamesPlain(c);
    var m, w := c.month + 1, c.day + 1;
    ResolveOne(c, MonthNames()[0][0], MonthNames()[m]);
    ResolveOne(c, MonthAbbrevs()[0][0], MonthAbbrevs()[m]);
    ResolveOne(c, WeekdayNames()[0][0], WeekdayNames()[w]);
    ResolveOne(c, WeekdayAbbrevs()[0][0], WeekdayAbbrevs()[w]);
  }

  lemma ResolveOne(c: Fields, x: char, name: string)
    requires InRange(c) && Plain(name)
    requires x == MonthNames()[0][0] ==> name == MonthNames()[c.month + 1]
    requires x == MonthAbbrevs()[0][0] ==> name == MonthAbbrevs()[c.month + 1]
    requires x == WeekdayNames()[0][0] ==> name == WeekdayNames()[c.day + 1]
    requires x == WeekdayAbbrevs()[0][0] ==> name == WeekdayAbbrevs()[c.day + 1]
    requires IsSentinel(x)
    ensures ResolveNames([x], c) == name
  {
    var m, w := c.month + 1, c.day + 1;
    var s1 := ReplaceChar([x], '\U{2}', WeekdayNames()[w]);
    var s2 := ReplaceChar(s1, '\U{3}', WeekdayAbbrevs()[w]);
    var s3 := ReplaceChar(s2, '\0', MonthNames()[m]);
    var s4 := ReplaceChar(s3, '\U{1}', MonthAbbrevs()[m]);
    assert ReplaceChar([x], x, name) == name by {
      assert [x][1..] == [];
      assert name + [] == name;
    }
    if x == '\U{2}' {
      ReplaceCharAbsent(name, '\U{3}', WeekdayAbbrevs()[w]);
      ReplaceCharAbsent(name, '\0', MonthNames()[m]);
      ReplaceCharAbsent(name, '\U{1}', MonthAbbrevs()[m]);
    } else if x == '\U{3}' {
      ReplaceCharAbsent([x], '\U{2}', WeekdayNames()[w]);
      ReplaceCharAbsent(name, '\0', MonthNames()[m]);
      ReplaceCharAbsent(name, '\U{1}', MonthAbbrevs()[m]);
    } else if x == '\0' {
      ReplaceCharAbsent([x], '\U{2}', WeekdayNames()[w]);
      ReplaceCharAbsent([x], '\U{3}', WeekdayAbbrevs()[w]);
      ReplaceCharAbsent(name, '\U{1}', MonthAbbrevs()[m]);
    } else {
      ReplaceCharAbsent([x], '\U{2}', WeekdayNames()[w]);
      ReplaceCharAbsent([x], '\U{3}', WeekdayAbbrevs()[w]);
      ReplaceCharAbsent([x], '\0', MonthNames()[m]);
    }
  }

  /** A pattern without `y` whose month passes leave no token letter. */
  lemma MonthStep(d: Instant, utc: bool, pattern: string, s: string)
    requires InRange(Pick(d, utc)) && 'y' !in pattern
    requires ApplyGroup(MonthPasses(Pick(d, utc)), pattern) == s && Lacks(s, TokenLetters)
    ensures Format(d, pattern, utc) == Unescape(ResolveNames(s, Pick(d, utc)))
  {
    var c := Pick(d, utc);
    GroupAbsent(YearPasses(c), pattern);
    GroupAbsent(DayPasses(c), s);
    FinishDate(d, utc, pattern, s);
  }

  /** A pattern without `y` and `M` whose day passes leave no token letter. */
  lemma DayStep(d: Instant, utc: bool, pattern: string, s: string)
    requires InRange(Pick(d, utc)) && 'y' !in pattern && 'M' !in pattern
    requires ApplyGroup(DayPasses(Pick(d, utc)), pattern) == s && Lacks(s, TokenLetters)
    ensures Format(d, pattern, utc) == Unescape(ResolveNames(s, Pick(d, utc)))
  {
    var c := Pick(d, utc);
    GroupAbsent(YearPasses(c), pattern);
    GroupAbsent(MonthPasses(c), pattern);
    FinishDate(d, utc, pattern, s);
  }

  /** A lone sentinel holds no token letter and comes out as its name. */
  lemma SentinelOut(c: Fields, x: char, name: string)
    requires InRange(c) && IsSentinel(x)
    requires x == MonthNames()[0][0] ==> name == MonthNames()[c.month + 1]
    requires x == MonthAbbrevs()[0][0] ==> name == MonthAbbrevs()[c.month + 1]
    requires x == WeekdayNames()[0][0] ==> name == WeekdayNames()[c.day + 1]
    requires x == WeekdayAbbrevs()[0][0] ==> name == WeekdayAbbrevs()[c.day + 1]
    ensures Lacks([x], TokenLetters) && Unescape(ResolveNames([x], c)) == name
  {
    SentinelLacks(x);
    SentinelName(c, x, name);
    UnescapePlain(name);
  }

  lemma SentinelLacks(x: char)
    requires IsSentinel(x)
    ensures Lacks([x], TokenLetters)
  {
  }

  lemma SentinelName(c: Fields, x: char, name: string)
    requires InRange(c) && IsSentinel(x)
    requires x == MonthNames()[0][0] ==> name == MonthNames()[c.month + 1]
    requires x == MonthAbbrevs()[0][0] ==> name == MonthAbbrevs()[c.month + 1]
    requires x == WeekdayNames()[0][0] ==> name == WeekdayNames()[c.day + 1]
    requires x == WeekdayAbbrevs()[0][0] ==> name == WeekdayAbbrevs()[c.day + 1]
    ensures ResolveNames([x], c) == name && Plain(name)
  {
    NamesPlain(c);
    ResolveOne(c, x, name);
  }

  /** A number's digits hold no token letter and come out unchanged. */
  lemma NumberOut(c: Fields, s: string, n: nat)
    requires InRange(c) && (s == Padded(n, 2) || s == NatToString(n))
    ensures Lacks(s, TokenLetters) && Unescape(ResolveNames(s, c)) == s
  {
    NumberInert(n, 2);
    FinishPlain(s, c);
  }

  /** The month passes on a run of `M`: four or more give the full-name
      sentinel, three the abbreviation sentinel, two the padded number, one the
      number. */
  lemma MonthGroup(c: Fields, t: string)
    requires AllOf(t, 'M') && |t| >= 1
    ensures ApplyGroup(MonthPasses(c), t) ==
      if |t| >= 4 then [MonthNames()[0][0]]
      else if |t| == 3 then [MonthAbbrevs()[0][0]]
      else if |t| == 2 then Padded(c.month + 1, 2)
      else NatToString(c.month + 1)
  {
    MonthPassesShape(c);
    GroupRun(MonthPasses(c), t, if |t| >= 4 then 0 else 4 - |t|);
  }

  /** The month passes: `M` runs of four (or more), three, two and one, none of
      whose replacements holds an `M`. */
  lemma MonthPassesShape(c: Fields)
    ensures var g := MonthPasses(c);
      && |g| == 4
      && (forall i :: 0 <= i < 4 ==> g[i].letter == 'M' && g[i].run == 4 - i)
      && (forall i :: 0 <= i < 4 ==> (g[i].orMore <==> i == 0) && 'M' !in g[i].rep)
      && g[0].rep == [MonthNames()[0][0]] && g[1].rep == [MonthAbbrevs()[0][0]]
      && g[2].rep == Padded(c.month + 1, 2) && g[3].rep == NatToString(c.month + 1)
  {
    NumberInert(c.month + 1, 2);
  }

  /** The day passes on a run of `d`, likewise. */
  lemma DayGroup(c: Fields, t: string)
    requires AllOf(t, 'd') && |t| >= 1
    ensures ApplyGroup(DayPasses(c), t) ==
      if |t| >= 4 then [WeekdayNames()[0][0]]
      else if |t| == 3 then [WeekdayAbbrevs()[0][0]]
      else if |t| == 2 then Padded(c.date, 2)
      else NatToString(c.date)
  {
    DayPassesShape(c);
    GroupRun(DayPasses(c), t, if |t| >= 4 then 0 else 4 - |t|);
  }

  lemma DayPassesShape(c: Fields)
    ensures var g := DayPasses(c);
      && |g| == 4
      && (forall i :: 0 <= i < 4 ==> g[i].letter == 'd' && g[i].run == 4 - i)
      && (forall i :: 0 <= i < 4 ==> (g[i].orMore <==> i == 0) && 'd' !in g[i].rep)
      && g[0].rep == [WeekdayNames()[0][0]] && g[1].rep == [WeekdayAbbrevs()[0][0]]
      && g[2].rep == Padded(c.date, 2) && g[3].rep == NatToString(c.date)
  {
    NumberInert(c.date, 2);
  }

  /** A group of two to four passes of one letter, longest run first, each pass
      exactly as long as its place says (the first greedy): on a run of the
      letter, the pass at index `k` is the one that matches, and the passes after
      it find no letter in its replacement. */
  lemma GroupRun(g: seq<Pass>, t: string, k: nat)
    requires 2 <= |g| <= 4 && k < |g| && |t| >= 1
    requires forall i :: 0 <= i < |g| ==> g[i].letter == g[0].letter && g[i].run == |g| - i
    requires forall i :: 0 <= i < |g| ==> (g[i].orMore <==> i == 0)
    requires AllOf(t, g[0].letter)
    requires k == if |t| >= |g| then 0 else |g| - |t|
    requires forall i :: 0 <= i < |g| ==> g[0].letter !in g[i].rep
    ensures ApplyGroup(g, t) == g[k].rep
  {
    ShortPassesKeep(g, t, k, g[0].letter);
    assert [] + t + [] == t;
    MatchOnce(g[k], [], t, [], true);
    assert [] + g[k].rep + ApplyFrom(g[k], [], false) == g[k].rep;
    for i := k + 1 to |g|
      invariant forall j :: k < j < i ==> Apply(g[j], g[k].rep) == g[k].rep
    {
      ApplyFromAbsent(g[i], g[k].rep, true);
    }
    GroupSteps(g, t, k, g[k].rep);
  }

  /** The passes that need a longer run than `t` leave it alone. */
  lemma ShortPassesKeep(g: seq<Pass>, t: string, k: nat, x: char)
    requires k <= |g|
    requires forall i :: 0 <= i < k ==> g[i].letter == x && |t| < g[i].run
    requires AllOf(t, x)
    ensures forall j :: 0 <= j < k ==> Apply(g[j], t) == t
  {
    for i := 0 to k
      invariant forall j :: 0 <= j < i ==> Apply(g[j], t) == t
    {
      ShortPassKeeps(g[i], t);
    }
  }

  lemma ShortPassKeeps(p: Pass, t: string)
    requires AllOf(t, p.letter) && |t| < p.run
    ensures Apply(p, t) == t
  {
    assert t + [] == t;
    SkipShortRun(p, t, [], true);
  }

  /** A group where the passes before `k` leave `s`, pass `k` gives `r`, and the
      passes after it leave `r`, gives `r`. */
  lemma GroupSteps(g: seq<Pass>, s: string, k: nat, r: string)
    requires 1 <= |g| <= 4 && k < |g|
    requires forall j :: 0 <= j < k ==> Apply(g[j], s) == s
    requires Apply(g[k], s) == r
    requires forall j :: k < j < |g| ==> Apply(g[j], r) == r
    ensures ApplyGroup(g, s) == r
  {
    if k == 0 {
    } else if k == 1 {
      assert Apply(g[0], s) == s;
    } else if k == 2 {
      assert Apply(g[0], s) == s && Apply(g[1], s) == s;
    } else {
      assert Apply(g[0], s) == s && Apply(g[1], s) == s && Apply(g[2], s) == s;
    }
  }

  /** A run of `M`: `MMMM` and longer render the full month name, `MMM` the
      abbreviation, `MM` the month number 1-12 padded to two digits, `M` the
      number. The letters of a name ("May") are not taken for tokens. */
  lemma FormatMonth(d: Instant, utc: bool, t: string)
    requires InRange(Pick(d, utc))
    requires AllOf(t, 'M') && |t| >= 1
    ensures var m := Pick(d, utc).month + 1;
      Format(d, t, utc) ==
        if |t| >= 4 then MonthNames()[m]
        else if |t| == 3 then MonthAbbrevs()[m]
        else if |t| == 2 then Padded(m, 2)
        else NatToString(m)
  {
    var c := Pick(d, utc);
    MonthSection(c, t);
    MonthStep(d, utc, t, ApplyGroup(MonthPasses(c), t));
  }

  lemma MonthSection(c: Fields, t: string)
    requires InRange(c) && AllOf(t, 'M') && |t| >= 1
    ensures var s := ApplyGroup(MonthPasses(c), t);
      && Lacks(s, TokenLetters)
      && Unescape(ResolveNames(s, c)) ==
        if |t| >= 4 then MonthNames()[c.month + 1]
        else if |t| == 3 then MonthAbbrevs()[c.month + 1]
        else if |t| == 2 then Padded(c.month + 1, 2)
        else NatToString(c.month + 1)
  {
    MonthGroup(c, t);
    if |t| >= 4 {
      SentinelOut(c, MonthNames()[0][0], MonthNames()[c.month + 1]);
    } else if |t| == 3 {
      SentinelOut(c, MonthAbbrevs()[0][0], MonthAbbrevs()[c.month + 1]);
    } else {
      NumberOut(c, ApplyGroup(MonthPasses(c), t), c.month + 1);
    }
  }

  /** A run of `d`: `dddd` and longer render the weekday name, `ddd` its
      abbreviation, `dd` the day of the month padded to two digits, `d` the day. */
  lemma FormatDay(d: Instant, utc: bool, t: string)
    requires InRange(Pick(d, utc))
    requires AllOf(t, 'd') && |t| >= 1
    ensures var c := Pick(d, utc);
      Format(d, t, utc) ==
        if |t| >= 4 then WeekdayNames()[c.day + 1]
        else if |t| == 3 then WeekdayAbbrevs()[c.day + 1]
        else if |t| == 2 then Padded(c.date, 2)
        else NatToString(c.date)
  {
    var c := Pick(d, utc);
    DaySection(c, t);
    DayStep(d, utc, t, ApplyGroup(DayPasses(c), t));
  }

  lemma DaySection(c: Fields, t: string)
    requires InRange(c) && AllOf(t, 'd') && |t| >= 1
    ensures var s := ApplyGroup(DayPasses(c), t);
      && Lacks(s, TokenLetters)
      && Unescape(ResolveNames(s, c)) ==
        if |t| >= 4 then WeekdayNames()[c.day + 1]
        else if |t| == 3 then WeekdayAbbrevs()[c.day + 1]
        else if |t| == 2 then Padded(c.date, 2)
        else NatToString(c.date)
  {
    DayGroup(c, t);
    if |t| >= 4 {
      SentinelOut(c, WeekdayNames()[0][0], WeekdayNames()[c.day + 1]);
    } else if |t| == 3 {
      SentinelOut(c, WeekdayAbbrevs()[0][0], WeekdayAbbrevs()[c.day + 1]);
    } else {
      NumberOut(c, ApplyGroup(DayPasses(c), t), c.date);
    }
  }

  // ---------------------------------------------------------------------------
  // The clock tokens.

  /** The value a clock letter renders: `H` the hour 0-23, `h` the 12-hour
      clock value, `m` the minutes, `s` the seconds. */
  function ClockValue(c: Fields, letter: char): nat {
    match letter
    case 'H' => c.hours
    case 'h' => TwelveHour(c.hours)
    case 'm' => c.minutes
    case _ => c.seconds
  }

  /** A run of one clock letter: two or more letters render its value padded to
      two digits, one letter the value. */
  lemma FormatClock(d: Instant, utc: bool, letter: char, t: string)
    requires InRange(Pick(d, utc))
    requires letter in {'H', 'h', 'm', 's'}
    requires AllOf(t, letter) && |t| >= 1
    ensures var n := ClockValue(Pick(d, utc), letter);
      Format(d, t, utc) == if |t| >= 2 then Padded(n, 2) else NatToString(n)
  {
    var c := Pick(d, utc);
    var n := ClockValue(c, letter);
    var r := if |t| >= 2 then Padded(n, 2) else NatToString(n);
    NumberInert(n, 2);
    var k := if letter == 'H' then 0 else if letter == 'h' then 1 else if letter == 'm' then 2 else 3;
    assert "Hhms"[k] == letter;
    ClockRun(c, k, t, r);
    ClockLetterLacks(t, letter);
    FinishClock(d, utc, t, r);
    FinishPlain(r, c);
  }

  lemma ClockLetterLacks(t: string, letter: char)
    requires letter in {'H', 'h', 'm', 's'} && AllOf(t, letter)
    ensures Lacks(t, {'y', 'M', 'd'})
  {
  }

  /** The clock groups, `H`, `h`, `m`, `s` in source order. */
  function ClockGroups(c: Fields): (gs: seq<seq<Pass>>)
    ensures |gs| == 4 && forall j :: 0 <= j < 4 ==> |gs[j]| == 2
  {
    [NumberPasses('H', c.hours), NumberPasses('h', TwelveHour(c.hours)),
     NumberPasses('m', c.minutes), NumberPasses('s', c.seconds)]
  }

  /** The clock groups on a run of the letter of group `k`: the groups before it
      find nothing, group `k` renders `r`, the later ones find nothing in `r`. */
  lemma ClockRun(c: Fields, k: nat, t: string, r: string)
    requires k < 4
    requires AllOf(t, "Hhms"[k]) && |t| >= 1 && Inert(r)
    requires r == if |t| >= 2 then ClockGroups(c)[k][0].rep else ClockGroups(c)[k][1].rep
    ensures ClockTokens(c, t) == r
  {
    var gs: seq<seq<Pass>> := ClockGroups(c);
    ClockGroupsShape(c, k);
    GroupRun(gs[k], t, if |t| >= 2 then 0 else 1);
    GroupsAbsent(gs, 0, k, t, "Hhms"[k]);
    GroupsAbsent(gs, k + 1, 4, r, "Hhms"[k]);
    ChainSteps(gs, t, k, r);
  }

  /** Each clock group is a greedy two-letter pass and a one-letter pass of its
      own letter, whose replacements hold no token letter. */
  lemma ClockGroupsShape(c: Fields, k: nat)
    requires k < 4
    ensures var gs := ClockGroups(c);
      && (forall j, i :: 0 <= j < 4 && 0 <= i < 2 ==> gs[j][i].letter in TokenLetters)
      && (forall j, i :: 0 <= j < 4 && j != k && 0 <= i < 2 ==> gs[j][i].letter != "Hhms"[k])
      && gs[k][0].letter == gs[k][1].letter == "Hhms"[k]
      && gs[k][0].run == 2 && gs[k][1].run == 1 && gs[k][0].orMore && !gs[k][1].orMore
      && Inert(gs[k][0].rep) && Inert(gs[k][1].rep)
  {
    var n := [c.hours, TwelveHour(c.hours), c.minutes, c.seconds][k];
    NumberInert(n, 2);
    assert ClockGroups(c)[k] == NumberPasses("Hhms"[k], n);
  }

  /** Groups `lo` to `hi` (exclusive), none of them for the letter `x`, leave a
      run of `x` alone and leave inert text alone. */
  lemma GroupsAbsent(gs: seq<seq<Pass>>, lo: nat, hi: nat, s: string, x: char)
    requires lo <= hi <= |gs|
    requires forall j :: lo <= j < hi ==> 1 <= |gs[j]| <= 4
    requires forall j, i :: lo <= j < hi && 0 <= i < |gs[j]| ==> gs[j][i].letter in TokenLetters && gs[j][i].letter != x
    requires AllOf(s, x) || Inert(s) || forall j, i :: lo <= j < hi && 0 <= i < |gs[j]| ==> gs[j][i].letter !in s
    ensures forall j :: lo <= j < hi ==> ApplyGroup(gs[j], s) == s
  {
    for n := lo to hi
      invariant forall j :: lo <= j < n ==> ApplyGroup(gs[j], s) == s
    {
      GroupAbsent(gs[n], s);
    }
  }

  /** Four groups where those before `k` leave `s`, group `k` gives `r`, and
      those after it leave `r`, give `r`. */
  lemma ChainSteps(gs: seq<seq<Pass>>, s: string, k: nat, r: string)
    requires |gs| == 4 && k < 4
    requires forall j :: 0 <= j < 4 ==> 1 <= |gs[j]| <= 4
    requires forall j :: 0 <= j < k ==> ApplyGroup(gs[j], s) == s
    requires ApplyGroup(gs[k], s) == r
    requires forall j :: k < j < 4 ==> ApplyGroup(gs[j], r) == r
    ensures ApplyGroup(gs[3], ApplyGroup(gs[2], ApplyGroup(gs[1], ApplyGroup(gs[0], s)))) == r
  {
    if k == 0 {
    } else if k == 1 {
      assert ApplyGroup(gs[0], s) == s;
    } else if k == 2 {
      assert ApplyGroup(gs[0], s) == s && ApplyGroup(gs[1], s) == s;
    } else {
      assert ApplyGroup(gs[0], s) == s && ApplyGroup(gs[1], s) == s && ApplyGroup(gs[2], s) == s;
    }
  }

  // ---------------------------------------------------------------------------
  // The fraction and designator tokens.

  /** The fraction and designator groups, `f`, `T`, `t` in source order. */
  function FractionMeridiemGroups(c: Fields): (gs: seq<seq<Pass>>)
    ensures |gs| == 3 && |gs[0]| == 3 && |gs[1]| == 2 && |gs[2]| == 2
  {
    [FractionPasses(c), MeridiemPasses('T', Meridiem(c.hours)), MeridiemPasses('t', Lower(Meridiem(c.hours)))]
  }

  lemma LowerMeridiem(hours: nat)
    ensures Lower(Meridiem(hours)) == if hours < 12 then "am" else "pm"
  {
  }

  /** The designators and their first letters bring no sentinel, backslash or `K`. */
  lemma DesignatorPlain(text: string, r: string)
    requires text in {"AM", "PM", "am", "pm"} && (r == text || r == text[..1])
    ensures Plain(r) && 'K' !in r
  {
  }

  /** Each of these groups is a greedy pass and shorter exact passes of its own
      letter; the replacements hold neither that letter nor a later group's. */
  lemma FractionMeridiemShape(c: Fields, k: nat)
    requires k < 3
    ensures var gs := FractionMeridiemGroups(c);
      && (forall j, i :: 0 <= j < 3 && 0 <= i < |gs[j]| ==> gs[j][i].letter in TokenLetters)
      && (forall j, i :: 0 <= j < 3 && j != k && 0 <= i < |gs[j]| ==> gs[j][i].letter != "fTt"[k])
      && (forall i :: 0 <= i < |gs[k]| ==> gs[k][i].letter == "fTt"[k] && gs[k][i].run == |gs[k]| - i)
      && (forall i :: 0 <= i < |gs[k]| ==> (gs[k][i].orMore <==> i == 0))
      && (forall i, j, l :: 0 <= i < |gs[k]| && k <= j < 3 && 0 <= l < |gs[j]| ==> gs[j][l].letter !in gs[k][i].rep)
  {
    var gs := FractionMeridiemGroups(c);
    LowerMeridiem(c.hours);
    NumberInert(c.ms, 3);
    NumberInert(Round10(c.ms), 2);
    NumberInert(Round10(Round10(c.ms)), 2);
  }

  /** Three groups where those before `k` leave `s`, group `k` gives `r`, and
      those after it leave `r`, give `r`. */
  lemma ChainSteps3(gs: seq<seq<Pass>>, s: string, k: nat, r: string)
    requires |gs| == 3 && k < 3
    requires forall j :: 0 <= j < 3 ==> 1 <= |gs[j]| <= 4
    requires forall j :: 0 <= j < k ==> ApplyGroup(gs[j], s) == s
    requires ApplyGroup(gs[k], s) == r
    requires forall j :: k < j < 3 ==> ApplyGroup(gs[j], r) == r
    ensures ApplyGroup(gs[2], ApplyGroup(gs[1], ApplyGroup(gs[0], s))) == r
  {
    if k == 1 {
      assert ApplyGroup(gs[0], s) == s;
    } else if k == 2 {
      assert ApplyGroup(gs[0], s) == s && ApplyGroup(gs[1], s) == s;
    }
  }

  /** The fraction and designator groups on a run of the letter of group `k`. */
  lemma FractionMeridiemRun(c: Fields, k: nat, t: string, r: string)
    requires k < 3
    requires AllOf(t, "fTt"[k]) && |t| >= 1
    requires var g := FractionMeridiemGroups(c)[k];
      r == g[if |t| >= |g| then 0 else |g| - |t|].rep
    ensures FractionMeridiemTokens(c, t) == r
  {
    var gs: seq<seq<Pass>> := FractionMeridiemGroups(c);
    FractionMeridiemGroupSteps(c, k, t, r);
    ChainSteps3(gs, t, k, r);
    FractionMeridiemChain(c, t);
  }

  lemma FractionMeridiemGroupSteps(c: Fields, k: nat, t: string, r: string)
    requires k < 3
    requires AllOf(t, "fTt"[k]) && |t| >= 1
    requires var g := FractionMeridiemGroups(c)[k];
      r == g[if |t| >= |g| then 0 else |g| - |t|].rep
    ensures var gs := FractionMeridiemGroups(c);
      && (forall j :: 0 <= j < k ==> ApplyGroup(gs[j], t) == t)
      && ApplyGroup(gs[k], t) == r
      && (forall j :: k < j < 3 ==> ApplyGroup(gs[j], r) == r)
  {
    var gs: seq<seq<Pass>> := FractionMeridiemGroups(c);
    var i := if |t| >= |gs[k]| then 0 else |gs[k]| - |t|;
    FractionMeridiemShape(c, k);
    GroupRun(gs[k], t, i);
    GroupsAbsent(gs, 0, k, t, "fTt"[k]);
    GroupsAbsent(gs, k + 1, 3, r, "fTt"[k]);
  }

  /** The fraction and designator section is its three groups in order. */
  lemma FractionMeridiemChain(c: Fields, s: string)
    ensures var gs := FractionMeridiemGroups(c);
      FractionMeridiemTokens(c, s) == ApplyGroup(gs[2], ApplyGroup(gs[1], ApplyGroup(gs[0], s)))
  {
  }

  lemma FractionMeridiemLetterLacks(t: string, letter: char)
    requires letter in {'f', 'T', 't'} && AllOf(t, letter)
    ensures Lacks(t, {'y', 'M', 'd', 'H', 'h', 'm', 's'})
  {
  }

  /** A run of `f`: `fff` and longer render the milliseconds padded to three
      digits, `ff` the hundredths (rounded half up) padded to two, `f` the tenths
      (rounded half up from the hundredths). */
  lemma FormatFraction(d: Instant, utc: bool, t: string)
    requires InRange(Pick(d, utc))
    requires AllOf(t, 'f') && |t| >= 1
    ensures var ms := Pick(d, utc).ms;
      Format(d, t, utc) ==
        if |t| >= 3 then Padded(ms, 3)
        else if |t| == 2 then Padded(Round10(ms), 2)
        else NatToString(Round10(Round10(ms)))
  {
    var c := Pick(d, utc);
    var r := if |t| >= 3 then Padded(c.ms, 3)
      else if |t| == 2 then Padded(Round10(c.ms), 2)
      else NatToString(Round10(Round10(c.ms)));
    NumberInert(c.ms, 3);
    NumberInert(Round10(c.ms), 2);
    NumberInert(Round10(Round10(c.ms)), 2);
    assert "fTt"[0] == 'f';
    FractionMeridiemRun(c, 0, t, r);
    FractionMeridiemLetterLacks(t, 'f');
    FinishFractionMeridiem(d, utc, t, r);
    FinishPlain(r, c);
  }

  /** A run of `T`: `TT` and longer render "AM" before noon and "PM" from noon
      on, `T` the first letter only. */
  lemma FormatDesignator(d: Instant, utc: bool, t: string)
    requires InRange(Pick(d, utc))
    requires AllOf(t, 'T') && |t| >= 1
    ensures var text := if Pick(d, utc).hours < 12 then "AM" else "PM";
      Format(d, t, utc) == if |t| >= 2 then text else text[..1]
  {
    var c := Pick(d, utc);
    var text := Meridiem(c.hours);
    var r := if |t| >= 2 then text else text[..1];
    assert "fTt"[1] == 'T';
    DesignatorPlain(text, r);
    FractionMeridiemRun(c, 1, t, r);
    FractionMeridiemLetterLacks(t, 'T');
    FinishFractionMeridiem(d, utc, t, r);
    FinishPlain(r, c);
  }

  /** A run of `t`: the lower-case forms, "am" or "pm", and "a" or "p". */
  lemma FormatDesignatorLower(d: Instant, utc: bool, t: string)
    requires InRange(Pick(d, utc))
    requires AllOf(t, 't') && |t| >= 1
    ensures var text := if Pick(d, utc).hours < 12 then "am" else "pm";
      Format(d, t, utc) == if |t| >= 2 then text else text[..1]
  {
    var c := Pick(d, utc);
    var text := Lower(Meridiem(c.hours));
    LowerMeridiem(c.hours);
    var r := if |t| >= 2 then text else text[..1];
    assert "fTt"[2] == 't';
    DesignatorPlain(text, r);
    FractionMeridiemRun(c, 2, t, r);
    FractionMeridiemLetterLacks(t, 't');
    FinishFractionMeridiem(d, utc, t, r);
    FinishPlain(r, c);
  }

  // ---------------------------------------------------------------------------
  // Composing patterns: splitting at a literal, and literal text in front.

  lemma PassSplit(p: Pass, x: string, y: string)
    requires p.letter in TokenLetters && y != [] && y[0] !in TokenLetters
    ensures Apply(p, x + y) == Apply(p, x) + Apply(p, y)
    ensures Apply(p, y) != [] && Apply(p, y)[0] == y[0]
  {
    ApplySplit(p, x, y, true);
    ApplyHead(p, y);
  }

  lemma GroupSplit(g: seq<Pass>, x: string, y: string)
    requires 1 <= |g| <= 4 && forall i :: 0 <= i < |g| ==> g[i].letter in TokenLetters
    requires y != [] && y[0] !in TokenLetters
    ensures ApplyGroup(g, x + y) == ApplyGroup(g, x) + ApplyGroup(g, y)
    ensures ApplyGroup(g, y) != [] && ApplyGroup(g, y)[0] == y[0]
  {
    PassSplit(g[0], x, y);
    var x1, y1 := Apply(g[0], x), Apply(g[0], y);
    if |g| >= 2 {
      PassSplit(g[1], x1, y1);
      var x2, y2 := Apply(g[1], x1), Apply(g[1], y1);
      if |g| >= 3 {
        PassSplit(g[2], x2, y2);
        var x3, y3 := Apply(g[2], x2), Apply(g[2], y2);
        if |g| == 4 {
          PassSplit(g[3], x3, y3);
        }
      }
    }
  }

  /** Splitting the pattern just before a character that is not a token letter
      splits what the token passes make of it at the same place. */
  lemma RenderSplit(c: Fields, timezoneOffset: int, utc: bool, x: string, y: string)
    requires y != [] && y[0] !in TokenLetters
    ensures RenderTokens(c, timezoneOffset, utc, x + y)
         == RenderTokens(c, timezoneOffset, utc, x) + RenderTokens(c, timezoneOffset, utc, y)
  {
    var x1, y1 := DateTokens(c, x), DateTokens(c, y);
    DateSplit(c, x, y);
    var x2, y2 := ClockTokens(c, x1), ClockTokens(c, y1);
    ClockSplit(c, x1, y1);
    FractionMeridiemSplit(c, x2, y2);
    var x3, y3 := FractionMeridiemTokens(c, x2), FractionMeridiemTokens(c, y2);
    PassSplit(Pass('K', 1, false, ZoneText(timezoneOffset, utc)), x3, y3);
  }

  /** The date groups, `y`, `M`, `d` in source order. */
  function DateGroups(c: Fields): (gs: seq<seq<Pass>>)
    ensures |gs| == 3 && |gs[0]| == 3 && |gs[1]| == 4 && |gs[2]| == 4
  {
    [YearPasses(c), MonthPasses(c), DayPasses(c)]
  }

  lemma DateGroupsLetters(c: Fields)
    ensures var gs := DateGroups(c);
      forall j, i :: 0 <= j < 3 && 0 <= i < |gs[j]| ==> gs[j][i].letter in TokenLetters
  {
  }

  lemma DateSplit(c: Fields, x: string, y: string)
    requires y != [] && y[0] !in TokenLetters
    ensures DateTokens(c, x + y) == DateTokens(c, x) + DateTokens(c, y)
    ensures DateTokens(c, y) != [] && DateTokens(c, y)[0] == y[0]
  {
    var gs := DateGroups(c);
    DateGroupsLetters(c);
    GroupSplit(gs[0], x, y);
    var x1, y1 := ApplyGroup(gs[0], x), ApplyGroup(gs[0], y);
    GroupSplit(gs[1], x1, y1);
    var x2, y2 := ApplyGroup(gs[1], x1), ApplyGroup(gs[1], y1);
    GroupSplit(gs[2], x2, y2);
  }

  lemma ClockSplit(c: Fields, x: string, y: string)
    requires y != [] && y[0] !in TokenLetters
    ensures ClockTokens(c, x + y) == ClockTokens(c, x) + ClockTokens(c, y)
    ensures ClockTokens(c, y) != [] && ClockTokens(c, y)[0] == y[0]
  {
    var gs := ClockGroups(c);
    ClockGroupsShape(c, 0);
    GroupSplit(gs[0], x, y);
    var x1, y1 := ApplyGroup(gs[0], x), ApplyGroup(gs[0], y);
    GroupSplit(gs[1], x1, y1);
    var x2, y2 := ApplyGroup(gs[1], x1), ApplyGroup(gs[1], y1);
    GroupSplit(gs[2], x2, y2);
    var x3, y3 := ApplyGroup(gs[2], x2), ApplyGroup(gs[2], y2);
    GroupSplit(gs[3], x3, y3);
  }

  lemma FractionMeridiemSplit(c: Fields, x: string, y: string)
    requires y != [] && y[0] !in TokenLetters
    ensures FractionMeridiemTokens(c, x + y) == FractionMeridiemTokens(c, x) + FractionMeridiemTokens(c, y)
    ensures FractionMeridiemTokens(c, y) != [] && FractionMeridiemTokens(c, y)[0] == y[0]
  {
    var gs := FractionMeridiemGroups(c);
    FractionMeridiemShape(c, 0);
    GroupSplit(gs[0], x, y);
    var x1, y1 := ApplyGroup(gs[0], x), ApplyGroup(gs[0], y);
    GroupSplit(gs[1], x1, y1);
    var x2, y2 := ApplyGroup(gs[1], x1), ApplyGroup(gs[1], y1);
    GroupSplit(gs[2], x2, y2);
  }

  lemma PassPrefix(p: Pass, a: string, y: string)
    requires p.letter in TokenLetters && a != [] && Inert(a)
    ensures Apply(p, a + y) == a + Apply(p, y)
  {
    ApplyPrefix(p, a, y, true);
  }

  lemma GroupPrefix(g: seq<Pass>, a: string, y: string)
    requires 1 <= |g| <= 4 && forall i :: 0 <= i < |g| ==> g[i].letter in TokenLetters
    requires a != [] && Inert(a)
    ensures ApplyGroup(g, a + y) == a + ApplyGroup(g, y)
  {
    PassPrefix(g[0], a, y);
    var y1 := Apply(g[0], y);
    if |g| >= 2 {
      PassPrefix(g[1], a, y1);
      var y2 := Apply(g[1], y1);
      if |g| >= 3 {
        PassPrefix(g[2], a, y2);
        if |g| == 4 {
          PassPrefix(g[3], a, Apply(g[2], y2));
        }
      }
    }
  }

  /** Inert text in front of a pattern comes through the token passes as it is,
      and the rest of the pattern is rendered as if it stood alone. */
  lemma RenderPrefix(c: Fields, timezoneOffset: int, utc: bool, a: string, y: string)
    requires a != [] && Inert(a)
    ensures RenderTokens(c, timezoneOffset, utc, a + y) == a + RenderTokens(c, timezoneOffset, utc, y)
  {
    var ds, cs, fs := DateGroups(c), ClockGroups(c), FractionMeridiemGroups(c);
    DateGroupsLetters(c);
    ClockGroupsShape(c, 0);
    FractionMeridiemShape(c, 0);
    var y1 := ApplyGroup(ds[0], y);
    var y2 := ApplyGroup(ds[1], y1);
    GroupPrefix(ds[0], a, y);
    GroupPrefix(ds[1], a, y1);
    GroupPrefix(ds[2], a, y2);
    var z := DateTokens(c, y);
    ClockPrefix(c, a, z);
    var w := ClockTokens(c, z);
    var f1 := ApplyGroup(fs[0], w);
    GroupPrefix(fs[0], a, w);
    GroupPrefix(fs[1], a, f1);
    GroupPrefix(fs[2], a, ApplyGroup(fs[1], f1));
    PassPrefix(Pass('K', 1, false, ZoneText(timezoneOffset, utc)), a, FractionMeridiemTokens(c, w));
  }

  lemma ClockPrefix(c: Fields, a: string, y: string)
    requires a != [] && Inert(a)
    ensures ClockTokens(c, a + y) == a + ClockTokens(c, y)
  {
    var gs := ClockGroups(c);
    ClockGroupsShape(c, 0);
    var y1 := ApplyGroup(gs[0], y);
    var y2 := ApplyGroup(gs[1], y1);
    GroupPrefix(gs[0], a, y);
    GroupPrefix(gs[1], a, y1);
    GroupPrefix(gs[2], a, y2);
    GroupPrefix(gs[3], a, ApplyGroup(gs[2], y2));
  }

  lemma GroupNoBackslash(g: seq<Pass>, s: string)
    requires 1 <= |g| <= 4 && forall i :: 0 <= i < |g| ==> '\\' !in g[i].rep
    requires '\\' !in s
    ensures '\\' !in ApplyGroup(g, s)
  {
    ApplyNoBackslash(g[0], s, true);
    var s1 := Apply(g[0], s);
    if |g| >= 2 {
      ApplyNoBackslash(g[1], s1, true);
      var s2 := Apply(g[1], s1);
      if |g| >= 3 {
        ApplyNoBackslash(g[2], s2, true);
        if |g| == 4 {
          ApplyNoBackslash(g[3], Apply(g[2], s2), true);
        }
      }
    }
  }

  /** The `K` text holds no sentinel and no backslash. */
  lemma ZonePlain(timezoneOffset: int, utc: bool)
    ensures Plain(ZoneText(timezoneOffset, utc))
  {
    if !utc {
      var tz := -timezoneOffset;
      var sign := if tz == 0 then "Z" else if tz > 0 then "+" else "-";
      var magnitude := if tz < 0 then -tz else tz;
      ZoneTextLocal(timezoneOffset, sign, magnitude);
      NumberInert(magnitude / 60, 2);
      NumberInert(magnitude % 60, 2);
      ZonePartsPlain(sign, Padded(magnitude / 60, 2), Padded(magnitude % 60, 2));
    }
  }

  lemma ZonePartsPlain(sign: string, hours: string, minutes: string)
    requires Plain(sign) && Plain(hours) && Plain(minutes)
    ensures Plain(sign + hours + ":" + minutes)
  {
  }

  lemma ReplacementsPlain(c: Fields, timezoneOffset: int, utc: bool)
    ensures var ds, cs, fs := DateGroups(c), ClockGroups(c), FractionMeridiemGroups(c);
      && (forall j, i :: 0 <= j < 3 && 0 <= i < |ds[j]| ==> '\\' !in ds[j][i].rep)
      && (forall j, i :: 0 <= j < 4 && 0 <= i < |cs[j]| ==> '\\' !in cs[j][i].rep)
      && (forall j, i :: 0 <= j < 3 && 0 <= i < |fs[j]| ==> '\\' !in fs[j][i].rep)
      && '\\' !in ZoneText(timezoneOffset, utc)
  {
    DateReplacementsPlain(c);
    ClockReplacementsPlain(c);
    FractionMeridiemReplacementsPlain(c);
    ZonePlain(timezoneOffset, utc);
  }

  lemma DateReplacementsPlain(c: Fields)
    ensures var ds := DateGroups(c);
      forall j, i :: 0 <= j < 3 && 0 <= i < |ds[j]| ==> '\\' !in ds[j][i].rep
  {
    YearTextInert(c.year);
    NumberInert(c.month + 1, 2);
    NumberInert(c.date, 2);
  }

  lemma ClockReplacementsPlain(c: Fields)
    ensures var cs := ClockGroups(c);
      forall j, i :: 0 <= j < 4 && 0 <= i < |cs[j]| ==> '\\' !in cs[j][i].rep
  {
    NumberInert(c.hours, 2);
    NumberInert(TwelveHour(c.hours), 2);
    NumberInert(c.minutes, 2);
    NumberInert(c.seconds, 2);
  }

  lemma FractionMeridiemReplacementsPlain(c: Fields)
    ensures var fs := FractionMeridiemGroups(c);
      forall j, i :: 0 <= j < 3 && 0 <= i < |fs[j]| ==> '\\' !in fs[j][i].rep
  {
    NumberInert(c.ms, 3);
    NumberInert(Round10(c.ms), 2);
    NumberInert(Round10(Round10(c.ms)), 2);
    LowerMeridiem(c.hours);
  }

  /** The token passes bring no backslash: every backslash of the output was in
      the pattern. */
  lemma RenderNoBackslash(c: Fields, timezoneOffset: int, utc: bool, s: string)
    requires '\\' !in s
    ensures '\\' !in RenderTokens(c, timezoneOffset, utc, s)
  {
    var ds, cs, fs := DateGroups(c), ClockGroups(c), FractionMeridiemGroups(c);
    ReplacementsPlain(c, timezoneOffset, utc);
    var s1 := ApplyGroup(ds[0], s);
    var s2 := ApplyGroup(ds[1], s1);
    GroupNoBackslash(ds[0], s);
    GroupNoBackslash(ds[1], s1);
    GroupNoBackslash(ds[2], s2);
    var z := ApplyGroup(ds[2], s2);
    var z1 := ApplyGroup(cs[0], z);
    var z2 := ApplyGroup(cs[1], z1);
    var z3 := ApplyGroup(cs[2], z2);
    GroupNoBackslash(cs[0], z);
    GroupNoBackslash(cs[1], z1);
    GroupNoBackslash(cs[2], z2);
    GroupNoBackslash(cs[3], z3);
    var w := ApplyGroup(cs[3], z3);
    var w1 := ApplyGroup(fs[0], w);
    var w2 := ApplyGroup(fs[1], w1);
    GroupNoBackslash(fs[0], w);
    GroupNoBackslash(fs[1], w1);
    GroupNoBackslash(fs[2], w2);
    ApplyNoBackslash(Pass('K', 1, false, ZoneText(timezoneOffset, utc)), ApplyGroup(fs[2], w2), true);
  }

  lemma ResolveNoBackslash(s: string, c: Fields)
    requires InRange(c) && '\\' !in s
    ensures '\\' !in ResolveNames(s, c)
  {
    NamesPlain(c);
    var day, m := c.day + 1, c.month + 1;
    var s1 := ReplaceChar(s, WeekdayNames()[0][0], WeekdayNames()[day]);
    var s2 := ReplaceChar(s1, WeekdayAbbrevs()[0][0], WeekdayAbbrevs()[day]);
    var s3 := ReplaceChar(s2, MonthNames()[0][0], MonthNames()[m]);
    ReplaceCharNoBackslash(s, WeekdayNames()[0][0], WeekdayNames()[day]);
    ReplaceCharNoBackslash(s1, WeekdayAbbrevs()[0][0], WeekdayAbbrevs()[day]);
    ReplaceCharNoBackslash(s2, MonthNames()[0][0], MonthNames()[m]);
    ReplaceCharNoBackslash(s3, MonthAbbrevs()[0][0], MonthAbbrevs()[m]);
  }

  lemma ResolveSplit(x: string, y: string, c: Fields)
    requires InRange(c)
    ensures ResolveNames(x + y, c) == ResolveNames(x, c) + ResolveNames(y, c)
  {
    var day, m := c.day + 1, c.month + 1;
    var x1, y1 := ReplaceChar(x, WeekdayNames()[0][0], WeekdayNames()[day]), ReplaceChar(y, WeekdayNames()[0][0], WeekdayNames()[day]);
    var x2, y2 := ReplaceChar(x1, WeekdayAbbrevs()[0][0], WeekdayAbbrevs()[day]), ReplaceChar(y1, WeekdayAbbrevs()[0][0], WeekdayAbbrevs()[day]);
    var x3, y3 := ReplaceChar(x2, MonthNames()[0][0], MonthNames()[m]), ReplaceChar(y2, MonthNames()[0][0], MonthNames()[m]);
    ReplaceCharAppend(x, y, WeekdayNames()[0][0], WeekdayNames()[day]);
    ReplaceCharAppend(x1, y1, WeekdayAbbrevs()[0][0], WeekdayAbbrevs()[day]);
    ReplaceCharAppend(x2, y2, MonthNames()[0][0], MonthNames()[m]);
    ReplaceCharAppend(x3, y3, MonthAbbrevs()[0][0], MonthAbbrevs()[m]);
  }

  /** A pattern without backslashes, followed by a part that starts with a
      character that is not a token letter, renders as the two parts rendered
      one after the other. */
  lemma FormatSplit(d: Instant, x: string, y: string, utc: bool)
    requires InRange(Pick(d, utc))
    requires '\\' !in x && y != [] && y[0] !in TokenLetters
    ensures Format(d, x + y, utc) == Format(d, x, utc) + Format(d, y, utc)
  {
    var c := Pick(d, utc);
    var rx, ry := RenderTokens(c, d.timezoneOffset, utc, x), RenderTokens(c, d.timezoneOffset, utc, y);
    RenderSplit(c, d.timezoneOffset, utc, x, y);
    ResolveSplit(rx, ry, c);
    RenderNoBackslash(c, d.timezoneOffset, utc, x);
    ResolveNoBackslash(rx, c);
    UnescapePrefix(ResolveNames(rx, c), ResolveNames(ry, c));
    UnescapePlain(ResolveNames(rx, c));
  }

  /** Inert text in front of a pattern is copied to the front of the result. */
  lemma FormatPrefix(d: Instant, a: string, y: string, utc: bool)
    requires InRange(Pick(d, utc)) && Inert(a)
    ensures Format(d, a + y, utc) == a + Format(d, y, utc)
  {
    if a == [] {
      assert a + y == y;
    } else {
      var c := Pick(d, utc);
      var ry := RenderTokens(c, d.timezoneOffset, utc, y);
      RenderPrefix(c, d.timezoneOffset, utc, a, y);
      ResolveSplit(a, ry, c);
      ResolveNamesAbsent(a, c);
      UnescapePrefix(a, ResolveNames(ry, c));
    }
  }

  lemma GroupEscapedPair(g: seq<Pass>, c: char, y: string)
    requires 1 <= |g| <= 4 && forall i :: 0 <= i < |g| ==> g[i].letter in TokenLetters
    requires c != '\\'
    ensures ApplyGroup(g, ['\\', c] + y) == ['\\', c] + ApplyGroup(g, y)
  {
    EscapedPairStep(g[0], c, y);
    var y1 := Apply(g[0], y);
    if |g| >= 2 {
      EscapedPairStep(g[1], c, y1);
      var y2 := Apply(g[1], y1);
      if |g| >= 3 {
        EscapedPairStep(g[2], c, y2);
        if |g| == 4 {
          EscapedPairStep(g[3], c, Apply(g[2], y2));
        }
      }
    }
  }

  lemma DateEscapedPair(c: Fields, x: char, y: string)
    requires x != '\\'
    ensures DateTokens(c, ['\\', x] + y) == ['\\', x] + DateTokens(c, y)
  {
    var gs := DateGroups(c);
    DateGroupsLetters(c);
    GroupEscapedPair(gs[0], x, y);
    var y1 := ApplyGroup(gs[0], y);
    GroupEscapedPair(gs[1], x, y1);
    GroupEscapedPair(gs[2], x, ApplyGroup(gs[1], y1));
  }

  lemma ClockEscapedPair(c: Fields, x: char, y: string)
    requires x != '\\'
    ensures ClockTokens(c, ['\\', x] + y) == ['\\', x] + ClockTokens(c, y)
  {
    var gs := ClockGroups(c);
    ClockGroupsShape(c, 0);
    GroupEscapedPair(gs[0], x, y);
    var y1 := ApplyGroup(gs[0], y);
    GroupEscapedPair(gs[1], x, y1);
    var y2 := ApplyGroup(gs[1], y1);
    GroupEscapedPair(gs[2], x, y2);
    GroupEscapedPair(gs[3], x, ApplyGroup(gs[2], y2));
  }

  lemma FractionMeridiemEscapedPair(c: Fields, x: char, y: string)
    requires x != '\\'
    ensures FractionMeridiemTokens(c, ['\\', x] + y) == ['\\', x] + FractionMeridiemTokens(c, y)
  {
    var gs := FractionMeridiemGroups(c);
    FractionMeridiemShape(c, 0);
    GroupEscapedPair(gs[0], x, y);
    var y1 := ApplyGroup(gs[0], y);
    GroupEscapedPair(gs[1], x, y1);
    GroupEscapedPair(gs[2], x, ApplyGroup(gs[1], y1));
  }

  /** Every token pass leaves a backslash and the character after it in place. */
  lemma RenderEscapedPair(c: Fields, timezoneOffset: int, utc: bool, x: char, y: string)
    requires x != '\\'
    ensures RenderTokens(c, timezoneOffset, utc, ['\\', x] + y)
         == ['\\', x] + RenderTokens(c, timezoneOffset, utc, y)
  {
    DateEscapedPair(c, x, y);
    var y1 := DateTokens(c, y);
    ClockEscapedPair(c, x, y1);
    var y2 := ClockTokens(c, y1);
    FractionMeridiemEscapedPair(c, x, y2);
    EscapedPairStep(Pass('K', 1, false, ZoneText(timezoneOffset, utc)), x, FractionMeridiemTokens(c, y2));
  }

  /** A backslash in the pattern, after backslash-free text, makes the character
      after it come out as it is, token letter or not; only the backslash is
      dropped, and the text after it renders as a pattern of its own. */
  lemma FormatEscapedChar(d: Instant, x: string, e: char, y: string, utc: bool)
    requires InRange(Pick(d, utc))
    requires '\\' !in x && e != '\\' && !IsLineTerminator(e) && !IsSentinel(e)
    ensures Format(d, x + (['\\', e] + y), utc) == Format(d, x, utc) + ([e] + Format(d, y, utc))
  {
    var c, o := Pick(d, utc), d.timezoneOffset;
    var rx, ry := RenderTokens(c, o, utc, x), RenderTokens(c, o, utc, y);
    var t := ['\\', e] + y;
    BackslashNotToken(t);
    RenderSplit(c, o, utc, x, t);
    RenderEscapedPair(c, o, utc, e, y);
    RenderNoBackslash(c, o, utc, x);
    EscapedFinish(c, rx, e, ry);
  }

  /** Kept apart from `FormatEscapedChar`, where this fact alone exhausts the
      resource limit. */
  lemma BackslashNotToken(t: string)
    requires t != [] && t[0] == '\\'
    ensures t[0] !in TokenLetters
  {
  }

  /** Name resolution and unescaping on rendered text with an escaped character
      after a backslash-free part. */
  lemma EscapedFinish(c: Fields, rx: string, e: char, ry: string)
    requires InRange(c) && '\\' !in rx && !IsLineTerminator(e) && !IsSentinel(e)
    ensures Unescape(ResolveNames(rx + (['\\', e] + ry), c))
         == Unescape(ResolveNames(rx, c)) + ([e] + Unescape(ResolveNames(ry, c)))
  {
    EscapedResolve(c, rx, e, ry);
    ResolveNoBackslash(rx, c);
    EscapedUnescape(ResolveNames(rx, c), e, ResolveNames(ry, c));
  }

  lemma EscapedResolve(c: Fields, rx: string, e: char, ry: string)
    requires InRange(c) && !IsSentinel(e)
    ensures ResolveNames(rx + (['\\', e] + ry), c) == ResolveNames(rx, c) + (['\\', e] + ResolveNames(ry, c))
  {
    ResolveSplit(rx, ['\\', e] + ry, c);
    ResolveSplit(['\\', e], ry, c);
    ResolveNamesAbsent(['\\', e], c);
  }

  lemma EscapedUnescape(a: string, e: char, b: string)
    requires '\\' !in a && !IsLineTerminator(e)
    ensures Unescape(a + (['\\', e] + b)) == Unescape(a) + ([e] + Unescape(b))
  {
    UnescapePrefix(a, ['\\', e] + b);
    UnescapePlain(a);
    var s := ['\\', e] + b;
    assert s[0] == '\\' && s[1] == e && s[2..] == b;
  }

  // ---------------------------------------------------------------------------
  // The time zone token.

  /** `K` renders the zone text. */
  lemma FormatZone(d: Instant, utc: bool)
    requires InRange(Pick(d, utc))
    ensures Format(d, "K", utc) == ZoneText(d.timezoneOffset, utc)
  {
    var c := Pick(d, utc);
    RenderZone(c, d.timezoneOffset, utc);
    ZonePlain(d.timezoneOffset, utc);
    FinishPlain(ZoneText(d.timezoneOffset, utc), c);
  }

  lemma RenderZone(c: Fields, timezoneOffset: int, utc: bool)
    ensures RenderTokens(c, timezoneOffset, utc, "K") == ZoneText(timezoneOffset, utc)
  {
    ZoneOnly(c);
    ZoneMatch(ZoneText(timezoneOffset, utc));
  }

  /** Only the `K` pass reacts to a lone `K`. */
  lemma ZoneOnly(c: Fields)
    ensures FractionMeridiemTokens(c, ClockTokens(c, DateTokens(c, "K"))) == "K"
  {
    assert Lacks("K", {'y', 'M', 'd'}) && Lacks("K", {'H', 'h', 'm', 's'}) && Lacks("K", {'f', 'T', 't'});
    EarlyInert(c, "K");
  }

  /** Text without date, clock, fraction or designator letters passes the
      first three sections unchanged. */
  lemma EarlyInert(c: Fields, s: string)
    requires Lacks(s, {'y', 'M', 'd'}) && Lacks(s, {'H', 'h', 'm', 's'}) && Lacks(s, {'f', 'T', 't'})
    ensures FractionMeridiemTokens(c, ClockTokens(c, DateTokens(c, s))) == s
  {
    DateInert(c, s);
    ClockInert(c, s);
    FractionMeridiemInert(c, s);
  }

  lemma ZoneMatch(z: string)
    ensures Apply(Pass('K', 1, false, z), "K") == z
  {
    assert "K" == [] + "K" + [];
    MatchOnce(Pass('K', 1, false, z), [], "K", [], true);
    assert [] + z + ApplyFrom(Pass('K', 1, false, z), [], false) == z;
  }

  lemma PaddedTwo(n: nat)
    requires n < 100
    ensures |Padded(n, 2)| == 2
  {
    PaddedShape(n, 2);
    if n >= 10 {
      assert NatToString(n) == NatToString(n / 10) + [DigitChar(n % 10)];
    }
  }

  /** In UTC mode the zone is "Z". Otherwise the offset can be read back from
      the text: a sign ("+" east of UTC, "-" west, "Z" at zero), the hours, a
      colon, and two digits of minutes below 60. A zero local offset thus gives
      "Z00:00". */
  lemma ZoneTextReadBack(timezoneOffset: int, utc: bool)
    ensures utc ==> ZoneText(timezoneOffset, utc) == "Z"
    ensures !utc ==> ZoneFields(ZoneText(timezoneOffset, utc),
      if timezoneOffset == 0 then 'Z' else if timezoneOffset < 0 then '+' else '-',
      if timezoneOffset < 0 then -timezoneOffset else timezoneOffset)
  {
    if !utc {
      var tz := -timezoneOffset;
      var magnitude := if tz < 0 then -tz else tz;
      var h, m := Padded(magnitude / 60, 2), Padded(magnitude % 60, 2);
      PaddedValue(magnitude / 60, 2);
      PaddedValue(magnitude % 60, 2);
      PaddedTwo(magnitude % 60);
      var sign := if tz == 0 then "Z" else if tz > 0 then "+" else "-";
      assert ZoneText(timezoneOffset, utc) == sign + h + ":" + m;
      ZoneParts(sign, h, m, magnitude);
    }
  }

  /** `z` is a sign character, the hours digits, a colon and two digits of
      minutes, which together make `magnitude` minutes. */
  predicate ZoneFields(z: string, sign: char, magnitude: nat) {
    && |z| >= 6
    && z[0] == sign
    && z[|z| - 3] == ':'
    && AllDigits(z[1..|z| - 3]) && AllDigits(z[|z| - 2..])
    && DigitsValue(z[|z| - 2..]) < 60
    && DigitsValue(z[1..|z| - 3]) * 60 + DigitsValue(z[|z| - 2..]) == magnitude
  }

  lemma ZoneParts(sign: string, h: string, m: string, magnitude: nat)
    requires |sign| == 1 && |h| >= 2 && |m| == 2
    requires AllDigits(h) && AllDigits(m)
    requires DigitsValue(h) == magnitude / 60 && DigitsValue(m) == magnitude % 60
    ensures ZoneFields(sign + h + ":" + m, sign[0], magnitude)
  {
    var z := sign + h + ":" + m;
    assert z[1..|z| - 3] == h;
    assert z[|z| - 2..] == m;
  }

  lemma ZoneZeroLocal()
    ensures ZoneText(0, false) == "Z00:00"
  {
    assert Padded(0, 2) == "00" by {
      assert NatToString(0) == "0";
      assert Zeros(1) == "0";
    }
  }

  // ---------------------------------------------------------------------------
  // The patterns the elapsed-time phrases use, and a date pattern.

  /** `mmTT`: minutes padded to two digits, then the designator. */
  lemma FormatMinutesDesignator(d: Instant, utc: bool)
    requires InRange(Pick(d, utc))
    ensures Format(d, "mmTT", utc) == Padded(Pick(d, utc).minutes, 2) + Meridiem(Pick(d, utc).hours)
  {
    var c := Pick(d, utc);
    RenderMinutesDesignator(c, d.timezoneOffset, utc);
    MinutesDesignatorPlain(c);
    FinishPlain(Padded(c.minutes, 2) + Meridiem(c.hours), c);
  }

  lemma MinutesDesignatorPlain(c: Fields)
    ensures Plain(Padded(c.minutes, 2) + Meridiem(c.hours))
  {
    NumberInert(c.minutes, 2);
    DesignatorPlain(Meridiem(c.hours), Meridiem(c.hours));
  }

  lemma RenderMinutesDesignator(c: Fields, timezoneOffset: int, utc: bool)
    ensures RenderTokens(c, timezoneOffset, utc, "mmTT") == Padded(c.minutes, 2) + Meridiem(c.hours)
  {
    var mm, text := Padded(c.minutes, 2), Meridiem(c.hours);
    NumberInert(c.minutes, 2);
    DesignatorPlain(text, text);
    var s := mm + "TT";
    DateInert(c, "mmTT");
    MinutesTokens(c, mm);
    DesignatorTokens(c, mm, text);
    ApplyFromAbsent(Pass('K', 1, false, ZoneText(timezoneOffset, utc)), mm + text, true);
  }

  lemma MinutesTokens(c: Fields, mm: string)
    requires mm == Padded(c.minutes, 2) && Inert(mm)
    ensures ClockTokens(c, "mmTT") == mm + "TT"
  {
    assert "mmTT" == "mm" + "TT" && AllOf("mm", 'm') && "Hhms"[2] == 'm';
    assert Lacks("TT", {'H', 'h', 'm', 's'});
    ClockTail(c, "mm", "TT");
    ClockRun(c, 2, "mm", mm);
  }

  /** A pass leaves a tail without its letter as it is, after the rest. */
  lemma PassTail(p: Pass, x: string, b: string)
    requires p.letter !in b
    ensures Apply(p, x + b) == Apply(p, x) + b
  {
    ApplySplit(p, x, b, true);
    ApplyFromAbsent(p, b, false);
  }

  lemma GroupTail(g: seq<Pass>, x: string, b: string)
    requires 1 <= |g| <= 4 && forall i :: 0 <= i < |g| ==> g[i].letter !in b
    ensures ApplyGroup(g, x + b) == ApplyGroup(g, x) + b
  {
    PassTail(g[0], x, b);
    var x1 := Apply(g[0], x);
    if |g| >= 2 {
      PassTail(g[1], x1, b);
      var x2 := Apply(g[1], x1);
      if |g| >= 3 {
        PassTail(g[2], x2, b);
        if |g| == 4 {
          PassTail(g[3], Apply(g[2], x2), b);
        }
      }
    }
  }

  /** Text without clock letters after a pattern comes through the clock tokens
      as it is. */
  lemma ClockTail(c: Fields, x: string, b: string)
    requires Lacks(b, {'H', 'h', 'm', 's'})
    ensures ClockTokens(c, x + b) == ClockTokens(c, x) + b
  {
    var gs: seq<seq<Pass>> := ClockGroups(c);
    assert forall j, i :: 0 <= j < 4 && 0 <= i < 2 ==> gs[j][i].letter == "Hhms"[j];
    assert 'H' !in b && 'h' !in b && 'm' !in b && 's' !in b;
    GroupTail(gs[0], x, b);
    var x1 := ApplyGroup(gs[0], x);
    GroupTail(gs[1], x1, b);
    var x2 := ApplyGroup(gs[1], x1);
    GroupTail(gs[2], x2, b);
    GroupTail(gs[3], ApplyGroup(gs[2], x2), b);
  }

  lemma DesignatorTokens(c: Fields, mm: string, text: string)
    requires Inert(mm) && text == Meridiem(c.hours) && Plain(text)
    ensures FractionMeridiemTokens(c, mm + "TT") == mm + text
  {
    var s := mm + "TT";
    var fs: seq<seq<Pass>> := FractionMeridiemGroups(c);
    FractionMeridiemShape(c, 1);
    GroupAbsent(fs[0], s);
    assert s == mm + "TT" + [];
    MatchOnce(fs[1][0], mm, "TT", [], true);
    assert mm + text + ApplyFrom(fs[1][0], [], false) == mm + text;
    ApplyFromAbsent(fs[1][1], mm + text, true);
    GroupAbsent(fs[2], mm + text);
  }
}
