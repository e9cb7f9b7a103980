# elapsed.js: the date formatter and the elapsed-time phrases

elapsed.js rewrites the text of page elements that carry a Unix timestamp. The text becomes a phrase saying how long ago the timestamp was: "just now", "a few minutes ago", "12 minutes ago", "today, at 3:07PM", "yesterday, at 9:41AM", or a full date such as "3:07PM, 14 March 2014".

This project models the two parts of the library that hold logic, and proves properties of them.

- **`Elapsed.formatDate(date, format, utc)`** renders a .NET-style custom date and time pattern.
  - The pattern passes through an ordered list of regular-expression replacements, one per token run, in this order: `y`, `M`, `d`, `H`, `h`, `m`, `s`, `f`, `T`, `t`, `K`. Within each letter the longest run goes first.
  - Each replacement has the shape `format.replace(/(^|[^\\])X{n}/g, "$1" + rep)`. It becomes `Passes.ApplyFrom`, a left-to-right scan with these rules:
    - a run can match at the very start of the string;
    - a run can also match after one kept character that is not a backslash;
    - a character that a match consumed cannot be the kept character of the next match;
    - `X{n,}` takes the whole run.
  - Month and weekday names enter as the sentinel characters `\x00`–`\x03`. The sentinels become names only after every token pass.
  - A last pass drops each escaping backslash.
  - `DateFormat.Format` is the specification. `DateFormat.FormatDate` is the method that threads the working string through the passes as the source does. `Digits.Pad` is the `while` loop of `ii`.
- **The phrase chain inside `Elapsed.action`** is lifted out as the pure classifier `Humanize.Classify`.
  - `Humanize.Message` is the text the chain writes into the element.
  - `Humanize.Ago` is `parseInt(now.getTime()/1000) - pastTime`, with truncation toward zero.

A host `Date` is modelled as its calendar fields (the datatype `DateFormat.Fields`, standing for the getter calls at src/elapsed.js:137-195). There is one field set for local time and one for UTC, plus `getTimezoneOffset()` (the datatype `DateFormat.Instant`). `InRange` states the ranges the host getters return, and the formatter's properties assume it.

Where the code and the library's own description of it differ, the model follows the code:

- `yy` is `y.toString().substr(2, 2)`. It is not "the low two digits, zero padded". The two agree exactly on four-digit years (`TokenValues.ShortYearFourDigits`). A year in -99..999 gives a shorter or empty text. Any other year gives the third and fourth characters of its text: "01" for the year -2014. The year is never padded.
- In local mode a zero offset renders `K` as "Z00:00", not "Z" (`FormatProperties.ZoneZeroLocal`). Only `utc` gives a bare "Z".
- The four name tables are constants (`DateFormat.MonthNames` and the others). They cannot be supplied by the caller.
- The third parameter of `formatDate` is documented as a UTC offset. The code uses it only as a flag that chooses the UTC getters. `action` leaves it out, so its phrases use local time.
- The 12-hour value keeps hour 12 as 12. Together with the designator it reads back every hour of the day (`TokenValues.TwelveHourReadBack`): 0 is "12AM" and 12 is "12PM".

## Model

| member | source | states |
|---|---|---|
| Digits.NatToString | src/elapsed.js:131 | `i + ""` for a non-negative integer is a non-empty digit string with no leading zero, and has one digit exactly when i < 10 |
| Digits.NatToStringValue | src/elapsed.js:131 | the decimal text reads back as the number it came from |
| Digits.NatToStringInjective | src/elapsed.js:131 | different numbers have different decimal texts |
| Digits.IntToString | src/elapsed.js:137-140 | the year's text reads back as the year: all digits with value n when n >= 0, otherwise "-" followed by at least one digit, with value -n |
| Digits.Pad | src/elapsed.js:130-135 | the `while` loop of `ii` returns the padded text `Padded(i, len)`, where len 0 means width 2 (`len \|\| 2`) |
| Digits.PaddedShape | src/elapsed.js:130-135 | `ii(i, len)` has length max(width, digit count), ends with the digits of i, and has only '0' before them, so it never truncates |
| Digits.PaddedValue | src/elapsed.js:130-135 | `ii(i, len)` is all digits and reads back as i |
| Digits.PadWidth | src/elapsed.js:132 | `len \|\| 2`: the width `ii` pads to is len, or 2 when len is absent or 0 |
| Digits.Padded | src/elapsed.js:130-135 | `ii(i, len)` as a value: the decimal text of i with '0' in front up to the width; PaddedShape and PaddedValue state its meaning, and Pad is proved to compute it |
| Passes.ApplyFrom | src/elapsed.js:138-193 | one global replacement `(^\|[^\\])X{n}` (or `X{n,}`) as a left-to-right scan: a run matches at the start or behind one kept non-backslash character, and the scan resumes after the match; its behaviour is stated by the lemmas below |
| Passes.Apply | src/elapsed.js:138-193 | one replacement over the whole working string, where `^` can match at index 0 |
| Passes.ApplyAll | src/elapsed.js:138-193 | the replacements in the order the source runs them, first element first |
| Passes.AfterKept | src/elapsed.js:138-193 | after a copied character other than a backslash, the rest is scanned as if it stood at the start |
| Passes.EscapedPairStep | src/elapsed.js:138-193 | a backslash and the character after it pass through a token pass unchanged, and the rest is scanned as if it stood at the start |
| Passes.ReplaceChar | src/elapsed.js:196-200 | `replace(new RegExp(c, "g"), name)` for a one-character sentinel: every occurrence becomes the name |
| Passes.Unescape | src/elapsed.js:202 | `replace(/\\(.)/g, "$1")`: a backslash before a character other than a line terminator is dropped and the pair is consumed whole |
| Passes.Run | src/elapsed.js:138 | the length of a letter's run at the front of the text: every character in it is the letter and the next one is not |
| Passes.Taken | src/elapsed.js:138 | the number of letters one match consumes: the body takes exactly n for `X{n}` and the whole run for `X{n,}`; the ensures gives only the bounds, at least n and at most the run |
| Passes.MatchOnce | src/elapsed.js:138-193 | a run of the token letter that is preceded by letter-free, backslash-free text and properly ended is replaced once, and the scan goes on after it |
| Passes.SkipShort | src/elapsed.js:138-193 | a run shorter than the pass's length, in text without other runs of that letter, is left alone |
| Passes.ApplyFromAbsent | src/elapsed.js:138-193 | a pass leaves text without its letter unchanged |
| Passes.ApplyFromEscaped | src/elapsed.js:138-193 | a pass leaves text where every character is escaped by a backslash unchanged |
| Passes.ApplySplit | src/elapsed.js:138-193 | a pass works separately on two pieces when the second does not start with its letter |
| Passes.ApplyPrefix | src/elapsed.js:138-193 | letter-free and backslash-free text in front is copied, and the rest is matched as if it stood at the start |
| Passes.ApplyNoBackslash | src/elapsed.js:138-193 | a pass whose replacement has no backslash adds none |
| Passes.ApplyAllAppend | src/elapsed.js:138-193 | running two lists of passes in turn is running their concatenation |
| Passes.ApplyAllAbsent | src/elapsed.js:138-193 | passes for letters absent from the text leave it unchanged |
| Passes.ApplyAllEscaped | src/elapsed.js:138-193 | a fully escaped text survives every token pass |
| Passes.ReplaceCharRemoves | src/elapsed.js:196-200 | after a sentinel's global replacement no sentinel of that kind remains, when the name does not contain it |
| Passes.ReplaceCharAbsent | src/elapsed.js:196-200 | the sentinel replacement leaves text without that sentinel unchanged |
| Passes.ReplaceCharAppend | src/elapsed.js:196-200 | the sentinel replacement works piece by piece |
| Passes.UnescapeEscape | src/elapsed.js:202 | `replace(/\\(.)/g, "$1")` undoes escaping every character, for text without line terminators |
| Passes.UnescapePlain | src/elapsed.js:202 | the unescape pass leaves text without a backslash unchanged |
| Passes.UnescapePrefix | src/elapsed.js:202 | backslash-free text in front passes through the unescape pass unchanged |
| DateFormat.Format | src/elapsed.js:124-205 | the specification of `formatDate`: all token passes, then the names, then the unescape; the FormatProperties lemmas state what it renders |
| DateFormat.Substr | src/elapsed.js:139 | `substr(start, length)` for non-negative arguments, clipped to the string |
| DateFormat.InRange | src/elapsed.js:137-195 | the ranges the host getters return in: month 0-11, date 1-31, weekday 0-6, hours 0-23, minutes and seconds 0-59, milliseconds 0-999; the formatter's lemmas assume it of the chosen field set |
| DateFormat.Pick | src/elapsed.js:137-195 | `utc ? date.getUTC…() : date.get…()`: the UTC field set when the flag is set, the local one otherwise |
| DateFormat.MonthNames | src/elapsed.js:125 | the `MMMM` table: the sentinel "\x00" at slot 0, then "January" to "December" at 1-12; NamesPlain shows the names hold no sentinel and no backslash, and FormatMonth shows their letters are never substituted, because the names go in after every token pass |
| DateFormat.MonthAbbrevs | src/elapsed.js:126 | the `MMM` table: the sentinel "\x01" at slot 0, then "Jan" to "Dec" at 1-12 |
| DateFormat.WeekdayNames | src/elapsed.js:127 | the `dddd` table: the sentinel "\x02" at slot 0, then "Sunday" to "Saturday" at 1-7 |
| DateFormat.WeekdayAbbrevs | src/elapsed.js:128 | the `ddd` table: the sentinel "\x03" at slot 0, then "Sun" to "Sat" at 1-7 |
| DateFormat.YearPasses | src/elapsed.js:137-140 | the `yyyy+`, `yy` and `y` passes, with the year's text, its `substr(2, 2)` and the year's text again; the FormatYear lemmas state what they render |
| DateFormat.MonthPasses | src/elapsed.js:142-146 | the `MMMM+`, `MMM`, `MM` and `M` passes, with the two month sentinels, `ii(M)` and M, where M is the month plus 1; FormatMonth states what they render |
| DateFormat.DayPasses | src/elapsed.js:148-152 | the `dddd+`, `ddd`, `dd` and `d` passes, with the two weekday sentinels, `ii(d)` and d; FormatDay states what they render |
| DateFormat.NumberPasses | src/elapsed.js:154-168 | the `XX+` pass with `ii(n)` followed by the `X` pass with n, as for `H`, `h`, `m` and `s`; FormatClock states what they render |
| DateFormat.FractionPasses | src/elapsed.js:170-175 | the `fff+` pass with `ii(f, 3)`, the `ff` pass with `ii` of the once-rounded tenths and the `f` pass with the twice-rounded value; FormatFraction states what they render |
| DateFormat.MeridiemPasses | src/elapsed.js:177-183 | the `XX+` pass with the whole designator and the `X` pass with its first character, `charAt(0)`; FormatDesignator and FormatDesignatorLower state what they render |
| DateFormat.TokenPasses | src/elapsed.js:137-193 | every token pass in the order the source runs them: y, M, d, H, h, m, s, f, T, t, then K with `ZoneText`; RenderTokensIsApplyAll ties the rendering to their fold |
| DateFormat.Lower | src/elapsed.js:181 | `toLowerCase` on ASCII text keeps the length; LowerMeridiem shows it turns "AM" and "PM" into "am" and "pm" |
| DateFormat.TwelveHour | src/elapsed.js:158 | `H > 12 ? H - 12 : H == 0 ? 12 : H`; its range and read-back are TwelveHourReadBack |
| DateFormat.Meridiem | src/elapsed.js:177 | "AM" before hour 12, "PM" from it on |
| DateFormat.Round10 | src/elapsed.js:172-174 | `Math.round(x / 10)` for x >= 0 in integers; Round10Nearest proves it rounds to nearest |
| DateFormat.ZoneText | src/elapsed.js:185-192 | the `K` text: "Z" in UTC mode, else the sign and the padded hours and minutes of the magnitude; ZoneTextReadBack states its meaning |
| DateFormat.ResolveNames | src/elapsed.js:195-200 | the four sentinel replacements, weekday tables first, with the names at getDay()+1 and month+1 |
| DateFormat.FormatDate | src/elapsed.js:124-205 | the statement-by-statement method returns `Format(date, format, utc)` |
| DateFormat.ReplaceDateTokens | src/elapsed.js:137-152 | the eleven year, month and day passes in source order give `DateTokens` |
| DateFormat.ReplaceClockTokens | src/elapsed.js:154-168 | the hour, 12-hour, minute and second passes give `ClockTokens` |
| DateFormat.ReplaceFractionMeridiemTokens | src/elapsed.js:170-183 | the fraction cascade (with `f` overwritten twice) and the designator passes give `FractionMeridiemTokens` |
| DateFormat.ZoneToken | src/elapsed.js:185-192 | the `K` text built by `+=` equals `ZoneText` |
| DateFormat.ReplaceNameSentinels | src/elapsed.js:195-200 | the four sentinel replacements, weekday tables first, give `ResolveNames` |
| DateFormat.RenderTokensIsApplyAll | src/elapsed.js:138-193 | the grouped rendering is the fold of all token passes in source order |
| FormatProperties.FormatWithoutTokens | src/elapsed.js:138-202 | a pattern without token letters and sentinels comes out only unescaped |
| FormatProperties.FormatInert | src/elapsed.js:138-202 | a pattern without token letters, sentinels and backslashes comes out unchanged |
| FormatProperties.FormatEscaped | src/elapsed.js:138-202 | a pattern where every character is escaped comes out as the plain text, so an escaped token letter renders as itself |
| FormatProperties.FormatEscapedChar | src/elapsed.js:138-202 | a backslash after backslash-free text makes the next character (token letter or not) come out as itself, only the backslash is dropped, and the text after it renders as a pattern of its own: `\y yyyy` gives "y " and the year |
| FormatProperties.FormatSplit | src/elapsed.js:138-202 | a pattern renders as its two parts rendered one after the other, when the front part holds no backslash and the back part starts with a character that is not a token letter |
| FormatProperties.FormatPrefix | src/elapsed.js:138-202 | inert text in front of a pattern is copied unchanged |
| FormatProperties.FormatYearFull | src/elapsed.js:137-138 | `yyyy` and longer runs render the full year text |
| FormatProperties.FormatYearShort | src/elapsed.js:139 | `yy` renders `substr(2, 2)` of the year text |
| FormatProperties.FormatYearSingle | src/elapsed.js:140 | a lone `y` renders the full year, not the short one |
| FormatProperties.FormatYearThree | src/elapsed.js:137-140 | `yyy` renders the short year followed by the full year |
| FormatProperties.FormatMonth | src/elapsed.js:142-146 | `MMMM+` renders the month's name, `MMM` its abbreviation, `MM` the padded month number 1-12 and `M` the plain number, with names resolved after all passes |
| FormatProperties.FormatDay | src/elapsed.js:148-152 | `dddd+` renders the weekday name at getDay()+1, `ddd` its abbreviation, `dd` the padded day of the month and `d` the plain one |
| FormatProperties.ResolveSentinels | src/elapsed.js:195-200 | each lone sentinel resolves to its table's entry for the current month or weekday |
| FormatProperties.FormatClock | src/elapsed.js:154-168 | for `H`, `h`, `m` and `s`, a run of two or more renders the padded value and a single letter renders the plain value |
| FormatProperties.FormatFraction | src/elapsed.js:170-175 | `fff+` renders the padded milliseconds, `ff` the padded once-rounded tenths, and `f` the twice-rounded value |
| FormatProperties.FormatDesignator | src/elapsed.js:177-179 | `TT+` renders "AM" before noon and "PM" from noon on, and `T` renders its first letter |
| FormatProperties.FormatDesignatorLower | src/elapsed.js:181-183 | `tt+` and `t` render the lower-case forms |
| FormatProperties.FormatZone | src/elapsed.js:185-193 | `K` renders `ZoneText` of the instant's offset |
| FormatProperties.ZoneTextReadBack | src/elapsed.js:185-192 | in UTC mode `K` is "Z"; otherwise it is a sign (Z for 0, + when the offset is negative, - otherwise), then hours digits, ":", and two minute digits below 60, which read back as the offset's magnitude |
| FormatProperties.ZoneZeroLocal | src/elapsed.js:186-191 | a zero offset in local mode renders "Z00:00" |
| FormatProperties.FormatMinutesDesignator | src/elapsed.js:163-178 | `mmTT` renders the padded minutes followed by the designator |
| TokenValues.TwelveHourReadBack | src/elapsed.js:158 | for hours 0-23 the 12-hour value is in 1..12, the designator is "PM" exactly from hour 12 on, and together they give back the hour |
| TokenValues.TwelveHourInjective | src/elapsed.js:158 | two hours with the same 12-hour value and designator are equal |
| TokenValues.Round10Nearest | src/elapsed.js:172-174 | the integer form of `Math.round(x / 10)` is the nearest integer to x/10, with halves rounding up, so it is the truncated tenth or one more |
| TokenValues.FractionOf456 | src/elapsed.js:170-175 | 456 ms renders "456", "46" and "5" |
| TokenValues.FractionOf995 | src/elapsed.js:173 | 995 ms renders "100" for `ff`, which is not cut to two digits |
| TokenValues.ShortYearFourDigits | src/elapsed.js:139 | for a four-digit year `substr(2, 2)` equals the year modulo 100, padded to two digits |
| TokenValues.ThreeLetterYear2014 | src/elapsed.js:138-140 | `yyy` in 2014 renders "142014" |
| Humanize.ClockPattern | src/elapsed.js:102-103 | "h:mmTT" renders the 12-hour value, ":", the padded minutes and the designator |
| Humanize.DatePattern | src/elapsed.js:104 | "h:mmTT, d MMMM yyyy" renders the clock text, ", ", the day of the month, the month's name and the year |
| Humanize.ClockTextShape | src/elapsed.js:102-103 | the clock text splits into the hour digits, the two minute digits and the designator |
| Humanize.ClockTextInjective | src/elapsed.js:102-103 | two instants with the same clock text have the same hour and minute |
| Humanize.TruncDivBounds | src/elapsed.js:88 | `parseInt(n / k)` is the multiple of k closest to zero that does not pass n |
| Humanize.TruncDiv | src/elapsed.js:88 | `parseInt(n / k)` for k > 0: the quotient truncated toward zero; TruncDivBounds states its meaning for both signs |
| Humanize.Ago | src/elapsed.js:84-90 | `parseInt(now.getTime() / 1000) - pastTime`, the current second truncated toward zero minus the timestamp |
| Humanize.Classify | src/elapsed.js:99-104 | the threshold chain, first test that holds wins, with the minute count `parseInt(ago / 60)` |
| Humanize.Message | src/elapsed.js:99-104 | the text written into the element for each phrase, formatting the past instant in local time |
| Humanize.ClassifyIntervals | src/elapsed.js:99-104 | each phrase is chosen on exactly one interval of `ago` (negative values give "just now"), and the minute count is in 2..59 and is the number of whole minutes |
| Humanize.ClassifyMonotone | src/elapsed.js:99-104 | a later `ago` never gives an earlier phrase or a smaller minute count |
| Humanize.ClassifyBoundaries | src/elapsed.js:99-104 | the phrase on either side of each threshold: 59/60, 119/120, 3569/3570, 86399/86400, 172799/172800 |
| Humanize.MessageText | src/elapsed.js:99-104 | the text written into the element for each interval, with the formatter's output spelled out in the instant's local fields |

## Left out

- The DOM is left out: `getElementsByClassName`, `getAttribute`, the `parseInt` of the attribute, the `innerHTML` write, and the per-element `try`/`catch`. The model starts from the integer timestamp.
- The `ActionToggle` re-entrancy lock, `debugMsg` console logging, `init`, `routine` and `setInterval` are left out. They are timers and I/O around the core.
- The host `Date` is left out: the epoch-to-calendar conversion and the time zone database. Its getters are inputs, and `InRange` is assumed of them rather than proved. Invalid dates (`NaN` fields) are not modelled.
- `now` is a parameter of `Humanize.Ago`, not a clock read.
- No general regular-expression engine is modelled, only the fixed pass shape the source uses.
- A replacement string such as `"$1" + "2014"` is taken to mean group 1 followed by "2014". This is how engines read `$12` when there is no twelfth group.
- Numbers too large for JavaScript to print in plain decimal are out of scope, as are fractional timestamps. The host getters never return such values.
- Humanize.ClassifyIntervals: the minute count is `parseInt(ago / 60)`. It is modelled with truncation toward zero, which equals the floor here because `ago` is at least 120 on that branch.
- FormatProperties.FormatWithoutTokens: a pattern that itself contains a sentinel character is not covered. The source gives no promise for it either.
