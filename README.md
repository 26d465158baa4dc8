# time_cli core, modelled in Dafny

`time_cli` is a small command-line program with two commands. `time` prints
the local time; with `--statistics` it prints, instead of the time, the day of
the year and the year's length, the ISO week, the leap flag, the Unix
timestamp and the day and year progress. `history` fetches the "On This Day" events feed of the
encyclopedia's REST API, in a language chosen by a two-letter code, and prints
the events in reverse of the order in which they were received.

This project models the pure logic between the command-line and HTTP glue in
`src/main.rs`. It proves what that logic promises:

- `lang_code.dfy`, module `LangCode`: the `--language` validator
  `parse_lang_code`. Its length test counts UTF-8 bytes, as Rust's `str::len`
  does, and the model writes that out. The model proves that this is the same
  as "two characters, both ASCII letters", that the value is lowercased, that
  validation is idempotent and ignores case, and that the error message quotes
  the input.
- `calendar.dfy`, module `Calendar`: the proleptic Gregorian calendar (the one
  ISO 8601 uses), in place of the date library the program calls. It gives
  month lengths, the ordinal day, the inverse of the ordinal, and the
  program's leap-year test "31 December is day 366". That test is proved equal
  to the Gregorian rule for every year.
- `time_stats.dfy`, module `TimeStatistics`: the integer fields of
  `compute_time_statistics`. These are the leap flag, the year's length, the
  ordinal day and the seconds since midnight. The two floating-point
  percentages are kept as exact fractions.
- `decimal.dfy`, module `Decimal`: unpadded decimal notation of a natural
  number, as `{}` formats the month and the day in the request URL. Printing
  and reading back are proved inverse in both directions.
- `history.dfy`, module `History`: the `Event` and `OnThisDayResponse` shapes
  (src/main.rs:74-83; the year is a signed 32-bit integer), the request URL, and a parser that reads it back (so the URL is proved to name
  its language, month and day). It also holds the reversed display order,
  proved to be a reversal with the same elements, and the command as a
  function of the HTTP exchange, with one context message per stage that can
  fail.

Inputs the program takes from the outside world are parameters of the model:
the current local date and time (`LocalDateTime` for the statistics; its
`Date` for the `history` command, whose URL names today's month and day), and
the HTTP exchange
(`fetch: string -> HttpReply`, whose result already holds the decoded JSON
body or its absence).

Two points where the code decides what is promised:

- The year progress divides the ordinal day by the year's length, so it is
  exactly 100% on 31 December (`TimeStatistics.YearProgressRange`). The field
  comment `// 0–100` at src/main.rs:199 allows that value.
- The `history` command has no event categories, no month/day overrides, no
  response cache and no override of the API host: it always asks for
  `events`, for today, at `https://{lang}.wikipedia.org` (src/main.rs:118-145).
  The `-m`/`-d` date validation that tests/cli.rs:22-27 expects is not in
  src/main.rs either.

## Model

| member | source | states |
|---|---|---|
| `LangCode.ParseLangCode` | src/main.rs:24-32 | a rejected string is contained in the error message |
| `LangCode.AsciiLower` | src/main.rs:26 | folds exactly 'A'..'Z', each to its own lowercase letter ('A' to 'a', …, 'Z' to 'z'); a character is an ASCII letter iff its folded form is a lowercase ASCII letter |
| `LangCode.Utf8Width` | src/main.rs:25 | a character takes 1 to 4 bytes in UTF-8, and 1 exactly when it is ASCII |
| `LangCode.AsciiUtf8Length` | src/main.rs:25 | a string of ASCII letters has as many UTF-8 bytes as characters |
| `LangCode.AcceptsExactlyTwoAsciiLetters` | src/main.rs:25-31 | the validator succeeds iff the input has two characters and both are ASCII letters; otherwise it fails |
| `LangCode.AcceptedValueIsLowercaseForm` | src/main.rs:25-26 | on success the value is the ASCII-lowercase form of the input: two lowercase ASCII letters |
| `LangCode.ParseIsIdempotent` | src/main.rs:24-27 | validating an accepted value again returns it unchanged |
| `LangCode.ParseIgnoresCase` | src/main.rs:25-26 | a string and its lowercase form are accepted or rejected together, and give the same value |
| `LangCode.RejectionQuotesInput` | src/main.rs:28-30 | on failure the message is the fixed text with the input quoted right after its opening quote |
| `LangCode.AcceptedExamples` | src/main.rs:281-284 | "de" gives "de" and "EN" gives "en" |
| `LangCode.DefaultLanguageAccepted` | src/main.rs:58-65 | the option's default "en" passes the validator unchanged |
| `LangCode.ToAsciiLowercase` | src/main.rs:26 | the result has the input's length and no uppercase ASCII letter; each position is an ASCII letter iff the input's is; each uppercase letter becomes its own lowercase letter; lowercase letters and non-letters are unchanged |
| `LangCode.Utf8Length` | src/main.rs:25 | a string takes between 1 and 4 bytes per character; `AsciiUtf8Length` gives exactly 1 per character for ASCII letters |
| `LangCode.InvalidCodeMessage` | src/main.rs:28-30 | the message starts with the input in quotes, so the input occurs in it at index 1 |
| `LangCode.RejectedExamples` | src/main.rs:286-290 | "eng" and "1a" are rejected, and each error message contains its input |
| `LangCode.NonAsciiLetterRejected` | src/main.rs:25 | "é" is two UTF-8 bytes, so it passes the byte-length test, and it is still rejected |
| `Calendar.IsLeap` | src/main.rs:207-208 | the program's leap test, "31 December has ordinal 366"; `LeapFlagIsGregorianRule` proves it equal to the Gregorian rule |
| `Calendar.Ordinal` | src/main.rs:216 | the ordinal day of a date; `OrdinalInYear` bounds it and `DateOfOrdinalOfDate` / `OrdinalOfDateOfOrdinal` prove `DateOfOrdinal` its inverse |
| `Calendar.YearLength` | src/main.rs:217 | the year's length counted month by month; `YearLengthByRule` proves it is 366 in leap years and 365 otherwise |
| `Calendar.DaysInMonth` | src/main.rs:207-208 | months have 28 to 31 days; February has 29 exactly in Gregorian leap years |
| `Calendar.DaysBeforeMonthTable` | src/main.rs:216 | the days before each month, summed month by month, equal the usual cumulative table plus one leap day after February |
| `Calendar.YearLengthByRule` | src/main.rs:217 | a year has 366 days when the Gregorian rule says it is leap, 365 otherwise |
| `Calendar.LeapFlagIsGregorianRule` | src/main.rs:207-208 | "31 December has ordinal 366" holds iff (y%4 = 0 and y%100 ≠ 0) or y%400 = 0, for every year |
| `Calendar.LeapIffFebruary29Exists` | src/main.rs:207-208 | the leap flag holds iff 29 February is a valid date of that year |
| `Calendar.OrdinalInYear` | src/main.rs:216 | every valid date's ordinal lies in 1..length of its year |
| `Calendar.OrdinalEnds` | src/main.rs:207-208 | 1 January is day 1; 31 December is the last day of the year |
| `Calendar.MonthOfOrdinal` | src/main.rs:216 | finds the month whose days contain a given ordinal |
| `Calendar.DateOfOrdinal` | src/main.rs:216 | every ordinal 1..year length names a valid date of that year |
| `Calendar.DateOfOrdinalOfDate` | src/main.rs:216 | date → ordinal → date is the identity on valid dates |
| `Calendar.OrdinalOfDateOfOrdinal` | src/main.rs:216 | ordinal → date → ordinal is the identity on 1..year length |
| `Calendar.OrdinalInjective` | src/main.rs:216 | two dates of one year with the same ordinal are the same date |
| `Calendar.DaysBeforeMonthMonotone` | src/main.rs:216 | later months start at least 28 days per month later |
| `Calendar.UnitTestDates` | src/main.rs:259-278 | 2024 is leap and 2025 is not; 1 March is day 61 of 2024 and day 60 of 2025 |
| `TimeStatistics.SecondsIntoDay` | src/main.rs:210-211 | h*3600 + m*60 + s lies in [0, 86400) for a valid time, and is 0 exactly at midnight |
| `TimeStatistics.WallClockAt` | src/main.rs:210-212 | every second count in [0, 86400) names a valid wall-clock time |
| `TimeStatistics.WallClockAtSecondsIntoDay` | src/main.rs:210-211 | time → seconds → time is the identity on valid times |
| `TimeStatistics.SecondsIntoDayOfWallClockAt` | src/main.rs:210-211 | seconds → time → seconds is the identity on [0, 86400) |
| `TimeStatistics.SecondsIntoDayMonotone` | src/main.rs:210-211 | a later time of the day has strictly more seconds since midnight |
| `TimeStatistics.DayPercentFloor` | src/main.rs:212-214 | an integer view, not computed by the program: the day progress rounded down to a whole percentage is below 100 for every second of the day, and 0 exactly in the first 864 seconds |
| `TimeStatistics.ComputeTimeStatistics` | src/main.rs:205-230 | leap flag iff the Gregorian rule; days in year is 366 when leap, else 365, and is the year's real length; the ordinal is the input date's ordinal, in 1..days in year, and `DateOfOrdinal` maps it back to the input date; day progress is exactly h*3600 + m*60 + s over 86400, below 1, and 0 exactly at midnight; year progress is ordinal/days in year; both are the fraction elapsed, and the program's percentage fields are 100 times them |
| `TimeStatistics.YearProgressRange` | src/main.rs:216-219 | year progress is above 0 and at most 100%, and reaches 100% exactly on 31 December |
| `TimeStatistics.LeapYearUnitTest` | src/main.rs:258-268 | midnight on 1 March 2024: leap, 366 days, day 61 |
| `TimeStatistics.CommonYearUnitTest` | src/main.rs:270-278 | midnight on 1 March 2025: not leap, 365 days |
| `Decimal.DigitChar` | src/main.rs:142-145 | a digit value 0..9 is written as a decimal digit character |
| `Decimal.DigitValue` | src/main.rs:142-145 | a digit character's value is below 10 and writes back as the same character |
| `Decimal.NatToDecimal` | src/main.rs:142-145 | a number is written as at least one digit with no leading zero, and as "0" exactly when it is 0 |
| `Decimal.DecimalValueOfNatToDecimal` | src/main.rs:142-145 | reading a written number back gives the number |
| `Decimal.NonzeroLeadIsPositive` | src/main.rs:142-145 | a numeral whose first digit is not zero denotes a positive number |
| `Decimal.NatToDecimalOfDecimalValue` | src/main.rs:142-145 | writing the value of a canonical numeral gives the numeral back |
| `Decimal.NatToDecimalInjective` | src/main.rs:142-145 | different numbers are written differently |
| `Decimal.UnpaddedExamples` | src/main.rs:142-145 | March is written "3" and December "12": no zero padding |
| `History.FirstSlash` | src/main.rs:143 | the index returned is that of the first '/', and none means there is no '/' |
| `History.NoSlashInDecimal` | src/main.rs:143 | a written number has no '/' in it |
| `History.RequestUrl` | src/main.rs:142-145 | the events URL; `ParseRequestUrlOfRequestUrl` proves it names its language, month and day, and `RequestUrlExample` shows the unpadded month and day |
| `History.ParseRequestUrlOfRequestUrl` | src/main.rs:142-145 | the URL "https://" + lang + ".wikipedia.org/api/rest_v1/feed/onthisday/events/" + month + "/" + day reads back as exactly that language, month and day |
| `History.RequestUrlInjective` | src/main.rs:142-145 | different two-letter languages, months or days give different URLs |
| `History.ValidatedLanguageInUrl` | src/main.rs:61-65 | for every code the validator accepts, the URL names its lowercase form |
| `History.RequestUrlExample` | src/main.rs:142-145 | "en" on 14 March gives a URL that ends in ".../events/3/14" |
| `History.Reverse` | src/main.rs:170 | the result has the input's length and element i is element n-1-i of the input |
| `History.ReverseReverse` | src/main.rs:170 | reversing twice gives the sequence back |
| `History.ReverseMultiset` | src/main.rs:170 | reversal keeps the same multiset of elements |
| `History.DisplayOrder` | src/main.rs:170-176 | the events shown are the received events in reverse: same length, same multiset, shown[i] = received[n-1-i] |
| `History.DisplayIsMostRecentFirst` | src/main.rs:170 | if the events are received in ascending year order (an assumption about the feed), they are shown in descending year order |
| `History.DisplayOrderExample` | src/main.rs:170 | events of 1990 "A" and 2005 "B" are shown B first, then A |
| `History.IsErrorStatus` | src/main.rs:152-153 | the statuses that fail the exchange, 400 to 599; `ShowOnThisDay` shows events only for other statuses |
| `History.FailureContext` | src/main.rs:151-158 | the message names the failed stage: the network message iff the transport failed, the status message iff the status is 400 to 599, the JSON message iff neither |
| `History.ShowOnThisDay` | src/main.rs:118-176 | one request goes to the events URL for today's month and day, taken from the given local date; events are shown iff the exchange succeeds with a non-error status and a decoded body, and then they are shown in reverse; otherwise the result is the context message of the stage that failed (network, error status, invalid JSON) |

## Left out

- Command-line parsing and help (src/main.rs:36-70): generated by a library. Only the validator used as the option's value parser, and the option's default "en", are modelled.
- HTTP client construction, user agent and 10-second timeout (src/main.rs:91-99): network I/O. The exchange is the parameter `fetch`, and the client build failure is not modelled.
- JSON decoding (src/main.rs:155-158): foreign code. `HttpReply.body` holds the decoded response, or `None` when the body does not decode.
- Spinner, colours, text wrapping to the terminal width, the date header and every `println!` (src/main.rs:122-140, 160-176, 183-189, 232-249): terminal output only. The model covers the order in which events are shown, not how they are drawn.
- `day_progress` and `year_progress` as `f64` (src/main.rs:213-219): floating point. They are modelled as exact fractions. `DayPercentFloor` is an integer view of the day progress, not the printed value: `{:.2}` rounds to nearest and prints "100.00" from 86,396 seconds on.
- `iso_week()`, `timestamp()`, `Local::now()`, time zones and `%B %e` formatting: wall-clock access and date-library internals. The local date and time are an input of the model.
- Calendar: years are unbounded integers. The date library's limit of about ±262,000 years is not modelled, and no date the program receives can lie outside it.
- TimeStatistics.ComputeTimeStatistics: the `u32` arithmetic is not modelled with wrap-around, because hour, minute and second are bounded and the largest value, 86,399, fits.
- tests/cli.rs runs the built binary as a process, and it expects a default action, a top-level `--statistics` flag and `-m`/`-d` date validation. `src/main.rs` has none of these, so they are not modelled.
