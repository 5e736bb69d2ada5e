# go-iso8601 in Dafny

A model of the two parsers at the heart of `go-iso8601` and of the arithmetic
on the value one of them produces:

- **Periods** (`period.go`). The designator form of an ISO 8601 duration,
  `PnYnMnWnDTnHnMnS` (ISO 8601:2004 section 4.4.3.2), is read by a single
  left-to-right scanner. The scanner keeps three pieces of state:
  - a buffer of pending digits;
  - a flag that `T` switches on;
  - the seven fields of the `Period` being built.

  `Normalize` carries overflow between the fields with the fixed ratios 60, 60,
  24, 30 and 12. `ToDuration` turns a period into nanoseconds, counting a year
  as 365 days and a month as 30 days.
- **Intervals** (`parser.go`). `Parse` reads the `/`-separated expression
  `Rn/start/period/end` (ISO 8601:2004 sections 4.4 and 4.5). It splits the
  text on `/` and classifies each segment by its first rune:
  - `R` is a repeat count;
  - `P` is a period, handed to the period scanner;
  - anything else is a timestamp, handed to the RFC 3339 parser.

  Three flags and the segment index enforce the positional rules.

Files:

| File | Module | Contents |
|---|---|---|
| `wrappers.dfy` | `Wrappers` | `Option` and `Result`. |
| `text.dfy` | `Text` | The library routines the parsers call: ASCII digits, `strconv.Atoi`, `strings.Split` and `strings.HasPrefix`. |
| `period.dfy` | `Periods` | The period scanner. |
| `period.dfy` | `PeriodArithmetic` | `Normalize` and `ToDuration`. |
| `parser.dfy` | `Intervals` | The interval parser. |

Both parsers are imperative loops, and each is a Dafny `method` with a `for`
loop. Each method is proved equal to a declarative specification:

- `PeriodFromString` equals `Scan`. `Scan` describes the scan rune by rune:
  - `CheckAt` is the check that fails at a position;
  - `Pending` is the digit buffer;
  - `Collected` is the period built so far.

  The first failing check wins.
- `Parse` equals `Interpret`. `Interpret` describes the parse segment by
  segment:
  - `SegmentError` is what fails at a segment;
  - `StartOf`, `EndOf`, `PeriodOf` and `RepeatsOf` are the fields the loop
    has written.

  The first failing segment wins.

The lemmas then state, in terms of these specifications, what the two parsers
promise. `Normalize` and `ToDuration` are pure integer expressions, so they
are functions, with lemmas about what they keep and what they lose.

Go's `/` and `%` truncate toward zero. `Quo` and `Rem` model them, because
Dafny's operators are Euclidean.

### Behaviour of the code worth knowing

- **Bare `R`.** The text after `R` goes to `strconv.Atoi`
  (parser.go:41-44). `Atoi` fails on an empty or non-numeric text, so `R/…`
  and `Rw/…` are rejected, and no repeat count stands for "unbounded"
  (`DigitlessRepeatRejected`). The test at
  parser_test.go:50-53 expects -1 for `R/…`; on this code it reads a field of
  a nil result.
- **Normalize.** The code reduces hours modulo 24 before it takes their day
  carry, so that carry is always 0 (`NormalizeDropsHoursCarry`,
  `NormalizeDropsWholeDays`). It adds the days' carry to the months after
  reducing them, so the months can come out at 12 or more. Normalizing twice
  then differs from normalizing once (`NormalizeNotIdempotent`,
  `NormalizeIdempotentBelowTwelveMonths`). The test at period_test.go:77-88
  expects 15 days, which is what this code gives.
- **Start.** A timestamp becomes Start only at index 0, or at index 1 after a
  repeat segment; any other timestamp is an end (`ParsedStart`).
- **Buffer.** `P` and `T` leave the digit buffer alone, so digits before them
  count toward the next unit letter (`PendingSinceUnit`, `ScanAppendUnit`):
  `P1T2H` is 12 hours (`ScanDigitsAcrossT`).

## Model

| member | source | states |
|---|---|---|
| Periods.PeriodFromString | period.go:30-94 | The scanner loop, with its buffer, time flag and period as loop state; its result is exactly `Scan(value)`: the first failing check's error, else the collected period |
| Periods.AssignUnit | period.go:67-90 | The switch on a unit letter: `H` or `S` without the time flag fail with that letter; otherwise the value goes to the letter's field, with `M` meaning minutes exactly when the flag is on |
| Periods.Scan | period.go:30-94 | A scan succeeds exactly when every rune passes its check, and a successful scan has no negative field |
| Periods.IsUnitLetter | period.go:15 | The unit letters `Y`, `M`, `W`, `D`, `H`, `S` of the scanner's accepted set; none of them is `P`, `T` or a digit, so the scanner's branches do not overlap |
| Periods.CheckAt | period.go:36-62 | The check at one rune, in the order the loop makes them. A rune passes exactly when the text starts with `P` and the rune is `P`, `T`, a digit (`IsDigit`, the ASCII part of `unicode.IsDigit` at period.go:44) before the last position, or a unit letter with digits pending that, if `H` or `S`, has a `T` before it. The missing-designator error comes exactly at a first rune other than `P`. The trailing-digit error comes exactly at a final digit that is not the first rune. Each rune-naming error names this rune, under its own condition |
| Periods.FirstError | period.go:35-91 | The position it returns fails its check, and every earlier position passes |
| Periods.FirstFailure | period.go:35-91 | When every rune before k passes and rune k fails, the scan fails with rune k's error: the first failure returns |
| Periods.FieldOf | period.go:67-90 | `M` is minutes exactly when a `T` came before it, and only an `M` before any `T` is months |
| Periods.Pending | period.go:44-65 | The buffer holds only digits and is never longer than the text read |
| Periods.PendingSinceUnit | period.go:44-65 | The buffer holds exactly the digits met since the previous unit letter, in order |
| Periods.Collected | period.go:64-90 | The period built so far never has a negative field |
| Periods.CollectedLastWrite | period.go:64-90 | Each field holds the value of the digits gathered before the last unit letter that writes it |
| Periods.CollectedUnwritten | period.go:34 | A field that no unit letter writes stays 0 |
| Periods.ScanStart | period.go:33-42 | The empty text and a bare `P` give the zero period, and any other first rune than `P` fails with the missing-designator error |
| Periods.ScanEndsInDigit | period.go:44-47 | A text ending in a digit never scans, and it fails with the trailing-digit error when the text before that digit scans |
| Periods.ScanAppendDigits | period.go:44-49 | Digits appended to a text that scans make it fail with the trailing-digit error |
| Periods.ScanAppendMarker | period.go:40-55 | `P` or `T` appended to a text that scans changes neither the result nor the digit buffer |
| Periods.ScanAppendUnit | period.go:57-90 | Digits and a unit letter appended to a text that scans write the decimal value of all pending digits into the letter's field. `M` is months or minutes according to an earlier `T`; `H` and `S` without one fail |
| Periods.ScanNextUnit | period.go:64-65 | After a unit letter the buffer is empty, so the next value is exactly the digits that follow |
| Periods.ScanAppendUnitWithoutValue | period.go:61-62 | A unit letter with no digits pending fails with the missing-value error naming it, whatever follows |
| Periods.ScanAppendInvalid | period.go:57-58 | A rune that is not a digit, `P`, `T` or a unit letter fails with the invalid-value error naming it, whatever follows |
| Periods.ScanErrorSticks | period.go:35-91 | Once a scan has failed with anything but the trailing-digit error, appending text does not change the error |
| Periods.ScanRejectsMissingDesignator | period_test.go:10-13 | `"DT1S"` fails for want of a leading `P` |
| Periods.ScanRejectsTimeUnitBeforeT | period_test.go:15-23 | `"P1S"` and `"P1H"` fail with the no-time-designator error naming `S` and `H` |
| Periods.ScanRejectsMissingValue | period_test.go:25-28 | `"PS"` fails with the missing-value error naming `S` |
| Periods.ScanRejectsTrailingDigit | period_test.go:30-33 | `"PT1S4"` fails with the trailing-digit error |
| Periods.ScanRejectsInvalidRune | period_test.go:35-38 | `"P1Q"` fails with the invalid-value error naming `Q` |
| Periods.ScanOneTimeUnit | period.go:52-89 | `PT` followed by a digit and a unit letter sets only that letter's time-side field |
| Periods.ScanOneDateUnit | period.go:64-79 | `P` followed by a digit and `Y`, `M`, `W` or `D` sets only years, months, weeks or days |
| Periods.ScanAcceptsSeconds | period_test.go:40-42 | `"PT1S"` is 1 second |
| Periods.ScanAcceptsMinutes | period_test.go:44-46 | `"PT2M"` is 2 minutes |
| Periods.ScanAcceptsHours | period_test.go:48-50 | `"PT3H"` is 3 hours |
| Periods.ScanAcceptsDays | period_test.go:52-54 | `"P4D"` is 4 days |
| Periods.ScanAcceptsMonths | period_test.go:56-58 | `"P5M"` is 5 months |
| Periods.ScanAcceptsYears | period_test.go:60-62 | `"P6Y"` is 6 years |
| Periods.ScanAcceptsWeeks | period_test.go:68-70 | `"P7W"` is 7 weeks |
| Periods.ScanSixUnitsShape | period.go:30-94 | Any one-digit-per-field `PnYnMnDTnHnMnS` gives each field its digit's value, with the `M` after `T` as minutes |
| Periods.ScanAcceptsAllUnits | period_test.go:64-66 | `"P6Y5M4DT3H2M1S"` gives 6, 5, 0, 4, 3, 2, 1 |
| Periods.ScanDateAndTimeShape | period.go:30-94 | Any `PnYnMnnDTnHnnM` gives years, months, days, hours and minutes from their digits |
| Periods.ScanAcceptsDateAndTime | period_test.go:72-74 | `"P1Y2M10DT2H30M"` gives 1 year, 2 months, 10 days, 2 hours, 30 minutes |
| Periods.ScanRepeatedUnitOverwrites | period.go:67-90 | In `"P2D10D"` the later value wins: 10 days |
| Periods.ScanDigitsAcrossT | period.go:40-55 | In `"P1T2H"` the `T` does not clear the pending `1`, so the hours are 12 |
| Periods.ScanDaysTwiceShape | period.go:67-90 | In any `PnYnDnnDTnHnnM` the days are the second day value |
| Periods.ScanAcceptsOverwrittenDays | parser_test.go:73-77 | `"P1Y2D10DT2H30M"` scans to 1 year, 10 days, 2 hours, 30 minutes |
| Periods.ScanRejectsX | parser_test.go:61-65 | `"P1Y2X10DT2H30M"` fails with the invalid-value error naming `X` |
| PeriodArithmetic.Quo | period.go:98-104 | Go's integer `/`: truncation toward zero for either sign |
| PeriodArithmetic.Rem | period.go:98-104 | Go's integer `%`: it takes the sign of the dividend and is smaller than the divisor in magnitude |
| PeriodArithmetic.QuoRem | period.go:98-104 | Quotient times divisor plus remainder gives back the dividend |
| PeriodArithmetic.Normalize | period.go:97-107 | Weeks become 0. A non-negative period stays non-negative, with seconds and minutes below 60, hours below 24 and days below 30 |
| PeriodArithmetic.NormalizeDropsHoursCarry | period.go:101-104 | Days are (days + 7·weeks) rem 30, months are months rem 12 plus (days + 7·weeks) quo 30, and years are years + months quo 12. The hours contribute nothing |
| PeriodArithmetic.NormalizeKeepsDateDays | period.go:102-104 | Counting a month as 30 days and a year as 12 months, the days of the date part (weeks at 7 days) are kept |
| PeriodArithmetic.NormalizeTimeOfDay | period.go:98-101 | For a non-negative period the time part, in seconds, is kept modulo one day |
| PeriodArithmetic.NormalizeDropsWholeDays | period.go:100-102 | Any whole number of days written as hours normalizes to the zero period |
| PeriodArithmetic.NormalizeDateOnly | period.go:102-104 | Without a time part, Normalize only folds weeks into days and carries days into months and months into years |
| PeriodArithmetic.NormalizeCarriesDaysAfterMonths | period.go:104 | With months already below 12, the days' carry is added to the months without a second reduction |
| PeriodArithmetic.NormalizeLeavesTwelveMonths | period.go:104 | 11 months and 30 days normalize to 12 months |
| PeriodArithmetic.NormalizeNotIdempotent | period.go:97-107 | Normalizing 11 months and 30 days twice differs from normalizing it once |
| PeriodArithmetic.NormalizeIdempotentBelowTwelveMonths | period.go:97-107 | For a non-negative period, normalizing twice equals normalizing once exactly when the first pass leaves fewer than 12 months |
| PeriodArithmetic.NormalizeExample | period_test.go:77-88 | {1, 15, 2, 31, 27, 73, 91} normalizes to {2, 4, 0, 15, 4, 14, 31} |
| PeriodArithmetic.ToDuration | period.go:111-114 | The duration is the sum of each field times its unit's length in seconds (365-day year, 30-day month, weeks counting nothing), in nanoseconds; it is non-negative for a non-negative period |
| PeriodArithmetic.ToDurationIgnoresWeeks | period.go:112-113 | Changing weeks does not change the duration |
| PeriodArithmetic.ToDurationExample | period_test.go:90-98 | 12 h 30 min 20 s is 12 hours + 30 minutes + 20 seconds |
| PeriodArithmetic.NormalizeDuration | period.go:97-114 | Normalizing a non-negative period changes its duration in three ways: it loses the whole days of the time part, gains 7 days per week, and gains 5 days per year carried out of the months |
| Text.DecimalValue | period.go:64 | The value of n digits is below 10^n |
| Text.Atoi | parser.go:41-44 | A conversion succeeds exactly on one or more digits, optionally after one `+` or `-`; any other text, the empty one included, is rejected. A negative result needs a leading `-` |
| Text.AtoiOfDigits | parser.go:41-49 | Every non-empty digit run converts to its decimal value, and with a `+` or `-` in front to that value or its negation; with `Atoi`'s contract this fixes every result |
| Text.StartsWith | parser.go:36 | `strings.HasPrefix` with a one-rune prefix: the text's first rune is that rune |
| Text.Split | parser.go:21 | There is always at least one piece, and no piece holds the separator |
| Text.JoinSplit | parser.go:21 | Joining the pieces with the separator gives back the text |
| Text.SplitJoin | parser.go:21 | Splitting separator-free pieces joined by the separator gives back the pieces |
| Text.SplitWithoutSeparator | parser.go:21-23 | The text is a single piece exactly when it holds no separator |
| Intervals.Parse | parser.go:20-88 | Parse's result (Info and error) is exactly `Interpret(expression)` |
| Intervals.ParseSegments | parser.go:30-86 | The segment loop, with its three flags and early returns, yields exactly `Outcome(split)`. The flags are invariants: `endSet` says an end was seen, `repeatsSet` says segment 0 was a repeat, `durationSet` says a period was seen |
| Intervals.Interpret | parser.go:20-88 | Without a `/` an Info always comes back, with an error exactly when the timestamp fails. With a `/`, exactly one of Info and error comes back |
| Intervals.Outcome | parser.go:30-86 | Exactly one of Info and error comes back |
| Intervals.KindOf | parser.go:36-55 | A segment is a repeat exactly when it starts with `R`, a period exactly when it starts with `P`, and a timestamp exactly when it is empty or starts with neither |
| Intervals.BindsStart | parser.go:75 | Only index 0, or index 1 when segment 0 starts with `R`, can set Start |
| Intervals.IsEnd | parser.go:75-83 | An end is a timestamp segment past index 0; from index 2 on every timestamp segment is an end |
| Intervals.IsPeriod | parser.go:55 | A segment is a period exactly when it starts with `P` |
| Intervals.CountText | parser.go:41 | The count text is the segment without its leading rune (`v[1:]`) |
| Intervals.FlagsStep | parser.go:30-32 | `durationSet` (`HasPeriodBefore`, set at parser.go:65) becomes true exactly at a period segment, and `endSet` (`HasEndBefore`, set at parser.go:83) exactly at an end timestamp |
| Intervals.SegmentError | parser.go:36-80 | The error at one segment, with the loop's checks in order. A segment is accepted exactly when it meets every condition of its kind (`SegmentAccepted`): a repeat is first with a positive integer count, a period is the first and scans, a timestamp parses and is not a second end. An `R` segment that is not first gets the not-first error, exactly. A first `R` segment whose count is not an integer gets the bad-count error with that text, and one whose count is not positive gets the non-positive error. A second period gets the duplicate-period error, exactly; a first period that does not scan gets the scanner's error wrapped. A timestamp that does not parse gets the time-component error with its text, and the duplicate-end error comes exactly at an end timestamp that parses after another end. The single-segment error never arises here |
| Intervals.StartOf | parser.go:75-77 | Start so far is the zero time or the instant of a timestamp at index 0 or 1 that binds Start |
| Intervals.EndOf | parser.go:82-83 | End so far is the zero time or the instant of an end timestamp among the segments read |
| Intervals.PeriodOf | parser.go:60-65 | Period so far is absent or the scan of a period segment among those read, with no negative field |
| Intervals.RepeatsOf | parser.go:41-51 | Repeats so far is 0 or the `Atoi` value of the text after a leading `R` |
| Intervals.Built | parser.go:33-83 | The Info written so far starts as the zero Info. Its period has no negative field, and its repeat count is nonzero only after a leading `R` |
| Intervals.FirstSegmentError | parser.go:35-84 | The segment it returns fails, and every earlier segment is accepted |
| Intervals.SegmentFailure | parser.go:35-84 | When every segment before k is accepted and segment k fails, the parse returns no Info and segment k's error |
| Intervals.ParseAccepts | parser.go:30-86 | A multi-segment expression parses without error exactly when every segment is accepted, and then the Info is the one built from all its segments |
| Intervals.ParseWithoutSlash | parser.go:21-28 | A text without `/` is one timestamp: it becomes Start, with End the zero time, no repeats and no period. The Info comes back even beside the timestamp error |
| Intervals.RepeatMustBeFirst | parser.go:36-39 | An `R` segment after accepted segments, at any index but 0, is rejected |
| Intervals.LeadingRepeatCount | parser.go:41-49 | A leading `R` whose count is not an integer is rejected with that count text, and one whose count is zero or negative is rejected as non-positive |
| Intervals.DigitlessRepeatRejected | parser.go:41-45 | `R` followed by a count with no digit, such as `R/…` or `Rw/…` (parser_test.go:38-42), is rejected with that count text: it is not an integer, and no count stands for unbounded repeats |
| Intervals.NegativeRepeatRejected | parser_test.go:44-48 | `"R-1/…"` is rejected as non-positive |
| Intervals.ParsedRepeats | parser.go:41-52 | After a successful multi-segment parse the repeat count is 0 or at least 1. It is at least 1 exactly when the first segment starts with `R`, and then it is the `Atoi` value of the text after the `R` |
| Intervals.SecondPeriodRejected | parser.go:55-58 | A second `P` segment, after accepted segments, is rejected as a duplicate period before its text is scanned |
| Intervals.PeriodOfAccepted | parser.go:55-66 | Over accepted segments, the period is present exactly when a period segment was seen. It is that segment's scan, and no two period segments occur |
| Intervals.ParsedPeriod | parser.go:55-66 | A successful multi-segment parse has at most one period segment. Period is present exactly when there is one, and equals its scan |
| Intervals.SecondEndRejected | parser.go:75-80 | A second end timestamp that parses, after accepted segments, is rejected as a duplicate end |
| Intervals.EndOfAccepted | parser.go:75-83 | Over accepted segments, End is the zero time without an end timestamp, else the one end timestamp's instant, and no two end timestamps occur |
| Intervals.ParsedEnd | parser.go:75-83 | A successful multi-segment parse has at most one end timestamp. End is its instant, or the zero time when there is none |
| Intervals.StartOfPrefix | parser.go:75-77 | Segments after the second never change Start |
| Intervals.ParsedStart | parser.go:75-77 | A successful multi-segment parse takes Start from segment 0 when it is a timestamp, from segment 1 when a repeat comes first, and leaves it at the zero time otherwise |
| Intervals.RecurringIntervalAccepted | parser.go:35-84 | In `Rn/start/period/end` with a positive count, parsing timestamps and a period that scans, every segment is accepted |
| Intervals.RecurringInterval | parser.go:35-86 | Such an expression parses to repeats n, Start and End from the two timestamps, and the period's scan |
| Intervals.StartPeriodEnd | parser_test.go:85-88 | `start/period/end` parses to Start and End from the timestamps, the period's scan, and no repeats |
| Intervals.PeriodEnd | parser_test.go:90-93 | `period/end` parses to End from the timestamp, the period's scan, Start the zero time and no repeats |
| Intervals.RepeatPeriodEnd | parser_test.go:95-98 | `Rn/period/end` parses to repeats n, End from the timestamp, the period's scan and Start the zero time |
| Intervals.StartPeriod | parser_test.go:100-103 | `start/period` parses to Start from the timestamp, the period's scan, End the zero time and no repeats |
| Intervals.RepeatStartPeriod | parser_test.go:105-108 | `Rn/start/period` parses to repeats n, Start from the timestamp, the period's scan and End the zero time |
| Intervals.TwoPeriods | parser.go:55-58 | `Rn/start/period/period` is rejected as a duplicate period |
| Intervals.PeriodFails | parser.go:60-63 | `Rn/start/period` with a period that does not scan is rejected with the scanner's error |
| Intervals.StartFails | parser.go:69-73 | `Rn/start/period` with a start that does not parse is rejected with the time-component error for that text |
| Intervals.ThreeEnds | parser.go:75-80 | `Rn/period/t/t/t` is rejected as a duplicate end |
| Intervals.ExampleParse | parser_test.go:10-20 | `R5/<t1>/P1Y2M10DT2H30M/<t2>` parses to repeats 5, Start t1, End t2 and the period 1 year, 2 months, 10 days, 2 hours, 30 minutes |
| Intervals.ExampleRepeatNotFirst | parser_test.go:32-36 | `<t>/R5` is rejected because the repeat is not first |
| Intervals.ExampleMultiplePeriods | parser_test.go:55-59 | `R1/<t>/P1Y2M10DT2H30M/P1Y2M10DT2H30M` is rejected as a duplicate period |
| Intervals.ExampleInvalidPeriod | parser_test.go:61-65 | `R1/<t>/P1Y2X10DT2H30M` is rejected with the scanner's invalid-value error for `X` |
| Intervals.ExampleInvalidTimeComponent | parser_test.go:67-71 | `R1/<bad>/P1Y2D10DT2H30M` is rejected with the time-component error for `<bad>` |
| Intervals.ExampleMultipleEndDates | parser_test.go:73-77 | `R1/P1Y2D10DT2H30M/<t>/<t>/<t>` is rejected as a duplicate end at the second timestamp |

## Left out

- RFC 3339 timestamps (`time.Parse` at parser.go:24 and 69) come from a
  foreign library. They are the parameter `parseInstant: string ->
  Option<Instant>`, and `Instant` is a count of nanoseconds since the Unix
  epoch. Go's zero `time.Time` is `ZeroTime`. A time's location and
  monotonic reading are not modelled. The test examples leave their
  timestamp texts and instants as parameters, with what they need from
  `parseInstant` stated as preconditions.
- The errors are one datatype variant per message. Each variant carries the
  rune or text its message names; the message text itself, and the wrapped
  library message, are not modelled.
- `Info.ToString`, the period formatter and the locale helpers exercised by
  parser_test.go:79-119 and utils_test.go: their source is not part of this
  model. The parsing half of each shape in parser_test.go:79-119 is modelled
  (`RecurringInterval`, `StartPeriodEnd`, `PeriodEnd`, `RepeatPeriodEnd`,
  `StartPeriod`, `RepeatStartPeriod`, `ParseWithoutSlash`); the text that
  `ToString` writes back is not.
- Integer width: Go's `int` and `time.Duration` are 64-bit; the model uses
  unbounded integers. Out of scope as a result:
  - `strconv.Atoi`'s range error on counts beyond 2^63-1;
  - values beyond 2^63-1 saturate at period.go:64, because `Atoi`'s range
    error is discarded there;
  - the overflow of `ToDuration` for periods longer than about 292 years.
- Digits are the ASCII digits `0`-`9`. `unicode.IsDigit` also accepts other
  Unicode decimal digits, and for those the code swallows `Atoi`'s error and
  stores 0. The model instead treats such a rune as an invalid value.
- The string is taken as a sequence of code points, so the UTF-8 decoding of
  `[]rune(value)` and invalid byte sequences are not modelled.
- `go-streams`' `Contains` and the `stringx` builder are replaced by a
  predicate on the unit letters and a `seq<char>` buffer.
- The switch of the scanner loop is the method `AssignUnit`, and the
  segment loop of `Parse` is the method `ParseSegments`. The Go code has both
  inline.
- PeriodArithmetic.NormalizeTimeOfDay: stated for non-negative periods only.
  The parsers never produce a negative field. For negative fields,
  `Normalize` is still computed with Go's truncating division, through `Quo`
  and `Rem`.
- PeriodArithmetic.NormalizeIdempotentBelowTwelveMonths: stated for
  non-negative periods only, like `NormalizeTimeOfDay`.
