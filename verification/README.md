# Verified models of the automation code

This project models, in Dafny, the parts of the repository whose correctness is least obvious from
reading them, and proves what they promise.

* **Durations** (`Wrappers`, `Calendar`, `Addition`, `AdditionLaws`, `DayCarry`, `FractionalAddition`,
  `Decimals`, `Numbers`, `Durations`, `Parser`, `Grammar`, `Readings`, `Formatter`, `RoundTrip`, `WholeDurations`): the
  `isoduration` library. Adding a duration to a date-time is measured against an absolute count of microseconds
  on an independent Gregorian calendar; the two character scanners are measured against a token grammar, and
  numbers against one of their own; formatting and parsing are inverse.
* **Route switcher** (`RouteSwitcher`, `RouteTables`, `RouteRuns`, `RouteRest`): one tick of the failover
  controller over route tables and a stored configuration, with health, GET failures, routes without a next
  hop address, lost PATCHes and store failures chosen freely; then runs of any length; then exactly when
  repeated ticks come to rest.
* **VPN failover** (`VpnFailover`): subnets re-pointed in two requests, the configuration stored only at the
  end, and runs that may end at any request.
* **Batch recognition** (`AsrBatch`, `AsrRuns`): a two-phase job protocol over an object store in which every
  call can fail and exceptions end a run.
* **Streaming recognition** (`SttStream`): session rotation by byte count with one retry.
* **Task database** (`TaskDb`, `Whitespace`): an append-only file and its dictionary.
* **Speech synthesis** (`TtsChunker`): the greedy text chunker.

Where the code works step by step, methods with loops (and classes for the objects the code updates) are
proved equal to specification functions; the lemmas then say what those functions mean. Calls to services
take their outcome from parameters (`Env`, `Attempt`, `InputEvent`, `CheckEvent`, the number of accepted
requests), so that a statement for all parameters is a statement for all behaviours of the environment.

`dafny verify dfyconfig.toml` checks everything.

## What turned out false

Each of these has an input and the exact condition.

* With a fractional day count the day-carry loop does not always end: January 31 plus half a day
  (`DayCarry.HalfADayNeverEnds`; `DayCarry.TerminationDomain` says when it ends, `DayCarry.EndsAtTarget` where).
* With fractions there is not always a result when the loop ends: half a minute after minute 59 and half a
  month after January 31 are refused (`FractionalAddition.HalfAMinuteRefused`,
  `FractionalAddition.HalfAMonthRefused`, `FractionalAddition.ResultDomain`).
* Adding a duration does not always keep the order of two starts (`AdditionLaws.OrderLost`,
  `AdditionLaws.OrderKept`).
* A minus sign does not negate the text `P`: `P` is refused as empty while `-P` is a zero duration
  (`RoundTrip.BareP`, `RoundTrip.NegationLaw`).
* The route switcher forgets a preference when a router is missing from a target list
  (`RouteRest.UnlistedRouterIsForgotten`, `RouteTables.RecordSurvives`).
* The route switcher does not always come to rest if a healthy and a failed router claim the same addresses
  (`RouteRest.SharedAddressesOscillate`). It does exactly if the backups of failed addresses make no ring and,
  when routes go back to their preferred address, no detour through an address that is healthy and failed at
  once (`RouteRest.RestDomain`).
* One route without a next hop address, such as a route to a gateway, keeps every route of every table where
  it is, failed next hops included (`RouteRest.GatewayStopsAll`, `RouteRuns.FailoverHappens`).
* The VPN failover does not repair a half-done switch if the health changes before the next run
  (`VpnFailover.RecoveryNeedsSameHealth`, `VpnFailover.CompletedRun`).
* An input is not always submitted at most once: a job whose response has no id, or whose response is lost,
  is submitted again by the next run (`AsrRuns.SubmittedTwice`, `AsrRuns.SubmittedAtMostOnce`, and for failing
  existence checks as well `AsrRuns.SubmissionCount`).
* A log entry without an operation id stops the checks behind it, run after run (`AsrRuns.EmptyIdExample`;
  `AsrRuns.PassEnds` says which objects end a pass, `AsrRuns.OneInputBlocked` what replaces the entry).
* A complete log entry does not always have its outputs: the service may say of a job it has just accepted that
  it is done (`AsrRuns.DoneTooEarly`, `AsrRuns.ProcessKeeps`).
* A streaming session can receive MAX_BYTES_SENT and more, because its first chunk is not counted and may have
  that size itself (`SttStream.LimitExceeded`; `SttStream.LimitDomain` says when the next chunk does it). The
  weaker bound that adds the first chunk fails for chunks near two gigabytes, which wrap the counter
  (`SttStream.WrapEscapes`, `SttStream.BoundDomain`).
* A reload does not always rebuild the dictionary of tasks: a semicolon, a null, outer white space, a line break
  or a leading byte order mark is lost (`TaskDb.SemicolonIsLost`, `TaskDb.ReloadRebuilds`).
* The chunker sends an empty request before a first part that is over-long (`TtsChunker.LongWordSendsNothing`,
  `TtsChunker.EmptyBufferSent`).

Section 4.4.3 of ISO 8601:2004 does not mix weeks with other designators, and a check in `parsing.py` that
is commented out would refuse such texts; the code reads them, and only the formatter refuses them. The
model follows the code.

## Model

| member | source | states |
|---|---|---|
| Calendar.Split2 | yc-tracker/tracker-data-import/isoduration/operations/util.py:4-9 | quot2 and mod2 are the quotient and remainder of division with a remainder that is never negative, for dividends of either sign |
| Calendar.MonthSplit | yc-tracker/tracker-data-import/isoduration/operations/util.py:12-21 | mod3 and quot3 with bounds 1 and 13 split any month number into a calendar month and a year carry that denote the same month |
| Calendar.MaxDayIsMonthLength | yc-tracker/tracker-data-import/isoduration/operations/util.py:24-41 | for month numbers of any size and sign max_day_in_month is the Gregorian month length of an independent calendar, leap years included |
| Calendar.MonthStartStep | yc-tracker/tracker-data-import/isoduration/operations/util.py:24-41 | that length is exactly the distance between the closed-form starts of two neighbouring months, across year ends too |
| Calendar.DayNumberOrder | yc-tracker/tracker-data-import/isoduration/operations/__init__.py:60-85 | the day count orders valid dates as the calendar does and identifies them |
| Addition.NormalizePosition | yc-tracker/tracker-data-import/isoduration/operations/__init__.py:60-74 | day number of the month plus end_day never changes in the day-carry loop, and the month only ever moves in one direction |
| Addition.CarryDays | yc-tracker/tracker-data-import/isoduration/operations/__init__.py:62-74 | the loop ends for every whole day count of either sign and reaches the date at that position |
| Addition.Sum | yc-tracker/tracker-data-import/isoduration/operations/__init__.py:13-85 | the sum is a valid date-time whose absolute microsecond count is that of the month-shifted, day-clamped start plus all elapsed components (Appendix E of XML Schema Part 2) |
| Addition.Add | yc-tracker/tracker-data-import/isoduration/operations/__init__.py:13-85 | the month split, the split of the seconds toward zero, the four-link carry chain, the clamping and the loop together compute that sum |
| Addition.ShiftedMonth | yc-tracker/tracker-data-import/isoduration/operations/__init__.py:18-24 | the month and year computed first, with the day clamped, are the start shifted by 12*years+months |
| Addition.CutsTowardZero | yc-tracker/tracker-data-import/isoduration/operations/__init__.py:30-31 | the seconds are split toward zero: what is left for the microseconds is less than a second and has the sign of the whole |
| AdditionLaws.InstantInjective | yc-tracker/tracker-data-import/isoduration/operations/__init__.py:76-85 | the absolute microsecond count identifies a valid date-time |
| AdditionLaws.InverseLaw | yc-tracker/tracker-data-import/isoduration/types.py:96-114 | (t + d) - d == t and (t - d) + d == t for every start and whole duration without months |
| AdditionLaws.AddThenElapse | yc-tracker/tracker-data-import/isoduration/operations/__init__.py:29-74 | adding any duration and then one without months is one addition of the componentwise sum |
| AdditionLaws.YearsAreTwelveMonths | yc-tracker/tracker-data-import/isoduration/operations/__init__.py:18-24 | years and months matter only through 12*years+months |
| AdditionLaws.MonthsCompose | yc-tracker/tracker-data-import/isoduration/operations/__init__.py:18-24 | month additions compose if and only if the first does not clamp the day below what the final month could hold; always for days up to 28 |
| AdditionLaws.MonthsUndo | yc-tracker/tracker-data-import/isoduration/operations/__init__.py:52-60 | subtracting months undoes adding them if and only if the addition did not clamp |
| AdditionLaws.OrderKept | yc-tracker/tracker-data-import/isoduration/operations/__init__.py:52-60 | adding one duration keeps the order of two starts if and only if they are not clamped onto one day with their times of day reversed; so always for equal times of day |
| AdditionLaws.OrderLost | yc-tracker/tracker-data-import/isoduration/operations/__init__.py:52-60 | that exceptional case exists: Jan 30 23:00 and Jan 31 01:00 plus one month |
| DayCarry.TerminationDomain | yc-tracker/tracker-data-import/isoduration/operations/__init__.py:60-74 | with an end_day that may be fractional the loop ends if and only if end_day is whole or, without its fraction, does not lead to the last day of a month |
| DayCarry.GapNeverEnds | yc-tracker/tracker-data-import/isoduration/operations/__init__.py:62-74 | in the last day of a month a fraction makes the two branches undo each other: no number of passes breaks |
| DayCarry.OutsideGapsEnds | yc-tracker/tracker-data-import/isoduration/operations/__init__.py:62-74 | everywhere else the loop ends within a number of passes given in advance |
| DayCarry.EndsAtTarget | yc-tracker/tracker-data-import/isoduration/operations/__init__.py:62-79 | when the loop ends it is in the month and on the day it would reach without the fraction, the fraction is unchanged, and the day it is rounded to is a day of that month |
| DayCarry.HalfADayNeverEnds | yc-tracker/tracker-data-import/isoduration/operations/__init__.py:60-74 | a start that never ends: January 31 plus half a day |
| FractionalAddition.AddFractional | yc-tracker/tracker-data-import/isoduration/operations/__init__.py:18-85 | the algorithm with fractions in all components but the years: the carry chain, the loop where it ends, the rounding of every field and the refusal of datetime compute the rounded sum |
| FractionalAddition.ChainIsExact | yc-tracker/tracker-data-import/isoduration/operations/__init__.py:29-60 | before rounding nothing is lost: day count and clock have moved by exactly the elapsed time |
| FractionalAddition.FractionsStay | yc-tracker/tracker-data-import/isoduration/operations/__init__.py:29-60 | every fraction stays in its own unit: what the chain adds to minutes, hours and days beside the components of the duration is whole, and so are the seconds it takes from the microseconds |
| FractionalAddition.ResultFields | yc-tracker/tracker-data-import/isoduration/operations/__init__.py:76-85 | each field of a result is its part rounded half up: a month or a day more for half a unit, hour, minute and microsecond likewise |
| FractionalAddition.HalfAnHour | yc-tracker/tracker-data-import/isoduration/operations/__init__.py:42-81 | 10:00 plus 1.5 hours is 12:00 |
| FractionalAddition.ResultDomain | yc-tracker/tracker-data-import/isoduration/operations/__init__.py:76-85 | when the loop ends there is a result if and only if the year is one of datetime, no hour, minute or microsecond is rounded up to the next of the unit above, and a month that is rounded up is in the same year and has the day |
| FractionalAddition.WholeSum | yc-tracker/tracker-data-import/isoduration/operations/__init__.py:13-85 | for whole components the loop ends and the result is the sum on the reference calendar, within the years of datetime |
| FractionalAddition.HalfAMinuteRefused | yc-tracker/tracker-data-import/isoduration/operations/__init__.py:76-85 | a sum that is refused: half a minute after minute 59 |
| FractionalAddition.HalfAMonthRefused | yc-tracker/tracker-data-import/isoduration/operations/__init__.py:76-85 | another: half a month after January 31 |
| Decimals.FormatRoundTrip | yc-tracker/tracker-data-import/isoduration/formatter/formatting.py:17-38 | reading a number written with the g format gives the same coefficient and exponent, in plain and scientific notation |
| Numbers.NumberMeaning | yc-tracker/tracker-data-import/isoduration/parser/parsing.py:69 | the number a text of sign, digits, point, digits and exponent is: the digits together, scaled by the exponent less the digits after the point |
| Numbers.NumberLanguage | yc-tracker/tracker-data-import/isoduration/parser/parsing.py:69-77 | and those texts, with a digit somewhere, are all that is read as a number |
| Numbers.Notation | yc-tracker/tracker-data-import/isoduration/formatter/formatting.py:18 | how a number is written: plain digits, a point among or before them while fewer than six zeros follow it, and an exponent of one digit before the point otherwise |
| Numbers.EqualsMeaning | yc-tracker/tracker-data-import/isoduration/formatter/formatting.py:17 | two numbers are equal if and only if they are at any common exponent |
| Numbers.IntegerMeaning | yc-tracker/tracker-data-import/isoduration/parser/util.py:39-40 | a number is an integer if and only if it equals one without a fraction |
| Parser.DesignatorTable.ParseDesignator | yc-tracker/tracker-data-import/isoduration/parser/util.py:29-37 | the table is emptied from the front up to and including the letter, or altogether if it is not there |
| Parser.ParseTimeDuration | yc-tracker/tracker-data-import/isoduration/parser/parsing.py:104-139 | the character loop with one shared table is the scanner function whose language and values the grammar lemmas give |
| Parser.ParseDateDuration | yc-tracker/tracker-data-import/isoduration/parser/parsing.py:43-101 | the same for the date scanner, with its table rebuilt for every letter, the time part and the date-time style |
| Parser.ValidateFractional | yc-tracker/tracker-data-import/isoduration/parser/validation.py:6-16 | the loop from the lowest component up accepts exactly the durations whose components above the lowest non-zero one are integers |
| Parser.ParseDuration | yc-tracker/tracker-data-import/isoduration/parser/__init__.py:8-33 | sign, prefix, scanning and validation in order, with every error kind |
| Readings.CommaIsPoint | yc-tracker/tracker-data-import/isoduration/parser/parsing.py:129-133 | a time is read as if its commas were points |
| Readings.CommaSeconds | yc-tracker/tracker-data-import/isoduration/parser/parsing.py:110-135 | digits, a comma, digits and S are seconds with those digits after the point |
| Readings.OneTime | yc-tracker/tracker-data-import/isoduration/parser/parsing.py:104-125 | one number with H, M or S sets hours, minutes or seconds, under the sign, and nothing else |
| Readings.OneDate | yc-tracker/tracker-data-import/isoduration/parser/parsing.py:63-89 | one number with Y, M, D or W sets years, months, days or weeks, under the sign, and nothing else |
| Readings.DateTimeMeaning | yc-tracker/tracker-data-import/isoduration/parser/parsing.py:23-53 | a number without a comma before T hands the whole text to the date-time parser, whose components are taken over under the sign |
| Readings.PlusLaw | yc-tracker/tracker-data-import/isoduration/parser/__init__.py:15-21 | a leading plus changes nothing |
| Readings.RefusedAsEmpty | yc-tracker/tracker-data-import/isoduration/parser/__init__.py:9-27 | refused as empty are exactly the texts of fewer than two characters and those without P at the front or behind a sign |
| Readings.FractionMeaning | yc-tracker/tracker-data-import/isoduration/parser/validation.py:6-16 | refused for a fraction are exactly the durations with a fraction above a component that is not zero |
| Grammar.TimeLanguage | yc-tracker/tracker-data-import/isoduration/parser/parsing.py:104-139 | the time scanner accepts exactly number-letter tokens whose letters are a strictly increasing selection of H, M, S, followed by ignored number characters |
| Grammar.TimeMeaning | yc-tracker/tracker-data-import/isoduration/parser/parsing.py:104-139 | and reads each component from its token, zero if there is none |
| Grammar.LaterLetters | yc-tracker/tracker-data-import/isoduration/parser/util.py:29-37 | a letter the shared table has passed does not come again |
| Grammar.DateLanguage | yc-tracker/tracker-data-import/isoduration/parser/parsing.py:43-101 | the date scanner accepts exactly tokens with Y, M, D, W in any order and number, loose number characters, and then nothing, an acceptable time, or a date-time |
| Grammar.DateMeaning | yc-tracker/tracker-data-import/isoduration/parser/parsing.py:43-101 | what it reads: the last value of each designator wins, loose characters are ignored, and a single number without a comma before T is passed on as a date-time |
| Grammar.TimeErrors | yc-tracker/tracker-data-import/isoduration/parser/parsing.py:110-137 | which error ends the reading of a time, at the first character that cannot go on a sentence |
| Grammar.DateErrors | yc-tracker/tracker-data-import/isoduration/parser/parsing.py:63-99 | the same for a date |
| Formatter.GlobalSign | yc-tracker/tracker-data-import/isoduration/formatter/checking.py:11-46 | the sign is -1 exactly when some component is negative and none is positive |
| Formatter.FormatDate | yc-tracker/tracker-data-import/isoduration/formatter/formatting.py:12-27 | weeks mixed with years, months or days are refused; otherwise P and the non-zero components, weeks first |
| Formatter.FormatTime | yc-tracker/tracker-data-import/isoduration/formatter/formatting.py:30-42 | T and the non-zero components, or nothing |
| Formatter.FormatDuration | yc-tracker/tracker-data-import/isoduration/formatter/__init__.py:13-24 | the written form with its leading sign, P0D for zero |
| Formatter.FormatMeaning | yc-tracker/tracker-data-import/isoduration/formatter/formatting.py:15-42 | the written text: a minus sign exactly if some component is negative and none positive, P, weeks, years, months, days in this order, then T with hours, minutes, seconds if there are any, and P0D for nothing |
| Formatter.WeeksAlone | yc-tracker/tracker-data-import/isoduration/formatter/checking.py:49-54 | the only error is weeks together with years, months or days, and it is always one |
| RoundTrip.FormatParse | yc-tracker/tracker-data-import/isoduration/formatter/__init__.py:13-24 | formatting fails exactly for mixed weeks; what it writes parses back to the same components exactly when only the lowest non-zero one is fractional, and is rejected for that otherwise; the date-time parser is never consulted |
| RoundTrip.CanonKeeps | yc-tracker/tracker-data-import/isoduration/types.py:66-68 | the only difference is how a zero is written: the value of every component is equal |
| RoundTrip.EqualsFields | yc-tracker/tracker-data-import/isoduration/types.py:66-70 | durations are equal if and only if all seven components are |
| RoundTrip.NegationLaw | yc-tracker/tracker-data-import/isoduration/parser/__init__.py:12-24 | parse("-"+s) is the negation of parse(s), errors included, exactly for texts other than P that do not already have a sign before their P |
| RoundTrip.BareP | yc-tracker/tracker-data-import/isoduration/parser/__init__.py:9-24 | the text without a sign that is its own exception: P is refused as empty and -P is read as zero |
| WholeDurations.SpanMeaning | yc-tracker/tracker-data-import/isoduration/types.py:99-114 | a decimal duration has a span if and only if every component equals a whole number, the seconds one of microseconds, and those are the components of the span |
| WholeDurations.SpanNegates | yc-tracker/tracker-data-import/isoduration/types.py:96-97 | negating a duration negates what it adds |
| WholeDurations.SubtractUndoesAdd | yc-tracker/tracker-data-import/isoduration/types.py:99-114 | the inverse law for decimal durations with whole values |
| WholeDurations.WrittenAddsTheSame | yc-tracker/tracker-data-import/isoduration/types.py:50-51 | a duration written out and read in again adds the same |
| RouteSwitcher.ReadStatuses | yc-route-switcher-v2/route-switcher/route-switcher-function/main.py:54-58 | an address has a status exactly if something is reported about it, and then it is the last report |
| RouteSwitcher.PrepareNexthops | yc-route-switcher-v2/route-switcher/route-switcher-function/main.py:71-110 | the loops over routers and interfaces collect the healthy and the failed next hops with their backups |
| RouteSwitcher.SwitchTable | yc-route-switcher-v2/route-switcher/route-switcher-function/main.py:145-180 | the loop that updates the routes in place and records preferences is one pass of the pass function |
| RouteSwitcher.SwitchTables | yc-route-switcher-v2/route-switcher/route-switcher-function/main.py:125-196 | every readable table is switched, pruned and, if modified, put on the PATCH list; the configuration is marked changed when it is; a route without a next hop address in a table that is read ends it all by an exception |
| RouteSwitcher.Vpc.Failover | yc-route-switcher-v2/route-switcher/route-switcher-function/main.py:232-255 | a PATCH replaces one table, or is lost |
| RouteSwitcher.CheckRouterStatuses | yc-route-switcher-v2/route-switcher/route-switcher-function/main.py:31-210 | a tick with all its early exits does to cloud and bucket what the tick function says |
| RouteSwitcher.Handler | yc-route-switcher-v2/route-switcher/route-switcher-function/main.py:258-266 | the same for the handler, which gives up if the configuration cannot be read |
| RouteTables.PassMeaning | yc-route-switcher-v2/route-switcher/route-switcher-function/main.py:145-180 | route by route what a pass does, the managed prefixes it sees, and that nothing recorded is changed |
| RouteTables.NewRecords | yc-route-switcher-v2/route-switcher/route-switcher-function/main.py:172-180 | newly recorded are exactly the prefixes with a route on a healthy hop and without a record; the record is the next hop of the first such route; and the configuration counts as changed if and only if there is one |
| RouteTables.PassGoesHome | yc-route-switcher-v2/route-switcher/route-switcher-function/main.py:161-171 | a route on a healthy hop goes to its recorded hop exactly if that is wanted and the hop is healthy, and otherwise stays |
| RouteTables.PassModifies | yc-route-switcher-v2/route-switcher/route-switcher-function/main.py:152-171 | a table counts as modified if and only if a route was movable or ends elsewhere |
| RouteTables.TickSafety | yc-route-switcher-v2/route-switcher/route-switcher-function/main.py:145-184 | a PATCHed list is the prefix-sorted permutation of the routes each switched on its own: only managed routes change, only to healthy hops, always off a failed hop with a healthy backup, else only back to the preference |
| RouteTables.SortMeaning | yc-route-switcher-v2/route-switcher/route-switcher-function/main.py:184 | the sort by prefix orders and permutes |
| RouteTables.LeqMeaning | yc-route-switcher-v2/route-switcher/route-switcher-function/main.py:184 | the order of prefixes is that of the first characters that differ, a shorter text first |
| RouteTables.SortStable | yc-route-switcher-v2/route-switcher/route-switcher-function/main.py:184 | routes of one prefix keep their order |
| RouteTables.PruningIsSound | yc-route-switcher-v2/route-switcher/route-switcher-function/main.py:186-192 | comparing sizes is sound: with all managed routes on healthy hops the keys are exactly the managed prefixes; otherwise a subset or equal in number |
| RouteTables.RecordSurvives | yc-route-switcher-v2/route-switcher/route-switcher-function/main.py:186-192 | a recorded prefix survives a tick exactly if it is managed at that moment or the sizes agree |
| RouteTables.TickRecords | yc-route-switcher-v2/route-switcher/route-switcher-function/main.py:161-192 | the prefixes recorded after a tick: those before with the new ones, without the unmanaged ones if the sizes differ |
| RouteTables.LostPatchIsRetried | yc-route-switcher-v2/route-switcher/route-switcher-function/main.py:182-210 | a tick whose PATCH is lost, then a successful one, leave what the successful one would have left alone |
| RouteTables.FirstTick | yc-route-switcher-v2/route-switcher/route-switcher-function/main.py:152-158 | after one tick no route is on a failed hop with a healthy backup |
| RouteTables.SecondTick | yc-route-switcher-v2/route-switcher/route-switcher-function/main.py:161-180 | the next tick records every route on a healthy hop and brings it home if it should be |
| RouteTables.TwoTicksSuffice | yc-route-switcher-v2/route-switcher/route-switcher-function/main.py:147-192 | a table and its preferences are at a fixpoint after two ticks from any state |
| RouteRuns.HopsSplitPeers | yc-route-switcher-v2/route-switcher/route-switcher-function/main.py:71-110 | with distinct own addresses no hop is both healthy and failed; with all routers listed the two maps are together all pairs |
| RouteRuns.HopsMeaning | yc-route-switcher-v2/route-switcher/route-switcher-function/main.py:71-110 | an address is a healthy next hop if and only if a router with the status HEALTHY has it with a backup, a failed one if and only if a router listed with any other status does; its backup is one such pair |
| RouteRuns.ProceedsDomain | yc-route-switcher-v2/route-switcher/route-switcher-function/main.py:37-123 | a tick proceeds if and only if at least two targets are listed, the last report of one is HEALTHY, and routers and tables are configured |
| RouteRuns.NothingHappens | yc-route-switcher-v2/route-switcher/route-switcher-function/main.py:44-62 | with fewer than two targets or none HEALTHY nothing changes |
| RouteRuns.GatewaysMatter | yc-route-switcher-v2/route-switcher/route-switcher-function/main.py:147-149 | a route without a next hop address in a configured table that is read keeps everything as it is; anywhere else it does not matter |
| RouteRuns.TableAfter | yc-route-switcher-v2/route-switcher/route-switcher-function/main.py:198-205 | each table ends as its own PATCH left it |
| RouteRuns.LeftAlone | yc-route-switcher-v2/route-switcher/route-switcher-function/main.py:127-205 | a table that cannot be read or has no routes is left alone, and so are its preferences; one whose PATCH is lost keeps its routes |
| RouteRuns.HeldOneTick | yc-route-switcher-v2/route-switcher/route-switcher-function/main.py:127-210 | one tick keeps a recorded preference and keeps its route on the preferred hop or its backup |
| RouteRuns.PreferencesAreKept | yc-route-switcher-v2/route-switcher/route-switcher-function/main.py:127-210 | over every run with any health and any GET, PATCH, read and store failures the record stays and the live next hop is the preferred one or its backup |
| RouteRuns.Converges | yc-route-switcher-v2/route-switcher/route-switcher-function/main.py:147-210 | with fixed health and successful calls the whole world is at rest after two ticks, for any number of routers and either back_to_primary |
| RouteRuns.FailoverHappens | yc-route-switcher-v2/route-switcher/route-switcher-function/main.py:143-205 | when every call succeeds one tick takes all routes off the failed next hops if and only if none was on one or no table that is read has a route without a next hop address |
| RouteRuns.RetryAfterLoss | yc-route-switcher-v2/route-switcher/route-switcher-function/main.py:182-210 | the retry law for a tick of the whole world, whether or not the lost tick stored its configuration |
| RouteRuns.PatchOrder | yc-route-switcher-v2/route-switcher/route-switcher-function/main.py:198-205 | the parallel PATCHes of distinct tables give one result in every order |
| RouteRuns.ChangedDomain | yc-route-switcher-v2/route-switcher/route-switcher-function/main.py:172-192 | a table counts as a change of the configuration if and only if it is read and a prefix is recorded anew or recorded and managed prefixes differ in number |
| RouteRuns.StoreAndRead | yc-route-switcher-v2/route-switcher/route-switcher-function/main.py:207-210 | a configuration that cannot be stored stays as it was while the tables are switched all the same |
| RouteRuns.TickPatchesDistinct | yc-route-switcher-v2/route-switcher/route-switcher-function/main.py:182-184 | a tick has at most one PATCH for each table |
| RouteRest.RestDomain | yc-route-switcher-v2/route-switcher/route-switcher-function/main.py:147-192 | with the health fixed every table with every record comes to rest if and only if the backups of failed addresses make no ring and, with back_to_primary, no detour; and then within 2n + 2 ticks for n failed addresses |
| RouteRest.NoRingEnds | yc-route-switcher-v2/route-switcher/route-switcher-function/main.py:152-156 | without a ring a route follows at most as many backups as there are failed addresses |
| RouteRest.DetourNeverRests | yc-route-switcher-v2/route-switcher/route-switcher-function/main.py:161-171 | a route recorded for an address that is healthy and failed, and from which the backups lead to one that is healthy only, moves for ever |
| RouteRest.DisjointRests | yc-route-switcher-v2/route-switcher/route-switcher-function/main.py:71-110 | without an address that is healthy and failed at once there is neither ring nor detour |
| RouteRest.SharedAddressesOscillate | yc-route-switcher-v2/route-switcher/route-switcher-function/main.py:71-184 | a world that never rests: two routers of different health with the same two addresses |
| RouteRest.UnlistedRouterIsForgotten | yc-route-switcher-v2/route-switcher/route-switcher-function/main.py:71-192 | a tick that loses a preference: one of two routers is missing from a target list of two |
| RouteRest.GatewayStopsAll | yc-route-switcher-v2/route-switcher/route-switcher-function/main.py:143-184 | a world of two tables in which a gateway route in the one keeps the other on a failed next hop |
| VpnFailover.Vpc.Patch | yc-route-switcher/examples/strongswan-vpn/function/main.py:75-78 | one accepted request re-points one subnet |
| VpnFailover.Vpc.Failover | yc-route-switcher/examples/strongswan-vpn/function/main.py:65-80 | every subnet is detached and attached; a refused request ends it there |
| VpnFailover.ApplyReport | yc-route-switcher/examples/strongswan-vpn/function/main.py:38-40 | statuses are taken over in order; an unknown address is an exception |
| VpnFailover.ReportMeaning | yc-route-switcher/examples/strongswan-vpn/function/main.py:39-40 | an exception if and only if an address belongs to no destination; otherwise each destination has the status last reported for its own address, or the one before if there is none |
| VpnFailover.TwoReports | yc-route-switcher/examples/strongswan-vpn/function/main.py:39-40 | two destinations with two reports |
| VpnFailover.CheckRouterStatuses | yc-route-switcher/examples/strongswan-vpn/function/main.py:29-63 | the loop over destinations, cut at any request or missing status |
| VpnFailover.Handler | yc-route-switcher/examples/strongswan-vpn/function/main.py:118-125 | the configuration is stored only after a run that came to its end |
| VpnFailover.CompletedRun | yc-route-switcher/examples/strongswan-vpn/function/main.py:41-63 | after a completed run from any state active is primary exactly for healthy destinations, and the subnets are in place if and only if the run switched the destination or they were in place |
| VpnFailover.CutRun | yc-route-switcher/examples/strongswan-vpn/function/main.py:41-80 | a run cut anywhere leaves the configuration and the subnets of unswitched destinations as they were |
| VpnFailover.SwitchedSoFar | yc-route-switcher/examples/strongswan-vpn/function/main.py:41-80 | and the subnets of every destination it has finished are switched |
| VpnFailover.CrashRecovery | yc-route-switcher/examples/strongswan-vpn/function/main.py:29-125 | after any number of runs cut anywhere under one report, the first completed run leaves everything consistent |
| VpnFailover.RecoveryNeedsSameHealth | yc-route-switcher/examples/strongswan-vpn/function/main.py:41-80 | if the health changes in between a subnet stays detached: concrete input |
| AsrBatch.LogKeysDistinct | yc-ai/python-tools/asr-batch/python/main.py:166 | distinct inputs never share a log key |
| AsrBatch.OutputKeysDistinct | yc-ai/python-tools/asr-batch/python/main.py:247-267 | distinct log entries never share an output key of either kind |
| AsrBatch.OutputsAreNoLogs | yc-ai/python-tools/asr-batch/python/main.py:247-267 | with separate prefixes no output is taken for a log entry |
| AsrBatch.Bucket.ProcessInputObjects | yc-ai/python-tools/asr-batch/python/main.py:144-187 | the first loop, with its skips, its refused and lost requests, and the exceptions for a response without an id and for a store error that is no ClientError |
| AsrRuns.AudioBySuffix | yc-ai/python-tools/asr-batch/python/main.py:161-164 | inputs are the keys that end with .mp3, .wav or .ogg in any case of letters |
| AsrRuns.StoredAsAnswered | yc-ai/python-tools/asr-batch/python/main.py:119-187 | an accepted job with an id is stored as it was answered, field for field, and submitted once |
| AsrRuns.InputPassEnds | yc-ai/python-tools/asr-batch/python/main.py:144-187 | a pass over the inputs is ended by an exception if and only if processing one of them alone would be |
| AsrRuns.NoIdEndsRun | yc-ai/python-tools/asr-batch/python/main.py:119-121 | a response without an id ends the run: no later input is submitted and nothing is checked |
| AsrBatch.Bucket.TextOf | yc-ai/python-tools/asr-batch/python/main.py:258-265 | the text loop accumulates the alternatives of channel 1, one a line, unless a chunk cannot be read |
| AsrRuns.TranscriptAppend | yc-ai/python-tools/asr-batch/python/main.py:258-265 | the text of chunks is the texts of the single ones in order, and nothing for other channels |
| AsrRuns.TranscriptExample | yc-ai/python-tools/asr-batch/python/main.py:258-265 | three chunks, one of another channel |
| AsrBatch.Bucket.CheckProcessingObjects | yc-ai/python-tools/asr-batch/python/main.py:190-287 | the second loop over any kind of stored object and any kind of answer, with a failure possible at each of its reads and writes, caught or not |
| AsrBatch.RunOnce | yc-ai/python-tools/asr-batch/python/main.py:291-292 | the script is the first loop and then, unless an exception ended it, the second |
| AsrRuns.CompleteMeansStored | yc-ai/python-tools/asr-batch/python/main.py:190-287 | over all runs a log entry marked complete has the result of the operation it names stored, and its text if there are chunks, even if the entry was written anew; unless a job was reported as done when it was accepted |
| AsrRuns.ProcessKeeps | yc-ai/python-tools/asr-batch/python/main.py:121-187 | one input object keeps that so if and only if it does not store the entry of a job with an id that is already done and whose outputs are missing |
| AsrRuns.DoneTooEarly | yc-ai/python-tools/asr-batch/python/main.py:121-187 | a run that ends with a complete entry and no result |
| AsrRuns.CheckCompletes | yc-ai/python-tools/asr-batch/python/main.py:247-287 | a pending entry whose operation is done is marked complete, with its outputs, by the first check without a failure |
| AsrRuns.SubmittedAndCompleted | yc-ai/python-tools/asr-batch/python/main.py:119-287 | an input accepted as running and checked when it is done ends, in one run, as a complete entry for its id with its result and text |
| AsrRuns.JobIsKept | yc-ai/python-tools/asr-batch/python/main.py:144-287 | over all runs in which its existence check answers the entry of an accepted job goes on naming it, and once complete has its own outputs, whatever fails and whatever the service says of other jobs |
| AsrRuns.AcceptedJobCompletes | yc-ai/python-tools/asr-batch/python/main.py:119-287 | after any such runs a check without a failure, when the service says done, leaves the entry complete and its outputs stored and is no exception |
| AsrRuns.CheckStopsAtFailure | yc-ai/python-tools/asr-batch/python/main.py:247-287 | what is written when a check fails part of the way: result, text and entry in this order, up to the failure |
| AsrRuns.CheckLeavesAlone | yc-ai/python-tools/asr-batch/python/main.py:225-245 | an entry that is complete or has no id, or whose operation is not done, is left as it is |
| AsrRuns.ResultReadAsEntry | yc-ai/python-tools/asr-batch/python/main.py:220-231 | a stored result under a log key is read like the entry its fields make |
| AsrRuns.SubmissionCount | yc-ai/python-tools/asr-batch/python/main.py:111-187 | the number of times an input is submitted over all runs, whatever fails: once for each opening with a failing existence check and, if the entry was missing, once for each up to the first that records; and when its log entry exists afterwards |
| AsrRuns.SubmittedAtMostOnce | yc-ai/python-tools/asr-batch/python/main.py:166-187 | while existence checks answer, an input is submitted more than once if and only if its log entry was missing and the first of at least two openings did not record |
| AsrRuns.SubmittedTwice | yc-ai/python-tools/asr-batch/python/main.py:111-121 | two runs that submit one input twice: the response has no id, or is lost |
| AsrRuns.CheckAgain | yc-ai/python-tools/asr-batch/python/main.py:250-287 | a check cut off or failed anywhere and then repeated leaves what one unbroken check leaves |
| AsrRuns.CheckWritesOwnKeys | yc-ai/python-tools/asr-batch/python/main.py:247-287 | a check writes to its entry's own three keys only |
| AsrRuns.PassEnds | yc-ai/python-tools/asr-batch/python/main.py:207-287 | a check pass is ended by an exception if and only if, as it was before the pass, a listed object is one whose reading, contents, answer or outputs are one: an error that is not caught, no JSON object, a missing id or done, an answer or chunk that cannot be read |
| AsrRuns.EntryWithoutIdBlocks | yc-ai/python-tools/asr-batch/python/main.py:166-231 | an entry without an id survives all runs in which nothing replaces it and ends every later check pass that reads it |
| AsrRuns.EmptyIdBlocks | yc-ai/python-tools/asr-batch/python/main.py:121-127 | so one accepted job with an empty id ends the check passes of all later runs that read its entry, until something replaces it |
| AsrRuns.OneInputBlocked | yc-ai/python-tools/asr-batch/python/main.py:166-187 | such an entry is replaced if and only if the existence check fails and a new job with a proper id is recorded |
| AsrRuns.EmptyIdExample | yc-ai/python-tools/asr-batch/python/main.py:121-231 | a run in which an operation that is done is not completed behind such an entry |
| SttStream.SpeechKitSttStreamClient.GetActiveCall | yc-ai/yc-speechkit-hybrid/SpeechKitClient/SpeechKitSttStreamClient.cs:36-73 | reuse, or open a session, reset the counter and send the options |
| SttStream.SpeechKitSttStreamClient.TryWriteAudio | yc-ai/yc-speechkit-hybrid/SpeechKitClient/SpeechKitSttStreamClient.cs:152-170 | one attempt to write a chunk to the active session |
| SttStream.SpeechKitSttStreamClient.ListenerSpeechKitSend | yc-ai/yc-speechkit-hybrid/SpeechKitClient/SpeechKitSttStreamClient.cs:115-149 | count, rotate, write and retry once |
| SttStream.SumIn32Bits | yc-ai/yc-speechkit-hybrid/SpeechKitClient/SpeechKitSttStreamClient.cs:120 | the counter is the sum in 32-bit two's complement |
| SttStream.ChunkSent | yc-ai/yc-speechkit-hybrid/SpeechKitClient/SpeechKitSttStreamClient.cs:115-149 | one send keeps the session invariant and adds the chunk to what was received exactly if it returns normally |
| SttStream.StreamConservation | yc-ai/yc-speechkit-hybrid/SpeechKitClient/SpeechKitSttStreamClient.cs:36-170 | over any sequence the sessions together received exactly the chunks whose send returned normally, in order, each session opening with its one options message |
| SttStream.RetrySucceeds | yc-ai/yc-speechkit-hybrid/SpeechKitClient/SpeechKitSttStreamClient.cs:128-138 | whatever is wrong with the session in use, a send throws only if the retry itself fails |
| SttStream.SessionBound | yc-ai/yc-speechkit-hybrid/SpeechKitClient/SpeechKitSttStreamClient.cs:115-122 | a session's audio stays below MAX_BYTES_SENT plus its first chunk, for chunks that cannot wrap the 32-bit counter |
| SttStream.BoundDomain | yc-ai/yc-speechkit-hybrid/SpeechKitClient/SpeechKitSttStreamClient.cs:115-122 | that bound holds for all runs with chunks of up to n bytes if and only if n is at most 2^31 - MAX_BYTES_SENT |
| SttStream.LimitDomain | yc-ai/yc-speechkit-hybrid/SpeechKitClient/SpeechKitSttStreamClient.cs:48-145 | after any run that has kept all sessions below MAX_BYTES_SENT, the next chunk keeps them so if and only if it is not itself of that size and delivered, and does not join a session whose counter, lacking the first chunk, stays below the limit although its audio does not |
| SttStream.LimitExceeded | yc-ai/yc-speechkit-hybrid/SpeechKitClient/SpeechKitSttStreamClient.cs:48-51 | a run that does: two chunks of one byte less than the limit |
| SttStream.WrapEscapes | yc-ai/yc-speechkit-hybrid/SpeechKitClient/SpeechKitSttStreamClient.cs:120-122 | a third chunk that wraps the counter joins the session and breaks its bound, from a new client on |
| Whitespace.TrimFixed | yc-ai/yc-speechkit-batch-asr/SkTasksDb.cs:84 | trimming leaves exactly the trimmed strings as they are |
| Whitespace.TrimMeaning | yc-ai/yc-speechkit-batch-asr/SkTasksDb.cs:84 | trimming takes white space, all of it, off both ends and nothing else |
| TaskDb.LineRoundTrip | yc-ai/yc-speechkit-batch-asr/SkTasksDb.cs:44 | a stored line reads back as its task exactly for tasks without null, semicolon or outer white space |
| TaskDb.SkTaskDb.StoreTask | yc-ai/yc-speechkit-batch-asr/SkTasksDb.cs:35-50 | a new path is appended to the file and added to the dictionary, a known one is ignored |
| TaskDb.StoredTasks | yc-ai/yc-speechkit-batch-asr/SkTasksDb.cs:35-50 | after any sequence of stores the dictionary has exactly the given paths, each with the first task given for it |
| TaskDb.SkTaskDb.LoadTasksDbFile | yc-ai/yc-speechkit-batch-asr/SkTasksDb.cs:52-67 | all lines are split before the first is added; too many values and repeated paths are exceptions |
| TaskDb.ParseFails | yc-ai/yc-speechkit-batch-asr/SkTasksDb.cs:79-85 | the lines are refused if and only if one has more than two semicolons |
| TaskDb.AddFails | yc-ai/yc-speechkit-batch-asr/SkTasksDb.cs:64-65 | adding fails if and only if two lines have one path |
| TaskDb.ShortLines | yc-ai/yc-speechkit-batch-asr/SkTasksDb.cs:81-85 | a line with fewer values leaves the last fields empty |
| TaskDb.NullsAreEmpty | yc-ai/yc-speechkit-batch-asr/SkTasksDb.cs:44 | a null is written as nothing and read back as an empty text |
| TaskDb.OneLine | yc-ai/yc-speechkit-batch-asr/SkTasksDb.cs:60 | each of the three line breaks ends a line |
| TaskDb.FileLines | yc-ai/yc-speechkit-batch-asr/SkTasksDb.cs:60 | the file splits into the lines that were written |
| TaskDb.ReloadRebuilds | yc-ai/yc-speechkit-batch-asr/SkTasksDb.cs:35-88 | after any sequence of stores a reload meets no exception and rebuilds the dictionary if and only if every task in it is free of nulls, semicolons, outer white space and line breaks and the first path does not begin with a byte order mark |
| TaskDb.SemicolonIsLost | yc-ai/yc-speechkit-batch-asr/SkTasksDb.cs:44-88 | a stored task that does not survive a reload: its path has a semicolon |
| TtsChunker.PartsConcat | yc-ai/yc-speechkit-hybrid/SpeechKitClient/SpeechKitTtsClient.cs:47 | the parts make up the text |
| TtsChunker.PartsWellCut | yc-ai/yc-speechkit-hybrid/SpeechKitClient/SpeechKitTtsClient.cs:47 | a cut character ends every part but the last and is nowhere else |
| TtsChunker.CutOff | yc-ai/yc-speechkit-hybrid/SpeechKitClient/SpeechKitTtsClient.cs:47 | the first part ends with the first point, comma or semicolon |
| TtsChunker.SynthesizeTxtLine | yc-ai/yc-speechkit-hybrid/SpeechKitClient/SpeechKitTtsClient.cs:43-67 | the loop sends the buffers of the chunker function |
| TtsChunker.ChunkerConserves | yc-ai/yc-speechkit-hybrid/SpeechKitClient/SpeechKitTtsClient.cs:43-67 | the buffers are every non-blank part in order, each with a line break, and fit the limit unless one is a single over-long part |
| TtsChunker.ChunkerIsGreedy | yc-ai/yc-speechkit-hybrid/SpeechKitClient/SpeechKitTtsClient.cs:54-60 | a buffer is sent only when it would have reached MAX_LINE_LENGTH with the part that begins the next one |
| TtsChunker.EmptyBufferSent | yc-ai/yc-speechkit-hybrid/SpeechKitClient/SpeechKitTtsClient.cs:54-60 | an empty buffer is sent exactly when the first non-blank part is over-long, and then first and once |
| TtsChunker.LongWordSendsNothing | yc-ai/yc-speechkit-hybrid/SpeechKitClient/SpeechKitTtsClient.cs:54-60 | a text that sends an empty buffer: 160 letters |
| TtsChunker.ShortWordFits | yc-ai/yc-speechkit-hybrid/SpeechKitClient/SpeechKitTtsClient.cs:54-60 | and 159 letters do not |
| TtsChunker.UnitsOf | yc-ai/yc-speechkit-hybrid/SpeechKitClient/SpeechKitTtsClient.cs:54 | a character outside the first plane counts as two |

## Left out

- Addition.Add: whole components (seconds in whole microseconds) and any year; fractions and the years of datetime are in FractionalAddition.
- FractionalAddition.AddFractional: fractional years, with which every February of the algorithm has 28 days, and time zones are not modelled.
- Decimals.FormatRoundTrip: exact arithmetic; the 28 digits and exponent limits of the decimal context, NaN, infinities and the sign of zero are not modelled.
- Parser.ParseDateDuration: the same as Parser.ParseDuration for letters; and the date-time style is handed to an arbitrary function that stands for the arrow library.
- Parser.ParseDuration: letters are ASCII letters; another alphabetic character is refused as an unknown token where the program names a wrong designator.
- Parser.ParseTimeDuration: the same.
- SttStream.SessionBound: holds for chunks of at most 2^31 - MAX_BYTES_SENT bytes, and for no longer ones (BoundDomain). StreamConservation has no such limit.
- AsrRuns.CompleteMeansStored: assumes that a job just accepted is not reported as done (ProcessKeeps is exact about one that is), and that log and output prefixes are not prefixes of each other. A log prefix that itself ends within ".json" is not modelled.
- AsrBatch.Bucket.CheckProcessingObjects: the operations service answers for the operation that was asked for.
- RouteRuns.PreferencesAreKept: changes that operators make to route tables or configuration between ticks are not modelled.
- RouteSwitcher.Handler: the YAML of the configuration is well formed; a table or router without its keys is not modelled.
- TtsChunker.SynthesizeTxtLine: texts are Unicode characters, counted in UTF-16 units; unpaired surrogates are not modelled.
- VpnFailover.Handler: an accepted request takes effect before the next one, as the polling loop intends; a load balancer answer without target states is a run that does nothing.
- TaskDb.ReloadRebuilds: the file is written by one client at a time and starts empty.
- HTTP, gRPC, S3, YAML, JSON, tokens and logging: calls that succeed or fail.
- The mutex of the streaming client and the five-second wait for it: calls are sequential and the lock is always obtained.
- demos/dmz-fw-ha/modules/route-switcher, the same code as the route switcher; the copies of the speech clients under streaming-asr; yc-route-switcher/modules/multi-vpc-protected-network, which decides nothing.
- yc-tracker/tracker-data-import/tracker_import.py, the snapshot functions, the batching helpers and the user interfaces: input and output, or easy members.
