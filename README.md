# Reminder: schedule parser and timer tick

A desktop reminder utility reads a schedule file once at start-up and turns
each of its lines into a reminder: a text, an interval in seconds, and whether
it repeats. A background thread then polls the reminders. Each reminder whose
next firing time has passed, and that is not disabled, raises an alert window
showing its text. Its next firing time then moves on by its interval, and a
one-shot reminder is disabled.

This project models those two pieces in Dafny and proves what they do.

- `wrappers.dfy` (`Wrappers`): Rust's `Option` and `Result`.
- `rust_str.dfy` (`RustStr`): the string library behaviour the parser relies
  on. This covers `str::lines`, which splits after each line feed and drops
  one carriage return before it. It covers `str::split(':')`, `char::is_digit(10)`,
  and decimal reading. These come with their own properties: split pieces join
  back to the text, no piece holds the separator, and reading a rendered
  number gives it back.
- `reminders.dfy` (`Reminders`): the `Reminder` record and the body of the
  polling loop. `Tick` updates an `array<Reminder>` in place and returns the
  alert texts in list order. The elapsed time is a parameter. `Step`, `Ticked`
  and `Alerts` say what one poll does. `RunOne`, `Run` and `FireCount` say
  what a sequence of polls does.
- `parser.dfy` (`Parser`): `sanitise_to_u32` as the method `SanitiseToU32`,
  and the per-line loop of `read_from_file` as `ReadSchedule` and `ReadLine`.
  Each is proved equal to a specification function, `Sanitise`, `ParseSchedule`
  or `ParseLine`, and the parsing rules are lemmas about those functions.

The original program panics when a number field has no digit, when a number
does not fit in a `u32`, and when the interval `seconds + 60*minutes +
3600*hours` overflows a `u32`. Here each panic is an `Err` result. For a
line, the error names the field, using its index in the `:`-split line. For
the schedule, it names the index of the first line that panics. A panic stops
the reading, so later lines are never looked at.

Rust's field `string` is called `text` here, because `string` is a type name
in Dafny. `duration_until` is `durationUntil`, in whole seconds.

## Model

| member | source | states |
|---|---|---|
| `Reminders.Tick` | src/main.rs:231-240 | the array afterwards holds each reminder after one poll, updated in place; the alerts are the texts of the due reminders in list order |
| `Reminders.StepFrame` | src/main.rs:232-239 | a poll never changes text, kind or interval and never moves the firing time back; a reminder that is not due is unchanged; a due one moves on by exactly its interval |
| `Reminders.OneShotDisabled` | src/main.rs:232-238 | a one-shot reminder that fires is disabled, is not due at any later time, and no later poll changes it |
| `Reminders.RepeatingFlagKept` | src/main.rs:235-237 | a poll leaves the `triggered` flag of a repeating reminder as it was |
| `Reminders.AlertOrigins` | src/main.rs:231-234 | the alerts of a poll come one per due reminder, with that reminder's text, in strictly increasing list position; every due reminder raises one |
| `Reminders.AlertsBound` | src/main.rs:231-240 | a poll raises at most as many alerts as there are reminders |
| `Reminders.RunElementwise` | src/main.rs:230-240 | over any number of polls, each reminder of the list evolves on its own |
| `Reminders.RunAdvance` | src/main.rs:234 | over any polls, the firing time grows by exactly the interval per alert raised; text, kind and interval stay |
| `Reminders.DisabledStaysSilent` | src/main.rs:232 | a disabled reminder never fires again and is never changed |
| `Reminders.OneShotFiresAtMostOnce` | src/main.rs:232-238 | a one-shot reminder raises at most one alert over any polls, and is disabled once it has |
| `Reminders.RepeatingNeverDisabled` | src/main.rs:235-237 | any number of polls leave a repeating reminder's `triggered` flag unchanged |
| `Reminders.FireCountBound` | src/main.rs:231-240 | a reminder fires at most once per poll |
| `RustStr.SplitJoin` | src/parser.rs:18 | joining the pieces of `split(':')` with `:` gives back the line |
| `RustStr.SplitNoSeparator` | src/parser.rs:18 | no piece of a split holds the separator |
| `RustStr.SplitCount` | src/parser.rs:18-19 | a split has one more piece than the text has separators |
| `RustStr.SplitHead` | src/parser.rs:18-22 | the first piece is the longest prefix without the separator; it is the whole text exactly when there is one piece |
| `RustStr.LinesHaveNoLineFeed` | src/parser.rs:12 | no line produced by `lines` holds a line feed |
| `RustStr.SingleLine` | src/parser.rs:12 | a non-empty text without a line feed is one line |
| `RustStr.LinesCons` | src/parser.rs:12 | a line feed ends a line with one trailing carriage return dropped, and the rest gives the later lines |
| `RustStr.TrailingLineFeed` | src/parser.rs:12 | a final line feed adds no empty line |
| `RustStr.Digits` | src/parser.rs:62-66 | the filtered string holds digits only and is no longer than the input |
| `RustStr.DigitsAppend` | src/parser.rs:62-66 | filtering digits distributes over concatenation, so their order is kept |
| `RustStr.DigitsKeepDigitString` | src/parser.rs:62-66 | a string of digits passes the filter whole |
| `RustStr.DigitsEmpty` | src/parser.rs:62-66 | the filter leaves nothing exactly when the input has no digit |
| `RustStr.DecimalRoundTrip` | src/parser.rs:67 | reading the decimal rendering of a number gives the number |
| `RustStr.LeadingZero` | src/parser.rs:67 | a leading zero does not change the value read |
| `RustStr.DecimalBound` | src/parser.rs:67 | `k` digits read as less than 10^k |
| `RustStr.DecimalPrefix` | src/parser.rs:67 | a prefix of a digit string never reads as more than the whole, which is why the overflow check can stop early |
| `Parser.SanitiseToU32` | src/parser.rs:60-68 | the method's digit loop and checked decimal reading return exactly `Sanitise` |
| `Parser.SanitiseEmpty` | src/parser.rs:60-67 | a field fails with `Empty` exactly when it holds no digit |
| `Parser.SanitiseIgnoresNonDigit` | src/parser.rs:62-66 | removing a character that is not a digit does not change what a field reads as |
| `Parser.SanitiseDecimal` | src/parser.rs:60-67 | a decimal number with only non-digits around it reads as that number if it fits in a u32, and fails with `PosOverflow` otherwise |
| `Parser.SanitiseFieldsSpec` | src/parser.rs:27-39 | the number fields read exactly when each does, giving each field's value in order; otherwise the error is for the first field that fails |
| `Parser.SanitiseFieldsValues` | src/parser.rs:27-39 | fields that each read give exactly those readings |
| `Parser.SexagesimalPlaces` | src/parser.rs:41 | one, two or three fields are `s`, `60*m + s` or `3600*h + 60*m + s` |
| `Parser.ReadLine` | src/parser.rs:15-53 | the per-line body, with its branches on the field count and its overflow check, returns exactly `ParseLine` |
| `Parser.ReadSchedule` | src/parser.rs:8-58 | `read_from_file` over the file's text returns exactly `ParseSchedule` |
| `Parser.ErrPersists` | src/parser.rs:14-55 | once a line panics, the lines after it do not change the outcome |
| `Parser.SkippedLineIgnored` | src/parser.rs:15-16 | empty lines and lines starting with `/` give no reminder |
| `Parser.NoDurationIgnored` | src/parser.rs:18-20 | a line without `:` gives no reminder |
| `Parser.TooManyFieldsIgnored` | src/parser.rs:24-42 | five or more fields give no reminder and no panic |
| `Parser.ParsedText` | src/parser.rs:18-22 | a reminder's text is exactly the part of its line before the first `:` |
| `Parser.ParsedRepeating` | src/parser.rs:23 | a reminder repeats exactly when its line does not end in `N` |
| `Parser.ParsedFresh` | src/parser.rs:42-51 | a reminder read from a line has a positive interval, is not disabled, and is first due one interval after the start |
| `Parser.SecondsLine` | src/parser.rs:27-29 | `text:s` has interval `s` |
| `Parser.MinutesSecondsLine` | src/parser.rs:30-33 | `text:m:s` has interval `60*m + s` |
| `Parser.HoursMinutesSecondsLine` | src/parser.rs:34-38 | `text:h:m:s` has interval `3600*h + 60*m + s` |
| `Parser.OutcomeCases` | src/parser.rs:41-52 | a zero interval gives nothing, one over u32 panics, and any other gives a reminder with that interval, first due after one interval |
| `Parser.BadFieldLine` | src/parser.rs:27-39 | a line panics on field `j` exactly when it has two to four fields and `j` is its first number field with no u32 reading |
| `Parser.ScheduleOk` | src/parser.rs:14-55 | the schedule reads exactly when no line panics |
| `Parser.ScheduleFirstError` | src/parser.rs:14-55 | a failed reading names the first line that panics and what it panicked with |
| `Parser.ScheduleOrigins` | src/parser.rs:14-55 | each reminder read comes from its own line, in strictly increasing line order; every other line gives nothing |
| `Parser.ScheduleAppend` | src/parser.rs:14-45 | the reminders of two blocks of lines are those of the first block followed by those of the second |
| `Parser.ScheduleCons` | src/parser.rs:12-14 | a first line ended by `\n` or `\r\n` contributes its reminder ahead of those of the rest of the text |
| `Parser.ScheduleFresh` | src/parser.rs:42-51 | every reminder read from a schedule has a positive interval, is enabled, and is first due after one interval |
| `Parser.ScheduledRun` | src/main.rs:231-240 | after any polls, a reminder read from the schedule is next due `every * (1 + alerts raised)` seconds after the start, and a one-shot one raised at most one alert |

## Left out

- Reading `schedule.rmdr` and the `println!` of each reminder (src/parser.rs:10-11, 43) are file and console I/O. The file's text is a parameter of `ReadSchedule`.
- `Parser.ReadSchedule`: a panic is modelled as the checked-arithmetic (debug) build has it. A release build lets `seconds + minutes * 60 + hours * 60 * 60` wrap modulo 2^32 instead of panicking, and that is not modelled.
- The timer thread, its start-up delay and its 5-second sleep (src/main.rs:228-229, 241) are concurrency and wall-clock timing. Successive polls are modelled as a sequence of elapsed times (`Run`).
- `Reminders.Tick`: elapsed time is whole seconds. The original compares a `Duration` with nanosecond precision against `duration_until`, and that finer comparison is not modelled. The `Duration` addition, which could overflow only after about 584 billion years, is unbounded here.
- `event_loop_proxy.send_event` and `Theme::adaptive()` (src/main.rs:233) are a call into the windowing library and a type from code outside this model. An alert is the reminder's text appended to the returned sequence.
- `run` (src/main.rs:34-216) is GPU, window and text-rendering plumbing with floating-point layout. The `alert_windows` map holds opaque window and surface objects. src/alert.rs holds window creation, surface resizing and colour constants. None of these are modelled.
- `str::parse::<u32>` is modelled only on what `sanitise_to_u32` passes it, a string made of decimal digits. Its handling of signs and other characters is not modelled.
- The body of `read_from_file`'s loop for one line is its own method, `ReadLine`, so that each proof stays small. In the original it is written inline in the loop.
