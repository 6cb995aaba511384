/**
 * The schedule parser.  A schedule is a text of lines; empty lines and lines
 * starting with `/` are skipped, and every other line reads
 * `text:seconds`, `text:minutes:seconds` or `text:hours:minutes:seconds`,
 * optionally ending in `N` for a reminder that fires only once.  Only the
 * decimal digits of each number field count.  The original program panics on
 * a number field without digits and on a number or an interval too large for
 * 32 bits; here those panics are the `Err` results.
 */
module Parser {
  import opened Wrappers
  import opened RustStr
  import opened Reminders

  /** The two ways `str::parse::<u32>` fails on a string of digits. */
  datatype IntErrorKind = Empty | PosOverflow

  /** Why a line made the program panic; `field` is the index in the `:`-split line. */
  datatype LineError = BadField(field: nat, kind: IntErrorKind) | IntervalOverflow

  /** The first panic, with the index of the line that raised it. */
  datatype ScheduleError = ScheduleError(line: nat, cause: LineError)

  // ------------------------------------------------------- number fields

  /** What `sanitise_to_u32` returns, or the panic it raises. */
  function Sanitise(s: string): Result<uint32, IntErrorKind>
  {
    var ds := Digits(s);
    if |ds| == 0 then Err(Empty)
    else if DecimalValue(ds) > U32_MAX then Err(PosOverflow)
    else Ok(DecimalValue(ds))
  }

  /**
   * `sanitise_to_u32`: keep the digits of `s`, then read them as a u32 the way
   * `parse::<u32>` does, multiplying and adding with an overflow check.
   */
  method SanitiseToU32(s: string) returns (r: Result<uint32, IntErrorKind>)
    ensures r == Sanitise(s)
  {
    var newString := "";
    for i := 0 to |s|
      invariant newString == Digits(s[..i])
    {
      assert s[..i + 1][..i] == s[..i];
      if IsDigit(s[i]) {
        newString := newString + [s[i]];
      }
    }
    assert s[..|s|] == s;
    if |newString| == 0 {
      return Err(Empty);
    }
    var value: uint32 := 0;
    for j := 0 to |newString|
      invariant value == DecimalValue(newString[..j])
    {
      assert newString[..j + 1][..j] == newString[..j];
      var next := value * 10 + DigitValue(newString[j]);
      if next > U32_MAX {
        DecimalPrefix(newString, j + 1);
        return Err(PosOverflow);
      }
      value := next;
    }
    assert newString[..|newString|] == newString;
    return Ok(value);
  }

  /** A field panics with `Empty` exactly when it holds no digit at all. */
  lemma SanitiseEmpty(s: string)
    ensures Sanitise(s) == Err(Empty) <==> forall i :: 0 <= i < |s| ==> !IsDigit(s[i])
  {
    DigitsEmpty(s);
  }

  /** Characters other than digits do not change what a field reads as. */
  lemma SanitiseIgnoresNonDigit(a: string, c: char, b: string)
    requires !IsDigit(c)
    ensures Sanitise(a + [c] + b) == Sanitise(a + b)
  {
    DigitsAppend(a + [c], b);
    DigitsAppend(a, [c]);
    DigitsAppend(a, b);
    assert Digits([c]) == Digits([c][..0]);
  }

  /**
   * A number written in decimal, with anything that is not a digit around
   * it, reads as that number, or panics with `PosOverflow` when it does not
   * fit in 32 bits.
   */
  lemma SanitiseDecimal(pre: string, n: nat, post: string)
    requires forall i :: 0 <= i < |pre| ==> !IsDigit(pre[i])
    requires forall i :: 0 <= i < |post| ==> !IsDigit(post[i])
    ensures n <= U32_MAX ==> Sanitise(pre + ToDecimal(n) + post) == Ok(n)
    ensures n > U32_MAX ==> Sanitise(pre + ToDecimal(n) + post) == Err(PosOverflow)
  {
    var ds := ToDecimal(n);
    DigitsAppend(pre + ds, post);
    DigitsAppend(pre, ds);
    DigitsEmpty(pre);
    DigitsEmpty(post);
    DigitsKeepDigitString(ds);
    assert Digits(pre + ds + post) == ds;
    DecimalRoundTrip(n);
  }

  /** Every field read in turn; the first field that fails stops the reading. */
  function SanitiseFields(fs: seq<string>): Result<seq<uint32>, (nat, IntErrorKind)>
  {
    if |fs| == 0 then Ok([])
    else
      match Sanitise(fs[0])
      case Err(kind) => Err((0, kind))
      case Ok(v) =>
        match SanitiseFields(fs[1..])
        case Err(e) => Err((e.0 + 1, e.1))
        case Ok(vs) => Ok([v] + vs)
  }

  /** The fields as base-60 digits, most significant first. */
  function Sexagesimal(vs: seq<uint32>): nat
  {
    if |vs| == 0 then 0 else Sexagesimal(vs[..|vs| - 1]) * 60 + vs[|vs| - 1]
  }

  // ------------------------------------------------------- one line

  predicate Skipped(line: string)
  {
    |line| == 0 || line[0] == '/'
  }

  /** What one line contributes: a reminder, nothing, or a panic. */
  function ParseLine(line: string): Result<Option<Reminder>, LineError>
  {
    if Skipped(line) then Ok(None)
    else ParseFields(Split(line, ':'), line[|line| - 1] != 'N')
  }

  /**
   * What the `:`-separated fields of a line that is read contribute: the
   * text and one to three number fields.  Five or more fields leave every
   * number at zero and so give nothing, without reading any field.
   */
  function ParseFields(fields: seq<string>, repeating: bool): Result<Option<Reminder>, LineError>
  {
    if |fields| < 2 || |fields| > 4 then Ok(None)
    else
      match SanitiseFields(fields[1..])
      case Err(e) => Err(BadField(e.0 + 1, e.1))
      case Ok(vs) => Outcome(fields[0], repeating, Sexagesimal(vs))
  }

  /**
   * What a line with this text, this kind and this interval contributes: a
   * reminder only for a positive interval, and a panic when the interval
   * does not fit in 32 bits.
   */
  function Outcome(text: string, repeating: bool, every: nat): Result<Option<Reminder>, LineError>
  {
    if every > U32_MAX then Err(IntervalOverflow)
    else if every == 0 then Ok(None)
    else Ok(Some(Reminder(text, repeating, false, every, every)))
  }

  // ------------------------------------------------------- the whole schedule

  /** The reminders of the lines, in line order, or the first panic. */
  function ParseLines(lines: seq<string>): Result<seq<Reminder>, ScheduleError>
  {
    if |lines| == 0 then Ok([])
    else
      var n := |lines| - 1;
      match ParseLines(lines[..n])
      case Err(e) => Err(e)
      case Ok(rs) =>
        match ParseLine(lines[n])
        case Err(cause) => Err(ScheduleError(n, cause))
        case Ok(None) => Ok(rs)
        case Ok(Some(r)) => Ok(rs + [r])
  }

  function ParseSchedule(contents: string): Result<seq<Reminder>, ScheduleError>
  {
    ParseLines(Lines(contents))
  }

  /**
   * The body of `read_from_file`'s loop for one line: the reminder the line
   * pushes, if any, or the panic it raises.
   */
  method ReadLine(line: string) returns (r: Result<Option<Reminder>, LineError>)
    ensures r == ParseLine(line)
  {
    if |line| == 0 || line[0] == '/' {
      // empty and comment lines are skipped
      return Ok(None);
    }
    var lineVec := Split(line, ':');
    var lineVecLen := |lineVec|;
    if lineVecLen < 2 {
      // a line needs a duration
      return Ok(None);
    }
    var text := lineVec[0];
    var repeating := line[|line| - 1] != 'N';
    var seconds: uint32, minutes: uint32, hours: uint32 := 0, 0, 0;
    if lineVecLen == 2 {
      var s := SanitiseToU32(lineVec[1]);
      if s.Err? { BadFieldLine(lineVec, repeating, 1, s.error); return Err(BadField(1, s.error)); }
      seconds := s.value;
      assert lineVec == [text, lineVec[1]];
      SecondsLine(text, lineVec[1], seconds, repeating);
    } else if lineVecLen == 3 {
      var m := SanitiseToU32(lineVec[1]);
      if m.Err? { BadFieldLine(lineVec, repeating, 1, m.error); return Err(BadField(1, m.error)); }
      var s := SanitiseToU32(lineVec[2]);
      if s.Err? { BadFieldLine(lineVec, repeating, 2, s.error); return Err(BadField(2, s.error)); }
      minutes, seconds := m.value, s.value;
      assert lineVec == [text, lineVec[1], lineVec[2]];
      MinutesSecondsLine(text, lineVec[1], lineVec[2], minutes, seconds, repeating);
    } else if lineVecLen == 4 {
      var h := SanitiseToU32(lineVec[1]);
      if h.Err? { BadFieldLine(lineVec, repeating, 1, h.error); return Err(BadField(1, h.error)); }
      var m := SanitiseToU32(lineVec[2]);
      if m.Err? { BadFieldLine(lineVec, repeating, 2, m.error); return Err(BadField(2, m.error)); }
      var s := SanitiseToU32(lineVec[3]);
      if s.Err? { BadFieldLine(lineVec, repeating, 3, s.error); return Err(BadField(3, s.error)); }
      hours, minutes, seconds := h.value, m.value, s.value;
      assert lineVec == [text, lineVec[1], lineVec[2], lineVec[3]];
      HoursMinutesSecondsLine(text, lineVec[1], lineVec[2], lineVec[3], hours, minutes, seconds, repeating);
    }
    // u32 arithmetic with overflow checks: every term is non-negative, so
    // some step overflows exactly when the total does
    var total: int := seconds as int + minutes as int * 60 + hours as int * 60 * 60;
    assert ParseLine(line) == Outcome(text, repeating, total);
    if total > U32_MAX {
      return Err(IntervalOverflow);
    }
    var every: uint32 := total;
    if every > 0 {
      return Ok(Some(Reminder(text, repeating, false, every, every)));
    }
    return Ok(None);
  }

  /**
   * `read_from_file`, with the text of the schedule file passed in: every
   * line in turn, each reminder with a positive interval pushed in order.
   */
  method ReadSchedule(contents: string) returns (result: Result<seq<Reminder>, ScheduleError>)
    ensures result == ParseSchedule(contents)
  {
    var reminders: seq<Reminder> := [];
    var schedules := Lines(contents);
    for n := 0 to |schedules|
      invariant ParseLines(schedules[..n]) == Ok(reminders)
    {
      assert schedules[..n + 1][..n] == schedules[..n];
      var outcome := ReadLine(schedules[n]);
      match outcome
      case Err(cause) =>
        ErrPersists(schedules, n + 1);
        return Err(ScheduleError(n, cause));
      case Ok(None) =>
      case Ok(Some(reminder)) =>
        reminders := reminders + [reminder];
    }
    assert schedules[..|schedules|] == schedules;
    return Ok(reminders);
  }

  // ------------------------------------------------------- helper lemmas

  /** Reading the fields succeeds exactly when every field reads, and stops at the first that does not. */
  lemma {:induction false} SanitiseFieldsSpec(fs: seq<string>)
    ensures SanitiseFields(fs).Ok? <==> forall j :: 0 <= j < |fs| ==> Sanitise(fs[j]).Ok?
    ensures SanitiseFields(fs).Ok? ==>
      |SanitiseFields(fs).value| == |fs| &&
      forall j :: 0 <= j < |fs| ==> SanitiseFields(fs).value[j] == Sanitise(fs[j]).value
    ensures SanitiseFields(fs).Err? ==>
      var e := SanitiseFields(fs).error;
      e.0 < |fs| && Sanitise(fs[e.0]) == Err(e.1) &&
      forall j :: 0 <= j < e.0 ==> Sanitise(fs[j]).Ok?
  {
    if |fs| > 0 {
      SanitiseFieldsSpec(fs[1..]);
      assert forall j :: 1 <= j < |fs| ==> fs[1..][j - 1] == fs[j];
    }
  }

  /** Fields that all read give exactly their readings. */
  lemma {:induction false} SanitiseFieldsValues(fs: seq<string>, vs: seq<uint32>)
    requires |fs| == |vs| && forall j :: 0 <= j < |fs| ==> Sanitise(fs[j]) == Ok(vs[j])
    ensures SanitiseFields(fs) == Ok(vs)
  {
    if |fs| > 0 {
      SanitiseFieldsValues(fs[1..], vs[1..]);
      assert [vs[0]] + vs[1..] == vs;
    }
  }

  /** One to three fields are seconds, minutes and seconds, or hours, minutes and seconds. */
  lemma SexagesimalPlaces(vs: seq<uint32>)
    ensures |vs| == 1 ==> Sexagesimal(vs) == vs[0]
    ensures |vs| == 2 ==> Sexagesimal(vs) == 60 * (vs[0] as int) + vs[1]
    ensures |vs| == 3 ==> Sexagesimal(vs) == 3600 * (vs[0] as int) + 60 * (vs[1] as int) + vs[2]
  {
  }

  /** A panic on a line ends the reading: later lines are never looked at. */
  lemma {:induction false} ErrPersists(lines: seq<string>, n: nat)
    requires n <= |lines| && ParseLines(lines[..n]).Err?
    ensures ParseLines(lines) == ParseLines(lines[..n])
    decreases |lines| - n
  {
    if n < |lines| {
      var m := |lines| - 1;
      assert lines[..m][..n] == lines[..n];
      ErrPersists(lines[..m], n);
    } else {
      assert lines[..n] == lines;
    }
  }

  // ------------------------------------------------------- properties of one line

  /** Empty lines and comment lines give no reminder. */
  lemma SkippedLineIgnored(line: string)
    requires |line| == 0 || line[0] == '/'
    ensures ParseLine(line) == Ok(None)
  {
  }

  /** A line without a `:` has no duration and gives no reminder. */
  lemma NoDurationIgnored(line: string)
    requires ':' !in line
    ensures ParseLine(line) == Ok(None)
  {
  }

  /** Five or more fields leave the interval at zero: no reminder, and no field is read. */
  lemma TooManyFieldsIgnored(line: string)
    requires |Split(line, ':')| >= 5
    ensures ParseLine(line) == Ok(None)
  {
  }

  /** The text of a reminder is exactly the part of its line before the first `:`. */
  lemma ParsedText(line: string, r: Reminder)
    requires ParseLine(line) == Ok(Some(r))
    ensures r.text <= line && ':' !in r.text
    ensures |r.text| < |line| && line[|r.text|] == ':'
  {
  }

  /** A reminder repeats unless its line ends in `N`. */
  lemma ParsedRepeating(line: string, r: Reminder)
    requires ParseLine(line) == Ok(Some(r))
    ensures |line| > 0 && (r.repeating <==> line[|line| - 1] != 'N')
  {
  }

  /** A reminder read from a line has a positive interval, is enabled, and is first due one interval after the start. */
  lemma ParsedFresh(line: string, r: Reminder)
    requires ParseLine(line) == Ok(Some(r))
    ensures 0 < r.every && !r.triggered && r.durationUntil == r.every
  {
  }

  /** `text:seconds`. */
  lemma SecondsLine(text: string, sf: string, s: uint32, repeating: bool)
    requires Sanitise(sf) == Ok(s)
    ensures ParseFields([text, sf], repeating) == Outcome(text, repeating, s)
  {
    assert [text, sf][1..] == [sf];
    SanitiseFieldsValues([sf], [s]);
    SexagesimalPlaces([s]);
  }

  /** `text:minutes:seconds`. */
  lemma MinutesSecondsLine(text: string, mf: string, sf: string, m: uint32, s: uint32, repeating: bool)
    requires Sanitise(mf) == Ok(m) && Sanitise(sf) == Ok(s)
    ensures ParseFields([text, mf, sf], repeating) == Outcome(text, repeating, 60 * (m as int) + s)
  {
    assert [text, mf, sf][1..] == [mf, sf];
    SanitiseFieldsValues([mf, sf], [m, s]);
    SexagesimalPlaces([m, s]);
  }

  /** `text:hours:minutes:seconds`. */
  lemma HoursMinutesSecondsLine(text: string, hf: string, mf: string, sf: string,
                                h: uint32, m: uint32, s: uint32, repeating: bool)
    requires Sanitise(hf) == Ok(h) && Sanitise(mf) == Ok(m) && Sanitise(sf) == Ok(s)
    ensures ParseFields([text, hf, mf, sf], repeating) ==
      Outcome(text, repeating, 3600 * (h as int) + 60 * (m as int) + s)
  {
    assert [text, hf, mf, sf][1..] == [hf, mf, sf];
    SanitiseFieldsValues([hf, mf, sf], [h, m, s]);
    SexagesimalPlaces([h, m, s]);
  }

  /** The interval decides: only a positive one that fits in 32 bits gives a reminder. */
  lemma OutcomeCases(text: string, repeating: bool, every: nat)
    ensures every == 0 ==> Outcome(text, repeating, every) == Ok(None)
    ensures every > U32_MAX ==> Outcome(text, repeating, every) == Err(IntervalOverflow)
    ensures 0 < every <= U32_MAX ==>
      Outcome(text, repeating, every) == Ok(Some(Reminder(text, repeating, false, every, every)))
  {
  }

  /**
   * The fields of a line panic on field `j` exactly when there are two to
   * four of them and `j` is the first number field with no u32 reading.
   */
  lemma BadFieldLine(fields: seq<string>, repeating: bool, j: nat, kind: IntErrorKind)
    ensures ParseFields(fields, repeating) == Err(BadField(j, kind)) <==>
      2 <= |fields| <= 4 && 1 <= j < |fields| && Sanitise(fields[j]) == Err(kind) &&
      forall i :: 1 <= i < j ==> Sanitise(fields[i]).Ok?
  {
    if 2 <= |fields| <= 4 {
      var fs := fields[1..];
      SanitiseFieldsSpec(fs);
      assert forall i :: 1 <= i < |fields| ==> fs[i - 1] == fields[i];
    }
  }

  // ------------------------------------------------------- properties of the schedule

  /** Reading succeeds exactly when no line panics. */
  lemma {:induction false} ScheduleOk(lines: seq<string>)
    ensures ParseLines(lines).Ok? <==> forall i :: 0 <= i < |lines| ==> ParseLine(lines[i]).Ok?
  {
    if |lines| > 0 {
      var n := |lines| - 1;
      ScheduleOk(lines[..n]);
      assert forall i :: 0 <= i < n ==> lines[..n][i] == lines[i];
    }
  }

  /** A failed reading reports the first line that panics, and what it panicked with. */
  lemma {:induction false} ScheduleFirstError(lines: seq<string>)
    ensures ParseLines(lines).Err? ==>
      var e := ParseLines(lines).error;
      e.line < |lines| && ParseLine(lines[e.line]) == Err(e.cause) &&
      forall i :: 0 <= i < e.line ==> ParseLine(lines[i]).Ok?
  {
    if |lines| > 0 {
      var n := |lines| - 1;
      ScheduleFirstError(lines[..n]);
      ScheduleOk(lines[..n]);
      assert forall i :: 0 <= i < n ==> lines[..n][i] == lines[i];
    }
  }

  /**
   * The reminders read are those of the lines that give one, in line order:
   * `idx` gives each reminder's line, strictly increasing, and every other
   * line gives nothing.
   */
  lemma {:induction false} ScheduleOrigins(lines: seq<string>) returns (idx: seq<nat>)
    requires ParseLines(lines).Ok?
    ensures |idx| == |ParseLines(lines).value|
    ensures forall k :: 0 <= k < |idx| ==>
      idx[k] < |lines| && ParseLine(lines[idx[k]]) == Ok(Some(ParseLines(lines).value[k]))
    ensures forall k, l :: 0 <= k < l < |idx| ==> idx[k] < idx[l]
    ensures forall i :: 0 <= i < |lines| && i !in idx ==> ParseLine(lines[i]) == Ok(None)
  {
    if |lines| == 0 {
      idx := [];
    } else {
      var n := |lines| - 1;
      var front := lines[..n];
      var pre := ScheduleOrigins(front);
      var before := ParseLines(front).value;
      assert forall i :: 0 <= i < n ==> front[i] == lines[i];
      match ParseLine(lines[n]).value
      case Some(r) =>
        assert ParseLines(lines).value == before + [r];
        idx := pre + [n];
        assert forall k :: 0 <= k < |pre| ==> idx[k] == pre[k];
      case None =>
        assert ParseLines(lines).value == before;
        idx := pre;
    }
  }

  /** The reminders of two blocks of lines are those of the first block followed by those of the second. */
  lemma {:induction false} ScheduleAppend(a: seq<string>, b: seq<string>)
    requires ParseLines(a).Ok? && ParseLines(b).Ok?
    ensures ParseLines(a + b) == Ok(ParseLines(a).value + ParseLines(b).value)
  {
    if |b| == 0 {
      assert a + b == a;
      assert ParseLines(a).value + [] == ParseLines(a).value;
    } else {
      var n := |b| - 1;
      var ab := a + b;
      assert ab[..|ab| - 1] == a + b[..n];
      assert ab[|ab| - 1] == b[n];
      assert ParseLines(b[..n]).Ok? && ParseLine(b[n]).Ok?;
      ScheduleAppend(a, b[..n]);
      var ra, rb := ParseLines(a).value, ParseLines(b[..n]).value;
      assert ParseLines(a + b[..n]) == Ok(ra + rb);
      match ParseLine(b[n]).value
      case None =>
        assert ParseLines(b) == Ok(rb);
      case Some(r) =>
        assert ParseLines(b) == Ok(rb + [r]);
        assert ra + rb + [r] == ra + (rb + [r]);
    }
  }

  /**
   * A first line ended by a line feed, with or without a carriage return,
   * contributes its reminder ahead of those of the rest of the text.
   */
  lemma ScheduleCons(line: string, rest: string)
    requires '\n' !in line
    requires ParseLine(StripCr(line)).Ok? && ParseSchedule(rest).Ok?
    ensures ParseLine(StripCr(line)).value.None? ==>
      ParseSchedule(line + "\n" + rest) == ParseSchedule(rest)
    ensures ParseLine(StripCr(line)).value.Some? ==>
      ParseSchedule(line + "\n" + rest) ==
        Ok([ParseLine(StripCr(line)).value.value] + ParseSchedule(rest).value)
  {
    LinesCons(line, rest);
    assert [StripCr(line)][..0] == [];
    assert ParseLines([]) == Ok([]);
    assert ParseLines([StripCr(line)]).Ok?;
    ScheduleAppend([StripCr(line)], Lines(rest));
    match ParseLine(StripCr(line)).value
    case None =>
      assert ParseLines([StripCr(line)]) == Ok([]);
      assert [] + ParseSchedule(rest).value == ParseSchedule(rest).value;
    case Some(r) =>
      assert [] + [r] == [r];
      assert ParseLines([StripCr(line)]) == Ok([r]);
  }

  /** Every reminder read from a schedule is enabled, has a positive interval and is first due one interval after the start. */
  lemma ScheduleFresh(contents: string, i: nat)
    requires ParseSchedule(contents).Ok? && i < |ParseSchedule(contents).value|
    ensures var r := ParseSchedule(contents).value[i];
      0 < r.every && !r.triggered && r.durationUntil == r.every
  {
    var idx := ScheduleOrigins(Lines(contents));
    ParsedFresh(Lines(contents)[idx[i]], ParseSchedule(contents).value[i]);
  }

  /**
   * From the schedule through any polls: a reminder is next due one interval
   * after each alert it raised, and a one-shot reminder raises at most one.
   */
  lemma ScheduledRun(contents: string, times: seq<nat>, i: nat)
    requires ParseSchedule(contents).Ok? && i < |ParseSchedule(contents).value|
    ensures var r := ParseSchedule(contents).value[i];
      Run(ParseSchedule(contents).value, times)[i].durationUntil == r.every * (1 + FireCount(r, times)) &&
      (!r.repeating ==> FireCount(r, times) <= 1)
  {
    var rs := ParseSchedule(contents).value;
    ScheduleFresh(contents, i);
    RunElementwise(rs, times, i);
    RunAdvance(rs[i], times);
    if !rs[i].repeating {
      OneShotFiresAtMostOnce(rs[i], times);
    }
  }
}
