/**
 * The reminder record and the body of the background timer loop: on every
 * poll, each reminder whose time has passed and that is not disabled raises
 * one alert with its text, moves its next firing time on by its interval, and
 * is disabled if it fires only once.
 *
 * Times are whole seconds since the program started.  The alerts a tick
 * raises are returned as the sequence of their texts, in list order.
 */
module Reminders {

  const U32_MAX: int := 0xFFFF_FFFF

  type uint32 = x: int | 0 <= x <= U32_MAX

  /**
   * `text` is Rust's `string` field, `durationUntil` its `duration_until`
   * (in whole seconds), `every` the interval in seconds.  `triggered` means
   * the reminder has been disabled.
   */
  datatype Reminder = Reminder(
    text: string,
    repeating: bool,
    triggered: bool,
    every: uint32,
    durationUntil: nat)

  /** The firing condition of the timer loop. */
  predicate Due(r: Reminder, elapsed: nat)
  {
    elapsed > r.durationUntil && !r.triggered
  }

  /** One reminder after one poll at time `elapsed`. */
  function Step(r: Reminder, elapsed: nat): Reminder
  {
    if Due(r, elapsed) then
      r.(durationUntil := r.durationUntil + r.every,
         triggered := if r.repeating then r.triggered else true)
    else r
  }

  /** The whole list after one poll. */
  function Ticked(rs: seq<Reminder>, elapsed: nat): (rs': seq<Reminder>)
    ensures |rs'| == |rs|
    ensures forall i :: 0 <= i < |rs| ==> rs'[i] == Step(rs[i], elapsed)
  {
    seq(|rs|, i requires 0 <= i < |rs| => Step(rs[i], elapsed))
  }

  /** The texts of the alerts one poll raises, in list order. */
  function Alerts(rs: seq<Reminder>, elapsed: nat): seq<string>
  {
    if |rs| == 0 then []
    else
      var last := rs[|rs| - 1];
      Alerts(rs[..|rs| - 1], elapsed) + (if Due(last, elapsed) then [last.text] else [])
  }

  /** The timer loop's body, updating the reminders in place. */
  method Tick(reminders: array<Reminder>, elapsed: nat) returns (alerts: seq<string>)
    modifies reminders
    ensures reminders[..] == Ticked(old(reminders[..]), elapsed)
    ensures alerts == Alerts(old(reminders[..]), elapsed)
  {
    alerts := [];
    for i := 0 to reminders.Length
      invariant forall j :: 0 <= j < i ==> reminders[j] == Step(old(reminders[j]), elapsed)
      invariant forall j :: i <= j < reminders.Length ==> reminders[j] == old(reminders[j])
      invariant alerts == Alerts(old(reminders[..])[..i], elapsed)
    {
      var reminder := reminders[i];
      assert old(reminders[..])[..i + 1][..i] == old(reminders[..])[..i];
      if elapsed > reminder.durationUntil && !reminder.triggered {
        alerts := alerts + [reminder.text];
        reminder := reminder.(durationUntil := reminder.durationUntil + reminder.every);
        if !reminder.repeating {
          // a one-shot reminder is disabled once it has fired
          reminder := reminder.(triggered := true);
        }
        reminders[i] := reminder;
      }
    }
    assert old(reminders[..])[..reminders.Length] == old(reminders[..]);
  }

  // ------------------------------------------------------- one poll

  /**
   * A poll never changes a reminder's text, kind or interval, never moves its
   * firing time back, leaves a reminder that is not due as it was, and moves
   * the firing time of a due one on by exactly its interval.
   */
  lemma StepFrame(r: Reminder, elapsed: nat)
    ensures Step(r, elapsed).text == r.text
    ensures Step(r, elapsed).repeating == r.repeating
    ensures Step(r, elapsed).every == r.every
    ensures Step(r, elapsed).durationUntil >= r.durationUntil
    ensures !Due(r, elapsed) ==> Step(r, elapsed) == r
    ensures Due(r, elapsed) ==> Step(r, elapsed).durationUntil == r.durationUntil + r.every
  {
  }

  /** A one-shot reminder that fires is disabled, and no later poll changes it again. */
  lemma OneShotDisabled(r: Reminder, elapsed: nat, later: nat)
    requires !r.repeating && Due(r, elapsed)
    ensures Step(r, elapsed).triggered
    ensures !Due(Step(r, elapsed), later)
    ensures Step(Step(r, elapsed), later) == Step(r, elapsed)
  {
  }

  /** A poll never touches the `triggered` flag of a repeating reminder. */
  lemma RepeatingFlagKept(r: Reminder, elapsed: nat)
    requires r.repeating
    ensures Step(r, elapsed).triggered == r.triggered
  {
  }

  /**
   * The alerts of one poll are exactly the texts of the due reminders, in list
   * order, one alert per due reminder: `idx` lists the due positions, strictly
   * increasing, and holds every due position.
   */
  lemma {:induction false} AlertOrigins(rs: seq<Reminder>, elapsed: nat) returns (idx: seq<nat>)
    ensures |idx| == |Alerts(rs, elapsed)|
    ensures forall k :: 0 <= k < |idx| ==>
      idx[k] < |rs| && Due(rs[idx[k]], elapsed) && Alerts(rs, elapsed)[k] == rs[idx[k]].text
    ensures forall k, l :: 0 <= k < l < |idx| ==> idx[k] < idx[l]
    ensures forall i :: 0 <= i < |rs| && Due(rs[i], elapsed) ==> i in idx
  {
    if |rs| == 0 {
      idx := [];
    } else {
      var n := |rs| - 1;
      var front := rs[..n];
      var pre := AlertOrigins(front, elapsed);
      assert forall i :: 0 <= i < n ==> front[i] == rs[i];
      if Due(rs[n], elapsed) {
        idx := pre + [n];
      } else {
        idx := pre;
      }
    }
  }

  /** A poll raises at most one alert per reminder. */
  lemma {:induction false} AlertsBound(rs: seq<Reminder>, elapsed: nat)
    ensures |Alerts(rs, elapsed)| <= |rs|
  {
    if |rs| > 0 {
      AlertsBound(rs[..|rs| - 1], elapsed);
    }
  }

  // ------------------------------------------------------- successive polls

  /** One reminder after polls at the times `times`, in order. */
  function RunOne(r: Reminder, times: seq<nat>): Reminder
    decreases |times|
  {
    if |times| == 0 then r else RunOne(Step(r, times[0]), times[1..])
  }

  /** How many of the polls at `times` make the reminder fire. */
  function FireCount(r: Reminder, times: seq<nat>): nat
    decreases |times|
  {
    if |times| == 0 then 0
    else (if Due(r, times[0]) then 1 else 0) + FireCount(Step(r, times[0]), times[1..])
  }

  /** The list after polls at the times `times`, in order. */
  function Run(rs: seq<Reminder>, times: seq<nat>): (rs': seq<Reminder>)
    ensures |rs'| == |rs|
    decreases |times|
  {
    if |times| == 0 then rs else Run(Ticked(rs, times[0]), times[1..])
  }

  /** Each reminder of the list evolves on its own, whatever the others do. */
  lemma {:induction false} RunElementwise(rs: seq<Reminder>, times: seq<nat>, i: nat)
    requires i < |rs|
    ensures Run(rs, times)[i] == RunOne(rs[i], times)
    decreases |times|
  {
    if |times| > 0 {
      RunElementwise(Ticked(rs, times[0]), times[1..], i);
    }
  }

  /**
   * Over any number of polls the firing time moves on by exactly the interval
   * per alert raised, and text, kind and interval stay as they were.
   */
  lemma {:induction false} RunAdvance(r: Reminder, times: seq<nat>)
    ensures RunOne(r, times).durationUntil == r.durationUntil + r.every * FireCount(r, times)
    ensures RunOne(r, times).text == r.text
    ensures RunOne(r, times).repeating == r.repeating
    ensures RunOne(r, times).every == r.every
    decreases |times|
  {
    if |times| > 0 {
      var r' := Step(r, times[0]);
      RunAdvance(r', times[1..]);
      if Due(r, times[0]) {
        calc {
          RunOne(r, times).durationUntil;
          r'.durationUntil + r.every * FireCount(r', times[1..]);
          r.durationUntil + r.every * (1 + FireCount(r', times[1..]));
        }
      }
    }
  }

  /** A disabled reminder never fires again and is never changed. */
  lemma {:induction false} DisabledStaysSilent(r: Reminder, times: seq<nat>)
    requires r.triggered
    ensures FireCount(r, times) == 0
    ensures RunOne(r, times) == r
    decreases |times|
  {
    if |times| > 0 {
      DisabledStaysSilent(r, times[1..]);
    }
  }

  /** A one-shot reminder raises at most one alert, whatever the polls. */
  lemma {:induction false} OneShotFiresAtMostOnce(r: Reminder, times: seq<nat>)
    requires !r.repeating
    ensures FireCount(r, times) <= 1
    ensures FireCount(r, times) == 1 ==> RunOne(r, times).triggered
    decreases |times|
  {
    if |times| > 0 {
      if Due(r, times[0]) {
        DisabledStaysSilent(Step(r, times[0]), times[1..]);
      } else {
        OneShotFiresAtMostOnce(r, times[1..]);
      }
    }
  }

  /** Polls never change the `triggered` flag of a repeating reminder. */
  lemma {:induction false} RepeatingNeverDisabled(r: Reminder, times: seq<nat>)
    requires r.repeating
    ensures RunOne(r, times).triggered == r.triggered
    decreases |times|
  {
    if |times| > 0 {
      RepeatingNeverDisabled(Step(r, times[0]), times[1..]);
    }
  }

  /** A reminder fires at most once per poll. */
  lemma {:induction false} FireCountBound(r: Reminder, times: seq<nat>)
    ensures FireCount(r, times) <= |times|
    decreases |times|
  {
    if |times| > 0 {
      FireCountBound(Step(r, times[0]), times[1..]);
    }
  }
}
