// process_sleep and update_timeouts of process/process.c: a sleeper is woken by
// exactly the turn it asked for, and never runs before.

module Timeouts {
  import opened Words
  import opened Options
  import opened SchedulerModel

  // p sleeps, and `left` more turns will wake it.
  ghost predicate Asleep(s: Sched, p: nat, left: nat) {
    && p in s.list && p < |s.procs| && s.current != Some(p)
    && s.procs[p].state == Sleeping && 0 < left <= WORD_SIZE && s.procs[p].timeout == left % WORD_SIZE
  }

  ghost predicate Awake(s: Sched, p: nat) {
    p in s.list && p < |s.procs| && s.procs[p].state != Sleeping
  }

  // A sleep of 0 turns lasts for 2^32, since the counter is decremented first.
  function SleepTurns(n: u32): (m: nat)
    ensures 0 < m <= WORD_SIZE && m % WORD_SIZE == n
  {
    if n == 0 then WORD_SIZE else n
  }

  lemma Countdown(left: nat)
    requires 0 < left <= WORD_SIZE
    ensures Add32(left % WORD_SIZE, WORD_SIZE - 1) == (left - 1) % WORD_SIZE
    ensures (left - 1) % WORD_SIZE == 0 <==> left == 1
  {
    if left == WORD_SIZE {
      assert left % WORD_SIZE == 0;
    } else {
      assert left % WORD_SIZE == left;
      assert (left + (WORD_SIZE - 1)) % WORD_SIZE == left - 1;
    }
  }

  // What selecting and switching may do to a process that is not eligible: give
  // it ticks.
  lemma SelectSkips(s: Sched, p: nat)
    requires Inv(s) && Select(s).Some? && p in s.list && p < |s.procs| && s.procs[p].state == Sleeping
    ensures Select(s).value.1 < |Select(s).value.0.procs|
    ensures var (u, q) := Select(s).value; var t := SwitchTo(u, q);
            && q != p && t.current == Some(q) && t.list == s.list && |t.procs| == |s.procs|
            && t.procs[p].state == Sleeping && t.procs[p].timeout == s.procs[p].timeout
  {
    SelectFacts(s);
    hide Inv, Select, Walk, GiveTicks;
  }

  lemma SelectWakes(s: Sched, p: nat)
    requires Inv(s) && Select(s).Some? && Awake(s, p)
    ensures Select(s).value.1 < |Select(s).value.0.procs|
    ensures var (u, q) := Select(s).value; Awake(SwitchTo(u, q), p)
  {
    SelectFacts(s);
    hide Inv, Select, Walk, GiveTicks;
  }

  // p has gone to sleep, and may still be the current process.
  ghost predicate Drowsy(s: Sched, p: nat, left: nat) {
    && p in s.list && p < |s.procs| && (s.current == Some(p) ==> s.procs[p].ticks == 0)
    && s.procs[p].state == Sleeping && 0 < left <= WORD_SIZE && s.procs[p].timeout == left % WORD_SIZE
  }

  lemma UpdateTimeout(s: Sched, p: nat, left: nat)
    requires Inv(s) && Drowsy(s, p, left)
    ensures var u := UpdateTimeouts(s);
            && Inv(u) && (left > 1 ==> Drowsy(u, p, left - 1))
            && (left == 1 ==>
                  Awake(u, p) && u.procs[p].state == Ready && (u.current == Some(p) ==> u.procs[p].ticks == 0))
  {
    UpdateInv(s);
    Countdown(left);
    assert UpdateTimeouts(s).procs[p] == s.procs[p].Woken();
    hide Inv, UpdateTimeouts, Add32;
  }

  lemma SelectTimeout(s: Sched, p: nat, left: nat)
    requires Inv(s) && Drowsy(s, p, left) && Select(Yield(s)).Some?
    ensures Inv(Yield(s)) && Select(Yield(s)).value.1 < |Select(Yield(s)).value.0.procs|
    ensures var (u, q) := Select(Yield(s)).value; Asleep(SwitchTo(u, q), p, left)
  {
    UpdateInv(s);
    SelectSkips(Yield(s), p);
    hide Inv, Select;
  }

  lemma SelectReady(s: Sched, p: nat)
    requires Inv(s) && Awake(s, p) && Select(Yield(s)).Some?
    ensures Inv(Yield(s)) && Select(Yield(s)).value.1 < |Select(Yield(s)).value.0.procs|
    ensures var (u, q) := Select(Yield(s)).value; Awake(SwitchTo(u, q), p)
  {
    UpdateInv(s);
    SelectWakes(Yield(s), p);
    hide Inv, Select;
  }

  lemma KeepTimeout(s: Sched, p: nat, left: nat)
    requires Inv(s) && KeepsCurrent(s)
    ensures var t := SetProc(s, s.current.value, s.procs[s.current.value].Charged());
            (Drowsy(s, p, left) ==> Asleep(t, p, left)) && (Awake(s, p) ==> Awake(t, p))
  {
  }

  // One turn: the last one wakes p, any other brings it one closer, and selects
  // somebody else.
  lemma TurnTimeout(s: Sched, p: nat, left: nat)
    requires Inv(s) && Enabled(s) && Schedule(s).Next? && Drowsy(s, p, left)
    ensures left == 1 ==> Awake(Schedule(s).s, p)
    ensures left > 1 ==> Asleep(Schedule(s).s, p, left - 1)
  {
    var u := UpdateTimeouts(s);
    UpdateTimeout(s, p, left);
    hide UpdateTimeouts;
    if KeepsCurrent(u) {
      KeepTimeout(u, p, left - 1);
    } else if left == 1 {
      SelectReady(u, p);
    } else {
      SelectTimeout(u, p, left - 1);
    }
    hide Inv, Awake, Asleep, Drowsy, Yield, Select, SwitchTo;
  }

  lemma BeforeAsleep(s: Sched, e: Event, p: nat, left: nat)
    requires Inv(s) && Possible(s, e) && Asleep(s, p, left)
    ensures Asleep(Before(s, e), p, left)
  {
    if e.End? {
      WithoutHas(s.list, s.current.value);
    }
  }

  // What any event does to a process that sleeps.
  lemma StepAsleep(s: Sched, e: Event, p: nat, left: nat)
    requires Inv(s) && Possible(s, e) && Step(s, e).Next? && Asleep(s, p, left)
    ensures var t := Step(s, e).s;
            if !Turn(s, e) then Asleep(t, p, left)
            else if left == 1 then Awake(t, p)
            else Asleep(t, p, left - 1)
  {
    BeforeAsleep(s, e, p, left);
    BeforeInv(s, e);
    var b := Before(s, e);
    assert CallsSchedule(e) ==> Enabled(b) == Enabled(s);
    if CallsSchedule(e) && Enabled(b) {
      assert Drowsy(b, p, left) by { hide Before, Inv; }
      TurnTimeout(b, p, left);
    }
    hide Inv, Before, Asleep, Awake;
  }

  lemma SleepStarts(s: Sched, n: u32)
    requires Inv(s) && Enabled(s) && s.current.Some? && s.current.value in s.list && Step(s, Sleep(n)).Next?
    ensures var t := Step(s, Sleep(n)).s;
            if SleepTurns(n) == 1 then Awake(t, s.current.value) else Asleep(t, s.current.value, SleepTurns(n) - 1)
  {
    BeforeInv(s, Sleep(n));
    var b := Before(s, Sleep(n));
    assert Enabled(b) && Drowsy(b, s.current.value, SleepTurns(n)) by { hide Inv; }
    TurnTimeout(b, s.current.value, SleepTurns(n));
  }

  lemma SelectRuns(s: Sched)
    requires Inv(s) && Select(s).Some?
    ensures Select(s).value.1 < |Select(s).value.0.procs|
    ensures var (u, q) := Select(s).value; SwitchTo(u, q).current == Some(q) && SwitchTo(u, q).procs[q].state == Running
  {
    SelectFacts(s);
    hide Inv, Select, Walk, GiveTicks;
  }

  // process_sleep returns to a process that is marked sleeping exactly when
  // preemption is disabled: schedule then does nothing.
  lemma SleepReturns(s: Sched, n: u32)
    requires Inv(s) && s.current.Some? && Step(s, Sleep(n)).Next?
    ensures var t := Step(s, Sleep(n)).s;
            && s.current.value < |t.procs|
            && (t.current == s.current && t.procs[s.current.value].state == Sleeping <==> !s.preempt || s.count == 0)
  {
    BeforeInv(s, Sleep(n));
    var b := Before(s, Sleep(n));
    assert Enabled(b) == Enabled(s) && b.current == s.current && b.procs[s.current.value].ticks == 0;
    if Enabled(b) {
      UpdateInv(b);
      var u := UpdateTimeouts(b);
      assert u.procs[s.current.value].ticks == 0 && !KeepsCurrent(u);
      SelectRuns(Yield(u));
      SelectFacts(Yield(u));
      hide Inv, Select, UpdateTimeouts, Before;
    }
  }

  lemma {:induction false} SleepRun(s: Sched, es: seq<Event>, p: nat, left: nat)
    requires Inv(s) && Legal(s, es) && Run(s, es).Next? && Asleep(s, p, left) && Turns(s, es) < left
    ensures Asleep(Run(s, es).s, p, left - Turns(s, es))
    decreases |es|
  {
    hide Inv, Step, Possible, Turn, Asleep, Awake, Run, Turns, Legal;
    if es == [] {
      RunNone(s);
    } else {
      assert es == [es[0]] + es[1..];
      RunFirst(s, es[0], es[1..]);
      StepAsleep(s, es[0], p, left);
      SleepRun(Step(s, es[0]).s, es[1..], p, left - Count(s, es[0]));
    }
  }

  // ----- With preemption disabled -----

  // What any event does to a process that has gone to sleep, even if it is still the
  // current one, unless it sleeps again or ends.
  lemma StepDrowsy(s: Sched, e: Event, p: nat, left: nat)
    requires Inv(s) && Possible(s, e) && Step(s, e).Next? && Drowsy(s, p, left) && !Retracts(s, e, p)
    ensures var t := Step(s, e).s;
            if !Turn(s, e) then Drowsy(t, p, left)
            else if left == 1 then Awake(t, p)
            else Asleep(t, p, left - 1)
  {
    BeforeInv(s, e);
    var b := Before(s, e);
    BeforeDrowsy(s, e, p, left);
    assert CallsSchedule(e) ==> Enabled(b) == Enabled(s);
    if CallsSchedule(e) && Enabled(b) {
      hide Before;
      TurnTimeout(b, p, left);
    }
    hide Inv, Before, Asleep, Awake, Drowsy;
  }

  lemma BeforeDrowsy(s: Sched, e: Event, p: nat, left: nat)
    requires Inv(s) && Possible(s, e) && Drowsy(s, p, left) && !Retracts(s, e, p)
    ensures Drowsy(Before(s, e), p, left)
  {
    if e.End? {
      WithoutHas(s.list, s.current.value);
    }
  }

  // Process p, still current, calls process_sleep again or ends.
  predicate Retracts(s: Sched, e: Event, p: nat) {
    s.current == Some(p) && (e.Sleep? || e.End?)
  }

  ghost predicate Settled(s: Sched, es: seq<Event>, p: nat)
    requires Inv(s) && Legal(s, es)
    decreases |es|
  {
    hide Inv, Schedule, Before;
    es == [] ||
    (!Retracts(s, es[0], p) && (Step(s, es[0]).Next? ==> (StepInv(s, es[0]); Settled(Step(s, es[0]).s, es[1..], p))))
  }

  lemma {:induction false} SettledAppend(s: Sched, es: seq<Event>, e: Event, p: nat)
    requires Inv(s) && Legal(s, es + [e]) && Legal(s, es) && Run(s, es).Next? && Settled(s, es + [e], p)
    ensures Settled(s, es, p) && !Retracts(Run(s, es).s, e, p)
    decreases |es|
  {
    hide Step, Inv, Possible, Turn, Retracts;
    if es == [] {
      assert es + [e] == [e];
    } else {
      assert (es + [e])[0] == es[0] && (es + [e])[1..] == es[1..] + [e];
      StepInv(s, es[0]);
      SettledAppend(Step(s, es[0]).s, es[1..], e, p);
    }
  }

  lemma {:induction false} DrowsyRun(s: Sched, es: seq<Event>, p: nat, left: nat)
    requires Inv(s) && Legal(s, es) && Run(s, es).Next? && Drowsy(s, p, left) && Turns(s, es) < left
    requires Settled(s, es, p)
    ensures Drowsy(Run(s, es).s, p, left - Turns(s, es))
    ensures Turns(s, es) > 0 ==> Asleep(Run(s, es).s, p, left - Turns(s, es))
    decreases |es|
  {
    hide Inv, Step, Possible, Turn, Run, Turns, Legal, Retracts;
    if es == [] {
      RunNone(s);
    } else {
      assert es == [es[0]] + es[1..];
      RunFirst(s, es[0], es[1..]);
      StepDrowsy(s, es[0], p, left);
      var t := Step(s, es[0]).s;
      if Turn(s, es[0]) {
        SleepRun(t, es[1..], p, left - 1);
      } else {
        DrowsyRun(t, es[1..], p, left);
      }
      hide Settled;
    }
  }

  // ----- The call -----

  lemma SleepDrowses(s: Sched, n: u32)
    requires Inv(s) && !Enabled(s) && s.current.Some? && s.current.value in s.list && Step(s, Sleep(n)).Next?
    ensures Drowsy(Step(s, Sleep(n)).s, s.current.value, SleepTurns(n)) && !Turn(s, Sleep(n))
  {
    hide SleepTurns;
  }

  // The process sleeps as it asked: preemption is enabled, or at least it does not
  // sleep again or end before the scheduler gets to run.
  ghost predicate Sleeps(s: Sched, n: u32, es: seq<Event>)
    requires Inv(s) && s.current.Some? && Legal(s, [Sleep(n)] + es) && Run(s, [Sleep(n)] + es).Next?
  {
    RunFirst(s, Sleep(n), es);
    s.current.value in s.list && (Enabled(s) || Settled(Step(s, Sleep(n)).s, es, s.current.value))
  }

  // A process that calls process_sleep(n) sleeps as long as fewer than n turns have
  // passed, the one inside its own process_expire included, and from the first of
  // them on it is not selected.
  lemma SleepsThrough(s: Sched, n: u32, es: seq<Event>)
    requires Inv(s) && s.current.Some? && Legal(s, [Sleep(n)] + es) && Run(s, [Sleep(n)] + es).Next?
    requires Sleeps(s, n, es) && Turns(s, [Sleep(n)] + es) < SleepTurns(n)
    ensures var z, left := Run(s, [Sleep(n)] + es).s, SleepTurns(n) - Turns(s, [Sleep(n)] + es);
            && Drowsy(z, s.current.value, left)
            && (Turns(s, [Sleep(n)] + es) > 0 ==> Asleep(z, s.current.value, left))
  {
    hide Legal, Run, Turns, Inv, Step, Awake, SleepTurns, Settled;
    var p := s.current.value;
    RunFirst(s, Sleep(n), es);
    if Enabled(s) {
      SleepStarts(s, n);
      assert Count(s, Sleep(n)) == 1;
      SleepRun(Step(s, Sleep(n)).s, es, p, SleepTurns(n) - 1);
    } else {
      SleepDrowses(s, n);
      assert Count(s, Sleep(n)) == 0;
      DrowsyRun(Step(s, Sleep(n)).s, es, p, SleepTurns(n));
    }
  }

  lemma AsleepAway(s: Sched, p: nat, left: nat)
    requires Asleep(s, p, left)
    ensures forall e :: !Retracts(s, e, p)
  {
  }

  // And the n-th turn wakes it.
  lemma WakesOnTime(s: Sched, n: u32, es: seq<Event>, e: Event)
    requires Inv(s) && s.current.Some? && Legal(s, [Sleep(n)] + es) && Run(s, [Sleep(n)] + es).Next?
    requires Legal(s, [Sleep(n)] + (es + [e])) && Run(s, [Sleep(n)] + (es + [e])).Next? && Sleeps(s, n, es + [e])
    requires Turns(s, [Sleep(n)] + es) < SleepTurns(n) == Turns(s, [Sleep(n)] + (es + [e]))
    ensures Awake(Run(s, [Sleep(n)] + (es + [e])).s, s.current.value)
  {
    hide Inv, Run, Turns, Step, SleepTurns, Awake, Asleep, Legal, Drowsy, Settled, Retracts, Possible;
    var all, p := [Sleep(n)] + es, s.current.value;
    var left := SleepTurns(n) - Turns(s, all);
    assert all + [e] == [Sleep(n)] + (es + [e]);
    RunFirst(s, Sleep(n), es);
    RunFirst(s, Sleep(n), es + [e]);
    if !Enabled(s) {
      SettledAppend(Step(s, Sleep(n)).s, es, e, p);
    }
    SleepsThrough(s, n, es);
    RunAppend(s, all, e);
    if Enabled(s) {
      assert Count(s, Sleep(n)) == 1;
      AsleepAway(Run(s, all).s, p, left);
    }
    StepDrowsy(Run(s, all).s, e, p, left);
  }
}
