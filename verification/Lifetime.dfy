// From create_process to process_end (process/process.c): when a new process
// first runs, and that an ended one never runs again.

module Lifetime {
  import opened Options
  import opened SchedulerModel
  import opened Fairness

  // A new process is last in the list, ready, and can count on its first turn
  // within a quota for each listed process.
  lemma CreatedWaits(s: Sched)
    requires Inv(s)
    ensures Step(s, Create).Next?
    ensures var t := Step(s, Create).s; var p := |s.procs|;
            && t.list == s.list + [p] && p < |t.procs| && t.procs[p].Eligible() && t.current == s.current
            && Inv(t) && Waiting(t, p) && Wait(t, p) <= QUOTA * |t.list|
  {
    StepInv(s, Create);
    var t := Step(s, Create).s;
    assert t.list[|s.list|] == |s.procs|;
    WaitBound(t, |s.procs|);
    hide Inv;
  }

  lemma CreatedRuns(s: Sched, es: seq<Event>)
    requires Inv(s) && Step(s, Create).Next? && Inv(Step(s, Create).s) && Legal(Step(s, Create).s, es)
    requires Turns(Step(s, Create).s, es) > QUOTA * (|s.list| + 1)
    ensures Served(Step(s, Create).s, es, |s.procs|)
  {
    CreatedWaits(s);
    hide Inv, Step, Waiting, Wait, Legal, Turns;
    BoundedWaiting(Step(s, Create).s, es, |s.procs|);
  }

  // Not listed, and not running any more.
  ghost predicate Gone(s: Sched, p: nat) {
    p < |s.procs| && p !in s.list && s.current != Some(p)
  }

  lemma SelectGone(s: Sched, p: nat)
    requires Inv(s) && Select(s).Some? && p < |s.procs| && p !in s.list
    ensures Select(s).value.1 < |Select(s).value.0.procs|
    ensures var (u, q) := Select(s).value; Gone(SwitchTo(u, q), p)
  {
    SelectFacts(s);
    hide Inv, Select, GiveTicks;
  }

  // Unlisted processes have no ticks, so one that is still current is switched
  // away from.
  lemma TurnGone(s: Sched, p: nat)
    requires Inv(s) && Enabled(s) && Schedule(s).Next? && p < |s.procs| && p !in s.list
    ensures Gone(Schedule(s).s, p)
  {
    var u := UpdateTimeouts(s);
    UpdateInv(s);
    UpdateInv(u);
    assert p < |u.procs| && p !in u.list && u.procs[p].ticks == 0;
    hide UpdateTimeouts;
    if !KeepsCurrent(u) {
      assert p < |Yield(u).procs| && p !in Yield(u).list;
      SelectGone(Yield(u), p);
      hide Inv, Yield, Select, SwitchTo;
    }
  }

  lemma BeforeGone(s: Sched, e: Event, p: nat)
    requires Inv(s) && Possible(s, e) && Gone(s, p)
    ensures Gone(Before(s, e), p)
  {
    if e.End? {
      WithoutHas(s.list, s.current.value);
    }
  }

  lemma StepGone(s: Sched, e: Event, p: nat)
    requires Inv(s) && Possible(s, e) && Step(s, e).Next? && Gone(s, p)
    ensures Gone(Step(s, e).s, p)
  {
    BeforeInv(s, e);
    BeforeGone(s, e, p);
    hide Before;
    if CallsSchedule(e) && Enabled(Before(s, e)) {
      TurnGone(Before(s, e), p);
    }
    hide Inv;
  }

  // process_end takes the current process out of the list; it is gone exactly when
  // preemption is enabled.  Otherwise schedule returns to it at once.
  lemma EndIsFinal(s: Sched)
    requires Inv(s) && Possible(s, End) && Step(s, End).Next?
    ensures s.current.value !in Step(s, End).s.list
    ensures Gone(Step(s, End).s, s.current.value) <==> s.preempt && s.count != 0
  {
    BeforeInv(s, End);
    WithoutHas(s.list, s.current.value);
    var b := Before(s, End);
    assert Enabled(b) == Enabled(s) && s.current.value < |b.procs| && s.current.value !in b.list;
    if Enabled(s) {
      hide Before, Inv;
      TurnGone(b, s.current.value);
    }
  }

  // Whatever happens afterwards, an ended process never runs again.
  lemma {:induction false} EndedStays(s: Sched, es: seq<Event>, p: nat)
    requires Inv(s) && Legal(s, es) && Gone(s, p)
    ensures !Served(s, es, p)
    ensures Run(s, es).Next? ==> Gone(Run(s, es).s, p)
    decreases |es|
  {
    if es != [] && Step(s, es[0]).Next? {
      StepGone(s, es[0], p);
      StepInv(s, es[0]);
      hide Inv, Step;
      EndedStays(Step(s, es[0]).s, es[1..], p);
    }
  }
}
