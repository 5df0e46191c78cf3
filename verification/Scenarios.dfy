// Runs from boot (process/process.c) that show the bad cases of the scheduler do
// occur.

module Scenarios {
  import opened Words
  import opened Options
  import opened SchedulerModel
  import opened Starvation

  lemma RunFrom(s: Sched, e: Event, t: Sched, es: seq<Event>)
    requires Inv(s) && Possible(s, e) && Step(s, e) == Next(t) && Inv(t) && Legal(t, es)
    ensures Legal(s, [e] + es) && Run(s, [e] + es) == Run(t, es)
  {
    var all := [e] + es;
    assert all[0] == e && all[1..] == es;
    hide Inv, Step, Possible;
  }

  // ----- A process alone that sleeps -----

  const ALONE := Sched([Proc(Ready, QUOTA, 0, 0)], [0], None, 1, false)
  const READY := Sched([Proc(Ready, QUOTA, 0, 0)], [0], None, 1, true)
  const RUNS := Sched([Proc(Running, QUOTA - 1, 0, 1)], [0], Some(0), 1, true)

  lemma CreateStarts()
    requires Inv(BOOT)
    ensures Step(BOOT, Create) == Next(ALONE)
  {
    hide Inv, Schedule;
    assert Before(BOOT, Create).procs == ALONE.procs && Before(BOOT, Create).list == ALONE.list;
  }

  lemma PreemptStarts()
    requires Inv(ALONE)
    ensures Step(ALONE, Preempt(true)) == Next(READY)
  {
    hide Inv, Schedule;
  }

  lemma TickStarts()
    requires Inv(READY)
    ensures Step(READY, Tick) == Next(RUNS)
  {
    var u := UpdateTimeouts(READY);
    assert u.procs == READY.procs;
    assert FirstEligible(u.procs, u.list, 0) == 0;
    assert SwitchTo(u, 0).procs == RUNS.procs;
    hide Inv;
  }

  lemma SleepStops(n: u32)
    requires Inv(RUNS)
    ensures Step(RUNS, Sleep(n)) == Hung <==> n != 1
  {
    var b := Before(RUNS, Sleep(n));
    BeforeInv(RUNS, Sleep(n));
    assert b == Sched([Proc(Sleeping, 0, n, 1)], [0], Some(0), 1, true);
    assert SleepsOn(b, 0) <==> n != 1;
    assert 0 in b.list && forall p | p in b.list :: p == 0;
    hide Inv, Schedule, Before;
    HangsWhen(b);
    hide SleepsOn;
  }

  // The only process there is calls process_sleep(n): schedule never returns,
  // unless n is 1.
  lemma SleeperHangs(n: u32)
    ensures Inv(BOOT) && Legal(BOOT, [Create] + ([Preempt(true)] + ([Tick] + [Sleep(n)])))
    ensures Run(BOOT, [Create] + ([Preempt(true)] + ([Tick] + [Sleep(n)]))) == Hung <==> n != 1
  {
    hide Inv, Step, Legal, Run, BOOT, ALONE, READY;
    BootInv();
    assert Possible(RUNS, Sleep(n)) && Possible(ALONE, Preempt(true));
    CreateStarts();
    StepInv(BOOT, Create);
    PreemptStarts();
    StepInv(ALONE, Preempt(true));
    TickStarts();
    StepInv(READY, Tick);
    SleepStops(n);
    LastEvent(RUNS, Sleep(n));
    RunFrom(READY, Tick, RUNS, [Sleep(n)]);
    RunFrom(ALONE, Preempt(true), READY, [Tick] + [Sleep(n)]);
    RunFrom(BOOT, Create, ALONE, [Preempt(true)] + ([Tick] + [Sleep(n)]));
  }

  lemma LastEvent(s: Sched, e: Event)
    requires Inv(s) && Possible(s, e)
    ensures Legal(s, [e]) && Run(s, [e]) == Step(s, e)
  {
    if Step(s, e).Next? {
      StepInv(s, e);
      RunNone(Step(s, e).s);
      assert [e][1..] == [];
    }
    hide Inv, Step, Possible;
  }

  // ----- A process that has used up its ticks -----

  const PAIR := Sched([Proc(Ready, QUOTA, 0, 0), Proc(Ready, QUOTA, 0, 0)], [0, 1], None, 2, false)
  const BOTH := Sched([Proc(Ready, QUOTA, 0, 0), Proc(Ready, QUOTA, 0, 0)], [0, 1], None, 2, true)
  const FIRST := Sched([Proc(Running, QUOTA - 1, 0, 1), Proc(Ready, QUOTA, 0, 0)], [0, 1], Some(0), 2, true)
  const SECOND := Sched([Proc(Ready, 0, 0, 1), Proc(Running, QUOTA - 1, 0, 1)], [0, 1], Some(1), 2, true)

  lemma CreateSecond()
    requires Inv(ALONE)
    ensures Step(ALONE, Create) == Next(PAIR)
  {
    hide Inv, Schedule;
    assert Before(ALONE, Create).procs == PAIR.procs && Before(ALONE, Create).list == PAIR.list;
  }

  lemma PreemptSecond()
    requires Inv(PAIR)
    ensures Step(PAIR, Preempt(true)) == Next(BOTH)
  {
    hide Inv, Schedule;
  }

  lemma TickSecond()
    requires Inv(BOTH)
    ensures Step(BOTH, Tick) == Next(FIRST)
  {
    var u := UpdateTimeouts(BOTH);
    assert u.procs == BOTH.procs;
    assert FirstEligible(u.procs, u.list, 0) == 0;
    assert SwitchTo(u, 0).procs == FIRST.procs;
    hide Inv;
  }

  lemma ExpireFirst()
    requires Inv(FIRST)
    ensures Step(FIRST, Expire) == Next(SECOND)
  {
    var b := Before(FIRST, Expire);
    assert b.procs == [Proc(Running, 0, 0, 1), Proc(Ready, QUOTA, 0, 0)];
    var u := UpdateTimeouts(b);
    assert u.procs == b.procs;
    var y := Yield(u);
    assert y.procs == [Proc(Ready, 0, 0, 1), Proc(Ready, QUOTA, 0, 0)];
    assert FirstEligible(y.procs, y.list, 0) == FirstEligible(y.procs, y.list, 1) == 1;
    assert SwitchTo(y, 1).procs == SECOND.procs;
    hide Inv;
  }

  // Two processes are created, and the first one gives up its time: it is ready
  // without ticks, and from there Starves takes over.
  lemma SpentReached(n: nat)
    ensures var es := [Create] + ([Create] + ([Preempt(true)] + ([Tick] + [Expire])));
            && Inv(BOOT) && Legal(BOOT, es) && Run(BOOT, es) == Next(SECOND) && Inv(SECOND)
            && Spent(SECOND, 0) && Starved(SECOND, Flood(n), 0, n)
  {
    assert Spent(SECOND, 0) && Enabled(SECOND) && Possible(FIRST, Expire);
    assert Possible(BOOT, Create) && Possible(ALONE, Create) && Possible(PAIR, Preempt(true)) && Possible(BOTH, Tick);
    hide Inv, Step, Legal, Run, Starved, Spent, Flood, Enabled, Possible, BOOT, ALONE, PAIR, BOTH, FIRST, SECOND;
    BootInv();
    CreateStarts();
    StepInv(BOOT, Create);
    CreateSecond();
    StepInv(ALONE, Create);
    PreemptSecond();
    StepInv(PAIR, Preempt(true));
    TickSecond();
    StepInv(BOTH, Tick);
    ExpireFirst();
    StepInv(FIRST, Expire);
    Starves(SECOND, 0, n);
    LastEvent(FIRST, Expire);
    RunFrom(BOTH, Tick, FIRST, [Expire]);
    RunFrom(PAIR, Preempt(true), BOTH, [Tick] + [Expire]);
    RunFrom(ALONE, Create, PAIR, [Preempt(true)] + ([Tick] + [Expire]));
    RunFrom(BOOT, Create, ALONE, [Create] + ([Preempt(true)] + ([Tick] + [Expire])));
  }
}
