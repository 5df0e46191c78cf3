// What happens in the scheduler of process/process.c to a ready process whose
// ticks are used up: it waits for a refill, and the refill waits for everybody.

module Starvation {
  import opened Options
  import opened SchedulerModel
  import opened Fairness

  // Ready, but without ticks.
  ghost predicate Spent(s: Sched, p: nat) {
    && p in s.list && p < |s.procs| && s.procs[p].state == Ready && s.procs[p].ticks == 0 && s.current != Some(p)
  }

  // ----- With process creation it can wait forever -----

  function Flood(n: nat): seq<Event> {
    if n == 0 then [] else [Create] + ([Tick] + Flood(n - 1))
  }

  lemma CreateSpent(s: Sched, p: nat)
    requires Inv(s) && Enabled(s) && Spent(s, p)
    ensures var b := Before(s, Create);
            && Step(s, Create) == Next(b) && Inv(b) && Enabled(b) && Spent(b, p)
            && |s.procs| in b.list && |s.procs| < |b.procs| && b.procs[|s.procs|].Eligible()
  {
    BeforeInv(s, Create);
    var b := Before(s, Create);
    assert b.list[|s.list|] == |s.procs|;
    assert p in b.list by {
      var i :| 0 <= i < |s.list| && s.list[i] == p;
      assert b.list[i] == p;
    }
  }

  lemma PickOther(s: Sched, p: nat, n: nat)
    requires Inv(s) && Spent(s, p) && n in s.list && n < |s.procs| && s.procs[n].Eligible()
    ensures Select(s).Some? && Select(s).value.1 < |Select(s).value.0.procs|
    ensures var (u, q) := Select(s).value; Spent(SwitchTo(u, q), p)
  {
    WalkFacts(s);
    assert Walk(s).Some?;
    hide Inv, Walk;
    assert Select(s) == Some((s, Walk(s).value));
  }

  ghost predicate Other(s: Sched, p: nat, n: nat) {
    Spent(s, p) && n in s.list && n < |s.procs| && s.procs[n].Eligible()
  }

  // As long as somebody else can be picked, a turn leaves p where it is.
  lemma TurnSpent(s: Sched, p: nat, n: nat)
    requires Inv(s) && Enabled(s) && Other(s, p, n)
    ensures Schedule(s).Next? && Spent(Schedule(s).s, p)
  {
    var u := UpdateTimeouts(s);
    OtherKept(s, p, n);
    hide UpdateTimeouts;
    if KeepsCurrent(u) {
      hide Inv;
    } else {
      OtherKept(u, p, n);
      PickOther(Yield(u), p, n);
      hide Inv, Yield, Select, SwitchTo, Spent;
    }
  }

  lemma ScheduleGuards(s: Sched)
    requires Inv(s) && Enabled(s) && Schedule(s).Next?
    ensures Enabled(Schedule(s).s)
  {
  }

  lemma OtherKept(s: Sched, p: nat, n: nat)
    requires Inv(s) && Other(s, p, n)
    ensures Inv(UpdateTimeouts(s)) && Inv(Yield(s))
    ensures Other(UpdateTimeouts(s), p, n) && Other(Yield(s), p, n)
  {
    UpdateInv(s);
  }

  lemma FloodStep(s: Sched, p: nat)
    requires Inv(s) && Enabled(s) && Spent(s, p)
    ensures var b := Before(s, Create);
            && Step(s, Create) == Next(b) && Inv(b) && s.current != Some(p) && b.current != Some(p)
            && Turn(b, Tick) && Step(b, Tick).Next?
            && Inv(Step(b, Tick).s) && Enabled(Step(b, Tick).s) && Spent(Step(b, Tick).s, p)
  {
    CreateSpent(s, p);
    assert Other(Before(s, Create), p, |s.procs|);
    TurnSpent(Before(s, Create), p, |s.procs|);
    ScheduleGuards(Before(s, Create));
    StepInv(Before(s, Create), Tick);
  }

  // After n turns p has still not run.
  ghost predicate Starved(s: Sched, es: seq<Event>, p: nat, n: nat)
    requires Inv(s)
  {
    Legal(s, es) && Turns(s, es) == n && !Served(s, es, p)
  }

  lemma StarvedBefore(s: Sched, e: Event, es: seq<Event>, p: nat, n: nat)
    requires Inv(s) && Possible(s, e) && Step(s, e).Next? && Inv(Step(s, e).s) && s.current != Some(p)
    requires Starved(Step(s, e).s, es, p, n)
    ensures Starved(s, [e] + es, p, Count(s, e) + n)
  {
    var all := [e] + es;
    assert all[0] == e && all[1..] == es;
    hide Inv, Step, Possible, Count;
  }

  lemma FloodBefore(s: Sched, t: Sched, es: seq<Event>, p: nat, n: nat)
    requires Inv(s) && Enabled(s) && Spent(s, p) && Inv(Before(s, Create))
    requires Step(Before(s, Create), Tick) == Next(t) && Inv(t) && Starved(t, es, p, n)
    ensures Starved(s, [Create] + ([Tick] + es), p, n + 1)
  {
    FloodStep(s, p);
    var b := Before(s, Create);
    assert Count(s, Create) == 0 && Count(b, Tick) == 1;
    hide Inv, Before, Step, Spent, Starved, Enabled, Count;
    StarvedBefore(b, Tick, es, p, n);
    StarvedBefore(s, Create, [Tick] + es, p, n + 1);
  }

  lemma StarvedNone(s: Sched, p: nat)
    requires Inv(s) && s.current != Some(p)
    ensures Starved(s, [], p, 0)
  {
  }

  // No number of turns is enough for a ready process without ticks: a run that
  // creates one process per timer interrupt never lets it run.  So the bound of
  // BoundedWaiting needs ticks > 0.
  lemma {:induction false} Starves(s: Sched, p: nat, n: nat)
    requires Inv(s) && Enabled(s) && Spent(s, p)
    ensures Starved(s, Flood(n), p, n)
    decreases n
  {
    assert Good(s);
    hide Inv, Before, Step, Starved, Enabled;
    if n == 0 {
      StarvedNone(s, p);
    } else {
      FloodStep(s, p);
      var t := Step(Before(s, Create), Tick).s;
      Starves(t, p, n - 1);
      FloodBefore(s, t, Flood(n - 1), p, n - 1);
    }
  }

  // ----- With a bounded number of new processes it runs after all -----

  function Total(procs: seq<Proc>): nat {
    if procs == [] then 0 else procs[|procs| - 1].ticks + Total(procs[..|procs| - 1])
  }

  lemma {:induction false} TotalUpdate(procs: seq<Proc>, c: nat, v: Proc)
    requires c < |procs|
    ensures Total(procs[c := v]) == Total(procs) - procs[c].ticks + v.ticks
  {
    var n := |procs| - 1;
    if c == n {
      assert procs[c := v][..n] == procs[..n];
    } else {
      TotalUpdate(procs[..n], c, v);
      assert procs[c := v][..n] == procs[..n][c := v];
    }
  }

  lemma {:induction false} TotalSame(a: seq<Proc>, b: seq<Proc>)
    requires |a| == |b| && forall i | 0 <= i < |a| :: a[i].ticks == b[i].ticks
    ensures Total(a) == Total(b)
  {
    if a == [] {
    } else {
      TotalSame(a[..|a| - 1], b[..|b| - 1]);
    }
  }

  ghost predicate Idle(s: Sched, p: nat) {
    p in s.list && p < |s.procs| && s.procs[p].state == Ready && s.current != Some(p)
  }

  // How many turns a ready process can still wait, whether it has ticks or not.
  function Patience(s: Sched, p: nat): nat
    requires Good(s) && p < |s.procs|
  {
    if s.procs[p].ticks > 0 then Wait(s, p) else Total(s.procs) + QUOTA * |s.list|
  }

  lemma BeforePatience(s: Sched, e: Event, p: nat)
    requires Inv(s) && Possible(s, e) && Idle(s, p) && !e.Create?
    ensures Inv(Before(s, e)) && Idle(Before(s, e), p) && Patience(Before(s, e), p) <= Patience(s, p)
  {
    BeforeInv(s, e);
    if s.procs[p].ticks > 0 {
      hide Inv, Wait;
      BeforeWait(s, e, p);
      assert Idle(Before(s, e), p) by { hide Before; }
      assert Before(s, e).procs[p].ticks > 0;
    } else {
      BeforeTotal(s, e, p);
    }
  }

  lemma BeforeTotal(s: Sched, e: Event, p: nat)
    requires Inv(s) && Possible(s, e) && Spent(s, p) && !e.Create?
    ensures Spent(Before(s, e), p)
    ensures Total(Before(s, e).procs) <= Total(s.procs) && |Before(s, e).list| <= |s.list|
  {
    var t := Before(s, e);
    if e.End? {
      WithoutHas(s.list, s.current.value);
      WithoutShorter(s.list, s.current.value);
    }
    if e.End? || e.Expire? || e.Sleep? {
      TotalUpdate(s.procs, s.current.value, t.procs[s.current.value]);
    }
  }

  lemma {:induction false} WithoutShorter(list: seq<nat>, p: nat)
    ensures |Without(list, p)| <= |list|
  {
    if list == [] {
    } else {
      WithoutShorter(list[1..], p);
    }
  }

  ghost predicate Nearer(s: Sched, t: Sched, p: nat)
    requires Good(s) && Good(t) && p < |s.procs| && p < |t.procs|
  {
    t.current == Some(p) || (Idle(t, p) && Patience(t, p) < Patience(s, p))
  }

  lemma ChargeTotal(s: Sched, c: nat, v: Proc)
    requires c < |s.procs| && v.ticks < s.procs[c].ticks
    ensures Total(SetProc(s, c, v).procs) < Total(s.procs)
  {
    TotalUpdate(s.procs, c, v);
  }

  lemma SelectSpent(s: Sched, p: nat)
    requires Inv(s) && Spent(s, p) && Walk(s).Some?
    ensures var q := Walk(s).value;
            q < |s.procs| && Good(SwitchTo(s, q)) && p < |SwitchTo(s, q).procs| && Nearer(s, SwitchTo(s, q), p)
  {
    WalkFacts(s);
    var q := Walk(s).value;
    hide Walk;
    ChargeTotal(s, q, s.procs[q].(state := Running).Charged());
    hide Total;
  }

  lemma SelectRefilled(s: Sched, p: nat)
    requires Inv(s) && Spent(s, p) && Walk(s).None?
    ensures var g := GiveTicks(s);
            && Good(g) && Walk(g).Some? && Walk(g).value < |g.procs|
            && Good(SwitchTo(g, Walk(g).value)) && p < |SwitchTo(g, Walk(g).value).procs|
            && Nearer(s, SwitchTo(g, Walk(g).value), p)
  {
    var g := GiveTicks(s);
    RefillWakes(s);
    GiveTicksInv(s);
    WalkFacts(g);
    var q := Walk(g).value;
    assert g.procs[p].ticks == QUOTA && g.procs[q].ticks == QUOTA;
    hide Walk, GiveTicks;
    var t := SwitchTo(g, q);
    AheadBound(t.procs, t.list, p, t.current);
    hide Ahead, Total;
  }

  lemma TotalKept(s: Sched, p: nat)
    requires Inv(s) && Spent(s, p)
    ensures Inv(UpdateTimeouts(s)) && Spent(UpdateTimeouts(s), p) && Total(UpdateTimeouts(s).procs) == Total(s.procs)
    ensures Inv(Yield(s)) && Spent(Yield(s), p) && Total(Yield(s).procs) == Total(s.procs)
  {
    UpdateInv(s);
    TotalSame(s.procs, UpdateTimeouts(s).procs);
    TotalSame(s.procs, Yield(s).procs);
  }

  lemma KeepSpent(s: Sched, p: nat)
    requires Inv(s) && Spent(s, p) && KeepsCurrent(s)
    ensures var t := SetProc(s, s.current.value, s.procs[s.current.value].Charged());
            Good(t) && p < |t.procs| && Nearer(s, t, p)
  {
    ChargeTotal(s, s.current.value, s.procs[s.current.value].Charged());
    hide Total;
  }

  lemma SelectNearer(s: Sched, p: nat)
    requires Inv(s) && Spent(s, p)
    ensures Select(s).Some? && Select(s).value.1 < |Select(s).value.0.procs|
    ensures var (u, q) := Select(s).value;
            Good(SwitchTo(u, q)) && p < |SwitchTo(u, q).procs| && Nearer(s, SwitchTo(u, q), p)
  {
    if Walk(s).Some? {
      SelectSpent(s, p);
    } else {
      SelectRefilled(s, p);
    }
    hide Inv, Walk, GiveTicks, SwitchTo, Nearer, Spent;
  }

  lemma YieldSpent(s: Sched, p: nat)
    requires Inv(s) && Spent(s, p)
    ensures Inv(Yield(s)) && Spent(Yield(s), p) && Patience(Yield(s), p) == Patience(s, p)
    ensures Inv(UpdateTimeouts(s)) && Spent(UpdateTimeouts(s), p) && Patience(UpdateTimeouts(s), p) == Patience(s, p)
  {
    TotalKept(s, p);
    hide Total;
  }

  lemma SpentTurn(s: Sched, p: nat)
    requires Inv(s) && Enabled(s) && Spent(s, p)
    ensures Schedule(s).Next? && Good(Schedule(s).s) && p < |Schedule(s).s.procs|
    ensures Nearer(s, Schedule(s).s, p)
  {
    var u := UpdateTimeouts(s);
    YieldSpent(s, p);
    hide UpdateTimeouts, Patience;
    if KeepsCurrent(u) {
      KeepSpent(u, p);
    } else {
      YieldSpent(u, p);
      SelectNearer(Yield(u), p);
    }
    hide Inv, Yield, Select, SwitchTo, Idle, Spent;
  }

  // A turn either charges one of the ticks that keep p from its refill, or
  // refills everybody.
  lemma TurnPatience(s: Sched, p: nat)
    requires Inv(s) && Enabled(s) && Idle(s, p)
    ensures Schedule(s).Next? && Good(Schedule(s).s) && p < |Schedule(s).s.procs|
    ensures Nearer(s, Schedule(s).s, p)
  {
    if s.procs[p].ticks > 0 {
      TurnWait(s, p);
      hide Schedule, Wait, Inv;
    } else {
      SpentTurn(s, p);
    }
  }

  lemma StepPatience(s: Sched, e: Event, p: nat)
    requires Inv(s) && Possible(s, e) && Idle(s, p) && !e.Create?
    ensures Step(s, e).Next? && Inv(Step(s, e).s) && p < |Step(s, e).s.procs|
    ensures var t := Step(s, e).s;
            t.current == Some(p) || (Idle(t, p) && Patience(t, p) + Count(s, e) <= Patience(s, p))
  {
    BeforePatience(s, e, p);
    var b := Before(s, e);
    assert CallsSchedule(e) ==> Enabled(b) == Enabled(s);
    hide Patience, Before;
    if CallsSchedule(e) && Enabled(b) {
      TurnPatience(b, p);
    }
    StepInv(s, e);
    hide Inv;
  }

  // A new process brings a quota, and one more entry of the list to refill.
  lemma CreatePatience(s: Sched, p: nat)
    requires Inv(s) && Idle(s, p)
    ensures Step(s, Create).Next? && Inv(Step(s, Create).s) && p < |Step(s, Create).s.procs|
    ensures Idle(Step(s, Create).s, p) && Patience(Step(s, Create).s, p) <= Patience(s, p) + 2 * QUOTA
  {
    StepInv(s, Create);
    var b := Before(s, Create);
    var v := Proc(Ready, QUOTA, 0, 0);
    assert (s.procs + [v])[..|s.procs|] == s.procs;
    assert b.procs[p] == s.procs[p];
    assert p in b.list by {
      var i :| 0 <= i < |s.list| && s.list[i] == p;
      assert b.list[i] == p;
    }
    if s.procs[p].ticks > 0 {
      hide Inv, Wait;
      CreateWait(s, p);
    }
    hide Inv, Wait;
  }

  function Creations(es: seq<Event>): nat {
    if es == [] then 0 else (if es[0].Create? then 1 else 0) + Creations(es[1..])
  }

  // Every ready process runs within the ticks still to be had, a quota for each
  // listed process, and two quotas for each process that the run creates.
  lemma RefillReaches(s: Sched, es: seq<Event>, p: nat)
    requires Inv(s) && Legal(s, es) && Idle(s, p)
    requires Turns(s, es) > Total(s.procs) + QUOTA * |s.list| + 2 * QUOTA * Creations(es)
    ensures Served(s, es, p)
  {
    WaitBound(s, p);
    Patiently(s, es, p);
  }

  lemma {:induction false} Patiently(s: Sched, es: seq<Event>, p: nat)
    requires Inv(s) && Legal(s, es) && Idle(s, p) && Turns(s, es) > Patience(s, p) + 2 * QUOTA * Creations(es)
    ensures Served(s, es, p)
    decreases |es|
  {
    if es[0].Create? {
      CreatePatience(s, p);
    } else {
      StepPatience(s, es[0], p);
    }
    var t := Step(s, es[0]).s;
    hide Inv, Step, Idle, Patience, Turn;
    if t.current != Some(p) {
      Patiently(t, es[1..], p);
    }
  }
}
