// Where the ticks of process/process.c go: every turn of the scheduler charges
// one tick to one process, and nobody is charged more than a quota per refill.

module Accounting {
  import opened Words
  import opened Options
  import opened SchedulerModel

  // From s to t process c was charged one tick, and nobody else any.
  ghost predicate Charge(s: Sched, t: Sched, c: nat) {
    && |t.procs| == |s.procs| && c < |s.procs| && t.current == Some(c)
    && t.procs[c].tt == Add32(s.procs[c].tt, 1)
    && forall q | 0 <= q < |s.procs| && q != c :: t.procs[q].tt == s.procs[q].tt
  }

  ghost predicate SameTotals(s: Sched, t: Sched) {
    |s.procs| <= |t.procs| && forall q | 0 <= q < |s.procs| :: t.procs[q].tt == s.procs[q].tt
  }

  // A turn gave a process of t no more than its ticks in s allow.
  ghost predicate WithinQuota(s: Sched, t: Sched, charged: Option<nat>) {
    && |s.procs| <= |t.procs|
    && forall q | 0 <= q < |s.procs| :: t.procs[q].ticks + (if charged == Some(q) then 1 else 0) <= s.procs[q].ticks
  }

  // schedule() has to call give_ticks.
  ghost predicate Refill(s: Sched)
    requires Inv(s)
  {
    UpdateInv(s);
    var u := UpdateTimeouts(s);
    UpdateInv(u);
    Enabled(s) && !KeepsCurrent(u) && Walk(Yield(u)).None?
  }

  ghost predicate Refills(s: Sched, e: Event)
    requires Inv(s) && Possible(s, e)
  {
    BeforeInv(s, e);
    CallsSchedule(e) && Refill(Before(s, e))
  }

  lemma KeepCharge(s: Sched)
    requires Inv(s) && KeepsCurrent(s)
    ensures var c := s.current.value; var t := SetProc(s, c, s.procs[c].Charged());
            Charge(s, t, c) && WithinQuota(s, t, Some(c))
  {
  }

  lemma SelectCharge(s: Sched)
    requires Inv(s) && Select(s).Some?
    ensures Select(s).value.1 < |Select(s).value.0.procs|
    ensures var (u, p) := Select(s).value; var t := SwitchTo(u, p);
            Charge(s, t, p) && (Walk(s).Some? ==> WithinQuota(s, t, Some(p)))
  {
    SelectFacts(s);
    var (u, p) := Select(s).value;
    assert Walk(s).Some? ==> u == s;
    hide Inv, Walk, GiveTicks, Select;
  }

  ghost predicate Quiet(s: Sched, t: Sched) {
    && |t.procs| == |s.procs| && t.current == s.current
    && forall q | 0 <= q < |s.procs| :: t.procs[q].tt == s.procs[q].tt && t.procs[q].ticks == s.procs[q].ticks
  }

  lemma QuietCharge(s: Sched, u: Sched, t: Sched, c: nat)
    requires Quiet(s, u) && Charge(u, t, c)
    ensures Charge(s, t, c)
    ensures WithinQuota(u, t, Some(c)) ==> WithinQuota(s, t, Some(c))
  {
  }

  lemma UpdateQuiet(s: Sched)
    requires Inv(s)
    ensures Quiet(s, UpdateTimeouts(s)) && Quiet(s, Yield(s))
  {
  }

  lemma TurnCharge(s: Sched)
    requires Inv(s) && Enabled(s) && Schedule(s).Next?
    ensures var t := Schedule(s).s;
            t.current.Some? && Charge(s, t, t.current.value) && (!Refill(s) ==> WithinQuota(s, t, t.current))
  {
    var u := UpdateTimeouts(s);
    UpdateInv(s);
    UpdateQuiet(s);
    var t := Schedule(s).s;
    if KeepsCurrent(u) {
      KeepCharge(u);
      QuietCharge(s, u, t, u.current.value);
    } else {
      var y := Yield(u);
      UpdateInv(u);
      UpdateQuiet(u);
      SelectCharge(y);
      hide UpdateTimeouts, Yield, SwitchTo, Inv, Walk, Charge, WithinQuota;
      var p := Select(y).value.1;
      QuietCharge(u, y, t, p);
      QuietCharge(s, u, t, p);
    }
  }

  // Every event that runs schedule() past its guards charges exactly one tick,
  // to the process that is current afterwards; no other event charges any.
  lemma StepCharge(s: Sched, e: Event)
    requires Inv(s) && Possible(s, e) && Step(s, e).Next?
    ensures var t := Step(s, e).s;
            && (Turn(s, e) ==> t.current.Some? && Charge(s, t, t.current.value))
            && (!Turn(s, e) ==> SameTotals(s, t))
            && |s.procs| <= |t.procs|
            && (!Refills(s, e) ==> WithinQuota(s, t, if Turn(s, e) then t.current else None))
  {
    BeforeInv(s, e);
    var b := Before(s, e);
    assert SameTotals(s, b) && WithinQuota(s, b, None);
    if Turn(s, e) {
      TurnCharge(b);
      assert |b.procs| == |s.procs|;
      hide Before, Schedule, Inv, Refill;
      BeforeCharge(s, b, Step(s, e).s);
    }
  }

  lemma BeforeCharge(s: Sched, b: Sched, t: Sched)
    requires |s.procs| == |b.procs| && SameTotals(s, b) && WithinQuota(s, b, None)
    requires t.current.Some? && Charge(b, t, t.current.value)
    ensures Charge(s, t, t.current.value)
    ensures WithinQuota(b, t, t.current) ==> WithinQuota(s, t, t.current)
  {
  }

  // ----- The sum over all processes ever created -----

  function TotalTime(procs: seq<Proc>): nat {
    if procs == [] then 0 else procs[|procs| - 1].tt + TotalTime(procs[..|procs| - 1])
  }

  lemma {:induction false} TotalTimeUpdate(a: seq<Proc>, b: seq<Proc>, c: nat)
    requires |a| == |b| && c < |a| && forall q | 0 <= q < |a| && q != c :: a[q].tt == b[q].tt
    ensures TotalTime(b) == TotalTime(a) - a[c].tt + b[c].tt
  {
    var n := |a| - 1;
    if c == n {
      TotalTimeSame(a[..n], b[..n]);
    } else {
      TotalTimeUpdate(a[..n], b[..n], c);
    }
  }

  lemma {:induction false} TotalTimeSame(a: seq<Proc>, b: seq<Proc>)
    requires |a| == |b| && forall q | 0 <= q < |a| :: a[q].tt == b[q].tt
    ensures TotalTime(a) == TotalTime(b)
  {
    if a == [] {
    } else {
      TotalTimeSame(a[..|a| - 1], b[..|b| - 1]);
    }
  }

  lemma AddOne(x: u32)
    ensures Add32(x, 1) == if x == WORD_SIZE - 1 then 0 else x + 1
  {
  }

  // Each turn adds exactly one to the sum of `tt`, save where a counter wraps.
  lemma TurnAddsOne(s: Sched, e: Event)
    requires Inv(s) && Possible(s, e) && Step(s, e).Next? && Turn(s, e)
    ensures var t := Step(s, e).s;
            && t.current.Some? && t.current.value < |s.procs|
            && TotalTime(t.procs) == TotalTime(s.procs) + 1 -
                                     (if s.procs[t.current.value].tt == WORD_SIZE - 1 then WORD_SIZE else 0)
  {
    StepCharge(s, e);
    var t := Step(s, e).s;
    hide Inv, Step, Turn, Add32;
    AddOne(s.procs[t.current.value].tt);
    TotalTimeUpdate(s.procs, t.procs, t.current.value);
  }

  // ----- Whole runs -----

  // How many turns of the run charged p.
  ghost function Charged(s: Sched, es: seq<Event>, p: nat): nat
    requires Inv(s) && Legal(s, es)
    decreases |es|
  {
    hide Inv, Schedule, Before;
    if es == [] || Step(s, es[0]).Hung? then 0 else
      StepInv(s, es[0]);
      var t := Step(s, es[0]).s;
      (if t.current == Some(p) then Count(s, es[0]) else 0) + Charged(t, es[1..], p)
  }

  ghost predicate NoRefill(s: Sched, es: seq<Event>)
    requires Inv(s) && Legal(s, es)
    decreases |es|
  {
    hide Inv, Schedule, Before, Refill;
    es == [] ||
    (!Refills(s, es[0]) && (Step(s, es[0]).Next? ==> (StepInv(s, es[0]); NoRefill(Step(s, es[0]).s, es[1..]))))
  }

  // The counter k ticks after it was x.
  function Counted(x: u32, k: nat): u32 {
    (x + k) % WORD_SIZE
  }

  lemma CountedMore(x: u32, more: nat, y: u32, k: nat)
    requires more <= 1 && y == if more == 1 then Add32(x, 1) else x
    ensures Counted(y, k) == Counted(x, more + k) && Counted(x, 0) == x
  {
    AddOne(x);
  }

  lemma StepTime(s: Sched, e: Event, p: nat)
    requires Inv(s) && Possible(s, e) && Step(s, e).Next? && p < |s.procs|
    ensures var t := Step(s, e).s; var more := if t.current == Some(p) then Count(s, e) else 0;
            p < |t.procs| && more <= 1 && t.procs[p].tt == if more == 1 then Add32(s.procs[p].tt, 1) else s.procs[p].tt
  {
    hide Inv, Step, Turn, WithinQuota, Add32;
    StepCharge(s, e);
  }

  // A process's `tt` counts the turns that charged it.
  lemma {:induction false} TimeCounts(s: Sched, es: seq<Event>, p: nat)
    requires Inv(s) && Legal(s, es) && Run(s, es).Next? && p < |s.procs|
    ensures p < |Run(s, es).s.procs|
    ensures Run(s, es).s.procs[p].tt == Counted(s.procs[p].tt, Charged(s, es, p))
    decreases |es|
  {
    hide Counted, Add32, Inv, Step, Count;
    if es == [] {
      CountedMore(s.procs[p].tt, 0, s.procs[p].tt, 0);
    } else {
      StepTime(s, es[0], p);
      StepInv(s, es[0]);
      var t := Step(s, es[0]).s;
      TimeCounts(t, es[1..], p);
      var more := if t.current == Some(p) then Count(s, es[0]) else 0;
      CountedMore(s.procs[p].tt, more, t.procs[p].tt, Charged(t, es[1..], p));
      assert Charged(s, es, p) == more + Charged(t, es[1..], p);
      assert Run(s, es) == Run(t, es[1..]);
    }
  }

  // The ticks of a process; one that is not created yet will start with a quota.
  function TicksOf(s: Sched, p: nat): nat {
    if p < |s.procs| then s.procs[p].ticks else QUOTA
  }

  lemma StepTicks(s: Sched, e: Event, p: nat)
    requires Inv(s) && Possible(s, e) && Step(s, e).Next? && !Refills(s, e)
    ensures var t := Step(s, e).s;
            TicksOf(t, p) + (if t.current == Some(p) then Count(s, e) else 0) <= TicksOf(s, p) <= QUOTA
  {
    assert TicksOf(s, p) <= QUOTA;
    StepInv(s, e);
    assert TicksOf(Step(s, e).s, p) <= QUOTA;
    hide Inv, Step, Refills, Turn, SameTotals;
    StepCharge(s, e);
  }

  // As long as nobody is refilled, every process is charged at most the ticks it had,
  // hence at most 100; so is one that is created meanwhile.
  lemma {:induction false} QuotaHolds(s: Sched, es: seq<Event>, p: nat)
    requires Inv(s) && Legal(s, es) && Run(s, es).Next? && NoRefill(s, es)
    ensures Charged(s, es, p) + TicksOf(Run(s, es).s, p) <= TicksOf(s, p) <= QUOTA
    decreases |es|
  {
    assert TicksOf(s, p) <= QUOTA;
    hide Inv, Step, Refills, Count, TicksOf;
    if es == [] {
    } else {
      StepTicks(s, es[0], p);
      StepInv(s, es[0]);
      QuotaHolds(Step(s, es[0]).s, es[1..], p);
    }
  }

  // The turns of the first n processes.
  ghost function SumCharged(s: Sched, es: seq<Event>, n: nat): nat
    requires Inv(s) && Legal(s, es)
    decreases n
  {
    if n == 0 then 0 else Charged(s, es, n - 1) + SumCharged(s, es, n - 1)
  }

  lemma {:induction false} SumChargedStep(s: Sched, es: seq<Event>, n: nat)
    requires Inv(s) && Legal(s, es) && es != [] && Step(s, es[0]).Next?
    requires Inv(Step(s, es[0]).s) && Legal(Step(s, es[0]).s, es[1..])
    ensures var t := Step(s, es[0]).s;
            SumCharged(s, es, n) == SumCharged(t, es[1..], n) +
                                    (if t.current.Some? && t.current.value < n then Count(s, es[0]) else 0)
    decreases n
  {
    hide Inv, Step, Legal, Count;
    if n == 0 {
    } else {
      SumChargedStep(s, es, n - 1);
    }
  }

  lemma {:induction false} RunGrows(s: Sched, es: seq<Event>)
    requires Inv(s) && Legal(s, es) && Run(s, es).Next?
    ensures |s.procs| <= |Run(s, es).s.procs|
    decreases |es|
  {
    if es == [] {
    } else {
      StepCharge(s, es[0]);
      StepInv(s, es[0]);
      hide Inv, Step, Charge, WithinQuota;
      RunGrows(Step(s, es[0]).s, es[1..]);
    }
  }

  lemma {:induction false} SumChargedNone(s: Sched, n: nat)
    requires Inv(s)
    ensures SumCharged(s, [], n) == 0
    decreases n
  {
    hide Inv;
    if n == 0 {
    } else {
      SumChargedNone(s, n - 1);
    }
  }

  // No turn is lost and none is counted twice: the turns of a run are the turns
  // charged to the processes there are at its end.
  lemma {:induction false} TurnsAreCharged(s: Sched, es: seq<Event>, n: nat)
    requires Inv(s) && Legal(s, es) && Run(s, es).Next? && n >= |Run(s, es).s.procs|
    ensures Turns(s, es) == SumCharged(s, es, n)
    decreases |es|
  {
    if es == [] {
      SumChargedNone(s, n);
    } else {
      StepCharge(s, es[0]);
      StepInv(s, es[0]);
      var t := Step(s, es[0]).s;
      RunGrows(t, es[1..]);
      hide Inv, Step, Turn;
      SumChargedStep(s, es, n);
      TurnsAreCharged(t, es[1..], n);
    }
  }
}
