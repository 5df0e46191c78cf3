// Bounded waiting in the scheduler of process/process.c: how long a ready process
// that has ticks left can be kept from running.

module Fairness {
  import opened Options
  import opened SchedulerModel

  function Others(procs: seq<Proc>, q: nat, cur: Option<nat>): nat
    requires q < |procs|
  {
    if cur == Some(q) then 0 else procs[q].ticks
  }

  ghost predicate Pids(procs: seq<Proc>, list: seq<nat>) {
    forall i | 0 <= i < |list| :: list[i] < |procs|
  }

  // The ticks of the processes listed before p, the current one left out.
  function Ahead(procs: seq<Proc>, list: seq<nat>, p: nat, cur: Option<nat>): nat
    requires Pids(procs, list)
  {
    if list == [] || list[0] == p then 0 else Others(procs, list[0], cur) + Ahead(procs, list[1..], p, cur)
  }

  function CurrentTicks(s: Sched): nat
    requires Good(s)
  {
    if s.current.Some? then s.procs[s.current.value].ticks else 0
  }

  function Wait(s: Sched, p: nat): nat
    requires Good(s)
  {
    CurrentTicks(s) + Ahead(s.procs, s.list, p, s.current)
  }

  ghost predicate Waiting(s: Sched, p: nat) {
    p in s.list && p < |s.procs| && s.procs[p].Eligible() && s.current != Some(p)
  }

  // ----- How the sum changes -----

  ghost predicate SameTicks(a: seq<Proc>, b: seq<Proc>, list: seq<nat>, cur: Option<nat>) {
    Pids(a, list) && Pids(b, list) && forall i | 0 <= i < |list| :: Others(a, list[i], cur) == Others(b, list[i], cur)
  }

  lemma {:induction false} AheadSame(a: seq<Proc>, b: seq<Proc>, list: seq<nat>, p: nat, cur: Option<nat>)
    requires SameTicks(a, b, list, cur)
    ensures Ahead(a, list, p, cur) == Ahead(b, list, p, cur)
  {
    if list == [] {
    } else {
      forall i | 0 <= i < |list[1..]| ensures Others(a, list[1..][i], cur) == Others(b, list[1..][i], cur) {
        assert list[1..][i] == list[i + 1];
      }
      AheadSame(a, b, list[1..], p, cur);
    }
  }

  // A process without ticks counts for nothing, current or not.
  lemma {:induction false} AheadIdle(procs: seq<Proc>, list: seq<nat>, p: nat, c: nat)
    requires Pids(procs, list) && c < |procs| && procs[c].ticks == 0
    ensures Ahead(procs, list, p, Some(c)) == Ahead(procs, list, p, None)
  {
    if list == [] {
    } else {
      AheadIdle(procs, list[1..], p, c);
    }
  }

  lemma {:induction false} AheadAbsent(procs: seq<Proc>, list: seq<nat>, p: nat, q: nat)
    requires Pids(procs, list) && q !in list
    ensures Ahead(procs, list, p, Some(q)) == Ahead(procs, list, p, None)
  {
    if list == [] {
    } else {
      AheadAbsent(procs, list[1..], p, q);
    }
  }

  ghost predicate Distinct(list: seq<nat>) {
    forall i, j | 0 <= i < j < |list| :: list[i] != list[j]
  }

  // Making the process at position i < j current takes its ticks out of the sum.
  lemma {:induction false} AheadPicked(procs: seq<Proc>, list: seq<nat>, i: nat, j: nat)
    requires Pids(procs, list) && Distinct(list) && i < j < |list|
    ensures Ahead(procs, list, list[j], None) == procs[list[i]].ticks + Ahead(procs, list, list[j], Some(list[i]))
    decreases j
  {
    var q, p, rest := list[i], list[j], list[1..];
    assert rest[j - 1] == p;
    if i == 0 {
      forall k | 0 <= k < |rest| ensures rest[k] != q {
        assert rest[k] == list[k + 1];
      }
      AheadAbsent(procs, rest, p, q);
    } else {
      assert rest[i - 1] == q;
      AheadPicked(procs, rest, i - 1, j - 1);
    }
  }

  lemma {:induction false} AheadWithout(procs: seq<Proc>, list: seq<nat>, p: nat, c: nat)
    requires Pids(procs, list) && c != p
    ensures Pids(procs, Without(list, c))
    ensures Ahead(procs, Without(list, c), p, Some(c)) == Ahead(procs, list, p, Some(c))
  {
    if list == [] {
    } else {
      AheadWithout(procs, list[1..], p, c);
      if list[0] != c {
        assert Without(list, c) == [list[0]] + Without(list[1..], c);
        assert Without(list, c)[1..] == Without(list[1..], c);
      }
    }
  }

  lemma {:induction false} AheadAppend(procs: seq<Proc>, list: seq<nat>, v: Proc, n: nat, p: nat, cur: Option<nat>)
    requires Pids(procs, list) && p in list && n == |procs|
    ensures Pids(procs + [v], list + [n])
    ensures Ahead(procs + [v], list + [n], p, cur) == Ahead(procs, list, p, cur)
  {
    assert (list + [n])[0] == list[0] && (list + [n])[1..] == list[1..] + [n];
    if list[0] != p {
      AheadAppend(procs, list[1..], v, n, p, cur);
    }
  }

  lemma {:induction false} AheadBound(procs: seq<Proc>, list: seq<nat>, p: nat, cur: Option<nat>)
    requires Pids(procs, list) && p in list && forall q | 0 <= q < |procs| :: procs[q].ticks <= QUOTA
    ensures Ahead(procs, list, p, cur) <= QUOTA * (|list| - 1)
  {
    if list[0] != p {
      AheadBound(procs, list[1..], p, cur);
    }
  }

  // ----- One event -----

  // Changing ticks of the current process alone, or of nobody.
  lemma AheadOthers(s: Sched, t: Sched, p: nat)
    requires Good(s) && Good(t) && t.list == s.list && t.current == s.current && |t.procs| == |s.procs|
    requires forall q | 0 <= q < |s.procs| && s.current != Some(q) :: t.procs[q].ticks == s.procs[q].ticks
    ensures Ahead(t.procs, t.list, p, t.current) == Ahead(s.procs, s.list, p, s.current)
  {
    AheadSame(s.procs, t.procs, s.list, p, s.current);
  }

  lemma EndWait(s: Sched, p: nat)
    requires Inv(s) && Possible(s, End) && Waiting(s, p)
    ensures Inv(Before(s, End)) && Waiting(Before(s, End), p) && Wait(Before(s, End), p) <= Wait(s, p)
  {
    BeforeInv(s, End);
    var c := s.current.value;
    var t := Before(s, End);
    WithoutHas(s.list, c);
    hide Inv;
    AheadWithout(s.procs, s.list, p, c);
    AheadOthers(s.(list := t.list), t, p);
  }

  lemma CreateWait(s: Sched, p: nat)
    requires Inv(s) && Waiting(s, p)
    ensures Inv(Before(s, Create)) && Waiting(Before(s, Create), p) && Wait(Before(s, Create), p) == Wait(s, p)
  {
    BeforeInv(s, Create);
    hide Inv;
    AheadAppend(s.procs, s.list, Proc(Ready, QUOTA, 0, 0), |s.procs|, p, s.current);
  }

  lemma BeforeWait(s: Sched, e: Event, p: nat)
    requires Inv(s) && Possible(s, e) && Waiting(s, p)
    ensures Inv(Before(s, e)) && Waiting(Before(s, e), p)
    ensures Wait(Before(s, e), p) <= Wait(s, p)
    ensures e.Tick? || e.Create? || e.Preempt? ==> Wait(Before(s, e), p) == Wait(s, p)
  {
    if e.End? {
      EndWait(s, p);
    } else if e.Create? {
      CreateWait(s, p);
    } else {
      BeforeInv(s, e);
      hide Inv;
      AheadOthers(s, Before(s, e), p);
    }
  }

  lemma UpdateWait(s: Sched, p: nat)
    requires Inv(s) && Waiting(s, p)
    ensures Inv(UpdateTimeouts(s)) && Waiting(UpdateTimeouts(s), p)
    ensures Wait(UpdateTimeouts(s), p) == Wait(s, p)
  {
    UpdateInv(s);
    hide Inv;
    AheadOthers(s, UpdateTimeouts(s), p);
  }

  lemma YieldWait(s: Sched, p: nat)
    requires Inv(s) && Waiting(s, p)
    ensures Inv(Yield(s)) && Waiting(Yield(s), p)
    ensures Wait(Yield(s), p) == Wait(s, p)
  {
    UpdateInv(s);
    hide Inv;
    AheadOthers(s, Yield(s), p);
  }

  lemma KeepWait(s: Sched, c: nat, p: nat)
    requires Inv(s) && Waiting(s, p) && s.current == Some(c) && s.procs[c].ticks > 0
    ensures var t := SetProc(s, c, s.procs[c].Charged());
            Inv(t) && Waiting(t, p) && Wait(t, p) == Wait(s, p) - 1
  {
    ChargeInv(s, c);
    AheadSame(s.procs, SetProc(s, c, s.procs[c].Charged()).procs, s.list, p, s.current);
  }

  // Nobody is refilled while p waits; whoever is picked before p is listed
  // before p.
  lemma PickWait(s: Sched, p: nat)
    requires Inv(s) && Waiting(s, p)
    ensures Walk(s).Some?
    ensures Walk(s).value == p
            || exists i, j :: 0 <= i < j < |s.list| && s.list[i] == Walk(s).value && s.list[j] == p
    ensures Walk(s).value < |s.procs| && s.procs[Walk(s).value].Eligible()
  {
    WalkFacts(s);
    var i := FirstEligible(s.procs, s.list, 0);
    var j :| 0 <= j < |s.list| && s.list[j] == p;
  }

  lemma SwitchWait(s: Sched, p: nat, i: nat, j: nat)
    requires Inv(s) && Waiting(s, p) && i < j < |s.list| && s.list[j] == p && s.procs[s.list[i]].Eligible()
    requires CurrentTicks(s) == 0
    ensures var t := SwitchTo(s, s.list[i]);
            Good(t) && Waiting(t, p) && Wait(t, p) == Wait(s, p) - 1
  {
    var q := s.list[i];
    var t := SwitchTo(s, q);
    if s.current.Some? {
      AheadIdle(s.procs, s.list, p, s.current.value);
    }
    AheadPicked(s.procs, s.list, i, j);
    AheadSame(s.procs, t.procs, s.list, p, Some(q));
  }

  ghost predicate Closer(s: Sched, t: Sched, p: nat)
    requires Good(s) && Good(t)
  {
    t.current == Some(p) || (Waiting(t, p) && Wait(t, p) == Wait(s, p) - 1)
  }

  lemma SelectWait(s: Sched, p: nat)
    requires Inv(s) && Waiting(s, p) && CurrentTicks(s) == 0
    ensures Select(s).Some? && Select(s).value.1 < |Select(s).value.0.procs|
    ensures var (u, q) := Select(s).value; Good(SwitchTo(u, q)) && Closer(s, SwitchTo(u, q), p)
  {
    PickWait(s, p);
    var q := Walk(s).value;
    assert Select(s) == Some((s, q)) by { hide Walk, Inv; }
    assert Good(SwitchTo(s, q));
    if q != p {
      var i, j :| 0 <= i < j < |s.list| && s.list[i] == q && s.list[j] == p;
      SwitchWait(s, p, i, j);
    }
  }

  lemma TurnWait(s: Sched, p: nat)
    requires Inv(s) && Enabled(s) && Waiting(s, p)
    ensures Schedule(s).Next? && Good(Schedule(s).s) && Closer(s, Schedule(s).s, p)
  {
    var u := UpdateTimeouts(s);
    UpdateWait(s, p);
    if KeepsCurrent(u) {
      KeepWait(u, u.current.value, p);
    } else {
      YieldWait(u, p);
      assert CurrentTicks(Yield(u)) == 0;
      SelectWait(Yield(u), p);
      hide Inv, Yield, Select, Wait, UpdateTimeouts, SwitchTo, Waiting;
    }
  }

  // While p waits, no event of any other process raises its wait, the timer
  // lowers it by one, and scheduling never hangs.
  lemma StepWait(s: Sched, e: Event, p: nat)
    requires Inv(s) && Possible(s, e) && Waiting(s, p)
    ensures Step(s, e).Next? && Inv(Step(s, e).s)
    ensures var t := Step(s, e).s;
            t.current == Some(p) ||
            (Waiting(t, p) && Wait(t, p) + Count(s, e) <= Wait(s, p) &&
             (e.Tick? ==> Wait(t, p) + Count(s, e) == Wait(s, p)))
  {
    BeforeWait(s, e, p);
    var b := Before(s, e);
    if CallsSchedule(e) && Enabled(b) {
      TurnWait(b, p);
    }
    StepInv(s, e);
  }

  // ----- Whole runs -----

  ghost predicate Served(s: Sched, es: seq<Event>, p: nat)
    requires Inv(s) && Legal(s, es)
    decreases |es|
  {
    hide Inv, Schedule, Before;
    s.current == Some(p) ||
    (es != [] && Step(s, es[0]).Next? && (StepInv(s, es[0]); Served(Step(s, es[0]).s, es[1..], p)))
  }

  // A ready process with ticks runs before schedule() has been entered more than
  // Wait times, whatever the other processes do in between.
  lemma {:induction false} BoundedWaiting(s: Sched, es: seq<Event>, p: nat)
    requires Inv(s) && Legal(s, es) && Waiting(s, p) && Turns(s, es) > Wait(s, p)
    ensures Served(s, es, p)
    decreases |es|
  {
    StepWait(s, es[0], p);
    var t := Step(s, es[0]).s;
    hide Inv, Step, Waiting, Wait, Turn;
    if t.current != Some(p) {
      BoundedWaiting(t, es[1..], p);
    }
  }

  // The wait is at most a full quota for each listed process.
  lemma WaitBound(s: Sched, p: nat)
    requires Inv(s) && p in s.list
    ensures Wait(s, p) <= QUOTA * |s.list|
  {
    AheadBound(s.procs, s.list, p, s.current);
  }
}
