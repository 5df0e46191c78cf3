// process/process.c in its own form: process records and the process list, all
// updated in place.  Every method is proved against a step of SchedulerModel.

module ProcessTable {
  import opened Words
  import opened Options
  import M = SchedulerModel

  class Process {
    const pid: nat
    var state: M.State
    var ticks: nat
    var timeout: u32
    var tt: u32

    constructor (pid: nat)
      ensures this.pid == pid && Value() == M.Proc(M.Ready, M.QUOTA, 0, 0)
    {
      this.pid, state, ticks, timeout, tt := pid, M.Ready, M.QUOTA, 0, 0;
    }

    ghost function Value(): M.Proc
      reads this
    {
      M.Proc(state, ticks, timeout, tt)
    }
  }

  ghost function Values(a: seq<Process>): (r: seq<M.Proc>)
    reads a
    ensures |r| == |a| && forall i | 0 <= i < |a| :: r[i] == a[i].Value()
  {
    seq(|a|, i requires 0 <= i < |a| reads a => a[i].Value())
  }

  ghost function Numbers(a: seq<Process>): (r: seq<nat>)
    ensures |r| == |a| && forall i | 0 <= i < |a| :: r[i] == a[i].pid
  {
    seq(|a|, i requires 0 <= i < |a| => a[i].pid)
  }

  // What list_del leaves of the process list.
  function Removed(a: seq<Process>, p: Process): seq<Process> {
    if a == [] then [] else if a[0] == p then a[1..] else [a[0]] + Removed(a[1..], p)
  }

  ghost predicate Numbered(all: seq<Process>, list: seq<Process>) {
    && (forall k | 0 <= k < |all| :: all[k].pid == k)
    && (forall i | 0 <= i < |list| :: list[i].pid < |all| && all[list[i].pid] == list[i])
  }

  lemma {:induction false} RemovedNumbers(all: seq<Process>, list: seq<Process>, p: Process)
    requires Numbered(all, list) && p.pid < |all| && all[p.pid] == p
    ensures Numbers(Removed(list, p)) == M.Without(Numbers(list), p.pid)
    ensures Numbered(all, Removed(list, p))
  {
    if list == [] {
    } else {
      assert Numbers(list)[0] == list[0].pid && Numbers(list)[1..] == Numbers(list[1..]);
      RemovedNumbers(all, list[1..], p);
      if list[0] != p {
        assert Numbers(Removed(list, p)) == [list[0].pid] + Numbers(Removed(list[1..], p));
      }
    }
  }

  // A new process at the end of the list.
  lemma Appended(all: seq<Process>, list: seq<Process>, p: Process)
    requires Numbered(all, list) && p.pid == |all|
    ensures Numbered(all + [p], list + [p])
    ensures Values(all + [p]) == Values(all) + [p.Value()] && Numbers(list + [p]) == Numbers(list) + [p.pid]
  {
  }

  // ----- A walk of the list that changes every process it visits -----

  datatype Visit = Refill | Wake {
    function On(v: M.Proc): M.Proc {
      if this.Refill? then v.(ticks := M.QUOTA) else v.Woken()
    }
  }

  ghost function VisitOne(s: M.Sched, i: nat, w: Visit): M.Sched
    requires M.Good(s) && i < |s.list|
  {
    M.SetProc(s, s.list[i], w.On(s.procs[s.list[i]]))
  }

  ghost function Visited(s: M.Sched, i: nat, w: Visit): (t: M.Sched)
    requires M.Good(s) && i <= |s.list|
    ensures M.Good(t) && |t.procs| == |s.procs| && t == s.(procs := t.procs)
  {
    if i == 0 then s else VisitOne(Visited(s, i - 1, w), i - 1, w)
  }

  lemma VisitOneAt(s: M.Sched, i: nat, w: Visit, k: nat)
    requires M.Good(s) && i < |s.list| && k < |s.procs|
    ensures VisitOne(s, i, w).procs[k] == if k == s.list[i] then w.On(s.procs[k]) else s.procs[k]
  {
  }

  predicate Among(list: seq<nat>, i: nat, k: nat) {
    exists j :: 0 <= j < i && j < |list| && list[j] == k
  }

  lemma AmongNext(s: M.Sched, i: nat, k: nat)
    requires M.Inv(s) && 0 < i <= |s.list|
    ensures Among(s.list, i, k) <==> Among(s.list, i - 1, k) || k == s.list[i - 1]
    ensures !Among(s.list, i - 1, s.list[i - 1])
  {
  }

  lemma {:induction false} VisitedAt(s: M.Sched, i: nat, w: Visit, k: nat)
    requires M.Inv(s) && i <= |s.list| && k < |s.procs|
    ensures M.Good(s) && Visited(s, i, w).procs[k] == if Among(s.list, i, k) then w.On(s.procs[k]) else s.procs[k]
  {
    InvGood(s);
    if i == 0 {
    } else {
      hide M.Inv, VisitOne, M.Good, Among;
      AmongNext(s, i, k);
      VisitedAt(s, i - 1, w, k);
      VisitOneAt(Visited(s, i - 1, w), i - 1, w, k);
    }
  }

  // Visiting every listed process once is give_ticks, or update_timeouts.
  lemma RefilledAt(s: M.Sched, k: nat)
    requires M.Inv(s) && k < |s.procs|
    ensures M.Good(s) && Visited(s, |s.list|, Refill).procs[k] == M.GiveTicks(s).procs[k]
  {
    assert Among(s.list, |s.list|, k) <==> k in s.list;
    VisitedAt(s, |s.list|, Refill, k);
    hide M.Inv, Visited;
  }

  lemma WokenAt(s: M.Sched, k: nat)
    requires M.Inv(s) && k < |s.procs|
    ensures M.Good(s) && Visited(s, |s.list|, Wake).procs[k] == M.UpdateTimeouts(s).procs[k]
  {
    assert Among(s.list, |s.list|, k) <==> k in s.list;
    VisitedAt(s, |s.list|, Wake, k);
    hide M.Inv, Visited;
  }

  lemma RefilledAll(s: M.Sched)
    requires M.Inv(s)
    ensures M.Good(s) && M.Inv(M.GiveTicks(s)) && Visited(s, |s.list|, Refill) == M.GiveTicks(s)
  {
    InvGood(s);
    M.GiveTicksInv(s);
    hide Visited, VisitOne, M.Inv, M.SameButTicks;
    forall k | 0 <= k < |s.procs| ensures Visited(s, |s.list|, Refill).procs[k] == M.GiveTicks(s).procs[k] {
      RefilledAt(s, k);
    }
    assert Visited(s, |s.list|, Refill).procs == M.GiveTicks(s).procs;
  }

  lemma WokenAll(s: M.Sched)
    requires M.Inv(s)
    ensures M.Good(s) && M.Inv(M.UpdateTimeouts(s)) && Visited(s, |s.list|, Wake) == M.UpdateTimeouts(s)
  {
    InvGood(s);
    M.UpdateInv(s);
    hide Visited, VisitOne, M.Inv, M.SameButTicks, M.Yield;
    forall k | 0 <= k < |s.procs| ensures Visited(s, |s.list|, Wake).procs[k] == M.UpdateTimeouts(s).procs[k] {
      WokenAt(s, k);
    }
    assert Visited(s, |s.list|, Wake).procs == M.UpdateTimeouts(s).procs;
  }

  lemma InvGood(s: M.Sched)
    requires M.Inv(s)
    ensures M.Good(s)
  {
  }

  class Scheduler {
    var list: seq<Process>
    var current: Process?
    var count: nat
    var pidcnt: nat
    var preempt: bool
    ghost var all: seq<Process> // every process ever created, by pid

    ghost predicate Ok()
      reads this
    {
      && count == pidcnt == |all|
      && Numbered(all, list)
      && (current != null ==> current.pid < |all| && all[current.pid] == current)
    }

    ghost function Model(): M.Sched
      reads this, all
    {
      M.Sched(Values(all), Numbers(list), if current == null then None else Some(current.pid), count, preempt)
    }

    ghost predicate Valid()
      reads this, all
    {
      Ok() && M.Inv(Model())
    }

    // init_process
    constructor ()
      ensures Valid() && Model() == M.BOOT
    {
      list, current, count, pidcnt, preempt := [], null, 0, 0, false;
      all := [];
      new;
      assert Model() == M.BOOT;
    }

    method EnableKernelPreempt()
      requires Valid()
      modifies this`preempt
      ensures Valid() && M.Next(Model()) == M.Step(old(Model()), M.Preempt(true))
    {
      preempt := true;
    }

    method DisableKernelPreempt()
      requires Valid()
      modifies this`preempt
      ensures Valid() && M.Next(Model()) == M.Step(old(Model()), M.Preempt(false))
    {
      preempt := false;
    }

    method CreateProcess() returns (pid: nat)
      requires Valid()
      modifies this`list, this`count, this`pidcnt, this`all
      ensures Valid() && M.Next(Model()) == M.Step(old(Model()), M.Create)
      ensures pid == |old(all)| && |all| == pid + 1 && all[..pid] == old(all) && fresh(all[pid])
    {
      hide M.Inv, M.Good, M.Schedule, Numbered, Model;
      var newproc := new Process(pidcnt);
      Enlist(newproc);
      pid := newproc.pid;
    }

    // list_add_tail, and the counters.
    method Enlist(newproc: Process)
      requires Valid() && newproc.pid == pidcnt && newproc.Value() == M.Proc(M.Ready, M.QUOTA, 0, 0)
      modifies this`list, this`count, this`pidcnt, this`all
      ensures Valid() && M.Next(Model()) == M.Step(old(Model()), M.Create) && all == old(all) + [newproc]
    {
      M.BeforeInv(Model(), M.Create);
      Appended(all, list, newproc);
      hide M.Inv, M.Schedule, Numbered;
      list := list + [newproc];
      count, pidcnt := count + 1, pidcnt + 1;
      all := all + [newproc];
    }

    // Setting the fields of one process is one SetProc.
    twostate lemma Updated(p: Process)
      requires old(Ok()) && Ok() && all == old(all) && list == old(list) && current == old(current)
      requires count == old(count) && preempt == old(preempt)
      requires p.pid < |all| && all[p.pid] == p
      requires forall q | q in all && q != p :: unchanged(q)
      ensures Model() == M.SetProc(old(Model()), p.pid, p.Value())
    {
      forall k | 0 <= k < |all| ensures Values(all)[k] == old(Values(all))[p.pid := p.Value()][k] {
        assert k != p.pid ==> all[k] in all && all[k] != p;
      }
    }

    method AccountTicks(p: Process)
      requires Ok() && p.pid < |all| && all[p.pid] == p
      modifies p
      ensures Ok() && Model() == M.SetProc(old(Model()), p.pid, old(p.Value()).Charged())
    {
      if p.ticks > 0 {
        p.ticks := p.ticks - 1;
        p.tt := Add32(p.tt, 1);
      }
      Updated(p);
    }

    lemma Members(i: nat)
      requires Ok() && i < |list|
      ensures list[i] in all && list[i].pid < |all| && all[list[i].pid] == list[i]
      ensures M.Good(Model()) && |Model().list| == |list| && Model().list[i] == list[i].pid
      ensures Model().procs[list[i].pid] == list[i].Value()
    {
    }

    lemma Listed()
      requires Ok()
      ensures |Model().list| == |list| && forall i | 0 <= i < |list| :: list[i] in all
    {
      forall i | 0 <= i < |list| ensures list[i] in all {
        Members(i);
      }
    }

    method RefillOne(i: nat)
      requires Ok() && i < |list| && M.Good(Model()) && |Model().list| == |list|
      modifies list[i]
      ensures Ok() && Model() == VisitOne(old(Model()), i, Refill)
    {
      Members(i);
      list[i].ticks := M.QUOTA;
      Updated(list[i]);
      hide Ok, Model;
    }

    method GiveTicks()
      requires Valid()
      modifies all
      ensures Valid() && Model() == M.GiveTicks(old(Model()))
    {
      hide M.Inv, M.Good, M.GiveTicks, Model, Ok, VisitOne;
      ghost var was := Model();
      RefilledAll(was);
      Listed();
      for i := 0 to |list|
        invariant Ok() && Model() == Visited(was, i, Refill)
      {
        RefillOne(i);
      }
    }

    method WakeOne(i: nat)
      requires Ok() && i < |list| && M.Good(Model()) && |Model().list| == |list|
      modifies list[i]
      ensures Ok() && Model() == VisitOne(old(Model()), i, Wake)
    {
      Members(i);
      var ptr := list[i];
      if ptr.state == M.Sleeping {
        ptr.timeout := Add32(ptr.timeout, WORD_SIZE - 1);
        if ptr.timeout == 0 {
          ptr.state := M.Ready;
        }
      }
      assert ptr.Value() == old(ptr.Value()).Woken() by { hide Ok, Model, Add32; }
      Updated(ptr);
      hide Ok, Model, Add32;
    }

    method UpdateTimeouts()
      requires Valid()
      modifies all
      ensures Valid() && Model() == M.UpdateTimeouts(old(Model()))
    {
      hide M.Inv, M.Good, M.UpdateTimeouts, Model, Ok, VisitOne;
      ghost var was := Model();
      WokenAll(was);
      Listed();
      for i := 0 to |list|
        invariant Ok() && Model() == Visited(was, i, Wake)
      {
        WakeOne(i);
      }
    }

    // The list_for_each of select_next_process.
    method WalkList() returns (selected: Process?)
      requires Valid()
      ensures M.Walk(Model()) == if selected == null then None else Some(selected.pid)
      ensures selected != null ==> selected in list && selected.pid < |all| && all[selected.pid] == selected
    {
      selected := null;
      ghost var s := Model();
      for i := 0 to |list|
        invariant M.FirstEligible(s.procs, s.list, 0) == M.FirstEligible(s.procs, s.list, i)
      {
        var ptr := list[i];
        assert s.procs[s.list[i]] == ptr.Value();
        if ptr.state == M.Ready && ptr.ticks > 0 {
          selected := ptr;
          return;
        }
      }
    }

    // Whoever is found nowhere makes it refill everybody and walk again.
    method SelectNextProcess() returns (selected: Process)
      requires Valid() && M.Select(Model()).Some?
      modifies all
      ensures Valid()
      ensures M.Select(old(Model())) == Some((Model(), selected.pid))
      ensures selected in list && selected.pid < |all| && all[selected.pid] == selected
    {
      hide M.Inv, M.Walk, M.GiveTicks, M.Good, Model, Ok, M.SomeoneReady, M.SameButTicks;
      ghost var was := Model();
      M.GiveTicksInv(was);
      M.RefillWakes(was);
      InvGood(was);
      ghost var refilled := false;
      var found := WalkList();
      while found == null
        invariant Valid()
        invariant Model() == if refilled then M.GiveTicks(was) else was
        invariant M.Good(was) && M.Good(M.GiveTicks(was))
        invariant refilled ==> M.Walk(was).None?
        invariant M.Walk(Model()) == if found == null then None else Some(found.pid)
        invariant found != null ==> found in list && found.pid < |all| && all[found.pid] == found
        decreases !refilled
      {
        GiveTicks();
        refilled := true;
        found := WalkList();
      }
      selected := found;
    }

    method StopCurrent()
      requires Valid() && current != null
      modifies current
      ensures Valid() && Model() == M.Yield(old(Model()))
    {
      ghost var was := Model();
      M.UpdateInv(was);
      assert was.procs[current.pid] == current.Value();
      if current.state == M.Running {
        current.state := M.Ready;
        Updated(current);
      }
    }

    method MakeRunning(p: Process)
      requires Ok() && p.pid < |all| && all[p.pid] == p
      modifies p
      ensures Ok() && Model() == M.SetProc(old(Model()), p.pid, old(p.Value()).(state := M.Running))
      ensures p.Value() == old(p.Value()).(state := M.Running)
    {
      p.state := M.Running;
      Updated(p);
    }

    method MakeCurrent(p: Process)
      requires Ok() && p.pid < |all| && all[p.pid] == p
      modifies this`current
      ensures Ok() && Model() == old(Model()).(current := Some(p.pid))
    {
      current := p;
    }

    method SwitchTo(nextproc: Process)
      requires Ok() && nextproc.pid < |all| && all[nextproc.pid] == nextproc
      modifies nextproc, this`current
      ensures Ok() && Model() == M.SwitchTo(old(Model()), nextproc.pid)
    {
      assert Model().procs[nextproc.pid] == nextproc.Value() && nextproc.pid < |Model().procs|;
      hide Model, Ok;
      MakeRunning(nextproc);
      AccountTicks(nextproc);
      MakeCurrent(nextproc);
    }

    // On the first call there is no current process.
    method Schedule()
      requires Valid() && M.Schedule(Model()).Next?
      modifies this`current, all
      ensures Valid() && M.Next(Model()) == M.Schedule(old(Model()))
    {
      hide M.UpdateTimeouts, M.Select, M.SwitchTo;
      ghost var was := Model();
      M.TurnInv(was);
      if !preempt {
        return;
      }
      if count == 0 {
        return;
      }
      UpdateTimeouts();
      if current != null && current.ticks != 0 {
        AccountTicks(current);
        return;
      }
      if current != null {
        StopCurrent();
      }
      var nextproc := SelectNextProcess();
      SwitchTo(nextproc);
    }

    method ProcessExpire()
      requires Ok() && current != null && M.Good(Model())
      requires M.Inv(M.Before(Model(), M.Expire)) && M.Schedule(M.Before(Model(), M.Expire)).Next?
      modifies this`current, all
      ensures Valid() && M.Next(Model()) == M.Schedule(M.Before(old(Model()), M.Expire))
    {
      hide M.Inv, M.Schedule;
      ghost var was := Model();
      assert was.procs[current.pid] == current.Value();
      current.ticks := 0;
      Updated(current);
      assert Model() == M.Before(was, M.Expire) by { hide Model; }
      hide Model, Ok, M.Before;
      Schedule();
    }

    // process_expire on its own.
    method Expire()
      requires Valid() && current != null && M.Step(Model(), M.Expire).Next?
      modifies this`current, all
      ensures Valid() && M.Next(Model()) == M.Step(old(Model()), M.Expire)
    {
      M.BeforeInv(Model(), M.Expire);
      InvGood(Model());
      hide M.Inv, M.Schedule;
      ProcessExpire();
    }

    method ProcessSleep(ticks: u32)
      requires Valid() && current != null && M.Step(Model(), M.Sleep(ticks)).Next?
      modifies this`current, all
      ensures Valid() && M.Next(Model()) == M.Step(old(Model()), M.Sleep(ticks))
    {
      M.BeforeInv(Model(), M.Sleep(ticks));
      InvGood(Model());
      hide M.Inv, M.Schedule;
      ghost var was := Model();
      var me := current;
      assert was.procs[me.pid] == me.Value();
      me.state := M.Sleeping;
      me.timeout := ticks;
      Updated(me);
      assert M.Before(Model(), M.Expire) == M.Before(was, M.Sleep(ticks)) by { hide Model; }
      hide Model, Ok, M.Before;
      ProcessExpire();
    }

    // The record is freed while it is still current; it stays in `all`.
    method ProcessEnd()
      requires Valid() && current != null && current in list && M.Possible(Model(), M.End)
      requires M.Step(Model(), M.End).Next?
      modifies this`current, this`list, all
      ensures Valid() && M.Next(Model()) == M.Step(old(Model()), M.End)
    {
      M.BeforeInv(Model(), M.End);
      InvGood(Model());
      M.WithoutHas(Model().list, current.pid);
      hide M.Inv, M.Schedule;
      ghost var was := Model();
      var me := current;
      RemovedNumbers(all, list, me);
      list := Removed(list, me);
      assert Model() == was.(list := M.Without(was.list, me.pid));
      assert M.Before(Model(), M.Expire) == M.Before(was, M.End) by { hide Model; }
      hide Model, Ok, M.Before;
      ProcessExpire();
    }
  }
}
