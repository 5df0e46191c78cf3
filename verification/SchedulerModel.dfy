// The round-based scheduler of process/process.c as a state machine.  Processes
// are numbered by their pid in creation order; `list` is k_proclist.list.

module SchedulerModel {
  import opened Words
  import opened Options

  const QUOTA := 100

  datatype State = Ready | Running | Sleeping

  datatype Proc = Proc(state: State, ticks: nat, timeout: u32, tt: u32) {
    predicate Eligible() { state == Ready && ticks > 0 }

    // account_ticks
    function Charged(): Proc {
      if ticks > 0 then this.(ticks := ticks - 1, tt := Add32(tt, 1)) else this
    }

    // One round of update_timeouts; a timeout of 0 wraps around.
    function Woken(): Proc {
      if state != Sleeping then this else
        var left := Add32(timeout, WORD_SIZE - 1);
        Proc(if left == 0 then Ready else Sleeping, ticks, left, tt)
    }
  }

  // Processes that ended stay in `procs` but not in `list`; `count` never shrinks.
  datatype Sched = Sched(procs: seq<Proc>, list: seq<nat>, current: Option<nat>, count: nat, preempt: bool)

  ghost predicate Inv(s: Sched) {
    && s.count == |s.procs|
    && (forall i | 0 <= i < |s.list| :: s.list[i] < |s.procs|)
    && (forall i, j | 0 <= i < j < |s.list| :: s.list[i] != s.list[j])
    && (s.current.Some? ==> s.current.value < |s.procs|)
    && (forall p | 0 <= p < |s.procs| :: s.procs[p].ticks <= QUOTA)
    && (forall p | p in s.list && p < |s.procs| && s.procs[p].state == Running :: s.current == Some(p))
    && (forall p | 0 <= p < |s.procs| && p !in s.list :: s.procs[p].ticks == 0)
  }

  // ----- The steps of schedule() -----

  function UpdateTimeouts(s: Sched): Sched {
    s.(procs := seq(|s.procs|, p requires 0 <= p < |s.procs| => if p in s.list then s.procs[p].Woken() else s.procs[p]))
  }

  function GiveTicks(s: Sched): Sched {
    s.(procs := seq(|s.procs|, p requires 0 <= p < |s.procs| =>
                  if p in s.list then s.procs[p].(ticks := QUOTA) else s.procs[p]))
  }

  ghost predicate Good(s: Sched) {
    && (forall i | 0 <= i < |s.list| :: s.list[i] < |s.procs|)
    && (s.current.Some? ==> s.current.value < |s.procs|)
  }

  // One walk of the list, from position `from` on.
  function FirstEligible(procs: seq<Proc>, list: seq<nat>, from: nat): (i: nat)
    requires from <= |list| && forall i | 0 <= i < |list| :: list[i] < |procs|
    ensures from <= i <= |list|
    ensures i < |list| ==> procs[list[i]].Eligible()
    ensures forall k | from <= k < i :: !procs[list[k]].Eligible()
    decreases |list| - from
  {
    if from == |list| || procs[list[from]].Eligible() then from else FirstEligible(procs, list, from + 1)
  }

  function Walk(s: Sched): Option<nat>
    requires Good(s)
  {
    var i := FirstEligible(s.procs, s.list, 0);
    if i < |s.list| then Some(s.list[i]) else None
  }

  // select_next_process: walk; if nobody is eligible, refill and walk again.  None
  // stands for walking forever.
  function Select(s: Sched): Option<(Sched, nat)>
    requires Good(s)
  {
    if Walk(s).Some? then Some((s, Walk(s).value))
    else if Walk(GiveTicks(s)).Some? then Some((GiveTicks(s), Walk(GiveTicks(s)).value))
    else None
  }

  datatype Result = Next(s: Sched) | Hung

  function SetProc(s: Sched, p: nat, v: Proc): Sched
    requires p < |s.procs|
  {
    s.(procs := s.procs[p := v])
  }

  // The current process, if it was running, becomes ready.
  function Yield(s: Sched): Sched
    requires Good(s)
  {
    match s.current
    case None => s
    case Some(c) => if s.procs[c].state == Running then SetProc(s, c, s.procs[c].(state := Ready)) else s
  }

  function SwitchTo(s: Sched, p: nat): Sched
    requires p < |s.procs|
  {
    SetProc(s, p, s.procs[p].(state := Running).Charged()).(current := Some(p))
  }

  predicate Enabled(s: Sched) {
    s.preempt && s.count != 0
  }

  predicate KeepsCurrent(s: Sched)
    requires Good(s)
  {
    s.current.Some? && s.procs[s.current.value].ticks > 0
  }

  function Schedule(s: Sched): Result
    requires Good(s)
  {
    if !Enabled(s) then Next(s) else
      var t := UpdateTimeouts(s);
      if KeepsCurrent(t) then Next(SetProc(t, t.current.value, t.procs[t.current.value].Charged()))
      else
        match Select(Yield(t))
        case None => Hung
        case Some((u, p)) => Next(SwitchTo(u, p))
  }

  // ----- Events -----

  datatype Event =
    | Tick                  // the timer interrupt
    | Expire                // process_expire of the current process
    | Sleep(n: u32)         // process_sleep of the current process
    | End                   // process_end of the current process
    | Create                // create_process
    | Preempt(on: bool)     // enable_kernel_preempt, disable_kernel_preempt

  // The current process acts for itself, and ends only while it is listed.
  predicate Possible(s: Sched, e: Event) {
    match e
    case Expire => s.current.Some?
    case Sleep(_) => s.current.Some?
    case End => s.current.Some? && s.current.value in s.list
    case _ => true
  }

  function Without(list: seq<nat>, p: nat): seq<nat> {
    if list == [] then [] else if list[0] == p then list[1..] else [list[0]] + Without(list[1..], p)
  }

  // What the caller does before it calls schedule().
  function Before(s: Sched, e: Event): Sched
    requires Good(s) && Possible(s, e)
  {
    match e
    case Expire => SetProc(s, s.current.value, s.procs[s.current.value].(ticks := 0))
    case Sleep(n) => SetProc(s, s.current.value, s.procs[s.current.value].(state := Sleeping, timeout := n, ticks := 0))
    case End =>
      SetProc(s, s.current.value, s.procs[s.current.value].(ticks := 0)).(list := Without(s.list, s.current.value))
    case Create =>
      s.(procs := s.procs + [Proc(Ready, QUOTA, 0, 0)], list := s.list + [|s.procs|], count := s.count + 1)
    case Preempt(on) => s.(preempt := on)
    case Tick => s
  }

  predicate CallsSchedule(e: Event) {
    e.Tick? || e.Expire? || e.Sleep? || e.End?
  }

  ghost function Step(s: Sched, e: Event): Result
    requires Inv(s) && Possible(s, e)
  {
    BeforeInv(s, e);
    if CallsSchedule(e) then Schedule(Before(s, e)) else Next(Before(s, e))
  }

  // An event that runs schedule() past its two guards.
  predicate Turn(s: Sched, e: Event) {
    CallsSchedule(e) && Enabled(s)
  }

  // ----- Runs -----

  ghost predicate Legal(s: Sched, es: seq<Event>)
    requires Inv(s)
    decreases |es|
  {
    hide Inv, Schedule, Before;
    es == [] ||
    (Possible(s, es[0]) &&
     match Step(s, es[0]) { case Hung => true case Next(t) => StepInv(s, es[0]); Legal(t, es[1..]) })
  }

  ghost function Run(s: Sched, es: seq<Event>): (r: Result)
    requires Inv(s) && Legal(s, es)
    ensures r.Next? ==> Inv(r.s)
    decreases |es|
  {
    hide Inv, Schedule, Before;
    if es == [] then Next(s) else
      match Step(s, es[0])
      case Hung => Hung
      case Next(t) => StepInv(s, es[0]); Run(t, es[1..])
  }

  // How many of the events run schedule() past its guards.
  ghost function Turns(s: Sched, es: seq<Event>): nat
    requires Inv(s) && Legal(s, es)
    decreases |es|
  {
    hide Inv, Schedule, Before;
    if es == [] then 0 else
      Count(s, es[0]) + match Step(s, es[0]) { case Hung => 0 case Next(t) => StepInv(s, es[0]); Turns(t, es[1..]) }
  }

  function Count(s: Sched, e: Event): nat {
    if Turn(s, e) then 1 else 0
  }

  lemma RunNone(s: Sched)
    requires Inv(s)
    ensures Legal(s, []) && Run(s, []) == Next(s) && Turns(s, []) == 0
  {
  }

  lemma RunFirst(s: Sched, e: Event, es: seq<Event>)
    requires Inv(s) && Legal(s, [e] + es) && Run(s, [e] + es).Next?
    ensures Possible(s, e) && Step(s, e).Next? && Inv(Step(s, e).s) && Legal(Step(s, e).s, es)
    ensures Run(s, [e] + es) == Run(Step(s, e).s, es)
    ensures Turns(s, [e] + es) == Count(s, e) + Turns(Step(s, e).s, es)
  {
    var all := [e] + es;
    assert all[0] == e && all[1..] == es;
    hide Inv, Step, Possible, Turn;
    StepInv(s, e);
  }

  // The state init_process leaves behind.
  const BOOT := Sched([], [], None, 0, false)

  lemma BootInv()
    ensures Inv(BOOT)
  {
  }

  // Over all runs since boot, a listed process that runs is the current one.
  lemma OneRunning(es: seq<Event>, p: nat, q: nat)
    requires Legal(BOOT, es) && Run(BOOT, es).Next?
    requires var s := Run(BOOT, es).s;
             && p in s.list && p < |s.procs| && s.procs[p].state == Running
             && q in s.list && q < |s.procs| && s.procs[q].state == Running
    ensures p == q && Run(BOOT, es).s.current == Some(p)
  {
    assert Inv(Run(BOOT, es).s);
  }

  // Since boot nothing runs until preemption is enabled.
  lemma NothingRuns(es: seq<Event>)
    requires Legal(BOOT, es) && Preempt(true) !in es
    ensures Run(BOOT, es).Next? && Run(BOOT, es).s.current == None && !Run(BOOT, es).s.preempt
  {
    StaysIdle(BOOT, es);
  }

  lemma {:induction false} StaysIdle(s: Sched, es: seq<Event>)
    requires Inv(s) && Legal(s, es) && Preempt(true) !in es && s.current == None && !s.preempt
    ensures Run(s, es).Next? && Run(s, es).s.current == None && !Run(s, es).s.preempt
    decreases |es|
  {
    if es == [] {
    } else {
      assert es[0] in es;
      var t := Step(s, es[0]);
      assert t.Next? && t.s.current == None && !t.s.preempt;
      StepInv(s, es[0]);
      hide Inv, Step, Possible;
      StaysIdle(t.s, es[1..]);
    }
  }

  lemma {:induction false} RunAppend(s: Sched, es: seq<Event>, e: Event)
    requires Inv(s) && Legal(s, es + [e]) && Legal(s, es) && Run(s, es).Next?
    ensures Possible(Run(s, es).s, e) && Run(s, es + [e]) == Step(Run(s, es).s, e)
    ensures Turns(s, es + [e]) == Turns(s, es) + Count(Run(s, es).s, e)
    decreases |es|
  {
    if es == [] {
      assert es + [e] == [e] && [e][1..] == [];
    } else {
      assert (es + [e])[0] == es[0] && (es + [e])[1..] == es[1..] + [e];
      hide Step, Inv, Possible, Turn;
      StepInv(s, es[0]);
      RunAppend(Step(s, es[0]).s, es[1..], e);
    }
  }

  lemma {:induction false} WithoutHas(list: seq<nat>, p: nat)
    requires forall i, j | 0 <= i < j < |list| :: list[i] != list[j]
    ensures forall q :: q in Without(list, p) <==> q in list && q != p
    ensures forall i, j | 0 <= i < j < |Without(list, p)| :: Without(list, p)[i] != Without(list, p)[j]
  {
    if list == [] {
    } else {
      WithoutHas(list[1..], p);
      if list[0] != p {
        var w := Without(list[1..], p);
        assert Without(list, p) == [list[0]] + w;
        assert list[0] !in w;
        forall i, j | 0 <= i < j < |Without(list, p)| ensures Without(list, p)[i] != Without(list, p)[j] {
          assert Without(list, p)[j] == w[j - 1];
        }
      }
    }
  }

  // ----- The invariant: at most one listed process runs, and it is `current` -----

  lemma EndInv(s: Sched)
    requires Inv(s) && Possible(s, End)
    ensures Inv(Before(s, End))
  {
    var t := Before(s, End);
    WithoutHas(s.list, s.current.value);
    forall i | 0 <= i < |t.list| ensures t.list[i] < |t.procs| {
      assert t.list[i] in s.list;
    }
  }

  lemma CreateInv(s: Sched)
    requires Inv(s)
    ensures Inv(Before(s, Create))
  {
    var t := Before(s, Create);
    assert t.list[|s.list|] == |s.procs|;
    assert forall p | p in s.list :: p in t.list;
  }

  lemma BeforeInv(s: Sched, e: Event)
    requires Inv(s) && Possible(s, e)
    ensures Inv(Before(s, e))
  {
    if e.End? {
      EndInv(s);
    } else if e.Create? {
      CreateInv(s);
    }
  }

  lemma UpdateInv(s: Sched)
    requires Inv(s)
    ensures Inv(UpdateTimeouts(s)) && Inv(Yield(s))
    ensures s.current.Some? ==> s.current.value < |s.procs| && Yield(s).procs[s.current.value].state != Running
  {
  }

  ghost predicate SameButTicks(s: Sched, u: Sched) {
    && u.list == s.list && u.current == s.current && u.count == s.count && u.preempt == s.preempt
    && |u.procs| == |s.procs|
    && forall i | 0 <= i < |s.procs| :: u.procs[i] == s.procs[i].(ticks := u.procs[i].ticks)
  }

  lemma GiveTicksInv(s: Sched)
    requires Inv(s)
    ensures Inv(GiveTicks(s)) && SameButTicks(s, GiveTicks(s))
  {
  }

  // The selected process runs, and nobody else does, because the previous one
  // does not run any more.
  lemma SwitchInv(s: Sched, p: nat)
    requires Inv(s) && p in s.list && (s.current.Some? ==> s.procs[s.current.value].state != Running)
    ensures p < |s.procs| && Inv(SwitchTo(s, p))
  {
    var t := SwitchTo(s, p);
    assert forall q | 0 <= q < |t.procs| && q != p :: t.procs[q] == s.procs[q];
  }

  lemma ChargeInv(s: Sched, c: nat)
    requires Inv(s) && c < |s.procs|
    ensures Inv(SetProc(s, c, s.procs[c].Charged()))
  {
  }

  lemma WalkFacts(s: Sched)
    requires Good(s)
    ensures Walk(s).Some? ==>
              Walk(s).value in s.list && Walk(s).value < |s.procs| && s.procs[Walk(s).value].Eligible()
    ensures Walk(s) == None ==> forall p | p in s.list && p < |s.procs| :: !s.procs[p].Eligible()
  {
    var i := FirstEligible(s.procs, s.list, 0);
    forall p | p in s.list && p < |s.procs| ensures Walk(s) == None ==> !s.procs[p].Eligible() {
      var k :| 0 <= k < |s.list| && s.list[k] == p;
    }
  }

  lemma SelectFacts(s: Sched)
    requires Inv(s) && Select(s).Some?
    ensures var (u, p) := Select(s).value;
            && Inv(u) && SameButTicks(s, u) && p in u.list && p < |u.procs| && u.procs[p].Eligible()
            && (u == s || u == GiveTicks(s))
  {
    GiveTicksInv(s);
    WalkFacts(s);
    WalkFacts(GiveTicks(s));
    assert SameButTicks(s, s);
    hide Inv, Walk, Good, GiveTicks, SameButTicks;
  }

  lemma TurnInv(s: Sched)
    requires Inv(s) && Schedule(s).Next?
    ensures Inv(Schedule(s).s)
  {
    var u := UpdateTimeouts(s);
    UpdateInv(s);
    UpdateInv(u);
    if Enabled(s) {
      if KeepsCurrent(u) {
        ChargeInv(u, u.current.value);
      } else {
        var y := Yield(u);
        SelectFacts(y);
        var (v, p) := Select(y).value;
        assert v.current.Some? ==> v.current.value < |v.procs| && v.procs[v.current.value].state != Running;
        hide Inv, UpdateTimeouts, GiveTicks, Yield, Select, SwitchTo, Walk, SameButTicks;
        SwitchInv(v, p);
      }
    }
  }

  // At most one listed process is running, and it is the current one, after any
  // possible event.
  lemma StepInv(s: Sched, e: Event)
    requires Inv(s) && Possible(s, e) && Step(s, e).Next?
    ensures Inv(Step(s, e).s)
  {
    BeforeInv(s, e);
    if CallsSchedule(e) {
      TurnInv(Before(s, e));
    }
  }

  // ----- select_next_process terminates -----

  function GiveTicksTimes(s: Sched, k: nat): Sched {
    if k == 0 then s else GiveTicks(GiveTicksTimes(s, k - 1))
  }

  ghost predicate SomeoneReady(s: Sched) {
    exists p | p in s.list :: p < |s.procs| && s.procs[p].state == Ready
  }

  // It selects somebody if and only if a listed process is ready.
  lemma SelectsReady(s: Sched)
    requires Inv(s)
    ensures SomeoneReady(s) <==> Select(s).Some?
  {
    RefillWakes(s);
    hide Inv, Walk, GiveTicks, SomeoneReady;
  }

  // However often the loop refills and walks again, it selects somebody exactly
  // then; and it does so within two walks.
  lemma SelectTerminates(s: Sched)
    requires Inv(s)
    ensures SomeoneReady(s) <==> Select(s).Some?
    ensures Select(s).Some? <==> exists k: nat :: WalkSucceeds(GiveTicksTimes(s, k))
  {
    SelectsReady(s);
    hide SomeoneReady;
    if Select(s).Some? {
      TwoWalks(s);
    }
    if k: nat :| WalkSucceeds(GiveTicksTimes(s, k)) {
      hide Walk, GiveTicks, Inv;
      if k == 0 {
      } else {
        GiveTicksOnce(s, k);
      }
    }
  }

  lemma TwoWalks(s: Sched)
    requires Inv(s) && Select(s).Some?
    ensures WalkSucceeds(GiveTicksTimes(s, 0)) || WalkSucceeds(GiveTicksTimes(s, 1))
  {
    RefillWakes(s);
    hide Inv, Walk, GiveTicks, SomeoneReady;
    assert GiveTicksTimes(s, 0) == s && GiveTicksTimes(s, 1) == GiveTicks(s);
  }

  ghost predicate WalkSucceeds(s: Sched) {
    Good(s) && Walk(s).Some?
  }

  lemma RefillWakes(s: Sched)
    requires Inv(s)
    ensures Good(GiveTicks(s))
    ensures SomeoneReady(s) <==> Walk(GiveTicks(s)).Some?
    ensures Walk(s).Some? ==> SomeoneReady(s)
  {
    var g := GiveTicks(s);
    WalkFacts(s);
    WalkFacts(g);
    if p :| p in s.list && p < |s.procs| && s.procs[p].state == Ready {
      assert g.procs[p].Eligible();
    }
    if Walk(g).Some? {
      assert s.procs[Walk(g).value].state == Ready;
    }
  }

  lemma {:induction false} GiveTicksOnce(s: Sched, k: nat)
    requires k > 0
    ensures GiveTicksTimes(s, k) == GiveTicks(s)
  {
    if k > 1 {
      GiveTicksOnce(s, k - 1);
      assert GiveTicks(GiveTicks(s)) == GiveTicks(s);
    } else {
      assert GiveTicksTimes(s, 0) == s;
    }
  }

  ghost predicate FirstAt(s: Sched, i: nat, p: nat)
    requires Good(s)
  {
    i < |s.list| && s.list[i] == p && s.procs[p].Eligible() && forall k | 0 <= k < i :: !s.procs[s.list[k]].Eligible()
  }

  ghost predicate FirstReadyAt(s: Sched, i: nat, p: nat)
    requires Good(s)
  {
    && i < |s.list| && s.list[i] == p && s.procs[p].state == Ready
    && forall k | 0 <= k < i :: s.procs[s.list[k]].state != Ready
  }

  // Whom it selects: the first ready process that has ticks left; if there is
  // none, the first ready one, after a refill.
  lemma SelectsFirst(s: Sched)
    requires Inv(s) && Select(s).Some?
    ensures var (u, p) := Select(s).value;
            if exists q | q in s.list :: q < |s.procs| && s.procs[q].Eligible()
            then u == s && exists i: nat :: FirstAt(s, i, p)
            else u == GiveTicks(s) && exists i: nat :: FirstReadyAt(s, i, p)
  {
    WalkFacts(s);
    if Walk(s).Some? {
      var i := FirstEligible(s.procs, s.list, 0);
      assert FirstAt(s, i, s.list[i]);
    } else {
      RefillFirst(s);
    }
  }

  lemma RefillFirst(s: Sched)
    requires Inv(s) && Good(GiveTicks(s)) && Walk(GiveTicks(s)).Some?
    ensures exists i: nat :: FirstReadyAt(s, i, Walk(GiveTicks(s)).value)
  {
    var g := GiveTicks(s);
    var i := FirstEligible(g.procs, g.list, 0);
    forall k | 0 <= k < |s.list| ensures g.procs[s.list[k]].Eligible() <==> s.procs[s.list[k]].state == Ready {
    }
    assert FirstReadyAt(s, i, s.list[i]);
  }

  // A listed process that keeps sleeping through the next update_timeouts.
  ghost predicate SleepsOn(s: Sched, p: nat) {
    p < |s.procs| && s.procs[p].state == Sleeping && s.procs[p].timeout != 1
  }

  lemma WokenReady(v: Proc)
    ensures v.Woken().state == Sleeping <==> v.state == Sleeping && v.timeout != 1
    ensures v.Woken().state == Running <==> v.state == Running
  {
  }

  lemma ReadyUnless(s: Sched)
    requires Inv(s)
    ensures var u := UpdateTimeouts(s);
            Inv(u) && (SomeoneReady(Yield(u)) <==> exists p | p in s.list :: !SleepsOn(s, p))
  {
    var u := UpdateTimeouts(s);
    UpdateInv(s);
    var y := Yield(u);
    forall p | p in s.list ensures p < |y.procs| && (y.procs[p].state == Ready <==> !SleepsOn(s, p)) {
      WokenReady(s.procs[p]);
    }
  }

  // Exactly when schedule() never returns: it has to choose, and everybody
  // listed sleeps on.
  lemma HangsWhen(s: Sched)
    requires Inv(s)
    ensures Schedule(s).Hung? <==>
            && s.preempt && s.count != 0 && (s.current.Some? ==> s.procs[s.current.value].ticks == 0)
            && forall p | p in s.list :: p < |s.procs| && s.procs[p].state == Sleeping && s.procs[p].timeout != 1
  {
    hide Schedule, Inv;
    HangsAsleep(s);
  }

  lemma HangsAsleep(s: Sched)
    requires Inv(s)
    ensures Schedule(s).Hung? <==>
            && Enabled(s) && (s.current.Some? ==> s.procs[s.current.value].ticks == 0)
            && forall p | p in s.list :: SleepsOn(s, p)
  {
    var u := UpdateTimeouts(s);
    hide Select, SomeoneReady, SleepsOn, SwitchTo;
    ReadyUnless(s);
    assert KeepsCurrent(u) <==> s.current.Some? && s.procs[s.current.value].ticks > 0;
    hide UpdateTimeouts;
    UpdateInv(u);
    var y := Yield(u);
    hide Inv, Yield;
    assert SomeoneReady(y) <==> Select(y).Some? by { SelectsReady(y); }
  }

  // ----- What one call does, field by field -----

  // With preemption disabled, or before the first process is created, schedule()
  // returns at once.
  lemma GuardsReturn(s: Sched)
    requires Inv(s) && (!s.preempt || s.count == 0)
    ensures Schedule(s) == Next(s) && Step(s, Tick) == Next(s)
  {
  }

  // One process in a round of timeouts: a listed sleeper is one closer, from 0 on
  // backwards through 32 bits, and at 1 it becomes ready.
  lemma TimeoutSays(s: Sched, p: nat)
    requires p < |s.procs|
    ensures var u := UpdateTimeouts(s); var v := s.procs[p];
            && u == s.(procs := u.procs) && |u.procs| == |s.procs|
            && u.procs[p] == if v.state != Sleeping || p !in s.list then v
                             else if v.timeout == 1 then v.(state := Ready, timeout := 0)
                             else v.(timeout := if v.timeout == 0 then 0xFFFF_FFFF else v.timeout - 1)
  {
  }

  // While the current process has ticks left it stays, charged one tick; of the
  // others only the timeouts move.
  lemma KeepsRunning(s: Sched, p: nat)
    requires Inv(s) && s.preempt && s.count != 0 && s.current.Some? && s.procs[s.current.value].ticks > 0
    requires p < |s.procs|
    ensures var r := Schedule(s); var u := UpdateTimeouts(s);
            && r.Next? && r.s == s.(procs := r.s.procs) && |r.s.procs| == |s.procs|
            && r.s.procs[p] == if s.current != Some(p) then u.procs[p]
                               else u.procs[p].(ticks := s.procs[p].ticks - 1,
                                                tt := (s.procs[p].tt + 1) % 0x1_0000_0000)
  {
    TimeoutSays(s, s.current.value);
    TimeoutSays(s, p);
    hide UpdateTimeouts, Inv;
  }

  // Otherwise the current process yields, and whoever is selected runs.
  lemma ChosenRuns(s: Sched)
    requires Inv(s) && s.preempt && s.count != 0 && (s.current.Some? ==> s.procs[s.current.value].ticks == 0)
    requires Schedule(s).Next?
    ensures var y := Yield(UpdateTimeouts(s)); var q := Select(y).value.1;
            Select(y).Some? && q < |Select(y).value.0.procs| && Schedule(s).s == SwitchTo(Select(y).value.0, q)
  {
    var u := UpdateTimeouts(s);
    UpdateInv(s);
    UpdateInv(u);
    if s.current.Some? {
      TimeoutSays(s, s.current.value);
    }
    SelectFacts(Yield(u));
    hide UpdateTimeouts, Inv, Select, GiveTicks, SwitchTo;
  }

  // It is marked running, becomes the current process and is charged one tick.
  lemma SwitchSays(s: Sched, q: nat, p: nat)
    requires q < |s.procs| && p < |s.procs| && s.procs[q].ticks > 0
    ensures var t := SwitchTo(s, q); var v := s.procs[p];
            && t == s.(procs := t.procs, current := Some(q)) && |t.procs| == |s.procs|
            && t.procs[p] == if p != q then v
                             else v.(state := Running, ticks := v.ticks - 1, tt := (v.tt + 1) % 0x1_0000_0000)
  {
  }

  lemma YieldSays(s: Sched, p: nat)
    requires Good(s) && p < |s.procs|
    ensures var y := Yield(s); var v := s.procs[p];
            && y == s.(procs := y.procs) && |y.procs| == |s.procs|
            && y.procs[p] == if s.current == Some(p) && v.state == Running then v.(state := Ready) else v
  {
  }

  // A refill gives every listed process 100 ticks, the sleeping ones too, and
  // touches nothing else; there is one only when no ready process has ticks.
  lemma RefillGives(s: Sched)
    requires Inv(s) && Select(s).Some?
    ensures var u := Select(s).value.0;
            if exists p | p in s.list :: p < |s.procs| && s.procs[p].state == Ready && s.procs[p].ticks > 0 then u == s
            else && u == s.(procs := u.procs) && |u.procs| == |s.procs|
                 && forall p | 0 <= p < |s.procs| ::
                      u.procs[p] == if p in s.list then s.procs[p].(ticks := 100) else s.procs[p]
  {
    WalkFacts(s);
  }

  // The events: what each does before schedule() is called, and which call it.
  lemma EventsSay(s: Sched, e: Event)
    requires Inv(s) && Possible(s, e)
    ensures var t := Before(s, e);
            && (e.Tick? ==> t == s)
            && (e.Preempt? ==> t == s.(preempt := e.on))
            && (e.Create? ==> t == s.(procs := s.procs + [Proc(Ready, 100, 0, 0)], list := s.list + [|s.procs|],
                                      count := s.count + 1))
            && (e.Expire? || e.Sleep? || e.End? ==>
                  var c := s.current.value; var v := s.procs[c];
                  && t == s.(procs := t.procs, list := t.list)
                  && t.procs == s.procs[c := if e.Sleep? then Proc(Sleeping, 0, e.n, v.tt) else v.(ticks := 0)]
                  && (!e.End? ==> t.list == s.list)
                  && (e.End? ==> exists i ::
                        0 <= i < |s.list| && s.list[i] == c && t.list == s.list[..i] + s.list[i + 1..]))
            && Step(s, e) == if e.Create? || e.Preempt? then Next(t) else Schedule(t)
  {
    if e.End? {
      var i := WithoutCuts(s.list, s.current.value);
    }
  }

  // list_del takes one node out and keeps the order of the others.
  lemma {:induction false} WithoutCuts(list: seq<nat>, p: nat) returns (i: nat)
    requires p in list
    ensures i < |list| && list[i] == p && Without(list, p) == list[..i] + list[i + 1..]
  {
    if list[0] == p {
      i := 0;
    } else {
      i := WithoutCuts(list[1..], p);
      i := i + 1;
      assert list[..i] == [list[0]] + list[1..][..i - 1];
    }
  }
}
