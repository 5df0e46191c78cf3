// Any interleaving of processes on one register file and one memory, seen as one
// context per process.

module ContextRuns {
  import opened Words
  import opened Memory
  import opened ContextModel

  // The machine, its processes by number, and which of them runs.
  datatype Sys = Sys(machine: Machine, tasks: map<nat, Task>, cur: nat)

  // What the program that keeps one context per process would do: the registers
  // of the running process, and a context for every other.
  datatype Os = Os(cur: nat, regs: Regs, contexts: map<nat, Regs>)

  datatype Event =
    | Work(mem: Bytes, regs: Regs)              // the current process runs code of its own
    | Call(next: nat)                           // the current process calls switchTo
    | Spawn(pid: nat, task: Task, proc: u32)    // the current process sets up another one
    | Forget(pid: nat)                          // a process has ended: its memory is anyone's

  datatype OsEvent =
    | Compute(regs: Regs)
    | Switch(next: nat, ret: u32)
    | Start(pid: nat, initial: Regs)
    | Drop(pid: nat)

  // ----- One context per process -----

  function Back(r: Regs, ret: u32): Regs
    requires r.esp <= WORD_SIZE - 8
  {
    r.(eax := ret, eip := ret, esp := r.esp + 4)
  }

  predicate OsAllowed(o: Os, e: OsEvent) {
    match e
    case Compute(_) => true
    case Switch(next, _) => (next == o.cur || next in o.contexts) && o.regs.esp <= WORD_SIZE - 8
    case Start(pid, _) => pid != o.cur && pid !in o.contexts
    case Drop(pid) => pid in o.contexts
  }

  function OsStep(o: Os, e: OsEvent): Os
    requires OsAllowed(o, e)
  {
    match e
    case Compute(regs) => o.(regs := regs)
    case Switch(next, ret) =>
      if next == o.cur then o.(regs := Back(o.regs, ret))
      else Os(next, o.contexts[next], (o.contexts - {next})[o.cur := Back(o.regs, ret)])
    case Start(pid, initial) => o.(contexts := o.contexts[pid := initial])
    case Drop(pid) => o.(contexts := o.contexts - {pid})
  }

  // ----- The machine -----

  ghost predicate Shape(y: Sys) {
    && Layout(y.tasks) && y.cur in y.tasks && y.machine.current == y.tasks[y.cur].record
    && forall i | i in y.tasks && i != y.cur :: Suspended(y.machine.mem, y.tasks[i])
  }

  // A process leaves the esp and the frame of every other alone, calls switchTo on
  // its own stack, and sets up new ones away from the rest.
  ghost predicate Allowed(y: Sys, e: Event)
    requires Shape(y)
  {
    match e
    case Work(mem, _) => forall i | i in y.tasks && i != y.cur :: Undisturbed(y.machine.mem, mem, y.tasks[i])
    case Call(next) =>
      && next in y.tasks && OnStack(y.machine, y.tasks[y.cur])
      && Load32(y.machine.mem, y.machine.regs.esp + 4) == y.tasks[next].record
    case Spawn(pid, task, _) => pid !in y.tasks && Layout(y.tasks[pid := task])
    case Forget(pid) => pid in y.tasks && pid != y.cur
  }

  // What a call of switchTo leaves of each process: the caller as if the call had
  // returned, every other as it was.
  lemma CallKeeps(y: Sys, next: nat, i: nat)
    requires Shape(y) && Allowed(y, Call(next)) && i in y.tasks
    ensures CanSwitch(y.machine) && Suspended(Saved(y.machine), y.tasks[i])
    ensures ContextOf(Saved(y.machine), y.tasks[i]) ==
            if i == y.cur then Returned(y.machine) else ContextOf(y.machine.mem, y.tasks[i])
  {
    var s, t := y.machine, y.tasks[y.cur];
    assert Placed(t) && Placed(y.tasks[i]);
    SavedFrame(s, t);
    if i != y.cur {
      assert Separate(t, y.tasks[i]);
      SavedSpares(s, t, y.tasks[i]);
      ContextKept(s.mem, Saved(s), y.tasks[i]);
    }
    hide Layout, Saved, Frame, Returned, Separate;
  }

  lemma CallReady(y: Sys, next: nat)
    requires Shape(y) && Allowed(y, Call(next))
    ensures CanSwitch(y.machine) && CanResume(y.machine)
    ensures Load32(Saved(y.machine), y.machine.regs.esp + 4) == y.tasks[next].record
  {
    assert Placed(y.tasks[y.cur]) && Placed(y.tasks[next]);
    SavedFrame(y.machine, y.tasks[y.cur]);
    hide Saved, Frame, Separate;
    CallKeeps(y, next, next);
  }

  lemma SpawnPlaced(ts: map<nat, Task>, pid: nat, t: Task)
    requires Layout(ts[pid := t]) && pid !in ts
    ensures Placed(t) && forall i | i in ts :: Separate(ts[i], t)
  {
    var us := ts[pid := t];
    assert us[pid] == t;
    forall i | i in ts ensures Separate(ts[i], t) {
      assert us[i] == ts[i];
    }
  }

  ghost function Step(y: Sys, e: Event): Sys
    requires Shape(y) && Allowed(y, e)
  {
    match e
    case Work(mem, regs) => y.(machine := Machine(mem, regs, y.machine.current))
    case Call(next) =>
      CallReady(y, next);
      Sys(SwitchTo(y.machine), y.tasks, next)
    case Spawn(pid, task, proc) =>
      SpawnPlaced(y.tasks, pid, task);
      Sys(y.machine.(mem := Setup(y.machine.mem, task.record, task.hi - 4, proc)), y.tasks[pid := task], y.cur)
    case Forget(pid) => y.(tasks := y.tasks - {pid})
  }

  // The same event for the program with one context per process.
  ghost function Seen(y: Sys, e: Event): OsEvent
    requires Shape(y) && Allowed(y, e)
  {
    match e
    case Work(_, regs) => Compute(regs)
    case Call(next) => CallReady(y, next); Switch(next, Load32(y.machine.mem, y.machine.regs.esp))
    case Spawn(pid, task, proc) => SpawnPlaced(y.tasks, pid, task); Start(pid, Initial(proc, task.hi - 4))
    case Forget(pid) => Drop(pid)
  }

  // The context that memory holds for a suspended process.
  ghost function Context(y: Sys, i: nat): Regs
    requires Shape(y) && i in y.tasks && i != y.cur
  {
    ContextOf(y.machine.mem, y.tasks[i])
  }

  ghost function Abs(y: Sys): Os
    requires Shape(y)
  {
    Os(y.cur, y.machine.regs, map i | i in y.tasks && i != y.cur :: Context(y, i))
  }

  // ----- One event -----

  // Two machines that hold the same contexts for the same processes but the
  // running one.
  lemma SameAbs(y: Sys, o: Os)
    requires Shape(y) && o.cur == y.cur && o.regs == y.machine.regs
    requires forall i :: i in o.contexts <==> i in y.tasks && i != y.cur
    requires forall i | i in y.tasks && i != y.cur :: Context(y, i) == o.contexts[i]
    ensures Abs(y) == o
  {
    hide Shape, Context;
    assert Abs(y).contexts == o.contexts;
  }

  lemma AbsHolds(y: Sys)
    requires Shape(y)
    ensures Abs(y).cur == y.cur && Abs(y).regs == y.machine.regs
    ensures forall i | i in Abs(y).contexts :: i in y.tasks && i != y.cur
    ensures forall i | i in y.tasks && i != y.cur :: i in Abs(y).contexts && Abs(y).contexts[i] == Context(y, i)
  {
    hide Shape, Context;
  }

  lemma SeenAllowed(y: Sys, e: Event)
    requires Shape(y) && Allowed(y, e)
    ensures OsAllowed(Abs(y), Seen(y, e))
  {
    AbsHolds(y);
    hide Abs, Context, Layout, Load32;
    match e
    case Call(next) => CallReady(y, next); hide Saved;
    case _ =>
  }

  lemma WorkKeeps(y: Sys, e: Event, i: nat)
    requires Shape(y) && e.Work? && Allowed(y, e) && i in y.tasks && i != y.cur
    ensures Placed(y.tasks[i]) && Suspended(e.mem, y.tasks[i]) && ContextOf(e.mem, y.tasks[i]) == Context(y, i)
  {
    var t := y.tasks[i];
    assert Placed(t) && Suspended(y.machine.mem, t) && Undisturbed(y.machine.mem, e.mem, t);
    hide Shape, Layout, Placed, Undisturbed, Suspended, ContextOf;
    ContextKept(y.machine.mem, e.mem, t);
  }

  lemma WorkRefines(y: Sys, e: Event)
    requires Shape(y) && e.Work? && Allowed(y, e)
    ensures Shape(Step(y, e)) && Abs(Step(y, e)) == OsStep(Abs(y), Seen(y, e))
  {
    hide Placed, Suspended, ContextOf, Undisturbed, Frame, Load32;
    forall i | i in y.tasks && i != y.cur
      ensures Placed(y.tasks[i]) && Suspended(e.mem, y.tasks[i]) && ContextOf(e.mem, y.tasks[i]) == Context(y, i)
    {
      WorkKeeps(y, e, i);
    }
    var z := Step(y, e);
    assert Shape(z);
    SameAbs(z, OsStep(Abs(y), Seen(y, e)));
  }

  lemma CallKeepsAll(y: Sys, next: nat)
    requires Shape(y) && Allowed(y, Call(next))
    ensures Shape(Step(y, Call(next)))
    ensures forall i | i in y.tasks && i != next ::
              Context(Step(y, Call(next)), i) == if i == y.cur then Returned(y.machine) else Context(y, i)
    ensures Step(y, Call(next)).machine.regs == if next == y.cur then Returned(y.machine) else Context(y, next)
  {
    CallReady(y, next);
    hide Saved, Placed, Suspended, Frame, Load32, Undisturbed, OnStack, CanResume;
    var z := Step(y, Call(next));
    forall i | i in y.tasks
      ensures Placed(y.tasks[i]) && Suspended(z.machine.mem, y.tasks[i])
      ensures ContextOf(z.machine.mem, y.tasks[i]) == if i == y.cur then Returned(y.machine) else Context(y, i)
    {
      CallKeeps(y, next, i);
    }
    assert Shape(z);
  }

  lemma SwitchContexts(o: Os, next: nat, ret: u32)
    requires OsAllowed(o, Switch(next, ret)) && o.cur !in o.contexts
    ensures o.regs.esp <= WORD_SIZE - 8
    ensures var p := OsStep(o, Switch(next, ret));
            && p.cur == next && p.regs == (if next == o.cur then Back(o.regs, ret) else o.contexts[next])
            && (forall i :: i in p.contexts <==> i != next && (i == o.cur || i in o.contexts))
            && (forall i | i in p.contexts :: p.contexts[i] == if i == o.cur then Back(o.regs, ret) else o.contexts[i])
  {
  }

  lemma CallRefines(y: Sys, next: nat)
    requires Shape(y) && Allowed(y, Call(next))
    ensures Shape(Step(y, Call(next))) && OsAllowed(Abs(y), Seen(y, Call(next)))
    ensures Abs(Step(y, Call(next))) == OsStep(Abs(y), Seen(y, Call(next)))
  {
    assert y.cur in y.tasks;
    hide Shape, SwitchTo, Context, Saved, Load32, Abs, OnStack, Layout, OsAllowed, OsStep;
    CallReady(y, next);
    CallKeepsAll(y, next);
    SeenAllowed(y, Call(next));
    AbsHolds(y);
    SwitchContexts(Abs(y), next, Load32(y.machine.mem, y.machine.regs.esp));
    SameAbs(Step(y, Call(next)), OsStep(Abs(y), Seen(y, Call(next))));
  }

  lemma SpawnKeeps(m: Bytes, t: Task, proc: u32, u: Task)
    requires Placed(t) && Placed(u) && Separate(u, t) && Suspended(m, u)
    ensures Suspended(Setup(m, t.record, t.hi - 4, proc), u)
    ensures ContextOf(Setup(m, t.record, t.hi - 4, proc), u) == ContextOf(m, u)
  {
    hide Setup, Load32, Frame;
    SetupSpares(m, t.record, t.hi - 4, proc, u.record, u.record + 4);
    SetupSpares(m, t.record, t.hi - 4, proc, u.lo, u.hi);
    ContextKept(m, Setup(m, t.record, t.hi - 4, proc), u);
  }

  lemma SpawnStarts(m: Bytes, t: Task, proc: u32)
    requires Placed(t)
    ensures Suspended(Setup(m, t.record, t.hi - 4, proc), t)
    ensures ContextOf(Setup(m, t.record, t.hi - 4, proc), t) == Initial(proc, t.hi - 4)
  {
    SetupFrame(m, t.record, t.hi - 4, proc);
    hide Setup, Load32, Frame;
  }

  lemma SpawnContext(y: Sys, pid: nat, t: Task, proc: u32, i: nat)
    requires Shape(y) && Allowed(y, Spawn(pid, t, proc)) && i in y.tasks[pid := t] && i != y.cur
    ensures var u := y.tasks[pid := t][i];
            && Placed(t) && Placed(u) && Suspended(Setup(y.machine.mem, t.record, t.hi - 4, proc), u)
            && ContextOf(Setup(y.machine.mem, t.record, t.hi - 4, proc), u) ==
               if i == pid then Initial(proc, t.hi - 4) else Context(y, i)
  {
    SpawnPlaced(y.tasks, pid, t);
    hide Setup, ContextOf, Separate;
    if i == pid {
      SpawnStarts(y.machine.mem, t, proc);
    } else {
      assert Placed(y.tasks[i]) && Suspended(y.machine.mem, y.tasks[i]);
      hide Suspended;
      SpawnKeeps(y.machine.mem, t, proc, y.tasks[i]);
    }
  }

  lemma SpawnRefines(y: Sys, e: Event)
    requires Shape(y) && e.Spawn? && Allowed(y, e)
    ensures Shape(Step(y, e)) && Abs(Step(y, e)) == OsStep(Abs(y), Seen(y, e))
  {
    hide Setup, Suspended, ContextOf, Separate, Placed, Layout;
    var z := Step(y, e);
    SpawnPlaced(y.tasks, e.pid, e.task);
    forall i | i in z.tasks && i != z.cur
      ensures Placed(z.tasks[i]) && Suspended(z.machine.mem, z.tasks[i])
      ensures ContextOf(z.machine.mem, z.tasks[i]) ==
              if i == e.pid then Initial(e.proc, e.task.hi - 4) else Context(y, i)
    {
      SpawnContext(y, e.pid, e.task, e.proc, i);
    }
  }

  lemma ForgetRefines(y: Sys, e: Event)
    requires Shape(y) && e.Forget? && Allowed(y, e)
    ensures Shape(Step(y, e)) && Abs(Step(y, e)) == OsStep(Abs(y), Seen(y, e))
  {
    hide Placed, Suspended, Separate, ContextOf;
    assert Shape(Step(y, e));
    SameAbs(Step(y, e), OsStep(Abs(y), Seen(y, e)));
  }

  // Whatever happens, the machine is still the program that keeps one context
  // per process.
  lemma StepRefines(y: Sys, e: Event)
    requires Shape(y) && Allowed(y, e)
    ensures Shape(Step(y, e)) && OsAllowed(Abs(y), Seen(y, e))
    ensures Abs(Step(y, e)) == OsStep(Abs(y), Seen(y, e))
  {
    hide Shape, Layout, Step, OsStep, Abs, OsAllowed, Seen;
    SeenAllowed(y, e);
    match e
    case Work(_, _) => WorkRefines(y, e);
    case Call(next) => CallRefines(y, next);
    case Spawn(_, _, _) => SpawnRefines(y, e);
    case Forget(_) => ForgetRefines(y, e);
  }

  // ----- Whole runs -----

  ghost predicate Legal(y: Sys, es: seq<Event>)
    requires Shape(y)
    decreases |es|
  {
    es == [] || (Allowed(y, es[0]) && (StepRefines(y, es[0]); Legal(Step(y, es[0]), es[1..])))
  }

  ghost function Run(y: Sys, es: seq<Event>): (z: Sys)
    requires Shape(y) && Legal(y, es)
    ensures Shape(z)
    decreases |es|
  {
    if es == [] then y else StepRefines(y, es[0]); Run(Step(y, es[0]), es[1..])
  }

  ghost function OsEvents(y: Sys, es: seq<Event>): seq<OsEvent>
    requires Shape(y) && Legal(y, es)
    decreases |es|
  {
    if es == [] then [] else StepRefines(y, es[0]); [Seen(y, es[0])] + OsEvents(Step(y, es[0]), es[1..])
  }

  ghost predicate OsLegal(o: Os, es: seq<OsEvent>)
    decreases |es|
  {
    es == [] || (OsAllowed(o, es[0]) && OsLegal(OsStep(o, es[0]), es[1..]))
  }

  ghost function OsRun(o: Os, es: seq<OsEvent>): Os
    requires OsLegal(o, es)
    decreases |es|
  {
    if es == [] then o else OsRun(OsStep(o, es[0]), es[1..])
  }

  // For any interleaving of work, switches, new and ended processes: one register
  // file and many stacks behave like one context per process.
  lemma {:induction false} RunRefines(y: Sys, es: seq<Event>)
    requires Shape(y) && Legal(y, es)
    ensures OsLegal(Abs(y), OsEvents(y, es)) && Abs(Run(y, es)) == OsRun(Abs(y), OsEvents(y, es))
    decreases |es|
  {
    if es == [] {
    } else {
      StepRefines(y, es[0]);
      var rest := OsEvents(Step(y, es[0]), es[1..]);
      assert OsEvents(y, es) == [Seen(y, es[0])] + rest;
      assert OsEvents(y, es)[1..] == rest;
      hide Abs, Shape, Allowed, Step, Seen, OsStep, OsAllowed;
      RunRefines(Step(y, es[0]), es[1..]);
    }
  }

  lemma {:induction false} RunAppend(y: Sys, ds: seq<Event>, es: seq<Event>)
    requires Shape(y) && Legal(y, ds) && Legal(Run(y, ds), es)
    ensures Legal(y, ds + es) && Run(y, ds + es) == Run(Run(y, ds), es)
    decreases |ds|
  {
    hide Shape, Allowed, Step;
    if ds == [] {
      assert ds + es == es;
    } else {
      assert (ds + es)[0] == ds[0] && (ds + es)[1..] == ds[1..] + es;
      StepRefines(y, ds[0]);
      RunAppend(Step(y, ds[0]), ds[1..], es);
    }
  }

  lemma RunOne(y: Sys, e: Event)
    requires Shape(y) && Allowed(y, e)
    ensures Legal(y, [e]) && Run(y, [e]) == Step(y, e)
  {
    StepRefines(y, e);
    hide Shape, Allowed, Step;
    assert [e][1..] == [];
  }

  // A process that works, switches away for good and is forgotten.
  lemma RunLeaves(y: Sys, next: nat)
    requires Shape(y) && Allowed(y, Call(next)) && next != y.cur
    ensures Legal(y, [Call(next)] + [Forget(y.cur)])
    ensures Run(y, [Call(next)] + [Forget(y.cur)]) == Step(y, Call(next)).(tasks := y.tasks - {y.cur})
  {
    StepRefines(y, Call(next));
    var z := Step(y, Call(next));
    assert z.cur == next && z.tasks == y.tasks && y.cur in y.tasks;
    assert Allowed(z, Forget(y.cur)) && Step(z, Forget(y.cur)) == z.(tasks := y.tasks - {y.cur});
    hide Shape, Allowed, Step;
    RunOne(y, Call(next));
    RunOne(z, Forget(y.cur));
    RunAppend(y, [Call(next)], [Forget(y.cur)]);
  }

  // Neither a switch to i nor its end.
  predicate Spares(e: Event, i: nat) {
    (e.Call? ==> e.next != i) && (e.Forget? ==> e.pid != i)
  }

  lemma OsKeeps(o: Os, e: OsEvent, i: nat)
    requires OsAllowed(o, e) && i in o.contexts && i != o.cur
    requires (e.Switch? ==> e.next != i) && (e.Drop? ==> e.pid != i)
    ensures i in OsStep(o, e).contexts && i != OsStep(o, e).cur && OsStep(o, e).contexts[i] == o.contexts[i]
  {
  }

  // Such an event leaves the context of a suspended process.
  lemma StepKeeps(y: Sys, e: Event, i: nat)
    requires Shape(y) && Allowed(y, e) && i in y.tasks && i != y.cur && Spares(e, i)
    ensures Shape(Step(y, e)) && i in Step(y, e).tasks && i != Step(y, e).cur
    ensures Context(Step(y, e), i) == Context(y, i)
  {
    assert (Seen(y, e).Switch? ==> Seen(y, e).next != i) && (Seen(y, e).Drop? ==> Seen(y, e).pid != i);
    hide Context, Shape, Abs, Allowed, Step, Seen, OsStep, OsAllowed;
    StepRefines(y, e);
    AbsHolds(y);
    AbsHolds(Step(y, e));
    OsKeeps(Abs(y), Seen(y, e), i);
  }

  lemma {:induction false} RunKeeps(y: Sys, es: seq<Event>, i: nat)
    requires Shape(y) && Legal(y, es) && i in y.tasks && i != y.cur && forall e | e in es :: Spares(e, i)
    ensures i in Run(y, es).tasks && i != Run(y, es).cur
    ensures Context(Run(y, es), i) == Context(y, i)
    decreases |es|
  {
    hide Context, Shape, Allowed, Step;
    if es == [] {
    } else {
      StepKeeps(y, es[0], i);
      RunKeeps(Step(y, es[0]), es[1..], i);
    }
  }

  // The two ends of a stay away: the caller's context is what the call would have
  // returned to, and a switch to a suspended process loads its context.
  lemma CallSuspends(y: Sys, next: nat)
    requires Shape(y) && Allowed(y, Call(next)) && next != y.cur
    ensures var z := Step(y, Call(next));
            && Shape(z) && y.cur in z.tasks && z.cur == next && y.machine.regs.esp <= WORD_SIZE - 8
            && Context(z, y.cur) == Returned(y.machine)
  {
    CallRefines(y, next);
    assert Abs(Step(y, Call(next))).contexts[y.cur] == Returned(y.machine);
    hide Context, Shape, Allowed;
  }

  lemma CallResumes(y: Sys, next: nat)
    requires Shape(y) && Allowed(y, Call(next)) && next != y.cur
    ensures Step(y, Call(next)).cur == next && Step(y, Call(next)).machine.regs == Context(y, next)
  {
    CallRefines(y, next);
    assert Abs(Step(y, Call(next))).regs == Abs(y).contexts[next];
    hide Context, Shape, Allowed;
  }

  // A process that calls switchTo and does not end is later resumed exactly as if
  // that call had just returned: every register but eax as it was, and the stack
  // pointer at the argument, whatever the others did in between.
  lemma Resumes(y: Sys, next: nat, es: seq<Event>)
    requires Shape(y) && Allowed(y, Call(next)) && next != y.cur
    requires (CallSuspends(y, next); Legal(Step(y, Call(next)), es))
    requires forall e | e in es :: Spares(e, y.cur)
    requires Allowed(Run(Step(y, Call(next)), es), Call(y.cur))
    ensures var z := Step(Run(Step(y, Call(next)), es), Call(y.cur));
            z.cur == y.cur && y.machine.regs.esp <= WORD_SIZE - 8 && z.machine.regs == Returned(y.machine)
  {
    CallSuspends(y, next);
    hide Context, Shape, Allowed, Step, Legal, Run;
    RunKeeps(Step(y, Call(next)), es, y.cur);
    CallResumes(Run(Step(y, Call(next)), es), y.cur);
  }

  // The boot code's stack is clear of all records and stacks.
  predicate Clear(s: Machine, t: Task) {
    var top := s.regs.esp + 4;
    && (top + 4 <= t.record || t.record + 8 <= top - FRAME_SIZE)
    && (top + 4 <= t.lo || t.hi <= top - FRAME_SIZE)
  }

  lemma FirstKeeps(s: Machine, t: Task)
    requires Placed(t) && s.current == 0 && CanSwitch(s) && Suspended(s.mem, t) && Clear(s, t)
    ensures Suspended(Saved(s), t) && ContextOf(Saved(s), t) == ContextOf(s.mem, t)
  {
    hide Saved, Load32, Frame;
    SavedWithin(s, t.record, t.record + 4);
    SavedWithin(s, t.lo, t.hi);
    ContextKept(s.mem, Saved(s), t);
  }

  // The first switch of all, with no current process yet: nothing is saved for
  // the boot code, and the chosen process runs in its own context.
  lemma FirstSwitch(s: Machine, ts: map<nat, Task>, next: nat)
    requires Layout(ts) && next in ts && s.current == 0 && CanSwitch(s)
    requires forall i | i in ts :: Suspended(s.mem, ts[i]) && Clear(s, ts[i])
    requires Load32(s.mem, s.regs.esp + 4) == ts[next].record
    ensures CanResume(s) && SwitchTo(s).current == ts[next].record && SwitchTo(s).regs == ContextOf(s.mem, ts[next])
    ensures Shape(Sys(SwitchTo(s), ts, next))
    ensures forall i | i in ts ::
              Suspended(SwitchTo(s).mem, ts[i]) && ContextOf(SwitchTo(s).mem, ts[i]) == ContextOf(s.mem, ts[i])
  {
    assert forall i | i in ts :: Placed(ts[i]);
    hide Load32, Frame, Clear, Separate, Placed;
    SavedWithin(s, s.regs.esp + 4, s.regs.esp + 8);
    LoadFrame(s.mem, Saved(s), s.regs.esp + 4);
    hide Saved;
    forall i | i in ts
      ensures Suspended(Saved(s), ts[i]) && ContextOf(Saved(s), ts[i]) == ContextOf(s.mem, ts[i])
    {
      FirstKeeps(s, ts[i]);
    }
    PlacedBounds(ts[next]);
    hide ContextOf;
  }

  lemma PlacedBounds(t: Task)
    requires Placed(t)
    ensures t.record <= WORD_SIZE - 8 && t.hi <= WORD_SIZE
  {
  }
}
