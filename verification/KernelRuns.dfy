// Whole runs of the kernel on one memory: its processes compute, call kmalloc and
// kfree, switch, create processes and end.  Headers, records and stacks are bytes
// of the same memory, and records and stacks are blocks of the heap.

module KernelRuns {
  import opened Words
  import opened Memory
  import opened CircularList
  import opened HeapMemory
  import opened KernelHeaps
  import opened ContextModel
  import opened KernelStacks
  import H = HeapModel
  import R = ContextRuns

  // The machine with its processes, the heap that its memory holds, and the blocks
  // of every process that has not ended.
  datatype Kernel = Kernel(sys: R.Sys, heap: H.Heap, places: map<nat, Place>, chain: int) {
    function Mem(): Bytes { sys.machine.mem }
  }

  // What the current process does.
  datatype Act =
    | Compute(mem: Bytes, regs: Regs)
    | Serve(call: H.Call, mem: Bytes, regs: Regs)                 // kmalloc or kfree
    | Yield(next: nat)                                            // switchTo
    | Create(pid: nat, place: Place, proc: u32)                   // setup_kernel_process
    | End(next: nat, freed: Bytes, mem: Bytes, regs: Regs)        // process_end, up to the switch

  ghost predicate Sound(k: Kernel) {
    && R.Shape(k.sys) && H.Tiled(k.heap) && Allotted(k.heap, k.places) && k.sys.tasks == Tasks(k.places)
    && STATE_AT < k.chain && k.chain + LINK_SIZE <= k.heap.base && Encodes(k.Mem(), k.chain, k.heap.blocks)
  }

  // What KernelHeap.KMalloc and KernelHeap.KFree leave in memory.
  ghost predicate Served(m: Bytes, n: Bytes, chain: int, g: H.Heap) {
    Confined(m, n, chain, g.blocks) && Encodes(n, chain, g.blocks)
  }

  // The esp and the frame of process i are the same in both.
  ghost predicate FrameSpared(k: Kernel, m: Bytes, n: Bytes, i: nat)
    requires R.Shape(k.sys) && i in k.sys.tasks
  {
    var t := k.sys.tasks[i];
    Same(m, n, t.record, t.record + 4) && Same(m, n, Load32(k.Mem(), t.record), Load32(k.Mem(), t.record) + FRAME_SIZE)
  }

  ghost predicate OthersSpared(k: Kernel, m: Bytes, n: Bytes)
    requires R.Shape(k.sys)
  {
    forall i | i in k.sys.tasks && i != k.sys.cur :: FrameSpared(k, m, n, i)
  }

  ghost predicate HeadersSpared(m: Bytes, n: Bytes, chain: int, bs: seq<H.Block>) {
    && Same(m, n, chain, chain + LINK_SIZE)
    && forall i | 0 <= i < |bs| :: Same(m, n, bs[i].addr, bs[i].addr + H.HEADER)
  }

  // The block belongs to no process.
  ghost predicate Unowned(ps: map<nat, Place>, ptr: int) {
    forall i | i in ps :: ps[i].record.Payload() != ptr && ps[i].stack.Payload() != ptr
  }

  lemma IsOwnBlock(h: H.Heap, p: Place)
    requires Owned(h, p)
    ensures H.IsBlock(h.blocks, p.record.Payload())
  {
    var j :| 0 <= j < |h.blocks| && h.blocks[j] == p.record;
  }

  lemma Current(k: Kernel)
    requires Sound(k)
    ensures k.sys.cur in k.places && Owned(k.heap, k.places[k.sys.cur])
    ensures H.IsBlock(k.heap.blocks, k.places[k.sys.cur].record.Payload())
    ensures k.sys.tasks[k.sys.cur] == TaskOf(k.places[k.sys.cur]) && Placed(TaskOf(k.places[k.sys.cur]))
  {
    assert Placed(k.sys.tasks[k.sys.cur]);
    hide H.Tiled, Encodes, Placed;
    assert Owned(k.heap, k.places[k.sys.cur]);
    hide Owned, Allotted;
    IsOwnBlock(k.heap, k.places[k.sys.cur]);
  }

  // Programs write neither headers nor what switchTo saved for another process, and
  // free what they were given; nothing else is asked of them.
  ghost predicate Possible(k: Kernel, a: Act)
    requires Sound(k)
  {
    match a
    case Compute(mem, _) => OthersSpared(k, k.Mem(), mem) && HeadersSpared(k.Mem(), mem, k.chain, k.heap.blocks)
    case Serve(call, mem, _) =>
      && H.Legal(k.heap, call) && (call.Release? ==> Unowned(k.places, call.ptr))
      && Served(k.Mem(), mem, k.chain, H.Step(k.heap, call))
    case Yield(next) => R.Allowed(k.sys, R.Call(next))
    case Create(pid, place, _) =>
      && pid !in k.places && Owned(k.heap, place) && (forall i | i in k.places :: NoneShared(k.places[i], place))
      && Harmless(k.Mem(), k.heap, (PlaceFits(k.heap, place); place.record.Payload()), place.stack)
    case End(next, freed, mem, regs) =>
      Current(k);
      var g := H.Free(k.heap, k.places[k.sys.cur].record.Payload());
      && Served(k.Mem(), freed, k.chain, g)
      && OthersSpared(k, freed, mem) && HeadersSpared(freed, mem, k.chain, g.blocks)
      && next in k.sys.tasks && next != k.sys.cur && Calls(k.sys, mem, regs, next)
  }

  // The current process, with these registers, stands right before switchTo.
  ghost predicate Calls(y: R.Sys, mem: Bytes, regs: Regs, next: nat)
    requires R.Shape(y) && next in y.tasks
  {
    && OnStack(Machine(mem, regs, y.machine.current), y.tasks[y.cur])
    && regs.esp <= WORD_SIZE - 8 && Load32(mem, regs.esp + 4) == y.tasks[next].record
  }

  // The same act as events of the machine.
  ghost function Moves(k: Kernel, a: Act): seq<R.Event>
    requires Sound(k) && Possible(k, a)
  {
    match a
    case Compute(mem, regs) => [R.Work(mem, regs)]
    case Serve(_, mem, regs) => [R.Work(mem, regs)]
    case Yield(next) => [R.Call(next)]
    case Create(pid, place, proc) => [R.Spawn(pid, TaskOf(place), proc)]
    case End(next, _, mem, regs) => [R.Work(mem, regs)] + ([R.Call(next)] + [R.Forget(k.sys.cur)])
  }

  ghost function HeapAfter(k: Kernel, a: Act): H.Heap
    requires Sound(k) && Possible(k, a)
  {
    match a
    case Serve(call, _, _) => H.Step(k.heap, call)
    case End(_, _, _, _) => Current(k); H.Free(k.heap, k.places[k.sys.cur].record.Payload())
    case _ => k.heap
  }

  ghost function PlacesAfter(k: Kernel, a: Act): map<nat, Place>
    requires Sound(k) && Possible(k, a)
  {
    match a
    case Create(pid, place, _) => k.places[pid := place]
    case End(_, _, _, _) => k.places - {k.sys.cur}
    case _ => k.places
  }

  // ----- Heap and places after an act -----

  lemma ServeKeeps(h: H.Heap, c: H.Call, ps: map<nat, Place>)
    requires H.Tiled(h) && Allotted(h, ps) && H.Legal(h, c) && (c.Release? ==> Unowned(ps, c.ptr))
    ensures H.Tiled(H.Step(h, c)) && H.Step(h, c).base == h.base && Allotted(H.Step(h, c), ps)
  {
    var g := H.Step(h, c);
    H.StepTiles(h, c);
    hide H.Tiled, H.Legal, H.Step;
    forall i | i in ps ensures Owned(g, ps[i]) {
      assert Owned(h, ps[i]);
    }
  }

  lemma EndKeeps(h: H.Heap, ps: map<nat, Place>, me: nat)
    requires H.Tiled(h) && Allotted(h, ps) && me in ps && H.IsBlock(h.blocks, ps[me].record.Payload())
    ensures var g := H.Free(h, ps[me].record.Payload());
            H.Tiled(g) && g.base == h.base && Allotted(g, ps - {me})
  {
    var ptr := ps[me].record.Payload();
    H.MarkTiles(h, H.IndexOf(h.blocks, ptr), false);
    H.FreeKeeps(h, ptr);
    assert Owned(h, ps[me]);
    var g := H.Free(h, ptr);
    hide H.Tiled, H.Free;
    forall i | i in ps && i != me ensures Owned(g, ps[i]) {
      assert Owned(h, ps[i]) && NoneShared(ps[me], ps[i]);
      hide Allotted;
      PayloadsApart(h, ps[me].record, ps[i].record);
      PayloadsApart(h, ps[me].record, ps[i].stack);
    }
  }

  lemma AllottedAfter(k: Kernel, a: Act)
    requires Sound(k) && Possible(k, a)
    ensures H.Tiled(HeapAfter(k, a)) && HeapAfter(k, a).base == k.heap.base
    ensures Allotted(HeapAfter(k, a), PlacesAfter(k, a))
  {
    hide Allotted, R.Shape, Encodes, H.Tiled, Owned, Harmless, OthersSpared, HeadersSpared, Served, Calls, R.Allowed;
    match a
    case Serve(call, _, _) => ServeKeeps(k.heap, call, k.places);
    case End(_, _, _, _) =>
      Current(k);
      EndKeeps(k.heap, k.places, k.sys.cur);
    case Create(pid, place, _) => PlaceAdded(k.heap, k.places, pid, place);
    case _ =>
  }

  // ----- Work -----

  lemma Others(k: Kernel, i: nat)
    requires Sound(k) && i in k.sys.tasks && i != k.sys.cur
    ensures i in k.places && k.sys.tasks[i] == TaskOf(k.places[i])
    ensures Placed(k.sys.tasks[i]) && Suspended(k.Mem(), k.sys.tasks[i])
  {
    hide Allotted, H.Tiled, Encodes, Placed, Suspended;
  }

  // kmalloc and kfree write headers, so they spare records and frames.
  lemma ServedSparesPlace(m: Bytes, n: Bytes, chain: int, g: H.Heap, p: Place)
    requires H.Tiled(g) && STATE_AT < chain && chain + LINK_SIZE <= g.base && Served(m, n, chain, g) && Owned(g, p)
    ensures var t := TaskOf(p); Same(m, n, t.record, t.record + 8) && Same(m, n, t.lo, t.hi - 3)
  {
    hide Encodes, Confined, H.Tiled;
    ConfinedSparesPayload(m, n, chain, g, p.record);
    ConfinedSparesPayload(m, n, chain, g, p.stack);
  }

  lemma ServedSpares(k: Kernel, n: Bytes, g: H.Heap, i: nat)
    requires Sound(k) && i in k.sys.tasks && i != k.sys.cur && i in k.places
    requires H.Tiled(g) && g.base == k.heap.base && Served(k.Mem(), n, k.chain, g) && Owned(g, k.places[i])
    ensures FrameSpared(k, k.Mem(), n, i)
  {
    hide Load32, Encodes, Served, H.Tiled, R.Shape, Allotted, TaskOf, Tasks, Owned;
    Others(k, i);
    ServedSparesPlace(k.Mem(), n, k.chain, g, k.places[i]);
  }

  lemma ServedSparesAll(k: Kernel, n: Bytes, g: H.Heap, ps: map<nat, Place>)
    requires Sound(k) && H.Tiled(g) && g.base == k.heap.base && Served(k.Mem(), n, k.chain, g)
    requires Allotted(g, ps) && forall i | i in k.places && i != k.sys.cur :: i in ps && ps[i] == k.places[i]
    ensures OthersSpared(k, k.Mem(), n)
  {
    hide H.Tiled, R.Shape, Encodes, FrameSpared, Served, Owned;
    forall i | i in k.sys.tasks && i != k.sys.cur ensures FrameSpared(k, k.Mem(), n, i) {
      Others(k, i);
      assert Owned(g, ps[i]);
      ServedSpares(k, n, g, i);
    }
  }

  lemma SparedTwice(k: Kernel, m: Bytes, n: Bytes)
    requires R.Shape(k.sys) && OthersSpared(k, k.Mem(), m) && OthersSpared(k, m, n)
    ensures OthersSpared(k, k.Mem(), n)
  {
    forall i | i in k.sys.tasks && i != k.sys.cur ensures FrameSpared(k, k.Mem(), n, i) {
      assert FrameSpared(k, k.Mem(), m, i) && FrameSpared(k, m, n, i);
      hide R.Shape, Load32, OthersSpared;
    }
  }

  lemma WorkAllowed(k: Kernel, n: Bytes, regs: Regs)
    requires Sound(k) && OthersSpared(k, k.Mem(), n)
    ensures R.Allowed(k.sys, R.Work(n, regs))
  {
    hide H.Tiled, R.Shape, Encodes, Allotted, Placed, Suspended, Load32;
    forall i | i in k.sys.tasks && i != k.sys.cur
      ensures Placed(k.sys.tasks[i]) && Suspended(k.Mem(), k.sys.tasks[i])
      ensures Undisturbed(k.Mem(), n, k.sys.tasks[i])
    {
      Others(k, i);
      assert FrameSpared(k, k.Mem(), n, i);
    }
  }

  // Nothing the current process computes, and nothing the heap does for it,
  // disturbs another process.
  lemma WorkSpares(k: Kernel, a: Act)
    requires Sound(k) && Possible(k, a) && (a.Compute? || a.Serve? || a.End?)
    ensures OthersSpared(k, k.Mem(), a.mem) && R.Allowed(k.sys, R.Work(a.mem, a.regs))
  {
    hide H.Tiled, R.Shape, Encodes, Allotted, HeadersSpared, Served, Calls, OthersSpared, R.Allowed, Owned;
    AllottedAfter(k, a);
    if !a.Compute? {
      ServedSparesAll(k, if a.End? then a.freed else a.mem, HeapAfter(k, a), PlacesAfter(k, a));
      if a.End? {
        SparedTwice(k, a.freed, a.mem);
      }
    }
    WorkAllowed(k, a.mem, a.regs);
  }

  // ----- Switching -----

  lemma SwitchSparesHeader(s: Machine, g: H.Heap, p: Place, r: H.Block, b: H.Block)
    requires H.Tiled(g) && OnStack(s, TaskOf(p)) && CanSwitch(s) && b in g.blocks
    requires r in g.blocks && r.addr == p.record.addr && r.size == p.record.size >= 8
    requires p.stack in g.blocks && p.stack.size >= STACK_SIZE
    ensures Same(s.mem, Saved(s), b.addr, b.addr + H.HEADER)
  {
    hide Saved, H.Tiled;
    HeaderApart(g, b, r);
    HeaderApart(g, b, p.stack);
    SavedWithin(s, b.addr, b.addr + H.HEADER);
  }

  // A switch writes the frame and the esp of the process it leaves, which are parts
  // of payloads: the chain stays.
  lemma SwitchKeepsChain(s: Machine, chain: int, g: H.Heap, p: Place, r: H.Block)
    requires H.Tiled(g) && STATE_AT < chain && chain + LINK_SIZE <= g.base && Encodes(s.mem, chain, g.blocks)
    requires OnStack(s, TaskOf(p)) && CanSwitch(s)
    requires r in g.blocks && r.addr == p.record.addr && r.size == p.record.size >= 8
    requires p.stack in g.blocks && p.stack.size >= STACK_SIZE
    ensures Encodes(Saved(s), chain, g.blocks)
  {
    hide Saved, H.Tiled, Encodes, CanSwitch, Same;
    HeaderApart(g, r, r);
    HeaderApart(g, p.stack, p.stack);
    SavedWithin(s, chain, chain + LINK_SIZE);
    forall i | 0 <= i < |g.blocks| ensures Same(s.mem, Saved(s), g.blocks[i].addr, g.blocks[i].addr + H.HEADER) {
      SwitchSparesHeader(s, g, p, r, g.blocks[i]);
    }
    EncodesFrame(s.mem, Saved(s), chain, g.blocks);
  }

  lemma YieldKeepsChain(k: Kernel, next: nat)
    requires Sound(k) && R.Allowed(k.sys, R.Call(next))
    ensures CanSwitch(k.sys.machine) && Encodes(Saved(k.sys.machine), k.chain, k.heap.blocks)
  {
    var p := k.places[k.sys.cur];
    hide H.Tiled, R.Shape, Encodes, CanSwitch, Allotted, Owned, TaskOf, Tasks, Saved, OnStack, Placed, R.Allowed;
    Current(k);
    StandsOnStack(k.sys, next);
    Sizes(k.heap, p);
    SwitchKeepsChain(k.sys.machine, k.chain, k.heap, p, p.record);
  }

  lemma EndGoesTo(k: Kernel, a: Act)
    requires Sound(k) && a.End? && Possible(k, a)
    ensures R.Shape(k.sys) && a.next in k.sys.tasks && a.next != k.sys.cur
    ensures Calls(k.sys, a.mem, a.regs, a.next)
  {
    hide R.Shape, H.Tiled, Allotted, Tasks, Encodes, OthersSpared, HeadersSpared, Served, Calls, H.Free;
  }

  // Right before the switch of process_end.
  ghost function Ending(k: Kernel, a: Act): R.Sys
    requires a.End?
  {
    k.sys.(machine := Machine(a.mem, a.regs, k.sys.machine.current))
  }

  lemma EndCalls(k: Kernel, a: Act)
    requires Sound(k) && a.End? && Possible(k, a)
    ensures R.Allowed(k.sys, R.Work(a.mem, a.regs)) && R.Step(k.sys, R.Work(a.mem, a.regs)) == Ending(k, a)
    ensures R.Shape(Ending(k, a)) && R.Allowed(Ending(k, a), R.Call(a.next))
  {
    hide Sound, Possible, OnStack, Load32, R.Shape, Layout, OthersSpared;
    EndGoesTo(k, a);
    WorkSpares(k, a);
    R.StepRefines(k.sys, R.Work(a.mem, a.regs));
  }

  lemma EndMoves(k: Kernel, a: Act)
    requires Sound(k) && a.End? && Possible(k, a)
    ensures R.Shape(Ending(k, a)) && R.Allowed(Ending(k, a), R.Call(a.next)) && R.Legal(k.sys, Moves(k, a))
    ensures R.Run(k.sys, Moves(k, a)) ==
            R.Step(Ending(k, a), R.Call(a.next)).(tasks := k.sys.tasks - {k.sys.cur})
  {
    hide Sound, Possible, R.Shape, R.Allowed, R.Step, Calls;
    EndGoesTo(k, a);
    EndCalls(k, a);
    R.RunOne(k.sys, R.Work(a.mem, a.regs));
    R.RunLeaves(Ending(k, a), a.next);
    R.RunAppend(k.sys, [R.Work(a.mem, a.regs)], [R.Call(a.next)] + [R.Forget(k.sys.cur)]);
  }

  lemma FreedBlock(h: H.Heap, p: Place)
    requires H.Tiled(h) && Owned(h, p) && H.IsBlock(h.blocks, p.record.Payload())
    ensures var g := H.Free(h, p.record.Payload());
            p.record.(used := false) in g.blocks && p.stack in g.blocks
  {
    var g := H.Free(h, p.record.Payload());
    var i := H.IndexOf(h.blocks, p.record.Payload());
    var j :| 0 <= j < |h.blocks| && h.blocks[j] == p.record;
    var l :| 0 <= l < |h.blocks| && h.blocks[l] == p.stack;
    assert g.blocks[i] == p.record.(used := false) && (i != l ==> g.blocks[l] == p.stack);
  }

  lemma EndKeepsChain(k: Kernel, a: Act)
    requires Sound(k) && a.End? && Possible(k, a)
    ensures var s := Ending(k, a).machine; CanSwitch(s) && Encodes(Saved(s), k.chain, HeapAfter(k, a).blocks)
  {
    assert Ending(k, a).tasks == k.sys.tasks && Ending(k, a).cur == k.sys.cur;
    var s, p := Ending(k, a).machine, k.places[k.sys.cur];
    hide H.Tiled, R.Shape, Encodes, CanSwitch, Allotted, Owned, TaskOf, Tasks, Saved, OnStack, Placed, Load32;
    hide Possible, H.Free, R.Allowed;
    Current(k);
    AllottedAfter(k, a);
    EndMoves(k, a);
    EndEncodes(k, a);
    StandsOnStack(Ending(k, a), a.next);
    FreedBlock(k.heap, p);
    Sizes(k.heap, p);
    SwitchKeepsChain(s, k.chain, HeapAfter(k, a), p, p.record.(used := false));
  }

  lemma Sizes(h: H.Heap, p: Place)
    requires Owned(h, p)
    ensures p.record.size >= 8 && p.stack.size >= STACK_SIZE
  {
  }

  lemma StandsOnStack(y: R.Sys, next: nat)
    requires R.Shape(y) && R.Allowed(y, R.Call(next))
    ensures OnStack(y.machine, y.tasks[y.cur]) && CanSwitch(y.machine)
  {
    R.CallReady(y, next);
    hide R.Shape, CanSwitch, OnStack, Load32;
  }

  lemma EndEncodes(k: Kernel, a: Act)
    requires Sound(k) && a.End? && Possible(k, a)
    ensures Encodes(a.mem, k.chain, HeapAfter(k, a).blocks)
  {
    hide R.Shape, H.Tiled, Allotted, Owned, Tasks, Encodes, OthersSpared, Calls, R.Allowed, Harmless, H.Free, H.IsBlock;
    var g := HeapAfter(k, a);
    EncodesFrame(a.freed, a.mem, k.chain, g.blocks);
  }

  // ----- One act -----

  lemma CreateAllowed(k: Kernel, a: Act)
    requires Sound(k) && a.Create? && Possible(k, a)
    ensures R.Allowed(k.sys, R.Spawn(a.pid, TaskOf(a.place), a.proc))
    ensures R.Step(k.sys, R.Spawn(a.pid, TaskOf(a.place), a.proc)).tasks == Tasks(k.places[a.pid := a.place])
  {
    hide H.Tiled, R.Shape, Encodes, Allotted, Owned, TaskOf, Harmless, R.Allowed, R.Step, Layout, NoneShared;
    PlaceAdded(k.heap, k.places, a.pid, a.place);
    HeapLayout(k.heap, k.places[a.pid := a.place]);
    SpawnFits(k.sys, k.places, a.pid, a.place, a.proc);
  }

  // What a possible act does is allowed on the machine of ContextRuns.
  lemma MovesLegal(k: Kernel, a: Act)
    requires Sound(k) && Possible(k, a)
    ensures R.Legal(k.sys, Moves(k, a))
    ensures R.Run(k.sys, Moves(k, a)).tasks == Tasks(PlacesAfter(k, a))
  {
    hide H.Tiled, R.Shape, Encodes, Allotted, Owned, TaskOf, Harmless, R.Allowed, Layout, NoneShared;
    hide Served, OthersSpared, HeadersSpared, Calls, H.Legal;
    match a
    case Compute(_, _) => WorkSpares(k, a); R.RunOne(k.sys, R.Work(a.mem, a.regs));
    case Serve(_, _, _) => WorkSpares(k, a); R.RunOne(k.sys, R.Work(a.mem, a.regs));
    case Yield(next) => R.RunOne(k.sys, R.Call(next));
    case Create(pid, place, proc) =>
      CreateAllowed(k, a);
      R.RunOne(k.sys, R.Spawn(pid, TaskOf(place), proc));
    case End(_, _, _, _) => EndMoves(k, a);
  }

  ghost function Do(k: Kernel, a: Act): Kernel
    requires Sound(k) && Possible(k, a)
  {
    MovesLegal(k, a);
    Kernel(R.Run(k.sys, Moves(k, a)), HeapAfter(k, a), PlacesAfter(k, a), k.chain)
  }

  lemma ComputeKeepsChain(k: Kernel, a: Act)
    requires Sound(k) && a.Compute? && Possible(k, a)
    ensures Encodes(a.mem, k.chain, k.heap.blocks)
  {
    hide R.Shape, H.Tiled, Allotted, Tasks, Encodes, OthersSpared;
    EncodesFrame(k.Mem(), a.mem, k.chain, k.heap.blocks);
  }

  lemma SetupKeeps(m: Bytes, chain: int, h: H.Heap, p: Place, proc: u32)
    requires H.Tiled(h) && STATE_AT < chain && chain + LINK_SIZE <= h.base && Encodes(m, chain, h.blocks)
    requires Owned(h, p) && Harmless(m, h, (PlaceFits(h, p); p.record.Payload()), p.stack)
    ensures Placed(TaskOf(p)) && Encodes(Setup(m, TaskOf(p).record, TaskOf(p).hi - 4, proc), chain, h.blocks)
  {
    hide H.Tiled, Encodes, Harmless, Setup, Placed;
    PlaceFits(h, p);
    HarmlessKeeps(m, chain, h, p.record, p.stack, proc);
  }

  lemma CreateKeepsChain(k: Kernel, a: Act)
    requires Sound(k) && a.Create? && Possible(k, a)
    ensures R.Legal(k.sys, Moves(k, a))
    ensures Encodes(R.Run(k.sys, Moves(k, a)).machine.mem, k.chain, k.heap.blocks)
  {
    hide R.Shape, H.Tiled, Allotted, Tasks, Encodes, Harmless, NoneShared, Setup, Placed, TaskOf, Owned, Layout;
    hide R.Allowed, R.Legal, R.Run;
    SetupKeeps(k.Mem(), k.chain, k.heap, a.place, a.proc);
    CreateAllowed(k, a);
    R.RunOne(k.sys, R.Spawn(a.pid, TaskOf(a.place), a.proc));
  }

  lemma WorkKeepsChain(k: Kernel, a: Act)
    requires Sound(k) && Possible(k, a) && (a.Compute? || a.Serve?)
    ensures R.Legal(k.sys, Moves(k, a))
    ensures Encodes(R.Run(k.sys, Moves(k, a)).machine.mem, k.chain, HeapAfter(k, a).blocks)
  {
    hide R.Shape, H.Tiled, Allotted, Tasks, Encodes, OthersSpared, HeadersSpared, H.Legal, R.Allowed, R.Legal, R.Run;
    WorkSpares(k, a);
    R.RunOne(k.sys, R.Work(a.mem, a.regs));
    if a.Compute? {
      ComputeKeepsChain(k, a);
    }
  }

  lemma YieldsKeepChain(k: Kernel, a: Act)
    requires Sound(k) && Possible(k, a) && a.Yield?
    ensures R.Legal(k.sys, Moves(k, a))
    ensures Encodes(R.Run(k.sys, Moves(k, a)).machine.mem, k.chain, k.heap.blocks)
  {
    hide R.Shape, H.Tiled, Allotted, Tasks, Encodes, R.Allowed, R.Legal, R.Run, Saved, CanSwitch, CanResume;
    YieldKeepsChain(k, a.next);
    R.RunOne(k.sys, R.Call(a.next));
  }

  lemma EndsKeepChain(k: Kernel, a: Act)
    requires Sound(k) && Possible(k, a) && a.End?
    ensures R.Legal(k.sys, Moves(k, a))
    ensures Encodes(R.Run(k.sys, Moves(k, a)).machine.mem, k.chain, HeapAfter(k, a).blocks)
  {
    EndKeepsChain(k, a);
    EndMoves(k, a);
    hide Sound, Possible, Encodes, R.Shape, R.Allowed, R.Legal, R.Run, Moves, HeapAfter, Saved, CanSwitch, CanResume;
  }

  // The heap's chain is whole after it.
  lemma ChainAfter(k: Kernel, a: Act)
    requires Sound(k) && Possible(k, a)
    ensures R.Legal(k.sys, Moves(k, a))
    ensures Encodes(R.Run(k.sys, Moves(k, a)).machine.mem, k.chain, HeapAfter(k, a).blocks)
  {
    hide Sound, Possible, Encodes, Moves, R.Legal, R.Run;
    match a
    case Compute(_, _) => WorkKeepsChain(k, a);
    case Serve(_, _, _) => WorkKeepsChain(k, a);
    case Yield(_) => YieldsKeepChain(k, a);
    case Create(_, _, _) => CreateKeepsChain(k, a);
    case End(_, _, _, _) => EndsKeepChain(k, a);
  }

  // Whatever the current process does: records and stacks keep blocks of their own,
  // the blocks still tile the heap, the chain is whole, and every other process is
  // suspended with a frame.
  lemma DoSound(k: Kernel, a: Act)
    requires Sound(k) && Possible(k, a)
    ensures Sound(Do(k, a))
  {
    MovesLegal(k, a);
    AllottedAfter(k, a);
    ChainAfter(k, a);
    hide H.Tiled, Encodes, Allotted, R.Shape, Tasks, Possible, Moves, HeapAfter, PlacesAfter;
  }

  // ----- Whole runs -----

  ghost predicate Legal(k: Kernel, acts: seq<Act>)
    requires Sound(k)
    decreases |acts|
  {
    acts == [] || (Possible(k, acts[0]) && (DoSound(k, acts[0]); Legal(Do(k, acts[0]), acts[1..])))
  }

  ghost function Run(k: Kernel, acts: seq<Act>): (z: Kernel)
    requires Sound(k) && Legal(k, acts)
    ensures Sound(z)
    decreases |acts|
  {
    if acts == [] then k else DoSound(k, acts[0]); Run(Do(k, acts[0]), acts[1..])
  }

  ghost function AllMoves(k: Kernel, acts: seq<Act>): seq<R.Event>
    requires Sound(k) && Legal(k, acts)
    decreases |acts|
  {
    if acts == [] then [] else DoSound(k, acts[0]); Moves(k, acts[0]) + AllMoves(Do(k, acts[0]), acts[1..])
  }

  lemma {:induction false} MovesRun(k: Kernel, acts: seq<Act>)
    requires Sound(k) && Legal(k, acts)
    ensures R.Legal(k.sys, AllMoves(k, acts)) && R.Run(k.sys, AllMoves(k, acts)) == Run(k, acts).sys
    decreases |acts|
  {
    if acts == [] {
    } else {
      MovesLegal(k, acts[0]);
      DoSound(k, acts[0]);
      var z := Do(k, acts[0]);
      assert R.Run(k.sys, Moves(k, acts[0])) == z.sys;
      hide Sound, Do, Possible, Moves, R.Legal, R.Run;
      MovesRun(z, acts[1..]);
      R.RunAppend(k.sys, Moves(k, acts[0]), AllMoves(z, acts[1..]));
    }
  }

  // Every run of the kernel, heap and all, is a run of the program that keeps one
  // context per process, and its heap stays whole.
  lemma KernelRefines(k: Kernel, acts: seq<Act>)
    requires Sound(k) && Legal(k, acts)
    ensures Sound(Run(k, acts)) && R.Legal(k.sys, AllMoves(k, acts))
    ensures var os := R.OsEvents(k.sys, AllMoves(k, acts));
            R.OsLegal(R.Abs(k.sys), os) && R.Abs(Run(k, acts).sys) == R.OsRun(R.Abs(k.sys), os)
  {
    MovesRun(k, acts);
    hide Sound, R.Legal, R.Run, Run, Legal, AllMoves;
    R.RunRefines(k.sys, AllMoves(k, acts));
  }

  // The act ends in a switch to process i.
  predicate HandsTo(a: Act, i: nat) {
    (a.Yield? || a.End?) && a.next == i
  }

  lemma MovesSpare(k: Kernel, a: Act, i: nat)
    requires Sound(k) && Possible(k, a) && i != k.sys.cur && !HandsTo(a, i)
    ensures forall e | e in Moves(k, a) :: R.Spares(e, i)
  {
    hide Sound, Possible;
  }

  lemma ActKeeps(k: Kernel, a: Act, i: nat)
    requires Sound(k) && Possible(k, a) && i in k.sys.tasks && i != k.sys.cur && !HandsTo(a, i)
    ensures Sound(Do(k, a)) && i in Do(k, a).sys.tasks && i != Do(k, a).sys.cur
    ensures R.Context(Do(k, a).sys, i) == R.Context(k.sys, i)
  {
    assert R.Shape(k.sys);
    hide Sound, Possible, R.Shape, Moves, HeapAfter, PlacesAfter, R.Context, R.Legal, R.Run;
    MovesSpare(k, a, i);
    MovesLegal(k, a);
    DoSound(k, a);
    R.RunKeeps(k.sys, Moves(k, a), i);
  }

  lemma {:induction false} RunKeeps(k: Kernel, acts: seq<Act>, i: nat)
    requires Sound(k) && Legal(k, acts) && i in k.sys.tasks && i != k.sys.cur && forall a | a in acts :: !HandsTo(a, i)
    ensures i in Run(k, acts).sys.tasks && i != Run(k, acts).sys.cur
    ensures R.Context(Run(k, acts).sys, i) == R.Context(k.sys, i)
    decreases |acts|
  {
    hide Do, Possible, R.Context;
    assert R.Shape(k.sys);
    hide Sound;
    if acts == [] {
    } else {
      ActKeeps(k, acts[0], i);
      RunKeeps(Do(k, acts[0]), acts[1..], i);
    }
  }

  lemma EndHandsOver(k: Kernel, a: Act)
    requires Sound(k) && Possible(k, a) && a.End?
    ensures a.next in k.sys.tasks && a.next != k.sys.cur && R.Legal(k.sys, Moves(k, a))
    ensures var z := R.Run(k.sys, Moves(k, a)); z.cur == a.next && z.machine.regs == R.Context(k.sys, a.next)
  {
    hide Sound, Possible, R.Shape, R.Allowed, R.Step, Moves, R.Context, R.Legal, R.Run, Calls;
    EndGoesTo(k, a);
    EndCalls(k, a);
    EndMoves(k, a);
    R.StepKeeps(k.sys, R.Work(a.mem, a.regs), a.next);
    R.CallResumes(Ending(k, a), a.next);
  }

  // Whoever is switched to continues in the context it was left with.
  lemma HandsOver(k: Kernel, a: Act)
    requires Sound(k) && Possible(k, a) && (a.Yield? || a.End?) && a.next != k.sys.cur
    ensures a.next in k.sys.tasks
    ensures Do(k, a).sys.cur == a.next && Do(k, a).sys.machine.regs == R.Context(k.sys, a.next)
  {
    if a.End? {
      hide Sound, Possible, R.Shape, R.Context, Moves;
      EndHandsOver(k, a);
    } else {
      hide H.Tiled, Encodes, Allotted, R.Shape, R.Step, R.Context;
      R.CallResumes(k.sys, a.next);
      R.RunOne(k.sys, R.Call(a.next));
    }
  }

  // A process that yields runs again exactly as if its call had just returned,
  // however the others used the heap, created processes and ended in between.
  lemma KernelResumes(k: Kernel, next: nat, acts: seq<Act>, a: Act)
    requires Sound(k) && Possible(k, Yield(next)) && next != k.sys.cur
    requires (DoSound(k, Yield(next)); Legal(Do(k, Yield(next)), acts))
    requires forall b | b in acts :: !HandsTo(b, k.sys.cur)
    requires Possible(Run(Do(k, Yield(next)), acts), a) && HandsTo(a, k.sys.cur)
    ensures var z := Do(Run(Do(k, Yield(next)), acts), a);
            z.sys.cur == k.sys.cur && k.sys.machine.regs.esp <= WORD_SIZE - 8
            && z.sys.machine.regs == Returned(k.sys.machine)
  {
    var y := Do(k, Yield(next));
    YieldSuspends(k, next);
    DoSound(k, Yield(next));
    hide Sound, Do, Possible, R.Context, R.Shape;
    RunKeeps(y, acts, k.sys.cur);
    HandsOver(Run(y, acts), a);
  }

  lemma YieldSuspends(k: Kernel, next: nat)
    requires Sound(k) && Possible(k, Yield(next)) && next != k.sys.cur
    ensures var y := Do(k, Yield(next)).sys;
            && R.Shape(y) && k.sys.cur in y.tasks && y.cur == next && k.sys.machine.regs.esp <= WORD_SIZE - 8
            && R.Context(y, k.sys.cur) == Returned(k.sys.machine)
  {
    hide H.Tiled, Encodes, Allotted, R.Shape, R.Step, R.Context, R.Allowed;
    R.CallSuspends(k.sys, next);
    R.RunOne(k.sys, R.Call(next));
  }

  // ----- Where runs begin, and what kfree does in them -----

  // The boot code runs on a stack below the heap, apart from the list head.
  predicate BootStack(s: Machine, h: H.Heap, chain: int) {
    && s.current == 0 && FRAME_SIZE <= s.regs.esp + 4 && s.regs.esp + 8 <= h.base
    && (chain + LINK_SIZE <= s.regs.esp + 4 - FRAME_SIZE || s.regs.esp + 4 <= chain)
  }

  lemma BootSpares(s: Machine, h: H.Heap, chain: int, p: Place)
    requires H.Tiled(h) && BootStack(s, h, chain) && Owned(h, p)
    ensures Placed(TaskOf(p)) && s.regs.esp + 8 <= TaskOf(p).record && s.regs.esp + 8 <= TaskOf(p).lo
  {
    HeaderApart(h, p.record, p.record);
    HeaderApart(h, p.stack, p.stack);
    hide H.Tiled, Placed;
    PlaceFits(h, p);
  }

  lemma BootKeepsChain(s: Machine, h: H.Heap, chain: int)
    requires H.Tiled(h) && BootStack(s, h, chain) && CanSwitch(s) && Encodes(s.mem, chain, h.blocks)
    ensures Encodes(Saved(s), chain, h.blocks)
  {
    hide Saved, Encodes, H.Tiled, Same;
    SavedWithin(s, chain, chain + LINK_SIZE);
    forall i | 0 <= i < |h.blocks| ensures Same(s.mem, Saved(s), h.blocks[i].addr, h.blocks[i].addr + H.HEADER) {
      HeaderApart(h, h.blocks[i], h.blocks[i]);
      SavedWithin(s, h.blocks[i].addr, h.blocks[i].addr + H.HEADER);
    }
    EncodesFrame(s.mem, Saved(s), chain, h.blocks);
  }

  lemma OwnedBy(h: H.Heap, ps: map<nat, Place>, i: nat)
    requires Allotted(h, ps) && i in ps
    ensures Owned(h, ps[i])
  {
  }

  // The first switch starts such a run.
  lemma FirstSound(s: Machine, h: H.Heap, ps: map<nat, Place>, next: nat, chain: int)
    requires H.Tiled(h) && Allotted(h, ps) && STATE_AT < chain && chain + LINK_SIZE <= h.base
    requires Encodes(s.mem, chain, h.blocks) && BootStack(s, h, chain) && CanSwitch(s) && next in ps
    requires forall i | i in ps :: Placed(TaskOf(ps[i])) && Suspended(s.mem, TaskOf(ps[i]))
    requires Load32(s.mem, s.regs.esp + 4) == TaskOf(ps[next]).record
    ensures CanResume(s) && SwitchTo(s).regs == ContextOf(s.mem, TaskOf(ps[next]))
    ensures Sound(Kernel(R.Sys(SwitchTo(s), Tasks(ps), next), h, ps, chain))
  {
    hide H.Tiled, Encodes, Allotted, Owned, Placed, Suspended, TaskOf, Load32, CanResume, Layout, Saved, R.Shape;
    HeapLayout(h, ps);
    var ts := Tasks(ps);
    forall i | i in ts ensures Suspended(s.mem, ts[i]) && R.Clear(s, ts[i]) {
      OwnedBy(h, ps, i);
      BootSpares(s, h, chain, ps[i]);
    }
    R.FirstSwitch(s, ts, next);
    BootKeepsChain(s, h, chain);
  }

  // The one store of kfree is a release that such a run allows.
  lemma FreePossible(k: Kernel, ptr: u32, regs: Regs)
    requires Sound(k) && H.Live(k.heap.blocks, ptr) && Unowned(k.places, ptr)
    ensures H.HEADER <= ptr && Possible(k, Serve(H.Release(ptr), StateCleared(k.Mem(), ptr), regs))
  {
    hide Encodes, Confined, R.Shape, Allotted, StateCleared;
    var i :| 0 <= i < |k.heap.blocks| && k.heap.blocks[i].Payload() == ptr && k.heap.blocks[i].used;
    HeaderApart(k.heap, k.heap.blocks[i], k.heap.blocks[i]);
    hide H.Tiled;
    FreedChain(k.Mem(), k.chain, k.heap, ptr);
  }
}
