// Where the records and stacks that create_process allocates lie in the kernel heap
// (process/process.c on mm/heap.c), and what the word on top of a new stack does to
// the heap.

module KernelStacks {
  import opened Words
  import opened Memory
  import opened CircularList
  import opened HeapModel
  import opened HeapMemory
  import opened ContextModel
  import C = ContextModel
  import R = ContextRuns

  const PROCESS_SIZE := 84 // sizeof(process_t)

  // The blocks of a process: one for its record, one for its stack.
  datatype Place = Place(record: Block, stack: Block)

  // The topmost word of the stack begins at the last byte of its 4096.
  function TaskOf(p: Place): Task {
    Task(p.record.Payload(), p.stack.Payload(), p.stack.Payload() + STACK_SIZE + 3)
  }

  // Two used blocks, large enough.
  ghost predicate Owned(h: Heap, p: Place) {
    && p.record in h.blocks && p.record.used && p.record.size >= 8
    && p.stack in h.blocks && p.stack.used && p.stack.size >= STACK_SIZE
    && p.record != p.stack
  }

  predicate NoneShared(p: Place, q: Place) {
    p.record != q.record && p.record != q.stack && p.stack != q.record && p.stack != q.stack
  }

  // Every record and every stack has a used block of its own.
  ghost predicate Allotted(h: Heap, ps: map<nat, Place>) {
    && (forall i | i in ps :: Owned(h, ps[i]))
    && (forall i, j | i in ps && j in ps && i != j :: NoneShared(ps[i], ps[j]))
  }

  // A header lies between any two payloads.
  lemma PayloadsApart(h: Heap, b: Block, c: Block)
    requires Tiled(h) && b in h.blocks && c in h.blocks && b != c
    ensures b.Top() + HEADER <= c.Payload() || c.Top() + HEADER <= b.Payload()
    ensures 0 <= b.addr && b.Top() < BRK_MAX
  {
    var i :| 0 <= i < |h.blocks| && h.blocks[i] == b;
    var j :| 0 <= j < |h.blocks| && h.blocks[j] == c;
    assert Disjoint(h.blocks[i], h.blocks[j]);
  }

  lemma PlaceFits(h: Heap, p: Place)
    requires Tiled(h) && Owned(h, p)
    ensures Placed(TaskOf(p))
  {
    PayloadsApart(h, p.record, p.stack);
    PayloadsApart(h, p.stack, p.record);
  }

  function Tasks(ps: map<nat, Place>): map<nat, Task> {
    map i | i in ps :: TaskOf(ps[i])
  }

  lemma PlacesSeparate(h: Heap, p: Place, q: Place)
    requires Tiled(h) && Owned(h, p) && Owned(h, q) && NoneShared(p, q)
    ensures C.Separate(TaskOf(p), TaskOf(q))
  {
    PayloadsApart(h, p.record, q.record);
    PayloadsApart(h, p.record, q.stack);
    PayloadsApart(h, q.record, p.stack);
    PayloadsApart(h, p.stack, q.stack);
  }

  // So the three bytes behind a stack block never reach another record or stack:
  // the heap alone keeps the processes apart.
  lemma HeapLayout(h: Heap, ps: map<nat, Place>)
    requires Tiled(h) && Allotted(h, ps)
    ensures Layout(Tasks(ps))
  {
    hide Tiled, Owned, NoneShared, Placed, C.Separate;
    var ts := Tasks(ps);
    forall i | i in ts ensures Placed(ts[i]) {
      PlaceFits(h, ps[i]);
    }
    forall i, j | i in ts && j in ts && i != j ensures C.Separate(ts[i], ts[j]) {
      PlacesSeparate(h, ps[i], ps[j]);
    }
  }

  // A block granted next to used ones: used itself, and none of them.
  lemma GrantedBlock(h: Heap, bytes: u32) returns (b: Block)
    requires Tiled(h) && Malloc(h, bytes).Granted? && NoWrap(h, bytes)
    ensures var g := Malloc(h, bytes);
            && Tiled(g.heap) && b in g.heap.blocks && b.used && b.Payload() == g.ptr && b.size >= bytes
            && (forall o | o in h.blocks && o.used :: o in g.heap.blocks && o != b)
  {
    MallocTiles(h, bytes);
    MallocGrants(h, bytes);
    MallocKeeps(h, bytes);
    var g := Malloc(h, bytes);
    b :| b in g.heap.blocks && b.used && b.Payload() == g.ptr && b.size >= bytes && b.Top() < BRK_MAX
         && forall o | o in h.blocks && o.used :: Disjoint(o, b);
    forall o | o in h.blocks && o.used ensures o != b {
      var i :| 0 <= i < |h.blocks| && h.blocks[i] == o;
      assert h.blocks[i].size > 0;
    }
  }

  // The two allocations of create_process give a new process its place.
  lemma CreateAllots(h: Heap, ps: map<nat, Place>, pid: nat) returns (p: Place)
    requires Tiled(h) && Allotted(h, ps) && pid !in ps
    requires Malloc(h, PROCESS_SIZE).Granted? && NoWrap(h, PROCESS_SIZE)
    requires var g := Malloc(h, PROCESS_SIZE).heap;
             && 0 <= g.brk < BRK_MAX && Malloc(g, STACK_SIZE).Granted? && NoWrap(g, STACK_SIZE)
    ensures var g := Malloc(h, PROCESS_SIZE); var k := Malloc(g.heap, STACK_SIZE);
            && p.record.Payload() == g.ptr && p.stack.Payload() == k.ptr
            && Tiled(k.heap) && Owned(k.heap, p) && (forall i | i in ps :: NoneShared(ps[i], p))
            && Allotted(k.heap, ps[pid := p]) && Layout(Tasks(ps[pid := p]))
  {
    assert 0 <= h.brk < BRK_MAX;
    hide Malloc, Tiled, NoWrap;
    var g := Malloc(h, PROCESS_SIZE);
    var r := GrantedBlock(h, PROCESS_SIZE);
    var k := Malloc(g.heap, STACK_SIZE);
    var s := GrantedBlock(g.heap, STACK_SIZE);
    p := Place(r, s);
    GrantedApart(h, g.heap, k.heap, ps, p);
    PlaceAdded(k.heap, ps, pid, p);
    HeapLayout(k.heap, ps[pid := p]);
  }

  lemma GrantedApart(h: Heap, g: Heap, k: Heap, ps: map<nat, Place>, p: Place)
    requires Allotted(h, ps)
    requires p.record in g.blocks && p.record.used && p.record.size >= 8
    requires forall o | o in h.blocks && o.used :: o in g.blocks && o != p.record
    requires p.stack in k.blocks && p.stack.used && p.stack.size >= STACK_SIZE
    requires forall o | o in g.blocks && o.used :: o in k.blocks && o != p.stack
    ensures Owned(k, p) && Allotted(k, ps) && forall i | i in ps :: NoneShared(ps[i], p)
  {
    forall i | i in ps ensures NoneShared(ps[i], p) && Owned(k, ps[i]) {
      assert Owned(h, ps[i]);
    }
    hide Owned;
  }

  lemma PlaceAdded(h: Heap, ps: map<nat, Place>, pid: nat, p: Place)
    requires Allotted(h, ps) && pid !in ps && Owned(h, p) && forall i | i in ps :: NoneShared(ps[i], p)
    ensures Allotted(h, ps[pid := p])
  {
    hide Owned;
  }

  // So the machine of ContextRuns can set up that process, wherever it is in its
  // run; what processes that have ended left behind may be used again.
  lemma SpawnAllowed(y: R.Sys, h: Heap, ps: map<nat, Place>, pid: nat, proc: u32) returns (p: Place)
    requires R.Shape(y) && Tiled(h) && Allotted(h, ps) && y.tasks == Tasks(ps) && pid !in ps
    requires Malloc(h, PROCESS_SIZE).Granted? && NoWrap(h, PROCESS_SIZE)
    requires var g := Malloc(h, PROCESS_SIZE).heap;
             && 0 <= g.brk < BRK_MAX && Malloc(g, STACK_SIZE).Granted? && NoWrap(g, STACK_SIZE)
    ensures var k := Malloc(Malloc(h, PROCESS_SIZE).heap, STACK_SIZE);
            && Tiled(k.heap) && Allotted(k.heap, ps[pid := p])
            && p.stack.Payload() == k.ptr && p.record.Payload() == Malloc(h, PROCESS_SIZE).ptr
            && R.Allowed(y, R.Spawn(pid, TaskOf(p), proc))
            && R.Step(y, R.Spawn(pid, TaskOf(p), proc)).tasks == Tasks(ps[pid := p])
  {
    assert 0 <= h.brk < BRK_MAX;
    hide Malloc, Tiled, NoWrap, Layout, R.Shape, Allotted, Owned, NoneShared, Tasks, TaskOf, R.Allowed, R.Step;
    p := CreateAllots(h, ps, pid);
    SpawnFits(y, ps, pid, p, proc);
  }

  lemma SpawnFits(y: R.Sys, ps: map<nat, Place>, pid: nat, p: Place, proc: u32)
    requires R.Shape(y) && y.tasks == Tasks(ps) && pid !in ps && Layout(Tasks(ps[pid := p]))
    ensures R.Allowed(y, R.Spawn(pid, TaskOf(p), proc))
    ensures R.Step(y, R.Spawn(pid, TaskOf(p), proc)).tasks == Tasks(ps[pid := p])
  {
    hide TaskOf, Setup, Layout, R.Shape;
    assert Tasks(ps[pid := p]) == Tasks(ps)[pid := TaskOf(p)];
  }

  // ----- The word on top of the stack and the heap -----

  // The three upper bytes of the record's address.
  function Spilled(p: u32, k: nat): u8
    requires k < 3
  {
    if k == 0 then p / 0x100 % 0x100 else if k == 1 then p / 0x1_0000 % 0x100 else p / 0x100_0000
  }

  // Nothing begins right behind the stack, or what begins there starts with those
  // bytes anyway.
  ghost predicate Harmless(m: Bytes, h: Heap, p: u32, s: Block) {
    forall b, k: nat | b in h.blocks && b.addr == s.Top() && k < 3 && InHeader(b, s.Payload() + STACK_SIZE + k) ::
      m[s.Payload() + STACK_SIZE + k] == Spilled(p, k)
  }

  predicate InHeader(b: Block, x: int) {
    0 <= b.addr <= x < WORD_SIZE
  }

  // With no gap in the heap, the next block behind s begins at its top.
  lemma FarBehind(h: Heap, b: Block, s: Block)
    requires Tiled(h) && b in h.blocks && s in h.blocks && b.addr > s.Top()
    ensures b.addr >= s.Top() + HEADER
  {
    var k :| 0 <= k < |h.blocks| && h.blocks[k] == b;
    var j :| 0 <= j < |h.blocks| && h.blocks[j] == s;
    assert Covered(h, s.Top());
    var i :| 0 <= i < |h.blocks| && h.blocks[i].Holds(s.Top());
    assert i != j && i != k && Disjoint(h.blocks[i], h.blocks[j]) && Disjoint(h.blocks[i], h.blocks[k]);
  }

  lemma HeaderApart(h: Heap, b: Block, c: Block)
    requires Tiled(h) && b in h.blocks && c in h.blocks
    ensures b.addr + HEADER <= c.Payload() || c.Top() <= b.addr
    ensures h.base <= b.addr <= WORD_SIZE - HEADER
  {
    if b != c {
      PayloadsApart(h, b, c);
    }
  }

  // Record and stack lie where setup_kernel_process can write.
  ghost predicate Room(r: Block, s: Block) {
    && 0 < s.Payload() <= WORD_SIZE - STACK_SIZE - 4 && 0 <= r.Payload() <= WORD_SIZE - 8
    && (r.Payload() + 8 <= s.Payload() || s.Payload() + STACK_SIZE + 3 <= r.Payload())
  }

  // Memory after setup_kernel_process.
  ghost function Started(m: Bytes, r: Block, s: Block, proc: u32): Bytes
    requires Room(r, s)
  {
    Setup(m, r.Payload(), s.Payload() + STACK_SIZE - 1, proc)
  }

  // Two blocks of the heap, large enough for a record and a stack.
  ghost predicate Pair(h: Heap, r: Block, s: Block) {
    Tiled(h) && r in h.blocks && s in h.blocks && r != s && r.size >= 8 && s.size >= STACK_SIZE
  }

  lemma PairRoom(h: Heap, r: Block, s: Block)
    requires Pair(h, r, s)
    ensures Room(r, s) && h.base <= r.addr && h.base <= s.addr
  {
    PayloadsApart(h, r, s);
    HeaderApart(h, r, r);
    HeaderApart(h, s, s);
  }

  lemma StartedSpares(m: Bytes, r: Block, s: Block, proc: u32, lo: int, hi: int)
    requires Room(r, s) && (hi <= r.Payload() || r.Payload() + 8 <= lo)
    requires hi <= s.Payload() || s.Payload() + STACK_SIZE + 3 <= lo
    ensures Same(m, Started(m, r, s, proc), lo, hi)
  {
    SetupSpares(m, r.Payload(), s.Payload() + STACK_SIZE - 1, proc, lo, hi);
  }

  lemma SpillBytes(m: Bytes, r: Block, s: Block, proc: u32, k: nat)
    requires Room(r, s) && k < 3
    ensures Started(m, r, s, proc)[s.Payload() + STACK_SIZE + k] == Spilled(r.Payload(), k)
  {
    hide Setup;
    TopWordSpills(m, r.Payload(), s.Payload(), proc);
  }

  // Which bytes it writes, as far as headers go: none of any header but one that
  // begins right behind the stack block.
  lemma StartedSparesHeader(m: Bytes, h: Heap, r: Block, s: Block, proc: u32, b: Block)
    requires Pair(h, r, s) && b in h.blocks && Harmless(m, h, r.Payload(), s)
    ensures Room(r, s) && Same(m, Started(m, r, s, proc), b.addr, b.addr + HEADER)
  {
    PairRoom(h, r, s);
    HeaderApart(h, b, r);
    HeaderApart(h, b, s);
    if b.addr == s.Top() {
      StartedSparesNext(m, h, r, s, proc, b);
    } else {
      if b.addr > s.Top() {
        FarBehind(h, b, s);
      }
      hide Started, Tiled, Harmless;
      StartedSpares(m, r, s, proc, b.addr, b.addr + HEADER);
    }
  }

  lemma StartedSparesNext(m: Bytes, h: Heap, r: Block, s: Block, proc: u32, b: Block)
    requires Room(r, s) && s.size >= STACK_SIZE && Harmless(m, h, r.Payload(), s)
    requires b in h.blocks && b.addr == s.Top() && 0 <= b.addr <= WORD_SIZE - HEADER
    requires b.addr + HEADER <= r.Payload() || r.Payload() + 8 <= b.addr
    ensures Same(m, Started(m, r, s, proc), b.addr, b.addr + HEADER)
  {
    hide Started, Spilled;
    var n, end := Started(m, r, s, proc), s.Payload() + STACK_SIZE;
    StartedSpares(m, r, s, proc, if b.addr < end + 3 then end + 3 else b.addr, b.addr + HEADER);
    forall x | 0 <= x < WORD_SIZE && b.addr <= x < b.addr + HEADER ensures n[x] == m[x] {
      if x < end + 3 {
        var k: nat := x - end;
        SpillBytes(m, r, s, proc, k);
        assert InHeader(b, end + k);
        assert m[end + k] == Spilled(r.Payload(), k);
      }
    }
  }

  // Two words are equal only when their bytes are.
  lemma SameBytes(a: u8, b: u8, c: u8, d: u8, e: u8, f: u8, g: u8, h: u8)
    requires FromBytes(a, b, c, d) == FromBytes(e, f, g, h)
    ensures a == e && b == f && c == g && d == h
  {
    assert d == h;
    assert c == g;
  }

  lemma SameWord(m: Bytes, n: Bytes, a: int, x: int)
    requires 0 <= a <= WORD_SIZE - 4 && Load32(m, a) == Load32(n, a) && a <= x < a + 4
    ensures m[x] == n[x]
  {
    FourBytes(m, a);
    FourBytes(n, a);
    hide FromBytes, LittleEndian;
    SameBytes(m[a], m[a + 1], m[a + 2], m[a + 3], n[a], n[a + 1], n[a + 2], n[a + 3]);
  }

  lemma ChainWord(m: Bytes, n: Bytes, chain: int, bs: seq<Block>, i: nat)
    requires Encodes(m, chain, bs) && Encodes(n, chain, bs) && i < |bs|
    ensures 0 <= bs[i].addr <= WORD_SIZE - 4 && Load32(m, bs[i].addr) == Load32(n, bs[i].addr)
  {
    var r := Chain(chain, bs);
    assert r[i + 1] == bs[i].addr && Addressable(r[i + 1]);
    assert Linked(Next(m), Prev(m), r, i + 1) && Linked(Next(n), Prev(n), r, i + 1);
    hide Load32;
  }

  lemma HarmlessKeeps(m: Bytes, chain: int, h: Heap, r: Block, s: Block, proc: u32)
    requires Encodes(m, chain, h.blocks) && Pair(h, r, s) && STATE_AT < chain && chain + LINK_SIZE <= h.base
    requires Harmless(m, h, r.Payload(), s)
    ensures Room(r, s) && Encodes(Started(m, r, s, proc), chain, h.blocks)
  {
    PairRoom(h, r, s);
    hide Started, Encodes, Harmless, Tiled, Pair, Same, Room;
    var n := Started(m, r, s, proc);
    StartedSpares(m, r, s, proc, chain, chain + LINK_SIZE);
    forall i | 0 <= i < |h.blocks| ensures Same(m, n, h.blocks[i].addr, h.blocks[i].addr + HEADER) {
      StartedSparesHeader(m, h, r, s, proc, h.blocks[i]);
    }
    EncodesFrame(m, n, chain, h.blocks);
  }

  // A chain that survived tells what the bytes behind the stack were.
  lemma KeptHarmless(m: Bytes, chain: int, h: Heap, r: Block, s: Block, proc: u32, b: Block, k: nat)
    requires Encodes(m, chain, h.blocks) && Pair(h, r, s) && Room(r, s)
    requires b in h.blocks && b.addr == s.Top() && k < 3 && InHeader(b, s.Payload() + STACK_SIZE + k)
    requires Encodes(Started(m, r, s, proc), chain, h.blocks)
    ensures m[s.Payload() + STACK_SIZE + k] == Spilled(r.Payload(), k)
  {
    hide Started, Encodes, Load32, Tiled, Spilled, Room;
    var n := Started(m, r, s, proc);
    var i :| 0 <= i < |h.blocks| && h.blocks[i] == b;
    SpillBytes(m, r, s, proc, k);
    ChainWord(m, n, chain, h.blocks, i);
    SameWord(m, n, b.addr, s.Payload() + STACK_SIZE + k);
  }

  // setup_kernel_process leaves the heap's chain as it is exactly when the spilled
  // bytes are harmless: otherwise they overwrite the link of the next block.
  lemma SetupKeepsChain(m: Bytes, chain: int, h: Heap, r: Block, s: Block, proc: u32)
    requires Encodes(m, chain, h.blocks) && Pair(h, r, s) && STATE_AT < chain && chain + LINK_SIZE <= h.base
    ensures Room(r, s)
    ensures Encodes(Started(m, r, s, proc), chain, h.blocks) <==> Harmless(m, h, r.Payload(), s)
  {
    PairRoom(h, r, s);
    hide Started, Encodes, Tiled, Pair, Spilled, Room;
    if Harmless(m, h, r.Payload(), s) {
      HarmlessKeeps(m, chain, h, r, s, proc);
    } else {
      var b, k: nat :| b in h.blocks && b.addr == s.Top() && k < 3 && InHeader(b, s.Payload() + STACK_SIZE + k)
                       && m[s.Payload() + STACK_SIZE + k] != Spilled(r.Payload(), k);
      if Encodes(Started(m, r, s, proc), chain, h.blocks) {
        KeptHarmless(m, chain, h, r, s, proc, b, k);
      }
    }
  }

  lemma ShiftedWord(b: u8, x0: u8, x1: u8, x2: u8, x3: u8, p: u32)
    ensures FromBytes(b, x0, x1, x2) == p <==> b == p % 0x100 && FromBytes(x0, x1, x2, x3) % 0x100_0000 == p / 0x100
  {
    assert FromBytes(x0, x1, x2, x3) % 0x100_0000 == FromBytes(x0, x1, x2, 0);
    assert FromBytes(b, x0, x1, x2) == b + 0x100 * FromBytes(x0, x1, x2, 0);
  }

  // The other way round, a header that is written right behind a stack overwrites the
  // stack's topmost word: it holds the record's address only where three bytes of the
  // link happen to be those of the address.
  lemma TopWordLost(m: Bytes, chain: int, h: Heap, i: nat, s: Block, p: u32)
    requires Tiled(h) && Encodes(m, chain, h.blocks) && i < |h.blocks|
    requires s in h.blocks && s.size == STACK_SIZE && h.blocks[i].addr == s.Top()
    ensures 0 < s.Top() <= WORD_SIZE - HEADER
    ensures var next := if i + 1 == |h.blocks| then chain else h.blocks[i + 1].addr;
            Load32(m, s.Top() - 1) == p <==> m[s.Top() - 1] == p % 0x100 && next % 0x100_0000 == p / 0x100
  {
    hide Encodes, Load32, FromBytes;
    HeaderApart(h, h.blocks[i], s);
    HeaderApart(h, s, s);
    HeaderWords(m, chain, h.blocks, i);
    var t := s.Top();
    hide Tiled;
    LoadBytes(m, t);
    LoadBytes(m, t - 1);
    ShiftedWord(m[t - 1], m[t], m[t + 1], m[t + 2], m[t + 3], p);
  }

  lemma LoadBytes(m: Bytes, a: int)
    requires 0 <= a <= WORD_SIZE - 4
    ensures Load32(m, a) == FromBytes(m[a], m[a + 1], m[a + 2], m[a + 3])
  {
    FourBytes(m, a);
  }

  // ----- A chain that breaks -----

  // Three allocations from an empty heap and two releases leave a free block of 4096
  // bytes, and right behind it one of 84: create_process puts its stack into the
  // first and its record into the second.
  function BrokenRun(): seq<Call> {
    [Alloc(4096)] + ([Alloc(84)] + ([Alloc(1)] + LastCalls()))
  }

  function LastCalls(): seq<Call> {
    [Release(0xC011_0014)] + ([Release(0xC011_1028)] + ([Alloc(PROCESS_SIZE)] + ([Alloc(STACK_SIZE)] + [])))
  }

  const EMPTY := Heap(0xC011_0000, 0xC011_0000, [])
  const STACK_BLOCK := Block(0xC011_0000, 4096, true)
  const RECORD_BLOCK := Block(0xC011_1014, 84, true)

  function BrokenHeap(stack: bool, record: bool): Heap {
    Heap(0xC011_0000, 0xC011_1091,
         [Block(0xC011_107C, 1, true), RECORD_BLOCK.(used := record), STACK_BLOCK.(used := stack)])
  }

  // A call in front of a run that ends in g.
  lemma RunCons(h: Heap, c: Call, cs: seq<Call>, g: Heap)
    requires 0 <= h.brk < BRK_MAX && Legal(h, c)
    requires LegalRun(HeapModel.Step(h, c), cs) && Run(HeapModel.Step(h, c), cs) == g
    ensures LegalRun(h, [c] + cs) && Run(h, [c] + cs) == g
  {
    assert ([c] + cs)[1..] == cs;
  }

  lemma GrowStep(h: Heap, bytes: u32)
    requires 0 <= h.brk && h.brk + HEADER + bytes < BRK_MAX && bytes > 0
    requires forall i | 0 <= i < |h.blocks| :: h.blocks[i].used
    ensures Legal(h, Alloc(bytes))
    ensures HeapModel.Step(h, Alloc(bytes)) ==
            Heap(h.base, h.brk + HEADER + bytes, [Block(h.brk, bytes, true)] + h.blocks)
  {
  }

  lemma TakeStep(h: Heap, bytes: u32, i: nat)
    requires 0 <= h.brk < BRK_MAX && bytes > 0 && i < |h.blocks| && h.blocks[i].Fits(bytes)
    requires h.blocks[i].size - bytes < MIN_SPLIT && forall k | 0 <= k < i :: !h.blocks[k].Fits(bytes)
    ensures Legal(h, Alloc(bytes))
    ensures HeapModel.Step(h, Alloc(bytes)) == h.(blocks := h.blocks[i := h.blocks[i].(used := true)])
  {
    assert FirstFit(h.blocks, bytes, 0) == i;
  }

  lemma ReleaseStep(h: Heap, i: nat)
    requires 0 <= h.brk < BRK_MAX && i < |h.blocks| && h.blocks[i].used
    requires forall k | 0 <= k < |h.blocks| && k != i :: h.blocks[k].addr != h.blocks[i].addr
    ensures Legal(h, Release(h.blocks[i].Payload()))
    ensures HeapModel.Step(h, Release(h.blocks[i].Payload())) ==
            h.(blocks := h.blocks[i := h.blocks[i].(used := false)])
  {
    assert Live(h.blocks, h.blocks[i].Payload()) && IsBlock(h.blocks, h.blocks[i].Payload());
    assert IndexOf(h.blocks, h.blocks[i].Payload()) == i;
  }

  lemma LastCallsReturn()
    ensures LegalRun(BrokenHeap(true, true), LastCalls())
    ensures Run(BrokenHeap(true, true), LastCalls()) == BrokenHeap(true, true)
  {
    var h3, h4, h5 := BrokenHeap(true, true), BrokenHeap(false, true), BrokenHeap(false, false);
    ReleaseStep(h3, 2);
    ReleaseStep(h4, 1);
    TakeStep(h5, PROCESS_SIZE, 1);
    TakeStep(h4, STACK_SIZE, 2);
    assert h3.blocks[2 := h3.blocks[2].(used := false)] == h4.blocks;
    assert h4.blocks[1 := h4.blocks[1].(used := false)] == h5.blocks;
    assert h5.blocks[1 := h5.blocks[1].(used := true)] == h4.blocks;
    assert h4.blocks[2 := h4.blocks[2].(used := true)] == h3.blocks;
    assert LegalRun(h3, []) && Run(h3, []) == h3;
    hide Malloc, NoWrap, Live, Free, FirstFit, Legal, HeapModel.Step, LegalRun, Run;
    var c7 := [Alloc(STACK_SIZE)] + [];
    var c6 := [Alloc(PROCESS_SIZE)] + c7;
    var c5 := [Release(0xC011_1028)] + c6;
    RunCons(h4, Alloc(STACK_SIZE), [], h3);
    RunCons(h5, Alloc(PROCESS_SIZE), c7, h3);
    RunCons(h4, Release(0xC011_1028), c6, h3);
    RunCons(h3, Release(0xC011_0014), c5, h3);
  }

  lemma BrokenReached()
    ensures LegalRun(EMPTY, BrokenRun()) && Run(EMPTY, BrokenRun()) == BrokenHeap(true, true)
  {
    var h1 := Heap(0xC011_0000, 0xC011_1014, [STACK_BLOCK]);
    var h2 := Heap(0xC011_0000, 0xC011_107C, [RECORD_BLOCK, STACK_BLOCK]);
    var h3 := BrokenHeap(true, true);
    GrowStep(EMPTY, 4096);
    GrowStep(h1, 84);
    GrowStep(h2, 1);
    assert [STACK_BLOCK] + EMPTY.blocks == h1.blocks;
    assert [RECORD_BLOCK] + h1.blocks == h2.blocks;
    assert [Block(0xC011_107C, 1, true)] + h2.blocks == h3.blocks;
    hide Malloc, NoWrap, Live, Free, FirstFit, Legal, HeapModel.Step, LegalRun, Run, LastCalls;
    LastCallsReturn();
    var c3 := [Alloc(1)] + LastCalls();
    var c2 := [Alloc(84)] + c3;
    RunCons(h2, Alloc(1), LastCalls(), h3);
    RunCons(h1, Alloc(84), c3, h3);
    RunCons(EMPTY, Alloc(4096), c2, h3);
  }

  lemma EmptyTiled()
    ensures Tiled(EMPTY)
  {
  }

  // The record's header begins with the stack block's address, and so with a zero.
  lemma RecordLink(m: Bytes, chain: int)
    requires Encodes(m, chain, BrokenHeap(true, true).blocks)
    ensures m[0xC011_1014] == 0
  {
    hide Encodes, Load32;
    HeaderWords(m, chain, BrokenHeap(true, true).blocks, 1);
    LoadBytes(m, 0xC011_1014);
  }

  lemma RecordSpoiled(m: Bytes)
    requires m[0xC011_1014] == 0
    ensures !Harmless(m, BrokenHeap(true, true), RECORD_BLOCK.Payload(), STACK_BLOCK)
  {
    var h := BrokenHeap(true, true);
    assert h.blocks[1] == RECORD_BLOCK && RECORD_BLOCK in h.blocks;
    assert InHeader(RECORD_BLOCK, STACK_BLOCK.Payload() + STACK_SIZE + 0);
    assert Spilled(RECORD_BLOCK.Payload(), 0) == 0x10;
    hide BrokenHeap;
  }

  // There, setting up the process overwrites the link of its own record's header.
  lemma ChainBreaks(m: Bytes, chain: int, proc: u32)
    requires STATE_AT < chain && chain + LINK_SIZE <= 0xC011_0000
    requires Encodes(m, chain, BrokenHeap(true, true).blocks)
    ensures Room(RECORD_BLOCK, STACK_BLOCK)
    ensures !Encodes(Started(m, RECORD_BLOCK, STACK_BLOCK, proc), chain, BrokenHeap(true, true).blocks)
  {
    var h := BrokenHeap(true, true);
    assert h.blocks[1] == RECORD_BLOCK && h.blocks[2] == STACK_BLOCK && h.base == 0xC011_0000;
    hide Encodes, Started, Harmless, Tiled, Room, Run, LegalRun, BrokenHeap;
    EmptyTiled();
    BrokenReached();
    RunTiles(EMPTY, BrokenRun());
    RecordLink(m, chain);
    RecordSpoiled(m);
    SetupKeepsChain(m, chain, h, RECORD_BLOCK, STACK_BLOCK, proc);
  }
}
