// The kernel heap (mm/heap.c) as a value: the blocks of the chain, in chain
// order, and the break.  A block is a 20-byte header followed by its payload.

module HeapModel {
  import opened Words
  import Mmu

  const HEADER := 20
  const MIN_SPLIT := 28          // a header and 8 bytes of payload
  const BRK_MAX := 0xFFBF_C000   // the page-table window minus TEMP_RESERVE pages

  datatype Block = Block(addr: int, size: int, used: bool) {
    function Payload(): int { addr + HEADER }
    function Top(): int { addr + HEADER + size }
    predicate Holds(x: int) { addr <= x < Top() }
    predicate Fits(bytes: int) { bytes <= size && !used }
  }

  datatype Heap = Heap(base: int, brk: int, blocks: seq<Block>)

  predicate Disjoint(a: Block, b: Block) {
    a.Top() <= b.addr || b.Top() <= a.addr
  }

  ghost predicate AllDisjoint(bs: seq<Block>) {
    forall i, j | 0 <= i < |bs| && 0 <= j < |bs| && i != j :: Disjoint(bs[i], bs[j])
  }

  ghost predicate Covered(h: Heap, x: int) {
    exists i | 0 <= i < |h.blocks| :: h.blocks[i].Holds(x)
  }

  // The blocks tile [base, brk): each lies inside, no two overlap, no gap is left.
  ghost predicate Tiled(h: Heap) {
    && 0 <= h.base <= h.brk < BRK_MAX
    && (forall i | 0 <= i < |h.blocks| ::
          h.base <= h.blocks[i].addr && h.blocks[i].size > 0 && h.blocks[i].Top() <= h.brk)
    && AllDisjoint(h.blocks)
    && (forall x | h.base <= x < h.brk :: Covered(h, x))
  }

  // ----- kmalloc and kfree -----

  function FirstFit(bs: seq<Block>, bytes: int, from: nat): (i: nat)
    requires from <= |bs|
    ensures from <= i <= |bs|
    ensures i < |bs| ==> bs[i].Fits(bytes)
    ensures forall k | from <= k < i :: !bs[k].Fits(bytes)
    decreases |bs| - from
  {
    if from == |bs| || bs[from].Fits(bytes) then from else FirstFit(bs, bytes, from + 1)
  }

  datatype Grant = Null | Panic | Granted(heap: Heap, ptr: int)

  // The address the break would move to, computed in 32 bits.
  function Grown(h: Heap, bytes: u32): u32
    requires 0 <= h.brk < BRK_MAX
  {
    Add32(h.brk, Add32(HEADER, bytes))
  }

  function Malloc(h: Heap, bytes: u32): Grant
    requires 0 <= h.brk < BRK_MAX
  {
    var i := FirstFit(h.blocks, bytes, 0);
    if bytes == 0 then Null
    else if i < |h.blocks| then Granted(h.(blocks := Taken(h.blocks, i, bytes)), h.blocks[i].Payload())
    else if Grown(h, bytes) >= BRK_MAX then Panic
    else Granted(Heap(h.base, Grown(h, bytes), [Block(h.brk, bytes, true)] + h.blocks), h.brk + HEADER)
  }

  // The chain after giving out block i: as a whole, or cut when enough is left.
  function Taken(bs: seq<Block>, i: nat, bytes: int): seq<Block>
    requires i < |bs|
  {
    if bs[i].size - bytes < MIN_SPLIT then bs[i := bs[i].(used := true)]
    else [Block(bs[i].Payload() + bytes, bs[i].size - bytes - HEADER, false)] + bs[i := Block(bs[i].addr, bytes, true)]
  }

  // The request is served from the chain, or the break can grow by it without
  // leaving 32 bits.
  predicate NoWrap(h: Heap, bytes: u32) {
    FirstFit(h.blocks, bytes, 0) < |h.blocks| || h.brk + HEADER + bytes < WORD_SIZE
  }

  predicate IsBlock(bs: seq<Block>, ptr: int) {
    exists i | 0 <= i < |bs| :: bs[i].Payload() == ptr
  }

  predicate Live(bs: seq<Block>, ptr: int) {
    exists i | 0 <= i < |bs| :: bs[i].Payload() == ptr && bs[i].used
  }

  function IndexOf(bs: seq<Block>, ptr: int): (i: nat)
    requires IsBlock(bs, ptr)
    ensures i < |bs| && bs[i].Payload() == ptr
  {
    if bs[0].Payload() == ptr then 0
    else
      assert IsBlock(bs[1..], ptr) by {
        var k :| 0 <= k < |bs| && bs[k].Payload() == ptr;
        assert bs[1..][k - 1] == bs[k];
      }
      1 + IndexOf(bs[1..], ptr)
  }

  function Free(h: Heap, ptr: int): Heap
    requires IsBlock(h.blocks, ptr)
  {
    var i := IndexOf(h.blocks, ptr);
    h.(blocks := h.blocks[i := h.blocks[i].(used := false)])
  }

  function UsedCount(bs: seq<Block>): nat {
    if bs == [] then 0 else (if bs[0].used then 1 else 0) + UsedCount(bs[1..])
  }

  // ----- One call -----

  // Growing the break keeps the tiling exactly when the size computation stays
  // within 32 bits; a request served from the chain always does.
  lemma MallocTiles(h: Heap, bytes: u32)
    requires Tiled(h) && Malloc(h, bytes).Granted?
    ensures Tiled(Malloc(h, bytes).heap) <==> NoWrap(h, bytes)
  {
    var g := Malloc(h, bytes).heap;
    var i := FirstFit(h.blocks, bytes, 0);
    if i == |h.blocks| {
      if NoWrap(h, bytes) {
        GrowTiles(h, bytes);
      } else {
        assert g.blocks[0].Top() > g.brk;
      }
    } else if h.blocks[i].size - bytes >= MIN_SPLIT {
      SplitTiles(h, i, bytes);
    } else {
      MarkTiles(h, i, true);
    }
  }

  lemma GrowTiles(h: Heap, bytes: u32)
    requires Tiled(h) && bytes > 0 && h.brk + HEADER + bytes < BRK_MAX
    ensures Tiled(Heap(h.base, h.brk + HEADER + bytes, [Block(h.brk, bytes, true)] + h.blocks))
  {
    var g := Heap(h.base, h.brk + HEADER + bytes, [Block(h.brk, bytes, true)] + h.blocks);
    PushDisjoint(h.blocks, g.blocks[0]);
    forall x | g.base <= x < g.brk ensures Covered(g, x) {
      if x < h.brk {
        assert Covered(h, x);
        var i :| 0 <= i < |h.blocks| && h.blocks[i].Holds(x);
        assert g.blocks[i + 1].Holds(x);
      } else {
        assert g.blocks[0].Holds(x);
      }
    }
  }

  lemma ReplaceDisjoint(bs: seq<Block>, i: nat, b: Block)
    requires AllDisjoint(bs) && i < |bs|
    requires bs[i].addr <= b.addr && b.Top() <= bs[i].Top()
    ensures AllDisjoint(bs[i := b])
  {
    var cs := bs[i := b];
    forall k, l | 0 <= k < |cs| && 0 <= l < |cs| && k != l ensures Disjoint(cs[k], cs[l]) {
      assert Disjoint(bs[k], bs[l]);
    }
  }

  lemma PushDisjoint(bs: seq<Block>, b: Block)
    requires AllDisjoint(bs)
    requires forall i | 0 <= i < |bs| :: Disjoint(bs[i], b)
    ensures AllDisjoint([b] + bs)
  {
    var cs := [b] + bs;
    forall k, l | 0 <= k < |cs| && 0 <= l < |cs| && k != l ensures Disjoint(cs[k], cs[l]) {
      if k > 0 && l > 0 {
        assert cs[k] == bs[k - 1] && cs[l] == bs[l - 1];
      } else if k > 0 {
        assert Disjoint(bs[k - 1], b);
      } else {
        assert Disjoint(bs[l - 1], b);
      }
    }
  }

  // Marking a block used or free moves no boundary.
  lemma MarkTiles(h: Heap, i: nat, used: bool)
    requires Tiled(h) && i < |h.blocks|
    ensures Tiled(h.(blocks := h.blocks[i := h.blocks[i].(used := used)]))
  {
    var g := h.(blocks := h.blocks[i := h.blocks[i].(used := used)]);
    ReplaceDisjoint(h.blocks, i, g.blocks[i]);
    forall x | g.base <= x < g.brk ensures Covered(g, x) {
      assert Covered(h, x);
      var k :| 0 <= k < |h.blocks| && h.blocks[k].Holds(x);
      assert g.blocks[k].Holds(x);
    }
  }

  // Cutting a block in two, the second part with its own header, leaves no gap.
  lemma SplitTiles(h: Heap, i: nat, bytes: int)
    requires Tiled(h) && i < |h.blocks| && bytes > 0 && h.blocks[i].size - bytes >= MIN_SPLIT
    ensures var b := h.blocks[i];
            Tiled(h.(blocks := [Block(b.Payload() + bytes, b.size - bytes - HEADER, false)]
                               + h.blocks[i := Block(b.addr, bytes, true)]))
  {
    var b := h.blocks[i];
    var lo, hi := Block(b.addr, bytes, true), Block(b.Payload() + bytes, b.size - bytes - HEADER, false);
    var cut := h.blocks[i := lo];
    ReplaceDisjoint(h.blocks, i, lo);
    forall k | 0 <= k < |cut| ensures Disjoint(cut[k], hi) {
      assert k != i ==> Disjoint(h.blocks[k], b);
    }
    PushDisjoint(cut, hi);
    var g := h.(blocks := [hi] + cut);
    forall x | g.base <= x < g.brk ensures Covered(g, x) {
      assert Covered(h, x);
      var k :| 0 <= k < |h.blocks| && h.blocks[k].Holds(x);
      assert g.blocks[k + 1] == cut[k];
      assert g.blocks[if k == i && hi.Holds(x) then 0 else k + 1].Holds(x);
    }
  }

  // What a caller gets: a used block of at least the size asked for, below the
  // limit, that overlaps no block that was in use before.
  lemma MallocGrants(h: Heap, bytes: u32)
    requires Tiled(h) && Malloc(h, bytes).Granted? && NoWrap(h, bytes)
    ensures var g := Malloc(h, bytes);
            exists b | b in g.heap.blocks ::
              && b.used && b.Payload() == g.ptr && b.size >= bytes && b.Top() < BRK_MAX
              && forall o | o in h.blocks && o.used :: Disjoint(o, b)
  {
    var g := Malloc(h, bytes);
    var i := FirstFit(h.blocks, bytes, 0);
    if i == |h.blocks| {
      assert g.heap.blocks[0] in g.heap.blocks;
    } else {
      var kept := TakenKept(h.blocks, i, bytes);
      forall o | o in h.blocks && o.used ensures Disjoint(o, kept) {
        var k :| 0 <= k < |h.blocks| && h.blocks[k] == o;
        assert Disjoint(h.blocks[k], h.blocks[i]);
      }
    }
  }

  lemma TakenKept(bs: seq<Block>, i: nat, bytes: int) returns (kept: Block)
    requires i < |bs| && bs[i].Fits(bytes)
    ensures kept in Taken(bs, i, bytes) && kept.used
    ensures kept.addr == bs[i].addr && bytes <= kept.size <= bs[i].size
  {
    var j := i + |Taken(bs, i, bytes)| - |bs|;
    kept := Taken(bs, i, bytes)[j];
  }

  // Blocks in use stay as they were, and no block start ever disappears.
  lemma MallocKeeps(h: Heap, bytes: u32)
    requires Tiled(h) && Malloc(h, bytes).Granted?
    ensures var g := Malloc(h, bytes).heap;
            && (forall o | o in h.blocks && o.used :: o in g.blocks)
            && (forall o | o in h.blocks :: IsBlock(g.blocks, o.Payload()))
  {
    var g := Malloc(h, bytes).heap;
    var i := FirstFit(h.blocks, bytes, 0);
    forall o | o in h.blocks ensures (o.used ==> o in g.blocks) && IsBlock(g.blocks, o.Payload()) {
      var k :| 0 <= k < |h.blocks| && h.blocks[k] == o;
      if i < |h.blocks| {
        TakenAt(h.blocks, i, bytes, k);
      } else {
        assert g.blocks[k + 1] == o;
      }
    }
  }

  lemma TakenAt(bs: seq<Block>, i: nat, bytes: int, k: nat)
    requires i < |bs| && bs[i].Fits(bytes) && k < |bs|
    ensures k != i ==> bs[k] in Taken(bs, i, bytes)
    ensures IsBlock(Taken(bs, i, bytes), bs[k].Payload())
  {
    var j := k + |Taken(bs, i, bytes)| - |bs|;
    assert Taken(bs, i, bytes)[j].addr == bs[k].addr;
    assert k != i ==> Taken(bs, i, bytes)[j] == bs[k];
  }

  lemma MallocCounts(h: Heap, bytes: u32)
    requires Tiled(h) && Malloc(h, bytes).Granted?
    ensures UsedCount(Malloc(h, bytes).heap.blocks) == UsedCount(h.blocks) + 1
  {
    var g := Malloc(h, bytes).heap;
    var i := FirstFit(h.blocks, bytes, 0);
    if i == |h.blocks| {
      assert g.blocks[1..] == h.blocks;
    } else {
      var shift := |g.blocks| - |h.blocks|;
      var kept := g.blocks[i + shift];
      assert g.blocks[shift..] == h.blocks[i := kept];
      UsedCountUpdate(h.blocks, i, kept);
    }
  }

  lemma {:induction false} UsedCountUpdate(bs: seq<Block>, i: nat, b: Block)
    requires i < |bs|
    ensures UsedCount(bs[i := b]) + (if bs[i].used then 1 else 0) == UsedCount(bs) + (if b.used then 1 else 0)
  {
    if i > 0 {
      assert bs[i := b][1..] == bs[1..][i - 1 := b];
      UsedCountUpdate(bs[1..], i - 1, b);
    } else {
      assert bs[i := b][1..] == bs[1..];
    }
  }

  lemma FreeKeeps(h: Heap, ptr: int)
    requires Tiled(h) && IsBlock(h.blocks, ptr)
    ensures forall o | o in h.blocks && o.used && o.Payload() != ptr :: o in Free(h, ptr).blocks
    ensures forall o | o in h.blocks :: IsBlock(Free(h, ptr).blocks, o.Payload())
  {
    var g := Free(h, ptr);
    forall o | o in h.blocks
      ensures (o.used && o.Payload() != ptr ==> o in g.blocks) && IsBlock(g.blocks, o.Payload())
    {
      var k :| 0 <= k < |h.blocks| && h.blocks[k] == o;
      assert g.blocks[k].Payload() == o.Payload();
      assert o.Payload() != ptr ==> g.blocks[k] == o;
    }
  }

  // kfree always decrements its counter of used blocks; that is right exactly
  // when the pointer was live, and afterwards it is not live any more.
  lemma FreeCounts(h: Heap, ptr: int)
    requires Tiled(h) && IsBlock(h.blocks, ptr)
    ensures UsedCount(Free(h, ptr).blocks) == UsedCount(h.blocks) - 1 <==> Live(h.blocks, ptr)
    ensures !Live(Free(h, ptr).blocks, ptr)
  {
    var i := IndexOf(h.blocks, ptr);
    UsedCountUpdate(h.blocks, i, h.blocks[i].(used := false));
    forall k | 0 <= k < |h.blocks| && k != i ensures h.blocks[k].Payload() != ptr {
      assert Disjoint(h.blocks[k], h.blocks[i]);
    }
  }

  // The bytes of a request can wrap around 32 bits: then the break barely moves
  // and the new block reaches far beyond it.
  lemma WrapExample(h: Heap)
    requires h == Heap(0xC010_0000, 0xC010_0000, [])
    ensures Tiled(h) && Malloc(h, 0xFFFF_FFF0).Granted? && !Tiled(Malloc(h, 0xFFFF_FFF0).heap)
  {
    assert Malloc(h, 0xFFFF_FFF0).heap.blocks[0].Top() > Malloc(h, 0xFFFF_FFF0).heap.brk;
  }

  // ----- Which block a request gets -----

  // No free block of the chain is large enough.
  predicate NoneFits(bs: seq<Block>, bytes: int) {
    forall k | 0 <= k < |bs| :: bs[k].used || bs[k].size < bytes
  }

  // The first free block that is large enough is handed out, cut in two exactly
  // when 28 bytes or more would be left over; the break stays.
  lemma MallocReuses(h: Heap, bytes: u32, i: nat)
    requires 0 <= h.brk < BRK_MAX && bytes > 0 && i < |h.blocks| && !h.blocks[i].used && h.blocks[i].size >= bytes
    requires forall k | 0 <= k < i :: h.blocks[k].used || h.blocks[k].size < bytes
    ensures var b := h.blocks[i]; var r := Malloc(h, bytes);
            && r.Granted? && r.ptr == b.addr + 20 && r.heap == h.(blocks := r.heap.blocks)
            && r.heap.blocks ==
               if b.size < bytes + 28 then h.blocks[i := Block(b.addr, b.size, true)]
               else [Block(b.addr + 20 + bytes, b.size - bytes - 20, false)] + h.blocks[i := Block(b.addr, bytes, true)]
  {
    assert FirstFit(h.blocks, bytes, 0) == i;
  }

  // Otherwise the break moves by the request and a 20-byte header, as far as
  // 0xFFBFC000, and the new block comes first in the chain.
  lemma MallocGrows(h: Heap, bytes: u32)
    requires 0 <= h.brk < 0xFFBF_C000 && NoneFits(h.blocks, bytes)
    ensures var r := Malloc(h, bytes); var end := (h.brk + (20 + bytes) % 0x1_0000_0000) % 0x1_0000_0000;
            if bytes == 0 then r == Null
            else if end >= 0xFFBF_C000 then r == Panic
            else r == Granted(Heap(h.base, end, [Block(h.brk, bytes, true)] + h.blocks), h.brk + 20)
  {
    assert FirstFit(h.blocks, bytes, 0) == |h.blocks|;
  }

  // kfree changes the state of the block in front of the pointer and nothing else.
  lemma FreeClears(h: Heap, i: nat)
    requires Tiled(h) && i < |h.blocks|
    ensures IsBlock(h.blocks, h.blocks[i].addr + 20)
    ensures Free(h, h.blocks[i].addr + 20) ==
            h.(blocks := h.blocks[i := Block(h.blocks[i].addr, h.blocks[i].size, false)])
  {
    assert h.blocks[i].Payload() == h.blocks[i].addr + 20;
    assert IndexOf(h.blocks, h.blocks[i].addr + 20) == i;
  }

  // No byte of the heap lies in the page-table window or in the four pages below it.
  lemma HeapBelowWindow(h: Heap, b: Block, x: u32)
    requires Tiled(h) && b in h.blocks && b.addr <= x < b.Top()
    ensures x < Mmu.VaddrBase(1023) - 4 * 0x1000 && Mmu.VaddrPde(x) != 1023
  {
  }

  // ----- Any run of calls -----

  datatype Call = Alloc(bytes: u32) | Release(ptr: int)

  // A caller frees only live pointers, and no request overflows or panics.
  predicate Legal(h: Heap, c: Call)
    requires 0 <= h.brk < BRK_MAX
  {
    match c
    case Alloc(bytes) => Malloc(h, bytes) != Panic && NoWrap(h, bytes)
    case Release(ptr) => Live(h.blocks, ptr)
  }

  function Step(h: Heap, c: Call): Heap
    requires 0 <= h.brk < BRK_MAX && Legal(h, c)
  {
    match c
    case Alloc(bytes) => if Malloc(h, bytes).Granted? then Malloc(h, bytes).heap else h
    case Release(ptr) => assert IsBlock(h.blocks, ptr); Free(h, ptr)
  }

  ghost predicate LegalRun(h: Heap, cs: seq<Call>)
    decreases |cs|
  {
    cs == [] || (0 <= h.brk < BRK_MAX && Legal(h, cs[0]) && LegalRun(Step(h, cs[0]), cs[1..]))
  }

  ghost function Run(h: Heap, cs: seq<Call>): Heap
    requires LegalRun(h, cs)
    decreases |cs|
  {
    if cs == [] then h else Run(Step(h, cs[0]), cs[1..])
  }

  // After any run the blocks still tile the heap, every block start is still
  // one, and a live block the run does not free is still there, untouched.
  lemma {:induction false} RunTiles(h: Heap, cs: seq<Call>)
    requires Tiled(h) && LegalRun(h, cs)
    ensures Tiled(Run(h, cs)) && Run(h, cs).base == h.base
    ensures forall o | o in h.blocks :: IsBlock(Run(h, cs).blocks, o.Payload())
    ensures forall o | o in h.blocks && o.used && Release(o.Payload()) !in cs :: o in Run(h, cs).blocks
    decreases |cs|
  {
    if cs != [] {
      var g := Step(h, cs[0]);
      StepTiles(h, cs[0]);
      RunTiles(g, cs[1..]);
      forall o | o in h.blocks ensures IsBlock(Run(h, cs).blocks, o.Payload()) {
        assert IsBlock(g.blocks, o.Payload());
        var k :| 0 <= k < |g.blocks| && g.blocks[k].Payload() == o.Payload();
        assert g.blocks[k] in g.blocks;
      }
    } else {
      forall o | o in h.blocks ensures IsBlock(h.blocks, o.Payload()) {
        var k :| 0 <= k < |h.blocks| && h.blocks[k] == o;
      }
    }
  }

  lemma StepTiles(h: Heap, c: Call)
    requires Tiled(h) && Legal(h, c)
    ensures Tiled(Step(h, c)) && Step(h, c).base == h.base
    ensures forall o | o in h.blocks :: IsBlock(Step(h, c).blocks, o.Payload())
    ensures forall o | o in h.blocks && o.used && c != Release(o.Payload()) :: o in Step(h, c).blocks
  {
    match c
    case Alloc(bytes) =>
      if Malloc(h, bytes).Granted? {
        MallocTiles(h, bytes);
        MallocKeeps(h, bytes);
      } else {
        forall o | o in h.blocks ensures IsBlock(h.blocks, o.Payload()) {
          var k :| 0 <= k < |h.blocks| && h.blocks[k] == o;
        }
      }
    case Release(ptr) =>
      assert IsBlock(h.blocks, ptr);
      MarkTiles(h, IndexOf(h.blocks, ptr), false);
      FreeKeeps(h, ptr);
  }
}
