// The kernel heap in memory (mm/heap.c): headers inside the managed region,
// linked by the intrusive list whose head is k_malloc_chain.

module KernelHeaps {
  import opened Words
  import opened Memory
  import opened CircularList
  import opened HeapModel
  import opened HeapMemory

  method ReadSize(mem: array<u8>, ptr: u32, ghost b: Block) returns (size: u32)
    requires mem.Length == WORD_SIZE && HeaderAt(mem[..], b) && b.addr == ptr
    ensures size == b.size
  {
    size := Read32(mem, ptr + SIZE_AT);
  }

  // x | KMALLOC_USED
  function WithUsedBit(x: u8): (r: u8)
    ensures r % 2 == 1 && r / 2 == x / 2
  {
    if x % 2 == 0 then x + 1 else x
  }

  lemma MarkCounts(bs: seq<Block>, i: nat)
    requires i < |bs|
    ensures UsedCount(bs[i := bs[i].(used := false)]) + 1 == UsedCount(bs[i := bs[i].(used := true)])
  {
    UsedCountUpdate(bs, i, bs[i].(used := false));
    UsedCountUpdate(bs, i, bs[i].(used := true));
  }

  // The chain between cutting block i in two and marking its first part used.
  function CutChain(bs: seq<Block>, i: nat, bytes: int): (cs: seq<Block>)
    requires i < |bs|
    ensures |cs| == |bs| + 1 && cs[i + 1] == bs[i].(size := bytes)
  {
    [Block(bs[i].Payload() + bytes, bs[i].size - bytes - HEADER, false)] + bs[i := bs[i].(size := bytes)]
  }

  // The three stores of a cut: the new header, its state, the old block's size.
  lemma CutStores(m0: Bytes, m1: Bytes, m3: Bytes, chain: int, h: Heap, i: nat, bytes: nat, hi: Block)
    requires Encodes(m0, chain, h.blocks) && Tiled(h) && STATE_AT < chain && chain + LINK_SIZE <= h.base
    requires i < |h.blocks| && 0 < bytes && h.blocks[i].size - bytes >= MIN_SPLIT
    requires hi == Block(h.blocks[i].Payload() + bytes, h.blocks[i].size - bytes - HEADER, false)
    requires 0 <= h.blocks[i].addr && 0 <= hi.addr <= WORD_SIZE - HEADER && bytes < WORD_SIZE
    requires Load32(m1, hi.addr + MAGIC_AT) == MAGIC && Load32(m1, hi.addr + SIZE_AT) == hi.size
    requires Same(m0, m1, 0, hi.addr + MAGIC_AT) && Same(m0, m1, hi.addr + STATE_AT, WORD_SIZE)
    requires h.blocks[i].addr + SIZE_AT <= WORD_SIZE - 4
    requires m3 == Put32(m1[hi.addr + STATE_AT := 0], h.blocks[i].addr + SIZE_AT, bytes)
    ensures var cs := h.blocks[i := h.blocks[i].(size := bytes)];
            && [hi] + cs == CutChain(h.blocks, i, bytes)
            && HeaderAt(m3, hi) && Encodes(m3, chain, cs) && Spread(chain, [hi] + cs)
            && Confined(m0, m3, chain, [hi] + cs)
  {
    hide Encodes, Spread, Tiled, Confined, HeaderAt, OnlyCut, Load32;
    ChainBlock(m0, chain, h, i);
    CutFields(m0, m1, m1[hi.addr + STATE_AT := 0], m3, h.blocks[i], h.blocks[i].(size := bytes), hi);
    CutFrames(m0, m3, chain, h, i, bytes, hi);
  }

  lemma CutCounts(bs: seq<Block>, i: nat, bytes: int)
    requires i < |bs| && !bs[i].used && bs[i].size - bytes >= MIN_SPLIT
    ensures var cs := CutChain(bs, i, bytes);
            && UsedCount(cs[i + 1 := cs[i + 1].(used := false)]) == UsedCount(bs)
            && cs[i + 1 := cs[i + 1].(used := true)] == Taken(bs, i, bytes)
  {
    var lo := bs[i].(size := bytes);
    var cs := CutChain(bs, i, bytes);
    assert cs[i + 1 := lo.(used := false)] == cs;
    assert cs[1..] == bs[i := lo];
    UsedCountUpdate(bs, i, lo);
  }

  // The block a fresh header stands for, its state bit as found.
  function FreshBlock(m: Bytes, ptr: u32, bytes: u32): Block
    requires ptr <= WORD_SIZE - HEADER
  {
    Block(ptr, bytes, m[ptr + STATE_AT] % 2 == 1)
  }

  lemma FreshChain(m: Bytes, n: Bytes, chain: int, bs: seq<Block>, ptr: u32, bytes: u32)
    requires Encodes(m, chain, bs) && ptr <= WORD_SIZE - HEADER && Spread(chain, [Block(ptr, bytes, true)] + bs)
    requires Load32(n, ptr + MAGIC_AT) == MAGIC && Load32(n, ptr + SIZE_AT) == bytes
    requires Same(m, n, 0, ptr + MAGIC_AT) && Same(m, n, ptr + STATE_AT, WORD_SIZE)
    ensures var o := n[STATE_AT := 0]; var b := FreshBlock(o, ptr, bytes);
            && HeaderAt(o, b) && Encodes(o, chain, bs) && Spread(chain, [b] + bs) && Confined(m, o, chain, [b] + bs)
  {
    assert ptr > STATE_AT by {
      assert ([Block(ptr, bytes, true)] + bs)[0].addr == ptr;
    }
    hide Encodes, Spread, Confined, HeaderAt, Load32;
    var o := n[STATE_AT := 0];
    var b := FreshBlock(o, ptr, bytes);
    HeaderOf(n, o, b);
    GrowFrames(m, o, chain, bs, b);
    SpreadAddrs(chain, [Block(ptr, bytes, true)] + bs, [b] + bs);
  }

  // ----- kfree -----

  // The magic of a header in front of ptr.
  function MagicBefore(m: Bytes, ptr: int): u32
    requires HEADER <= ptr < WORD_SIZE
  {
    Load32(m, ptr - HEADER + MAGIC_AT)
  }

  // ptr->state &= KMALLOC_FREE
  function StateCleared(m: Bytes, ptr: int): Bytes
    requires HEADER <= ptr < WORD_SIZE
  {
    m[ptr - HEADER + STATE_AT := 0]
  }

  // In bytes: the magic lies twelve bytes in front of the pointer, and the state,
  // which is cleared, four.
  lemma FreedBytes(m: Bytes, ptr: int)
    requires HEADER <= ptr < WORD_SIZE
    ensures MagicBefore(m, ptr) == Load32(m, ptr - 12) && StateCleared(m, ptr) == m[ptr - 4 := 0]
  {
  }

  function FreedBlocks(h: Heap, ptr: int): seq<Block> {
    if IsBlock(h.blocks, ptr) then Free(h, ptr).blocks else h.blocks
  }

  // Memory n holds the chain of m with the block at ptr free, and the heap is
  // still tiled; only headers were written.
  ghost predicate FreedIn(m: Bytes, n: Bytes, chain: int, h: Heap, g: Heap, ptr: int) {
    && IsBlock(h.blocks, ptr) && g == Free(h, ptr)
    && Tiled(g) && Encodes(n, chain, g.blocks) && Confined(m, n, chain, g.blocks)
  }

  lemma MagicInFront(m: Bytes, chain: int, bs: seq<Block>, ptr: int)
    requires Encodes(m, chain, bs) && IsBlock(bs, ptr) && HEADER <= ptr < WORD_SIZE
    ensures MagicBefore(m, ptr) == MAGIC
  {
    assert HeaderAt(m, bs[IndexOf(bs, ptr)]);
  }

  lemma FreedChain(m: Bytes, chain: int, h: Heap, ptr: int)
    requires Encodes(m, chain, h.blocks) && Tiled(h) && IsBlock(h.blocks, ptr) && HEADER <= ptr < WORD_SIZE
    requires STATE_AT < chain && chain + LINK_SIZE <= h.base
    ensures FreedIn(m, StateCleared(m, ptr), chain, h, Free(h, ptr), ptr)
  {
    hide Encodes, Spread, Tiled, Confined;
    var i := IndexOf(h.blocks, ptr);
    SpreadTiled(chain, h);
    MarkTiles(h, i, false);
    ConfinedSelf(m, chain, h.blocks);
    StateFrame(m, m, StateCleared(m, ptr), chain, h.blocks, i, 0);
  }

  // What the store does to the chain: the magic of a block is there, the new chain
  // encodes it as free, and the counter is right for one that was live.
  lemma Released(m: Bytes, chain: int, h: Heap, ptr: int)
    requires Encodes(m, chain, h.blocks) && Tiled(h) && HEADER <= ptr < WORD_SIZE
    requires STATE_AT < chain && chain + LINK_SIZE <= h.base
    ensures var g := h.(blocks := FreedBlocks(h, ptr)); var n := StateCleared(m, ptr);
            && |g.blocks| == |h.blocks|
            && (IsBlock(h.blocks, ptr) ==> MagicBefore(m, ptr) == MAGIC && FreedIn(m, n, chain, h, g, ptr))
            && (Live(h.blocks, ptr) ==>
                  && MagicBefore(m, ptr) == MAGIC && Tiled(g) && Encodes(n, chain, g.blocks)
                  && UsedCount(g.blocks) == UsedCount(h.blocks) - 1)
  {
    hide Encodes, Tiled, Confined, UsedCount, MagicBefore, StateCleared, Load32;
    if IsBlock(h.blocks, ptr) {
      MagicInFront(m, chain, h.blocks, ptr);
      FreedChain(m, chain, h, ptr);
      FreeCounts(h, ptr);
    } else {
      NotLive(h.blocks, ptr);
    }
  }

  lemma NoBlockAtZero(chain: int, h: Heap)
    requires Tiled(h) && STATE_AT < chain && chain + LINK_SIZE <= h.base
    ensures !IsBlock(h.blocks, 0)
  {
  }

  lemma NotLive(bs: seq<Block>, ptr: int)
    requires !IsBlock(bs, ptr)
    ensures !Live(bs, ptr)
  {
  }

  lemma GrowCounts(cs: seq<Block>, b: Block)
    requires |cs| > 0 && cs[0].(used := true) == b && b.used
    ensures UsedCount(cs[0 := cs[0].(used := false)]) == UsedCount(cs[1..])
    ensures cs[0 := cs[0].(used := true)] == [b] + cs[1..]
  {
    assert cs[0 := cs[0].(used := false)][1..] == cs[1..];
  }

  class KernelHeap {
    const mem: array<u8>
    const chain: u32          // address of k_malloc_chain.chain
    const base: u32
    var brk: u32
    var totalBlocks: int
    var usedBlocks: int
    ghost var blocks: seq<Block>

    ghost function Model(): Heap
      reads this
    {
      Heap(base, brk, blocks)
    }

    // The chain in memory is the ghost sequence of blocks.
    ghost predicate Linked()
      reads this, mem
    {
      && mem.Length == WORD_SIZE
      && STATE_AT < chain && chain + LINK_SIZE <= base
      && Encodes(mem[..], chain, blocks)
      && totalBlocks == |blocks|
      && usedBlocks == UsedCount(blocks)
    }

    ghost predicate Valid()
      reads this, mem
    {
      Linked() && Tiled(Model())
    }

    // init_heap
    constructor (mem: array<u8>, chain: u32, kernelEnd: u32)
      requires mem.Length == WORD_SIZE
      requires STATE_AT < chain && chain + LINK_SIZE <= kernelEnd < BRK_MAX
      modifies mem
      ensures Valid() && this.mem == mem && blocks == [] && base == brk == kernelEnd
    {
      this.mem, this.chain := mem, chain;
      base, brk := kernelEnd, kernelEnd;
      totalBlocks, usedBlocks := 0, 0;
      blocks := [];
      new;
      InitListHead(mem, chain);
      assert Chain(chain, blocks) == [chain as int];
    }

    // kbrk: false stands for the -1 of the source.
    method Kbrk(end: u32) returns (ok: bool)
      modifies this`brk
      ensures ok == (end < BRK_MAX)
      ensures brk == if ok then end else old(brk)
    {
      if end >= BRK_MAX {
        return false;
      }
      brk := end;
      return true;
    }

    // ksbrk: None stands for the panic.
    method Ksbrk(bytes: u32) returns (start: u32, ok: bool)
      modifies this`brk
      ensures bytes == 0 ==> ok && start == brk == old(brk)
      ensures bytes != 0 ==> ok == (Add32(old(brk), bytes) < BRK_MAX)
      ensures ok ==> brk == Add32(old(brk), bytes) && start == old(brk)
      ensures !ok ==> brk == old(brk)
    {
      if bytes == 0 {
        return brk, true;
      }
      var end: u32 := Add32(brk, bytes);
      ok := Kbrk(end);
      if !ok {
        return 0, false;
      }
      start := Add32(brk, WORD_SIZE - bytes);
    }

    // The search loop of kmalloc.  A block that fits is checked for its magic;
    // `corrupt` stands for the panic, and cannot come true.
    method Search(bytes: u32) returns (found: bool, ptr: u32, corrupt: bool)
      requires mem.Length == WORD_SIZE && Encodes(mem[..], chain, blocks) && Spread(chain, blocks)
      ensures !corrupt
      ensures found <==> FirstFit(blocks, bytes, 0) < |blocks|
      ensures found ==> ptr == blocks[FirstFit(blocks, bytes, 0)].addr && Load32(mem[..], ptr + MAGIC_AT) == MAGIC
    {
      assert forall i | 0 <= i < |blocks| :: blocks[i].addr != chain;
      hide Encodes, Spread, Load32;
      found, ptr, corrupt := false, 0, false;
      var pos := FollowNext(chain, 0);
      ghost var k := 0;
      while pos != chain
        invariant k <= |blocks| && pos == NodeAt(k) && !found && !corrupt
        invariant FirstFit(blocks, bytes, 0) == FirstFit(blocks, bytes, k)
        decreases |blocks| - k
      {
        var fits := Fits(pos, bytes, k);
        if fits {
          var magic := MagicOf(pos, k);
          if magic != MAGIC {
            corrupt := true;
            return;
          }
          found, ptr := true, pos;
          return;
        }
        k := k + 1;
        pos := FollowNext(pos, k);
      }
    }

    method MagicOf(ptr: u32, ghost k: nat) returns (magic: u32)
      requires mem.Length == WORD_SIZE && Encodes(mem[..], chain, blocks)
      requires k < |blocks| && blocks[k].addr == ptr
      ensures magic == MAGIC == Load32(mem[..], ptr + MAGIC_AT)
    {
      assert HeaderAt(mem[..], blocks[k]);
      hide Encodes;
      magic := Read32(mem, ptr + MAGIC_AT);
    }

    // The address of block k, or of the head after the last one.
    ghost function NodeAt(k: nat): int
      reads this
      requires k <= |blocks|
    {
      if k == |blocks| then chain else blocks[k].addr
    }

    method FollowNext(pos: u32, ghost k: nat) returns (to: u32)
      requires mem.Length == WORD_SIZE && Encodes(mem[..], chain, blocks)
      requires k <= |blocks| && pos == if k == 0 then chain as int else blocks[k - 1].addr
      ensures to == NodeAt(k)
    {
      to := WalkStep(mem, pos, true, Chain(chain, blocks), k);
    }

    method Fits(ptr: u32, bytes: u32, ghost k: nat) returns (fits: bool)
      requires mem.Length == WORD_SIZE && Encodes(mem[..], chain, blocks)
      requires k < |blocks| && blocks[k].addr == ptr
      ensures fits == blocks[k].Fits(bytes)
    {
      assert HeaderAt(mem[..], blocks[k]);
      hide Encodes;
      var size := Read32(mem, ptr + SIZE_AT);
      fits := bytes <= size && mem[ptr + STATE_AT] % 2 == 0;
    }

    // list_add of a finished header, and the counter of blocks.
    method LinkBlock(ptr: u32, ghost b: Block)
      requires mem.Length == WORD_SIZE && Encodes(mem[..], chain, blocks)
      requires b.addr == ptr && HeaderAt(mem[..], b) && Spread(chain, [b] + blocks)
      modifies mem, this`blocks, this`totalBlocks
      ensures blocks == [b] + old(blocks) && totalBlocks == old(totalBlocks) + 1
      ensures Encodes(mem[..], chain, blocks)
      ensures Confined(old(mem[..]), mem[..], chain, blocks)
    {
      hide HeaderAt, Confined;
      ghost var m, cs := mem[..], [b] + blocks;
      AddrsPush(b, blocks);
      ChainNodes(chain, blocks, b);
      ListAdd(mem, ptr, chain, Addrs(blocks));
      assert cs[1..] == blocks;
      EncodesPush(m, mem[..], chain, cs);
      LinksConfined(m, mem[..], chain, cs);
      blocks := cs;
      totalBlocks := totalBlocks + 1;
    }

    // ptr->state |= KMALLOC_USED, and the counter of used blocks.  A new block may
    // have been found with the bit set, but it has not been counted yet.
    method MarkUsed(ptr: u32, ghost i: nat, ghost m0: Bytes)
      requires mem.Length == WORD_SIZE && Encodes(mem[..], chain, blocks) && Spread(chain, blocks)
      requires i < |blocks| && blocks[i].addr == ptr
      requires usedBlocks == UsedCount(blocks[i := blocks[i].(used := false)])
      requires Confined(m0, mem[..], chain, blocks)
      modifies mem, this`blocks, this`usedBlocks
      ensures blocks == old(blocks)[i := old(blocks)[i].(used := true)]
      ensures usedBlocks == UsedCount(blocks)
      ensures Encodes(mem[..], chain, blocks) && Confined(m0, mem[..], chain, blocks)
    {
      hide Encodes, Spread, Confined, UsedCount;
      MarkCounts(blocks, i);
      SetUsedBit(ptr, i, m0);
      usedBlocks := usedBlocks + 1;
    }

    method SetUsedBit(ptr: u32, ghost i: nat, ghost m0: Bytes)
      requires mem.Length == WORD_SIZE && Encodes(mem[..], chain, blocks) && Spread(chain, blocks)
      requires i < |blocks| && blocks[i].addr == ptr && Confined(m0, mem[..], chain, blocks)
      modifies mem, this`blocks
      ensures blocks == old(blocks)[i := old(blocks)[i].(used := true)]
      ensures Encodes(mem[..], chain, blocks) && Confined(m0, mem[..], chain, blocks)
    {
      ghost var m := mem[..];
      hide Encodes, Spread, Confined;
      var state := WithUsedBit(mem[ptr + STATE_AT]);
      Store8(mem, ptr + STATE_AT, state);
      StateFrame(m0, m, mem[..], chain, blocks, i, state);
      blocks := blocks[i := blocks[i].(used := true)];
    }

    // The magic and size of a header, written where no live header is.
    method StampHeader(ptr: u32, size: u32)
      requires mem.Length == WORD_SIZE && ptr <= WORD_SIZE - HEADER
      modifies mem
      ensures Load32(mem[..], ptr + MAGIC_AT) == MAGIC && Load32(mem[..], ptr + SIZE_AT) == size
      ensures Same(old(mem[..]), mem[..], 0, ptr + MAGIC_AT)
      ensures Same(old(mem[..]), mem[..], ptr + STATE_AT, WORD_SIZE)
    {
      Store32(mem, ptr + SIZE_AT, size);
      ghost var m := mem[..];
      Store32(mem, ptr + MAGIC_AT, MAGIC);
      PutSpares(m, ptr + MAGIC_AT, MAGIC, ptr + SIZE_AT);
    }

    method StoreFresh(ptr: u32, bytes: u32) returns (ghost n: Bytes)
      requires mem.Length == WORD_SIZE && ptr <= WORD_SIZE - HEADER
      modifies mem
      ensures Load32(n, ptr + MAGIC_AT) == MAGIC && Load32(n, ptr + SIZE_AT) == bytes
      ensures Same(old(mem[..]), n, 0, ptr + MAGIC_AT) && Same(old(mem[..]), n, ptr + STATE_AT, WORD_SIZE)
      ensures mem[..] == n[STATE_AT := 0]
    {
      hide Load32, Same;
      StampHeader(ptr, bytes);
      n := mem[..];
      Store8(mem, STATE_AT, 0);
    }

    // The stores that make up a new block at the old break.  The one through the
    // null `sb` lands on address 16, so the state byte is left as it was found.
    method FreshHeader(ptr: u32, bytes: u32) returns (ghost b: Block)
      requires mem.Length == WORD_SIZE && Encodes(mem[..], chain, blocks)
      requires ptr <= WORD_SIZE - HEADER && Spread(chain, [Block(ptr, bytes, true)] + blocks)
      modifies mem
      ensures b.(used := true) == Block(ptr, bytes, true) && HeaderAt(mem[..], b)
      ensures Encodes(mem[..], chain, blocks) && Spread(chain, [b] + blocks)
      ensures Confined(old(mem[..]), mem[..], chain, [b] + blocks)
    {
      hide Encodes, Spread, Confined, HeaderAt, Load32, Same;
      ghost var m := mem[..];
      ghost var n := StoreFresh(ptr, bytes);
      b := FreshBlock(n[STATE_AT := 0], ptr, bytes);
      FreshChain(m, n, chain, blocks, ptr, bytes);
    }

    method AddBlock(ptr: u32, bytes: u32)
      requires mem.Length == WORD_SIZE && Encodes(mem[..], chain, blocks)
      requires ptr <= WORD_SIZE - HEADER && Spread(chain, [Block(ptr, bytes, true)] + blocks)
      modifies mem, this`blocks, this`totalBlocks
      ensures |blocks| > 0 && blocks[1..] == old(blocks) && blocks[0].(used := true) == Block(ptr, bytes, true)
      ensures totalBlocks == old(totalBlocks) + 1 && Encodes(mem[..], chain, blocks) && Spread(chain, blocks)
      ensures Confined(old(mem[..]), mem[..], chain, blocks)
    {
      ghost var m := mem[..];
      hide Encodes, Spread, Confined, HeaderAt;
      ghost var b := FreshHeader(ptr, bytes);
      ghost var n := mem[..];
      LinkBlock(ptr, b);
      ConfinedTrans(m, n, mem[..], chain, blocks, blocks);
    }

    // The branch of kmalloc that moves the break.
    method Grow(bytes: u32) returns (ptr: u32, ok: bool)
      requires mem.Length == WORD_SIZE && Encodes(mem[..], chain, blocks)
      requires brk < BRK_MAX && Spread(chain, [Block(brk, bytes, true)] + blocks)
      modifies mem, this`brk, this`blocks, this`totalBlocks
      ensures ok <==> Grown(old(Model()), bytes) < BRK_MAX
      ensures !ok ==> unchanged(this) && unchanged(mem)
      ensures ok ==> ptr == old(brk) && brk == Grown(old(Model()), bytes)
      ensures ok ==> |blocks| > 0 && blocks[1..] == old(blocks) && blocks[0].(used := true) == Block(ptr, bytes, true)
      ensures ok ==> totalBlocks == old(totalBlocks) + 1 && Encodes(mem[..], chain, blocks) && Spread(chain, blocks)
      ensures ok ==> Confined(old(mem[..]), mem[..], chain, blocks)
    {
      hide Encodes, Spread, Confined;
      var length: u32 := Add32(HEADER, bytes);
      ptr, ok := Ksbrk(length);
      if ok {
        AddBlock(ptr, bytes);
      }
    }

    method StoreCut(ptr: u32, bytes: u32, sb: u32, size: u32) returns (ghost m1: Bytes)
      requires mem.Length == WORD_SIZE && ptr <= WORD_SIZE - HEADER && sb <= WORD_SIZE - HEADER
      modifies mem
      ensures Load32(m1, sb + MAGIC_AT) == MAGIC && Load32(m1, sb + SIZE_AT) == size
      ensures Same(old(mem[..]), m1, 0, sb + MAGIC_AT) && Same(old(mem[..]), m1, sb + STATE_AT, WORD_SIZE)
      ensures mem[..] == Put32(m1[sb + STATE_AT := 0], ptr + SIZE_AT, bytes)
    {
      hide Load32, Same;
      StampHeader(sb, size);
      m1 := mem[..];
      Store8(mem, sb + STATE_AT, 0);
      Store32(mem, ptr + SIZE_AT, bytes);
    }

    // The stores that cut a free block in two, before the second is linked.
    method CutHeader(ptr: u32, bytes: u32, ghost i: nat) returns (ghost hi: Block)
      requires mem.Length == WORD_SIZE && Encodes(mem[..], chain, blocks) && Tiled(Model())
      requires STATE_AT < chain && chain + LINK_SIZE <= base
      requires i < |blocks| && blocks[i].addr == ptr && bytes > 0 && blocks[i].size - bytes >= MIN_SPLIT
      modifies mem, this`blocks
      ensures hi.addr == ptr + HEADER + bytes && [hi] + blocks == CutChain(old(blocks), i, bytes)
      ensures HeaderAt(mem[..], hi) && Encodes(mem[..], chain, blocks) && Spread(chain, [hi] + blocks)
      ensures Confined(old(mem[..]), mem[..], chain, [hi] + blocks)
    {
      ghost var m0, h := mem[..], Model();
      hide Encodes, Spread, Tiled, Confined, HeaderAt, Load32, Same, Put32, CutChain;
      ChainBlock(m0, chain, h, i);
      var size := ReadSize(mem, ptr, blocks[i]);
      var leftover: u32 := size - bytes;
      var sb: u32 := ptr + HEADER + bytes;
      ghost var m1 := StoreCut(ptr, bytes, sb, leftover - HEADER);
      hi := Block(sb, leftover - HEADER, false);
      CutStores(m0, m1, mem[..], chain, h, i, bytes, hi);
      blocks := h.blocks[i := h.blocks[i].(size := bytes)];
    }

    method Cut(ptr: u32, bytes: u32, ghost i: nat)
      requires mem.Length == WORD_SIZE && Encodes(mem[..], chain, blocks) && Tiled(Model())
      requires STATE_AT < chain && chain + LINK_SIZE <= base
      requires i < |blocks| && blocks[i].addr == ptr && bytes > 0 && blocks[i].size - bytes >= MIN_SPLIT
      modifies mem, this`blocks, this`totalBlocks
      ensures blocks == CutChain(old(blocks), i, bytes)
      ensures totalBlocks == old(totalBlocks) + 1 && Encodes(mem[..], chain, blocks) && Spread(chain, blocks)
      ensures Confined(old(mem[..]), mem[..], chain, blocks)
    {
      ghost var m := mem[..];
      hide Encodes, Spread, Tiled, Confined, CutChain, HeaderAt;
      ghost var hi := CutHeader(ptr, bytes, i);
      ghost var n := mem[..];
      LinkBlock(ptr + HEADER + bytes, hi);
      ConfinedTrans(m, n, mem[..], chain, blocks, blocks);
    }

    // kmalloc does what the model does, and writes headers only.
    method KMalloc(bytes: u32) returns (ptr: u32, panicked: bool)
      requires Valid()
      modifies mem, this
      ensures Linked() && Confined(old(mem[..]), mem[..], chain, blocks)
      ensures match Malloc(old(Model()), bytes)
              case Null => !panicked && ptr == 0 && Model() == old(Model())
              case Panic => panicked && Model() == old(Model())
              case Granted(h, p) => !panicked && ptr == p && Model() == h
      ensures NoWrap(old(Model()), bytes) ==> Valid()
    {
      if bytes == 0 {
        return 0, false;
      }
      assert brk < BRK_MAX;
      ConfinedSelf(mem[..], chain, blocks);
      hide Encodes, Spread, Tiled, Confined, UsedCount, Taken, NoWrap, FirstFit, Grown;
      SpreadTiled(chain, Model());
      SpreadTop(chain, Model(), Block(brk, bytes, true));
      ghost var h := Model();
      ptr, panicked := 0, false;
      var found, block, corrupt := Search(bytes);
      if corrupt {
        panicked := true;
        return;
      }
      if found {
        Take(block, bytes);
      } else {
        var ok;
        block, ok := Extend(bytes);
        if !ok {
          return 0, true;
        }
      }
      if NoWrap(h, bytes) {
        MallocTiles(h, bytes);
      }
      ptr, panicked := block + HEADER, false;
    }

    // The branch of kmalloc that reuses a free block.
    method Take(block: u32, bytes: u32)
      requires Valid() && bytes > 0 && Spread(chain, blocks)
      requires var i := FirstFit(blocks, bytes, 0); i < |blocks| && blocks[i].addr == block
      modifies mem, this`blocks, this`totalBlocks, this`usedBlocks
      ensures blocks == Taken(old(blocks), FirstFit(old(blocks), bytes, 0), bytes)
      ensures Linked() && Confined(old(mem[..]), mem[..], chain, blocks)
    {
      hide Encodes, Spread, Tiled, Confined, HeaderAt, Load32, UsedCount;
      ghost var i, m, bs := FirstFit(blocks, bytes, 0), mem[..], blocks;
      ChainBlock(m, chain, Model(), i);
      var size := ReadSize(mem, block, bs[i]);
      if size - bytes >= MIN_SPLIT {
        TakePart(block, bytes, i);
      } else {
        ConfinedSelf(m, chain, bs);
        assert bs[i := bs[i].(used := false)] == bs;
        MarkUsed(block, i, m);
      }
    }

    method TakePart(block: u32, bytes: u32, ghost i: nat)
      requires Linked() && Tiled(Model()) && bytes > 0
      requires i < |blocks| && blocks[i].addr == block && !blocks[i].used && blocks[i].size - bytes >= MIN_SPLIT
      modifies mem, this`blocks, this`totalBlocks, this`usedBlocks
      ensures blocks == Taken(old(blocks), i, bytes)
      ensures Linked() && Confined(old(mem[..]), mem[..], chain, blocks)
    {
      hide Encodes, Spread, Tiled, Confined, Taken, UsedCount;
      ghost var m, bs := mem[..], blocks;
      CutCounts(bs, i, bytes);
      Cut(block, bytes, i);
      MarkUsed(block, i + 1, m);
    }

    // The branch of kmalloc that needs a larger heap.
    method Extend(bytes: u32) returns (block: u32, ok: bool)
      requires Linked() && brk < BRK_MAX && Spread(chain, [Block(brk, bytes, true)] + blocks)
      modifies mem, this
      ensures ok <==> Grown(old(Model()), bytes) < BRK_MAX
      ensures !ok ==> unchanged(this) && unchanged(mem)
      ensures ok ==> block == old(brk) && brk == Grown(old(Model()), bytes)
      ensures ok ==> blocks == [Block(old(brk), bytes, true)] + old(blocks)
      ensures Linked() && Confined(old(mem[..]), mem[..], chain, blocks)
    {
      hide Encodes, Spread, Tiled, Confined, UsedCount;
      ghost var m := mem[..];
      block, ok := Grow(bytes);
      if ok {
        GrowCounts(blocks, Block(block, bytes, true));
        MarkUsed(block, 0, m);
      } else {
        assert mem[..] == m;
        ConfinedSelf(m, chain, blocks);
      }
    }

    // kfree of any address above the first header's length.  It stops exactly when
    // no magic lies in front of the address, and changes nothing then; in front of
    // every block of the chain, live or not, there is one.
    method KFree(ptr: u32) returns (panicked: bool)
      requires Valid() && (ptr == 0 || ptr >= HEADER)
      modifies mem, this`blocks, this`usedBlocks
      ensures ptr == 0 ==> !panicked && unchanged(this) && unchanged(mem)
      ensures ptr != 0 ==> (panicked <==> MagicBefore(old(mem[..]), ptr) != MAGIC)
      ensures panicked ==> unchanged(this) && unchanged(mem)
      ensures ptr != 0 && !panicked ==> usedBlocks == old(usedBlocks) - 1 && mem[..] == StateCleared(old(mem[..]), ptr)
      ensures IsBlock(old(blocks), ptr) ==>
                !panicked && FreedIn(old(mem[..]), mem[..], chain, old(Model()), Model(), ptr)
      ensures ptr == 0 || Live(old(blocks), ptr) ==> Valid()
    {
      hide Encodes, Spread, Tiled, Confined, UsedCount, Load32, Live, IsBlock, Free, MagicBefore, StateCleared, FreedIn;
      ghost var m, h := mem[..], Model();
      if ptr == 0 {
        NoBlockAtZero(chain, h);
        return false;
      }
      panicked := ClearState(ptr);
      Released(m, chain, h, ptr);
      if !panicked {
        usedBlocks := usedBlocks - 1;
        blocks := FreedBlocks(h, ptr);
      }
    }

    // The magic check and ptr->state &= KMALLOC_FREE.
    method ClearState(ptr: u32) returns (panicked: bool)
      requires mem.Length == WORD_SIZE && ptr >= HEADER
      modifies mem
      ensures panicked <==> MagicBefore(old(mem[..]), ptr) != MAGIC
      ensures panicked ==> unchanged(mem)
      ensures !panicked ==> mem[..] == StateCleared(old(mem[..]), ptr)
    {
      hide Load32;
      var block: u32 := ptr - HEADER;
      var magic := Read32(mem, block + MAGIC_AT);
      if magic != MAGIC {
        return true;
      }
      Store8(mem, block + STATE_AT, 0);
      panicked := false;
    }
  }
}
