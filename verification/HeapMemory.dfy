// Heap headers in memory (include/heap.h): where the fields lie, what a chain in
// memory encodes, and which stores keep it.

module HeapMemory {
  import opened Words
  import opened Memory
  import opened CircularList
  import opened HeapModel

  const MAGIC := 0xBEEF
  const MAGIC_AT := 8     // offsets inside malloc_head_t, after the list_head
  const SIZE_AT := 12
  const STATE_AT := 16

  ghost predicate HeaderAt(m: Bytes, b: Block) {
    && 0 <= b.addr <= WORD_SIZE - HEADER
    && Load32(m, b.addr + MAGIC_AT) == MAGIC
    && Load32(m, b.addr + SIZE_AT) == b.size
    && (b.used <==> m[b.addr + STATE_AT] % 2 == 1)
  }

  function Addrs(bs: seq<Block>): (r: seq<int>)
    ensures |r| == |bs| && forall i | 0 <= i < |bs| :: r[i] == bs[i].addr
  {
    seq(|bs|, i requires 0 <= i < |bs| => bs[i].addr)
  }

  function Chain(chain: int, bs: seq<Block>): seq<int> {
    [chain] + Addrs(bs)
  }

  lemma AddrsPush(b: Block, bs: seq<Block>)
    ensures Addrs([b] + bs) == [b.addr] + Addrs(bs)
  {
    var r := Addrs([b] + bs);
    forall i | 0 < i < |r| ensures r[i] == Addrs(bs)[i - 1] {
      assert ([b] + bs)[i] == bs[i - 1];
    }
  }

  ghost predicate Encodes(m: Bytes, chain: int, bs: seq<Block>) {
    Ring(m, Chain(chain, bs)) && forall i | 0 <= i < |bs| :: HeaderAt(m, bs[i])
  }

  // The five fields of a header in memory: the addresses of the next and the
  // previous node, the magic, the size, and the state.
  lemma HeaderWords(m: Bytes, chain: int, bs: seq<Block>, i: nat)
    requires Encodes(m, chain, bs) && i < |bs|
    ensures var a := bs[i].addr;
            && 0 <= a <= WORD_SIZE - 20
            && Load32(m, a) == (if i + 1 == |bs| then chain else bs[i + 1].addr)
            && Load32(m, a + 4) == (if i == 0 then chain else bs[i - 1].addr)
            && Load32(m, a + 8) == 0xBEEF && Load32(m, a + 12) == bs[i].size && (m[a + 16] % 2 == 1 <==> bs[i].used)
  {
    assert HeaderAt(m, bs[i]);
    hide Load32;
    RingWords(m, Chain(chain, bs), i + 1);
  }

  // Headers at least 20 bytes apart, clear of the list head and of address 16.
  ghost predicate Spread(chain: int, bs: seq<Block>) {
    && STATE_AT < chain <= WORD_SIZE - LINK_SIZE
    && (forall i | 0 <= i < |bs| :: chain + LINK_SIZE <= bs[i].addr <= WORD_SIZE - HEADER)
    && (forall i, j | 0 <= i < |bs| && 0 <= j < |bs| && i != j ::
          bs[i].addr + HEADER <= bs[j].addr || bs[j].addr + HEADER <= bs[i].addr)
  }

  // The bytes the allocator itself may write: headers, the list head, and the
  // byte at address 16 that a store through a null pointer reaches.
  ghost predicate Managed(chain: int, bs: seq<Block>, x: int) {
    || x == STATE_AT
    || chain <= x < chain + LINK_SIZE
    || exists i | 0 <= i < |bs| :: bs[i].addr <= x < bs[i].addr + HEADER
  }

  ghost predicate Confined(m: Bytes, n: Bytes, chain: int, bs: seq<Block>) {
    forall x | 0 <= x < WORD_SIZE && !Managed(chain, bs, x) :: n[x] == m[x]
  }

  lemma ConfinedSelf(m: Bytes, chain: int, bs: seq<Block>)
    ensures Confined(m, m, chain, bs)
  {
  }

  lemma ConfinedTrans(m: Bytes, n: Bytes, o: Bytes, chain: int, bs: seq<Block>, cs: seq<Block>)
    requires Confined(m, n, chain, bs) && Confined(n, o, chain, cs)
    requires forall b | b in bs :: exists c | c in cs :: c.addr == b.addr
    ensures Confined(m, o, chain, cs)
  {
    forall x | 0 <= x < WORD_SIZE ensures Managed(chain, cs, x) || o[x] == m[x] {
      if Managed(chain, bs, x) {
        ManagedMono(chain, bs, cs, x);
      }
    }
  }

  lemma ManagedMono(chain: int, bs: seq<Block>, cs: seq<Block>, x: int)
    requires Managed(chain, bs, x)
    requires forall b | b in bs :: exists c | c in cs :: c.addr == b.addr
    ensures Managed(chain, cs, x)
  {
    if x != STATE_AT && !(chain <= x < chain + LINK_SIZE) {
      var i :| 0 <= i < |bs| && bs[i].addr <= x < bs[i].addr + HEADER;
      assert bs[i] in bs;
      var c :| c in cs && c.addr == bs[i].addr;
      var k :| 0 <= k < |cs| && cs[k] == c;
    }
  }

  // While the blocks tile the heap, confined writes reach no live payload.
  lemma ConfinedSparesPayload(m: Bytes, n: Bytes, chain: int, h: Heap, b: Block)
    requires Tiled(h) && STATE_AT < chain && chain + LINK_SIZE <= h.base
    requires Confined(m, n, chain, h.blocks) && b in h.blocks
    ensures Same(m, n, b.Payload(), b.Top())
  {
    var k :| 0 <= k < |h.blocks| && h.blocks[k] == b;
    forall x | 0 <= x < WORD_SIZE && b.Payload() <= x < b.Top() ensures n[x] == m[x] {
      forall i | 0 <= i < |h.blocks| ensures !(h.blocks[i].addr <= x < h.blocks[i].addr + HEADER) {
        assert i != k ==> Disjoint(h.blocks[i], h.blocks[k]);
      }
    }
  }

  ghost predicate InPayload(bs: seq<Block>, x: int) {
    exists i | 0 <= i < |bs| :: bs[i].Payload() <= x < bs[i].Top()
  }

  lemma HeadersOutsidePayloads(h: Heap, i: nat, x: int)
    requires Tiled(h) && i < |h.blocks| && h.blocks[i].addr <= x < h.blocks[i].Payload()
    ensures !InPayload(h.blocks, x)
  {
    forall k | 0 <= k < |h.blocks| ensures !(h.blocks[k].Payload() <= x < h.blocks[k].Top()) {
      assert k != i ==> Disjoint(h.blocks[k], h.blocks[i]);
    }
  }

  // A program that writes only inside payloads leaves the chain as it is, so no
  // magic check of a later call can fail.
  lemma PayloadWritesKeepChain(m: Bytes, n: Bytes, chain: int, h: Heap)
    requires Tiled(h) && STATE_AT < chain && chain + LINK_SIZE <= h.base && Encodes(m, chain, h.blocks)
    requires forall x | 0 <= x < WORD_SIZE :: n[x] == m[x] || InPayload(h.blocks, x)
    ensures Encodes(n, chain, h.blocks)
  {
    forall i | 0 <= i < |h.blocks| ensures Same(m, n, h.blocks[i].addr, h.blocks[i].addr + HEADER) {
      forall x | 0 <= x < WORD_SIZE && h.blocks[i].addr <= x < h.blocks[i].addr + HEADER ensures n[x] == m[x] {
        HeadersOutsidePayloads(h, i, x);
      }
    }
    forall x | 0 <= x < WORD_SIZE && chain <= x < chain + LINK_SIZE ensures n[x] == m[x] {
      assert !InPayload(h.blocks, x);
    }
    EncodesFrame(m, n, chain, h.blocks);
  }

  // Changes that spare the headers and the list head are not seen by the heap.
  lemma EncodesFrame(m: Bytes, n: Bytes, chain: int, bs: seq<Block>)
    requires Encodes(m, chain, bs)
    requires Same(m, n, chain, chain + LINK_SIZE)
    requires forall i | 0 <= i < |bs| :: Same(m, n, bs[i].addr, bs[i].addr + HEADER)
    ensures Encodes(n, chain, bs)
  {
    var r := Chain(chain, bs);
    forall i | 0 <= i < |r| ensures Same(m, n, r[i], r[i] + LINK_SIZE) {
      assert i > 0 ==> Same(m, n, bs[i - 1].addr, bs[i - 1].addr + HEADER);
    }
    RingFrame(m, n, r);
    forall i | 0 <= i < |bs| ensures HeaderAt(n, bs[i]) {
      HeaderFrame(m, n, bs[i]);
    }
  }

  lemma HeaderFrame(m: Bytes, n: Bytes, b: Block)
    requires HeaderAt(m, b) && Same(m, n, b.addr + LINK_SIZE, b.addr + HEADER)
    ensures HeaderAt(n, b)
  {
    LoadFrame(m, n, b.addr + MAGIC_AT);
    LoadFrame(m, n, b.addr + SIZE_AT);
  }

  // Rewriting the size or state of one block, and nothing else of any header.
  lemma EncodesUpdate(m: Bytes, n: Bytes, chain: int, bs: seq<Block>, k: nat, b: Block)
    requires Encodes(m, chain, bs) && Spread(chain, bs) && k < |bs|
    requires b.addr == bs[k].addr && HeaderAt(n, b)
    requires Same(m, n, chain, chain + LINK_SIZE) && Same(m, n, b.addr, b.addr + LINK_SIZE)
    requires forall i | 0 <= i < |bs| && i != k :: Same(m, n, bs[i].addr, bs[i].addr + HEADER)
    ensures Encodes(n, chain, bs[k := b])
  {
    var r := Chain(chain, bs);
    assert Chain(chain, bs[k := b]) == r;
    forall i | 0 <= i < |r| ensures Same(m, n, r[i], r[i] + LINK_SIZE) {
      assert i > 0 && i - 1 != k ==> Same(m, n, bs[i - 1].addr, bs[i - 1].addr + HEADER);
    }
    RingFrame(m, n, r);
    forall i | 0 <= i < |bs| && i != k ensures HeaderAt(n, bs[i]) {
      HeaderFrame(m, n, bs[i]);
    }
  }

  // Linking a finished header in front touches nothing of any header but links.
  lemma EncodesPush(m: Bytes, n: Bytes, chain: int, cs: seq<Block>)
    requires |cs| > 0 && Encodes(m, chain, cs[1..]) && HeaderAt(m, cs[0]) && Spread(chain, cs)
    requires Ring(n, Chain(chain, cs)) && Outside(m, n, cs[0].addr, chain, SecondNode(chain, cs[1..]))
    ensures Encodes(n, chain, cs)
  {
    forall i | 0 <= i < |cs| ensures HeaderAt(n, cs[i]) {
      assert i > 0 ==> cs[i] == cs[1..][i - 1];
      assert i != 0 ==> cs[i].addr + HEADER <= cs[0].addr || cs[0].addr + HEADER <= cs[i].addr;
      assert |cs| > 1 && i != 1 ==> cs[i].addr + HEADER <= cs[1].addr || cs[1].addr + HEADER <= cs[i].addr;
      assert Same(m, n, cs[i].addr + LINK_SIZE, cs[i].addr + HEADER);
      HeaderFrame(m, n, cs[i]);
    }
  }

  lemma CutFrames(m: Bytes, n: Bytes, chain: int, h: Heap, i: nat, bytes: int, hi: Block)
    requires Encodes(m, chain, h.blocks) && Tiled(h) && STATE_AT < chain && chain + LINK_SIZE <= h.base
    requires i < |h.blocks| && 0 < bytes && h.blocks[i].size - bytes >= MIN_SPLIT
    requires hi == Block(h.blocks[i].Payload() + bytes, h.blocks[i].size - bytes - HEADER, false)
    requires HeaderAt(n, hi) && HeaderAt(n, h.blocks[i].(size := bytes)) && OnlyCut(m, n, h.blocks[i], hi)
    ensures var cs := h.blocks[i := h.blocks[i].(size := bytes)];
            && Encodes(n, chain, cs) && Spread(chain, [hi] + cs)
            && Confined(m, n, chain, [hi] + cs)
  {
    var b := h.blocks[i];
    var lo := b.(size := bytes);
    SpreadTiled(chain, h);
    forall k | 0 <= k < |h.blocks| && k != i ensures Same(m, n, h.blocks[k].addr, h.blocks[k].addr + HEADER) {
      assert Disjoint(h.blocks[k], b);
    }
    EncodesUpdate(m, n, chain, h.blocks, i, lo);
    CutSpread(chain, h, i, bytes, hi);
    CutConfined(m, n, chain, h.blocks[i := lo], i, hi);
  }

  // Nothing changes but the header of the second part and the size of the first.
  ghost predicate OnlyCut(m: Bytes, n: Bytes, b: Block, hi: Block) {
    forall x | 0 <= x < WORD_SIZE && !(hi.addr <= x < hi.addr + HEADER) && !(b.addr + SIZE_AT <= x < b.addr + STATE_AT)
      :: n[x] == m[x]
  }

  lemma CutConfined(m: Bytes, n: Bytes, chain: int, cs: seq<Block>, i: nat, hi: Block)
    requires i < |cs| && OnlyCut(m, n, cs[i], hi)
    ensures Confined(m, n, chain, [hi] + cs)
  {
    forall x | 0 <= x < WORD_SIZE && !Managed(chain, [hi] + cs, x) ensures n[x] == m[x] {
      assert ([hi] + cs)[0] == hi && ([hi] + cs)[i + 1] == cs[i];
    }
  }

  lemma CutFields(m0: Bytes, m1: Bytes, m2: Bytes, m3: Bytes, b: Block, lo: Block, hi: Block)
    requires HeaderAt(m0, b) && lo == b.(size := lo.size) && lo.Top() == hi.addr && 0 <= lo.size < WORD_SIZE
    requires hi.addr <= WORD_SIZE - HEADER && !hi.used
    requires Load32(m1, hi.addr + MAGIC_AT) == MAGIC && Load32(m1, hi.addr + SIZE_AT) == hi.size
    requires Same(m0, m1, 0, hi.addr + MAGIC_AT)
    requires m2 == m1[hi.addr + STATE_AT := 0] && m3 == Put32(m2, b.addr + SIZE_AT, lo.size)
    requires Same(m0, m1, hi.addr + STATE_AT, WORD_SIZE)
    ensures HeaderAt(m3, hi) && HeaderAt(m3, lo) && OnlyCut(m0, m3, b, hi)
  {
    LoadFrame(m1, m3, hi.addr + MAGIC_AT);
    LoadFrame(m1, m3, hi.addr + SIZE_AT);
    LoadFrame(m0, m3, b.addr + MAGIC_AT);
  }

  lemma ChainBlock(m: Bytes, chain: int, h: Heap, i: nat)
    requires Encodes(m, chain, h.blocks) && Tiled(h) && i < |h.blocks|
    ensures HeaderAt(m, h.blocks[i]) && 0 <= h.blocks[i].addr && h.blocks[i].Top() < BRK_MAX
    ensures 0 <= h.blocks[i].size < WORD_SIZE
  {
  }

  lemma CutSpread(chain: int, h: Heap, i: nat, bytes: int, hi: Block)
    requires Tiled(h) && STATE_AT < chain && chain + LINK_SIZE <= h.base
    requires i < |h.blocks| && 0 < bytes && h.blocks[i].size - bytes >= MIN_SPLIT
    requires hi == Block(h.blocks[i].Payload() + bytes, h.blocks[i].size - bytes - HEADER, false)
    ensures Spread(chain, [hi] + h.blocks[i := h.blocks[i].(size := bytes)])
  {
    SplitTiles(h, i, bytes);
    var cs := [hi] + h.blocks[i := Block(h.blocks[i].addr, bytes, true)];
    SpreadTiled(chain, h.(blocks := cs));
    SpreadAddrs(chain, cs, [hi] + h.blocks[i := h.blocks[i].(size := bytes)]);
  }

  // Storing one state byte.
  lemma StateFrame(m0: Bytes, m: Bytes, n: Bytes, chain: int, bs: seq<Block>, i: nat, state: u8)
    requires Encodes(m, chain, bs) && Spread(chain, bs) && i < |bs|
    requires n == m[bs[i].addr + STATE_AT := state]
    requires Confined(m0, m, chain, bs)
    ensures var cs := bs[i := bs[i].(used := state % 2 == 1)];
            Encodes(n, chain, cs) && Confined(m0, n, chain, cs)
  {
    var b := bs[i].(used := state % 2 == 1);
    assert HeaderAt(m, bs[i]);
    LoadFrame(m, n, b.addr + MAGIC_AT);
    LoadFrame(m, n, b.addr + SIZE_AT);
    EncodesUpdate(m, n, chain, bs, i, b);
    forall x | 0 <= x < WORD_SIZE && !Managed(chain, bs[i := b], x) ensures n[x] == m0[x] {
      ManagedAddrs(chain, bs, bs[i := b], x);
      assert bs[i := b][i] == b;
    }
  }

  // Which bytes are managed depends on addresses only.
  lemma ManagedAddrs(chain: int, bs: seq<Block>, cs: seq<Block>, x: int)
    requires |bs| == |cs| && forall i | 0 <= i < |bs| :: bs[i].addr == cs[i].addr
    ensures Managed(chain, bs, x) <==> Managed(chain, cs, x)
  {
  }

  // A header at the break is clear of all others.
  lemma SpreadTop(chain: int, h: Heap, b: Block)
    requires Tiled(h) && STATE_AT < chain && chain + LINK_SIZE <= h.base && b.addr == h.brk
    ensures Spread(chain, [b] + h.blocks)
  {
    var cs := [b] + h.blocks;
    SpreadTiled(chain, h);
    forall i | 0 < i < |cs| ensures cs[i] == h.blocks[i - 1] {
    }
  }

  lemma SpreadTiled(chain: int, h: Heap)
    requires Tiled(h) && STATE_AT < chain && chain + LINK_SIZE <= h.base
    ensures Spread(chain, h.blocks)
  {
    forall i, j | 0 <= i < |h.blocks| && 0 <= j < |h.blocks| && i != j
      ensures h.blocks[i].addr + HEADER <= h.blocks[j].addr || h.blocks[j].addr + HEADER <= h.blocks[i].addr
    {
      assert Disjoint(h.blocks[i], h.blocks[j]);
    }
  }

  // Being spread depends on addresses only.
  lemma SpreadAddrs(chain: int, bs: seq<Block>, cs: seq<Block>)
    requires Spread(chain, bs) && |bs| == |cs| && forall i | 0 <= i < |bs| :: bs[i].addr == cs[i].addr
    ensures Spread(chain, cs)
  {
  }

  lemma HeaderOf(m: Bytes, n: Bytes, b: Block)
    requires STATE_AT < b.addr <= WORD_SIZE - HEADER && n == m[STATE_AT := 0]
    requires Load32(m, b.addr + MAGIC_AT) == MAGIC && Load32(m, b.addr + SIZE_AT) == b.size
    requires b.used <==> n[b.addr + STATE_AT] % 2 == 1
    ensures HeaderAt(n, b)
  {
    LoadFrame(m, n, b.addr + MAGIC_AT);
    LoadFrame(m, n, b.addr + SIZE_AT);
  }

  lemma GrowFrames(m: Bytes, n: Bytes, chain: int, bs: seq<Block>, b: Block)
    requires Encodes(m, chain, bs) && Spread(chain, [b.(used := true)] + bs)
    requires forall x | 0 <= x < WORD_SIZE && x != STATE_AT && !(b.addr + MAGIC_AT <= x < b.addr + STATE_AT) ::
               n[x] == m[x]
    ensures Encodes(n, chain, bs)
    ensures Confined(m, n, chain, [b] + bs)
  {
    var cs := [b.(used := true)] + bs;
    assert cs[0].addr == b.addr;
    forall i | 0 <= i < |bs| ensures Same(m, n, bs[i].addr, bs[i].addr + HEADER) {
      assert cs[i + 1] == bs[i];
    }
    EncodesFrame(m, n, chain, bs);
    forall x | 0 <= x < WORD_SIZE && !Managed(chain, [b] + bs, x) ensures n[x] == m[x] {
      assert ([b] + bs)[0] == b;
    }
  }

  // The node a list_add finds right after the head.
  function SecondNode(chain: int, bs: seq<Block>): int {
    if bs == [] then chain else bs[0].addr
  }

  lemma LinksConfined(m: Bytes, n: Bytes, chain: int, cs: seq<Block>)
    requires |cs| > 0 && Outside(m, n, cs[0].addr, chain, SecondNode(chain, cs[1..]))
    ensures Confined(m, n, chain, cs)
  {
    forall x | 0 <= x < WORD_SIZE && !Managed(chain, cs, x) ensures n[x] == m[x] {
      assert !(cs[0].addr <= x < cs[0].addr + HEADER);
      assert |cs| > 1 ==> !(cs[1].addr <= x < cs[1].addr + HEADER);
    }
  }

  lemma ChainNodes(chain: u32, bs: seq<Block>, b: Block)
    requires Spread(chain, [b] + bs)
    ensures Nodes(Chain(chain, bs) + [b.addr])
  {
    var r := Chain(chain, bs) + [b.addr];
    assert forall i | 0 < i < |[b] + bs| :: ([b] + bs)[i] == bs[i - 1];
    forall i | 0 <= i < |r| ensures r[i] == if i == 0 then chain else ([b] + bs)[if i == |bs| + 1 then 0 else i].addr {
    }
  }
}
