// The kernel address space (cpu/page.c, cpu/handler.c): page tables edited only
// through the window at directory slot 1023, by loads and stores that the
// processor translates.

module AddressSpaces {
  import opened Words
  import opened Bits
  import opened Options
  import opened Frames
  import opened FrameAllocators
  import opened Mmu
  import opened Tlb
  import opened PagingModel
  import opened DemandPaging

  // __unmap_page does not refuse an address inside the window either.  There it
  // drops a whole table and invalidates one page: the cache stays right exactly
  // when it holds no page of that table.
  lemma UnmapInWindow(tlb: Cache, pd: nat, vm: Vm, v: u32)
    requires Tables(vm.mem, pd, vm.used) && Coherent(tlb, vm.mem, pd) && VaddrPde(v) == WINDOW != VaddrPte(v)
    ensures Coherent(tlb - {v / PAGE}, PagingModel.UnmapPage(pd, vm, v).mem, pd)
            <==> forall q | q in tlb :: q / ENTRIES != VaddrPte(v)
  {
    SplitPage(v);
    var n, t := PagingModel.UnmapPage(pd, vm, v).mem, VaddrPte(v);
    forall q: nat | q < PAGES
      ensures Walk(n, pd, q) == if q / ENTRIES == t || q == v / PAGE then None else Walk(vm.mem, pd, q)
    {
      if q / ENTRIES < WINDOW && Pde(vm.mem, pd, q / ENTRIES) != 0 {
        assert TableAt(vm.mem, pd, q / ENTRIES, vm.used);
      }
    }
  }

  // Result of an operation that may stop the machine.
  datatype Outcome = Done(value: u32) | Panic

  class AddressSpace {
    const mem: array<u32>           // physical memory
    const pd: nat                   // frame of the directory, in cr3
    const frames: FrameAllocator
    var tlb: Cache

    ghost function View(): Vm
      reads mem, frames.bitmap.base
      requires mem.Length == PHYS_WORDS && frames.bitmap.Valid()
    {
      Vm(mem[..], frames.Used())
    }

    // The allocator is valid, its zones are those of init_paging, and frame 0 is
    // reserved, so that the address 0 can stand for "none".
    ghost predicate FramesReady()
      reads frames, frames.bitmap.base
    {
      && frames.Valid() && (mem as object) != frames.bitmap.base
      && SameBounds(InitialZones(frames.totalPages), frames.zones)
      && 0 in frames.Used()
    }

    // The cache agrees with the tables, and the window works.
    ghost predicate Translating(used: set<nat>)
      reads this`tlb, mem
    {
      mem.Length == PHYS_WORDS && Tables(mem[..], pd, used) && Coherent(tlb, mem[..], pd)
    }

    ghost predicate Valid()
      reads this`tlb, mem, frames, frames.bitmap.base
    {
      FramesReady() && Translating(frames.Used())
    }

    lemma TranslatingMono(used: set<nat>, more: set<nat>)
      requires Translating(used) && used <= more
      ensures Translating(more)
    {
      TablesMono(mem[..], pd, used, more);
    }

    // Paging is on already, so the processor may have cached translations.
    constructor (mem: array<u32>, pd: nat, frames: FrameAllocator, cached: Cache)
      ensures this.mem == mem && this.pd == pd && this.frames == frames && tlb == cached
    {
      this.mem, this.pd, this.frames, tlb := mem, pd, frames, cached;
    }

    // init_page_allocator, once the place of the kernel is known.
    method ReserveKernel(kernelPages: nat, bitmapPages: nat)
      requires Translating(Run(pd, 3)) && frames.Valid() && frames.Used() == {} && (mem as object) != frames.bitmap.base
      requires SameBounds(InitialZones(frames.totalPages), frames.zones)
      requires KERNEL_FRAME <= pd && pd + 3 <= KERNEL_FRAME + kernelPages
      requires KERNEL_FRAME + kernelPages + bitmapPages <= frames.totalPages
      modifies frames, frames.bitmap.base
      ensures Valid() && frames.Used() == Run(0, KERNEL_FRAME + kernelPages + bitmapPages)
    {
      RunWithin(pd, 3, KERNEL_FRAME + kernelPages + bitmapPages);
      hide Translating, SameBounds, FrameAllocator.Used, Partition, Counted, Run;
      ghost var zones := frames.zones;
      frames.Reserve(kernelPages, bitmapPages);
      SameBoundsTrans(InitialZones(frames.totalPages), zones, frames.zones);
      TranslatingMono(Run(pd, 3), frames.Used());
    }

    // ----- The processor -----

    // The walk the hardware makes when a page is not cached.
    method WalkTables(page: nat) returns (leaf: Leaf)
      requires mem.Length == PHYS_WORDS && pd < PAGES && page < PAGES && Walk(mem[..], pd, page).Some?
      ensures Walk(mem[..], pd, page) == Some(leaf)
    {
      var pde := mem[pd * ENTRIES + page / ENTRIES];
      var pte := mem[FrameOf(pde) * ENTRIES + page % ENTRIES];
      leaf := Leaf(FrameOf(pte), Writable(pde) && Writable(pte), User(pde) && User(pte));
    }

    method Translate(page: nat) returns (leaf: Leaf)
      requires mem.Length == PHYS_WORDS && pd < PAGES && Coherent(tlb, mem[..], pd)
      requires page < PAGES && Walk(mem[..], pd, page).Some?
      modifies this
      ensures Walk(mem[..], pd, page) == Some(leaf)
      ensures tlb == old(tlb)[page := leaf] && Coherent(tlb, mem[..], pd)
    {
      CoherentFill(tlb, mem[..], pd, page);
      if page in tlb {
        leaf := tlb[page];
        tlb := tlb[page := leaf];
      } else {
        leaf := WalkTables(page);
        tlb := tlb[page := leaf];
      }
    }

    method Invlpg(va: u32)
      modifies this
      ensures tlb == old(tlb) - {va / PAGE}
    {
      tlb := tlb - {va / PAGE};
    }

    // ----- Access to entries through the window -----

    // k_addrspc.pd[GET_PE(d, t)] as a value.
    method ReadEntry(d: nat, t: nat, ghost used: set<nat>) returns (e: u32)
      requires Translating(used) && d < ENTRIES && t < ENTRIES && Present(Pde(mem[..], pd, d))
      modifies this
      ensures e == Entry(mem[..], FrameOf(Pde(mem[..], pd, d)), t)
      ensures Translating(used) && tlb.Keys == old(tlb).Keys + {WINDOW * ENTRIES + d}
    {
      assert pd < PAGES;
      hide Walk, Tables, WindowAddress, GetPe, WordAt, Coherent, Present, Writable, User, FrameOf;
      WindowReaches(mem[..], pd, used, d, t);
      var va := WindowAddress(GetPe(d, t));
      var leaf := Translate(va / PAGE);
      e := mem[WordAt(leaf.frame, va)];
    }

    // k_addrspc.pd[GET_PE(d, t)] = e.  The cache still describes the old tables.
    method WriteEntry(d: nat, t: nat, e: u32, ghost used: set<nat>)
      requires Translating(used) && d < ENTRIES && t < ENTRIES && Present(Pde(mem[..], pd, d))
      modifies mem, this
      ensures mem[..] == old(mem[..])[FrameOf(Pde(old(mem[..]), pd, d)) * ENTRIES + t := e]
      ensures Coherent(tlb, old(mem[..]), pd) && tlb.Keys == old(tlb).Keys + {WINDOW * ENTRIES + d}
    {
      assert pd < PAGES;
      hide Walk, Tables, WindowAddress, GetPe, WordAt, Coherent, Present, Writable, User, FrameOf;
      WindowReaches(mem[..], pd, used, d, t);
      var va := WindowAddress(GetPe(d, t));
      ghost var target := FrameOf(Pde(mem[..], pd, d)) * ENTRIES + t;
      var leaf := Translate(va / PAGE);
      var w := WordAt(leaf.frame, va);
      assert w == target;
      hide Pde;
      mem[w] := e;
    }

    method GetPageTableEntry(v: u32, ghost used: set<nat>) returns (e: u32)
      requires Translating(used) && Present(Pde(mem[..], pd, VaddrPde(v)))
      modifies this
      ensures e == Existing(Vm(mem[..], used), pd, v)
      ensures Translating(used) && tlb.Keys == old(tlb).Keys + {TablePage(v)}
    {
      e := ReadEntry(VaddrPde(v), VaddrPte(v), used);
    }

    method SetPageTableEntry(v: u32, e: u32, ghost used: set<nat>)
      requires Translating(used) && Present(Pde(mem[..], pd, VaddrPde(v)))
      modifies mem, this
      ensures mem[..] == SetPte(old(mem[..]), pd, v / PAGE, e)
      ensures Coherent(tlb, old(mem[..]), pd) && tlb.Keys == old(tlb).Keys + {TablePage(v)}
    {
      SplitPage(v);
      hide VaddrPde, VaddrPte, FrameOf, Pde, Present, Walk, Tables, Coherent;
      WriteEntry(VaddrPde(v), VaddrPte(v), e, used);
    }

    method GetPageDirectoryEntry(v: u32, ghost used: set<nat>) returns (e: u32)
      requires Translating(used)
      modifies this
      ensures e == Pde(mem[..], pd, VaddrPde(v))
      ensures Translating(used) && tlb.Keys == old(tlb).Keys + {WINDOW * ENTRIES + WINDOW}
    {
      e := ReadEntry(WINDOW, VaddrPde(v), used);
    }

    method SetPageDirectoryEntry(v: u32, e: u32, ghost used: set<nat>)
      requires Translating(used)
      modifies mem, this
      ensures mem[..] == old(mem[..])[pd * ENTRIES + VaddrPde(v) := e]
      ensures Coherent(tlb, old(mem[..]), pd) && tlb.Keys == old(tlb).Keys + {WINDOW * ENTRIES + WINDOW}
    {
      WriteEntry(WINDOW, VaddrPde(v), e, used);
    }

    // ----- Mapping and unmapping -----

    // memset over the window page of a table: every entry becomes 0.  No page the
    // table could translate is cached meanwhile.
    method ZeroTable(d: nat, ghost used: set<nat>)
      requires Translating(used) && d < WINDOW && Pde(mem[..], pd, d) != 0
      requires forall q | q in tlb :: q / ENTRIES != d
      modifies mem, this
      ensures Translating(used)
      ensures mem[..] == ZeroFrame(old(mem[..]), FrameOf(Pde(old(mem[..]), pd, d)))
      ensures forall q | q in tlb :: q / ENTRIES != d
    {
      assert pd < PAGES;
      hide Tables, Coherent;
      ghost var m := mem[..];
      ghost var f := FrameOf(Pde(m, pd, d));
      var t := 0;
      while t < ENTRIES
        invariant 0 <= t <= ENTRIES && Translating(used)
        invariant forall i | 0 <= i < PHYS_WORDS ::
                    mem[i] == if f * ENTRIES <= i < f * ENTRIES + t then 0 else m[i]
        invariant Pde(mem[..], pd, d) == Pde(m, pd, d)
        invariant forall q | q in tlb :: q / ENTRIES != d
      {
        ZeroEntry(d, t, used);
        t := t + 1;
      }
    }

    method ZeroEntry(d: nat, t: nat, ghost used: set<nat>)
      requires Translating(used) && d < WINDOW && t < ENTRIES && Pde(mem[..], pd, d) != 0
      requires forall q | q in tlb :: q / ENTRIES != d
      modifies mem, this
      ensures Translating(used)
      ensures mem[..] == old(mem[..])[FrameOf(Pde(old(mem[..]), pd, d)) * ENTRIES + t := 0]
      ensures Pde(mem[..], pd, d) == Pde(old(mem[..]), pd, d)
      ensures forall q | q in tlb :: q / ENTRIES != d
    {
      ghost var m, page := mem[..], d * ENTRIES + t;
      assert page / ENTRIES == d && page % ENTRIES == t;
      assert TableAt(m, pd, d, used);
      hide Tables, Coherent, Walk;
      WriteEntry(d, t, 0, used);
      assert mem[..] == SetPte(m, pd, page, 0);
      assert page !in tlb;
      SetPteCoherent(tlb, m, pd, used, page, 0);
      SetPteWalk(m, pd, used, page, 0, page);
    }

    // alloc_pages(1, ZONE_NORMAL)
    method GrantFrame() returns (paddr: u32)
      requires FramesReady() && frames.totalPages <= PAGES
      modifies frames, frames.bitmap.base
      ensures FramesReady()
      ensures match Grant(frames.totalPages, old(frames.Used()))
              case Some(k) => paddr == k * PAGE && paddr != 0 && frames.Used() == old(frames.Used()) + {k}
              case None => paddr == 0 && frames.Used() == old(frames.Used())
    {
      ghost var zones, used := frames.zones, frames.Used();
      hide Chosen, Run, SameBounds, Partition, Counted, InitialZones, FrameAllocator.Used;
      ChosenBounds(InitialZones(frames.totalPages), zones, frames.totalPages, used, 1, ZONE_NORMAL);
      GrantFacts(frames.totalPages, used);
      var granted := frames.AllocPages(1, ZONE_NORMAL);
      SameBoundsTrans(InitialZones(frames.totalPages), zones, frames.zones);
      if Grant(frames.totalPages, used).Some? {
        OneFrame(Grant(frames.totalPages, used).value);
      }
      paddr := granted;
    }

    // The part of __map_page that hangs a fresh table under the slot of v.
    method AddTable(v: u32) returns (ok: bool)
      requires Valid() && VaddrPde(v) != WINDOW && Pde(mem[..], pd, VaddrPde(v)) == 0
      modifies mem, this, frames, frames.bitmap.base
      ensures Valid() && ok == Grant(frames.totalPages, old(frames.Used())).Some?
      ensures !ok ==> View() == old(View())
      ensures ok ==> (var f := Grant(frames.totalPages, old(frames.Used())).value;
                      f < PAGES && View() == Vm(NewTable(old(mem[..]), pd, VaddrPde(v), f), old(frames.Used()) + {f}))
    {
      ghost var used := frames.Used();
      GrantFacts(frames.totalPages, used);
      hide Walk, Tables, Coherent, Chosen, Grant;
      hide VaddrPde, SameBounds, NewTable, Pde, FrameAllocator.Valid, FrameAllocator.Used;
      var pt := GrantFrame();
      if pt == 0 {
        return false;
      }
      InstallTable(v, pt, used, Grant(frames.totalPages, used).value);
      return true;
    }

    method InstallTable(v: u32, pt: u32, ghost used: set<nat>, ghost f: nat)
      requires Translating(used) && VaddrPde(v) != WINDOW && Pde(mem[..], pd, VaddrPde(v)) == 0
      requires f < PAGES && f !in used && pt == f * PAGE
      modifies mem, this
      ensures Translating(used + {f}) && mem[..] == NewTable(old(mem[..]), pd, VaddrPde(v), f)
    {
      assert pd < PAGES && VaddrPde(v) < WINDOW;
      TableBits(f);
      OrFlags(pt, f * 512);
      var e: u32 := BitOr(BitOr(pt, P_PRESENT), P_WRITE);
      hide Walk, Tables, Coherent, VaddrPde, FrameOf, ZeroFrame, BitOr, Pde;
      HangTable(v, e, used, f);
      DropPage(VaddrFromIndex(WINDOW, VaddrPde(v)), used + {f});
      ZeroTable(VaddrPde(v), used + {f});
    }

    // Storing the new directory entry.
    method HangTable(v: u32, e: u32, ghost used: set<nat>, ghost f: nat)
      requires Translating(used) && VaddrPde(v) < WINDOW && Pde(mem[..], pd, VaddrPde(v)) == 0
      requires f < PAGES && f !in used && e == f * PAGE + P_PRESENT + P_WRITE
      modifies mem, this
      ensures mem[..] == old(mem[..])[pd * ENTRIES + VaddrPde(v) := e]
      ensures Translating(used + {f}) && Pde(mem[..], pd, VaddrPde(v)) == e
      ensures forall q | q in tlb :: q / ENTRIES != VaddrPde(v)
    {
      ghost var m := mem[..];
      hide Walk, Tables, Coherent, VaddrPde, Pde;
      SetPageDirectoryEntry(v, e, used);
      SetPdeCoherent(tlb, m, pd, used, VaddrPde(v), f);
    }

    // invlpg keeps the cache coherent.
    method DropPage(va: u32, ghost used: set<nat>)
      requires Translating(used)
      modifies this
      ensures Translating(used) && tlb == old(tlb) - {va / PAGE}
    {
      CoherentDrop(tlb, mem[..], pd, va / PAGE);
      hide Walk, Tables, Coherent;
      Invlpg(va);
    }

    // The store that fills the entry of an unmapped page.
    method FillEntry(p: u32, v: u32, ghost used: set<nat>)
      requires Translating(used) && VaddrPde(v) != WINDOW && Pde(mem[..], pd, VaddrPde(v)) != 0
      requires Existing(Vm(mem[..], used), pd, v) == 0 && p % PAGE == 0
      modifies mem, this
      ensures Translating(used) && mem[..] == SetPte(old(mem[..]), pd, v / PAGE, p + RIGHTS)
    {
      ghost var m := mem[..];
      SplitPage(v);
      NotMapped(m, pd, used, v);
      EntryBits(p);
      OrFlags(p, p / PAGE * 512);
      var e: u32 := BitOr(BitOr(BitOr(p, P_PRESENT), P_WRITE), P_USER);
      hide Walk, Tables, Coherent, VaddrPde, VaddrPte, BitOr, SetPte, Pde, Present, Existing, Writable, User, FrameOf;
      SetPageTableEntry(v, e, used);
      SetPteCoherent(tlb, m, pd, used, v / PAGE, e);
      Invlpg(v);
    }

    // The second half of __map_page: fill the entry unless it is in use.
    method FillIfFree(p: u32, v: u32, ghost used: set<nat>) returns (filled: bool)
      requires Translating(used) && VaddrPde(v) != WINDOW && Pde(mem[..], pd, VaddrPde(v)) != 0 && p % PAGE == 0
      modifies mem, this
      ensures Translating(used)
      ensures filled <==> Existing(Vm(old(mem[..]), used), pd, v) == 0
      ensures mem[..] == if filled then SetPte(old(mem[..]), pd, v / PAGE, p + RIGHTS) else old(mem[..])
    {
      assert TableAt(mem[..], pd, VaddrPde(v), used);
      hide Walk, Coherent, SetPte, Tables, VaddrPde;
      var e := GetPageTableEntry(v, used);
      if e != 0 {
        return false;
      }
      FillEntry(p, v, used);
      return true;
    }

    // __map_page is the step of the model; the cache agrees with the tables again
    // when it returns.
    method MapPage(p: u32, v: u32) returns (r: Outcome)
      requires Valid() && VaddrPde(v) != WINDOW && frames.totalPages <= PAGES
      modifies mem, this, frames, frames.bitmap.base
      ensures Valid()
      ensures match PagingModel.MapPage(frames.totalPages, pd, old(View()), p, v)
              case Mapped(vm) => r == Done(v) && View() == vm
              case Refused(vm) => r == Done(0) && View() == vm
              case Halted => r == Panic && View() == old(View())
    {
      if p % PAGE != 0 || v % PAGE != 0 {
        return Done(0);
      }
      ghost var total, vm := frames.totalPages, View();
      MapViaTable(total, pd, vm, p, v);
      hide PagingModel.MapPage, WithTable, Walk, Coherent, SetPte;
      hide Tables, Pde, Existing, VaddrPde, FrameAllocator.Valid, SameBounds;
      var ok := EnsureTable(v);
      if !ok {
        return Panic;
      }
      ghost var used := frames.Used();
      var filled := FillIfFree(p, v, used);
      r := Done(if filled then v else 0);
    }

    // The first half of __map_page: look for a table and add one if need be.
    method EnsureTable(v: u32) returns (ok: bool)
      requires Valid() && VaddrPde(v) != WINDOW && frames.totalPages <= PAGES
      modifies mem, this, frames, frames.bitmap.base
      ensures Valid()
      ensures match WithTable(frames.totalPages, pd, old(View()), v)
              case Some(vm) => ok && View() == vm
              case None => !ok && View() == old(View())
    {
      ghost var used := frames.Used();
      hide Walk, Coherent, Tables, Grant, NewTable, SameBounds, VaddrPde, FrameAllocator.Valid;
      ok := true;
      var pt := GetPageDirectoryEntry(v, used);
      if pt == 0 {
        ok := AddTable(v);
      }
    }

    // The store of __unmap_page; the test before it never fails.
    method ClearEntry(v: u32, ghost used: set<nat>)
      requires Translating(used) && VaddrPde(v) != WINDOW && Pde(mem[..], pd, VaddrPde(v)) != 0
      modifies mem, this
      ensures Translating(used) && mem[..] == SetPte(old(mem[..]), pd, v / PAGE, 0)
      ensures v / PAGE !in tlb
    {
      ghost var m, page := mem[..], v / PAGE;
      assert TableAt(m, pd, VaddrPde(v), used);
      assert page < PAGES && page / ENTRIES == VaddrPde(v);
      var e := GetPageTableEntry(v, used);
      OrOneNonzero(e);
      hide Walk, Tables, Coherent, SetPte, BitOr, Pde, VaddrPde;
      if BitOr(e, P_PRESENT) != 0 {
        SetPageTableEntry(v, 0, used);
        SetPteCoherent(tlb, m, pd, used, page, 0);
        Invlpg(v);
      }
    }

    // __unmap_page
    method UnmapPage(v: u32)
      requires Valid() && VaddrPde(v) != WINDOW && Pde(mem[..], pd, VaddrPde(v)) != 0
      modifies mem, this
      ensures Valid() && View() == PagingModel.UnmapPage(pd, old(View()), v)
      ensures v != 0 ==> v / PAGE !in tlb
    {
      ghost var used := frames.Used();
      hide Walk, Tables, Coherent, SetPte, Pde, VaddrPde, SameBounds, FrameAllocator.Valid;
      if v != 0 {
        ClearEntry(v, used);
      }
    }

    // The grant of page_fault, before it is mapped.
    method TakeFrame() returns (phys: u32)
      requires Valid() && frames.totalPages <= PAGES
      modifies frames, frames.bitmap.base
      ensures Valid()
      ensures match Grant(frames.totalPages, old(View()).used)
              case Some(k) => phys == k * PAGE && View() == old(View()).(used := old(View()).used + {k})
              case None => phys == 0 && View() == old(View())
    {
      assert frames.bitmap.Valid();
      ghost var vm := View();
      hide Walk, Tables, Coherent, Grant, FrameAllocator.Valid, SameBounds, FrameAllocator.Used;
      GrantFacts(frames.totalPages, vm.used);
      phys := GrantFrame();
      TranslatingMono(vm.used, frames.Used());
    }

    // page_fault: the grant is not checked.
    method PageFault(address: u32) returns (r: Outcome)
      requires Valid() && VaddrPde(address) != WINDOW && frames.totalPages <= PAGES
      modifies mem, this, frames, frames.bitmap.base
      ensures Valid()
      ensures match Fault(frames.totalPages, pd, old(View()), address)
              case Mapped(vm) => r == Done(PageStart(address)) && View() == vm
              case Refused(vm) => r == Done(0) && View() == vm
              case Halted => r == Panic
    {
      assert frames.bitmap.Valid() && mem.Length == PHYS_WORDS && pd < PAGES;
      PageSlot(address);
      hide Grant, VaddrPde, PageStart, PagingModel.MapPage, Fault, Valid, View;
      ghost var total, vm := frames.totalPages, View();
      GrantFacts(total, vm.used);
      var phys := TakeFrame();
      FaultMaps(total, pd, vm, address, View(), phys);
      r := MapPage(phys, PageStart(address));
    }
  }
}
