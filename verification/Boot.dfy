// How paging comes up: the tables start.asm fills before it turns paging on, and
// init_paging of cpu/page.c on top of them.

module Boot {
  import opened Words
  import opened Options
  import opened Frames
  import opened Bitmaps
  import opened FrameAllocators
  import opened Mmu
  import opened Tlb
  import opened PagingModel
  import opened DemandPaging
  import opened AddressSpaces

  const KERNEL_VIRTUAL: u32 := 0xC000_0000
  const KERNEL_SLOT := 768         // directory slot of the kernel's 4 MB
  const BOOT_RIGHTS := P_PRESENT + P_WRITE

  // _K_PD, _I_PT and _K_PT are three consecutive page frames.
  ghost predicate BootTables(m: Phys, pd: nat) {
    && pd + 2 < PAGES
    && Filled(m, pd + 1, 0, ENTRIES)
    && Filled(m, pd + 2, KERNEL_FRAME, ENTRIES)
    && (forall d | 0 <= d < ENTRIES :: Pde(m, pd, d) == BootPde(pd, d))
  }

  // The first n entries of a table map consecutive frames.
  ghost predicate Filled(m: Phys, table: nat, first: nat, n: nat)
    requires table < PAGES && n <= ENTRIES
  {
    forall i | 0 <= i < n :: Entry(m, table, i) == (first + i) * PAGE + BOOT_RIGHTS
  }

  function BootPde(pd: nat, d: nat): nat {
    if d == 0 then (pd + 1) * PAGE + RIGHTS
    else if d == KERNEL_SLOT then (pd + 2) * PAGE + RIGHTS
    else if d == WINDOW then pd * PAGE + RIGHTS
    else 0
  }

  // Word by word: three directory entries with all rights, the low 4 MB, and the
  // 4 MB from 1 MB on, present and writable.
  lemma BootWords(m: Phys, pd: nat, i: nat)
    requires BootTables(m, pd) && i < 1024
    ensures m[pd * 1024 + i] ==
            if i == 0 then (pd + 1) * 0x1000 + 7 else if i == 768 then (pd + 2) * 0x1000 + 7
            else if i == 1023 then pd * 0x1000 + 7 else 0
    ensures m[(pd + 1) * 1024 + i] == i * 0x1000 + 3 && m[(pd + 2) * 1024 + i] == (0x100 + i) * 0x1000 + 3
  {
    assert Pde(m, pd, i) == BootPde(pd, i);
    assert Entry(m, pd + 1, i) == i * PAGE + BOOT_RIGHTS;
    assert Entry(m, pd + 2, i) == (KERNEL_FRAME + i) * PAGE + BOOT_RIGHTS;
  }

  // The fill loops and the three directory stores of start.asm, on a directory
  // that the loader has zeroed.
  method FillTables(mem: array<u32>, pd: nat)
    requires mem.Length == PHYS_WORDS && pd + 2 < PAGES
    requires forall d | 0 <= d < ENTRIES :: Pde(mem[..], pd, d) == 0
    modifies mem
    ensures BootTables(mem[..], pd)
    ensures forall i | 0 <= i < PHYS_WORDS && !(pd * ENTRIES <= i < (pd + 3) * ENTRIES) :: mem[i] == old(mem[i])
  {
    FillTable(mem, pd + 1, 0);
    ghost var m1 := mem[..];
    FillTable(mem, pd + 2, KERNEL_FRAME);
    ghost var m2 := mem[..];
    mem[pd * ENTRIES] := (pd + 1) * PAGE + RIGHTS;
    mem[pd * ENTRIES + KERNEL_SLOT] := (pd + 2) * PAGE + RIGHTS;
    mem[pd * ENTRIES + WINDOW] := pd * PAGE + RIGHTS;
    ghost var m3 := mem[..];
    ghost var low, kernel := pd + 1, pd + 2;
    forall i | 0 <= i < ENTRIES
      ensures Entry(m3, low, i) == Entry(m1, low, i) && Entry(m3, kernel, i) == Entry(m2, kernel, i)
    {
    }
    forall d | 0 <= d < ENTRIES ensures Pde(m3, pd, d) == BootPde(pd, d) {
      assert Pde(m2, pd, d) == Pde(old(mem[..]), pd, d);
    }
  }

  // 1024 times stosd, adding PAGE_SIZE to the entry each time.
  method FillTable(mem: array<u32>, table: nat, first: nat)
    requires mem.Length == PHYS_WORDS && table < PAGES && first <= KERNEL_FRAME
    modifies mem
    ensures Filled(mem[..], table, first, ENTRIES)
    ensures forall i | 0 <= i < PHYS_WORDS && !(table * ENTRIES <= i < table * ENTRIES + ENTRIES) ::
              mem[i] == old(mem[i])
  {
    var eax: nat := first * PAGE + BOOT_RIGHTS;
    var edi := table * ENTRIES;
    var ecx := ENTRIES;
    while ecx != 0
      invariant 0 <= ecx <= ENTRIES && edi == table * ENTRIES + (ENTRIES - ecx)
      invariant eax == (first + (ENTRIES - ecx)) * PAGE + BOOT_RIGHTS
      invariant Filled(mem[..], table, first, ENTRIES - ecx)
      invariant forall i | 0 <= i < PHYS_WORDS && !(table * ENTRIES <= i < table * ENTRIES + ENTRIES) ::
                  mem[i] == old(mem[i])
    {
      ghost var m := mem[..];
      mem[edi] := eax;
      forall i | 0 <= i < ENTRIES - ecx + 1 ensures Entry(mem[..], table, i) == (first + i) * PAGE + BOOT_RIGHTS {
        assert i < ENTRIES - ecx ==> Entry(mem[..], table, i) == Entry(m, table, i);
      }
      eax := eax + PAGE;
      edi := edi + 1;
      ecx := ecx - 1;
    }
  }

  // What the boot tables translate: the low 4 MB to themselves, the kernel's
  // 4 MB to the frames from 1 MB on, and outside the window nothing else.
  function BootLeaf(q: nat): Option<Leaf> {
    if q < ENTRIES then Some(Leaf(q, true, false))
    else if q / ENTRIES == KERNEL_SLOT then Some(Leaf(KERNEL_FRAME + q % ENTRIES, true, false))
    else None
  }

  lemma BootSlot(m: Phys, pd: nat, q: nat, table: nat, f: nat)
    requires pd < PAGES && q < PAGES && 0 < table < PAGES && f < PAGES
    requires Pde(m, pd, q / ENTRIES) == table * PAGE + RIGHTS && Entry(m, table, q % ENTRIES) == f * PAGE + BOOT_RIGHTS
    ensures Walk(m, pd, q) == Some(Leaf(f, true, false))
  {
    EntryBits(table * PAGE);
    TableBits(f);
    hide FrameOf, Present, Writable, User;
  }

  lemma BootWalk(m: Phys, pd: nat, q: nat)
    requires BootTables(m, pd) && q < WINDOW * ENTRIES
    ensures Walk(m, pd, q) == BootLeaf(q)
    ensures BootLeaf(q) == if q < 0x400 then Some(Leaf(q, true, false))
                           else if 0xC0000 <= q < 0xC0400 then Some(Leaf(q - 0xC0000 + 0x100, true, false))
                           else None
  {
    assert Pde(m, pd, q / ENTRIES) == BootPde(pd, q / ENTRIES);
    var t := q % ENTRIES;
    assert Entry(m, pd + 1, t) == t * PAGE + BOOT_RIGHTS;
    assert Entry(m, pd + 2, t) == (KERNEL_FRAME + t) * PAGE + BOOT_RIGHTS;
    if q / ENTRIES == 0 {
      hide Walk;
      BootSlot(m, pd, q, pd + 1, q);
    } else if q / ENTRIES == KERNEL_SLOT {
      hide Walk;
      BootSlot(m, pd, q, pd + 2, KERNEL_FRAME + t);
    }
  }

  lemma BootTablesGood(m: Phys, pd: nat, used: set<nat>)
    requires BootTables(m, pd) && pd in used && pd + 1 in used && pd + 2 in used
    ensures Tables(m, pd, used)
  {
    EntryBits(pd * PAGE);
    EntryBits((pd + 1) * PAGE);
    EntryBits((pd + 2) * PAGE);
    assert forall d | 0 <= d < ENTRIES :: Pde(m, pd, d) == BootPde(pd, d);
    assert TableAt(m, pd, 0, used) && TableAt(m, pd, KERNEL_SLOT, used);
  }

  lemma BootClean(m: Phys, pd: nat)
    requires BootTables(m, pd)
    ensures Clean(m, pd)
  {
    EntryBits((pd + 1) * PAGE);
    EntryBits((pd + 2) * PAGE);
    forall q | 0 <= q < WINDOW * ENTRIES && Pde(m, pd, q / ENTRIES) != 0 ensures Present(EntryOf(m, pd, q)) {
      var d, t := q / ENTRIES, q % ENTRIES;
      assert Pde(m, pd, d) == BootPde(pd, d);
      assert Entry(m, pd + 1, t) == t * PAGE + BOOT_RIGHTS;
      assert Entry(m, pd + 2, t) == (KERNEL_FRAME + t) * PAGE + BOOT_RIGHTS;
      TableBits(t);
      TableBits(KERNEL_FRAME + t);
      hide FrameOf, Present;
    }
  }

  // ----- init_paging -----

  // Pages the bitmap is given after the kernel.
  function BitmapPages(limit: nat): nat {
    limit / 8 / PAGE + if limit / 8 % PAGE != 0 then 1 else 0
  }

  // The bytes that bitmap_init clears fit these pages, except when the number of
  // frames goes beyond a multiple of 32768 by less than a byte of bits.
  lemma BitmapFits(limit: nat)
    ensures (limit + 7) / 8 <= BitmapPages(limit) * PAGE <==> limit % 0x8000 == 0 || limit % 0x8000 >= 8
    ensures limit / 8 <= BitmapPages(limit) * 0x1000 < limit / 8 + 0x1000
  {
    var q, r := limit / 0x8000, limit % 0x8000;
    assert limit / 8 == PAGE * q + r / 8;
    assert limit / 8 / PAGE == q && limit / 8 % PAGE == r / 8;
    assert (limit + 7) / 8 == PAGE * q + (r + 7) / 8;
  }

  function KernelAddress(i: nat): u32
    requires i < ENTRIES
  {
    KERNEL_VIRTUAL + i * PAGE
  }

  lemma KernelEntry(m: Phys, pd: nat, used: set<nat>, i: nat)
    requires BootTables(m, pd) && i < ENTRIES
    ensures VaddrPde(KernelAddress(i)) == KERNEL_SLOT && KernelAddress(i) / PAGE == KERNEL_SLOT * ENTRIES + i
    ensures Present(Pde(m, pd, KERNEL_SLOT))
    ensures MaskFlags(Existing(Vm(m, used), pd, KernelAddress(i))) == (KERNEL_FRAME + i) * PAGE
  {
    assert KernelAddress(i) / 0x1000 % 1024 == i && KernelAddress(i) / 0x40_0000 == KERNEL_SLOT;
    assert Pde(m, pd, KERNEL_SLOT) == BootPde(pd, KERNEL_SLOT);
    assert Entry(m, pd + 2, i) == (KERNEL_FRAME + i) * PAGE + BOOT_RIGHTS;
  }

  // Where the kernel lies in physical memory, read from its own page table.
  method KernelBounds(space: AddressSpace, kernelPages: nat, ghost used: set<nat>) returns (start: u32, end: u32)
    requires space.Translating(used) && BootTables(space.mem[..], space.pd) && kernelPages < ENTRIES
    modifies space
    ensures space.Translating(used)
    ensures start == KERNEL_FRAME * PAGE && end == (KERNEL_FRAME + kernelPages) * PAGE
  {
    ghost var m, pd := space.mem[..], space.pd;
    KernelEntry(m, pd, used, 0);
    KernelEntry(m, pd, used, kernelPages);
    hide Walk, Tables, Coherent, BootTables, Existing, Pde, VaddrPde, KernelAddress, Present;
    var first := space.GetPageTableEntry(KernelAddress(0), used);
    var last := space.GetPageTableEntry(KernelAddress(kernelPages), used);
    start, end := MaskFlags(first), MaskFlags(last);
  }

  // What init_paging leaves mapped outside the window: the low 4 MB, and of the
  // kernel's 4 MB only the kernel and its bitmap.
  function InitialLeaf(q: nat, kept: nat): Option<Leaf> {
    if q / ENTRIES == KERNEL_SLOT && q % ENTRIES >= kept then None else BootLeaf(q)
  }

  lemma InitialLeafSays(q: nat, kept: nat)
    requires q < 1023 * 1024 && kept <= 1024
    ensures InitialLeaf(q, kept) ==
            if q < 0x400 then Some(Leaf(q, true, false))
            else if 0xC0000 <= q < 0xC0000 + kept then Some(Leaf(q - 0xC0000 + 0x100, true, false))
            else None
  {
  }

  ghost predicate InitiallyMapped(m: Phys, pd: nat, kept: nat)
    requires pd < PAGES
  {
    forall q | 0 <= q < WINDOW * ENTRIES :: Walk(m, pd, q) == InitialLeaf(q, kept)
  }

  // The kernel, with a bitmap for that much memory behind it, fits the 4 MB that
  // are mapped at boot (which the source leaves unchecked) and the memory.
  predicate KernelFits(pd: nat, total: nat, kernelPages: nat) {
    && total <= PAGES && KERNEL_FRAME <= pd && pd + 3 <= KERNEL_FRAME + kernelPages
    && kernelPages + BitmapPages(total) < ENTRIES && KERNEL_FRAME + kernelPages + BitmapPages(total) <= total
  }

  // init_paging up to the clean-up loop.
  method StartAllocator(mem: array<u32>, pd: nat, bytes: array<bv8>, kbInstalled: nat, kernelPages: nat, cached: Cache)
    returns (space: AddressSpace, bitmapPages: nat)
    requires mem.Length == PHYS_WORDS && BootTables(mem[..], pd) && (mem as object) != bytes
    requires Coherent(cached, mem[..], pd)
    requires KernelFits(pd, kbInstalled / KB_PER_FRAME, kernelPages)
    requires bytes.Length == (kbInstalled / KB_PER_FRAME + 7) / 8
    modifies bytes
    ensures fresh(space) && fresh(space.frames) && space.Valid()
    ensures space.mem == mem && space.pd == pd && space.frames.bitmap.base == bytes
    ensures space.frames.totalPages == kbInstalled / KB_PER_FRAME && bitmapPages == BitmapPages(space.frames.totalPages)
    ensures space.frames.Used() == Run(0, KERNEL_FRAME + kernelPages + bitmapPages)
  {
    var frames := new FrameAllocator(kbInstalled, bytes);
    space := new AddressSpace(mem, pd, frames, cached);
    RunHas(pd, 3);
    BootTablesGood(mem[..], pd, Run(pd, 3));
    assert SameBounds(frames.zones, frames.zones);
    hide Walk, Tables, Coherent, BootTables, SameBounds, FrameAllocator.Valid;
    bitmapPages := InitPageAllocator(space, kernelPages);
  }

  // init_page_allocator
  method InitPageAllocator(space: AddressSpace, kernelPages: nat) returns (bitmapPages: nat)
    requires space.Translating(Run(space.pd, 3)) && BootTables(space.mem[..], space.pd)
    requires space.frames.Valid() && space.frames.Used() == {} && (space.mem as object) != space.frames.bitmap.base
    requires SameBounds(InitialZones(space.frames.totalPages), space.frames.zones)
    requires KernelFits(space.pd, space.frames.totalPages, kernelPages)
    modifies space, space.frames, space.frames.bitmap.base
    ensures space.Valid() && bitmapPages == BitmapPages(space.frames.totalPages)
    ensures space.frames.Used() == Run(0, KERNEL_FRAME + kernelPages + bitmapPages)
  {
    hide AddressSpace.Translating, SameBounds, FrameAllocator.Valid, FrameAllocator.Used, BitmapPages, Run, BootTables;
    bitmapPages := BitmapPages(space.frames.totalPages);
    var start, end := KernelBounds(space, kernelPages, Run(space.pd, 3));
    var kpages := PageCount(start, end, kernelPages);
    space.ReserveKernel(kpages, bitmapPages);
  }

  method PageCount(start: u32, end: u32, ghost n: nat) returns (pages: nat)
    requires start == KERNEL_FRAME * PAGE && end == (KERNEL_FRAME + n) * PAGE
    ensures pages == n && start / PAGE == KERNEL_FRAME
  {
    pages := (end - start) / PAGE;
  }

  // `cached` is what the processor has cached of the boot tables by then.
  method InitPaging(mem: array<u32>, pd: nat, bytes: array<bv8>, kbInstalled: nat, kernelPages: nat, cached: Cache)
    returns (space: AddressSpace)
    requires mem.Length == PHYS_WORDS && BootTables(mem[..], pd) && (mem as object) != bytes
    requires Coherent(cached, mem[..], pd)
    requires KernelFits(pd, kbInstalled / KB_PER_FRAME, kernelPages)
    requires bytes.Length == (kbInstalled / KB_PER_FRAME + 7) / 8
    modifies mem, bytes
    ensures space.Valid() && space.mem == mem && space.pd == pd && space.frames.totalPages == kbInstalled / KB_PER_FRAME
    ensures var kept := kernelPages + BitmapPages(space.frames.totalPages);
            space.frames.Used() == Run(0, KERNEL_FRAME + kept) && InitiallyMapped(space.mem[..], space.pd, kept)
    ensures Clean(space.mem[..], space.pd)
  {
    var bitmapPages;
    space, bitmapPages := StartAllocator(mem, pd, bytes, kbInstalled, kernelPages, cached);
    CleanUp(space, kernelPages + bitmapPages);
  }

  // The loop that unmaps the rest of the kernel's last page table.
  method CleanUp(space: AddressSpace, kept: nat)
    requires space.Valid() && BootTables(space.mem[..], space.pd) && kept < ENTRIES
    modifies space.mem, space
    ensures space.Valid() && InitiallyMapped(space.mem[..], space.pd, kept) && Clean(space.mem[..], space.pd)
  {
    BootClean(space.mem[..], space.pd);
    ghost var pd := space.pd;
    forall q | 0 <= q < WINDOW * ENTRIES ensures Walk(space.mem[..], pd, q) == BootLeaf(q) {
      BootWalk(space.mem[..], pd, q);
    }
    assert Pde(space.mem[..], pd, KERNEL_SLOT) != 0;
    hide Clean;
    var i := kept;
    while i < ENTRIES
      invariant kept <= i <= ENTRIES && space.Valid() && Pde(space.mem[..], pd, KERNEL_SLOT) != 0
      invariant Clean(space.mem[..], pd)
      invariant forall q | 0 <= q < WINDOW * ENTRIES :: Walk(space.mem[..], pd, q) ==
                  if q / ENTRIES == KERNEL_SLOT && kept <= q % ENTRIES < i then None else BootLeaf(q)
    {
      UnmapKernelPage(space, i);
      i := i + 1;
    }
  }

  method UnmapKernelPage(space: AddressSpace, i: nat)
    requires space.Valid() && i < ENTRIES && Pde(space.mem[..], space.pd, KERNEL_SLOT) != 0
    requires Clean(space.mem[..], space.pd)
    modifies space.mem, space
    ensures space.Valid() && Pde(space.mem[..], space.pd, KERNEL_SLOT) != 0 && Clean(space.mem[..], space.pd)
    ensures forall q | 0 <= q < WINDOW * ENTRIES :: Walk(space.mem[..], space.pd, q) ==
              if q == KERNEL_SLOT * ENTRIES + i then None else Walk(old(space.mem[..]), space.pd, q)
  {
    ghost var vm, pd, v := space.View(), space.pd, KernelAddress(i);
    assert VaddrPde(v) == KERNEL_SLOT && v / PAGE == KERNEL_SLOT * ENTRIES + i && v != 0;
    forall q | 0 <= q < WINDOW * ENTRIES
      ensures Walk(PagingModel.UnmapPage(pd, vm, v).mem, pd, q) == if q == v / PAGE then None else Walk(vm.mem, pd, q)
    {
      UnmapWalk(pd, vm, v, q);
    }
    SetPteWalk(vm.mem, pd, vm.used, v / PAGE, 0, 0);
    UnmapKeepsClean(pd, vm, v);
    hide Walk, Tables, Coherent, SetPte, Clean;
    space.UnmapPage(KernelAddress(i));
  }

  // From the state init_paging leaves, any run of demand faults that are all
  // supplied gives different pages different frames; none of them is a frame of
  // the kernel, of the bitmap or of the first megabyte, none is mapped anywhere by
  // the boot tables, and none holds a page table.  Any other run maps some page
  // to frame 0.
  lemma DemandPagesIsolated(total: nat, pd: nat, boot: Vm, kept: nat, addresses: seq<u32>, q: nat, r: nat)
    requires Tables(boot.mem, pd, boot.used) && total <= PAGES && OutsideWindow(addresses)
    requires InitiallyMapped(boot.mem, pd, kept) && kept <= ENTRIES && boot.used == Run(0, KERNEL_FRAME + kept)
    requires Faults(total, pd, boot, addresses).Some?
    ensures var b := Faults(total, pd, boot, addresses).value;
            && (Supplied(total, pd, boot, addresses) && Gained(boot.mem, b.mem, pd, q) ==>
                  var f := Walk(b.mem, pd, q).value.frame;
                  && f >= 0x1000 && f >= KERNEL_FRAME + kept && !HoldsTable(b.mem, pd, f)
                  && (r < WINDOW * ENTRIES && q != r && Walk(b.mem, pd, r).Some? ==>
                        Walk(b.mem, pd, r).value.frame != f))
            && (r < WINDOW * ENTRIES && Walk(boot.mem, pd, r).Some? ==> Walk(b.mem, pd, r) == Walk(boot.mem, pd, r))
            && (!Supplied(total, pd, boot, addresses) ==>
                  exists z :: Gained(boot.mem, b.mem, pd, z) && Walk(b.mem, pd, z).value.frame == 0)
  {
    assert Isolated(boot, boot, pd);
    FaultsIsolate(total, pd, boot, boot, addresses);
    RunHas(0, KERNEL_FRAME + kept);
    hide Walk, Tables, Grant, Faults, Supplied;
    var b := Faults(total, pd, boot, addresses).value;
    if r < WINDOW * ENTRIES {
      FaultsKeep(total, pd, boot, addresses, r);
    }
    if !Supplied(total, pd, boot, addresses) {
      Unsupplied(total, pd, boot, boot, addresses);
    } else if Gained(boot.mem, b.mem, pd, q) && r < WINDOW * ENTRIES && q != r && Walk(b.mem, pd, r).Some? {
      if Walk(boot.mem, pd, r) == None {
        assert Gained(boot.mem, b.mem, pd, r);
      }
    }
  }
}
