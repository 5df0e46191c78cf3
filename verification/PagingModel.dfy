// __map_page and __unmap_page (cpu/page.c) as steps on physical memory and the set
// of used frames.

module PagingModel {
  import opened Words
  import opened Options
  import opened Frames
  import opened Mmu

  datatype Vm = Vm(mem: Phys, used: set<nat>)

  // Halted stands for the panic when no frame is left for a new table.
  datatype MapResult = Mapped(vm: Vm) | Refused(vm: Vm) | Halted

  // The frame alloc_pages(1, ZONE_NORMAL) hands out.
  function Grant(total: nat, used: set<nat>): Option<nat> {
    Chosen(InitialZones(total), total, used, 1, ZONE_NORMAL)
  }

  const RIGHTS := P_PRESENT + P_WRITE + P_USER

  function Existing(vm: Vm, pd: nat, v: u32): u32
    requires pd < PAGES
  {
    Entry(vm.mem, FrameOf(Pde(vm.mem, pd, VaddrPde(v))), VaddrPte(v))
  }

  function MapPage(total: nat, pd: nat, vm: Vm, p: u32, v: u32): MapResult
    requires pd < PAGES && total <= PAGES
  {
    var page, d := v / PAGE, VaddrPde(v);
    if p % PAGE != 0 || v % PAGE != 0 then Refused(vm)
    else if Pde(vm.mem, pd, d) == 0 then
      match Grant(total, vm.used)
      case None => Halted
      case Some(f) =>
        GrantFacts(total, vm.used);
        Mapped(Vm(SetPte(NewTable(vm.mem, pd, d, f), pd, page, p + RIGHTS), vm.used + {f}))
    else if Existing(vm, pd, v) != 0 then Refused(vm)
    else Mapped(vm.(mem := SetPte(vm.mem, pd, page, p + RIGHTS)))
  }

  // The state once the slot of v has a table.
  function WithTable(total: nat, pd: nat, vm: Vm, v: u32): Option<Vm>
    requires pd < PAGES && total <= PAGES
  {
    if Pde(vm.mem, pd, VaddrPde(v)) != 0 then Some(vm) else
      match Grant(total, vm.used)
      case None => None
      case Some(f) =>
        GrantFacts(total, vm.used);
        Some(Vm(NewTable(vm.mem, pd, VaddrPde(v), f), vm.used + {f}))
  }

  // The order of the code: first make sure there is a table, then look at the
  // entry, which in a fresh table is always free.
  lemma MapViaTable(total: nat, pd: nat, vm: Vm, p: u32, v: u32)
    requires Tables(vm.mem, pd, vm.used) && total <= PAGES && VaddrPde(v) != WINDOW
    requires p % PAGE == 0 && v % PAGE == 0
    ensures MapPage(total, pd, vm, p, v) ==
            match WithTable(total, pd, vm, v)
            case None => Halted
            case Some(w) =>
              if Existing(w, pd, v) != 0 then Refused(w) else Mapped(w.(mem := SetPte(w.mem, pd, v / PAGE, p + RIGHTS)))
    ensures WithTable(total, pd, vm, v).Some? ==>
              var w := WithTable(total, pd, vm, v).value;
              Tables(w.mem, pd, w.used) && Pde(w.mem, pd, VaddrPde(v)) != 0 && Present(Pde(w.mem, pd, VaddrPde(v)))
  {
    if Pde(vm.mem, pd, VaddrPde(v)) == 0 {
      if Grant(total, vm.used).Some? {
        GrantFacts(total, vm.used);
        var f := Grant(total, vm.used).value;
        TableBits(f);
        NewTableWalk(vm.mem, pd, vm.used, VaddrPde(v), f, VaddrPte(v));
      }
    } else {
      assert TableAt(vm.mem, pd, VaddrPde(v), vm.used);
    }
  }

  lemma GrantFacts(total: nat, used: set<nat>)
    ensures var g := Grant(total, used);
            g.Some? ==> 0x1000 <= g.value < total && g.value !in used
  {
    var zones := InitialZones(total);
    assert !zones[0].Serves(ZONE_NORMAL) && zones[1].Serves(ZONE_NORMAL);
    assert FirstZone(zones, ZONE_NORMAL, 0) == FirstZone(zones, ZONE_NORMAL, 1) == 1;
  }

  // The directory slot of the fresh table, seen through the window.
  function TablePage(v: u32): nat {
    WINDOW * ENTRIES + VaddrPde(v)
  }

  // A mapped page translates to the frame it was given, and did not translate
  // before.  No other page changes, except that a fresh table appears in its own
  // window slot.
  lemma MapTranslates(total: nat, pd: nat, vm: Vm, p: u32, v: u32, q: nat)
    requires Tables(vm.mem, pd, vm.used) && total <= PAGES && q < PAGES && VaddrPde(v) != WINDOW
    requires MapPage(total, pd, vm, p, v).Mapped?
    ensures var n := MapPage(total, pd, vm, p, v).vm;
            && Tables(n.mem, pd, n.used) && vm.used <= n.used
            && (q == v / PAGE ==>
                  && Walk(vm.mem, pd, q) == None
                  && Walk(n.mem, pd, q) == Some(Leaf(p / PAGE, true, User(Pde(vm.mem, pd, VaddrPde(v))))))
            && (q != v / PAGE && (q != TablePage(v) || Pde(vm.mem, pd, VaddrPde(v)) != 0) ==>
                  Walk(n.mem, pd, q) == Walk(vm.mem, pd, q))
            && (q == TablePage(v) && Pde(vm.mem, pd, VaddrPde(v)) == 0 ==> Walk(vm.mem, pd, q) == None)
  {
    hide Walk, Tables, NewTable, SetPte, Chosen, Present, Writable, User, FrameOf, VaddrPde, VaddrPte;
    var page, d, e := v / PAGE, VaddrPde(v), p + RIGHTS;
    SplitPage(v);
    UsedDirectory(vm, pd);
    EntryBits(p);
    if Pde(vm.mem, pd, d) == 0 {
      GrantFacts(total, vm.used);
      var f := Grant(total, vm.used).value;
      TableBits(f);
      EmptySlot(vm.mem, pd, page);
      NewTableWalk(vm.mem, pd, vm.used, d, f, q);
      SetPteWalk(NewTable(vm.mem, pd, d, f), pd, vm.used + {f}, page, e, q);
    } else {
      NotMapped(vm.mem, pd, vm.used, v);
      SetPteWalk(vm.mem, pd, vm.used, page, e, q);
    }
  }

  lemma EmptySlot(m: Phys, pd: nat, q: nat)
    requires pd < PAGES && q < PAGES && Pde(m, pd, q / ENTRIES) == 0
    ensures Walk(m, pd, q) == None
  {
  }

  // An entry of 0 in an existing table translates to nothing.
  lemma NotMapped(m: Phys, pd: nat, used: set<nat>, v: u32)
    requires Tables(m, pd, used) && VaddrPde(v) != WINDOW && Pde(m, pd, VaddrPde(v)) != 0
    requires Existing(Vm(m, used), pd, v) == 0
    ensures pd < PAGES && Present(Pde(m, pd, VaddrPde(v))) && Walk(m, pd, v / PAGE) == None
  {
    SplitPage(v);
    assert TableAt(m, pd, VaddrPde(v), used);
  }

  lemma Quotients(q: nat, r: nat)
    ensures r < 2 ==> (2 * q + r) / 2 == q && (2 * q + r) % 2 == r
    ensures r < 4 ==> (4 * q + r) / 4 == q
    ensures r < PAGE ==> (PAGE * q + r) / PAGE == q
  {
  }

  lemma EntryWord(f: nat)
    ensures var e := PAGE * f + RIGHTS; e % 2 == 1 && e / 2 % 2 == 1 && e / 4 % 2 == 1 && e / PAGE == f
  {
    Quotients(2048 * f + 3, 1);
    Quotients(1024 * f + 1, 3);
    Quotients(1024 * f + 1, 1);
    Quotients(512 * f, 1);
    Quotients(f, RIGHTS);
  }

  lemma EntryBits(p: u32)
    requires p % PAGE == 0
    ensures p + RIGHTS < WORD_SIZE && Present(p + RIGHTS) && Writable(p + RIGHTS) && User(p + RIGHTS)
    ensures FrameOf(p + RIGHTS) == p / PAGE
  {
    EntryWord(p / PAGE);
  }

  // The directory entry of a fresh table grants no access to user mode.
  lemma TableBits(f: nat)
    requires f < PAGES
    ensures var e := f * PAGE + P_PRESENT + P_WRITE;
            e != 0 && FrameOf(e) == f && Present(e) && Writable(e) && !User(e) && !User(0)
  {
    assert (f * PAGE + P_PRESENT + P_WRITE) / 4 == 2 * (f * 512);
  }

  // Mapping is refused exactly when an address is not page aligned or the entry
  // is already in use, and it stops the machine exactly when it needs a table
  // and the zone has no frame left.
  lemma MapRefused(total: nat, pd: nat, vm: Vm, p: u32, v: u32)
    requires pd < PAGES && total <= PAGES
    ensures MapPage(total, pd, vm, p, v).Refused? <==>
              || p % PAGE != 0 || v % PAGE != 0
              || (Pde(vm.mem, pd, VaddrPde(v)) != 0 && Existing(vm, pd, v) != 0)
    ensures MapPage(total, pd, vm, p, v).Refused? ==> MapPage(total, pd, vm, p, v).vm == vm
    ensures MapPage(total, pd, vm, p, v).Halted? <==>
              p % PAGE == 0 && v % PAGE == 0 && Pde(vm.mem, pd, VaddrPde(v)) == 0 && Grant(total, vm.used) == None
  {
  }

  // Every entry that is in use is present: nothing else is ever stored.
  ghost predicate Clean(m: Phys, pd: nat)
    requires pd < PAGES
  {
    forall q | 0 <= q < WINDOW * ENTRIES && Pde(m, pd, q / ENTRIES) != 0 && EntryOf(m, pd, q) != 0 ::
      Present(EntryOf(m, pd, q))
  }

  // The table entry of a page whose slot has a table.
  function EntryOf(m: Phys, pd: nat, q: nat): u32
    requires pd < PAGES && q < PAGES
  {
    Entry(m, FrameOf(Pde(m, pd, q / ENTRIES)), q % ENTRIES)
  }

  // A page that translates is never mapped again: the call is refused, and no
  // translation and no used frame changes.  Where only present entries are ever
  // stored, an aligned call is refused for no other reason.
  lemma MapRefuses(total: nat, pd: nat, vm: Vm, p: u32, v: u32, q: nat)
    requires Tables(vm.mem, pd, vm.used) && total <= PAGES && VaddrPde(v) != WINDOW && q < PAGES
    ensures var r := MapPage(total, pd, vm, p, v); var mapped := Walk(vm.mem, pd, v / PAGE).Some?;
            && (mapped ==> r.Refused?)
            && (r.Refused? ==> Walk(r.vm.mem, pd, q) == Walk(vm.mem, pd, q) && r.vm.used == vm.used)
            && (Clean(vm.mem, pd) && p % PAGE == 0 && v % PAGE == 0 ==> (r.Refused? <==> mapped))
            && (r.Halted? ==> !mapped && Grant(total, vm.used) == None)
  {
    SplitPage(v);
    var d := VaddrPde(v);
    if Pde(vm.mem, pd, d) != 0 {
      assert TableAt(vm.mem, pd, d, vm.used);
      assert Existing(vm, pd, v) == EntryOf(vm.mem, pd, v / PAGE);
      ZeroBits();
    } else {
      ZeroBits();
    }
  }

  lemma ZeroBits()
    ensures !Present(0)
  {
  }

  // Mapping and unmapping store no other entries.
  lemma MapKeepsClean(total: nat, pd: nat, vm: Vm, p: u32, v: u32)
    requires Tables(vm.mem, pd, vm.used) && Clean(vm.mem, pd) && total <= PAGES
    requires VaddrPde(v) != WINDOW && MapPage(total, pd, vm, p, v).Mapped?
    ensures Clean(MapPage(total, pd, vm, p, v).vm.mem, pd)
  {
    var d := VaddrPde(v);
    EntryBits(p);
    SplitPage(v);
    hide Walk, Tables, NewTable, SetPte, Chosen, Present, FrameOf;
    if Pde(vm.mem, pd, d) == 0 {
      GrantFacts(total, vm.used);
      var f := Grant(total, vm.used).value;
      UsedDirectory(vm, pd);
      TableBits(f);
      NewTableWalk(vm.mem, pd, vm.used, d, f, 0);
      NewTableClean(vm.mem, pd, vm.used, d, f);
      SetPteClean(NewTable(vm.mem, pd, d, f), pd, vm.used + {f}, v / PAGE, p + RIGHTS);
    } else {
      SetPteClean(vm.mem, pd, vm.used, v / PAGE, p + RIGHTS);
    }
  }

  lemma UnmapKeepsClean(pd: nat, vm: Vm, v: u32)
    requires Tables(vm.mem, pd, vm.used) && Clean(vm.mem, pd)
    requires VaddrPde(v) != WINDOW && Pde(vm.mem, pd, VaddrPde(v)) != 0
    ensures Clean(UnmapPage(pd, vm, v).mem, pd)
  {
    SplitPage(v);
    if v != 0 {
      SetPteClean(vm.mem, pd, vm.used, v / PAGE, 0);
    }
  }

  lemma SetPteClean(m: Phys, pd: nat, used: set<nat>, page: nat, e: u32)
    requires Tables(m, pd, used) && Clean(m, pd) && page < WINDOW * ENTRIES && Pde(m, pd, page / ENTRIES) != 0
    requires e == 0 || Present(e)
    ensures Clean(SetPte(m, pd, page, e), pd)
  {
    var n := SetPte(m, pd, page, e);
    SetPteWalk(m, pd, used, page, e, page);
    hide Walk;
    forall q | 0 <= q < WINDOW * ENTRIES && Pde(n, pd, q / ENTRIES) != 0
      ensures EntryOf(n, pd, q) == if q == page then e else EntryOf(m, pd, q)
    {
      assert Pde(m, pd, q / ENTRIES) == Pde(n, pd, q / ENTRIES);
      if q != page {
        assert TableAt(m, pd, q / ENTRIES, used);
        SameEntry(m, pd, used, page, q);
      }
    }
    hide SetPte, EntryOf, FrameOf;
  }

  lemma NewTableClean(m: Phys, pd: nat, used: set<nat>, d: nat, f: nat)
    requires Tables(m, pd, used) && Clean(m, pd) && d < WINDOW && Pde(m, pd, d) == 0 && f < PAGES && f !in used
    ensures Clean(NewTable(m, pd, d, f), pd)
  {
    var n := NewTable(m, pd, d, f);
    assert pd in used;
    NewTableEntries(m, pd, d, f);
    TableBits(f);
    hide NewTable, Walk;
    forall q | 0 <= q < WINDOW * ENTRIES && Pde(n, pd, q / ENTRIES) != 0
      ensures EntryOf(n, pd, q) == if q / ENTRIES == d then 0 else EntryOf(m, pd, q)
    {
      if q / ENTRIES != d {
        assert TableAt(m, pd, q / ENTRIES, used);
      }
    }
    hide EntryOf;
  }

  // ----- Unmapping -----

  // The test of __unmap_page is always true, so it always clears the entry.
  function UnmapPage(pd: nat, vm: Vm, v: u32): Vm
    requires pd < PAGES
  {
    if v == 0 then vm else vm.(mem := SetPte(vm.mem, pd, v / PAGE, 0))
  }

  lemma UnmapWalk(pd: nat, vm: Vm, v: u32, q: nat)
    requires Tables(vm.mem, pd, vm.used) && q < PAGES
    requires VaddrPde(v) != WINDOW && Pde(vm.mem, pd, VaddrPde(v)) != 0 && v != 0
    ensures Tables(UnmapPage(pd, vm, v).mem, pd, vm.used)
    ensures Walk(UnmapPage(pd, vm, v).mem, pd, q) == if q == v / PAGE then None else Walk(vm.mem, pd, q)
  {
    assert v / PAGE / ENTRIES == VaddrPde(v);
    SetPteWalk(vm.mem, pd, vm.used, v / PAGE, 0, q);
  }

  // Mapping and then unmapping an address restores every translation outside
  // the window.
  lemma MapUnmapRestores(total: nat, pd: nat, vm: Vm, p: u32, v: u32, q: nat)
    requires Tables(vm.mem, pd, vm.used) && total <= PAGES && q < WINDOW * ENTRIES
    requires VaddrPde(v) != WINDOW && v != 0 && MapPage(total, pd, vm, p, v).Mapped?
    ensures Walk(UnmapPage(pd, MapPage(total, pd, vm, p, v).vm, v).mem, pd, q) == Walk(vm.mem, pd, q)
  {
    MapTranslates(total, pd, vm, p, v, q);
    MapKeepsSlot(total, pd, vm, p, v);
    UnmapWalk(pd, MapPage(total, pd, vm, p, v).vm, v, q);
  }

  // Which tables hang in the directory afterwards: the same ones, and at most the
  // fresh one under the slot of v.
  lemma MapSlot(total: nat, pd: nat, vm: Vm, p: u32, v: u32, e: nat)
    requires Tables(vm.mem, pd, vm.used) && total <= PAGES && e < ENTRIES
    requires VaddrPde(v) != WINDOW && MapPage(total, pd, vm, p, v).Mapped?
    ensures var n, d := MapPage(total, pd, vm, p, v).vm.mem, VaddrPde(v);
            if e == d && Pde(vm.mem, pd, d) == 0
            then Grant(total, vm.used).Some? &&
                 Pde(n, pd, e) == Grant(total, vm.used).value * PAGE + P_PRESENT + P_WRITE
            else Pde(n, pd, e) == Pde(vm.mem, pd, e)
  {
    UsedDirectory(vm, pd);
    SplitPage(v);
    hide Walk, Tables, NewTable, SetPte, Chosen, FrameOf, VaddrPde, VaddrPte, Present, Writable, User;
    var page, d := v / PAGE, VaddrPde(v);
    var f := Grant(total, vm.used);
    if Pde(vm.mem, pd, d) != 0 {
      SetPteWalk(vm.mem, pd, vm.used, page, p + RIGHTS, page);
    } else {
      GrantFacts(total, vm.used);
      FreshSlot(vm, pd, v, f.value, p + RIGHTS, e);
    }
  }

  lemma FreshSlot(vm: Vm, pd: nat, v: u32, f: nat, e: u32, c: nat)
    requires Tables(vm.mem, pd, vm.used) && VaddrPde(v) != WINDOW && Pde(vm.mem, pd, VaddrPde(v)) == 0
    requires f < PAGES && f !in vm.used && c < ENTRIES
    ensures pd < PAGES && v / PAGE < PAGES && VaddrPde(v) < ENTRIES
    ensures Pde(SetPte(NewTable(vm.mem, pd, VaddrPde(v), f), pd, v / PAGE, e), pd, c) ==
            if c == VaddrPde(v) then f * PAGE + P_PRESENT + P_WRITE else Pde(vm.mem, pd, c)
  {
    UsedDirectory(vm, pd);
    SplitPage(v);
    hide Walk, Tables, NewTable, SetPte, FrameOf, VaddrPde, VaddrPte, Present, Writable, User;
    var d := VaddrPde(v);
    TableBits(f);
    NewTableEntries(vm.mem, pd, d, f);
    NewTableTables(vm.mem, pd, vm.used, d, f);
    SetPteWalk(NewTable(vm.mem, pd, d, f), pd, vm.used + {f}, v / PAGE, e, v / PAGE);
  }

  lemma MapKeepsSlot(total: nat, pd: nat, vm: Vm, p: u32, v: u32)
    requires Tables(vm.mem, pd, vm.used) && total <= PAGES
    requires VaddrPde(v) != WINDOW && MapPage(total, pd, vm, p, v).Mapped?
    ensures var n, d := MapPage(total, pd, vm, p, v).vm, VaddrPde(v);
            && Pde(n.mem, pd, d) != 0
            && (forall e | 0 <= e < ENTRIES && (e != d || Pde(vm.mem, pd, d) != 0) ::
                  Pde(n.mem, pd, e) == Pde(vm.mem, pd, e))
            && (Pde(vm.mem, pd, d) == 0 ==>
                  Grant(total, vm.used).Some? && FrameOf(Pde(n.mem, pd, d)) == Grant(total, vm.used).value)
  {
    UsedDirectory(vm, pd);
    var n, d := MapPage(total, pd, vm, p, v).vm.mem, VaddrPde(v);
    hide Tables, MapPage, Chosen, FrameOf;
    SplitPage(v);
    forall e | 0 <= e < ENTRIES && (e != d || Pde(vm.mem, pd, d) != 0) ensures Pde(n, pd, e) == Pde(vm.mem, pd, e) {
      MapSlot(total, pd, vm, p, v, e);
    }
    MapSlot(total, pd, vm, p, v, d);
    if Pde(vm.mem, pd, d) == 0 {
      GrantFacts(total, vm.used);
      TableBits(Grant(total, vm.used).value);
    }
  }

  lemma UsedDirectory(vm: Vm, pd: nat)
    requires Tables(vm.mem, pd, vm.used)
    ensures pd < PAGES && pd in vm.used
  {
  }

  // __map_page does not refuse an address inside the window.  There it installs p
  // as a page table, and the promise that nothing else changes then holds exactly
  // when the words of that frame happen to hold no present entry beforehand.
  lemma MapInWindow(total: nat, pd: nat, vm: Vm, p: u32, v: u32)
    requires Tables(vm.mem, pd, vm.used) && total <= PAGES
    requires VaddrPde(v) == WINDOW && VaddrPte(v) != WINDOW && MapPage(total, pd, vm, p, v).Mapped?
    ensures (forall q | 0 <= q < WINDOW * ENTRIES ::
               Walk(MapPage(total, pd, vm, p, v).vm.mem, pd, q) == Walk(vm.mem, pd, q))
            <==> (forall i | 0 <= i < ENTRIES :: !Present(Entry(vm.mem, p / PAGE, i)))
  {
    var n, t := MapPage(total, pd, vm, p, v).vm.mem, VaddrPte(v);
    forall q | 0 <= q < WINDOW * ENTRIES
      ensures q / ENTRIES != t ==> Walk(n, pd, q) == Walk(vm.mem, pd, q)
      ensures q / ENTRIES == t ==> Walk(vm.mem, pd, q) == None
      ensures q / ENTRIES == t ==> (Walk(n, pd, q) == None <==> !Present(Entry(n, p / PAGE, q % ENTRIES)))
    {
      WindowSlot(total, pd, vm, p, v, q);
    }
    WindowFrame(total, pd, vm, p, v);
    hide Walk, Tables, Present, MapPage;
    if forall q | 0 <= q < WINDOW * ENTRIES :: Walk(n, pd, q) == Walk(vm.mem, pd, q) {
      forall i | 0 <= i < ENTRIES ensures !Present(Entry(n, p / PAGE, i)) {
        var q := t * ENTRIES + i;
        assert q / ENTRIES == t && q % ENTRIES == i;
        assert Walk(n, pd, q) == Walk(vm.mem, pd, q);
      }
    }
  }

  // The pages of the slot that v fills, and all others.
  lemma WindowSlot(total: nat, pd: nat, vm: Vm, p: u32, v: u32, q: nat)
    requires Tables(vm.mem, pd, vm.used) && total <= PAGES && q < WINDOW * ENTRIES
    requires VaddrPde(v) == WINDOW && VaddrPte(v) != WINDOW && MapPage(total, pd, vm, p, v).Mapped?
    ensures var n, t := MapPage(total, pd, vm, p, v).vm.mem, VaddrPte(v);
            && (q / ENTRIES != t ==> Walk(n, pd, q) == Walk(vm.mem, pd, q))
            && (q / ENTRIES == t ==> Walk(vm.mem, pd, q) == None)
            && (q / ENTRIES == t ==> (Walk(n, pd, q) == None <==> !Present(Entry(n, p / PAGE, q % ENTRIES))))
  {
    WindowStore(total, pd, vm, p, v);
    EntryBits(p);
    hide MapPage;
    var e := q / ENTRIES;
    if e != VaddrPte(v) && Pde(vm.mem, pd, e) != 0 {
      assert TableAt(vm.mem, pd, e, vm.used);
    }
  }

  // The store that such a mapping is: into the directory itself.
  lemma WindowStore(total: nat, pd: nat, vm: Vm, p: u32, v: u32)
    requires Tables(vm.mem, pd, vm.used) && total <= PAGES
    requires VaddrPde(v) == WINDOW && VaddrPte(v) != WINDOW && MapPage(total, pd, vm, p, v).Mapped?
    ensures Pde(vm.mem, pd, VaddrPte(v)) == 0 && p % PAGE == 0
    ensures MapPage(total, pd, vm, p, v).vm.mem == vm.mem[pd * ENTRIES + VaddrPte(v) := p + RIGHTS]
  {
    SplitPage(v);
    EntryBits(p);
  }

  // Whether the frame holds a present entry is the same before and after.
  lemma WindowFrame(total: nat, pd: nat, vm: Vm, p: u32, v: u32)
    requires Tables(vm.mem, pd, vm.used) && total <= PAGES
    requires VaddrPde(v) == WINDOW && VaddrPte(v) != WINDOW && MapPage(total, pd, vm, p, v).Mapped?
    ensures (forall i | 0 <= i < ENTRIES :: !Present(Entry(MapPage(total, pd, vm, p, v).vm.mem, p / PAGE, i)))
            <==> (forall i | 0 <= i < ENTRIES :: !Present(Entry(vm.mem, p / PAGE, i)))
  {
    var n, f := MapPage(total, pd, vm, p, v).vm.mem, p / PAGE;
    WindowStore(total, pd, vm, p, v);
    hide MapPage, Walk;
    if f == pd {
      assert Present(Entry(vm.mem, f, WINDOW)) && Entry(n, f, WINDOW) == Entry(vm.mem, f, WINDOW);
    } else {
      assert forall i | 0 <= i < ENTRIES :: Entry(n, f, i) == Entry(vm.mem, f, i);
    }
  }

  // Two frames of tables: a directory in frame 1, with itself in the last slot and
  // the table in frame 2 in the first, whose entry 5 maps frame 7.
  function SmallMemory(): Phys {
    seq(PHYS_WORDS, i => if i == ENTRIES then 2 * PAGE + RIGHTS
                         else if i == ENTRIES + WINDOW then PAGE + RIGHTS
                         else if i == 2 * ENTRIES + 5 then 7 * PAGE + RIGHTS
                         else 0)
  }

  lemma SmallTables(used: set<nat>)
    requires 1 in used && 2 in used
    ensures Tables(SmallMemory(), 1, used)
    ensures Pde(SmallMemory(), 1, 0) == 2 * PAGE + RIGHTS && Pde(SmallMemory(), 1, 7) == 0
    ensures Entry(SmallMemory(), 2, 5) == 7 * PAGE + RIGHTS && Entry(SmallMemory(), 2, 6) == 0
  {
    var m := SmallMemory();
    EntryBits(2 * PAGE);
    EntryBits(PAGE);
    assert forall d | 0 <= d < ENTRIES ::
        Pde(m, 1, d) == if d == 0 then 2 * PAGE + RIGHTS else if d == WINDOW then PAGE + RIGHTS else 0;
    assert TableAt(m, 1, 0, used);
  }

  // There, mapping frame 2 at the window page of slot 7 makes page 7 * 1024 + 5
  // appear, which nobody asked for.
  lemma MapInWindowExample(total: nat)
    requires total <= PAGES
    ensures var vm := Vm(SmallMemory(), {1, 2}); var v := (WINDOW * ENTRIES + 7) * PAGE; var q := 7 * ENTRIES + 5;
            var r := MapPage(total, 1, vm, 2 * PAGE, v);
            && r.Mapped? && q != v / PAGE
            && Walk(vm.mem, 1, q) == None && Walk(r.vm.mem, 1, q) == Some(Leaf(7, true, true))
  {
    var m, vm := SmallMemory(), Vm(SmallMemory(), {1, 2});
    var v: u32 := (WINDOW * ENTRIES + 7) * PAGE;
    SmallTables(vm.used);
    SplitPage(v);
    EntryBits(PAGE);
    EntryBits(2 * PAGE);
    EntryBits(7 * PAGE);
    assert VaddrPde(v) == WINDOW && VaddrPte(v) == 7;
    assert Pde(m, 1, WINDOW) == PAGE + RIGHTS;
    hide SmallMemory, Tables;
    assert Existing(vm, 1, v) == 0;
    var n := MapPage(total, 1, vm, 2 * PAGE, v).vm.mem;
    assert n == m[ENTRIES + 7 := 2 * PAGE + RIGHTS];
    assert Pde(n, 1, 7) == 2 * PAGE + RIGHTS && Entry(n, 2, 5) == 7 * PAGE + RIGHTS;
    ZeroBits();
    hide FrameOf, Present, Writable, User, VaddrPde, VaddrPte;
  }

  lemma TablesMono(m: Phys, pd: nat, used: set<nat>, more: set<nat>)
    requires Tables(m, pd, used) && used <= more
    ensures Tables(m, pd, more)
  {
    forall d | 0 <= d < WINDOW && Pde(m, pd, d) != 0 ensures TableAt(m, pd, d, more) {
      assert TableAt(m, pd, d, used);
    }
  }

  // ----- Word by word -----

  // Which frame is granted: the lowest unused one from 16 MB up to 880 MB, or the
  // end of memory.
  lemma GrantLowest(total: nat, used: set<nat>)
    ensures var hi := if total < 0x36fff then total else 0x36fff;
            match Grant(total, used)
            case Some(k) => 0x1000 <= k < hi && k !in used && forall j: nat | 0x1000 <= j < k :: j in used
            case None => forall j: nat | 0x1000 <= j < hi :: j in used
  {
    ZoneRequested(total, ZONE_NORMAL);
    ChosenComplete(InitialZones(total), total, used, 1, ZONE_NORMAL);
    forall j: nat ensures FreeRun(used, j, 1) <==> j !in used {
    }
    hide FirstZone, InitialZones;
    if Grant(total, used).Some? {
      ChosenLeftmost(InitialZones(total), total, used, 1, ZONE_NORMAL, Grant(total, used).value);
    }
    hide Chosen;
  }

  // The first frame handed out after boot with 32 MB is the one at 16 MB.
  lemma FirstGrant(n: nat)
    requires n <= 0x1000
    ensures Grant(32 * 1024 / 4, Run(0, n)) == Some(0x100_0000 / 0x1000)
  {
    RunHas(0, n);
    assert 0x1000 !in Run(0, n);
    GrantLowest(0x2000, Run(0, n));
    hide Chosen, Run;
  }

  // What __map_page writes: one word of the page's table, the frame's address with
  // present, write and user rights; and where there was no table, a fresh one with
  // all other words zero, and its address with present and write rights.
  lemma MapWords(total: nat, pd: nat, vm: Vm, p: u32, v: u32, i: nat)
    requires Tables(vm.mem, pd, vm.used) && total <= PAGES && i < PHYS_WORDS && VaddrPde(v) != WINDOW
    requires MapPage(total, pd, vm, p, v).Mapped?
    ensures var n := MapPage(total, pd, vm, p, v).vm; var slot := pd * 1024 + v / 0x40_0000; var e := v / 0x1000 % 1024;
            if vm.mem[slot] != 0 then
              && n.used == vm.used
              && n.mem[i] == if i == vm.mem[slot] / 0x1000 * 1024 + e then p + 7 else vm.mem[i]
            else
              && Grant(total, vm.used).Some?
              && var f := Grant(total, vm.used).value;
                 && n.used == vm.used + {f}
                 && n.mem[i] == if i == f * 1024 + e then p + 7 else if i / 1024 == f then 0
                                else if i == slot then f * 0x1000 + 3 else vm.mem[i]
  {
    SplitPage(v);
    EntryBits(p);
    if Pde(vm.mem, pd, VaddrPde(v)) == 0 {
      GrantFacts(total, vm.used);
      UsedDirectory(vm, pd);
      TableBits(Grant(total, vm.used).value);
    }
    hide Chosen;
  }

  // What __unmap_page writes: one zero, and nothing for address 0.
  lemma UnmapWords(pd: nat, vm: Vm, v: u32)
    requires pd < PAGES
    ensures UnmapPage(pd, vm, v).used == vm.used
    ensures v == 0 ==> UnmapPage(pd, vm, v) == vm
    ensures v != 0 ==>
              UnmapPage(pd, vm, v).mem ==
              vm.mem[vm.mem[pd * 1024 + v / 0x40_0000] / 0x1000 * 1024 + v / 0x1000 % 1024 := 0]
  {
    SplitPage(v);
  }
}
