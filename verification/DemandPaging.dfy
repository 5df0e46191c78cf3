// page_fault (cpu/handler.c) as a step on physical memory and the set of used
// frames, and what any run of demand faults achieves.

module DemandPaging {
  import opened Words
  import opened Options
  import opened Frames
  import opened Mmu
  import opened PagingModel

  // page_fault: a frame, or the unchecked 0 when there is none, is mapped at the
  // base of the faulting page.  The frame stays used even if mapping is refused.
  function Fault(total: nat, pd: nat, vm: Vm, address: u32): MapResult
    requires pd < PAGES && total <= PAGES
  {
    var base: u32 := PageStart(address);
    match Grant(total, vm.used)
    case None => MapPage(total, pd, vm, 0, base)
    case Some(k) =>
      GrantFacts(total, vm.used);
      MapPage(total, pd, vm.(used := vm.used + {k}), k * PAGE, base)
  }

  // The state in which page_fault maps, and the frame it maps.
  lemma FaultMaps(total: nat, pd: nat, vm: Vm, address: u32, w: Vm, phys: u32)
    requires pd < PAGES && total <= PAGES
    requires match Grant(total, vm.used)
             case Some(k) => phys == k * PAGE && w == vm.(used := vm.used + {k})
             case None => phys == 0 && w == vm
    ensures Fault(total, pd, vm, address) == MapPage(total, pd, w, phys, PageStart(address))
  {
    hide Chosen, MapPage;
  }

  // Any number of faults; None once the machine has halted.
  ghost function Faults(total: nat, pd: nat, vm: Vm, addresses: seq<u32>): Option<Vm>
    requires pd < PAGES && total <= PAGES
    decreases |addresses|
  {
    if addresses == [] then Some(vm) else
      match Fault(total, pd, vm, addresses[0])
      case Halted => None
      case Mapped(n) => Faults(total, pd, n, addresses[1..])
      case Refused(n) => Faults(total, pd, n, addresses[1..])
  }

  ghost predicate OutsideWindow(addresses: seq<u32>) {
    forall i | 0 <= i < |addresses| :: VaddrPde(addresses[i]) != WINDOW
  }

  // A page outside the window that translates in n but not in m.
  ghost predicate Gained(m: Phys, n: Phys, pd: nat, q: nat)
    requires pd < PAGES
  {
    q < WINDOW * ENTRIES && Walk(m, pd, q) == None && Walk(n, pd, q).Some?
  }

  // A frame that holds the page directory or a page table.
  ghost predicate HoldsTable(m: Phys, pd: nat, f: nat)
    requires pd < PAGES
  {
    f == pd || exists d | 0 <= d < WINDOW :: Pde(m, pd, d) != 0 && FrameOf(Pde(m, pd, d)) == f
  }

  // What demand paging has achieved between two states.
  ghost predicate Isolated(a: Vm, b: Vm, pd: nat)
    requires pd < PAGES
  {
    && a.used <= b.used
    && (forall q | 0 <= q < PAGES && Walk(a.mem, pd, q).Some? :: Walk(b.mem, pd, q) == Walk(a.mem, pd, q))
    && (forall q: nat | Gained(a.mem, b.mem, pd, q) ::
          var f := Walk(b.mem, pd, q).value.frame;
          0x1000 <= f && f in b.used && f !in a.used && !HoldsTable(b.mem, pd, f))
    && (forall q: nat, r: nat | Gained(a.mem, b.mem, pd, q) && Gained(a.mem, b.mem, pd, r) && q != r ::
          Walk(b.mem, pd, q).value.frame != Walk(b.mem, pd, r).value.frame)
  }

  // The frames that hold tables after a mapping held them before, or the one
  // fresh frame does; all held ones are used.
  lemma MapHolds(total: nat, pd: nat, vm: Vm, p: u32, v: u32, f: nat)
    requires Tables(vm.mem, pd, vm.used) && total <= PAGES
    requires VaddrPde(v) != WINDOW && MapPage(total, pd, vm, p, v).Mapped?
    requires HoldsTable(MapPage(total, pd, vm, p, v).vm.mem, pd, f)
    ensures HoldsTable(vm.mem, pd, f) || f !in vm.used
    ensures HoldsTable(vm.mem, pd, f) ==> f in vm.used
  {
    var n := MapPage(total, pd, vm, p, v).vm;
    MapKeepsSlot(total, pd, vm, p, v);
    if Pde(vm.mem, pd, VaddrPde(v)) == 0 {
      GrantFacts(total, vm.used);
    }
    if f != pd {
      var d :| 0 <= d < WINDOW && Pde(n.mem, pd, d) != 0 && FrameOf(Pde(n.mem, pd, d)) == f;
      if Pde(vm.mem, pd, d) != 0 {
        assert TableAt(vm.mem, pd, d, vm.used);
      }
    }
  }

  // One demand fault, page by page.
  lemma FaultPage(total: nat, pd: nat, a: Vm, vm: Vm, k: nat, p: u32, v: u32, q: nat)
    requires Tables(vm.mem, pd, vm.used) && total <= PAGES && Isolated(a, vm.(used := vm.used - {k}), pd)
    requires k in vm.used && 0x1000 <= k && k !in a.used && !HoldsTable(vm.mem, pd, k) && p == k * PAGE
    requires VaddrPde(v) != WINDOW && MapPage(total, pd, vm, p, v).Mapped? && q < PAGES
    ensures var n := MapPage(total, pd, vm, p, v).vm;
            && (Walk(a.mem, pd, q).Some? ==> Walk(n.mem, pd, q) == Walk(a.mem, pd, q))
            && (Gained(a.mem, n.mem, pd, q) ==>
                  var f := Walk(n.mem, pd, q).value.frame;
                  && 0x1000 <= f && f in n.used && f !in a.used && !HoldsTable(n.mem, pd, f)
                  && (f == k <==> q == v / PAGE)
                  && (q != v / PAGE ==> Gained(a.mem, vm.mem, pd, q) && Walk(vm.mem, pd, q) == Walk(n.mem, pd, q)))
  {
    var n := MapPage(total, pd, vm, p, v).vm;
    MapTranslates(total, pd, vm, p, v, q);
    if Gained(a.mem, n.mem, pd, q) {
      var f := Walk(n.mem, pd, q).value.frame;
      if q != v / PAGE {
        assert Gained(a.mem, vm.mem, pd, q);
      }
      if HoldsTable(n.mem, pd, f) {
        MapHolds(total, pd, vm, p, v, f);
      }
    }
  }

  // A frame k, fresh and above 16 MB, is about to be mapped at v.
  ghost predicate Granted(total: nat, pd: nat, a: Vm, w: Vm, k: nat, v: u32)
    requires pd < PAGES
  {
    && Tables(w.mem, pd, w.used) && total <= PAGES && Isolated(a, w.(used := w.used - {k}), pd)
    && k in w.used && 0x1000 <= k < PAGES && k !in a.used && !HoldsTable(w.mem, pd, k)
    && VaddrPde(v) != WINDOW && MapPage(total, pd, w, k * PAGE, v).Mapped?
  }

  lemma GrantedKeeps(total: nat, pd: nat, a: Vm, w: Vm, k: nat, v: u32, q: nat)
    requires pd < PAGES && Granted(total, pd, a, w, k, v) && q < PAGES && Walk(a.mem, pd, q).Some?
    ensures Walk(MapPage(total, pd, w, k * PAGE, v).vm.mem, pd, q) == Walk(a.mem, pd, q)
  {
    FaultPage(total, pd, a, w, k, k * PAGE, v, q);
  }

  lemma GrantedOwns(total: nat, pd: nat, a: Vm, w: Vm, k: nat, v: u32, q: nat)
    requires pd < PAGES && Granted(total, pd, a, w, k, v)
    requires Gained(a.mem, MapPage(total, pd, w, k * PAGE, v).vm.mem, pd, q)
    ensures var n := MapPage(total, pd, w, k * PAGE, v).vm; var f := Walk(n.mem, pd, q).value.frame;
            0x1000 <= f && f in n.used && f !in a.used && !HoldsTable(n.mem, pd, f)
  {
    FaultPage(total, pd, a, w, k, k * PAGE, v, q);
  }

  lemma GrantedApart(total: nat, pd: nat, a: Vm, w: Vm, k: nat, v: u32, q: nat, r: nat)
    requires pd < PAGES && Granted(total, pd, a, w, k, v) && q != r
    requires var m := MapPage(total, pd, w, k * PAGE, v).vm.mem; Gained(a.mem, m, pd, q) && Gained(a.mem, m, pd, r)
    ensures var m := MapPage(total, pd, w, k * PAGE, v).vm.mem;
            Walk(m, pd, q).value.frame != Walk(m, pd, r).value.frame
  {
    FaultPage(total, pd, a, w, k, k * PAGE, v, q);
    FaultPage(total, pd, a, w, k, k * PAGE, v, r);
    hide Walk, Tables, HoldsTable, MapPage;
  }

  lemma GrantedIsolates(total: nat, pd: nat, a: Vm, w: Vm, k: nat, v: u32)
    requires pd < PAGES && Granted(total, pd, a, w, k, v)
    ensures Isolated(a, MapPage(total, pd, w, k * PAGE, v).vm, pd)
  {
    var n := MapPage(total, pd, w, k * PAGE, v).vm;
    MapTranslates(total, pd, w, k * PAGE, v, 0);
    assert a.used <= n.used;
    hide Walk, HoldsTable, MapPage, Granted, Gained;
    forall q | 0 <= q < PAGES && Walk(a.mem, pd, q).Some? ensures Walk(n.mem, pd, q) == Walk(a.mem, pd, q) {
      GrantedKeeps(total, pd, a, w, k, v, q);
    }
    forall q: nat | Gained(a.mem, n.mem, pd, q)
      ensures q < PAGES && Walk(n.mem, pd, q).Some?
      ensures var f := Walk(n.mem, pd, q).value.frame;
              0x1000 <= f && f in n.used && f !in a.used && !HoldsTable(n.mem, pd, f)
    {
      GainedWalks(a.mem, n.mem, pd, q);
      GrantedOwns(total, pd, a, w, k, v, q);
    }
    forall q: nat, r: nat | Gained(a.mem, n.mem, pd, q) && Gained(a.mem, n.mem, pd, r) && q != r
      ensures Walk(n.mem, pd, q).value.frame != Walk(n.mem, pd, r).value.frame
    {
      GrantedApart(total, pd, a, w, k, v, q, r);
    }
  }

  lemma GainedWalks(m: Phys, n: Phys, pd: nat, q: nat)
    requires pd < PAGES && Gained(m, n, pd, q)
    ensures q < WINDOW * ENTRIES && Walk(m, pd, q) == None && Walk(n, pd, q).Some?
  {
  }

  // Adding a used frame to nothing else.
  lemma IsolatedMore(a: Vm, vm: Vm, pd: nat, k: nat)
    requires pd < PAGES && Isolated(a, vm, pd)
    ensures Isolated(a, vm.(used := vm.used + {k}), pd)
  {
  }

  // With a frame to give out, one fault keeps isolation.
  lemma SuppliedFault(total: nat, pd: nat, a: Vm, vm: Vm, address: u32)
    requires Tables(vm.mem, pd, vm.used) && total <= PAGES && Isolated(a, vm, pd)
    requires VaddrPde(address) != WINDOW && Grant(total, vm.used).Some? && !Fault(total, pd, vm, address).Halted?
    ensures Isolated(a, Fault(total, pd, vm, address).vm, pd)
  {
    UsedDirectory(vm, pd);
    hide Walk, Tables, HoldsTable, Chosen, MapPage, Isolated;
    GrantFacts(total, vm.used);
    var k, v := Grant(total, vm.used).value, PageStart(address);
    var w := vm.(used := vm.used + {k});
    PageBase(address);
    TablesMono(vm.mem, pd, vm.used, w.used);
    assert w.(used := w.used - {k}) == vm;
    MapRefused(total, pd, w, k * PAGE, v);
    if Fault(total, pd, vm, address).Mapped? {
      assert k !in a.used by { IsolatedUsed(a, vm, pd); }
      if HoldsTable(w.mem, pd, k) {
        TablesUsed(vm.mem, pd, vm.used, k);
      }
      GrantedIsolates(total, pd, a, w, k, v);
    } else {
      IsolatedMore(a, vm, pd, k);
    }
  }

  lemma IsolatedUsed(a: Vm, b: Vm, pd: nat)
    requires pd < PAGES && Isolated(a, b, pd)
    ensures a.used <= b.used
  {
  }

  // Without one, a fault on an entry in use is refused, and any other maps frame 0.
  lemma UnsuppliedFault(total: nat, pd: nat, vm: Vm, address: u32)
    requires Tables(vm.mem, pd, vm.used) && total <= PAGES
    requires VaddrPde(address) != WINDOW && Grant(total, vm.used).None? && !Fault(total, pd, vm, address).Halted?
    ensures pd < PAGES
    ensures Existing(vm, pd, address) != 0 ==> Fault(total, pd, vm, address) == Refused(vm)
    ensures Existing(vm, pd, address) == 0 ==>
              && Fault(total, pd, vm, address).Mapped? && address / PAGE < WINDOW * ENTRIES
              && Walk(vm.mem, pd, address / PAGE) == None
              && Walk(Fault(total, pd, vm, address).vm.mem, pd, address / PAGE).Some?
              && Walk(Fault(total, pd, vm, address).vm.mem, pd, address / PAGE).value.frame == 0
  {
    UsedDirectory(vm, pd);
    PageBase(address);
    SplitPage(address);
    var base: u32 := PageStart(address);
    assert Existing(vm, pd, base) == Existing(vm, pd, address);
    if Existing(vm, pd, address) == 0 {
      hide Existing, Walk, Chosen, VaddrPde, VaddrPte;
      MapTranslates(total, pd, vm, 0, base, address / PAGE);
    }
  }

  // A fault on an entry in use takes a frame for nothing: no translation changes.
  lemma FaultLosesFrame(total: nat, pd: nat, vm: Vm, address: u32)
    requires Tables(vm.mem, pd, vm.used) && total <= PAGES && VaddrPde(address) != WINDOW
    requires Grant(total, vm.used).Some? && Pde(vm.mem, pd, VaddrPde(address)) != 0
    ensures var k := Grant(total, vm.used).value; var r := Fault(total, pd, vm, address);
            r == Refused(vm.(used := vm.used + {k})) && k !in vm.used <==> Existing(vm, pd, address) != 0
  {
    UsedDirectory(vm, pd);
    GrantFacts(total, vm.used);
    PageBase(address);
    hide Tables, Walk, Chosen, VaddrPde, VaddrPte;
  }

  // The tables stay well formed, and every translation there is stays.
  lemma FaultKeeps(total: nat, pd: nat, vm: Vm, address: u32, q: nat)
    requires Tables(vm.mem, pd, vm.used) && total <= PAGES && q < PAGES
    requires VaddrPde(address) != WINDOW && !Fault(total, pd, vm, address).Halted?
    ensures var n := Fault(total, pd, vm, address).vm;
            Tables(n.mem, pd, n.used) && (Walk(vm.mem, pd, q).Some? ==> Walk(n.mem, pd, q) == Walk(vm.mem, pd, q))
  {
    UsedDirectory(vm, pd);
    hide Walk, Tables, Chosen, MapPage;
    GrantFacts(total, vm.used);
    var w := if Grant(total, vm.used).Some? then vm.(used := vm.used + {Grant(total, vm.used).value}) else vm;
    var p := if Grant(total, vm.used).Some? then Grant(total, vm.used).value * PAGE else 0;
    var v := PageStart(address);
    PageBase(address);
    TablesMono(vm.mem, pd, vm.used, w.used);
    assert Fault(total, pd, vm, address) == MapPage(total, pd, w, p, v);
    MapRefused(total, pd, w, p, v);
    if MapPage(total, pd, w, p, v).Mapped? {
      MapTranslates(total, pd, w, p, v, q);
    }
  }

  // One fault that does not halt keeps isolation exactly when there is a frame to
  // give out or the entry of the page is in use already.
  lemma FaultIsolates(total: nat, pd: nat, a: Vm, vm: Vm, address: u32)
    requires Tables(vm.mem, pd, vm.used) && total <= PAGES && Isolated(a, vm, pd)
    requires VaddrPde(address) != WINDOW && !Fault(total, pd, vm, address).Halted?
    ensures Tables(Fault(total, pd, vm, address).vm.mem, pd, Fault(total, pd, vm, address).vm.used)
    ensures Isolated(a, Fault(total, pd, vm, address).vm, pd)
            <==> Grant(total, vm.used).Some? || Existing(vm, pd, address) != 0
  {
    UsedDirectory(vm, pd);
    FaultKeeps(total, pd, vm, address, 0);
    if Grant(total, vm.used).Some? {
      SuppliedFault(total, pd, a, vm, address);
    } else {
      UnsuppliedFault(total, pd, vm, address);
      if Existing(vm, pd, address) == 0 {
        hide Fault, Tables, Existing, Grant;
        ZeroMapped(a, vm, Fault(total, pd, vm, address).vm, pd, address / PAGE);
      }
    }
  }

  // A page that gains frame 0 is not isolated.
  lemma ZeroMapped(a: Vm, vm: Vm, b: Vm, pd: nat, q: nat)
    requires pd < PAGES && Isolated(a, vm, pd) && q < WINDOW * ENTRIES && Walk(vm.mem, pd, q) == None
    requires Walk(b.mem, pd, q).Some? && Walk(b.mem, pd, q).value.frame == 0
    ensures Gained(a.mem, b.mem, pd, q) && !Isolated(a, b, pd)
  {
    hide Walk;
    assert Gained(a.mem, b.mem, pd, q);
  }

  lemma TablesUsed(m: Phys, pd: nat, used: set<nat>, f: nat)
    requires Tables(m, pd, used) && HoldsTable(m, pd, f)
    ensures f in used
  {
    if f != pd {
      var d :| 0 <= d < WINDOW && Pde(m, pd, d) != 0 && FrameOf(Pde(m, pd, d)) == f;
      assert TableAt(m, pd, d, used);
    }
  }

  // Every fault of the run finds a frame to give out, or hits an entry in use.
  ghost predicate Supplied(total: nat, pd: nat, vm: Vm, addresses: seq<u32>)
    requires pd < PAGES && total <= PAGES
    decreases |addresses|
  {
    addresses == [] ||
    ((Grant(total, vm.used).Some? || Existing(vm, pd, addresses[0]) != 0) &&
     match Fault(total, pd, vm, addresses[0])
     case Halted => true
     case Mapped(n) => Supplied(total, pd, n, addresses[1..])
     case Refused(n) => Supplied(total, pd, n, addresses[1..]))
  }

  lemma {:induction false} FaultsKeep(total: nat, pd: nat, vm: Vm, addresses: seq<u32>, q: nat)
    requires Tables(vm.mem, pd, vm.used) && total <= PAGES && q < PAGES && OutsideWindow(addresses)
    requires Faults(total, pd, vm, addresses).Some?
    ensures var n := Faults(total, pd, vm, addresses).value;
            Tables(n.mem, pd, n.used) && (Walk(vm.mem, pd, q).Some? ==> Walk(n.mem, pd, q) == Walk(vm.mem, pd, q))
    decreases |addresses|
  {
    UsedDirectory(vm, pd);
    hide Tables, Walk, Fault;
    if addresses == [] {
    } else {
      FaultKeeps(total, pd, vm, addresses[0], q);
      FaultsKeep(total, pd, Fault(total, pd, vm, addresses[0]).vm, addresses[1..], q);
    }
  }

  // Any run of faults gives distinct pages distinct frames, none of them used
  // before (so none belongs to the kernel, the bitmap or the boot mappings) and
  // none holding a page table, and loses or changes no translation: exactly when
  // each of its faults was supplied.
  lemma {:induction false} FaultsIsolate(total: nat, pd: nat, a: Vm, vm: Vm, addresses: seq<u32>)
    requires Tables(vm.mem, pd, vm.used) && total <= PAGES && Isolated(a, vm, pd) && OutsideWindow(addresses)
    requires Faults(total, pd, vm, addresses).Some?
    ensures var b := Faults(total, pd, vm, addresses).value;
            Tables(b.mem, pd, b.used) && (Isolated(a, b, pd) <==> Supplied(total, pd, vm, addresses))
    decreases |addresses|
  {
    UsedDirectory(vm, pd);
    hide Tables, Isolated, Grant, Fault, Walk, Existing;
    if addresses == [] {
    } else {
      var r := Fault(total, pd, vm, addresses[0]);
      FaultIsolates(total, pd, a, vm, addresses[0]);
      if Grant(total, vm.used).Some? || Existing(vm, pd, addresses[0]) != 0 {
        FaultsIsolate(total, pd, a, r.vm, addresses[1..]);
      } else {
        ZeroStays(total, pd, a, vm, addresses);
      }
    }
  }

  // The page that a fault without supply maps to frame 0 keeps that frame.
  lemma ZeroStays(total: nat, pd: nat, a: Vm, vm: Vm, addresses: seq<u32>)
    requires Tables(vm.mem, pd, vm.used) && total <= PAGES && Isolated(a, vm, pd) && OutsideWindow(addresses)
    requires addresses != [] && Grant(total, vm.used).None? && Existing(vm, pd, addresses[0]) == 0
    requires Faults(total, pd, vm, addresses).Some?
    ensures var b, q := Faults(total, pd, vm, addresses).value, addresses[0] / PAGE;
            && Tables(b.mem, pd, b.used) && Gained(a.mem, b.mem, pd, q) && Walk(b.mem, pd, q).value.frame == 0
            && !Isolated(a, b, pd)
  {
    var q, r := addresses[0] / PAGE, Fault(total, pd, vm, addresses[0]);
    UnsuppliedFault(total, pd, vm, addresses[0]);
    FaultKeeps(total, pd, vm, addresses[0], q);
    hide Tables, Grant, Fault, Walk, Existing;
    FaultsKeep(total, pd, r.vm, addresses[1..], q);
    ZeroMapped(a, vm, Faults(total, pd, vm, addresses).value, pd, q);
  }

  // A run that is not supplied ends with some page on frame 0.
  lemma {:induction false} Unsupplied(total: nat, pd: nat, a: Vm, vm: Vm, addresses: seq<u32>)
    requires Tables(vm.mem, pd, vm.used) && total <= PAGES && Isolated(a, vm, pd) && OutsideWindow(addresses)
    requires Faults(total, pd, vm, addresses).Some? && !Supplied(total, pd, vm, addresses)
    ensures var b := Faults(total, pd, vm, addresses).value;
            exists q :: Gained(a.mem, b.mem, pd, q) && Walk(b.mem, pd, q).value.frame == 0
    decreases |addresses|
  {
    UsedDirectory(vm, pd);
    hide Tables, Isolated, Grant, Fault, Walk, Existing;
    if Grant(total, vm.used).Some? || Existing(vm, pd, addresses[0]) != 0 {
      FaultIsolates(total, pd, a, vm, addresses[0]);
      Unsupplied(total, pd, a, Fault(total, pd, vm, addresses[0]).vm, addresses[1..]);
    } else {
      ZeroStays(total, pd, a, vm, addresses);
    }
  }

  // A frame left at the end means that every fault was supplied.
  lemma {:induction false} FrameLeft(total: nat, pd: nat, vm: Vm, addresses: seq<u32>)
    requires pd < PAGES && total <= PAGES && Faults(total, pd, vm, addresses).Some?
    requires Grant(total, Faults(total, pd, vm, addresses).value.used).Some?
    ensures Supplied(total, pd, vm, addresses)
    decreases |addresses|
  {
    if addresses == [] {
    } else {
      FaultsGrow(total, pd, vm, addresses);
      FrameLeft(total, pd, Fault(total, pd, vm, addresses[0]).vm, addresses[1..]);
    }
  }

  // Frames are never given back, so a frame left at the end was there all along.
  lemma {:induction false} FaultsGrow(total: nat, pd: nat, vm: Vm, addresses: seq<u32>)
    requires pd < PAGES && total <= PAGES && Faults(total, pd, vm, addresses).Some?
    ensures vm.used <= Faults(total, pd, vm, addresses).value.used
    ensures Grant(total, Faults(total, pd, vm, addresses).value.used).Some? ==> Grant(total, vm.used).Some?
    decreases |addresses|
  {
    if addresses == [] {
    } else {
      FaultsGrow(total, pd, Fault(total, pd, vm, addresses[0]).vm, addresses[1..]);
    }
    hide Chosen;
    if Grant(total, vm.used) == None {
      ExhaustedStays(InitialZones(total), total, vm.used, Faults(total, pd, vm, addresses).value.used, 1, ZONE_NORMAL);
    }
  }

  // With the 32 MB that init_paging assumes and every frame handed out: where a
  // table is present and the entry free, a fault maps frame 0.
  lemma FrameZeroExample(address: u32)
    requires address / PAGE == 6
    ensures var vm := Vm(SmallMemory(), Run(0, 0x2000)); var r := Fault(0x2000, 1, vm, address);
            && Tables(vm.mem, 1, vm.used) && Grant(0x2000, vm.used) == None
            && r.Mapped? && Walk(vm.mem, 1, 6) == None && Walk(r.vm.mem, 1, 6).Some?
            && Walk(r.vm.mem, 1, 6).value.frame == 0 && !Isolated(vm, r.vm, 1)
  {
    var vm := Vm(SmallMemory(), Run(0, 0x2000));
    RunHas(0, 0x2000);
    SmallTables(vm.used);
    GrantFacts(0x2000, vm.used);
    assert VaddrPde(address) == 0 && VaddrPte(address) == 6;
    EntryBits(2 * PAGE);
    hide SmallMemory, Tables, Grant, Run;
    assert Existing(vm, 1, address) == 0;
    MapRefused(0x2000, 1, vm, 0, PageStart(address));
    PageBase(address);
    UnsuppliedFault(0x2000, 1, vm, address);
    hide Fault, Walk;
    assert Isolated(vm, vm, 1);
    ZeroMapped(vm, vm, Fault(0x2000, 1, vm, address).vm, 1, 6);
  }

  // Where a fault maps a page, it is the page of the address, and it gets the
  // granted frame, or frame 0.
  lemma FaultTranslates(total: nat, pd: nat, vm: Vm, address: u32)
    requires Tables(vm.mem, pd, vm.used) && total <= PAGES && VaddrPde(address) != WINDOW
    requires Fault(total, pd, vm, address).Mapped?
    ensures var n := Fault(total, pd, vm, address).vm; var q: nat := address / 0x1000;
            && q < PAGES && Walk(vm.mem, pd, q) == None && Walk(n.mem, pd, q).Some?
            && match Grant(total, vm.used)
               case Some(k) => Walk(n.mem, pd, q).value.frame == k && k in n.used
               case None => Walk(n.mem, pd, q).value.frame == 0
  {
    UsedDirectory(vm, pd);
    PageBase(address);
    SplitPage(address);
    hide Walk, Tables, Chosen, MapPage, VaddrPde, VaddrPte;
    GrantFacts(total, vm.used);
    var w := if Grant(total, vm.used).Some? then vm.(used := vm.used + {Grant(total, vm.used).value}) else vm;
    var p: u32 := if Grant(total, vm.used).Some? then Grant(total, vm.used).value * PAGE else 0;
    FaultMaps(total, pd, vm, address, w, p);
    TablesMono(vm.mem, pd, vm.used, w.used);
    MapTranslates(total, pd, w, p, PageStart(address), address / PAGE);
  }
}
