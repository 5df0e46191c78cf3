// A translation look-aside buffer (section 4.10 of the Intel SDM, volume 3A)
// that caches present translations when they are used.

module Tlb {
  import opened Words
  import opened Options
  import opened Frames
  import opened Mmu

  type Cache = map<nat, Leaf>

  // Everything cached is what a walk would find.
  ghost predicate Coherent(tlb: Cache, m: Phys, pd: nat)
    requires pd < PAGES
  {
    forall q | q in tlb :: q < PAGES && Walk(m, pd, q) == Some(tlb[q])
  }

  lemma CoherentFill(tlb: Cache, m: Phys, pd: nat, page: nat)
    requires pd < PAGES && Coherent(tlb, m, pd) && page < PAGES && Walk(m, pd, page).Some?
    ensures Coherent(tlb[page := Walk(m, pd, page).value], m, pd)
  {
  }

  lemma CoherentDrop(tlb: Cache, m: Phys, pd: nat, page: nat)
    requires pd < PAGES && Coherent(tlb, m, pd)
    ensures Coherent(tlb - {page}, m, pd)
  {
  }

  // Storing an entry over the walk of one page, and dropping that page.
  lemma SetPteCoherent(tlb: Cache, m: Phys, pd: nat, used: set<nat>, page: nat, e: u32)
    requires Tables(m, pd, used) && page < PAGES && page / ENTRIES != WINDOW && Pde(m, pd, page / ENTRIES) != 0
    requires Coherent(tlb, m, pd)
    ensures Coherent(tlb - {page}, SetPte(m, pd, page, e), pd)
    ensures page !in tlb ==> Coherent(tlb, SetPte(m, pd, page, e), pd)
    ensures Tables(SetPte(m, pd, page, e), pd, used)
  {
    SetPteWalk(m, pd, used, page, e, page);
    hide Walk, Tables, SetPte;
    forall q | q in tlb && q < PAGES && q != page ensures Walk(SetPte(m, pd, page, e), pd, q) == Walk(m, pd, q) {
      SetPteWalk(m, pd, used, page, e, q);
    }
  }

  // The directory after an empty slot has been filled, and the walks it keeps.
  lemma FilledSlot(m: Phys, pd: nat, used: set<nat>, d: nat, f: nat)
    requires Tables(m, pd, used) && d < WINDOW && Pde(m, pd, d) == 0 && f < PAGES && f !in used
    ensures var n := m[pd * ENTRIES + d := f * PAGE + P_PRESENT + P_WRITE];
            && Tables(n, pd, used + {f}) && Pde(n, pd, d) == f * PAGE + P_PRESENT + P_WRITE
  {
    var n := m[pd * ENTRIES + d := f * PAGE + P_PRESENT + P_WRITE];
    assert FrameOf(Pde(n, pd, d)) == f && Present(Pde(n, pd, d)) && Writable(Pde(n, pd, d));
    assert forall e | 0 <= e < ENTRIES && e != d :: Pde(n, pd, e) == Pde(m, pd, e);
    hide Tables, Pde, FrameOf, Present, Writable;
    TablesGrow(m, n, pd, used, d, f);
  }

  lemma FilledWalk(m: Phys, pd: nat, used: set<nat>, d: nat, e: u32, q: nat)
    requires Tables(m, pd, used) && d < WINDOW && Pde(m, pd, d) == 0 && q < PAGES && Walk(m, pd, q).Some?
    ensures q / ENTRIES != d && Walk(m[pd * ENTRIES + d := e], pd, q) == Walk(m, pd, q)
  {
    if q / ENTRIES != WINDOW {
      assert TableAt(m, pd, q / ENTRIES, used);
    }
  }

  // Filling an empty directory slot: whatever the new table holds, no page it
  // could translate was cached, so no cached translation changes.
  lemma SetPdeCoherent(tlb: Cache, m: Phys, pd: nat, used: set<nat>, d: nat, f: nat)
    requires Tables(m, pd, used) && d < WINDOW && Pde(m, pd, d) == 0 && f < PAGES && f !in used
    requires Coherent(tlb, m, pd)
    ensures var n := m[pd * ENTRIES + d := f * PAGE + P_PRESENT + P_WRITE];
            && Tables(n, pd, used + {f}) && Coherent(tlb, n, pd)
            && Pde(n, pd, d) == f * PAGE + P_PRESENT + P_WRITE
    ensures forall q | q in tlb :: q / ENTRIES != d
  {
    var e: u32 := f * PAGE + P_PRESENT + P_WRITE;
    FilledSlot(m, pd, used, d, f);
    hide Tables, Walk, Pde;
    forall q | q in tlb
      ensures q < PAGES && q / ENTRIES != d && Walk(m[pd * ENTRIES + d := e], pd, q) == Some(tlb[q])
    {
      FilledWalk(m, pd, used, d, e, q);
    }
  }
}
