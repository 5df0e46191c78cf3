// 32-bit paging without PAE (section 4.3 of the Intel SDM, volume 3A): a
// two-level walk over physical memory, and what single page-table edits do to it.

module Mmu {
  import opened Words
  import opened Options
  import opened Frames

  const ENTRIES := 1024
  const PHYS_WORDS := 0x4000_0000     // 4 GB of physical memory, in words
  const WINDOW := 1023                // the directory slot that maps the tables

  const P_PRESENT: u32 := 1
  const P_WRITE: u32 := 2
  const P_USER: u32 := 4

  type Phys = m: seq<u32> | |m| == 0x4000_0000 witness seq(0x4000_0000, i => 0)

  // ----- The macros of include/page.h -----

  function VaddrPde(v: u32): nat { v / 0x40_0000 % 1024 }
  function VaddrPte(v: u32): nat { v / 0x1000 % 1024 }
  function GetPe(table: nat, entry: nat): nat { table * 1024 + entry }
  function VaddrFromIndex(table: nat, entry: nat): nat { (table * 4096 + entry * 4) * 1024 }
  function VaddrBase(pd: nat): nat { pd * 0x40_0000 }
  function MaskFlags(e: u32): u32 { e / 0x1000 * 0x1000 }

  // ----- The walk -----

  predicate Present(e: u32) { e % 2 == 1 }
  predicate Writable(e: u32) { e / 2 % 2 == 1 }
  predicate User(e: u32) { e / 4 % 2 == 1 }
  function FrameOf(e: u32): nat { e / 0x1000 }

  datatype Leaf = Leaf(frame: nat, writable: bool, user: bool)

  function Entry(m: Phys, table: nat, index: nat): u32
    requires table < PAGES && index < ENTRIES
  {
    m[table * ENTRIES + index]
  }

  // Both entries must be present; a right is granted when both grant it.
  function Walk(m: Phys, pd: nat, page: nat): Option<Leaf>
    requires pd < PAGES && page < PAGES
  {
    var pde := Entry(m, pd, page / ENTRIES);
    if !Present(pde) then None else
      var pte := Entry(m, FrameOf(pde), page % ENTRIES);
      if !Present(pte) then None
      else Some(Leaf(FrameOf(pte), Writable(pde) && Writable(pte), User(pde) && User(pte)))
  }

  // ----- Well-formed page tables -----

  function Pde(m: Phys, pd: nat, d: nat): u32
    requires pd < PAGES && d < ENTRIES
  {
    Entry(m, pd, d)
  }

  // The last slot of the directory is the directory itself; every other slot is
  // empty or holds a table of its own in a used frame.
  ghost predicate Tables(m: Phys, pd: nat, used: set<nat>) {
    && pd < PAGES && pd in used
    && Present(Pde(m, pd, WINDOW)) && Writable(Pde(m, pd, WINDOW)) && FrameOf(Pde(m, pd, WINDOW)) == pd
    && (forall d | 0 <= d < WINDOW :: Pde(m, pd, d) == 0 || TableAt(m, pd, d, used))
    && (forall d, e | 0 <= d < WINDOW && 0 <= e < WINDOW && d != e && Pde(m, pd, d) != 0 && Pde(m, pd, e) != 0 ::
          FrameOf(Pde(m, pd, d)) != FrameOf(Pde(m, pd, e)))
  }

  ghost predicate TableAt(m: Phys, pd: nat, d: nat, used: set<nat>)
    requires pd < PAGES && d < ENTRIES
  {
    var e := Pde(m, pd, d);
    Present(e) && Writable(e) && FrameOf(e) in used && FrameOf(e) != pd
  }

  // ----- The window -----

  // Word `index` of the array k_addrspc.pd points to.
  function WindowAddress(index: nat): nat {
    VaddrBase(WINDOW) + 4 * index
  }

  // The physical word that a virtual address reaches in its frame.
  function WordAt(frame: nat, va: nat): nat {
    frame * ENTRIES + va % PAGE / 4
  }

  // Through the window, pd[GET_PE(d, t)] is entry t of table d: the walk of its
  // address ends in the frame of that table, at word t.  For d == 1023 that is
  // entry t of the directory.
  lemma WindowReaches(m: Phys, pd: nat, used: set<nat>, d: nat, t: nat)
    requires Tables(m, pd, used) && d < ENTRIES && t < ENTRIES && Present(Pde(m, pd, d))
    ensures var va := WindowAddress(GetPe(d, t));
            && va < WORD_SIZE && va % 4 == 0 && va / PAGE == WINDOW * ENTRIES + d && va % PAGE / 4 == t
            && Walk(m, pd, va / PAGE).Some?
            && Walk(m, pd, va / PAGE).value.frame == FrameOf(Pde(m, pd, d)) < PAGES
            && Walk(m, pd, va / PAGE).value.writable == Writable(Pde(m, pd, d))
            && WordAt(Walk(m, pd, va / PAGE).value.frame, va) == FrameOf(Pde(m, pd, d)) * ENTRIES + t < PHYS_WORDS
    ensures d == WINDOW ==> FrameOf(Pde(m, pd, d)) == pd
  {
    var va := WindowAddress(GetPe(d, t));
    assert va == 4096 * (WINDOW * ENTRIES + d) + 4 * t;
    assert va / PAGE == WINDOW * ENTRIES + d;
    assert (WINDOW * ENTRIES + d) / ENTRIES == WINDOW && (WINDOW * ENTRIES + d) % ENTRIES == d;
  }

  // The page that __map_page zeroes and invalidates is the window page of table d.
  lemma WindowPage(d: nat)
    requires d < ENTRIES
    ensures VaddrFromIndex(WINDOW, d) == WindowAddress(GetPe(d, 0)) == (WINDOW * ENTRIES + d) * PAGE
  {
  }

  // ----- Edits -----

  // The macros that cut an address agree with cutting its page number.
  lemma SplitPage(v: u32)
    ensures v / PAGE < PAGES && VaddrPde(v) < ENTRIES && VaddrPte(v) < ENTRIES
    ensures v / PAGE / ENTRIES == VaddrPde(v) && v / PAGE % ENTRIES == VaddrPte(v)
  {
  }

  // The base address of the page an address lies in.
  function PageStart(v: u32): u32 { v / PAGE * PAGE }

  lemma PageBase(v: u32)
    ensures VaddrPde(PageStart(v)) == VaddrPde(v) && VaddrPte(PageStart(v)) == VaddrPte(v)
    ensures PageStart(v) % PAGE == 0 && PageStart(v) / PAGE == v / PAGE
  {
    RoundDown(v / PAGE);
    SplitPage(v);
    SplitPage(PageStart(v));
  }

  lemma PageSlot(v: u32)
    ensures VaddrPde(PageStart(v)) == VaddrPde(v)
  {
    PageBase(v);
  }

  lemma RoundDown(q: nat)
    ensures q * PAGE % PAGE == 0 && q * PAGE / PAGE == q
  {
  }

  // Word number of the page-table entry of a page.
  function PteWord(m: Phys, pd: nat, page: nat): nat
    requires pd < PAGES && page < PAGES
  {
    FrameOf(Pde(m, pd, page / ENTRIES)) * ENTRIES + page % ENTRIES
  }

  function SetPte(m: Phys, pd: nat, page: nat, e: u32): Phys
    requires pd < PAGES && page < PAGES
  {
    m[PteWord(m, pd, page) := e]
  }

  // Writing one entry of an existing table changes the translation of its page
  // and of no other page, the window included.
  lemma SetPteWalk(m: Phys, pd: nat, used: set<nat>, page: nat, e: u32, q: nat)
    requires Tables(m, pd, used) && page < PAGES && q < PAGES
    requires page / ENTRIES != WINDOW && Pde(m, pd, page / ENTRIES) != 0
    ensures Tables(SetPte(m, pd, page, e), pd, used)
    ensures q != page ==> Walk(SetPte(m, pd, page, e), pd, q) == Walk(m, pd, q)
    ensures q == page ==>
              (Walk(SetPte(m, pd, page, e), pd, q) ==
               if !Present(e) then None
               else Some(Leaf(FrameOf(e), Writable(e), User(Pde(m, pd, page / ENTRIES)) && User(e))))
    ensures forall d | 0 <= d < ENTRIES :: Pde(SetPte(m, pd, page, e), pd, d) == Pde(m, pd, d)
  {
    var n := SetPte(m, pd, page, e);
    forall d | 0 <= d < ENTRIES ensures Pde(n, pd, d) == Pde(m, pd, d) {
    }
    var d := q / ENTRIES;
    if Present(Pde(m, pd, d)) && q != page {
      SameEntry(m, pd, used, page, q);
    }
  }

  // Different pages have their entries at different words.
  lemma SameEntry(m: Phys, pd: nat, used: set<nat>, page: nat, q: nat)
    requires Tables(m, pd, used) && page < PAGES && q < PAGES && q != page
    requires page / ENTRIES != WINDOW && Pde(m, pd, page / ENTRIES) != 0 && Present(Pde(m, pd, q / ENTRIES))
    ensures PteWord(m, pd, page) != PteWord(m, pd, q)
  {
    var d, e := page / ENTRIES, q / ENTRIES;
    assert TableAt(m, pd, d, used);
    if e != WINDOW {
      assert TableAt(m, pd, e, used);
      assert d != e ==> FrameOf(Pde(m, pd, d)) != FrameOf(Pde(m, pd, e));
    }
  }

  // Hanging an empty table in frame f under directory slot d.
  function NewTable(m: Phys, pd: nat, d: nat, f: nat): (n: Phys)
    requires pd < PAGES && d < ENTRIES && f < PAGES
  {
    ZeroFrame(m[pd * ENTRIES + d := f * PAGE + P_PRESENT + P_WRITE], f)
  }

  function ZeroFrame(m: Phys, f: nat): (n: Phys)
    requires f < PAGES
  {
    seq(PHYS_WORDS, i requires 0 <= i < PHYS_WORDS => if i / ENTRIES == f then 0 else m[i])
  }

  lemma NewTableEntries(m: Phys, pd: nat, d: nat, f: nat)
    requires pd < PAGES && d < ENTRIES && f < PAGES && f != pd
    ensures forall e | 0 <= e < ENTRIES ::
              Pde(NewTable(m, pd, d, f), pd, e) == if e == d then f * PAGE + P_PRESENT + P_WRITE else Pde(m, pd, e)
    ensures forall t | 0 <= t < ENTRIES :: Entry(NewTable(m, pd, d, f), f, t) == 0
    ensures forall g, t | 0 <= g < PAGES && g != pd && g != f && 0 <= t < ENTRIES ::
              Entry(NewTable(m, pd, d, f), g, t) == Entry(m, g, t)
  {
    var n := NewTable(m, pd, d, f);
    forall g, t | 0 <= g < PAGES && 0 <= t < ENTRIES
      ensures Entry(n, g, t) ==
              if g == f then 0 else if g == pd && t == d then f * PAGE + P_PRESENT + P_WRITE else Entry(m, g, t)
    {
      assert (g * ENTRIES + t) / ENTRIES == g;
    }
  }

  // Tables stay well formed when a slot gets a table in a frame that was not used.
  lemma TablesGrow(m: Phys, n: Phys, pd: nat, used: set<nat>, d: nat, f: nat)
    requires Tables(m, pd, used) && d < WINDOW && f !in used
    requires forall e | 0 <= e < ENTRIES && e != d :: Pde(n, pd, e) == Pde(m, pd, e)
    requires Present(Pde(n, pd, d)) && Writable(Pde(n, pd, d)) && FrameOf(Pde(n, pd, d)) == f
    ensures Tables(n, pd, used + {f})
  {
    hide Pde, FrameOf, Present, Writable;
    forall c | 0 <= c < WINDOW && Pde(n, pd, c) != 0
      ensures TableAt(n, pd, c, used + {f}) && (c != d ==> FrameOf(Pde(n, pd, c)) != f)
    {
      assert c != d ==> TableAt(m, pd, c, used);
    }
  }

  lemma NewTableTables(m: Phys, pd: nat, used: set<nat>, d: nat, f: nat)
    requires Tables(m, pd, used) && d < WINDOW && Pde(m, pd, d) == 0 && f < PAGES && f !in used
    ensures Tables(NewTable(m, pd, d, f), pd, used + {f})
  {
    assert pd in used;
    NewTableEntries(m, pd, d, f);
    var n := NewTable(m, pd, d, f);
    assert FrameOf(Pde(n, pd, d)) == f && Present(Pde(n, pd, d)) && Writable(Pde(n, pd, d));
    hide NewTable, Tables, FrameOf, Present, Writable, Pde;
    TablesGrow(m, n, pd, used, d, f);
  }

  // A fresh table adds no translation but that of its own window page, and keeps
  // every translation there is.
  lemma NewTableWalk(m: Phys, pd: nat, used: set<nat>, d: nat, f: nat, q: nat)
    requires Tables(m, pd, used) && d < WINDOW && Pde(m, pd, d) == 0 && f < PAGES && f !in used && q < PAGES
    ensures Tables(NewTable(m, pd, d, f), pd, used + {f})
    ensures q == WINDOW * ENTRIES + d ==> Walk(m, pd, q) == None
    ensures q != WINDOW * ENTRIES + d ==> Walk(NewTable(m, pd, d, f), pd, q) == Walk(m, pd, q)
    ensures Pde(NewTable(m, pd, d, f), pd, d) == f * PAGE + P_PRESENT + P_WRITE
    ensures Entry(NewTable(m, pd, d, f), f, q % ENTRIES) == 0
  {
    NewTableTables(m, pd, used, d, f);
    NewTableEntries(m, pd, d, f);
    var n := NewTable(m, pd, d, f);
    var e := q / ENTRIES;
    assert FrameOf(Pde(n, pd, d)) == f;
    if e < WINDOW && e != d && Pde(m, pd, e) != 0 {
      assert TableAt(m, pd, e, used);
    }
    hide NewTable;
  }
}
