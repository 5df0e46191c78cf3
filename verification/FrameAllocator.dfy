// The physical frame allocator of cpu/page.c: k_sysmem, k_page_zones and
// k_page_bitmap, updated in place.

module FrameAllocators {
  import opened Options
  import opened Frames
  import opened Bitmaps

  const KB_PER_FRAME := 4
  const KERNEL_FRAME := 256         // the kernel is loaded at 1 MB
  const LOW_FRAMES := 256           // the first megabyte stays reserved

  // The zone table still describes the same zones.
  ghost predicate SameBounds(zs: seq<PageZone>, ws: seq<PageZone>) {
    |zs| == |ws| && forall i | 0 <= i < |zs| :: ws[i] == zs[i].(usedPages := ws[i].usedPages)
  }

  lemma SameBoundsSelf(zs: seq<PageZone>)
    ensures SameBounds(zs, zs)
  {
  }

  lemma SameBoundsTrans(xs: seq<PageZone>, ys: seq<PageZone>, zs: seq<PageZone>)
    requires SameBounds(xs, ys) && SameBounds(ys, zs)
    ensures SameBounds(xs, zs)
  {
  }

  lemma RunAdds(u: set<nat>, total: nat, k: nat, n: nat)
    requires FreeRun(u, k, n) && k + n <= total && forall f | f in u :: f < total
    ensures |u + Run(k, n)| == |u| + n <= total
  {
    RunHas(k, n);
    RunHas(0, total);
    assert u !! Run(k, n);
    RunSize(k, n);
    SubsetSize(u + Run(k, n), Run(0, total));
    RunSize(0, total);
  }

  // What __mark_pages_used does to the free counter is right exactly on clear
  // frames: a frame marked twice is counted twice.
  lemma MarkedRight(u: set<nat>, free: int, total: nat, k: nat, n: nat)
    requires free + |u| == total
    ensures (free - n) + |u + Run(k, n)| == total <==> FreeRun(u, k, n)
  {
    RunHas(k, n);
    RunSize(k, n);
    var both := u * Run(k, n);
    assert |u + Run(k, n)| == |u| + n - |both|;
    if FreeRun(u, k, n) {
      assert both == {};
    } else {
      var f :| k <= f < k + n && f in u;
      assert f in both;
    }
  }

  lemma RunNext(u: set<nat>, k: nat, n: nat)
    ensures u + Run(k, n) + {k + n} == u + Run(k, n + 1)
  {
  }

  lemma RunWithin(k: nat, n: nat, total: nat)
    requires k + n <= total && 0 < total
    ensures Run(k, n) <= Run(0, total) && 0 in Run(0, total)
  {
    RunHas(k, n);
    RunHas(0, total);
  }

  lemma RunsJoin(a: nat, b: nat, c: nat)
    ensures FreeRun({}, a, b) && FreeRun(Run(a, b), a + b, c) && FreeRun(Run(a, b) + Run(a + b, c), 0, a)
    ensures {} + Run(a, b) == Run(a, b) && Run(a, b) + Run(a + b, c) + Run(0, a) == Run(0, a + b + c)
  {
    RunHas(a, b);
    RunHas(a + b, c);
    RunHas(0, a);
    RunHas(0, a + b + c);
  }

  class FrameAllocator {
    const totalPages: nat
    const bitmap: Bitmap
    var zones: seq<PageZone>
    var freePages: nat

    ghost function Used(): set<nat>
      reads bitmap.base
      requires bitmap.Valid()
    {
      bitmap.Elements()
    }

    // Every zone counts its own used frames.
    ghost predicate ZonesCount()
      reads this`zones, bitmap.base
    {
      && bitmap.Valid()
      && bitmap.limit == totalPages <= PAGES
      && Partition(zones, totalPages)
      && Counted(zones, Used())
    }

    // Conservation: the free counter and the used set add up to all frames.
    ghost predicate Valid()
      reads this, bitmap.base
    {
      ZonesCount() && freePages + |Used()| == totalPages
    }

    // The zone table of init_paging and the empty bitmap of init_page_allocator.
    constructor (kbInstalled: nat, bytes: array<bv8>)
      requires kbInstalled / KB_PER_FRAME <= PAGES
      requires bytes.Length == (kbInstalled / KB_PER_FRAME + 7) / 8
      modifies bytes
      ensures Valid() && Used() == {} && fresh(bitmap) && bitmap.base == bytes
      ensures totalPages == kbInstalled / 4 && zones == InitialZones(totalPages)
    {
      var total := kbInstalled / KB_PER_FRAME;
      totalPages, freePages := total, total;
      bitmap := new Bitmap(bytes, total);
      zones := InitialZones(total);
      new;
      forall f: nat | f < total ensures Zoned(zones, f) {
        assert zones[if f <= 0xfff then 0 else if f <= 0x36fff then 1 else 2].Contains(f);
      }
      assert Used() == {};
      assert forall i | 0 <= i < |zones| :: Within({}, zones[i]) == {};
    }

    // __get_zone; its panic cannot be reached for a frame of memory.
    method GetZone(page: nat) returns (flag: bv32)
      requires page < totalPages && Partition(zones, totalPages)
      ensures exists i | 0 <= i < |zones| :: zones[i].flag == flag && zones[i].Contains(page)
    {
      assert Zoned(zones, page);
      ghost var w :| 0 <= w < |zones| && zones[w].Contains(page);
      var i := 0;
      while !zones[i].Contains(page)
        invariant i <= w
        decreases |zones| - i
      {
        i := i + 1;
      }
      flag := zones[i].flag;
    }

    // One round of __mark_pages_used: the counter of the frame's own zone, and
    // the frame's bit.
    method MarkFrame(page: nat)
      requires ZonesCount() && page < totalPages && page !in Used()
      modifies this`zones, bitmap.base
      ensures ZonesCount() && Used() == old(Used()) + {page}
      ensures SameBounds(old(zones), zones)
    {
      var flag := GetZone(page);
      var j := 0;
      while zones[j].flag != flag
        invariant exists i | j <= i < |zones| :: zones[i].flag == flag && zones[i].Contains(page)
        decreases |zones| - j
      {
        j := j + 1;
      }
      hide Partition, Counted;
      BumpCounts(zones, totalPages, Used(), j, page);
      zones := Bump(zones, j);
      var ok := bitmap.BitSet(page);
    }

    // The loop of __mark_pages_used, on clear frames.
    method MarkRun(page: nat, pages: nat)
      requires ZonesCount() && page + pages <= totalPages && FreeRun(Used(), page, pages)
      modifies this`zones, bitmap.base
      ensures ZonesCount() && Used() == old(Used()) + Run(page, pages)
      ensures SameBounds(old(zones), zones)
    {
      assert SameBounds(zones, zones);
      hide Partition, Counted, SameBounds, Bitmap.Elements;
      ghost var z0, u0 := zones, Used();
      var i := page;
      while i < page + pages
        invariant page <= i <= page + pages
        invariant ZonesCount() && Used() == u0 + Run(page, i - page)
        invariant SameBounds(z0, zones)
      {
        ghost var z1 := zones;
        RunHas(page, i - page);
        MarkFrame(i);
        SameBoundsTrans(z0, z1, zones);
        RunNext(u0, page, i - page);
        i := i + 1;
      }
    }

    // __mark_pages_used
    method MarkPagesUsed(page: nat, pages: nat)
      requires Valid() && page + pages <= totalPages && FreeRun(Used(), page, pages)
      modifies this, bitmap.base
      ensures Valid() && Used() == old(Used()) + Run(page, pages)
      ensures SameBounds(old(zones), zones)
    {
      RunAdds(Used(), totalPages, page, pages);
      MarkRun(page, pages);
      freePages := freePages - pages;
    }

    // The reservations of init_page_allocator: the kernel, the bitmap behind it and
    // the first megabyte.  They do not overlap and leave no frame between them.
    method Reserve(kernelPages: nat, bitmapPages: nat)
      requires Valid() && Used() == {} && KERNEL_FRAME + kernelPages + bitmapPages <= totalPages
      modifies this, bitmap.base
      ensures Valid() && SameBounds(old(zones), zones)
      ensures Used() == Run(0, KERNEL_FRAME + kernelPages + bitmapPages)
    {
      assert bitmap.Valid();
      hide Valid, ZonesCount, Used, Partition, Counted, SameBounds, Run, FreeRun;
      RunsJoin(KERNEL_FRAME, kernelPages, bitmapPages);
      ghost var z0 := zones;
      MarkPagesUsed(KERNEL_FRAME, kernelPages);
      ghost var z1 := zones;
      MarkPagesUsed(KERNEL_FRAME + kernelPages, bitmapPages);
      ghost var z2 := zones;
      SameBoundsTrans(z0, z1, z2);
      MarkPagesUsed(0, LOW_FRAMES);
      SameBoundsTrans(z0, z2, zones);
    }

    // The scan of alloc_pages: one pass with a running count finds the leftmost run.
    method Scan(sp: nat, ep: nat, pages: nat) returns (found: bool, chosen: nat)
      requires bitmap.Valid() && bitmap.limit == totalPages && pages > 0 && ep <= totalPages
      ensures FindRun(Used(), sp, ep, pages) == if found then Some(chosen) else None
    {
      var i, pir := sp, 0;
      chosen := 0;
      while i < ep
        invariant sp <= i && pir < pages && sp + pir <= i
        invariant i <= ep || i == sp
        invariant pir > 0 ==> chosen == i - pir
        invariant FreeRun(Used(), i - pir, pir)
        invariant forall k: nat | sp <= k < i - pir :: !FreeRun(Used(), k, pages)
      {
        var busy := bitmap.BitGet(i);
        if !busy {
          if pir == 0 {
            chosen := i;
          }
          pir := pir + 1;
          if pir == pages {
            assert FreeRun(Used(), chosen, pages);
            return true, chosen;
          }
        } else {
          pir := 0;
        }
        i := i + 1;
      }
      return false, 0;
    }

    // The bounds of the first zone that serves the request, or 0 twice.
    method ZoneBounds(flags: bv32) returns (sp: nat, ep: nat)
      ensures var i := FirstZone(zones, flags, 0);
              if i < |zones| then sp == zones[i].basePage && ep == zones[i].endPage else sp == ep == 0
    {
      sp, ep := 0, 0;
      var i := 0;
      while i < |zones|
        invariant i <= |zones| && sp == ep == 0
        invariant FirstZone(zones, flags, 0) == FirstZone(zones, flags, i)
      {
        if zones[i].Serves(flags) {
          return zones[i].basePage, zones[i].endPage;
        }
        i := i + 1;
      }
    }

    // alloc_pages: the physical address of the run, or 0.
    method AllocPages(pages: nat, flags: bv32) returns (paddr: nat)
      requires Valid()
      modifies this, bitmap.base
      ensures Valid() && SameBounds(old(zones), zones)
      ensures match Chosen(old(zones), totalPages, old(Used()), pages, flags)
              case Some(k) => paddr == k * 4096 && Used() == old(Used()) + Run(k, pages)
              case None => paddr == 0 && Used() == old(Used())
      ensures 0 in old(Used()) ==> (paddr == 0 <==> Chosen(old(zones), totalPages, old(Used()), pages, flags) == None)
    {
      if pages == 0 {
        return 0;
      }
      hide FindRun, Run, Counted, Partition, SameBounds, Bitmap.Elements;
      SameBoundsSelf(zones);
      var sp, ep := ZoneBounds(flags);
      if sp > totalPages {
        return 0;
      }
      if ep > totalPages {
        ep := totalPages;
      }
      if sp == 0 && ep == 0 {
        return 0;
      }
      var found, chosen := Scan(sp, ep, pages);
      if !found {
        return 0;
      }
      MarkPagesUsed(chosen, pages);
      paddr := chosen * PAGE;
    }

    // The loop of test_alloc_pages: single pages of one zone until there are none.
    method Exhaust(i: nat) returns (calls: nat)
      requires Valid() && i < |zones| && FirstZone(zones, zones[i].flag, 0) == i && 0 in Used()
      modifies this, bitmap.base
      ensures Valid() && SameBounds(old(zones), zones) && old(Used()) <= Used()
      ensures |Used()| == |old(Used())| + calls
      ensures zones[i].usedPages == zones[i].endPage - zones[i].basePage
              <==> Matches(old(zones[i]), totalPages, old(Used()))
    {
      assert SameBounds(zones, zones);
      hide Partition, Counted, SameBounds, Chosen, Bitmap.Elements, FirstZone;
      ghost var z0, u0, flag := zones, Used(), zones[i].flag;
      calls := 0;
      var page := 1;
      while page != 0
        invariant Valid() && SameBounds(z0, zones) && |zones| == |z0|
        invariant u0 <= Used() && |Used()| == |u0| + calls
        invariant z0[i].endPage in Used() <==> z0[i].endPage in u0
        invariant page == 0 ==> Chosen(zones, totalPages, Used(), 1, flag) == None
        decreases page != 0, totalPages - |Used()|
      {
        BoundsKept(z0, zones, i);
        page := TakeOne(zones[i].flag, i, z0);
        if page != 0 {
          calls := calls + 1;
        }
      }
      BoundsKept(z0, zones, i);
      BelowTotal();
      ExhaustedCounter(zones, totalPages, Used(), i);
    }

    lemma BelowTotal()
      requires ZonesCount()
      ensures forall f | f in Used() :: f < totalPages
    {
    }

    // One call of the loop: a new frame below the end of the zone, or none left.
    method TakeOne(flag: bv32, ghost i: nat, ghost z0: seq<PageZone>) returns (page: nat)
      requires Valid() && SameBounds(z0, zones) && 0 in Used()
      requires i < |zones| && FirstZone(zones, flag, 0) == i
      modifies this, bitmap.base
      ensures Valid() && SameBounds(z0, zones) && |zones| == |z0|
      ensures old(Used()) <= Used() && |Used()| == |old(Used())| + (if page == 0 then 0 else 1) <= totalPages
      ensures zones[i].endPage == old(zones[i].endPage)
      ensures zones[i].endPage in Used() <==> zones[i].endPage in old(Used())
      ensures page == 0 ==> Chosen(zones, totalPages, Used(), 1, flag) == None
    {
      ghost var z1, u1 := zones, Used();
      hide Partition, Counted, SameBounds, Chosen, FirstZone, Run, Bitmap.Elements;
      ghost var c := Chosen(z1, totalPages, u1, 1, flag);
      ChosenSingle(z1, totalPages, u1, flag, i);
      page := AllocPages(1, flag);
      SameBoundsTrans(z0, z1, zones);
      ChosenBounds(z1, zones, totalPages, u1, 1, flag);
      BoundsKept(z1, zones, i);
      SameLength(z0, zones);
    }
  }

  lemma {:induction false} FirstZoneBounds(zs: seq<PageZone>, ws: seq<PageZone>, flags: bv32, from: nat)
    requires SameBounds(zs, ws) && from <= |zs|
    ensures FirstZone(zs, flags, from) == FirstZone(ws, flags, from)
    decreases |zs| - from
  {
    hide Overlap;
    if from < |zs| {
      assert ws[from].flag == zs[from].flag;
      FirstZoneBounds(zs, ws, flags, from + 1);
    }
  }

  lemma ChosenBounds(zs: seq<PageZone>, ws: seq<PageZone>, total: nat, used: set<nat>, pages: nat, flags: bv32)
    requires SameBounds(zs, ws)
    ensures Chosen(zs, total, used, pages, flags) == Chosen(ws, total, used, pages, flags)
  {
    hide Overlap;
    FirstZoneBounds(zs, ws, flags, 0);
  }

  lemma SameLength(zs: seq<PageZone>, ws: seq<PageZone>)
    requires SameBounds(zs, ws)
    ensures |zs| == |ws|
  {
  }

  // A single frame comes from inside the zone, and its end page is not touched.
  lemma ChosenSingle(zones: seq<PageZone>, total: nat, used: set<nat>, flag: bv32, i: nat)
    requires i < |zones| && FirstZone(zones, flag, 0) == i
    ensures match Chosen(zones, total, used, 1, flag)
            case Some(k) => k !in used && k < zones[i].endPage && Run(k, 1) == {k}
            case None => true
  {
    if Chosen(zones, total, used, 1, flag).Some? {
      OneFrame(Chosen(zones, total, used, 1, flag).value);
    }
  }

  lemma BoundsKept(zs: seq<PageZone>, ws: seq<PageZone>, i: nat)
    requires SameBounds(zs, ws) && i < |zs|
    ensures ws[i] == zs[i].(usedPages := ws[i].usedPages)
    ensures FirstZone(ws, zs[i].flag, 0) == FirstZone(zs, zs[i].flag, 0)
  {
    FirstZoneBounds(zs, ws, zs[i].flag, 0);
  }

  lemma {:induction false} SubsetSize<T>(a: set<T>, b: set<T>)
    requires a <= b
    ensures |a| <= |b|
  {
    if x :| x in a {
      SubsetSize(a - {x}, b - {x});
    }
  }
}
