// Page frames and zones (include/page.h, cpu/page.c) as values: which frames are
// used, which zone a request is served from, and which run of frames it gets.

module Frames {
  import opened Options

  const PAGE := 0x1000
  const PAGES := 0x10_0000          // 4 GB of 4 KB frames

  const ZONE_DMA: bv32 := 1
  const ZONE_NORMAL: bv32 := 2
  const ZONE_HIGHMEM: bv32 := 4

  predicate Overlap(flags: bv32, flag: bv32) {
    flags & flag != 0
  }

  // The end page is inside the zone for __get_zone and outside it for alloc_pages.
  datatype PageZone = PageZone(flag: bv32, basePage: nat, endPage: nat, usedPages: nat) {
    predicate Contains(page: nat) { basePage <= page <= endPage }
    predicate Serves(flags: bv32) { Overlap(flags, flag) }
  }

  // The zone table that init_paging builds.
  function InitialZones(total: nat): seq<PageZone> {
    [PageZone(ZONE_DMA, 0, 0xfff, 0),
     PageZone(ZONE_NORMAL, 0x1000, if total <= 0x36fff then total else 0x36fff, 0)]
    + if total <= 0x36fff then [] else [PageZone(ZONE_HIGHMEM, 0x37000, total, 0)]
  }

  // ----- Runs of clear frames -----

  predicate FreeRun(used: set<nat>, k: nat, n: nat) {
    forall f | k <= f < k + n :: f !in used
  }

  // The leftmost run of n clear frames inside [lo, hi).
  function FindRun(used: set<nat>, lo: nat, hi: nat, n: nat): (r: Option<nat>)
    ensures r.Some? ==> lo <= r.value && r.value + n <= hi && FreeRun(used, r.value, n)
    ensures r.Some? ==> forall k: nat | lo <= k < r.value :: !FreeRun(used, k, n)
    ensures r.None? ==> forall k: nat | lo <= k && k + n <= hi :: !FreeRun(used, k, n)
    decreases hi - lo
  {
    if lo + n > hi then None
    else if FreeRun(used, lo, n) then Some(lo)
    else if lo == hi then None
    else FindRun(used, lo + 1, hi, n)
  }

  function Min(a: nat, b: nat): nat {
    if a < b then a else b
  }

  function FirstZone(zones: seq<PageZone>, flags: bv32, from: nat): (i: nat)
    requires from <= |zones|
    ensures from <= i <= |zones|
    ensures i < |zones| ==> zones[i].Serves(flags)
    ensures forall k | from <= k < i :: !zones[k].Serves(flags)
    decreases |zones| - from
  {
    if from == |zones| || zones[from].Serves(flags) then from else FirstZone(zones, flags, from + 1)
  }

  // The first frame of the run that alloc_pages hands out.
  function Chosen(zones: seq<PageZone>, total: nat, used: set<nat>, pages: nat, flags: bv32): Option<nat> {
    var i := FirstZone(zones, flags, 0);
    if pages == 0 || i == |zones| then None
    else FindRun(used, zones[i].basePage, Min(zones[i].endPage, total), pages)
  }

  // The n frames from k on.
  function Run(k: nat, n: nat): set<nat> {
    set f: nat | f < k + n && InRun(f, k, n)
  }

  predicate InRun(f: nat, k: nat, n: nat) {
    k <= f < k + n
  }

  lemma RunHas(k: nat, n: nat)
    ensures forall f: nat :: f in Run(k, n) <==> k <= f < k + n
  {
  }

  lemma OneFrame(k: nat)
    ensures Run(k, 1) == {k}
  {
  }

  // ----- Counting -----

  lemma {:induction false} RunSize(k: nat, n: nat)
    ensures |Run(k, n)| == n
  {
    if n == 0 {
    } else {
      assert Run(k, n) == Run(k, n - 1) + {k + n - 1};
      RunSize(k, n - 1);
    }
  }

  function Within(used: set<nat>, z: PageZone): set<nat> {
    set f | f in used && z.Contains(f)
  }

  // Each zone's counter is the number of used frames inside its inclusive bounds.
  ghost predicate Counted(zones: seq<PageZone>, used: set<nat>) {
    forall i | 0 <= i < |zones| :: zones[i].usedPages == |Within(used, zones[i])|
  }

  // The zones are told apart by their flags, do not overlap, and cover memory.
  ghost predicate Partition(zones: seq<PageZone>, total: nat) {
    && (forall i, j | 0 <= i < |zones| && 0 <= j < |zones| && i != j ::
          && zones[i].flag != zones[j].flag
          && (zones[i].endPage < zones[j].basePage || zones[j].endPage < zones[i].basePage))
    && (forall f: nat | f < total :: Zoned(zones, f))
  }

  ghost predicate Zoned(zones: seq<PageZone>, f: nat) {
    exists i | 0 <= i < |zones| :: zones[i].Contains(f)
  }

  function Bump(zones: seq<PageZone>, i: nat): seq<PageZone>
    requires i < |zones|
  {
    zones[i := zones[i].(usedPages := zones[i].usedPages + 1)]
  }

  // Marking one frame and moving the counter of its zone keeps every counter
  // right exactly when the frame was clear.
  lemma BumpCounts(zones: seq<PageZone>, total: nat, used: set<nat>, i: nat, f: nat)
    requires Partition(zones, total) && Counted(zones, used) && i < |zones| && zones[i].Contains(f)
    ensures Partition(Bump(zones, i), total)
    ensures Counted(Bump(zones, i), used + {f}) <==> f !in used
  {
    var after := Bump(zones, i);
    forall g: nat | g < total ensures Zoned(after, g) {
      assert Zoned(zones, g);
      var k :| 0 <= k < |zones| && zones[k].Contains(g);
      assert after[k].Contains(g);
    }
    if f in used {
      assert used + {f} == used;
      assert Within(used, after[i]) == Within(used, zones[i]);
    } else {
      BumpClear(zones, total, used, i, f);
    }
  }

  lemma BumpClear(zones: seq<PageZone>, total: nat, used: set<nat>, i: nat, f: nat)
    requires Partition(zones, total) && Counted(zones, used)
    requires i < |zones| && zones[i].Contains(f) && f !in used
    ensures Counted(Bump(zones, i), used + {f})
  {
    var after := Bump(zones, i);
    forall k | 0 <= k < |after| ensures after[k].usedPages == |Within(used + {f}, after[k])| {
      if k == i {
        assert Within(used + {f}, after[k]) == Within(used, zones[k]) + {f};
      } else {
        assert Within(used + {f}, after[k]) == Within(used, zones[k]);
      }
    }
  }

  // ----- What alloc_pages promises -----

  // It answers NULL exactly when no page was asked for, no zone matches the
  // flags, or the first zone that does has no run long enough.
  lemma ChosenComplete(zones: seq<PageZone>, total: nat, used: set<nat>, pages: nat, flags: bv32)
    ensures var i := FirstZone(zones, flags, 0);
            Chosen(zones, total, used, pages, flags) == None <==>
            || pages == 0
            || i == |zones|
            || forall k: nat | zones[i].basePage <= k && k + pages <= Min(zones[i].endPage, total) ::
                 !FreeRun(used, k, pages)
  {
    var i := FirstZone(zones, flags, 0);
    if pages != 0 && i < |zones| {
      var r := FindRun(used, zones[i].basePage, Min(zones[i].endPage, total), pages);
    }
  }

  // The frames of a zone that are used once no single page can be had from it.
  lemma ExhaustedWithin(zones: seq<PageZone>, total: nat, used: set<nat>, i: nat)
    requires i < |zones| && forall f | f in used :: f < total
    requires FirstZone(zones, zones[i].flag, 0) == i && Chosen(zones, total, used, 1, zones[i].flag) == None
    ensures var z := zones[i]; var hi := Min(z.endPage, total);
            var last := if z.endPage in used then {z.endPage} else {};
            Within(used, z) == if z.basePage <= hi then Run(z.basePage, hi - z.basePage) + last else {}
  {
    var z := zones[i];
    var hi := Min(z.endPage, total);
    forall f: nat | z.basePage <= f < hi ensures f in used {
      assert !FreeRun(used, f, 1);
    }
    if z.basePage <= hi {
      RunHas(z.basePage, hi - z.basePage);
    }
  }

  // Then the zone's counter equals end - base exactly when the zone is not empty,
  // its end page is unused, and it lies inside memory (or is one page wide).
  lemma ExhaustedCounter(zones: seq<PageZone>, total: nat, used: set<nat>, i: nat)
    requires Counted(zones, used) && i < |zones| && forall f | f in used :: f < total
    requires FirstZone(zones, zones[i].flag, 0) == i && Chosen(zones, total, used, 1, zones[i].flag) == None
    ensures zones[i].usedPages == zones[i].endPage - zones[i].basePage <==> Matches(zones[i], total, used)
  {
    var z := zones[i];
    var hi := Min(z.endPage, total);
    ExhaustedWithin(zones, total, used, i);
    if z.basePage <= hi {
      var all := Run(z.basePage, hi - z.basePage);
      RunHas(z.basePage, hi - z.basePage);
      RunSize(z.basePage, hi - z.basePage);
      assert z.endPage in used ==> z.endPage !in all;
    }
    hide Chosen, FirstZone, Run;
  }

  predicate Matches(z: PageZone, total: nat, used: set<nat>) {
    z.basePage <= z.endPage && z.endPage !in used && (z.endPage <= total || z.endPage == z.basePage)
  }

  // A frame that was handed out stays used, so a zone once exhausted stays so.
  lemma ExhaustedStays(zones: seq<PageZone>, total: nat, used: set<nat>, later: set<nat>, pages: nat, flags: bv32)
    requires used <= later && Chosen(zones, total, used, pages, flags) == None
    ensures Chosen(zones, total, later, pages, flags) == None
  {
    var i := FirstZone(zones, flags, 0);
    if pages != 0 && i < |zones| {
      var r := FindRun(later, zones[i].basePage, Min(zones[i].endPage, total), pages);
      if r.Some? {
        assert FreeRun(used, r.value, pages);
      }
    }
  }

  // ----- Whole histories of calls -----

  function Request(zones: seq<PageZone>, total: nat, used: set<nat>, pages: nat, flags: bv32): set<nat> {
    match Chosen(zones, total, used, pages, flags)
    case Some(k) => used + Run(k, pages)
    case None => used
  }

  function History(zones: seq<PageZone>, total: nat, used: set<nat>, calls: seq<(nat, bv32)>): set<nat>
    decreases |calls|
  {
    if calls == [] then used
    else History(zones, total, Request(zones, total, used, calls[0].0, calls[0].1), calls[1..])
  }

  // The end page of a zone belongs to it when frames are counted, and is never
  // handed out.
  lemma EndNeverGranted(zones: seq<PageZone>, total: nat, used: set<nat>, pages: nat, flags: bv32, i: nat)
    requires Partition(zones, total) && i < |zones| && zones[i].basePage <= zones[i].endPage
    requires zones[i].endPage !in used
    ensures zones[i].endPage !in Request(zones, total, used, pages, flags)
  {
    if Chosen(zones, total, used, pages, flags).Some? {
      RunHas(Chosen(zones, total, used, pages, flags).value, pages);
    }
  }

  lemma {:induction false} HistoryKeepsEnd(zones: seq<PageZone>, total: nat, used: set<nat>,
                                           calls: seq<(nat, bv32)>, i: nat)
    requires Partition(zones, total) && i < |zones| && zones[i].basePage <= zones[i].endPage
    requires zones[i].endPage !in used
    ensures zones[i].endPage !in History(zones, total, used, calls)
    decreases |calls|
  {
    if calls == [] {
    } else {
      EndNeverGranted(zones, total, used, calls[0].0, calls[0].1, i);
      hide Partition, Request;
      HistoryKeepsEnd(zones, total, Request(zones, total, used, calls[0].0, calls[0].1), calls[1..], i);
    }
  }

  // What the test after exhaustion claims, whatever was allocated before.
  lemma ExhaustedAfterHistory(zones: seq<PageZone>, total: nat, used: set<nat>, calls: seq<(nat, bv32)>,
                              after: seq<PageZone>, i: nat)
    requires Partition(zones, total) && i < |zones| && zones[i].basePage <= zones[i].endPage
    requires zones[i].endPage !in used && FirstZone(after, zones[i].flag, 0) == i < |after|
    requires var later := History(zones, total, used, calls);
             && Counted(after, later) && (forall f | f in later :: f < total)
             && Chosen(after, total, later, 1, zones[i].flag) == None
    requires after[i] == zones[i].(usedPages := after[i].usedPages)
    ensures after[i].usedPages == zones[i].endPage - zones[i].basePage
            <==> zones[i].endPage <= total || zones[i].endPage == zones[i].basePage
  {
    HistoryKeepsEnd(zones, total, used, calls, i);
    hide History, Counted, Chosen, Partition;
    ExhaustedCounter(after, total, History(zones, total, used, calls), i);
  }

  // ----- Which frames a request gets -----

  // A request that is served gets the leftmost run of clear frames of the first
  // zone that matches.
  lemma ChosenLeftmost(zones: seq<PageZone>, total: nat, used: set<nat>, pages: nat, flags: bv32, k: nat)
    requires Chosen(zones, total, used, pages, flags) == Some(k)
    ensures var i := FirstZone(zones, flags, 0);
            && pages > 0 && i < |zones|
            && zones[i].basePage <= k && k + pages <= zones[i].endPage && k + pages <= total
            && FreeRun(used, k, pages) && forall j: nat | zones[i].basePage <= j < k :: !FreeRun(used, j, pages)
  {
  }

  // With the zones of init_paging the flags 1, 2 and 4 ask, in this order, for the
  // frames below 16 MB, those up to 880 MB, and those above.
  lemma ZoneRequested(total: nat, flags: bv32)
    ensures var zones := InitialZones(total); var i := FirstZone(zones, flags, 0);
            if flags & 1 != 0 then i < |zones| && zones[i].basePage == 0 && zones[i].endPage == 0xfff
            else if flags & 2 != 0
            then i < |zones| && zones[i].basePage == 0x1000 && zones[i].endPage == Min(total, 0x36fff)
            else if flags & 4 != 0 && total > 0x36fff
            then i < |zones| && zones[i].basePage == 0x37000 && zones[i].endPage == total
            else i == |zones|
  {
    var zones := InitialZones(total);
    assert FirstZone(zones, flags, 2) == if |zones| > 2 && zones[2].Serves(flags) then 2 else |zones|;
    assert FirstZone(zones, flags, 1) == if zones[1].Serves(flags) then 1 else FirstZone(zones, flags, 2);
    assert FirstZone(zones, flags, 0) == if zones[0].Serves(flags) then 0 else FirstZone(zones, flags, 1);
  }
}
