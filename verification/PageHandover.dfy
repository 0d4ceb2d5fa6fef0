/**
 The end of boot (mem_free_all, kernel/mem.c): every free range of the memory map becomes
 free pages of the page allocator.
 */
module PageHandover {
  import opened Intervals
  import opened FreeRanges
  import opened RangeWalk
  import opened BootMemory
  import opened PageAllocator

  /** The page list after the given ranges have been handed over in turn. */
  function HandedOver(runs: seq<Run>, ranges: seq<Run>, pageSize: nat): seq<Run>
    requires pageSize > 0 && forall i :: 0 <= i < |ranges| ==> 0 <= ranges[i].start <= ranges[i].end
    decreases |ranges|
  {
    if ranges == [] then runs
    else
      var page := RegionRun(pageSize, ranges[0].start, ranges[0].end - ranges[0].start);
      HandedOver(Inserted(runs, page), ranges[1..], pageSize)
  }

  /** The page frame lies wholly in one of the ranges. */
  ghost predicate FrameIn(ranges: seq<Run>, pageSize: nat, f: nat) {
    exists i :: 0 <= i < |ranges| && InRange(ranges[i], pageSize, f)
  }

  predicate InRange(r: Run, pageSize: nat, f: nat) {
    r.start <= f * pageSize && (f + 1) * pageSize <= r.end
  }

  ghost predicate HoldsPage(r: Run, pageSize: nat) {
    exists f: nat :: InRange(r, pageSize, f)
  }

  /** The pages of the given ranges, one run for each, whether or not it holds a page. */
  function PagesOf(list: seq<Run>, pageSize: nat): seq<Run>
    requires pageSize > 0 && forall i :: 0 <= i < |list| ==> 0 <= list[i].start <= list[i].end
  {
    seq(|list|, i requires 0 <= i < |list| => RegionRun(pageSize, list[i].start, list[i].end - list[i].start))
  }

  /** Ranges that rise and do not touch have pages that rise and do not touch. */
  lemma PagesRise(list: seq<Run>, i: nat, j: nat, pageSize: nat)
    requires Coalesced(list) && i < j < |list| && pageSize > 0
    ensures
      var a, b := PagesOf(list, pageSize)[i], PagesOf(list, pageSize)[j];
      a.start <= b.start && a.end < b.start
  {
    var x, y, d := list[i], list[j], pageSize;
    var b := (y.start + d - 1) / d;
    QuotientReaches(y.start + d - 1, d, (x.start + d - 1) / d);
    QuotientReaches(y.start + d - 1, d, x.end / d + 1);
    assert (x.end / d + 1) * d == x.end / d * d + d;
  }

  /** Every page run comes behind the ones before it, so the list is that of all page runs. */
  lemma {:induction false} HandedOverIsPages(list: seq<Run>, k: nat, pageSize: nat)
    requires Coalesced(list) && k <= |list| && pageSize > 0
    ensures HandedOver(PagesOf(list, pageSize)[..k], list[k..], pageSize) == PagesOf(list, pageSize)
    decreases |list| - k
  {
    var pages := PagesOf(list, pageSize);
    if k < |list| {
      OneMoreRange(list, k, pageSize);
      assert list[k..][1..] == list[k + 1..];
      HandedOverIsPages(list, k + 1, pageSize);
    } else {
      assert pages[..k] == pages;
    }
  }

  lemma OneMoreRange(list: seq<Run>, k: nat, pageSize: nat)
    requires Coalesced(list) && k < |list| && pageSize > 0
    ensures
      var pages := PagesOf(list, pageSize);
      Behind(pages[..k], pages[k]) && Inserted(pages[..k], pages[k]) == pages[..k + 1]
  {
    var pages := PagesOf(list, pageSize);
    forall i | 0 <= i < k ensures pages[i].start <= pages[k].start && pages[i].end < pages[k].start {
      PagesRise(list, i, k, pageSize);
    }
    InsertedBehind(pages[..k], pages[k], 0);
    assert pages[..k + 1] == pages[..k] + [pages[k]];
  }

  lemma HoldsPageIff(r: Run, pageSize: nat)
    requires pageSize > 0 && 0 <= r.start <= r.end
    ensures
      var page := RegionRun(pageSize, r.start, r.end - r.start);
      HoldsPage(r, pageSize) <==> page.start < page.end
  {
    var page := RegionRun(pageSize, r.start, r.end - r.start);
    if f: nat :| InRange(r, pageSize, f) {
      RegionRunIsInside(pageSize, r.start, r.end - r.start, f);
    }
    if page.start < page.end {
      RegionRunIsInside(pageSize, r.start, r.end - r.start, page.start);
      assert InRange(r, pageSize, page.start);
    }
  }

  /** The page list is in order exactly when every range holds a whole page. */
  lemma PagesInOrderIff(list: seq<Run>, pageSize: nat)
    requires Coalesced(list) && pageSize > 0
    ensures Coalesced(PagesOf(list, pageSize)) <==> forall i :: 0 <= i < |list| ==> HoldsPage(list[i], pageSize)
  {
    var pages := PagesOf(list, pageSize);
    forall i | 0 <= i < |list| ensures HoldsPage(list[i], pageSize) <==> pages[i].start < pages[i].end {
      HoldsPageIff(list[i], pageSize);
    }
    forall i, j | 0 <= i < j < |pages| ensures pages[i].end < pages[j].start {
      PagesRise(list, i, j, pageSize);
    }
    RisingInOrderIff(pages);
  }

  lemma RisingInOrderIff(pages: seq<Run>)
    requires forall i :: 0 <= i < |pages| ==> 0 <= pages[i].start
    requires forall i, j :: 0 <= i < j < |pages| ==> pages[i].end < pages[j].start
    ensures Coalesced(pages) <==> forall i :: 0 <= i < |pages| ==> pages[i].start < pages[i].end
  {
  }

  lemma PagesCover(list: seq<Run>, pageSize: nat, f: nat)
    requires Coalesced(list) && pageSize > 0
    ensures Covers(PagesOf(list, pageSize), f) <==> FrameIn(list, pageSize, f)
  {
    var pages := PagesOf(list, pageSize);
    forall i | 0 <= i < |list| ensures In(pages[i], f) <==> InRange(list[i], pageSize, f) {
      RegionRunIsInside(pageSize, list[i].start, list[i].end - list[i].start, f);
    }
  }

  /**
   For every memory map the pages on the list are exactly those all of whose bytes are free
   memory, and the list is in order if and only if every free range holds a whole page.
   */
  lemma AllFreePages(mem: seq<Run>, rsv: seq<Run>, pageSize: nat, f: nat)
    requires Listed(mem) && Listed(rsv) && pageSize > 0
    ensures
      var list := FreeParts(mem, rsv);
      && (Coalesced(HandedOver([], list, pageSize)) <==> forall i :: 0 <= i < |list| ==> HoldsPage(list[i], pageSize))
      && (Covers(HandedOver([], list, pageSize), f) <==>
            forall x :: f * pageSize <= x < (f + 1) * pageSize ==> Free(mem, rsv, x))
  {
    var list := FreeParts(mem, rsv);
    HandedOverIsPages(list, 0, pageSize);
    assert list[0..] == list && PagesOf(list, pageSize)[..0] == [];
    PagesInOrderIff(list, pageSize);
    PagesCover(list, pageSize, f);
    FrameIsFree(mem, rsv, pageSize, f);
  }

  lemma FrameIsFree(mem: seq<Run>, rsv: seq<Run>, pageSize: nat, f: nat)
    requires Listed(mem) && Listed(rsv) && pageSize > 0
    ensures FrameIn(FreeParts(mem, rsv), pageSize, f) <==>
              forall x :: f * pageSize <= x < (f + 1) * pageSize ==> Free(mem, rsv, x)
  {
    var list, low := FreeParts(mem, rsv), f * pageSize;
    UpwardWalk(mem, rsv);
    assert (f + 1) * pageSize == low + pageSize;
    if forall x :: low <= x < low + pageSize ==> Free(mem, rsv, x) {
      var i := InOneRun(list, low, pageSize);
      assert InRange(list[i], pageSize, f);
    }
    if i :| 0 <= i < |list| && InRange(list[i], pageSize, f) {
      forall x | low <= x < low + pageSize ensures Free(mem, rsv, x) {
        assert Covers(list, x);
      }
    }
  }

  /** A free range between two reservations inside one page puts a run of length -1 on the page list. */
  lemma TinyRangeHandedOver()
    ensures
      var mem, rsv := [Run(0x1000, 0x4000)], [Run(0x1000, 0x1100), Run(0x1200, 0x4000)];
      && FreeParts(mem, rsv) == [Run(0x1100, 0x1200)]
      && HandedOver([], FreeParts(mem, rsv), 0x1000) == [Run(2, 1)]
  {
    var mem, rsv := [Run(0x1000, 0x4000)], [Run(0x1000, 0x1100), Run(0x1200, 0x4000)];
    assert Rising(mem, rsv, 0, 2) == [];
    assert Rising(mem, rsv, 0, 1) == [Run(0x1100, 0x1200)] + Rising(mem, rsv, 0, 2);
    assert Rising(mem, rsv, 0, 0) == Rising(mem, rsv, 0, 1);
    var page := RegionRun(0x1000, 0x1100, 0x100);
    assert page == Run(2, 1);
    assert HandedOver(Inserted([], page), [], 0x1000) == [page];
  }

  lemma NotYetFree(list: seq<Run>, k: nat, pageSize: nat, f: nat)
    requires Coalesced(list) && k < |list| && pageSize > 0 && In(PagesOf(list, pageSize)[k], f)
    ensures !Covers(PagesOf(list, pageSize)[..k], f)
  {
    forall i | 0 <= i < k ensures PagesOf(list, pageSize)[i].end < PagesOf(list, pageSize)[k].start {
      PagesRise(list, i, k, pageSize);
    }
  }

  /** One range goes to the page allocator. */
  method HandOne(pages: FreeList, r: Run, size: nat, ghost list: seq<Run>, ghost k: nat)
    requires Coalesced(list) && k < |list| && r == list[k] && size > 0
    requires pages.runs == PagesOf(list, size)[..k]
    modifies pages
    ensures pages.runs == PagesOf(list, size)[..k + 1]
  {
    OneMoreRange(list, k, size);
    forall f | In(PagesOf(list, size)[k], f) ensures !Covers(pages.runs, f) {
      assert f >= 0;
      NotYetFree(list, k, size, f);
    }
    pages.AddRegion(size, r.start, r.end - r.start);
  }

  /** The walk of mem_free_all. */
  method HandOver(mem: seq<Run>, rsv: seq<Run>, size: nat, pages: FreeList)
    requires Listed(mem) && Listed(rsv) && |mem| < INT_LIMIT - 1 && |rsv| < INT_LIMIT - 1 && size > 0
    requires pages.runs == []
    modifies pages
    ensures pages.runs == PagesOf(FreeParts(mem, rsv), size)
  {
    ghost var list := FreeParts(mem, rsv);
    ghost var k: nat := 0;
    var i, r := NextRange(mem, rsv, 0);
    while i != TOP
      invariant k <= |list| && (i == TOP <==> k == |list|)
      invariant i != TOP ==> 0 <= RegionIndex(i) <= |mem| && 0 <= GapIndex(i) <= |rsv| + 1
      invariant i != TOP ==> list[k..] == [r] + Rising(mem, rsv, RegionIndex(i), GapIndex(i))
      invariant pages.runs == PagesOf(list, size)[..k]
      decreases |list| - k
    {
      ghost var left := list[k..];
      assert r == left[0] && left[1..] == Rising(mem, rsv, RegionIndex(i), GapIndex(i));
      HandOne(pages, r, size, list, k);
      k := k + 1;
      assert list[k..] == left[1..];
      i, r := NextRange(mem, rsv, i);
    }
  }

  /** mem_free_all: the right pages for every memory map, in order if and only if every free range holds a page. */
  method FreeAll(m: Map, pages: FreeList)
    requires m.Valid() && pages.runs == []
    modifies pages
    ensures
      var list := FreeParts(m.memory.List(), m.reserved.List());
      && pages.runs == HandedOver([], list, m.pageSize)
      && (pages.Valid() <==> forall i :: 0 <= i < |list| ==> HoldsPage(list[i], m.pageSize))
    ensures forall f: nat :: Covers(pages.runs, f) <==>
              forall x :: f * m.pageSize <= x < (f + 1) * m.pageSize ==> Free(m.memory.List(), m.reserved.List(), x)
  {
    ghost var mem, rsv := m.memory.List(), m.reserved.List();
    ghost var list := FreeParts(mem, rsv);
    HandOver(m.memory.regions[..m.memory.cnt], m.reserved.regions[..m.reserved.cnt], m.pageSize, pages);
    HandedOverIsPages(list, 0, m.pageSize);
    assert list[0..] == list && PagesOf(list, m.pageSize)[..0] == [];
    forall f: nat ensures Covers(pages.runs, f) <==>
        forall x :: f * m.pageSize <= x < (f + 1) * m.pageSize ==> Free(mem, rsv, x)
    {
      AllFreePages(mem, rsv, m.pageSize, f);
    }
    AllFreePages(mem, rsv, m.pageSize, 0);
  }
}
