/**
 Allocation from the boot memory map (kernel/mem.c): finding the highest or lowest
 aligned place in free memory, and reserving it.
 */
module BootMemory {
  import opened Common
  import opened Arithmetic
  import opened Bits
  import opened Intervals
  import opened MemoryRegions
  import opened FreeRanges
  import opened RangeWalk
  import opened RegionTable

  /** MEM_ALLOC_ACCESSIBLE */
  const ACCESSIBLE := 0

  /** A request: size, alignment, and the window it may lie in. */
  datatype Request = Request(size: nat, align: nat, start: int, end: int)

  ghost predicate RequestOk(q: Request) {
    q.align > 0 && 0 < q.start <= q.end
  }

  /** p is a spot for the request: in the window, wholly in memory and outside reserved. */
  ghost predicate Spot(mem: seq<Run>, rsv: seq<Run>, q: Request, p: int) {
    q.start <= p && p + q.size <= q.end && forall x :: p <= x < p + q.size ==> Free(mem, rsv, x)
  }

  /** A place is a spot that is a multiple of the alignment. */
  ghost predicate Place(mem: seq<Run>, rsv: seq<Run>, q: Request, p: int)
    requires q.align > 0
  {
    p % q.align == 0 && Spot(mem, rsv, q, p)
  }

  /** A stretch of covered numbers lies in one run. */
  lemma InOneRun(list: seq<Run>, p: int, size: nat) returns (i: nat)
    requires Coalesced(list) && size > 0 && forall x :: p <= x < p + size ==> Covers(list, x)
    ensures i < |list| && list[i].start <= p && p + size <= list[i].end
  {
    assert Covers(list, p);
    i :| 0 <= i < |list| && list[i].start <= p < list[i].end;
    assert !Covers(list, list[i].end);
  }

  function Clamp(x: int, low: int, high: int): int {
    Min(Max(x, low), high)
  }

  /** p is a spot, or a place, for the request inside the run. */
  predicate SpotIn(r: Run, q: Request, p: int) {
    q.start <= p && p + q.size <= q.end && r.start <= p && p + q.size <= r.end
  }

  predicate PlaceIn(r: Run, q: Request, p: int)
    requires q.align > 0
  {
    p % q.align == 0 && SpotIn(r, q, p)
  }

  ghost predicate Proper(r: Run) {
    0 <= r.start < r.end
  }

  // ----- the candidate of one range

  /** What the downward search returns from one range, 0 to go on. */
  ghost function TopIn(r: Run, q: Request): (p: nat)
    requires RequestOk(q) && Proper(r)
    ensures q.size > 0 && p != 0 ==> SpotIn(r, q, p)
  {
    var low, high := Clamp(r.start, q.start, q.end), Clamp(r.end, q.start, q.end);
    if high < q.size then 0
    else
      var cand := MaskDown(high - q.size, q.align);
      AndNotBelow(high - q.size, q.align - 1);
      if cand >= low then cand else 0
  }

  /** What the upward search returns from one range, 0 to go on. */
  ghost function BottomIn(r: Run, q: Request): (p: nat)
    requires RequestOk(q) && Proper(r)
    ensures q.size > 0 && p != 0 ==> SpotIn(r, q, p)
  {
    var low, high := Clamp(r.start, q.start, q.end), Clamp(r.end, q.start, q.end);
    var cand := MaskUp(low, q.align);
    OrAbove(low - 1, q.align - 1);
    if cand < high && high - cand >= q.size then cand else 0
  }

  /** For a power of two the candidate of the downward search is the highest place in the range, or there is none. */
  lemma HighestInRange(r: Run, q: Request, p: int)
    requires RequestOk(q) && q.size > 0 && Proper(r) && IsPowerOfTwo(q.align)
    ensures
      var top := TopIn(r, q);
      if top == 0 then !PlaceIn(r, q, p) else PlaceIn(r, q, top) && (PlaceIn(r, q, p) ==> p <= top)
  {
    var low, high := Clamp(r.start, q.start, q.end), Clamp(r.end, q.start, q.end);
    if high >= q.size {
      MaskDownIsHighest(high - q.size, q.align, if p >= 0 then p else 0);
    }
  }

  /** For a power of two the candidate of the upward search is the lowest place in the range, or there is none. */
  lemma LowestInRange(r: Run, q: Request, p: int)
    requires RequestOk(q) && q.size > 0 && Proper(r) && IsPowerOfTwo(q.align)
    ensures
      var bottom := BottomIn(r, q);
      if bottom == 0 then !PlaceIn(r, q, p) else PlaceIn(r, q, bottom) && (PlaceIn(r, q, p) ==> bottom <= p)
  {
    var low := Clamp(r.start, q.start, q.end);
    MaskUpIsLowest(low, q.align, if p >= 0 then p else 0);
  }

  // ----- all ranges

  /** Spots and places for a request are those in the ranges of the walk. */
  lemma SpotsAreInRanges(mem: seq<Run>, rsv: seq<Run>, q: Request, p: int)
    requires Listed(mem) && Listed(rsv) && q.size > 0
    ensures Spot(mem, rsv, q, p) <==>
              exists k :: 0 <= k < |FreeParts(mem, rsv)| && SpotIn(FreeParts(mem, rsv)[k], q, p)
  {
    var list := FreeParts(mem, rsv);
    UpwardWalk(mem, rsv);
    if Spot(mem, rsv, q, p) {
      var k := InOneRun(list, p, q.size);
      assert SpotIn(list[k], q, p);
    }
    if k :| 0 <= k < |list| && SpotIn(list[k], q, p) {
      forall x | p <= x < p + q.size ensures Free(mem, rsv, x) {
        assert Covers(list, x);
      }
    }
  }

  lemma PlacesAreInRanges(mem: seq<Run>, rsv: seq<Run>, q: Request, p: int)
    requires Listed(mem) && Listed(rsv) && q.align > 0 && q.size > 0
    ensures Place(mem, rsv, q, p) <==>
              exists k :: 0 <= k < |FreeParts(mem, rsv)| && PlaceIn(FreeParts(mem, rsv)[k], q, p)
  {
    SpotsAreInRanges(mem, rsv, q, p);
  }

  ghost predicate Highest(mem: seq<Run>, rsv: seq<Run>, q: Request, p: int)
    requires q.align > 0
  {
    Place(mem, rsv, q, p) && forall o :: Place(mem, rsv, q, o) ==> o <= p
  }

  ghost predicate Lowest(mem: seq<Run>, rsv: seq<Run>, q: Request, p: int)
    requires q.align > 0
  {
    Place(mem, rsv, q, p) && forall o :: Place(mem, rsv, q, o) ==> p <= o
  }

  /** The result of the downward search over rising ranges, and of the upward one. */
  ghost function SearchDown(list: seq<Run>, q: Request): nat
    requires RequestOk(q) && forall i :: 0 <= i < |list| ==> Proper(list[i])
    decreases |list|
  {
    if list == [] then 0
    else
      var n := |list| - 1;
      if TopIn(list[n], q) != 0 then TopIn(list[n], q) else SearchDown(list[..n], q)
  }

  ghost function SearchUp(list: seq<Run>, q: Request): nat
    requires RequestOk(q) && forall i :: 0 <= i < |list| ==> Proper(list[i])
    decreases |list|
  {
    if list == [] then 0 else if BottomIn(list[0], q) != 0 then BottomIn(list[0], q) else SearchUp(list[1..], q)
  }

  /** For every alignment a search ends in a spot of one of the ranges. */
  lemma {:induction false} SearchDownIn(list: seq<Run>, q: Request)
    requires RequestOk(q) && q.size > 0 && Coalesced(list)
    ensures SearchDown(list, q) != 0 ==> exists k :: 0 <= k < |list| && SpotIn(list[k], q, SearchDown(list, q))
    decreases |list|
  {
    if list != [] {
      var n := |list| - 1;
      SearchDownIn(list[..n], q);
      assert TopIn(list[n], q) != 0 ==> SpotIn(list[n], q, TopIn(list[n], q));
      if TopIn(list[n], q) == 0 && SearchDown(list, q) != 0 {
        var k :| 0 <= k < n && SpotIn(list[..n][k], q, SearchDown(list, q));
        assert list[..n][k] == list[k];
      }
    }
  }

  lemma {:induction false} SearchUpIn(list: seq<Run>, q: Request)
    requires RequestOk(q) && q.size > 0 && Coalesced(list)
    ensures SearchUp(list, q) != 0 ==> exists k :: 0 <= k < |list| && SpotIn(list[k], q, SearchUp(list, q))
    decreases |list|
  {
    if list != [] {
      SearchUpIn(list[1..], q);
      if BottomIn(list[0], q) == 0 && SearchUp(list, q) != 0 {
        var k :| 0 <= k < |list| - 1 && SpotIn(list[1..][k], q, SearchUp(list, q));
        assert list[1..][k] == list[k + 1];
      }
    }
  }

  /** For a power of two it ends in the best place of all, and in 0 only if there is none. */
  lemma {:induction false} SearchDownBest(list: seq<Run>, q: Request, k: nat, o: int)
    requires RequestOk(q) && q.size > 0 && Coalesced(list) && IsPowerOfTwo(q.align)
    requires k < |list| && PlaceIn(list[k], q, o)
    ensures SearchDown(list, q) != 0 && SearchDown(list, q) % q.align == 0 && o <= SearchDown(list, q)
    decreases |list|
  {
    var n := |list| - 1;
    HighestInRange(list[n], q, o);
    if k < n {
      SearchDownBest(list[..n], q, k, o);
    }
  }

  lemma {:induction false} SearchUpBest(list: seq<Run>, q: Request, k: nat, o: int)
    requires RequestOk(q) && q.size > 0 && Coalesced(list) && IsPowerOfTwo(q.align)
    requires k < |list| && PlaceIn(list[k], q, o)
    ensures SearchUp(list, q) != 0 && SearchUp(list, q) % q.align == 0 && SearchUp(list, q) <= o
    decreases |list|
  {
    LowestInRange(list[0], q, o);
    if k > 0 {
      assert list[1..][k - 1] == list[k];
      SearchUpBest(list[1..], q, k - 1, o);
    }
  }

  lemma {:induction false} SearchDownAligned(list: seq<Run>, q: Request)
    requires RequestOk(q) && q.size > 0 && Coalesced(list) && IsPowerOfTwo(q.align)
    ensures SearchDown(list, q) != 0 ==> SearchDown(list, q) % q.align == 0
    decreases |list|
  {
    if list != [] {
      var n := |list| - 1;
      HighestInRange(list[n], q, 0);
      SearchDownAligned(list[..n], q);
    }
  }

  lemma {:induction false} SearchUpAligned(list: seq<Run>, q: Request)
    requires RequestOk(q) && q.size > 0 && Coalesced(list) && IsPowerOfTwo(q.align)
    ensures SearchUp(list, q) != 0 ==> SearchUp(list, q) % q.align == 0
    decreases |list|
  {
    if list != [] {
      LowestInRange(list[0], q, 0);
      SearchUpAligned(list[1..], q);
    }
  }

  /** The downward search: a spot for every alignment; for a power of two the highest place, 0 if there is none. */
  lemma SearchDownFinds(mem: seq<Run>, rsv: seq<Run>, q: Request)
    requires Listed(mem) && Listed(rsv) && RequestOk(q) && q.size > 0
    ensures
      var p := SearchDown(FreeParts(mem, rsv), q);
      && (p != 0 ==> Spot(mem, rsv, q, p))
      && (IsPowerOfTwo(q.align) ==> if p == 0 then forall o :: !Place(mem, rsv, q, o) else Highest(mem, rsv, q, p))
  {
    var list := FreeParts(mem, rsv);
    var p := SearchDown(list, q);
    SearchDownIn(list, q);
    SpotsAreInRanges(mem, rsv, q, p);
    if IsPowerOfTwo(q.align) {
      SearchDownAligned(list, q);
      forall o | Place(mem, rsv, q, o) ensures p != 0 && o <= p {
        PlacesAreInRanges(mem, rsv, q, o);
        var k :| 0 <= k < |list| && PlaceIn(list[k], q, o);
        SearchDownBest(list, q, k, o);
      }
    }
  }

  lemma SearchUpFinds(mem: seq<Run>, rsv: seq<Run>, q: Request)
    requires Listed(mem) && Listed(rsv) && RequestOk(q) && q.size > 0
    ensures
      var p := SearchUp(FreeParts(mem, rsv), q);
      && (p != 0 ==> Spot(mem, rsv, q, p))
      && (IsPowerOfTwo(q.align) ==> if p == 0 then forall o :: !Place(mem, rsv, q, o) else Lowest(mem, rsv, q, p))
  {
    var list := FreeParts(mem, rsv);
    var p := SearchUp(list, q);
    SearchUpIn(list, q);
    SpotsAreInRanges(mem, rsv, q, p);
    if IsPowerOfTwo(q.align) {
      SearchUpAligned(list, q);
      forall o | Place(mem, rsv, q, o) ensures p != 0 && p <= o {
        PlacesAreInRanges(mem, rsv, q, o);
        var k :| 0 <= k < |list| && PlaceIn(list[k], q, o);
        SearchUpBest(list, q, k, o);
      }
    }
  }

  // ----- the searches as they run

  /** The candidate of the downward search in one range. */
  method TopOfRange(r: Run, q: Request) returns (found: bool, cand: nat)
    requires RequestOk(q) && Proper(r)
    ensures found <==> TopIn(r, q) != 0
    ensures found ==> cand == TopIn(r, q)
  {
    var low, high := Clamp(r.start, q.start, q.end), Clamp(r.end, q.start, q.end);
    if high < q.size {
      return false, 0;
    }
    cand := MaskDown(high - q.size, q.align);
    return cand >= low, cand;
  }

  /** The candidate of the upward search in one range. */
  method BottomOfRange(r: Run, q: Request) returns (found: bool, cand: nat)
    requires RequestOk(q) && Proper(r)
    ensures found <==> BottomIn(r, q) != 0
    ensures found ==> cand == BottomIn(r, q)
  {
    var low, high := Clamp(r.start, q.start, q.end), Clamp(r.end, q.start, q.end);
    cand := MaskUp(low, q.align);
    found := cand < high && high - cand >= q.size;
  }

  /** The loop of __mem_find_range_top_down. */
  method SearchTopDown(mem: seq<Run>, rsv: seq<Run>, q: Request) returns (p: nat)
    requires Listed(mem) && Listed(rsv) && |mem| < INT_LIMIT && |rsv| < INT_LIMIT && RequestOk(q)
    ensures p == SearchDown(FreeParts(mem, rsv), q)
  {
    DownwardWalk(mem, rsv);
    ghost var list := FreeParts(mem, rsv);
    ghost var left := list;
    var found;
    var i, r := NextRangeRev(mem, rsv, TOP);
    while i != TOP
      invariant i == TOP <==> left == []
      invariant i != TOP ==> -1 <= RegionIndex(i) < |mem| && 0 <= GapIndex(i) <= |rsv|
      invariant i != TOP ==> left == Falling(mem, rsv, RegionIndex(i), GapIndex(i)) + [r]
      invariant left <= list && SearchDown(left, q) == SearchDown(list, q)
      decreases |left|
    {
      ghost var n := |left| - 1;
      assert left[n] == r == list[n];
      found, p := TopOfRange(r, q);
      if found {
        return;
      }
      left := left[..n];
      i, r := NextRangeRev(mem, rsv, i);
    }
    return 0;
  }

  /** __mem_find_range_top_down */
  method FindTopDown(mem: seq<Run>, rsv: seq<Run>, q: Request) returns (p: nat)
    requires Listed(mem) && Listed(rsv) && |mem| < INT_LIMIT && |rsv| < INT_LIMIT && RequestOk(q)
    ensures p == SearchDown(FreeParts(mem, rsv), q)
    ensures q.size > 0 && p != 0 ==> Spot(mem, rsv, q, p)
    ensures q.size > 0 && IsPowerOfTwo(q.align) ==>
              if p == 0 then forall o :: !Place(mem, rsv, q, o) else Highest(mem, rsv, q, p)
  {
    if q.size > 0 {
      SearchDownFinds(mem, rsv, q);
    }
    p := SearchTopDown(mem, rsv, q);
  }

  /** The loop of __mem_find_range_bottom_up. */
  method SearchBottomUp(mem: seq<Run>, rsv: seq<Run>, q: Request) returns (p: nat)
    requires Listed(mem) && Listed(rsv) && |mem| < INT_LIMIT - 1 && |rsv| < INT_LIMIT - 1 && RequestOk(q)
    ensures p == SearchUp(FreeParts(mem, rsv), q)
  {
    ghost var list := FreeParts(mem, rsv);
    ghost var n: nat := 0;
    var found;
    var i, r := NextRange(mem, rsv, 0);
    assert list[0..] == list;
    while i != TOP
      invariant n <= |list| && (i == TOP <==> n == |list|)
      invariant i != TOP ==> 0 <= RegionIndex(i) <= |mem| && 0 <= GapIndex(i) <= |rsv| + 1
      invariant i != TOP ==> list[n..] == [r] + Rising(mem, rsv, RegionIndex(i), GapIndex(i))
      invariant SearchUp(list[n..], q) == SearchUp(list, q)
      decreases |list| - n
    {
      ghost var left := list[n..];
      assert left[0] == r == list[n] && left[1..] == Rising(mem, rsv, RegionIndex(i), GapIndex(i));
      found, p := BottomOfRange(r, q);
      if found {
        return;
      }
      n := n + 1;
      assert list[n..] == left[1..];
      i, r := NextRange(mem, rsv, i);
    }
    return 0;
  }

  /** __mem_find_range_bottom_up */
  method FindBottomUp(mem: seq<Run>, rsv: seq<Run>, q: Request) returns (p: nat)
    requires Listed(mem) && Listed(rsv) && |mem| < INT_LIMIT - 1 && |rsv| < INT_LIMIT - 1 && RequestOk(q)
    ensures p == SearchUp(FreeParts(mem, rsv), q)
    ensures q.size > 0 && p != 0 ==> Spot(mem, rsv, q, p)
    ensures q.size > 0 && IsPowerOfTwo(q.align) ==>
              if p == 0 then forall o :: !Place(mem, rsv, q, o) else Lowest(mem, rsv, q, p)
  {
    if q.size > 0 {
      SearchUpFinds(mem, rsv, q);
    }
    p := SearchBottomUp(mem, rsv, q);
  }

  /** The window of a request: an end of 0 stands for the limit, the first page is never in it. */
  function Window(size: nat, align: nat, start: nat, end: nat, pageSize: nat, limit: nat): Request {
    var low := Max(start, pageSize);
    Request(size, align, low, Max(low, if end == ACCESSIBLE then limit else end))
  }

  /** The part of the window above the kernel image. */
  function AboveKernel(q: Request, kernelEnd: nat): Request {
    q.(start := Max(q.start, kernelEnd))
  }

  /** What mem_find_in_range returns for the window q. */
  ghost function Search(list: seq<Run>, q: Request, bottomUp: bool, kernelEnd: nat): nat
    requires RequestOk(q) && forall i :: 0 <= i < |list| ==> Proper(list[i])
  {
    if bottomUp && q.end > kernelEnd && SearchUp(list, AboveKernel(q, kernelEnd)) != 0
    then SearchUp(list, AboveKernel(q, kernelEnd))
    else SearchDown(list, q)
  }

  /** p is the best place in the window: lowest above the kernel if asked for, else highest; 0 if there is none. */
  ghost predicate Best(mem: seq<Run>, rsv: seq<Run>, q: Request, bottomUp: bool, kernelEnd: nat, p: nat)
    requires q.align > 0
  {
    var above := AboveKernel(q, kernelEnd);
    && (p == 0 <==> forall o :: !Place(mem, rsv, q, o))
    && (p != 0 ==> Place(mem, rsv, q, p))
    && (p != 0 && !(bottomUp && q.end > kernelEnd) ==> Highest(mem, rsv, q, p))
    && (p != 0 && bottomUp && q.end > kernelEnd ==>
          || Lowest(mem, rsv, above, p)
          || (Highest(mem, rsv, q, p) && forall o :: !Place(mem, rsv, above, o)))
  }

  /** For every alignment the result is a spot in the window; for a power of two it is the best place. */
  ghost predicate Found(mem: seq<Run>, rsv: seq<Run>, q: Request, bottomUp: bool, kernelEnd: nat, p: nat)
    requires q.align > 0
  {
    && (p != 0 ==> Spot(mem, rsv, q, p))
    && (IsPowerOfTwo(q.align) ==> Best(mem, rsv, q, bottomUp, kernelEnd, p))
  }

  /** The search in a window. */
  method FindInWindow(mem: seq<Run>, rsv: seq<Run>, q: Request, bottomUp: bool, kernelEnd: nat) returns (p: nat)
    requires Listed(mem) && Listed(rsv) && |mem| < INT_LIMIT - 1 && |rsv| < INT_LIMIT - 1 && RequestOk(q)
    ensures p == Search(FreeParts(mem, rsv), q, bottomUp, kernelEnd)
    ensures q.size > 0 ==> Found(mem, rsv, q, bottomUp, kernelEnd, p)
  {
    if bottomUp && q.end > kernelEnd {
      p := FindBottomUp(mem, rsv, AboveKernel(q, kernelEnd));
      if p != 0 {
        if q.size > 0 && IsPowerOfTwo(q.align) {
          assert Place(mem, rsv, q, p);
        }
        return;
      }
    }
    p := FindTopDown(mem, rsv, q);
  }

  /** mem_find_in_range */
  method FindInRange(mem: seq<Run>, rsv: seq<Run>, size: nat, align: nat, start: nat, end: nat,
                     pageSize: nat, limit: nat, bottomUp: bool, kernelEnd: nat)
    returns (p: nat)
    requires Listed(mem) && Listed(rsv) && |mem| < INT_LIMIT - 1 && |rsv| < INT_LIMIT - 1 && align > 0 && pageSize > 0
    ensures
      var q := Window(size, align, start, end, pageSize, limit);
      && p == Search(FreeParts(mem, rsv), q, bottomUp, kernelEnd)
      && (size > 0 ==> Found(mem, rsv, q, bottomUp, kernelEnd, p))
  {
    var high := end;
    if high == ACCESSIBLE {
      high := limit;
    }
    var low := Max(start, pageSize);
    p := FindInWindow(mem, rsv, Request(size, align, low, Max(low, high)), bottomUp, kernelEnd);
  }

  lemma StaysBelowTop(mem: seq<Run>, rsv: seq<Run>, after: seq<Run>, q: Request, p: int)
    requires Listed(mem) && Listed(rsv) && Regular(after) && q.size > 0
    requires Spot(mem, rsv, q, p) && Union(rsv, after, p, p + q.size)
    ensures Listed(after)
  {
    if after != DUMMY {
      forall i | 0 <= i < |after| ensures after[i].end <= TOP {
        var x := after[i].end - 1;
        assert Covers(after, x);
        assert Covers(rsv, x) || Free(mem, rsv, x);
      }
    }
  }

  /** The two tables and the settings of the allocator. */
  class Map {
    const memory: Table
    const reserved: Table
    const pageSize: nat
    const cacheBytes: nat
    const kernelEnd: nat
    var bottomUp: bool
    var limit: nat

    ghost predicate Valid()
      reads this, memory, memory.regions, reserved, reserved.regions
    {
      && memory != reserved && memory.regions != reserved.regions
      && memory.Valid() && reserved.Valid() && Listed(memory.List()) && Listed(reserved.List())
      && memory.regions.Length < INT_LIMIT - 1 && reserved.regions.Length < INT_LIMIT - 1
      && pageSize > 0 && cacheBytes > 0
    }

    constructor (max: nat, pageSize: nat, cacheBytes: nat, kernelEnd: nat, limit: nat)
      requires 0 < max < INT_LIMIT - 1 && pageSize > 0 && cacheBytes > 0
      ensures Valid() && memory.List() == DUMMY && reserved.List() == DUMMY
      ensures fresh(memory) && fresh(memory.regions) && fresh(reserved) && fresh(reserved.regions)
      ensures memory.regions.Length == reserved.regions.Length == max
      ensures this.limit == limit && this.kernelEnd == kernelEnd && !bottomUp
      ensures this.pageSize == pageSize && this.cacheBytes == cacheBytes
    {
      memory := new Table(max);
      reserved := new Table(max);
      this.pageSize, this.cacheBytes, this.kernelEnd := pageSize, cacheBytes, kernelEnd;
      bottomUp, this.limit := false, limit;
    }

    /** The request that mem_alloc_range searches for. */
    function Asked(size: nat, align: nat, start: nat, end: nat): Request
      reads this
    {
      Window(size, if align == 0 then cacheBytes else align, start, end, pageSize, limit)
    }

    /** Whether the reserved table has room for the range; otherwise the source stops with BUG. */
    ghost predicate RoomFor(p: nat, size: nat)
      reads this, reserved, reserved.regions
      requires reserved.cnt <= reserved.regions.Length
    {
      || p == 0 || size == 0 || reserved.List() == DUMMY
      || reserved.cnt + NewCount(reserved.List(), p, p + size) <= reserved.regions.Length
    }

    /** mem_reserve of a spot that was found. */
    method Reserve(p: nat, size: nat, ghost q: Request) returns (ok: bool)
      requires Valid() && (p != 0 && size > 0 ==> q.size == size && Spot(memory.List(), reserved.List(), q, p))
      modifies reserved, reserved.regions
      ensures Valid() && memory.List() == old(memory.List())
      ensures ok <==> old(RoomFor(p, size))
      ensures ok && p != 0 ==> Union(old(reserved.List()), reserved.List(), p, p + size)
      ensures !ok || p == 0 ==> reserved.List() == old(reserved.List())
    {
      ghost var mem, rsv := memory.List(), reserved.List();
      ok := true;
      if p != 0 {
        ok := reserved.AddRange(p, size);
        if ok && size > 0 {
          StaysBelowTop(mem, rsv, reserved.List(), q, p);
        }
      }
    }

    /** mem_alloc_range: what is found becomes reserved. */
    method AllocRange(size: nat, align: nat, start: nat, end: nat) returns (ok: bool, p: nat)
      requires Valid()
      modifies reserved, reserved.regions
      ensures Valid() && memory.List() == old(memory.List())
      ensures p == Search(FreeParts(memory.List(), old(reserved.List())), Asked(size, align, start, end), bottomUp,
                          kernelEnd)
      ensures size > 0 ==>
                Found(memory.List(), old(reserved.List()), Asked(size, align, start, end), bottomUp, kernelEnd, p)
      ensures ok <==> old(RoomFor(p, size))
      ensures ok && p != 0 ==> Union(old(reserved.List()), reserved.List(), p, p + size)
      ensures !ok || p == 0 ==> reserved.List() == old(reserved.List())
    {
      var unit := if align == 0 then cacheBytes else align;
      ghost var q := Asked(size, align, start, end);
      p := FindInRange(memory.regions[..memory.cnt], reserved.regions[..reserved.cnt],
                       size, unit, start, end, pageSize, limit, bottomUp, kernelEnd);
      ok := Reserve(p, size, q);
    }

    /** mem_alloc: from the first page up to the limit. */
    method Alloc(size: nat, align: nat) returns (ok: bool, p: nat)
      requires Valid()
      modifies reserved, reserved.regions
      ensures Valid() && memory.List() == old(memory.List())
      ensures
        var q := Request(size, if align == 0 then cacheBytes else align, pageSize, Max(pageSize, limit));
        && p == Search(FreeParts(memory.List(), old(reserved.List())), q, bottomUp, kernelEnd)
        && (size > 0 ==> Found(memory.List(), old(reserved.List()), q, bottomUp, kernelEnd, p))
        && (size > 0 && IsPowerOfTwo(q.align) && !bottomUp && p != 0 ==>
              Highest(memory.List(), old(reserved.List()), q, p))
      ensures ok <==> old(RoomFor(p, size))
      ensures ok && p != 0 ==> Union(old(reserved.List()), reserved.List(), p, p + size)
      ensures !ok || p == 0 ==> reserved.List() == old(reserved.List())
    {
      ok, p := AllocRange(size, align, 0, ACCESSIBLE);
    }
  }

  /** Over every run of allocations, whatever the alignments, no two results overlap. */
  lemma ResultsNeverOverlap(mem: seq<Run>, rsv: seq<seq<Run>>, q: seq<Request>, p: seq<int>, i: nat, j: nat, x: int)
    requires |rsv| == |q| + 1 && |p| == |q| && i < j < |q|
    requires forall k :: 0 <= k < |q| ==> Spot(mem, rsv[k], q[k], p[k])
    requires forall k :: 0 <= k < |q| ==> Union(rsv[k], rsv[k + 1], p[k], p[k] + q[k].size)
    ensures !(p[i] <= x < p[i] + q[i].size && p[j] <= x < p[j] + q[j].size)
  {
    if p[i] <= x < p[i] + q[i].size {
      StaysReserved(rsv, q, p, i, j, x);
      assert !Free(mem, rsv[j], x) && Spot(mem, rsv[j], q[j], p[j]);
    }
  }

  lemma {:induction false} StaysReserved(rsv: seq<seq<Run>>, q: seq<Request>, p: seq<int>, i: nat, j: nat, x: int)
    requires |rsv| == |q| + 1 && |p| == |q| && i < j <= |q| && p[i] <= x < p[i] + q[i].size
    requires forall k :: 0 <= k < |q| ==> Union(rsv[k], rsv[k + 1], p[k], p[k] + q[k].size)
    ensures Covers(rsv[j], x)
  {
    if j > i + 1 {
      StaysReserved(rsv, q, p, i, j - 1, x);
    }
    assert Union(rsv[j - 1], rsv[j], p[j - 1], p[j - 1] + q[j - 1].size);
  }

  // ----- an alignment that is no power of two

  const REGION := Run(0x1000, 0x4000)

  /** A map with one region of memory and nothing reserved. */
  method OneRegion() returns (m: Map)
    ensures fresh(m) && fresh(m.memory) && fresh(m.memory.regions) && fresh(m.reserved) && fresh(m.reserved.regions)
    ensures m.Valid() && m.memory.List() == [REGION] && m.reserved.List() == DUMMY && !m.bottomUp
    ensures m.pageSize == 0x1000 && m.limit == TOP && m.reserved.regions.Length == 8
  {
    m := new Map(8, 0x1000, 64, 0, TOP);
    var ok := m.memory.AddRange(0x1000, 0x3000);
    OnlyRange(m.memory.List(), REGION);
  }

  /** The table after the first range. */
  lemma OnlyRange(list: seq<Run>, r: Run)
    requires Regular(list) && Union(DUMMY, list, r.start, r.end) && Proper(r)
    ensures list == [r]
  {
    assert [r][0] == r;
    forall x ensures Covers(list, x) <==> Covers([r], x) {
      assert !Covers(DUMMY, x);
    }
    RegularUnique(list, [r]);
  }

  lemma OneFreeRange(mem: seq<Run>, rsv: seq<Run>, r: Run)
    requires Listed(mem) && Listed(rsv) && Proper(r) && forall x :: Free(mem, rsv, x) <==> r.start <= x < r.end
    ensures FreeParts(mem, rsv) == [r]
  {
    UpwardWalk(mem, rsv);
    assert [r][0] == r;
    assert forall x :: Covers([r], x) <==> r.start <= x < r.end;
    CanonicalList(FreeParts(mem, rsv), [r]);
  }

  /** The mask of an alignment of 48 takes 32 off a number that ends in the bits 110000. */
  lemma MaskOf48(z: nat)
    ensures MaskDown(64 * z + 48, 48) == 64 * z + 16
  {
    assert Two(6) == 64 && AndNot(48, 47) == 16;
    HighPart(z, 48, 6, 47);
  }

  lemma TopOf48(r: Run, q: Request)
    requires Proper(r) && r.end == 0x4000 && 0x1000 <= r.start <= 0x3FF0 && q == Request(16, 48, 0x1000, TOP)
    ensures SearchDown([r], q) == if r.start <= 0x3FD0 then 0x3FD0 else 0
  {
    MaskOf48(0xFF);
    assert Clamp(r.end, q.start, q.end) == r.end && Clamp(r.start, q.start, q.end) == r.start;
    assert TopIn(r, q) == if r.start <= 0x3FD0 then 0x3FD0 else 0;
    assert [r][..0] == [];
  }

  /** 16 bytes aligned to 48: the result is not aligned. */
  method MisalignedAllocation() returns (m: Map, p: nat)
    ensures fresh(m) && p == 0x3FD0 && p % 48 == 16
  {
    m := OneRegion();
    OneFreeRange(m.memory.List(), m.reserved.List(), REGION);
    TopOf48(REGION, Request(16, 48, 0x1000, TOP));
    var ok;
    ok, p := m.Alloc(16, 48);
  }

  /** With only the last 16 bytes free, which are a place for the same request, none is found. */
  method MissedPlace() returns (m: Map, p: nat)
    ensures fresh(m) && m.Valid() && p == 0
    ensures Place(m.memory.List(), m.reserved.List(), Request(16, 48, 0x1000, TOP), 0x3FF0)
  {
    m := OneRegion();
    var ok := m.reserved.AddRange(0x1000, 0x2FF0);
    OnlyRange(m.reserved.List(), Run(0x1000, 0x3FF0));
    OneFreeRange(m.memory.List(), m.reserved.List(), Run(0x3FF0, 0x4000));
    TopOf48(Run(0x3FF0, 0x4000), Request(16, 48, 0x1000, TOP));
    ok, p := m.Alloc(16, 48);
  }
}
