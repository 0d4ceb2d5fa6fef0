/**
 One table of the boot memory map (struct mem_type, kernel/mem.c): a fixed array of
 regions, of which the first `cnt` are in use, and the sum of their sizes.
 */
module RegionTable {
  import opened Common
  import opened Intervals
  import opened MemoryRegions

  lemma Regrouped(done: seq<Run>, piece: seq<Run>, rest: seq<Run>, filled: seq<Run>)
    requires rest != []
    ensures done + (piece + ([rest[0]] + filled)) == (done + piece + [rest[0]]) + filled
    ensures done + piece + [rest[0]] + rest[1..] == done + piece + rest
  {
  }

  /** One turn of the inserting pass. */
  lemma FilledTurn(done: seq<Run>, rest: seq<Run>, base: int, end: int) returns (done': seq<Run>)
    requires rest != [] && rest[0].start < end
    ensures |done'| == |done| + |Piece(rest[0], base)| + 1
    ensures done' + Filled(rest[1..], Onward(rest[0], base, end), end) == done + Filled(rest, base, end)
    ensures done' + rest[1..] == done + Piece(rest[0], base) + rest
    ensures |done| + |Piece(rest[0], base)| + |rest| <= |done + Filled(rest, base, end)|
  {
    var piece, low := Piece(rest[0], base), Onward(rest[0], base, end);
    CountIsExact(rest[1..], low, end);
    done' := done + piece + [rest[0]];
    Regrouped(done, piece, rest, Filled(rest[1..], low, end));
  }

  lemma InsertedPiece(done: seq<Run>, r: Run, rest: seq<Run>)
    ensures (done + rest)[..|done|] + [r] + (done + rest)[|done|..] == done + [r] + rest == done + ([r] + rest)
  {
  }

  lemma SizeInsertAt(list: seq<Run>, idx: nat, r: Run)
    requires idx <= |list|
    ensures Size(list[..idx] + [r] + list[idx..]) == Size(list) + (r.end - r.start)
  {
    SizeInsert(list[..idx], r, list[idx..]);
    assert list == list[..idx] + list[idx..];
  }

  lemma SizeJoin(done: seq<Run>, cur: Run, rest: seq<Run>)
    requires rest != [] && cur.end == rest[0].start
    ensures Size(done + [Run(cur.start, rest[0].end)] + rest[1..]) == Size(done + [cur] + rest)
  {
    SizeInsert(done, Run(cur.start, rest[0].end), rest[1..]);
    SizeInsert(done, cur, rest);
    SizeInsert(done, rest[0], rest[1..]);
    assert done + rest == done + [rest[0]] + rest[1..];
  }

  lemma MergedTurn(done: seq<Run>, cur: Run, rest: seq<Run>)
    requires rest != [] && Sorted([cur] + rest)
    ensures cur.end <= rest[0].start
    ensures cur.end < rest[0].start ==>
              && (done + [cur]) + MergedFrom(rest[0], rest[1..]) == done + MergedFrom(cur, rest)
              && (done + [cur]) + [rest[0]] + rest[1..] == done + [cur] + rest && Sorted([rest[0]] + rest[1..])
    ensures cur.end == rest[0].start ==>
              && MergedFrom(Run(cur.start, rest[0].end), rest[1..]) == MergedFrom(cur, rest)
              && Sorted([Run(cur.start, rest[0].end)] + rest[1..])
  {
    SortedTail(cur, rest);
    assert rest == [rest[0]] + rest[1..];
    if cur.end == rest[0].start {
      SortedJoin(cur, rest[0], rest[1..]);
    }
  }

  lemma OnlyRegion(list: seq<Run>, base: int, end: int)
    requires list == [Run(base, end)] && 0 <= base < end
    ensures Regular(list) && Union(DUMMY, list, base, end) && Size(list) == end - base
  {
    assert list[0] == Run(base, end);
  }

  /** How far mem_isolate_range has come: `low` regions below base, the rest before idx inside [base, end). */
  ghost predicate Isolating(list: seq<Run>, low: nat, idx: nat, base: int, end: int, cutLow: bool, cutHigh: bool) {
    && low <= idx <= |list| && Cut(list, base, end)
    && (forall i :: 0 <= i < low ==> list[i].end <= base)
    && (forall i :: low <= i < idx ==> base <= list[i].start && base < list[i].end <= end)
    && (cutLow ==> forall i :: idx <= i < |list| ==> base <= list[i].start)
    && (cutHigh ==> forall i :: idx <= i < |list| ==> list[i].end <= end || end <= list[i].start)
  }

  /** Cuts that may still come. */
  ghost function Cuts(cutLow: bool, cutHigh: bool): nat {
    (if cutLow then 0 else 1) + (if cutHigh then 0 else 1)
  }

  ghost function Turns(left: int, cutLow: bool, cutHigh: bool): int {
    left + (if cutLow then 0 else 1) + (if cutHigh then 0 else 2)
  }

  lemma AfterInside(list: seq<Run>, low: nat, idx: nat, base: int, end: int, cutLow: bool, cutHigh: bool)
    requires Isolating(list, low, idx, base, end, cutLow, cutHigh) && low < idx < |list|
    ensures base < list[idx].start && base < list[idx].end
  {
    assert Before(list[low], list[idx], base, end);
  }

  lemma NoneInsideYet(list: seq<Run>, low: nat, idx: nat, base: int, end: int, cutLow: bool, cutHigh: bool)
    requires Isolating(list, low, idx, base, end, cutLow, cutHigh) && idx < |list|
    requires list[idx].start < base || list[idx].end <= base
    ensures low == idx
  {
    if low < idx {
      AfterInside(list, low, idx, base, end, cutLow, cutHigh);
    }
  }

  lemma TurnBelow(list: seq<Run>, low: nat, idx: nat, base: int, end: int, cutLow: bool, cutHigh: bool)
    requires Isolating(list, low, idx, base, end, cutLow, cutHigh) && idx < |list| && list[idx].end <= base
    ensures low == idx && Isolating(list, idx + 1, idx + 1, base, end, cutLow, cutHigh)
  {
    NoneInsideYet(list, low, idx, base, end, cutLow, cutHigh);
  }

  lemma TurnSplitLow(list: seq<Run>, low: nat, idx: nat, base: int, end: int, cutLow: bool, cutHigh: bool)
    requires Isolating(list, low, idx, base, end, cutLow, cutHigh) && idx < |list|
    requires list[idx].start < base < list[idx].end && base < end
    ensures low == idx && !cutLow && Isolating(SplitAt(list, idx, base), idx + 1, idx + 1, base, end, true, cutHigh)
  {
    NoneInsideYet(list, low, idx, base, end, cutLow, cutHigh);
    SplitCut(list, idx, base, base, end);
    var after := SplitAt(list, idx, base);
    assert after[..idx] == list[..idx] && after[idx] == Run(list[idx].start, base);
    forall i | idx + 1 <= i < |after|
      ensures base <= after[i].start && (cutHigh ==> after[i].end <= end || end <= after[i].start)
    {
      SplitElement(list, idx, base, i);
      if i > idx + 1 {
        assert Before(list[idx], list[i - 1], base, end);
      }
    }
  }

  lemma TurnSplitHigh(list: seq<Run>, low: nat, idx: nat, base: int, end: int, cutLow: bool, cutHigh: bool)
    requires Isolating(list, low, idx, base, end, cutLow, cutHigh) && idx < |list|
    requires list[idx].start < end < list[idx].end
    ensures !cutHigh && Isolating(SplitAt(list, idx, end), low, idx, base, end, cutLow, true)
  {
    SplitCut(list, idx, end, base, end);
    var after := SplitAt(list, idx, end);
    assert after[..idx] == list[..idx];
    forall i | idx <= i < |after|
      ensures (cutLow ==> base <= after[i].start) && (after[i].end <= end || end <= after[i].start)
    {
      SplitElement(list, idx, end, i);
      if i > idx + 1 {
        assert Before(list[idx], list[i - 1], base, end);
      }
    }
  }

  ghost predicate Live(list: seq<Run>) {
    forall i :: 0 <= i < |list| ==> list[i] != Run(0, 0)
  }

  /** Neither the dummy nor an empty region comes in. */
  ghost predicate Kept(before: seq<Run>, after: seq<Run>) {
    (Live(before) ==> Live(after)) && (before == DUMMY ==> after == DUMMY)
  }

  lemma SplitLive(list: seq<Run>, i: nat, p: int)
    requires i < |list| && list[i].start < p < list[i].end
    ensures Kept(list, SplitAt(list, i, p))
  {
    var after := SplitAt(list, i, p);
    if Live(list) {
      forall k | 0 <= k < |after| ensures after[k] != Run(0, 0) {
        SplitElement(list, i, p, k);
      }
    }
  }

  /** What a table holds once a region is out of the list. */
  function OrDummy(list: seq<Run>): seq<Run> {
    if list == [] then DUMMY else list
  }

  lemma RegularIsCut(list: seq<Run>, base: int, end: int)
    requires Regular(list)
    ensures Cut(list, base, end) && (list == DUMMY || Live(list))
  {
    if list != DUMMY {
      forall i | 0 <= i < |list| ensures list[i] != Run(0, 0) {
        assert list[i].start < list[i].end;
      }
    }
  }

  lemma {:induction false} RemainsRegular(before: seq<Run>, low: seq<Run>, mid: seq<Run>, high: seq<Run>, base: int,
                                          end: int)
    requires Isolated(low, mid, high, base, end) && Cut(low + mid + high, base, end) && 0 <= base < end
    requires SameCover(low + mid + high, before)
    requires low + mid + high == DUMMY || Live(low + mid + high)
    ensures Regular(OrDummy(low + high)) && Difference(before, OrDummy(low + high), base, end)
  {
    TakeOut(low, mid, high, base, end);
    if Live(low + mid + high) {
      RemainsApart(low, mid, high, base, end);
    } else {
      DummyOutside(low, mid, high, base, end);
    }
  }

  lemma RemainsRegularAt(before: seq<Run>, list: seq<Run>, low: nat, high: nat, base: int, end: int)
    requires low <= high <= |list| && 0 <= base < end
    requires Isolated(list[..low], list[low..high], list[high..], base, end) && Cut(list, base, end)
    requires SameCover(list, before) && (list == DUMMY || Live(list))
    ensures list[..low] + list[low..high] + list[high..] == list
    ensures Regular(OrDummy(list[..low] + list[high..]))
    ensures Difference(before, OrDummy(list[..low] + list[high..]), base, end)
  {
    var a, b, c := list[..low], list[low..high], list[high..];
    assert a + b + c == list;
    RemainsRegular(before, a, b, c, base, end);
  }

  lemma DummyOutside(low: seq<Run>, mid: seq<Run>, high: seq<Run>, base: int, end: int)
    requires Isolated(low, mid, high, base, end) && 0 <= base < end && low + mid + high == DUMMY
    ensures OrDummy(low + high) == DUMMY
  {
    var list := low + mid + high;
    assert |low| + |mid| + |high| == 1 && list[0] == Run(0, 0);
    assert high == list[|low| + |mid|..];
  }

  lemma AllIsolated(list: seq<Run>, low: nat, idx: nat, base: int, end: int, cutLow: bool, cutHigh: bool)
    requires Isolating(list, low, idx, base, end, cutLow, cutHigh) && 0 <= base < end
    requires idx == |list| || end <= list[idx].start
    ensures Isolated(list[..low], list[low..idx], list[idx..], base, end)
  {
    forall i | idx <= i < |list| ensures end <= list[i].start {
      assert idx < i ==> Before(list[idx], list[i], base, end);
    }
  }

  lemma SizeUpdate(list: seq<Run>, i: nat, r: Run)
    requires i < |list|
    ensures Size(list[i := r]) == Size(list) + (r.end - r.start) - (list[i].end - list[i].start)
  {
    SizeInsert(list[..i], r, list[i + 1..]);
    SizeInsert(list[..i], list[i], list[i + 1..]);
    assert list[i := r] == list[..i] + [r] + list[i + 1..];
    assert list == list[..i] + [list[i]] + list[i + 1..];
  }

  lemma SizeRemove(list: seq<Run>, r: nat)
    requires r < |list|
    ensures Size(list[..r] + list[r + 1..]) == Size(list) - (list[r].end - list[r].start)
  {
    var low, high := list[..r], list[r + 1..];
    assert list == low + [list[r]] + high;
    SizeInsert(low, list[r], high);
  }

  lemma OneLess(a: seq<Run>, b: seq<Run>, c: seq<Run>)
    requires b != []
    ensures
      var list, k := a + b + c, |a| + |b| - 1;
      list[..k] + list[k + 1..] == a + b[..|b| - 1] + c
  {
  }

  class Table {
    const regions: array<Run>
    var cnt: nat
    var total: int

    /** The regions in use. */
    ghost function List(): seq<Run>
      requires cnt <= regions.Length
      reads this, regions
    {
      regions[..cnt]
    }

    ghost predicate Counted()
      reads this, regions
    {
      cnt <= regions.Length && total == Size(List())
    }

    ghost predicate Valid()
      reads this, regions
    {
      Counted() && Regular(List())
    }

    constructor (max: nat)
      requires max > 0
      ensures Valid() && List() == DUMMY && regions.Length == max && fresh(regions)
    {
      regions := new Run[max](i => Run(0, 0));
      cnt, total := 1, 0;
      new;
      assert regions[..1] == DUMMY;
    }

    /** mem_insert_region */
    method InsertRegion(idx: nat, r: Run)
      requires Counted() && idx <= cnt < regions.Length
      modifies this, regions
      ensures Counted() && cnt == old(cnt) + 1
      ensures List() == old(List())[..idx] + [r] + old(List())[idx..]
    {
      ghost var before := List();
      forall k | idx < k <= cnt {
        regions[k] := regions[k - 1];
      }
      regions[idx] := r;
      cnt := cnt + 1;
      total := total + (r.end - r.start);
      assert List() == before[..idx] + [r] + before[idx..];
      SizeInsertAt(before, idx, r);
    }

    /** The counting pass of mem_add_range. */
    method CountNew(obase: int, end: int) returns (n: nat)
      requires Counted()
      ensures n == NewCount(List(), obase, end)
    {
      var base, idx := obase, 0;
      n := 0;
      assert List()[0..] == List();
      while idx < cnt && regions[idx].start < end
        invariant idx <= cnt
        invariant n + NewCount(List()[idx..], base, end) == NewCount(List(), obase, end)
      {
        var rgn := regions[idx];
        assert List()[idx..][0] == rgn && List()[idx..][1..] == List()[idx + 1..];
        if rgn.end > base {
          if rgn.start > base {
            n := n + 1;
          }
          base := Min(rgn.end, end);
        }
        idx := idx + 1;
      }
      assert idx < cnt ==> List()[idx..][0] == regions[idx];
      if base < end {
        n := n + 1;
      }
    }

    /** One turn of the inserting pass, at the region after those in `done`. */
    method InsertTurn(idx: nat, base: int, end: int, ghost done: seq<Run>, ghost rest: seq<Run>)
      returns (idx': nat, base': int)
      requires Counted() && idx == |done| && List() == done + rest && rest != []
      requires cnt + |Piece(rest[0], base)| <= regions.Length
      modifies this, regions
      ensures Counted() && List() == done + Piece(rest[0], base) + rest
      ensures idx' == |done| + |Piece(rest[0], base)| + 1 && base' == Onward(rest[0], base, end)
    {
      var rgn := regions[idx];
      assert List()[idx] == rest[0];
      if rgn.end <= base {
        return idx + 1, base;
      }
      base' := Min(rgn.end, end);
      if rgn.start > base {
        InsertRegion(idx, Run(base, rgn.start));
        InsertedPiece(done, Run(base, rgn.start), rest);
        idx' := idx + 2;
      } else {
        idx' := idx + 1;
      }
    }

    /** The remaining portion goes before the first region past the area. */
    method InsertRest(idx: nat, base: int, end: int, ghost done: seq<Run>, ghost rest: seq<Run>)
      requires Counted() && idx == |done| && List() == done + rest && (rest == [] || rest[0].start >= end)
      requires |done + Filled(rest, base, end)| <= regions.Length
      modifies this, regions
      ensures Counted() && List() == done + Filled(rest, base, end)
    {
      if base < end {
        InsertRegion(idx, Run(base, end));
        InsertedPiece(done, Run(base, end), rest);
      }
    }

    /** The inserting pass of mem_add_range. */
    method InsertNew(obase: int, end: int)
      requires Counted() && cnt + NewCount(List(), obase, end) <= regions.Length
      modifies this, regions
      ensures Counted() && List() == Filled(old(List()), obase, end)
    {
      var base, idx := obase, 0;
      ghost var target := Filled(List(), obase, end);
      ghost var done, rest := [], List();
      CountIsExact(rest, obase, end);
      while idx < cnt && regions[idx].start < end
        invariant Counted() && idx == |done| && List() == done + rest
        invariant done + Filled(rest, base, end) == target && |target| <= regions.Length
        decreases |rest|
      {
        assert List()[idx] == rest[0];
        ghost var done' := FilledTurn(done, rest, base, end);
        idx, base := InsertTurn(idx, base, end, done, rest);
        done, rest := done', rest[1..];
      }
      assert rest != [] ==> rest[0] == List()[idx];
      InsertRest(idx, base, end, done, rest);
    }

    /** The memmove that takes region r out. */
    method CloseGap(r: nat)
      requires r < cnt <= regions.Length
      modifies this, regions
      ensures cnt == old(cnt) - 1 && total == old(total)
      ensures List() == old(List())[..r] + old(List())[r + 1..]
    {
      forall k | r <= k < cnt - 1 {
        regions[k] := regions[k + 1];
      }
      cnt := cnt - 1;
    }

    /** The next region goes into the i-th, and the rest moves up. */
    method MergeNext(i: nat, ghost done: seq<Run>, ghost cur: Run, ghost rest: seq<Run>)
      requires Counted() && i == |done| && rest != [] && List() == done + [cur] + rest && cur.end == rest[0].start
      modifies this, regions
      ensures Counted() && List() == done + [Run(cur.start, rest[0].end)] + rest[1..]
    {
      assert regions[i] == List()[i] && regions[i + 1] == List()[i + 1];
      regions[i] := Run(regions[i].start, regions[i + 1].end);
      assert List() == done + [Run(cur.start, rest[0].end)] + rest;
      CloseGap(i + 1);
      SizeJoin(done, cur, rest);
    }

    /** mem_merge_regions; the overlap that BUG_ON looks for never occurs. */
    method MergeRegions()
      requires Counted() && cnt > 0 && Sorted(List())
      modifies this, regions
      ensures Counted() && List() == Merged(old(List()))
    {
      var i := 0;
      ghost var target := Merged(List());
      ghost var done, cur, rest := [], List()[0], List()[1..];
      assert List() == done + [cur] + rest && [cur] + rest == List();
      while i < cnt - 1
        invariant Counted() && i == |done| && List() == done + [cur] + rest && Sorted([cur] + rest)
        invariant done + MergedFrom(cur, rest) == target
        decreases |rest|
      {
        assert regions[i] == List()[i] && regions[i + 1] == List()[i + 1];
        MergedTurn(done, cur, rest);
        assert regions[i].end <= regions[i + 1].start;
        if regions[i].end != regions[i + 1].start {
          i := i + 1;
          done, cur, rest := done + [cur], rest[0], rest[1..];
        } else {
          MergeNext(i, done, cur, rest);
          cur, rest := Run(cur.start, rest[0].end), rest[1..];
        }
      }
    }

    /** mem_add_range: the union.  False stands for the BUG of a table without room. */
    method AddRange(base: int, size: nat) returns (ok: bool)
      requires Valid() && base >= 0
      modifies this, regions
      ensures Valid()
      ensures ok <==>
                || size == 0 || old(List()) == DUMMY
                || old(cnt) + NewCount(old(List()), base, base + size) <= regions.Length
      ensures !ok || size == 0 ==> List() == old(List())
      ensures ok ==> Union(old(List()), List(), base, base + size)
    {
      if size == 0 {
        return true;
      }
      if regions[0].start == regions[0].end {
        assert List()[0] == regions[0];
        regions[0] := Run(base, base + size);
        total := size;
        OnlyRegion(List(), base, base + size);
        return true;
      }
      assert List()[0] == regions[0];
      var n := CountNew(base, base + size);
      if cnt + n > regions.Length {
        return false;
      }
      FillAndMergeIsUnion(List(), base, base + size);
      InsertNew(base, base + size);
      MergeRegions();
      return true;
    }

    /** Either branch of mem_isolate_range that cuts region idx in two at p. */
    method SplitRegion(idx: nat, p: int)
      requires Counted() && idx < cnt < regions.Length
      modifies this, regions
      ensures Counted() && cnt == old(cnt) + 1 && List() == SplitAt(old(List()), idx, p)
    {
      var rgn := regions[idx];
      SizeUpdate(List(), idx, Run(p, rgn.end));
      regions[idx] := Run(p, rgn.end);
      total := total - (p - rgn.start);
      assert List() == old(List())[idx := Run(p, rgn.end)];
      InsertRegion(idx, Run(rgn.start, p));
    }

    /** A region that intersects from below: its top half is next. */
    method SplitLow(ghost low: nat, idx: nat, base: int, end: int, ghost cutHigh: bool)
      requires Counted() && cnt < regions.Length && Isolating(List(), low, idx, base, end, false, cutHigh) && idx < cnt
      requires regions[idx].start < base < regions[idx].end && base < end
      modifies this, regions
      ensures Counted() && cnt == old(cnt) + 1 && SameCover(List(), old(List())) && Kept(old(List()), List())
      ensures low == idx && Isolating(List(), idx + 1, idx + 1, base, end, true, cutHigh)
    {
      TurnSplitLow(List(), low, idx, base, end, false, cutHigh);
      SplitSame(List(), idx, base);
      SplitLive(List(), idx, base);
      SplitRegion(idx, base);
    }

    /** A region that intersects from above: its bottom half is next. */
    method SplitHigh(ghost low: nat, idx: nat, base: int, end: int, ghost cutLow: bool)
      requires Counted() && cnt < regions.Length && Isolating(List(), low, idx, base, end, cutLow, false) && idx < cnt
      requires regions[idx].start < end < regions[idx].end
      modifies this, regions
      ensures Counted() && cnt == old(cnt) + 1 && SameCover(List(), old(List())) && Kept(old(List()), List())
      ensures Isolating(List(), low, idx, base, end, cutLow, true)
    {
      TurnSplitHigh(List(), low, idx, base, end, cutLow, false);
      SplitSame(List(), idx, end);
      SplitLive(List(), idx, end);
      SplitRegion(idx, end);
    }

    /** One turn of mem_isolate_range; `inside` when the region is recorded. */
    method IsolateTurn(idx: nat, base: int, end: int, ghost low: nat, ghost cutLow: bool, ghost cutHigh: bool)
      returns (idx': nat, inside: bool, ghost low': nat, ghost cutLow': bool, ghost cutHigh': bool)
      requires Counted() && Isolating(List(), low, idx, base, end, cutLow, cutHigh) && 0 <= base < end
      requires idx < cnt && regions[idx].start < end && cnt + Cuts(cutLow, cutHigh) <= regions.Length
      modifies this, regions
      ensures Counted() && Isolating(List(), low', idx', base, end, cutLow', cutHigh')
      ensures SameCover(List(), old(List())) && Kept(old(List()), List())
      ensures cnt + Cuts(cutLow', cutHigh') == old(cnt) + Cuts(cutLow, cutHigh)
      ensures if inside then low' == low && idx' == idx + 1 else low' - low == idx' - idx && (low < low' ==> low == idx)
      ensures Turns(cnt - idx', cutLow', cutHigh') < Turns(old(cnt) - idx, cutLow, cutHigh)
    {
      var rgn := regions[idx];
      assert List()[idx] == rgn;
      idx', inside, low', cutLow', cutHigh' := idx + 1, false, low, cutLow, cutHigh;
      if rgn.end <= base {
        TurnBelow(List(), low, idx, base, end, cutLow, cutHigh);
        low' := low + 1;
      } else if rgn.start < base {
        SplitLow(low, idx, base, end, cutHigh);
        low', cutLow' := low + 1, true;
      } else if rgn.end > end {
        SplitHigh(low, idx, base, end, cutLow);
        idx', cutHigh' := idx, true;
      } else {
        inside := true;
      }
    }

    /** The scan of mem_isolate_range. */
    method IsolateAll(base: int, end: int) returns (first: nat, past: nat, ghost low: nat, ghost high: nat)
      requires Counted() && Cut(List(), base, end) && 0 <= base < end && cnt + 2 <= regions.Length
      modifies this, regions
      ensures Counted() && SameCover(List(), old(List())) && Kept(old(List()), List()) && Cut(List(), base, end)
      ensures if low < high then first == low && past == high else first == past == 0
      ensures low <= high <= cnt && cnt >= old(cnt)
      ensures Isolated(List()[..low], List()[low..high], List()[high..], base, end)
    {
      var idx: nat, inside := 0, false;
      first, past, low := 0, 0, 0;
      ghost var cutLow, cutHigh := false, false;
      while idx < cnt && regions[idx].start < end
        invariant Counted() && Isolating(List(), low, idx, base, end, cutLow, cutHigh)
        invariant SameCover(List(), old(List())) && Kept(old(List()), List())
        invariant cnt + Cuts(cutLow, cutHigh) == old(cnt) + 2
        invariant if low < idx then first == low && past == idx else first == past == 0
        decreases Turns(cnt - idx, cutLow, cutHigh)
      {
        var was := idx;
        idx, inside, low, cutLow, cutHigh := IsolateTurn(idx, base, end, low, cutLow, cutHigh);
        if inside {
          if past == 0 {
            first := was;
          }
          past := was + 1;
        }
      }
      high := idx;
      assert idx < cnt ==> List()[idx] == regions[idx];
      AllIsolated(List(), low, idx, base, end, cutLow, cutHigh);
    }

    /**
     mem_isolate_range: at most two cuts, after which [first, past) are the regions inside
     the range, or 0 and 0 when there is none.  The ghost results say where they lie.
     */
    method Isolate(base: int, size: nat) returns (ok: bool, first: nat, past: nat, ghost low: nat, ghost high: nat)
      requires Counted() && Cut(List(), base, base + size) && base >= 0
      modifies this, regions
      ensures Counted() && SameCover(List(), old(List())) && Kept(old(List()), List()) && Cut(List(), base, base + size)
      ensures ok <==> size == 0 || old(cnt) + 2 <= regions.Length
      ensures if low < high then first == low && past == high else first == past == 0
      ensures !ok || size == 0 ==> List() == old(List()) && low == high
      ensures low <= high <= cnt && cnt >= old(cnt)
      ensures ok && size > 0 ==> Isolated(List()[..low], List()[low..high], List()[high..], base, base + size)
    {
      ok, first, past, low, high := true, 0, 0, 0, 0;
      if size == 0 {
        return;
      }
      if cnt + 2 > regions.Length {
        ok := false;
        return;
      }
      first, past, low, high := IsolateAll(base, base + size);
    }

    /** mem_remove_region; the total is zero whenever the table runs empty. */
    method RemoveRegion(r: nat)
      requires Counted() && r < cnt
      modifies this, regions
      ensures Counted() && List() == OrDummy(old(List())[..r] + old(List())[r + 1..])
    {
      SizeRemove(List(), r);
      total := total - (regions[r].end - regions[r].start);
      CloseGap(r);
      if cnt == 0 {
        assert total == 0;
        cnt := 1;
        regions[0] := Run(0, 0);
      }
    }

    /** The regions from past - 1 down to first go. */
    method RemoveRegions(first: nat, past: nat, ghost a: seq<Run>, ghost b: seq<Run>, ghost c: seq<Run>)
      requires Counted() && List() == OrDummy(a + b + c)
      requires if b != [] then first == |a| && past == |a| + |b| else first == past == 0
      modifies this, regions
      ensures Counted() && List() == OrDummy(a + c)
    {
      var n := past;
      ghost var left := b;
      while n > first
        invariant n == first + |left| && (left != [] ==> first == |a|)
        invariant Counted() && List() == OrDummy(a + left + c)
      {
        n := n - 1;
        assert |a + left + c| > 0;
        RemoveRegion(n);
        OneLess(a, left, c);
        left := left[..|left| - 1];
      }
      assert a + [] + c == a + c;
    }

    /** mem_remove_range: the difference.  False stands for the BUG of a table without room. */
    method RemoveRange(base: int, size: nat) returns (ok: bool)
      requires Valid() && base >= 0
      modifies this, regions
      ensures Valid() && (ok <==> size == 0 || old(cnt) + 2 <= regions.Length)
      ensures !ok ==> List() == old(List())
      ensures ok ==> Difference(old(List()), List(), base, base + size)
    {
      RegularIsCut(List(), base, base + size);
      var first, past;
      ghost var low, high;
      ok, first, past, low, high := Isolate(base, size);
      if ok && size > 0 {
        RemoveIsolated(first, past, base, base + size, low, high, old(List()));
      }
    }

    method RemoveIsolated(first: nat, past: nat, base: int, end: int, ghost low: nat, ghost high: nat,
                          ghost before: seq<Run>)
      requires Counted() && low <= high <= cnt && 0 <= base < end && cnt > 0
      requires if low < high then first == low && past == high else first == past == 0
      requires Isolated(List()[..low], List()[low..high], List()[high..], base, end) && Cut(List(), base, end)
      requires SameCover(List(), before) && (List() == DUMMY || Live(List()))
      modifies this, regions
      ensures Valid() && Difference(before, List(), base, end)
    {
      ghost var list := List();
      RemainsRegularAt(before, list, low, high, base, end);
      RemoveRegions(first, past, list[..low], list[low..high], list[high..]);
    }
  }
}
