/**
 The page allocator's free list (kernel/page.c): runs of free pages kept in address
 order and merged in place.  Addresses are page frame numbers.  The list head is taken
 not to lie on the page that follows a free run, so it is never merged as a neighbour.
 */
module PageAllocator {
  import opened Arithmetic
  import opened Intervals

  /** `page` holds at least one frame and none that is free already. */
  ghost predicate Outside(runs: seq<Run>, page: Run) {
    0 <= page.start < page.end && forall f :: In(page, f) ==> !Covers(runs, f)
  }

  /** The free frames grow by exactly those of `page`. */
  ghost predicate Added(before: seq<Run>, after: seq<Run>, page: Run) {
    forall f {:trigger Covers(after, f)} :: Covers(after, f) <==> Covers(before, f) || In(page, f)
  }

  /** The free frames shrink by exactly those of `page`, all of which were free. */
  ghost predicate Taken(before: seq<Run>, after: seq<Run>, page: Run) {
    && (forall f :: In(page, f) ==> Covers(before, f))
    && (forall f {:trigger Covers(after, f)} :: Covers(after, f) <==> Covers(before, f) && !In(page, f))
  }

  /** Freeing what was allocated gives back the very list there was. */
  lemma FreeUndoesAlloc(before: seq<Run>, during: seq<Run>, after: seq<Run>, page: Run)
    requires Coalesced(before) && Coalesced(after)
    requires Taken(before, during, page) && Added(during, after, page)
    ensures after == before
  {
    forall f ensures Covers(after, f) <==> Covers(before, f) {
      assert Covers(during, f) <==> Covers(before, f) && !In(page, f);
    }
    CanonicalList(after, before);
  }

  lemma OutsideRun(runs: seq<Run>, page: Run, i: nat)
    requires Coalesced(runs) && Outside(runs, page) && i < |runs|
    ensures runs[i].end <= page.start || page.end <= runs[i].start
  {
    var r := runs[i];
    var f := if r.start < page.start then page.start else r.start;
    assert In(page, f) ==> !Covers(runs, f);
    assert In(r, f) ==> Covers(runs, f);
  }

  ghost predicate FirstFit(runs: seq<Run>, n: int, i: nat) {
    && i < |runs|
    && runs[i].end - runs[i].start >= n
    && forall j :: 0 <= j < i ==> runs[j].end - runs[j].start < n
  }

  lemma AboveAll(runs: seq<Run>, page: Run, i: nat)
    requires Coalesced(runs) && Outside(runs, page) && i < |runs| && runs[i].end == page.start
    ensures Above(runs[i + 1..], page.end - 1)
  {
    var high := runs[i + 1..];
    forall j | 0 <= j < |high| ensures page.end - 1 < high[j].start {
      assert high[j] == runs[i + 1 + j];
      OutsideRun(runs, page, i + 1 + j);
    }
  }

  lemma InsertedBefore(low: seq<Run>, page: Run, curr: Run, high: seq<Run>)
    requires Coalesced(low + [curr] + high) && 0 <= page.start < page.end < curr.start && Below(low, page.start)
    ensures Coalesced(low + [page] + ([curr] + high))
  {
    Parts(low, curr, high);
    PutBetween([], curr, high);
    assert [] + [curr] + high == [curr] + high;
    PutBetween(low, page, [curr] + high);
  }

  lemma ApartFrom(low: seq<Run>, pos: Run, high: seq<Run>, f: int)
    requires Coalesced(low + [pos] + high) && In(pos, f)
    ensures !Covers(low + high, f)
  {
    Parts(low, pos, high);
    CoversConcat(low, high, f);
  }

  lemma RestOutside(low: seq<Run>, high: seq<Run>, pos: Run, rest: Run)
    requires Coalesced(low + [pos] + high) && pos.start <= rest.start < rest.end <= pos.end
    ensures Outside(low + high, rest)
  {
    Parts(low, pos, high);
    forall f | In(rest, f) ensures !Covers(low + high, f) {
      ApartFrom(low, pos, high, f);
    }
  }

  lemma TakenFront(low: seq<Run>, high: seq<Run>, pos: Run, page: Run, after: seq<Run>)
    requires Coalesced(low + [pos] + high) && page.start == pos.start && pos.start <= page.end <= pos.end
    requires Added(low + high, after, Run(page.end, pos.end))
    ensures Taken(low + [pos] + high, after, page)
  {
    forall f
      ensures In(page, f) ==> Covers(low + [pos] + high, f)
      ensures Covers(after, f) <==> Covers(low + [pos] + high, f) && !In(page, f)
    {
      CoversOne(low, pos, high, f);
      CoversConcat(low, high, f);
      if In(pos, f) {
        ApartFrom(low, pos, high, f);
      }
    }
  }

  // ----- page_insert

  /** The merge turn: run i grows by the length of `page`, and takes in the next run if they meet. */
  function Absorbed(runs: seq<Run>, i: nat, page: Run): seq<Run>
    requires i < |runs|
  {
    var grown := Run(runs[i].start, runs[i].end + (page.end - page.start));
    if i + 1 < |runs| && grown.end == runs[i + 1].start then
      runs[..i] + [Run(grown.start, runs[i + 1].end)] + runs[i + 2..]
    else
      runs[i := grown]
  }

  function InsertedFrom(runs: seq<Run>, page: Run, i: nat): seq<Run>
    requires i <= |runs|
    decreases |runs| - i
  {
    if i == |runs| then
      runs + [page]
    else if page.start == runs[i].end then
      Absorbed(runs, i, page)
    else if runs[i].start > page.start then
      if runs[i].start == page.end then Absorbed(runs[i := page], i, runs[i]) else runs[..i] + [page] + runs[i..]
    else
      InsertedFrom(runs, page, i + 1)
  }

  function Inserted(runs: seq<Run>, page: Run): seq<Run> {
    InsertedFrom(runs, page, 0)
  }

  /** The page comes after all runs and touches none. */
  ghost predicate Behind(runs: seq<Run>, page: Run) {
    forall i :: 0 <= i < |runs| ==> runs[i].start <= page.start && runs[i].end < page.start
  }

  lemma {:induction false} InsertedBehind(runs: seq<Run>, page: Run, i: nat)
    requires Behind(runs, page) && i <= |runs|
    ensures InsertedFrom(runs, page, i) == runs + [page]
    decreases |runs| - i
  {
    if i < |runs| {
      InsertedBehind(runs, page, i + 1);
    }
  }

  lemma AbsorbedAdds(runs: seq<Run>, i: nat, page: Run)
    requires i < |runs| && runs[i].end == page.start && 0 <= runs[i].start < runs[i].end && page.start < page.end
    requires Coalesced(runs[..i]) && Below(runs[..i], runs[i].start)
    requires Coalesced(runs[i + 1..]) && Above(runs[i + 1..], page.end - 1)
    ensures Coalesced(Absorbed(runs, i, page)) && Added(runs, Absorbed(runs, i, page), page)
  {
    var low, curr, rest := runs[..i], runs[i], runs[i + 1..];
    assert runs == low + [curr] + rest;
    if rest != [] && page.end == rest[0].start {
      AbsorbsNext(low, curr, rest[0], rest[1..], page);
      assert runs == low + [curr, rest[0]] + rest[1..];
      assert Absorbed(runs, i, page) == low + [Run(curr.start, rest[0].end)] + rest[1..];
    } else {
      AbsorbsAlone(low, curr, rest, page);
      assert Absorbed(runs, i, page) == low + [Run(curr.start, page.end)] + rest;
    }
  }

  lemma AbsorbsNext(low: seq<Run>, curr: Run, next: Run, high: seq<Run>, page: Run)
    requires curr.end == page.start && 0 <= curr.start < curr.end && page.start < page.end == next.start
    requires Coalesced(low) && Below(low, curr.start) && Coalesced([next] + high)
    ensures Coalesced(low + [Run(curr.start, next.end)] + high)
    ensures Added(low + [curr, next] + high, low + [Run(curr.start, next.end)] + high, page)
  {
    assert [next] + high == [] + [next] + high;
    Parts([], next, high);
    PutBetween(low, Run(curr.start, next.end), high);
    forall f ensures Covers(low + [Run(curr.start, next.end)] + high, f) <==>
        Covers(low + [curr, next] + high, f) || In(page, f) {
      CoversTwo(low, curr, next, high, f);
      CoversOne(low, Run(curr.start, next.end), high, f);
    }
  }

  lemma AbsorbsAlone(low: seq<Run>, curr: Run, high: seq<Run>, page: Run)
    requires curr.end == page.start && 0 <= curr.start < curr.end && page.start < page.end
    requires Coalesced(low) && Below(low, curr.start)
    requires Coalesced(high) && Above(high, page.end - 1) && (high != [] ==> high[0].start != page.end)
    ensures Coalesced(low + [Run(curr.start, page.end)] + high)
    ensures Added(low + [curr] + high, low + [Run(curr.start, page.end)] + high, page)
  {
    assert Above(high, page.end) by {
      assert forall i :: 0 < i < |high| ==> high[0].end < high[i].start;
    }
    PutBetween(low, Run(curr.start, page.end), high);
    forall f ensures Covers(low + [Run(curr.start, page.end)] + high, f) <==>
        Covers(low + [curr] + high, f) || In(page, f) {
      CoversOne(low, curr, high, f);
      CoversOne(low, Run(curr.start, page.end), high, f);
    }
  }

  lemma MergesUp(low: seq<Run>, page: Run, curr: Run, high: seq<Run>, before: seq<Run>, after: seq<Run>)
    requires before == low + [page] + high && curr.start == page.end && Added(before, after, curr)
    ensures Added(low + [curr] + high, after, page)
  {
    forall f ensures Covers(after, f) <==> Covers(low + [curr] + high, f) || In(page, f) {
      CoversOne(low, curr, high, f);
      CoversOne(low, page, high, f);
    }
  }

  lemma GoesBefore(low: seq<Run>, page: Run, curr: Run, high: seq<Run>)
    requires Coalesced(low + [curr] + high) && 0 <= page.start < page.end < curr.start && Below(low, page.start)
    ensures Coalesced(low + [page] + ([curr] + high))
    ensures Added(low + ([curr] + high), low + [page] + ([curr] + high), page)
  {
    InsertedBefore(low, page, curr, high);
    forall f ensures Covers(low + [page] + ([curr] + high), f) <==> Covers(low + ([curr] + high), f) || In(page, f) {
      CoversOne(low, page, [curr] + high, f);
      CoversConcat(low, [curr] + high, f);
    }
  }

  lemma StopsAndMerges(runs: seq<Run>, page: Run, i: nat)
    requires Coalesced(runs) && 0 <= page.start < page.end && i < |runs|
    requires Below(runs[..i], page.start) && page.end == runs[i].start
    ensures Coalesced(Absorbed(runs[i := page], i, runs[i])) && Added(runs, Absorbed(runs[i := page], i, runs[i]), page)
  {
    var low, curr, high := runs[..i], runs[i], runs[i + 1..];
    SplitsAt(runs, i);
    var before := runs[i := page];
    assert before[..i] == low && before[i + 1..] == high;
    AbsorbedAdds(before, i, curr);
    assert before == low + [page] + high;
    MergesUp(low, page, curr, high, before, Absorbed(before, i, curr));
  }

  lemma StopsShort(runs: seq<Run>, page: Run, i: nat)
    requires Coalesced(runs) && 0 <= page.start < page.end && i < |runs|
    requires Below(runs[..i], page.start) && page.end < runs[i].start
    ensures Coalesced(runs[..i] + [page] + runs[i..]) && Added(runs, runs[..i] + [page] + runs[i..], page)
  {
    var low, curr, high := runs[..i], runs[i], runs[i + 1..];
    SplitsAt(runs, i);
    GoesBefore(low, page, curr, high);
    assert runs[i..] == [curr] + high;
    assert runs == low + ([curr] + high);
  }

  lemma Appended(runs: seq<Run>, page: Run)
    requires Coalesced(runs) && 0 <= page.start < page.end && Below(runs, page.start)
    ensures Coalesced(runs + [page]) && Added(runs, runs + [page], page)
  {
    assert runs + [page] == runs + [page] + [];
    PutBetween(runs, page, []);
    forall f ensures Covers(runs + [page], f) <==> Covers(runs, f) || In(page, f) {
      CoversOne(runs, page, [], f);
    }
  }

  lemma {:induction false} InsertedFromAdds(runs: seq<Run>, page: Run, i: nat)
    requires Coalesced(runs) && Outside(runs, page) && i <= |runs| && Below(runs[..i], page.start)
    ensures Coalesced(InsertedFrom(runs, page, i)) && Added(runs, InsertedFrom(runs, page, i), page)
    decreases |runs| - i
  {
    if i == |runs| {
      assert runs[..i] == runs;
      Appended(runs, page);
    } else {
      SplitsAt(runs, i);
      OutsideRun(runs, page, i);
      if page.start == runs[i].end {
        AboveAll(runs, page, i);
        AbsorbedAdds(runs, i, page);
      } else if runs[i].start > page.start {
        if runs[i].start == page.end {
          StopsAndMerges(runs, page, i);
        } else {
          StopsShort(runs, page, i);
        }
      } else {
        InsertedFromAdds(runs, page, i + 1);
      }
    }
  }

  /** Inserting a run of frames none of which is free keeps the list coalesced and frees exactly those frames. */
  lemma InsertedAdds(runs: seq<Run>, page: Run)
    requires Coalesced(runs) && Outside(runs, page)
    ensures Coalesced(Inserted(runs, page)) && Added(runs, Inserted(runs, page), page)
  {
    InsertedFromAdds(runs, page, 0);
  }

  class FreeList {
    var runs: seq<Run>

    ghost predicate Valid()
      reads this
    {
      Coalesced(runs)
    }

    constructor ()
      ensures Valid() && runs == []
    {
      runs := [];
    }

    /** The merge turn.  The second growth is the turn taken again for the next run. */
    method Absorb(i: nat, page: Run)
      requires i < |runs|
      modifies this
      ensures runs == Absorbed(old(runs), i, page)
    {
      runs := runs[i := Run(runs[i].start, runs[i].end + (page.end - page.start))];
      if i + 1 < |runs| && runs[i].end == runs[i + 1].start {
        var next := runs[i + 1];
        runs := runs[..i + 1] + runs[i + 2..];
        runs := runs[i := Run(runs[i].start, runs[i].end + (next.end - next.start))];
      }
    }

    /** page_insert, into a list in order or behind all runs of any list. */
    method Insert(page: Run)
      requires Valid() || Behind(runs, page)
      modifies this
      ensures runs == Inserted(old(runs), page)
      ensures old(Valid()) && Outside(old(runs), page) ==> Valid() && Added(old(runs), runs, page)
    {
      if Valid() && Outside(runs, page) {
        InsertedAdds(runs, page);
      }
      var i := 0;
      while i < |runs|
        invariant i <= |runs| && runs == old(runs)
        invariant InsertedFrom(runs, page, i) == Inserted(runs, page)
      {
        if page.start == runs[i].end {
          Absorb(i, page);
          return;
        }
        if runs[i].start > page.start {
          var curr := runs[i];
          runs := runs[..i] + [page] + runs[i..];
          if curr.start == page.end {
            runs := runs[..i + 1] + runs[i + 2..];
            assert runs == old(runs)[i := page];
            Absorb(i, curr);
          }
          return;
        }
        i := i + 1;
      }
      runs := runs + [page];
    }

    /** page_alloc_pages: the first run that is long enough gives its first `n` frames. */
    method Alloc(n: nat) returns (page: Run)
      requires Valid()
      modifies this
      ensures Valid()
      ensures page.end == page.start <==>
                n == 0 || forall i :: 0 <= i < |old(runs)| ==> old(runs)[i].end - old(runs)[i].start < n
      ensures page.end == page.start ==> runs == old(runs)
      ensures page.end != page.start ==> page.end == page.start + n && Taken(old(runs), runs, page)
      ensures page.end != page.start ==>
                exists i :: 0 <= i < |old(runs)| && FirstFit(old(runs), n, i) && page.start == old(runs)[i].start
    {
      page := Run(0, 0);
      if n == 0 {
        return;
      }
      var i := 0;
      while i < |runs|
        invariant i <= |runs| && runs == old(runs)
        invariant forall j :: 0 <= j < i ==> runs[j].end - runs[j].start < n
      {
        var pos := runs[i];
        var nr := pos.end - pos.start;
        ghost var low, high := runs[..i], runs[i + 1..];
        SplitsAt(runs, i);
        if nr >= n {
          page := Run(pos.start, pos.start + n);
          runs := runs[..i] + runs[i + 1..];
          assert FirstFit(old(runs), n, i);
          Joined(low, high, pos);
          if nr > n {
            var rest := Run(page.end, pos.end);
            RestOutside(low, high, pos, rest);
            Insert(rest);
          }
          TakenFront(low, high, pos, page, runs);
          return;
        }
        i := i + 1;
      }
    }

    /** page_free_pages. */
    method Free(start: nat, n: nat)
      requires Valid()
      requires forall f :: start <= f < start + n ==> !Covers(runs, f)
      modifies this
      ensures Valid() && Added(old(runs), runs, Run(start, start + n))
    {
      if n != 0 {
        Insert(Run(start, start + n));
      }
    }

    /** page_alloc_init. */
    method AddRegion(pageSize: nat, base: nat, size: nat)
      requires pageSize > 0 && (Valid() || Behind(runs, RegionRun(pageSize, base, size)))
      requires forall f :: In(RegionRun(pageSize, base, size), f) ==> !Covers(runs, f)
      modifies this
      ensures runs == Inserted(old(runs), RegionRun(pageSize, base, size))
      ensures
        var page := RegionRun(pageSize, base, size);
        old(Valid()) ==>
        (Valid() && Added(old(runs), runs, page) <==>
          || page.start < page.end
          || (page.start == page.end && exists k :: 0 <= k < |old(runs)| && old(runs)[k].end == page.start))
    {
      if Valid() {
        InitKeepsListIff(runs, pageSize, base, size);
      }
      Insert(RegionRun(pageSize, base, size));
    }
  }

  // ----- page_alloc_init

  /** What page_alloc_init hands to page_insert for a region of `size` bytes at `base`. */
  function RegionRun(pageSize: nat, base: nat, size: nat): Run
    requires pageSize > 0
  {
    Run((base + pageSize - 1) / pageSize, (base + size) / pageSize)
  }

  lemma QuotientReaches(x: nat, d: nat, q: nat)
    requires d > 0
    ensures q <= x / d <==> q * d <= x
  {
    if x / d < q {
      MulStep(d, x / d, q);
    } else if q < x / d {
      MulStep(d, q, x / d);
    }
  }

  /** The frames handed over are the frames that lie wholly in the region. */
  lemma RegionRunIsInside(pageSize: nat, base: nat, size: nat, f: nat)
    requires pageSize > 0
    ensures In(RegionRun(pageSize, base, size), f)
       <==> base <= f * pageSize && (f + 1) * pageSize <= base + size
  {
    QuotientReaches(base + pageSize - 1, pageSize, f + 1);
    QuotientReaches(base + size, pageSize, f + 1);
    assert (f + 1) * pageSize == f * pageSize + pageSize;
  }

  lemma EmptyRunStays(runs: seq<Run>, page: Run, k: nat)
    requires k < |runs| && runs[k] == page && page.end <= page.start
    ensures !Coalesced(runs)
  {
  }

  lemma ShrinksRun(runs: seq<Run>, page: Run, i: nat)
    requires Coalesced(runs) && i < |runs| && runs[i].end == page.start && page.end < page.start
    ensures !Added(runs, Absorbed(runs, i, page), page)
  {
    var after := Absorbed(runs, i, page);
    var f := runs[i].end - 1;
    assert Covers(runs, f);
    assert !Covers(after, f);
  }

  lemma {:induction false} EmptyRunFrom(runs: seq<Run>, page: Run, i: nat)
    requires Coalesced(runs) && page.end <= page.start && i <= |runs|
    requires forall k :: 0 <= k < i ==> runs[k].end != page.start
    ensures Coalesced(InsertedFrom(runs, page, i)) && Added(runs, InsertedFrom(runs, page, i), page)
       <==> page.end == page.start && exists k :: 0 <= k < |runs| && runs[k].end == page.start
    decreases |runs| - i
  {
    var after := InsertedFrom(runs, page, i);
    if i == |runs| {
      EmptyRunStays(after, page, i);
    } else if page.start == runs[i].end {
      if page.end == page.start {
        assert after == runs;
      } else {
        ShrinksRun(runs, page, i);
      }
    } else if runs[i].start > page.start {
      EmptyRunStays(after, page, i);
    } else {
      EmptyRunFrom(runs, page, i + 1);
    }
  }

  /**
   page_alloc_init does not look whether the region holds a whole page.  The list stays in
   order and grows by the region's frames exactly when it does, or when the empty run it
   hands over starts where a free run ends.
   */
  lemma InitKeepsListIff(runs: seq<Run>, pageSize: nat, base: nat, size: nat)
    requires pageSize > 0 && Coalesced(runs)
    requires forall f :: In(RegionRun(pageSize, base, size), f) ==> !Covers(runs, f)
    ensures
      var page := RegionRun(pageSize, base, size);
      Coalesced(Inserted(runs, page)) && Added(runs, Inserted(runs, page), page) <==>
        || page.start < page.end
        || (page.start == page.end && exists k :: 0 <= k < |runs| && runs[k].end == page.start)
  {
    var page := RegionRun(pageSize, base, size);
    if page.start < page.end {
      InsertedAdds(runs, page);
    } else {
      EmptyRunFrom(runs, page, 0);
    }
  }

  /** A region of 256 bytes in the middle of a page puts a run of length -1 on the list. */
  lemma InitOfTinyRegion()
    ensures Inserted([], RegionRun(4096, 0x1100, 0x100)) == [Run(2, 1)]
    ensures !Coalesced(Inserted([], RegionRun(4096, 0x1100, 0x100)))
  {
    assert RegionRun(4096, 0x1100, 0x100) == Run(2, 1);
    EmptyRunStays([Run(2, 1)], Run(2, 1), 0);
  }

  // ----- whole runs of allocations and releases

  /** The free list and the blocks handed out and not yet given back. */
  datatype Heap = Heap(runs: seq<Run>, held: seq<Run>)

  ghost predicate Granted(h: Heap, h': Heap, page: Run) {
    && page.start < page.end && Coalesced(h'.runs) && Taken(h.runs, h'.runs, page)
    && h'.held == h.held + [page]
  }

  ghost predicate Returned(h: Heap, h': Heap, i: nat) {
    && i < |h.held|
    && h'.runs == Inserted(h.runs, h.held[i])
    && h'.held == h.held[..i] + h.held[i + 1..]
  }

  ghost predicate Next(h: Heap, h': Heap) {
    || (exists page :: Granted(h, h', page))
    || (exists i: nat :: Returned(h, h', i))
  }

  /** Every frame is free, or in one block handed out, and not both. */
  ghost predicate Separate(h: Heap) {
    && Coalesced(h.runs)
    && (forall i :: 0 <= i < |h.held| ==> Outside(h.runs, h.held[i]))
    && (forall i, j, f :: 0 <= i < j < |h.held| && In(h.held[i], f) ==> !In(h.held[j], f))
  }

  ghost predicate Owned(h: Heap, f: int) {
    Covers(h.runs, f) || Covers(h.held, f)
  }

  lemma GrantSeparates(h: Heap, h': Heap, page: Run)
    requires Separate(h) && Granted(h, h', page)
    ensures Separate(h') && forall f :: Owned(h', f) <==> Owned(h, f)
  {
    assert Covers(h.runs, page.start) by {
      assert In(page, page.start);
    }
    forall i | 0 <= i < |h'.held| ensures Outside(h'.runs, h'.held[i]) {
      assert i < |h.held| ==> h'.held[i] == h.held[i] && Outside(h.runs, h.held[i]);
    }
    forall i, j, f | 0 <= i < j < |h'.held| && In(h'.held[i], f) ensures !In(h'.held[j], f) {
      assert Outside(h.runs, h.held[i]);
    }
    forall f ensures Owned(h', f) <==> Owned(h, f) {
      CoversConcat(h.held, [page], f);
      assert Covers(h'.runs, f) <==> Covers(h.runs, f) && !In(page, f);
      assert [page][0] == page;
    }
  }

  lemma ReturnSeparates(h: Heap, h': Heap, i: nat)
    requires Separate(h) && Returned(h, h', i)
    ensures Separate(h') && forall f :: Owned(h', f) <==> Owned(h, f)
  {
    var page := h.held[i];
    InsertedAdds(h.runs, page);
    forall k | 0 <= k < |h'.held| ensures Outside(h'.runs, h'.held[k]) {
      var k' := if k < i then k else k + 1;
      assert h'.held[k] == h.held[k'] && Outside(h.runs, h.held[k']);
    }
    forall j, k, f | 0 <= j < k < |h'.held| && In(h'.held[j], f) ensures !In(h'.held[k], f) {
      assert h'.held[j] == h.held[if j < i then j else j + 1] && h'.held[k] == h.held[if k < i then k else k + 1];
    }
    assert h.held == h.held[..i] + [page] + h.held[i + 1..];
    forall f ensures Owned(h', f) <==> Owned(h, f) {
      CoversOne(h.held[..i], page, h.held[i + 1..], f);
      CoversConcat(h.held[..i], h.held[i + 1..], f);
      assert Covers(h'.runs, f) <==> Covers(h.runs, f) || In(page, f);
    }
  }

  /** Over every run, blocks handed out stay disjoint and off the list, and no frame is lost or made up. */
  lemma {:induction false} RunsConserveFrames(run: seq<Heap>)
    requires |run| > 0 && Separate(run[0])
    requires forall k :: 0 <= k < |run| - 1 ==> Next(run[k], run[k + 1])
    ensures Separate(run[|run| - 1]) && forall f :: Owned(run[|run| - 1], f) <==> Owned(run[0], f)
  {
    if |run| > 1 {
      var init := run[..|run| - 1];
      RunsConserveFrames(init);
      var h, h' := run[|run| - 2], run[|run| - 1];
      assert init[|init| - 1] == h && Next(h, h');
      if page :| Granted(h, h', page) {
        GrantSeparates(h, h', page);
      } else {
        var i: nat :| Returned(h, h', i);
        ReturnSeparates(h, h', i);
      }
    }
  }

  /** When every block has been given back, the list is the very list there was at the start. */
  lemma AllReturned(run: seq<Heap>)
    requires |run| > 0 && Coalesced(run[0].runs) && run[0].held == [] && run[|run| - 1].held == []
    requires forall k :: 0 <= k < |run| - 1 ==> Next(run[k], run[k + 1])
    ensures run[|run| - 1].runs == run[0].runs
  {
    RunsConserveFrames(run);
    var last, first := run[|run| - 1], run[0];
    forall f ensures Covers(last.runs, f) <==> Covers(first.runs, f) {
      assert Owned(last, f) <==> Owned(first, f);
    }
    CanonicalList(last.runs, first.runs);
  }
}
