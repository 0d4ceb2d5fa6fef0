/**
 The boot memory map (kernel/mem.c): tables of address regions updated in place.
 A region is kept as its first address and the one past its last.
 */
module MemoryRegions {
  import opened Common
  import opened Intervals

  /** What an empty table holds instead of nothing. */
  const DUMMY := [Run(0, 0)]

  /** Sorted, disjoint, not touching and not empty, or the single dummy. */
  ghost predicate Regular(list: seq<Run>) {
    list == DUMMY || (list != [] && Coalesced(list))
  }

  function Size(list: seq<Run>): int {
    if list == [] then 0 else list[0].end - list[0].start + Size(list[1..])
  }

  lemma {:induction false} SizeConcat(a: seq<Run>, b: seq<Run>)
    ensures Size(a + b) == Size(a) + Size(b)
  {
    if a == [] {
      assert a + b == b;
    } else {
      SizeConcat(a[1..], b);
      assert a + b == [a[0]] + (a[1..] + b);
    }
  }

  lemma SizeInsert(a: seq<Run>, r: Run, b: seq<Run>)
    ensures Size(a + [r] + b) == Size(a + b) + (r.end - r.start)
  {
    SizeConcat(a + [r], b);
    SizeConcat(a, [r]);
    SizeConcat(a, b);
  }

  // ----- mem_add_range, on lists

  /** In order and disjoint; regions may touch. */
  ghost predicate Sorted(list: seq<Run>) {
    && (forall i :: 0 <= i < |list| ==> 0 <= list[i].start < list[i].end)
    && (forall i, j :: 0 <= i < j < |list| ==> list[i].end <= list[j].start)
  }

  function Rest(base: int, end: int): seq<Run> {
    if base < end then [Run(base, end)] else []
  }

  /** What goes in before a region, and where the area goes on after it. */
  function Piece(rgn: Run, base: int): seq<Run> {
    if rgn.end > base then Rest(base, rgn.start) else []
  }

  function Onward(rgn: Run, base: int, end: int): int {
    if rgn.end > base then Min(rgn.end, end) else base
  }

  /** The list with the uncovered pieces of [base, end) put in their places. */
  function Filled(list: seq<Run>, base: int, end: int): seq<Run> {
    if list == [] || list[0].start >= end then
      Rest(base, end) + list
    else
      Piece(list[0], base) + ([list[0]] + Filled(list[1..], Onward(list[0], base, end), end))
  }

  lemma CoversRest(base: int, end: int, rest: seq<Run>, x: int)
    ensures Covers(Rest(base, end) + rest, x) <==> base <= x < end || Covers(rest, x)
  {
    CoversConcat(Rest(base, end), rest, x);
    if base < end {
      assert Rest(base, end)[0] == Run(base, end);
    }
  }

  lemma CoversCons(r: Run, rest: seq<Run>, x: int)
    ensures Covers([r] + rest, x) <==> In(r, x) || Covers(rest, x)
  {
    CoversOne([], r, rest, x);
    assert [] + [r] + rest == [r] + rest;
  }

  lemma {:induction false} FilledCovers(list: seq<Run>, base: int, end: int, x: int)
    ensures Covers(Filled(list, base, end), x) <==> Covers(list, x) || base <= x < end
  {
    if list == [] || list[0].start >= end {
      CoversRest(base, end, list, x);
    } else {
      var r, rest, low := list[0], list[1..], Onward(list[0], base, end);
      var after := [r] + Filled(rest, low, end);
      assert list == [r] + rest;
      CoversCons(r, rest, x);
      FilledCovers(rest, low, end, x);
      CoversCons(r, Filled(rest, low, end), x);
      CoversPiece(r, base, after, x);
    }
  }

  lemma CoversPiece(r: Run, base: int, after: seq<Run>, x: int)
    ensures Covers(Piece(r, base) + after, x) <==> (base < r.end && base <= x < r.start) || Covers(after, x)
  {
    if r.end > base {
      CoversRest(base, r.start, after, x);
    } else {
      assert Piece(r, base) + after == after;
    }
  }

  /** Every region of the list starts at or after x. */
  ghost predicate From(list: seq<Run>, x: int) {
    forall i :: 0 <= i < |list| ==> x <= list[i].start
  }

  lemma SortedCons(r: Run, rest: seq<Run>)
    requires 0 <= r.start < r.end && Sorted(rest) && From(rest, r.end)
    ensures Sorted([r] + rest)
  {
    var list := [r] + rest;
    forall i, j | 0 <= i < j < |list| ensures list[i].end <= list[j].start {
      assert list[j] == rest[j - 1];
    }
  }

  lemma SortedRest(base: int, end: int, rest: seq<Run>)
    requires 0 <= base && Sorted(rest) && From(rest, end)
    ensures Sorted(Rest(base, end) + rest)
  {
    if base < end {
      SortedCons(Run(base, end), rest);
    } else {
      assert Rest(base, end) + rest == rest;
    }
  }

  lemma FromConcat(a: seq<Run>, b: seq<Run>, x: int)
    requires From(a, x) && From(b, x)
    ensures From(a + b, x)
  {
  }

  lemma {:induction false} FilledFrom(list: seq<Run>, base: int, end: int, x: int)
    requires Sorted(list) && From(list, x) && (x <= base || end <= base)
    ensures From(Filled(list, base, end), x)
  {
    if list == [] || list[0].start >= end {
      FromConcat(Rest(base, end), list, x);
    } else {
      var rest, low := list[1..], Onward(list[0], base, end);
      FilledFrom(rest, low, end, x);
      FromConcat([list[0]], Filled(rest, low, end), x);
      FromConcat(Piece(list[0], base), [list[0]] + Filled(rest, low, end), x);
    }
  }

  lemma SortedPiece(r: Run, base: int, after: seq<Run>)
    requires 0 <= base && Sorted(after) && From(after, r.start)
    ensures Sorted(Piece(r, base) + after)
  {
    if r.end > base {
      SortedRest(base, r.start, after);
    } else {
      assert Piece(r, base) + after == after;
    }
  }

  lemma {:induction false} FilledSorted(list: seq<Run>, base: int, end: int)
    requires Sorted(list) && 0 <= base && 0 <= end
    ensures Sorted(Filled(list, base, end))
  {
    if list == [] || list[0].start >= end {
      SortedRest(base, end, list);
    } else {
      var r, rest, low := list[0], list[1..], Onward(list[0], base, end);
      FilledSorted(rest, low, end);
      FilledFrom(rest, low, end, r.end);
      var after := [r] + Filled(rest, low, end);
      SortedCons(r, Filled(rest, low, end));
      SortedPiece(r, base, after);
    }
  }

  /** The regions the first pass counts. */
  function NewCount(list: seq<Run>, base: int, end: int): nat {
    if list == [] || list[0].start >= end then
      if base < end then 1 else 0
    else
      (if list[0].end > base && list[0].start > base then 1
       else 0) + NewCount(list[1..], Onward(list[0], base, end), end)
  }

  /** The count is exactly the number of regions the second pass inserts. */
  lemma {:induction false} CountIsExact(list: seq<Run>, base: int, end: int)
    ensures |Filled(list, base, end)| == |list| + NewCount(list, base, end)
  {
    if list != [] && list[0].start < end {
      CountIsExact(list[1..], Onward(list[0], base, end), end);
    }
  }

  // ----- mem_merge_regions, on lists

  /** `cur` and what follows it, with touching regions made one. */
  function MergedFrom(cur: Run, rest: seq<Run>): seq<Run>
    decreases |rest|
  {
    if rest == [] then [cur]
    else if cur.end == rest[0].start then MergedFrom(Run(cur.start, rest[0].end), rest[1..])
    else [cur] + MergedFrom(rest[0], rest[1..])
  }

  lemma {:induction false} MergedCovers(cur: Run, rest: seq<Run>, x: int)
    requires Sorted([cur] + rest)
    ensures Covers(MergedFrom(cur, rest), x) <==> In(cur, x) || Covers(rest, x)
    decreases |rest|
  {
    if rest == [] {
      assert [cur][0] == cur;
    } else {
      var next, more := rest[0], rest[1..];
      SortedTail(cur, rest);
      assert rest == [next] + more;
      CoversCons(next, more, x);
      if cur.end == next.start {
        SortedJoin(cur, next, more);
        MergedCovers(Run(cur.start, next.end), more, x);
      } else {
        MergedCovers(next, more, x);
        CoversCons(cur, MergedFrom(next, more), x);
      }
    }
  }

  lemma SortedTail(cur: Run, rest: seq<Run>)
    requires Sorted([cur] + rest) && rest != []
    ensures Sorted([rest[0]] + rest[1..]) && cur.end <= rest[0].start
    ensures 0 <= cur.start < cur.end && 0 <= rest[0].start < rest[0].end
  {
    var list := [cur] + rest;
    assert list[0] == cur && list[1] == rest[0];
    assert [rest[0]] + rest[1..] == list[1..];
  }

  lemma SortedJoin(cur: Run, next: Run, more: seq<Run>)
    requires Sorted([cur] + ([next] + more)) && cur.end == next.start
    ensures Sorted([Run(cur.start, next.end)] + more)
  {
    var list := [cur] + ([next] + more);
    assert list[0] == cur && list[1] == next;
    assert forall i :: 0 <= i < |more| ==> more[i] == list[i + 2];
    SortedCons(Run(cur.start, next.end), more);
  }

  lemma {:induction false} MergedCoalesced(cur: Run, rest: seq<Run>)
    requires Sorted([cur] + rest)
    ensures Coalesced(MergedFrom(cur, rest)) && MergedFrom(cur, rest) != []
    ensures MergedFrom(cur, rest)[0].start == cur.start
    decreases |rest|
  {
    if rest == [] {
      assert ([cur] + rest)[0] == cur;
    } else {
      var next, more := rest[0], rest[1..];
      SortedTail(cur, rest);
      assert rest == [next] + more;
      if cur.end == next.start {
        SortedJoin(cur, next, more);
        MergedCoalesced(Run(cur.start, next.end), more);
      } else {
        MergedCoalesced(next, more);
        PutBetween([], cur, MergedFrom(next, more));
        assert [] + [cur] + MergedFrom(next, more) == MergedFrom(cur, rest);
      }
    }
  }

  function Merged(list: seq<Run>): seq<Run> {
    if list == [] then [] else MergedFrom(list[0], list[1..])
  }

  lemma {:induction false} MergedSize(cur: Run, rest: seq<Run>)
    ensures Size(MergedFrom(cur, rest)) == cur.end - cur.start + Size(rest)
    decreases |rest|
  {
    if rest != [] {
      if cur.end == rest[0].start {
        MergedSize(Run(cur.start, rest[0].end), rest[1..]);
      } else {
        MergedSize(rest[0], rest[1..]);
        SizeConcat([cur], MergedFrom(rest[0], rest[1..]));
      }
    }
  }

  /** Covered afterwards: what was covered before, and [base, end). */
  ghost predicate Union(before: seq<Run>, after: seq<Run>, base: int, end: int) {
    forall x {:trigger Covers(after, x)} :: Covers(after, x) <==> Covers(before, x) || base <= x < end
  }

  /** Covered afterwards: what was covered before, without [base, end). */
  ghost predicate Difference(before: seq<Run>, after: seq<Run>, base: int, end: int) {
    forall x {:trigger Covers(after, x)} :: Covers(after, x) <==> Covers(before, x) && !(base <= x < end)
  }

  /** Filling the gaps and merging what touches is the union, in regular form. */
  lemma FillAndMergeIsUnion(list: seq<Run>, base: int, end: int)
    requires list != [] && Coalesced(list) && 0 <= base <= end
    ensures Sorted(Filled(list, base, end)) && Filled(list, base, end) != []
    ensures Coalesced(Merged(Filled(list, base, end))) && Merged(Filled(list, base, end)) != []
    ensures Union(list, Merged(Filled(list, base, end)), base, end)
  {
    var filled := Filled(list, base, end);
    FilledSorted(list, base, end);
    CountIsExact(list, base, end);
    var cur, rest := filled[0], filled[1..];
    assert filled == [cur] + rest;
    MergedCoalesced(cur, rest);
    forall x ensures Covers(Merged(filled), x) <==> Covers(list, x) || base <= x < end {
      FilledCovers(list, base, end, x);
      MergedCovers(cur, rest, x);
      CoversCons(cur, rest, x);
    }
  }

  // ----- mem_isolate_range, on lists

  ghost predicate Before(r: Run, s: Run, base: int, end: int) {
    r.end < s.start || (r.end == s.start && (r.end == base || r.end == end))
  }

  /** In order and disjoint; two regions may touch only where the list was cut, at base or at end. */
  ghost predicate Cut(list: seq<Run>, base: int, end: int) {
    && (forall i :: 0 <= i < |list| ==> 0 <= list[i].start < list[i].end || list[i] == Run(0, 0))
    && (forall i, j :: 0 <= i < j < |list| ==> Before(list[i], list[j], base, end))
  }

  function SplitAt(list: seq<Run>, i: nat, p: int): seq<Run>
    requires i < |list|
  {
    list[..i] + [Run(list[i].start, p), Run(p, list[i].end)] + list[i + 1..]
  }

  lemma SplitSame(list: seq<Run>, i: nat, p: int)
    requires i < |list| && list[i].start < p < list[i].end
    ensures SameCover(SplitAt(list, i, p), list)
  {
    var low, high := list[..i], list[i + 1..];
    assert list == low + [list[i]] + high;
    forall x ensures Covers(SplitAt(list, i, p), x) <==> Covers(list, x) {
      CoversOne(low, list[i], high, x);
      CoversTwo(low, Run(list[i].start, p), Run(p, list[i].end), high, x);
    }
  }

  /** Where the k-th region of the split list was. */
  function Origin(i: nat, k: nat): nat {
    if k <= i then k else k - 1
  }

  lemma SplitElement(list: seq<Run>, i: nat, p: int, k: nat)
    requires i < |list| && list[i].start < p < list[i].end && k <= |list|
    ensures
      var r, r' := list[Origin(i, k)], SplitAt(list, i, p)[k];
      && r.start <= r'.start && r'.end <= r.end && (r'.start < r'.end || r' == r)
      && (k != i + 1 ==> r'.start == r.start) && (k != i ==> r'.end == r.end)
      && (k == i ==> r'.end == p) && (k == i + 1 ==> r'.start == p) && (k < i || i + 1 < k ==> r' == r)
  {
  }

  lemma SplitCut(list: seq<Run>, i: nat, p: int, base: int, end: int)
    requires Cut(list, base, end) && i < |list| && list[i].start < p < list[i].end && (p == base || p == end)
    ensures Cut(SplitAt(list, i, p), base, end)
  {
    var after := SplitAt(list, i, p);
    forall k | 0 <= k < |after| ensures 0 <= after[k].start < after[k].end || after[k] == Run(0, 0) {
      SplitElement(list, i, p, k);
    }
    forall j, k | 0 <= j < k < |after| ensures Before(after[j], after[k], base, end) {
      SplitElement(list, i, p, j);
      SplitElement(list, i, p, k);
      if j != i || k != i + 1 {
        assert Before(list[Origin(i, j)], list[Origin(i, k)], base, end);
      }
    }
  }

  /** Regions below base, then regions inside [base, end), then regions past end. */
  ghost predicate Isolated(low: seq<Run>, mid: seq<Run>, high: seq<Run>, base: int, end: int) {
    && (forall i :: 0 <= i < |low| ==> low[i].end <= base)
    && (forall i :: 0 <= i < |mid| ==> base <= mid[i].start && mid[i].end <= end)
    && (forall i :: 0 <= i < |high| ==> end <= high[i].start)
  }

  /** Taking the isolated regions out is the difference. */
  lemma TakeOut(low: seq<Run>, mid: seq<Run>, high: seq<Run>, base: int, end: int)
    requires Isolated(low, mid, high, base, end)
    ensures Difference(low + mid + high, low + high, base, end)
  {
    forall x ensures Covers(low + high, x) <==> Covers(low + mid + high, x) && !(base <= x < end) {
      CoversConcat(low, high, x);
      CoversConcat(low + mid, high, x);
      CoversConcat(low, mid, x);
    }
  }

  /** What remains does not touch. */
  lemma RemainsApart(low: seq<Run>, mid: seq<Run>, high: seq<Run>, base: int, end: int)
    requires Isolated(low, mid, high, base, end) && Cut(low + mid + high, base, end) && base < end
    requires forall i :: 0 <= i < |low + mid + high| ==> (low + mid + high)[i] != Run(0, 0)
    ensures Coalesced(low + high)
  {
    var list, left := low + mid + high, low + high;
    forall i | 0 <= i < |left| ensures 0 <= left[i].start < left[i].end {
      assert left[i] == list[if i < |low| then i else i + |mid|];
    }
    forall i, j | 0 <= i < j < |left| ensures left[i].end < left[j].start {
      var i', j' := if i < |low| then i else i + |mid|, if j < |low| then j else j + |mid|;
      assert left[i] == list[i'] && left[j] == list[j'] && Before(list[i'], list[j'], base, end);
    }
  }

  // ----- what the contents say about the table

  lemma DummyCoversNothing(list: seq<Run>)
    requires Regular(list)
    ensures list == DUMMY <==> forall x :: !Covers(list, x)
  {
    if list != DUMMY {
      assert Covers(list, list[0].start);
    }
  }

  /** Two tables of the same addresses are the same table. */
  lemma RegularUnique(a: seq<Run>, b: seq<Run>)
    requires Regular(a) && Regular(b) && SameCover(a, b)
    ensures a == b
  {
    DummyCoversNothing(a);
    DummyCoversNothing(b);
    if a != DUMMY && b != DUMMY {
      CanonicalList(a, b);
    }
  }

  /** Taking out a range that was added to a table without it gives back the very table. */
  lemma RemoveUndoesAdd(before: seq<Run>, during: seq<Run>, after: seq<Run>, base: int, end: int)
    requires Regular(before) && Regular(after)
    requires forall x :: base <= x < end ==> !Covers(before, x)
    requires Union(before, during, base, end) && Difference(during, after, base, end)
    ensures after == before
  {
    forall x ensures Covers(after, x) <==> Covers(before, x) {
      assert Covers(during, x) <==> Covers(before, x) || base <= x < end;
    }
    RegularUnique(after, before);
  }
}
