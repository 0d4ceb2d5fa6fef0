/**
 The walks over free memory (kernel/mem.c): what is in the memory table and not in the
 reserved table, range by range, upwards and downwards.
 */
module FreeRanges {
  import opened Common
  import opened Intervals
  import opened MemoryRegions

  /** ULLONG_MAX: the end of the last gap, and the index that marks the end of a walk. */
  const TOP := 0xFFFF_FFFF_FFFF_FFFF

  /** A table within the address space: regular regions or the dummy. */
  ghost predicate Listed(list: seq<Run>) {
    && (forall i :: 0 <= i < |list| ==> 0 <= list[i].start < list[i].end <= TOP || list[i] == Run(0, 0))
    && (forall i, j :: 0 <= i < j < |list| ==> list[i].end < list[j].start)
  }

  /** The gap before the b-th reserved region, or after the last. */
  function GapStart(rsv: seq<Run>, b: int): int
    requires b <= |rsv| + 1
  {
    if b <= 0 then 0 else if b > |rsv| then TOP else rsv[b - 1].end
  }

  function GapEnd(rsv: seq<Run>, b: int): int
    requires b <= |rsv|
  {
    if b < 0 then 0 else if b < |rsv| then rsv[b].start else TOP
  }

  /** What the upward walk still yields from region a and gap b on. */
  function Rising(mem: seq<Run>, rsv: seq<Run>, a: nat, b: nat): seq<Run>
    requires a <= |mem| && b <= |rsv| + 1
    decreases |mem| - a + |rsv| + 1 - b
  {
    if a == |mem| then []
    else if b == |rsv| + 1 then Rising(mem, rsv, a + 1, b)
    else
      var m, from, to := mem[a], GapStart(rsv, b), GapEnd(rsv, b);
      if from >= m.end then Rising(mem, rsv, a + 1, b)
      else if m.start < to then
        [Run(Max(m.start, from), Min(m.end, to))] +
        (if m.end <= to then Rising(mem, rsv, a + 1, b) else Rising(mem, rsv, a, b + 1))
      else Rising(mem, rsv, a, b + 1)
  }

  /** What the downward walk still yields from region a and gap b on; the last range comes first. */
  function Falling(mem: seq<Run>, rsv: seq<Run>, a: int, b: int): seq<Run>
    requires -1 <= a < |mem| && -1 <= b <= |rsv|
    decreases a + b + 2
  {
    if a < 0 then []
    else if b < 0 then Falling(mem, rsv, a - 1, b)
    else
      var m, from, to := mem[a], GapStart(rsv, b), GapEnd(rsv, b);
      if to <= m.start then Falling(mem, rsv, a - 1, b)
      else if m.end > from then
        (if m.start >= from then Falling(mem, rsv, a - 1, b) else Falling(mem, rsv, a, b - 1)) +
        [Run(Max(m.start, from), Min(m.end, to))]
      else Falling(mem, rsv, a, b - 1)
  }

  // ----- what the walks cover

  lemma InGap(rsv: seq<Run>, b: nat, x: int)
    requires Listed(rsv) && b <= |rsv| && 0 <= x < TOP
    ensures GapStart(rsv, b) <= x < GapEnd(rsv, b) ==> !Covers(rsv, x)
    ensures GapEnd(rsv, b) <= x < GapStart(rsv, b + 1) ==> Covers(rsv, x)
  {
  }

  lemma TailFacts(mem: seq<Run>, a: nat, x: int)
    requires Listed(mem) && a < |mem|
    ensures Covers(mem[a..], x) <==> In(mem[a], x) || Covers(mem[a + 1..], x)
    ensures Covers(mem[a + 1..], x) ==> mem[a].start <= mem[a].end < x < TOP
  {
    assert mem[a..] == [mem[a]] + mem[a + 1..];
    CoversCons(mem[a], mem[a + 1..], x);
  }

  lemma HeadFacts(mem: seq<Run>, a: nat, x: int)
    requires Listed(mem) && a < |mem|
    ensures Covers(mem[..a + 1], x) <==> In(mem[a], x) || Covers(mem[..a], x)
    ensures Covers(mem[..a], x) ==> 0 <= x < mem[a].start <= mem[a].end
  {
    assert mem[..a + 1] == mem[..a] + [mem[a]] + [];
    CoversOne(mem[..a], mem[a], [], x);
  }

  /** One range of the upward walk: `p` when x is in a higher region, `q` when it is reserved. */
  lemma UpTurn(m: Run, from: int, to: int, above: int, x: int, p: bool, q: bool)
    requires (p ==> m.end < x) && m.start < to && from < m.end
    requires (from <= x < to ==> !q) && (to <= x < above ==> q || !(In(m, x) || p)) && from <= to <= above
    ensures
      var all, r := (In(m, x) || p) && !q && from <= x, In(Run(Max(m.start, from), Min(m.end, to)), x);
      && (m.end <= to ==> (all <==> r || (p && !q && from <= x)))
      && (m.end > to ==> (all <==> r || ((In(m, x) || p) && !q && above <= x)))
  {
  }

  lemma GapsInOrder(rsv: seq<Run>, b: nat)
    requires Listed(rsv) && b <= |rsv|
    ensures 0 <= GapEnd(rsv, b - 1) <= GapStart(rsv, b) <= GapEnd(rsv, b) <= GapStart(rsv, b + 1)
  {
    assert 0 < b < |rsv| ==> rsv[b - 1].end < rsv[b].start;
  }

  /** What the walk covers from region a and gap b on, given what x is to the tables. */
  ghost predicate UpTo(mem: seq<Run>, rsv: seq<Run>, a: nat, b: nat, x: int)
    requires a <= |mem| && b <= |rsv| + 1
  {
    Covers(mem[a..], x) && !Covers(rsv, x) && GapStart(rsv, b) <= x
  }

  lemma UpSkips(mem: seq<Run>, rsv: seq<Run>, a: nat, b: nat, x: int)
    requires Listed(mem) && Listed(rsv) && a < |mem| && b <= |rsv| + 1
    ensures GapStart(rsv, b) >= mem[a].end ==> (UpTo(mem, rsv, a, b, x) <==> UpTo(mem, rsv, a + 1, b, x))
    ensures b <= |rsv| && mem[a].start >= GapEnd(rsv, b) ==> (UpTo(mem, rsv, a, b, x) <==> UpTo(mem, rsv, a, b + 1, x))
  {
    TailFacts(mem, a, x);
    if 0 <= x < TOP && b <= |rsv| {
      InGap(rsv, b, x);
      GapsInOrder(rsv, b);
    }
  }

  lemma UpYields(mem: seq<Run>, rsv: seq<Run>, a: nat, b: nat, x: int)
    requires Listed(mem) && Listed(rsv) && a < |mem| && b <= |rsv|
    requires mem[a].start < GapEnd(rsv, b) && GapStart(rsv, b) < mem[a].end
    ensures
      var m, r := mem[a], Run(Max(mem[a].start, GapStart(rsv, b)), Min(mem[a].end, GapEnd(rsv, b)));
      UpTo(mem, rsv, a, b, x) <==>
        In(r, x) || (if m.end <= GapEnd(rsv, b) then UpTo(mem, rsv, a + 1, b, x) else UpTo(mem, rsv, a, b + 1, x))
  {
    TailFacts(mem, a, x);
    if 0 <= x < TOP {
      InGap(rsv, b, x);
    }
    GapsInOrder(rsv, b);
    UpTurn(mem[a], GapStart(rsv, b), GapEnd(rsv, b), GapStart(rsv, b + 1), x, Covers(mem[a + 1..], x), Covers(rsv, x));
  }

  lemma {:induction false} RisingCovers(mem: seq<Run>, rsv: seq<Run>, a: nat, b: nat, x: int)
    requires Listed(mem) && Listed(rsv) && a <= |mem| && b <= |rsv| + 1
    ensures Covers(Rising(mem, rsv, a, b), x) <==> UpTo(mem, rsv, a, b, x)
    decreases |mem| - a + |rsv| + 1 - b
  {
    if a < |mem| {
      UpSkips(mem, rsv, a, b, x);
      if b == |rsv| + 1 || GapStart(rsv, b) >= mem[a].end {
        RisingCovers(mem, rsv, a + 1, b, x);
      } else if mem[a].start >= GapEnd(rsv, b) {
        RisingCovers(mem, rsv, a, b + 1, x);
      } else {
        var r := Run(Max(mem[a].start, GapStart(rsv, b)), Min(mem[a].end, GapEnd(rsv, b)));
        UpYields(mem, rsv, a, b, x);
        if mem[a].end <= GapEnd(rsv, b) {
          RisingCovers(mem, rsv, a + 1, b, x);
          CoversCons(r, Rising(mem, rsv, a + 1, b), x);
        } else {
          RisingCovers(mem, rsv, a, b + 1, x);
          CoversCons(r, Rising(mem, rsv, a, b + 1), x);
        }
      }
    }
  }

  /** Between the gap below and gap b lies one reserved region. */
  lemma BelowGap(rsv: seq<Run>, b: nat, x: int)
    requires Listed(rsv) && b <= |rsv| && 0 <= x < TOP
    ensures GapStart(rsv, b) <= x < GapEnd(rsv, b) ==> !Covers(rsv, x)
    ensures GapEnd(rsv, b - 1) <= x < GapStart(rsv, b) ==> Covers(rsv, x)
  {
    InGap(rsv, b, x);
    if b > 0 {
      InGap(rsv, b - 1, x);
    }
  }

  lemma AppendCovers(rest: seq<Run>, r: Run, x: int)
    ensures Covers(rest + [r], x) <==> Covers(rest, x) || In(r, x)
  {
    CoversConcat(rest, [r], x);
    assert [r][0] == r;
  }

  /** One range of the downward walk: `p` when x is in a lower region, `q` when it is reserved. */
  lemma DownTurn(m: Run, from: int, to: int, below: int, x: int, p: bool, q: bool)
    requires (p ==> x < m.start) && m.start < to && from < m.end
    requires (from <= x < to ==> !q) && (below <= x < from ==> q || !(In(m, x) || p)) && below <= from <= to
    ensures
      var all, r := (In(m, x) || p) && !q && x < to, In(Run(Max(m.start, from), Min(m.end, to)), x);
      && (m.start >= from ==> (all <==> (p && !q && x < to) || r))
      && (m.start < from ==> (all <==> ((In(m, x) || p) && !q && x < below) || r))
  {
  }

  ghost predicate DownTo(mem: seq<Run>, rsv: seq<Run>, a: int, b: int, x: int)
    requires -1 <= a < |mem| && -1 <= b <= |rsv|
  {
    Covers(mem[..a + 1], x) && !Covers(rsv, x) && x < GapEnd(rsv, b)
  }

  lemma DownSkips(mem: seq<Run>, rsv: seq<Run>, a: nat, b: int, x: int)
    requires Listed(mem) && Listed(rsv) && a < |mem| && -1 <= b <= |rsv|
    ensures GapEnd(rsv, b) <= mem[a].start ==> (DownTo(mem, rsv, a, b, x) <==> DownTo(mem, rsv, a - 1, b, x))
    ensures b >= 0 && mem[a].end <= GapStart(rsv, b) ==> (DownTo(mem, rsv, a, b, x) <==> DownTo(mem, rsv, a, b - 1, x))
  {
    HeadFacts(mem, a, x);
    if 0 <= x < TOP && b >= 0 {
      BelowGap(rsv, b, x);
      GapsInOrder(rsv, b);
    }
  }

  lemma DownYields(mem: seq<Run>, rsv: seq<Run>, a: nat, b: nat, x: int)
    requires Listed(mem) && Listed(rsv) && a < |mem| && b <= |rsv|
    requires mem[a].start < GapEnd(rsv, b) && GapStart(rsv, b) < mem[a].end
    ensures
      var m, r := mem[a], Run(Max(mem[a].start, GapStart(rsv, b)), Min(mem[a].end, GapEnd(rsv, b)));
      DownTo(mem, rsv, a, b, x) <==>
        In(r, x) || (if m.start >= GapStart(rsv, b) then DownTo(mem, rsv, a - 1, b, x)
                     else DownTo(mem, rsv, a, b - 1, x))
  {
    HeadFacts(mem, a, x);
    if 0 <= x < TOP {
      BelowGap(rsv, b, x);
    }
    GapsInOrder(rsv, b);
    DownTurn(mem[a], GapStart(rsv, b), GapEnd(rsv, b), GapEnd(rsv, b - 1), x, Covers(mem[..a], x), Covers(rsv, x));
  }

  lemma {:induction false} FallingCovers(mem: seq<Run>, rsv: seq<Run>, a: int, b: int, x: int)
    requires Listed(mem) && Listed(rsv) && -1 <= a < |mem| && -1 <= b <= |rsv|
    ensures Covers(Falling(mem, rsv, a, b), x) <==> DownTo(mem, rsv, a, b, x)
    decreases a + b + 2
  {
    if a >= 0 {
      DownSkips(mem, rsv, a, b, x);
      if b < 0 || GapEnd(rsv, b) <= mem[a].start {
        FallingCovers(mem, rsv, a - 1, b, x);
      } else if mem[a].end <= GapStart(rsv, b) {
        FallingCovers(mem, rsv, a, b - 1, x);
      } else {
        var r := Run(Max(mem[a].start, GapStart(rsv, b)), Min(mem[a].end, GapEnd(rsv, b)));
        DownYields(mem, rsv, a, b, x);
        if mem[a].start >= GapStart(rsv, b) {
          FallingCovers(mem, rsv, a - 1, b, x);
          AppendCovers(Falling(mem, rsv, a - 1, b), r, x);
        } else {
          FallingCovers(mem, rsv, a, b - 1, x);
          AppendCovers(Falling(mem, rsv, a, b - 1), r, x);
        }
      }
    }
  }

  // ----- the ranges do not touch

  lemma AboveByCover(list: seq<Run>, e: int)
    requires Coalesced(list) && forall x :: Covers(list, x) ==> e < x
    ensures Above(list, e)
  {
    forall i | 0 <= i < |list| ensures e < list[i].start {
      assert Covers(list, list[i].start);
    }
  }

  lemma BelowByCover(list: seq<Run>, e: int)
    requires Coalesced(list) && forall x :: Covers(list, x) ==> x < e - 1
    ensures Below(list, e)
  {
    forall i | 0 <= i < |list| ensures list[i].end < e {
      assert Covers(list, list[i].end - 1);
    }
  }

  lemma {:induction false} RisingCoalesced(mem: seq<Run>, rsv: seq<Run>, a: nat, b: nat)
    requires Listed(mem) && Listed(rsv) && a <= |mem| && b <= |rsv| + 1
    ensures Coalesced(Rising(mem, rsv, a, b))
    decreases |mem| - a + |rsv| + 1 - b
  {
    if a < |mem| {
      if b == |rsv| + 1 {
        RisingCoalesced(mem, rsv, a + 1, b);
      } else {
        var m, from, to := mem[a], GapStart(rsv, b), GapEnd(rsv, b);
        if from >= m.end {
          RisingCoalesced(mem, rsv, a + 1, b);
        } else if m.start < to {
          var r := Run(Max(m.start, from), Min(m.end, to));
          if m.end <= to {
            RisingCoalesced(mem, rsv, a + 1, b);
            RisesFromRegion(mem, rsv, a, b);
            PutFirst(r, Rising(mem, rsv, a + 1, b));
          } else {
            RisingCoalesced(mem, rsv, a, b + 1);
            RisesFromGap(mem, rsv, a, b);
            PutFirst(r, Rising(mem, rsv, a, b + 1));
          }
        } else {
          RisingCoalesced(mem, rsv, a, b + 1);
        }
      }
    }
  }

  lemma PutFirst(r: Run, rest: seq<Run>)
    requires Coalesced(rest) && 0 <= r.start < r.end && Above(rest, r.end)
    ensures Coalesced([r] + rest)
  {
    PutBetween([], r, rest);
    assert [] + [r] + rest == [r] + rest;
  }

  lemma PutLast(rest: seq<Run>, r: Run)
    requires Coalesced(rest) && 0 <= r.start < r.end && Below(rest, r.start)
    ensures Coalesced(rest + [r])
  {
    PutBetween(rest, r, []);
    assert rest + [r] + [] == rest + [r];
  }

  lemma RisesFromRegion(mem: seq<Run>, rsv: seq<Run>, a: nat, b: nat)
    requires Listed(mem) && Listed(rsv) && a < |mem| && b <= |rsv| && Coalesced(Rising(mem, rsv, a + 1, b))
    ensures Above(Rising(mem, rsv, a + 1, b), mem[a].end)
  {
    var rest := Rising(mem, rsv, a + 1, b);
    forall x | Covers(rest, x) ensures mem[a].end < x {
      RisingCovers(mem, rsv, a + 1, b, x);
      TailFacts(mem, a, x);
    }
    AboveByCover(rest, mem[a].end);
  }

  lemma RisesFromGap(mem: seq<Run>, rsv: seq<Run>, a: nat, b: nat)
    requires Listed(mem) && Listed(rsv) && a < |mem| && b <= |rsv| && Coalesced(Rising(mem, rsv, a, b + 1))
    requires 0 < GapEnd(rsv, b) < TOP
    ensures Above(Rising(mem, rsv, a, b + 1), GapEnd(rsv, b))
  {
    var rest := Rising(mem, rsv, a, b + 1);
    forall x | Covers(rest, x) ensures GapEnd(rsv, b) < x {
      RisingCovers(mem, rsv, a, b + 1, x);
    }
    AboveByCover(rest, GapEnd(rsv, b));
  }

  lemma {:induction false} FallingCoalesced(mem: seq<Run>, rsv: seq<Run>, a: int, b: int)
    requires Listed(mem) && Listed(rsv) && -1 <= a < |mem| && -1 <= b <= |rsv|
    ensures Coalesced(Falling(mem, rsv, a, b))
    decreases a + b + 2
  {
    if a >= 0 {
      if b < 0 {
        FallingCoalesced(mem, rsv, a - 1, b);
      } else {
        var m, from, to := mem[a], GapStart(rsv, b), GapEnd(rsv, b);
        if to <= m.start {
          FallingCoalesced(mem, rsv, a - 1, b);
        } else if m.end > from {
          var r := Run(Max(m.start, from), Min(m.end, to));
          if m.start >= from {
            FallingCoalesced(mem, rsv, a - 1, b);
            FallsFromRegion(mem, rsv, a, b);
            PutLast(Falling(mem, rsv, a - 1, b), r);
          } else {
            FallingCoalesced(mem, rsv, a, b - 1);
            FallsFromGap(mem, rsv, a, b);
            PutLast(Falling(mem, rsv, a, b - 1), r);
          }
        } else {
          FallingCoalesced(mem, rsv, a, b - 1);
        }
      }
    }
  }

  lemma FallsFromRegion(mem: seq<Run>, rsv: seq<Run>, a: nat, b: nat)
    requires Listed(mem) && Listed(rsv) && a < |mem| && b <= |rsv| && Coalesced(Falling(mem, rsv, a - 1, b))
    ensures Below(Falling(mem, rsv, a - 1, b), mem[a].start)
  {
    var rest := Falling(mem, rsv, a - 1, b);
    forall x | Covers(rest, x) ensures x < mem[a].start - 1 {
      FallingCovers(mem, rsv, a - 1, b, x);
      var i :| 0 <= i < |mem[..a]| && mem[..a][i].start <= x < mem[..a][i].end;
      assert mem[i].end < mem[a].start;
    }
    BelowByCover(rest, mem[a].start);
  }

  lemma FallsFromGap(mem: seq<Run>, rsv: seq<Run>, a: nat, b: nat)
    requires Listed(mem) && Listed(rsv) && a < |mem| && b <= |rsv| && Coalesced(Falling(mem, rsv, a, b - 1))
    requires 0 < GapStart(rsv, b)
    ensures Below(Falling(mem, rsv, a, b - 1), GapStart(rsv, b))
  {
    var rest := Falling(mem, rsv, a, b - 1);
    forall x | Covers(rest, x) ensures x < GapStart(rsv, b) - 1 {
      FallingCovers(mem, rsv, a, b - 1, x);
    }
    BelowByCover(rest, GapStart(rsv, b));
  }

  // ----- the two walks

  ghost predicate Free(mem: seq<Run>, rsv: seq<Run>, x: int) {
    Covers(mem, x) && !Covers(rsv, x)
  }

  function FreeParts(mem: seq<Run>, rsv: seq<Run>): (r: seq<Run>)
    ensures Listed(mem) && Listed(rsv) ==> Coalesced(r)
  {
    assert Listed(mem) && Listed(rsv) ==> Coalesced(Rising(mem, rsv, 0, 0)) by {
      if Listed(mem) && Listed(rsv) {
        RisingCoalesced(mem, rsv, 0, 0);
      }
    }
    Rising(mem, rsv, 0, 0)
  }

  /** The upward walk yields, in order and without touching, exactly what is memory and not reserved. */
  lemma UpwardWalk(mem: seq<Run>, rsv: seq<Run>)
    requires Listed(mem) && Listed(rsv)
    ensures Coalesced(FreeParts(mem, rsv))
    ensures forall x :: Covers(FreeParts(mem, rsv), x) <==> Free(mem, rsv, x)
  {
    forall x ensures Covers(FreeParts(mem, rsv), x) <==> Free(mem, rsv, x) {
      RisingCovers(mem, rsv, 0, 0, x);
      assert mem[0..] == mem;
    }
  }

  /** The downward walk yields the same ranges, the last first. */
  lemma DownwardWalk(mem: seq<Run>, rsv: seq<Run>)
    requires Listed(mem) && Listed(rsv)
    ensures Falling(mem, rsv, |mem| - 1, |rsv|) == FreeParts(mem, rsv)
  {
    UpwardWalk(mem, rsv);
    FallingCoalesced(mem, rsv, |mem| - 1, |rsv|);
    forall x ensures Covers(Falling(mem, rsv, |mem| - 1, |rsv|), x) <==> Covers(FreeParts(mem, rsv), x) {
      FallingCovers(mem, rsv, |mem| - 1, |rsv|, x);
      assert mem[..|mem|] == mem;
      assert Covers(mem, x) ==> x < TOP;
    }
    CanonicalList(Falling(mem, rsv, |mem| - 1, |rsv|), FreeParts(mem, rsv));
  }
}
