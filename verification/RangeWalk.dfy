/**
 The walks as the source runs them (kernel/mem.c): a region index and a gap index packed
 into one 64-bit word, advanced from call to call.
 */
module RangeWalk {
  import opened Common
  import opened Intervals
  import opened FreeRanges

  const WORD := 0x1_0000_0000
  const INT_LIMIT := 0x8000_0000

  /** (uint32_t)a | (uint64_t)b << 32 */
  function Pack(a: int, b: int): nat {
    a % WORD + b % WORD * WORD
  }

  function Signed(u: nat): int
    requires u < WORD
  {
    if u < INT_LIMIT then u else u - WORD
  }

  function RegionIndex(idx: nat): int {
    Signed(idx % WORD)
  }

  function GapIndex(idx: nat): int {
    Signed(idx / WORD % WORD)
  }

  ghost predicate IntRange(a: int) {
    -INT_LIMIT <= a < INT_LIMIT
  }

  /** The indices come back, and only the pair (-1, -1) packs to the end mark. */
  lemma PackedIndexRoundTrips(a: int, b: int)
    requires IntRange(a) && IntRange(b)
    ensures RegionIndex(Pack(a, b)) == a && GapIndex(Pack(a, b)) == b
    ensures Pack(a, b) == TOP <==> a == -1 && b == -1
  {
  }

  /** __next_mem_range: the next range and the index after it, or the end mark. */
  method NextRange(mem: seq<Run>, rsv: seq<Run>, idx: nat) returns (next: nat, r: Run)
    requires |mem| < INT_LIMIT - 1 && |rsv| < INT_LIMIT - 1
    requires 0 <= RegionIndex(idx) <= |mem| && 0 <= GapIndex(idx) <= |rsv| + 1
    ensures next == TOP <==> Rising(mem, rsv, RegionIndex(idx), GapIndex(idx)) == []
    ensures next != TOP ==> 0 <= RegionIndex(next) <= |mem| && 0 <= GapIndex(next) <= |rsv| + 1
    ensures next != TOP ==>
              Rising(mem, rsv, RegionIndex(idx), GapIndex(idx)) ==
                  [r] + Rising(mem, rsv, RegionIndex(next), GapIndex(next))
  {
    var a, b := RegionIndex(idx), GapIndex(idx);
    ghost var all := Rising(mem, rsv, a, b);
    r := Run(0, 0);
    while a < |mem|
      invariant 0 <= a <= |mem| && 0 <= b <= |rsv| + 1 && Rising(mem, rsv, a, b) == all
    {
      var m := mem[a];
      while b < |rsv| + 1
        invariant 0 <= b <= |rsv| + 1 && Rising(mem, rsv, a, b) == all
      {
        var from, to := GapStart(rsv, b), GapEnd(rsv, b);
        if from >= m.end {
          break;
        }
        if m.start < to {
          r := Run(Max(m.start, from), Min(m.end, to));
          if m.end <= to {
            a := a + 1;
          } else {
            b := b + 1;
          }
          PackedIndexRoundTrips(a, b);
          return Pack(a, b), r;
        }
        b := b + 1;
      }
      assert Rising(mem, rsv, a, b) == Rising(mem, rsv, a + 1, b);
      a := a + 1;
    }
    next := TOP;
  }

  /** Where the downward walk stands: the end mark starts it at the top. */
  function TopRegion(mem: seq<Run>, idx: nat): int {
    if idx == TOP then |mem| - 1 else RegionIndex(idx)
  }

  function TopGap(rsv: seq<Run>, idx: nat): int {
    if idx == TOP then |rsv| else GapIndex(idx)
  }

  lemma FallingYields(mem: seq<Run>, rsv: seq<Run>, a: int, b: int)
    requires 0 <= a < |mem| && 0 <= b <= |rsv| && GapEnd(rsv, b) > mem[a].start && mem[a].end > GapStart(rsv, b)
    ensures
      var m, from := mem[a], GapStart(rsv, b);
      Falling(mem, rsv, a, b) ==
        (if m.start >= from then Falling(mem, rsv, a - 1, b) else Falling(mem, rsv, a, b - 1)) +
        [Run(Max(m.start, from), Min(m.end, GapEnd(rsv, b)))]
  {
  }

  /** __next_mem_range_rev */
  method NextRangeRev(mem: seq<Run>, rsv: seq<Run>, idx: nat) returns (next: nat, r: Run)
    requires |mem| < INT_LIMIT && |rsv| < INT_LIMIT && forall i :: 0 <= i < |mem| ==> 0 <= mem[i].start
    requires -1 <= TopRegion(mem, idx) < |mem| && 0 <= TopGap(rsv, idx) <= |rsv|
    ensures next == TOP <==> Falling(mem, rsv, TopRegion(mem, idx), TopGap(rsv, idx)) == []
    ensures next != TOP ==> -1 <= RegionIndex(next) < |mem| && 0 <= GapIndex(next) <= |rsv|
    ensures next != TOP ==>
              Falling(mem, rsv, TopRegion(mem, idx), TopGap(rsv, idx)) ==
                  Falling(mem, rsv, RegionIndex(next), GapIndex(next)) + [r]
  {
    var a, b := TopRegion(mem, idx), TopGap(rsv, idx);
    ghost var all := Falling(mem, rsv, a, b);
    r := Run(0, 0);
    while a >= 0
      invariant -1 <= a < |mem| && -1 <= b <= |rsv| && Falling(mem, rsv, a, b) == all
    {
      var m := mem[a];
      while b >= 0
        invariant -1 <= b <= |rsv| && Falling(mem, rsv, a, b) == all
      {
        var from, to := GapStart(rsv, b), GapEnd(rsv, b);
        if to <= m.start {
          break;
        }
        if m.end > from {
          r := Run(Max(m.start, from), Min(m.end, to));
          FallingYields(mem, rsv, a, b);
          if m.start >= from {
            a := a - 1;
          } else {
            b := b - 1;
          }
          PackedIndexRoundTrips(a, b);
          return Pack(a, b), r;
        }
        b := b - 1;
      }
      assert Falling(mem, rsv, a, b) == Falling(mem, rsv, a - 1, b);
      a := a - 1;
    }
    next := TOP;
  }
}
