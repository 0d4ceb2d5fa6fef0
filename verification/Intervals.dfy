/** Lists of runs of numbers, in order and not touching: each is determined by the numbers it covers. */
module Intervals {

  /** A run of numbers: from `start` up to, not including, `end`. */
  datatype Run = Run(start: int, end: int)

  /** In order, no empty run, no two runs that touch. */
  ghost predicate Coalesced(runs: seq<Run>) {
    && (forall i :: 0 <= i < |runs| ==> 0 <= runs[i].start < runs[i].end)
    && (forall i, j :: 0 <= i < j < |runs| ==> runs[i].end < runs[j].start)
  }

  ghost predicate Covers(runs: seq<Run>, f: int) {
    exists i :: 0 <= i < |runs| && runs[i].start <= f < runs[i].end
  }

  predicate In(r: Run, f: int) {
    r.start <= f < r.end
  }

  ghost predicate SameCover(a: seq<Run>, b: seq<Run>) {
    forall f :: Covers(a, f) <==> Covers(b, f)
  }

  // ----- a list is determined by the numbers it covers

  lemma CoversTail(runs: seq<Run>, f: int)
    requires runs != [] && Coalesced(runs)
    ensures Covers(runs[1..], f) <==> Covers(runs, f) && f > runs[0].end
  {
    if i :| 0 <= i < |runs[1..]| && runs[1..][i].start <= f < runs[1..][i].end {
      assert runs[i + 1] == runs[1..][i];
    }
    if Covers(runs, f) && f > runs[0].end {
      var i :| 0 <= i < |runs| && runs[i].start <= f < runs[i].end;
      assert runs[1..][i - 1] == runs[i];
    }
  }

  lemma EndsFree(runs: seq<Run>)
    requires runs != [] && Coalesced(runs)
    ensures Covers(runs, runs[0].start) && !Covers(runs, runs[0].end)
    ensures forall f :: Covers(runs, f) ==> runs[0].start <= f
    ensures forall f :: runs[0].start <= f < runs[0].end ==> Covers(runs, f)
  {
  }

  lemma FirstRun(a: seq<Run>, b: seq<Run>)
    requires Coalesced(a) && Coalesced(b) && SameCover(a, b) && a != [] && b != []
    ensures b[0] == a[0]
  {
    EndsFree(a);
    EndsFree(b);
    assert Covers(b, a[0].start) && Covers(a, b[0].start);
    assert !Covers(b, a[0].end) && !Covers(a, b[0].end);
  }

  lemma SameTails(a: seq<Run>, b: seq<Run>)
    requires Coalesced(a) && Coalesced(b) && SameCover(a, b) && a != [] && b != [] && a[0] == b[0]
    ensures Coalesced(a[1..]) && Coalesced(b[1..]) && SameCover(a[1..], b[1..])
  {
    forall f ensures Covers(a[1..], f) <==> Covers(b[1..], f) {
      CoversTail(a, f);
      CoversTail(b, f);
    }
  }

  lemma OnlyEmpty(a: seq<Run>, b: seq<Run>)
    requires Coalesced(a) && Coalesced(b) && SameCover(a, b) && a == []
    ensures b == []
  {
    if b != [] {
      EndsFree(b);
    }
  }

  /** Two coalesced lists of the same numbers are the same list. */
  lemma {:induction false} CanonicalList(a: seq<Run>, b: seq<Run>)
    requires Coalesced(a) && Coalesced(b) && SameCover(a, b)
    ensures a == b
  {
    if a == [] {
      OnlyEmpty(a, b);
    } else if b == [] {
      OnlyEmpty(b, a);
    } else {
      FirstRun(a, b);
      SameTails(a, b);
      CanonicalList(a[1..], b[1..]);
      assert a == [a[0]] + a[1..] && b == [b[0]] + b[1..];
    }
  }

  // ----- taking a list apart

  lemma CoversConcat(a: seq<Run>, b: seq<Run>, f: int)
    ensures Covers(a + b, f) <==> Covers(a, f) || Covers(b, f)
  {
    if i :| 0 <= i < |a + b| && (a + b)[i].start <= f < (a + b)[i].end {
      assert (a + b)[i] == if i < |a| then a[i] else b[i - |a|];
    }
    if i :| 0 <= i < |a| && a[i].start <= f < a[i].end {
      assert (a + b)[i] == a[i];
    }
    if i :| 0 <= i < |b| && b[i].start <= f < b[i].end {
      assert (a + b)[|a| + i] == b[i];
    }
  }

  lemma CoversOne(low: seq<Run>, r: Run, high: seq<Run>, f: int)
    ensures Covers(low + [r] + high, f) <==> Covers(low, f) || In(r, f) || Covers(high, f)
  {
    CoversConcat(low + [r], high, f);
    CoversConcat(low, [r], f);
    assert [r][0] == r;
  }

  lemma CoversTwo(low: seq<Run>, r: Run, s: Run, high: seq<Run>, f: int)
    ensures Covers(low + [r, s] + high, f) <==> Covers(low, f) || In(r, f) || In(s, f) || Covers(high, f)
  {
    CoversOne(low + [r], s, high, f);
    CoversConcat(low, [r], f);
    assert [r][0] == r;
    assert low + [r, s] + high == low + [r] + [s] + high;
  }

  ghost predicate Below(low: seq<Run>, x: int) {
    forall i :: 0 <= i < |low| ==> low[i].end < x
  }

  ghost predicate Above(high: seq<Run>, x: int) {
    forall i :: 0 <= i < |high| ==> x < high[i].start
  }

  lemma PutBetween(low: seq<Run>, r: Run, high: seq<Run>)
    requires Coalesced(low) && Coalesced(high) && 0 <= r.start < r.end
    requires Below(low, r.start) && Above(high, r.end)
    ensures Coalesced(low + [r] + high)
  {
    var runs := low + [r] + high;
    forall i, j | 0 <= i < j < |runs| ensures runs[i].end < runs[j].start {
      if i < |low| && |low| < j {
        assert low[i].end < r.start < r.end < high[j - |low| - 1].start;
      }
    }
  }

  lemma SplitsAt(runs: seq<Run>, i: nat)
    requires Coalesced(runs) && i < |runs|
    ensures runs == runs[..i] + [runs[i]] + runs[i + 1..]
    ensures Coalesced(runs[..i]) && Coalesced(runs[i + 1..])
    ensures Below(runs[..i], runs[i].start) && Above(runs[i + 1..], runs[i].end)
  {
  }

  lemma Parts(low: seq<Run>, r: Run, high: seq<Run>)
    requires Coalesced(low + [r] + high)
    ensures Coalesced(low) && Coalesced(high) && 0 <= r.start < r.end
    ensures Below(low, r.start) && Above(high, r.end)
  {
    var runs := low + [r] + high;
    SplitsAt(runs, |low|);
    assert low == runs[..|low|] && high == runs[|low| + 1..];
  }

  lemma Joined(low: seq<Run>, high: seq<Run>, pos: Run)
    requires Coalesced(low + [pos] + high)
    ensures Coalesced(low + high)
  {
    Parts(low, pos, high);
    forall i, j | 0 <= i < j < |low + high| ensures (low + high)[i].end < (low + high)[j].start {
      if i < |low| <= j {
        assert low[i].end < pos.start < pos.end < high[j - |low|].start;
      }
    }
  }
}
