/**
 The owned flag as drivers/iommu/arm_smmuv3.c clears it: the producer word is loaded, and
 stored without the flag in a second step.  A run in which no allocation falls in between
 reaches only states of the system with the atomic clear.  A store with an allocation in
 between always destroys the invariant.
 */
module SplitClear {
  import opened Common
  import opened QueuePointers
  import opened ValidMap
  import opened CommandQueue
  import opened CommandQueueInvariant
  import opened CommandQueueProof

  /** The queue, and per CPU the producer position it has loaded and not stored yet. */
  datatype Split = Split(q: State, loaded: seq<Option<nat>>)

  predicate Formed(x: Split) {
    Shaped(x.q) && |x.loaded| == |x.q.threads|
  }

  predicate Storing(x: Split, t: nat) {
    t < |x.loaded| && x.loaded[t].Some?
  }

  /** The store; the log forgets the positions that are no longer allocated. */
  function Store(s: State, t: nat, v: nat): State
    requires Shaped(s) && t < |s.threads|
  {
    var base := s.threads[t].base;
    Goto(s.(prod := v, owned := false, log := if v <= |s.log| then s.log[..v] else s.log),
         t, if SamePointer(s.Size(), v, base) then Publish(v) else PollValid(base, v))
  }

  function SplitStep(x: Split, t: nat, start: Start): Split
    requires Formed(x) && t < |x.q.threads|
  {
    if !x.q.threads[t].pc.ClearOwned? then x.(q := Step(x.q, t, start))
    else if x.loaded[t].None? then x.(loaded := x.loaded[t := Some(x.q.prod)])
    else Split(Store(x.q, t, x.loaded[t].value), x.loaded[t := None])
  }

  /** The producer word has changed since CPU t loaded it. */
  predicate Disturbed(x: Split, t: nat) {
    Storing(x, t) && x.q.Size() > 0 && !SamePointer(x.q.Size(), x.loaded[t].value, x.q.prod)
  }

  // ----- runs

  ghost predicate SplitInit(x: Split) {
    Formed(x) && Init(x.q) && forall t :: 0 <= t < |x.loaded| ==> x.loaded[t].None?
  }

  /** CPU t steps; `calm` rules out a store over a changed word. */
  ghost predicate CpuStep(x: Split, x': Split, t: nat, start: Start, calm: bool) {
    Formed(x) && t < |x.q.threads| && NonEmpty(start) && (calm ==> !Disturbed(x, t)) && x' == SplitStep(x, t, start)
  }

  ghost predicate SplitNext(x: Split, x': Split, calm: bool) {
    || (Formed(x) && x' == x.(q := Consume(x.q)))
    || exists t: nat, start: Start :: CpuStep(x, x', t, start, calm)
  }

  ghost predicate IsSplitRun(run: seq<Split>, calm: bool) {
    |run| > 0 && SplitInit(run[0]) && forall i :: 0 <= i < |run| - 1 ==> SplitNext(run[i], run[i + 1], calm)
  }

  // ----- every unmarked position belongs to a CPU that is still busy with it

  predicate Busy(s: State, y: nat)
    requires y < |s.log|
  {
    var w := s.log[y].cpu;
    w < |s.threads| && HasRange(s.threads[w].pc) && s.threads[w].base <= y < s.threads[w].End()
  }

  ghost predicate BusyInv(s: State) {
    forall y: nat {:trigger Busy(s, y)} :: y < |s.log| && !s.log[y].marked ==> Busy(s, y)
  }

  predicate SameRange(a: Thread, b: Thread) {
    HasRange(b.pc) && b.base == a.base && b.End() == a.End()
  }

  lemma BusyFrame(s: State, s': State, t: nat)
    requires BusyInv(s) && Moves(s, s', t) && |s'.log| == |s.log|
    requires forall y :: 0 <= y < |s.log| ==> s'.log[y].cpu == s.log[y].cpu && s'.log[y].marked == s.log[y].marked
    requires HasRange(s.threads[t].pc) ==> SameRange(s.threads[t], s'.threads[t])
    ensures BusyInv(s')
  {
    forall y: nat | y < |s'.log| && !s'.log[y].marked ensures Busy(s', y) {
      assert Busy(s, y);
    }
  }

  lemma AllocateBusy(s: State, t: nat)
    requires Shaped(s) && BusyInv(s) && t < |s.threads| && s.threads[t].pc.AllocCas?
    ensures BusyInv(Allocate(s, t))
  {
    var s' := Allocate(s, t);
    forall y: nat | y < |s'.log| && !s'.log[y].marked ensures Busy(s', y) {
      if y < |s.log| {
        assert Busy(s, y);
      }
    }
  }

  lemma MarkBusy(s: State, t: nat, m: nat, r: Roles)
    requires Inv(s, r) && BusyInv(s) && t < |s.threads| && s.threads[t].pc == Mark(m)
    ensures BusyInv(MarkTurn(s, t, m))
  {
    var s', th := MarkTurn(s, t, m), s.threads[t];
    assert ThreadInv(s, t);
    var e := TurnEnd(s.Size(), m, th.End());
    forall y: nat | y < |s'.log| && !s'.log[y].marked ensures Busy(s', y) {
      assert Busy(s, y);
      if s.log[y].cpu == t {
        MarkGoesOn(s, t, m, e, y, r);
      }
    }
  }

  lemma MarkGoesOn(s: State, t: nat, m: nat, e: nat, y: nat, r: Roles)
    requires Inv(s, r) && t < |s.threads| && s.threads[t].pc == Mark(m) && e == TurnEnd(s.Size(), m, s.threads[t].End())
    requires s.threads[t].base <= y < s.threads[t].End() && y < |s.log| && !s.log[y].marked && !(m <= y < e)
    ensures !SamePointer(s.Size(), e, s.threads[t].End())
  {
    var th := s.threads[t];
    assert ThreadInv(s, t) && RangeInv(s.log, t, th);
    assert s.log[y].marked == (y < m);
    MarkBounds(s, t, r);
    WordsEqualIffPositions(s.Size(), e, th.End());
  }

  lemma StepBusy(s: State, t: nat, start: Start, r: Roles)
    requires Inv(s, r) && BusyInv(s) && t < |s.threads|
    ensures BusyInv(Step(s, t, start))
  {
    var pc := s.threads[t].pc;
    if pc.Mark? {
      MarkBusy(s, t, pc.m, r);
    } else if pc.AllocCas? && SameWord(s.Size(), pc.view, s.Now()) {
      AllocateBusy(s, t);
    } else {
      RangeGoesOn(s, t, start);
      BusyFrame(s, Step(s, t, start), t);
    }
  }

  ghost predicate RangeKept(s: State, s': State, t: nat) {
    && Moves(s, s', t) && |s'.log| == |s.log|
    && (forall y :: 0 <= y < |s.log| ==> s'.log[y].cpu == s.log[y].cpu && s'.log[y].marked == s.log[y].marked)
    && (HasRange(s.threads[t].pc) ==> SameRange(s.threads[t], s'.threads[t]))
  }

  lemma RangeGoesOn(s: State, t: nat, start: Start)
    requires Shaped(s) && t < |s.threads| && !s.threads[t].pc.Mark?
    requires s.threads[t].pc.AllocCas? ==> !SameWord(s.Size(), s.threads[t].pc.view, s.Now())
    ensures RangeKept(s, Step(s, t, start), t)
  {
    var pc, s' := s.threads[t].pc, Step(s, t, start);
    if pc.WriteEntry? {
      WriteGoesOn(s, t, pc.i);
    } else {
      StepKeepsLog(s, t, start);
      if HasRange(pc) {
        StepKeepsRange(s, t, start);
      }
    }
  }

  lemma WriteGoesOn(s: State, t: nat, i: nat)
    requires Shaped(s) && t < |s.threads|
    ensures RangeKept(s, WriteOne(s, t, i), t)
  {
  }

  lemma StepKeepsLog(s: State, t: nat, start: Start)
    requires Shaped(s) && t < |s.threads| && !s.threads[t].pc.Mark? && !s.threads[t].pc.WriteEntry?
    requires s.threads[t].pc.AllocCas? ==> !SameWord(s.Size(), s.threads[t].pc.view, s.Now())
    ensures Step(s, t, start).log == s.log && Moves(s, Step(s, t, start), t)
  {
    match s.threads[t].pc {
      case Idle =>
      case ReadQueue =>
      case ExclTry =>
      case ExclRead =>
      case ExclWrite(_) =>
      case ExclUnlock =>
      case PollFull =>
      case AllocCas(_) =>
      case LockInc =>
      case LockSpin =>
      case LockCas(_) =>
      case WaitOwner =>
      case ClearOwned =>
      case PollValid(_, _) =>
      case Publish(_) =>
      case Handoff(_) =>
      case SyncFirst =>
      case SyncPoll =>
      case SyncMsi =>
      case TryUnlock(_) =>
      case SyncWrite(_) =>
      case SyncDec =>
    }
  }

  lemma StepKeepsRange(s: State, t: nat, start: Start)
    requires Shaped(s) && t < |s.threads|
    requires s.threads[t].pc.LockInc? || s.threads[t].pc.LockSpin? || s.threads[t].pc.LockCas?
    ensures SameRange(s.threads[t], Step(s, t, start).threads[t])
  {
  }

  // ----- calm runs

  /** What a CPU has loaded lies behind its own range, and not past the producer. */
  ghost predicate LoadOk(x: Split, t: nat)
    requires Formed(x) && t < |x.loaded|
  {
    x.loaded[t].Some? ==> x.q.threads[t].pc.ClearOwned? && x.q.threads[t].base < x.loaded[t].value <= x.q.prod
  }

  ghost predicate CalmInv(x: Split) {
    Formed(x) && Good(x.q) && BusyInv(x.q) && forall t: nat {:trigger LoadOk(x, t)} :: t < |x.loaded| ==> LoadOk(x, t)
  }

  /** The loaded position is within a lap of the producer. */
  lemma LoadedWithinALap(s: State, t: nat, v: nat)
    requires Good(s) && t < |s.threads| && s.threads[t].pc.ClearOwned? && s.threads[t].base < v <= s.prod
    ensures s.prod < v + s.Size() && (SamePointer(s.Size(), v, s.prod) <==> v == s.prod)
  {
    var r :| Inv(s, r);
    assert ThreadInv(s, t);
    assert r.gatherer == Some(t);
    WordsEqualIffPositions(s.Size(), v, s.prod);
  }

  lemma LoadIsBehind(s: State, t: nat)
    requires Good(s) && t < |s.threads| && s.threads[t].pc.ClearOwned?
    ensures s.threads[t].base < s.prod
  {
    var r :| Inv(s, r);
    assert ThreadInv(s, t);
    assert r.gatherer == Some(t);
  }

  lemma StoreOverSame(s: State, t: nat, start: Start)
    requires Shaped(s) && t < |s.threads| && s.threads[t].pc.ClearOwned?
    ensures Store(s, t, s.prod) == Step(s, t, start)
  {
    assert s.log[..s.prod] == s.log;
  }

  /** A calm step is a step of the atomic system, or leaves the queue as it is. */
  lemma CalmStepIsStep(x: Split, x': Split, t: nat, start: Start)
    requires CalmInv(x) && CpuStep(x, x', t, start, true)
    ensures x'.q == x.q || x'.q == Step(x.q, t, start)
    ensures |x'.loaded| == |x.loaded| && forall u :: 0 <= u < |x.loaded| && u != t ==> x'.loaded[u] == x.loaded[u]
    ensures x'.loaded[t].Some? ==> x'.q == x.q && x.q.threads[t].pc.ClearOwned? && x'.loaded[t].value == x.q.prod
  {
    assert LoadOk(x, t);
    if Storing(x, t) {
      LoadedWithinALap(x.q, t, x.loaded[t].value);
      StoreOverSame(x.q, t, start);
    }
  }

  lemma StepKeepsLoads(s: State, t: nat, start: Start, u: nat)
    requires Good(s) && t < |s.threads| && u < |s.threads| && u != t
    ensures
      var s' := Step(s, t, start);
      |s'.threads| == |s.threads| && s'.threads[u] == s.threads[u] && s.prod <= s'.prod
  {
    var r :| Inv(s, r);
    PointerStep(s, t, start, r);
    StepMoves(s, t, start);
  }

  lemma StepMoves(s: State, t: nat, start: Start)
    requires Shaped(s) && t < |s.threads|
    ensures Moves(s, Step(s, t, start), t)
  {
    if !s.threads[t].pc.Mark? && !s.threads[t].pc.AllocCas? {
      RangeGoesOn(s, t, start);
    }
  }

  lemma StepKeepsGood(s: State, t: nat, start: Start)
    requires Good(s) && BusyInv(s) && t < |s.threads| && NonEmpty(start)
    ensures Good(Step(s, t, start)) && BusyInv(Step(s, t, start)) && |Step(s, t, start).threads| == |s.threads|
  {
    var r :| Inv(s, r);
    StepBusy(s, t, start, r);
    StepPreserves(s, t, start);
    StepMoves(s, t, start);
  }

  lemma CalmStepPreserves(x: Split, x': Split, t: nat, start: Start)
    requires CalmInv(x) && CpuStep(x, x', t, start, true)
    ensures CalmInv(x')
  {
    CalmStepIsStep(x, x', t, start);
    StepKeepsGood(x.q, t, start);
    forall u: nat | u < |x'.loaded| ensures LoadOk(x', u) {
      assert LoadOk(x, u);
      if u == t {
        if x'.loaded[t].Some? {
          LoadIsBehind(x.q, t);
        }
      } else {
        StepKeepsLoads(x.q, t, start, u);
      }
    }
  }

  lemma ConsumePreserves(x: Split)
    requires CalmInv(x)
    ensures CalmInv(x.(q := Consume(x.q))) && Next(x.q, Consume(x.q))
  {
    var s, s', x' := x.q, Consume(x.q), x.(q := Consume(x.q));
    NextPreserves(s, s');
    forall y: nat | y < |s'.log| && !s'.log[y].marked ensures Busy(s', y) {
      assert Busy(s, y);
    }
    forall u: nat | u < |x'.loaded| ensures LoadOk(x', u) {
      assert LoadOk(x, u);
    }
  }

  lemma CalmInit(x: Split)
    requires SplitInit(x)
    ensures CalmInv(x)
  {
    InitIsGood(x.q);
  }

  lemma RunGoesOn(run: seq<State>, s: State) returns (run': seq<State>)
    requires IsRun(run) && (s == run[|run| - 1] || Next(run[|run| - 1], s))
    ensures IsRun(run') && run'[|run'| - 1] == s
  {
    run' := if s == run[|run| - 1] then run else run + [s];
    forall i | 0 <= i < |run'| - 1 ensures Next(run'[i], run'[i + 1]) {
      if i < |run| - 1 {
        assert Next(run[i], run[i + 1]);
      }
    }
  }

  /** Every state of a calm run is a state of a run with the atomic clear. */
  lemma {:induction false} CalmRunIsAtomic(run: seq<Split>, i: nat) returns (atomic: seq<State>)
    requires IsSplitRun(run, true) && i < |run|
    ensures IsRun(atomic) && atomic[|atomic| - 1] == run[i].q
    ensures CalmInv(run[i])
    decreases i
  {
    if i == 0 {
      CalmInit(run[0]);
      atomic := [run[0].q];
    } else {
      var x, x' := run[i - 1], run[i];
      var before := CalmRunIsAtomic(run, i - 1);
      assert SplitNext(x, x', true);
      if x' == x.(q := Consume(x.q)) {
        ConsumePreserves(x);
      } else {
        var t: nat, start: Start :| CpuStep(x, x', t, start, true);
        CalmStepIsStep(x, x', t, start);
        CalmStepPreserves(x, x', t, start);
      }
      atomic := RunGoesOn(before, x'.q);
    }
  }

  // ----- a disturbed store

  /** The store takes position v back: if it was marked, its bit is no longer right, */
  lemma MarkedTakenBack(s: State, t: nat, v: nat, r: Roles)
    requires Inv(s, r) && t < |s.threads| && s.threads[t].pc.ClearOwned? && s.threads[t].base < v < s.prod
    requires s.log[v].marked
    ensures !WindowInv(Store(s, t, v))
  {
    var s' := Store(s, t, v);
    assert ThreadInv(s, t);
    assert r.gatherer == Some(t);
    assert PosInv(s, v);
    assert !PosInv(s', v);
  }

  /** and if not, its CPU is still busy with it, past the producer. */
  lemma BusyTakenBack(s: State, t: nat, v: nat)
    requires Shaped(s) && BusyInv(s) && t < |s.threads| && s.threads[t].pc.ClearOwned? && v < s.prod && !s.log[v].marked
    ensures s.log[v].cpu < |s.threads| && !ThreadInv(Store(s, t, v), s.log[v].cpu)
  {
    assert Busy(s, v);
  }

  lemma TakenBack(s: State, t: nat, v: nat)
    requires Good(s) && BusyInv(s) && t < |s.threads| && s.threads[t].pc.ClearOwned? && s.threads[t].base < v < s.prod
    ensures !Good(Store(s, t, v))
  {
    var r :| Inv(s, r);
    if s.log[v].marked {
      MarkedTakenBack(s, t, v, r);
    } else {
      BusyTakenBack(s, t, v);
    }
  }

  /**
   After a calm run a store keeps the invariant, acts as the atomic clear, and leaves the producer
   where it is, each if and only if the word has not changed since the load.
   */
  lemma StoreIsSafeIff(run: seq<Split>, t: nat, start: Start)
    requires IsSplitRun(run, true) && Storing(run[|run| - 1], t) && Formed(run[|run| - 1]) && NonEmpty(start)
    ensures
      var x := run[|run| - 1];
      var s' := SplitStep(x, t, start).q;
      && (Good(s') <==> !Disturbed(x, t))
      && (s' == Step(x.q, t, start) <==> !Disturbed(x, t))
      && (s'.prod >= x.q.prod <==> !Disturbed(x, t))
  {
    var x := run[|run| - 1];
    var atomic := CalmRunIsAtomic(run, |run| - 1);
    assert LoadOk(x, t);
    var v := x.loaded[t].value;
    LoadedWithinALap(x.q, t, v);
    StepKeepsGood(x.q, t, start);
    if v == x.q.prod {
      StoreOverSame(x.q, t, start);
    } else {
      TakenBack(x.q, t, v);
    }
  }

  // ----- one CPU

  ghost predicate AloneInv(x: Split) {
    Formed(x) && |x.loaded| == 1 && (x.loaded[0].Some? ==>
        x.q.threads[0].pc.ClearOwned? && x.loaded[0].value == x.q.prod)
  }

  lemma AloneStep(x: Split, x': Split)
    requires AloneInv(x) && SplitNext(x, x', false) && Formed(x')
    ensures AloneInv(x') && SplitNext(x, x', true)
  {
    if x' != x.(q := Consume(x.q)) {
      var t: nat, start: Start :| CpuStep(x, x', t, start, false);
      assert CpuStep(x, x', t, start, true);
    }
  }

  lemma AloneNext(x: Split, x': Split)
    requires AloneInv(x) && CalmInv(x) && SplitNext(x, x', false)
    ensures CalmInv(x') && AloneInv(x') && SplitNext(x, x', true)
  {
    if x' == x.(q := Consume(x.q)) {
      ConsumePreserves(x);
    } else {
      var t: nat, start: Start :| CpuStep(x, x', t, start, false);
      assert !Disturbed(x, t);
      CalmStepPreserves(x, x', t, start);
    }
    AloneStep(x, x');
  }

  lemma {:induction false} AloneAt(run: seq<Split>, i: nat)
    requires IsSplitRun(run, false) && |run[0].q.threads| == 1 && i < |run|
    ensures CalmInv(run[i]) && AloneInv(run[i])
    decreases i
  {
    if i == 0 {
      CalmInit(run[0]);
    } else {
      AloneAt(run, i - 1);
      assert SplitNext(run[i - 1], run[i - 1 + 1], false);
      AloneNext(run[i - 1], run[i]);
    }
  }

  /** With one CPU every run is calm. */
  lemma OneCpuIsCalm(run: seq<Split>)
    requires IsSplitRun(run, false) && |run[0].q.threads| == 1
    ensures IsSplitRun(run, true) && AloneInv(run[|run| - 1])
  {
    forall i | 0 <= i < |run| - 1 ensures SplitNext(run[i], run[i + 1], true) {
      assert SplitNext(run[i], run[i + 1], false);
      AloneAt(run, i);
      AloneNext(run[i], run[i + 1]);
    }
    AloneAt(run, |run| - 1);
  }

  // ----- a run that hands a position out twice

  lemma {:induction false} SplitExtend(run: seq<Split>, t: nat, start: Start) returns (run': seq<Split>)
    requires IsSplitRun(run, false) && Formed(run[|run| - 1]) && t < |run[|run| - 1].q.threads| && NonEmpty(start)
    ensures IsSplitRun(run', false) && run'[0] == run[0]
    ensures run'[|run'| - 1] == SplitStep(run[|run| - 1], t, start)
  {
    run' := run + [SplitStep(run[|run| - 1], t, start)];
    assert CpuStep(run[|run| - 1], run'[|run|], t, start, false);
    forall i | 0 <= i < |run'| - 1 ensures SplitNext(run'[i], run'[i + 1], false) {
      if i < |run| - 1 {
        assert SplitNext(run[i], run[i + 1], false);
      }
    }
  }

  /** Nothing is consumed or handed over yet, and only the owner may have loaded the producer. */
  ghost predicate Early(x: Split, prod: nat, owned: bool) {
    && Formed(x) && |x.q.threads| >= 3 && x.q.prod == prod && x.q.owned == owned && x.q.cons == x.q.ownerProd == 0
    && forall t :: 1 <= t < |x.loaded| ==> x.loaded[t].None?
  }

  /** CPU t allocates one command. */
  lemma TakesOne(run: seq<Split>, t: nat, prod: nat, owned: bool) returns (run': seq<Split>)
    requires IsSplitRun(run, false) && Early(run[|run| - 1], prod, owned) && prod < 2
    requires t < 3 && run[|run| - 1].q.threads[t].pc.Idle?
    ensures IsSplitRun(run', false) && run'[0] == run[0] && Early(run'[|run'| - 1], prod + 1, true)
    ensures
      var x, x' := run[|run| - 1], run'[|run'| - 1];
      x'.loaded == x.loaded && x'.q.threads == x.q.threads[t := Thread(WriteEntry(0), 1, false, prod, !owned)]
  {
    var one, x := Start(1, false), run[|run| - 1];
    HasSpaceIsExact(x.q.Size(), prod, 0, 1);
    run' := SplitExtend(run, t, one);
    run' := SplitExtend(run', t, one);
    assert run'[|run'| - 1].q.threads[t].pc == AllocCas(View(prod, owned, 0));
    run' := SplitExtend(run', t, one);
  }

  /** CPU 0, the owner, writes and marks its command and loads the producer. */
  lemma Loads(run: seq<Split>) returns (run': seq<Split>)
    requires IsSplitRun(run, false) && Early(run[|run| - 1], 1, true) && run[|run| - 1].loaded[0].None?
    requires run[|run| - 1].q.threads[0] == Thread(WriteEntry(0), 1, false, 0, true)
    ensures IsSplitRun(run', false) && run'[0] == run[0] && Early(run'[|run'| - 1], 1, true)
    ensures
      var x, x' := run[|run| - 1], run'[|run'| - 1];
      x'.loaded[0] == Some(1) && x'.q.threads == x.q.threads[0 := Thread(ClearOwned, 1, false, 0, true)]
  {
    var one, x := Start(1, false), run[|run| - 1];
    assert TurnEnd(x.q.Size(), 0, 1) == 1;
    run' := SplitExtend(run, 0, one);
    run' := SplitExtend(run', 0, one);
    assert run'[|run'| - 1].q.threads[0] == Thread(WaitOwner, 1, false, 0, true);
    run' := SplitExtend(run', 0, one);
    run' := SplitExtend(run', 0, one);
  }

  /** CPU 1 allocates between load and store of CPU 0, and CPU 2 is then given the same position. */
  lemma HandedOutTwice(x: Split) returns (run: seq<Split>)
    requires SplitInit(x) && |x.q.threads| >= 3
    ensures IsSplitRun(run, false) && run[0] == x
    ensures
      var ts := run[|run| - 1].q.threads;
      |ts| >= 3 && ts[1] == ts[2].(owner := false) && HasRange(ts[1].pc) && ts[1].base < ts[1].End()
  {
    run := [x];
    run := TakesOne(run, 0, 0, false);
    run := Loads(run);
    run := TakesOne(run, 1, 1, true);
    run := SplitExtend(run, 0, Start(1, false));
    run := TakesOne(run, 2, 1, false);
  }
}
