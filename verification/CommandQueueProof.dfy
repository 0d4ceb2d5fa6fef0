/** Every step of the command queue keeps the invariant. */
module CommandQueueProof {
  import opened Common
  import opened QueuePointers
  import opened ValidMap
  import opened CommandQueue
  import opened CommandQueueInvariant

  // ----- frames

  lemma OtherThreadKept(s: State, s': State, t: nat, u: nat)
    requires Shaped(s) && Shaped(s') && s'.Size() == s.Size() && Moves(s, s', t) && LogGrows(s.log, s'.log, t)
    requires u < |s.threads| && u != t && ThreadInv(s, u)
    ensures ThreadInv(s', u)
  {
  }

  lemma ThreadsKept(s: State, s': State, t: nat)
    requires Shaped(s) && Shaped(s') && s'.Size() == s.Size() && Moves(s, s', t) && LogGrows(s.log, s'.log, t)
    requires forall u: nat {:trigger ThreadInv(s, u)} :: u < |s.threads| ==> ThreadInv(s, u)
    requires ThreadInv(s', t)
    ensures forall u: nat {:trigger ThreadInv(s', u)} :: u < |s'.threads| ==> ThreadInv(s', u)
  {
    forall u: nat | u < |s'.threads| ensures ThreadInv(s', u) {
      if u != t {
        assert ThreadInv(s, u);
        OtherThreadKept(s, s', t, u);
      }
    }
  }

  lemma WindowFrame(s: State, s': State)
    requires Shaped(s) && Shaped(s') && WindowInv(s)
    requires s'.bits == s.bits && s'.slots == s.slots && s'.hwCons == s.hwCons && s'.cons == s.cons && s'.log == s.log
    requires s'.msi == s.msi
    ensures WindowInv(s')
  {
    forall x: nat | s'.cons <= x < s'.cons + s'.Size() ensures PosInv(s', x) {
      assert PosInv(s, x);
    }
  }

  lemma OwnerFrame(s: State, s': State, t: nat, r: Roles)
    requires Moves(s, s', t) && OwnerInv(s, r) && s'.Size() == s.Size()
    requires s'.prod == s.prod && s'.owned == s.owned && s'.ownerProd == s.ownerProd && s'.hwProd == s.hwProd
    requires LogGrows(s.log, s'.log, t)
    requires IsGatherer(s'.threads[t]) == IsGatherer(s.threads[t])
    requires IsPublisher(s'.threads[t]) == IsPublisher(s.threads[t])
    requires IsGatherer(s.threads[t]) ==> s'.threads[t].base == s.threads[t].base
    requires IsGatherer(s.threads[t]) && s'.threads[t].pc.ClearOwned? ==> r.publisher.None?
    requires IsPublisher(s.threads[t]) ==> PublisherInv(s', s'.threads[t], GatherFrom(s, r))
    ensures OwnerInv(s', r)
  {
    if r.publisher.Some? && r.publisher.value != t {
      assert PublisherInv(s, s.threads[r.publisher.value], GatherFrom(s, r));
    }
  }

  lemma LockFrame(s: State, s': State, t: nat, r: Roles)
    requires Moves(s, s', t) && LockInv(s, r) && s'.lock == s.lock
    requires SameLockRole(s.threads[t], s'.threads[t])
    ensures LockInv(s', r)
  {
  }

  lemma ConsFrame(s: State, s': State, t: nat, r: Roles)
    requires Moves(s, s', t) && ConsInv(s, r) && s'.cons == s.cons && s'.hwCons >= s.hwCons
    requires s'.threads[t].pc.SyncWrite? ==> s.threads[t].pc == s'.threads[t].pc
    requires ThreadConsInv(s', r, s'.threads[t], t)
    ensures ConsInv(s', r)
  {
    forall u: nat | u < |s'.threads| ensures ThreadConsInv(s', r, s'.threads[u], u) {
      if u != t {
        assert ThreadConsInv(s, r, s.threads[u], u);
      }
    }
  }

  // ----- steps that only move the CPU

  lemma QuietKept(s: State, t: nat, th: Thread, r: Roles)
    requires Inv(s, r) && t < |s.threads| && Quiet(s, t, th, r)
    ensures Inv(s.(threads := s.threads[t := th]), r)
  {
    var s' := s.(threads := s.threads[t := th]);
    WindowFrame(s, s');
    ThreadsKept(s, s', t);
    OwnerFrame(s, s', t, r);
    LockFrame(s, s', t, r);
    ConsFrame(s, s', t, r);
  }

  /** Reads before the allocation: no role is involved. */
  lemma BeforeAllocation(s: State, t: nat, pc: Pc, n: nat, sync: bool, r: Roles)
    requires Inv(s, r) && t < |s.threads|
    requires
      var from := s.threads[t].pc;
      from.Idle? || from.ReadQueue? || from.ExclTry? || from.PollFull? || from.AllocCas?
    requires pc.ReadQueue? || pc.ExclTry? || pc.PollFull? || pc.AllocCas?
    requires s.threads[t].(n := n, sync := sync).Len() > 0
    requires pc.AllocCas? ==> SpaceFor(s.Size(), pc.view, s.threads[t].(n := n, sync := sync).Len())
    ensures Inv(s.(threads := s.threads[t := s.threads[t].(pc := pc, n := n, sync := sync)]), r)
  {
    BeforeIsQuiet(s, t, s.threads[t].(pc := pc, n := n, sync := sync), r);
    QuietKept(s, t, s.threads[t].(pc := pc, n := n, sync := sync), r);
  }

  lemma BeforeIsQuiet(s: State, t: nat, th: Thread, r: Roles)
    requires (r.gatherer.Some? ==> r.gatherer.value < |s.threads|) && Shaped(s) && t < |s.threads|
    requires
      var from := s.threads[t].pc;
      from.Idle? || from.ReadQueue? || from.ExclTry? || from.PollFull? || from.AllocCas?
    requires (th.pc.ReadQueue? || th.pc.ExclTry? || th.pc.PollFull? || th.pc.AllocCas?) && th.Len() > 0
    requires th.pc.AllocCas? ==> SpaceFor(s.Size(), th.pc.view, th.Len())
    ensures Quiet(s, t, th, r)
  {
  }

  lemma WaitsForLock(s: State, t: nat, pc: Pc, r: Roles)
    requires Inv(s, r) && t < |s.threads|
    requires s.threads[t].pc.LockSpin? || s.threads[t].pc.LockCas?
    requires pc.LockSpin? || (pc.LockCas? && pc.val >= 0)
    ensures Inv(Goto(s, t, pc), r)
  {
    assert ThreadInv(s, t);
    WaitIsQuiet(s, t, pc, r);
    QuietKept(s, t, s.threads[t].(pc := pc), r);
  }

  lemma WaitIsQuiet(s: State, t: nat, pc: Pc, r: Roles)
    requires (r.gatherer.Some? ==> r.gatherer.value < |s.threads|) && Shaped(s) && t < |s.threads| && ThreadInv(s, t)
    requires s.threads[t].pc.LockSpin? || s.threads[t].pc.LockCas?
    requires pc.LockSpin? || (pc.LockCas? && pc.val >= 0)
    ensures Quiet(s, t, s.threads[t].(pc := pc), r)
  {
  }

  /** The gatherer's turn comes only when no publisher is left. */
  lemma TurnComes(s: State, t: nat, r: Roles)
    requires Inv(s, r) && t < |s.threads| && s.threads[t].pc.WaitOwner?
    requires SamePointer(s.Size(), s.ownerProd, s.threads[t].base)
    ensures r.publisher.None? && r.gatherer == Some(t) && s.ownerProd == s.threads[t].base
    ensures Inv(Goto(s, t, ClearOwned), r)
  {
    var th := s.threads[t];
    assert ThreadInv(s, t);
    assert r.gatherer == Some(t);
    if r.publisher.Some? {
      assert PublisherInv(s, s.threads[r.publisher.value], th.base);
    }
    WordsEqualIffPositions(s.Size(), s.ownerProd, th.base);
    assert ThreadConsInv(s, r, th, t);
    QuietKept(s, t, th.(pc := ClearOwned), r);
  }

  /** A poll turn that succeeds has seen the mark of every position in it. */
  lemma PolledAreMarked(s: State, q: nat, e: nat)
    requires Shaped(s) && WindowInv(s) && OrderInv(s)
    requires s.cons <= q < e <= s.prod
    requires TurnValid(s, q, e)
    ensures q < TurnEnd(s.Size(), q, e) <= e
    ensures forall x: nat :: q <= x < TurnEnd(s.Size(), q, e) ==> s.log[x].marked
  {
    var size := s.Size();
    LimitIsTurnEnd(size, q, e);
    WordValidIsTurnValid(s.bits, q, e);
    forall x: nat | q <= x < TurnEnd(size, q, e) ensures s.log[x].marked {
      assert PosInv(s, x);
      assert s.bits[x % size] == Polarity(size, x);
    }
  }

  lemma PollTurnKept(s: State, t: nat, r: Roles)
    requires Inv(s, r) && t < |s.threads| && s.threads[t].pc.PollValid?
    requires TurnValid(s, s.threads[t].pc.q, s.threads[t].pc.e)
    ensures
      var pc := s.threads[t].pc;
      var q' := TurnEnd(s.Size(), pc.q, pc.e);
      Inv(Goto(s, t, if SamePointer(s.Size(), q', pc.e) then Publish(pc.e) else PollValid(q', pc.e)), r)
  {
    var th := s.threads[t];
    var q, e := th.pc.q, th.pc.e;
    assert ThreadInv(s, t) && ThreadConsInv(s, r, th, t);
    assert r.publisher == Some(t);
    assert PublisherInv(s, th, GatherFrom(s, r));
    PolledAreMarked(s, q, e);
    var q' := TurnEnd(s.Size(), q, e);
    WordsEqualIffPositions(s.Size(), q', e);
    var pc' := if SamePointer(s.Size(), q', e) then Publish(e) else PollValid(q', e);
    PollIsQuiet(s, t, pc', r);
    QuietKept(s, t, th.(pc := pc'), r);
  }

  lemma PollIsQuiet(s: State, t: nat, pc: Pc, r: Roles)
    requires (r.gatherer.Some? ==> r.gatherer.value < |s.threads|) && Shaped(s) && t < |s.threads|
    requires ThreadInv(s, t) && ThreadConsInv(s, r, s.threads[t], t)
    requires s.threads[t].pc.PollValid? && PublisherInv(s, s.threads[t], GatherFrom(s, r))
    requires
      && (pc.Publish? ==> pc.e == s.threads[t].pc.e)
      && (pc.PollValid? ==> pc.e == s.threads[t].pc.e && s.threads[t].pc.q <= pc.q < pc.e)
    requires
      forall x :: s.threads[t].pc.q <= x < (if pc.PollValid? then pc.q else s.threads[t].pc.e) ==>
        x < |s.log| && s.log[x].marked
    requires pc.Publish? || pc.PollValid?
    ensures Quiet(s, t, s.threads[t].(pc := pc), r)
  {
  }

  // ----- waiting for a CMD_SYNC

  /** While a CPU guards its slot, the queue stays within a lap of it, so the wrapped test is exact. */
  lemma SlotWithinALap(s: State, t: nat, r: Roles)
    requires Inv(s, r) && t < |s.threads| && GuardsSlot(s.threads[t]) && !s.threads[t].pc.Mark?
    ensures
      var slot := s.threads[t].Slot();
      && s.cons <= slot < s.prod <= slot + s.Size()
      && !Consumed(s.Size(), Word(s.Size(), s.cons), Word(s.Size(), slot))
      && (Consumed(s.Size(), Word(s.Size(), s.hwCons), Word(s.Size(), slot)) <==> s.hwCons > slot)
  {
    var slot := s.threads[t].Slot();
    assert ThreadInv(s, t) && ThreadConsInv(s, r, s.threads[t], t);
    ConsumedIsExact(s.Size(), s.cons, slot);
    ConsumedIsExact(s.Size(), s.hwCons, slot);
  }

  /** The completion mark of a guarded slot is its own, and means it has been consumed. */
  lemma DoneMeansConsumed(s: State, t: nat, r: Roles)
    requires Inv(s, r) && t < |s.threads| && GuardsSlot(s.threads[t]) && !s.threads[t].pc.Mark?
    ensures s.slots[Idx(s.Size(), s.threads[t].Slot())].Holds?
    ensures s.slots[Idx(s.Size(), s.threads[t].Slot())].pos == s.threads[t].Slot()
    ensures CellDone(s, s.threads[t].Slot()) <==> s.msi && s.hwCons > s.threads[t].Slot()
  {
    SlotWithinALap(s, t, r);
    assert ThreadInv(s, t);
    assert PosInv(s, s.threads[t].Slot());
  }

  lemma SyncWaitKept(s: State, t: nat, pc: Pc, r: Roles)
    requires Inv(s, r) && t < |s.threads|
    requires s.threads[t].pc.SyncFirst? || s.threads[t].pc.SyncPoll? || s.threads[t].pc.SyncMsi?
    requires pc.SyncPoll? || pc.SyncMsi? || (pc.TryUnlock? && s.threads[t].Slot() < pc.c <= s.hwCons)
    ensures Inv(Goto(s, t, pc), r)
  {
    assert ThreadInv(s, t) && ThreadConsInv(s, r, s.threads[t], t);
    SyncIsQuiet(s, t, pc, r);
    QuietKept(s, t, s.threads[t].(pc := pc), r);
  }

  lemma SyncIsQuiet(s: State, t: nat, pc: Pc, r: Roles)
    requires (r.gatherer.Some? ==> r.gatherer.value < |s.threads|) && Shaped(s) && t < |s.threads|
    requires ThreadInv(s, t) && ThreadConsInv(s, r, s.threads[t], t)
    requires s.threads[t].pc.SyncFirst? || s.threads[t].pc.SyncPoll? || s.threads[t].pc.SyncMsi?
    requires pc.SyncPoll? || pc.SyncMsi? || (pc.TryUnlock? && s.threads[t].Slot() < pc.c <= s.hwCons)
    ensures Quiet(s, t, s.threads[t].(pc := pc), r)
  {
  }

  // ----- the reader/writer lock

  lemma {:induction false} BoundedSet(a: set<nat>, n: nat)
    requires forall x :: x in a ==> x < n
    ensures |a| <= n
  {
    if n > 0 {
      assert a - {n - 1} + (a * {n - 1}) == a;
      BoundedSet(a - {n - 1}, n - 1);
    } else {
      assert a == {};
    }
  }

  /** The lock word is negative exactly while somebody holds it exclusively. */
  lemma LockSign(s: State, r: Roles)
    requires Inv(s, r)
    ensures s.lock < 0 <==> r.excl.Some?
  {
    BoundedSet(r.bumped, |s.threads|);
  }

  /** A step on the lock word alone. */
  lemma LockStepKept(s: State, t: nat, lock: int, pc: Pc, r: Roles)
    requires Inv(s, r) && t < |s.threads| && CanMove(s, t, lock, pc, r)
    ensures Good(Goto(s.(lock := lock), t, pc))
  {
    var r' :| LockMove(s, t, lock, pc, r, r');
    LockMoveKept(s, t, lock, pc, r, r');
  }

  lemma LockMoveKept(s: State, t: nat, lock: int, pc: Pc, r: Roles, r': Roles)
    requires Inv(s, r) && t < |s.threads| && LockMove(s, t, lock, pc, r, r')
    ensures Inv(Goto(s.(lock := lock), t, pc), r')
  {
    var s' := Goto(s.(lock := lock), t, pc);
    WindowFrame(s, s');
    ThreadsKept(s, s', t);
    OwnerFrame(s, s', t, r);
    ConsFrame(s, s', t, r);
    ConsRolesOnly(s', r, r');
  }

  lemma ConsRolesOnly(s: State, r: Roles, r': Roles)
    requires ConsInv(s, r) && r'.writer == r.writer
    ensures ConsInv(s, r')
  {
    forall t: nat | t < |s.threads| ensures ThreadConsInv(s, r', s.threads[t], t) {
      assert ThreadConsInv(s, r, s.threads[t], t);
    }
  }

  lemma ExclusiveTaken(s: State, t: nat, r: Roles)
    requires Inv(s, r) && t < |s.threads| && s.threads[t].pc.ExclTry? && s.lock == 0
    ensures Good(Goto(s.(lock := INT_MIN), t, ExclRead))
  {
    LockSign(s, r);
    assert ThreadInv(s, t);
    ExclusiveMove(s, t, r);
    LockStepKept(s, t, INT_MIN, ExclRead, r);
  }

  lemma ExclusiveMove(s: State, t: nat, r: Roles)
    requires Shaped(s) && LockInv(s, r) && t < |s.threads| && ThreadInv(s, t)
    requires s.threads[t].pc.ExclTry? && r.excl.None? && s.lock == 0
    ensures CanMove(s, t, INT_MIN, ExclRead, r)
  {
    assert LockMove(s, t, INT_MIN, ExclRead, r, r.(excl := Some(t), bumped := {}));
  }

  lemma ExclusiveReleased(s: State, t: nat, r: Roles)
    requires Inv(s, r) && t < |s.threads| && s.threads[t].pc.ExclUnlock?
    ensures Good(Goto(s.(lock := 0), t, ReadQueue))
  {
    assert ThreadInv(s, t);
    ReleasedMove(s, t, r);
    LockStepKept(s, t, 0, ReadQueue, r);
  }

  lemma ReleasedMove(s: State, t: nat, r: Roles)
    requires Shaped(s) && LockInv(s, r) && t < |s.threads| && s.threads[t].pc.ExclUnlock? && ThreadInv(s, t)
    ensures CanMove(s, t, 0, ReadQueue, r)
  {
    assert r.excl == Some(t);
    assert LockMove(s, t, 0, ReadQueue, r, r.(excl := None, bumped := {}));
  }

  lemma RefusedLock(s: State, t: nat, r: Roles)
    requires LockInv(s, r) && t < |s.threads| && s.threads[t].pc.LockInc? && r.excl.Some?
    ensures LockInv(Goto(s.(lock := s.lock + 1), t, LockSpin), r.(bumped := r.bumped + {t}))
  {
    assert t !in r.bumped;
  }

  /** An increment of a negative lock does not take it; the exclusive holder will erase it. */
  lemma SharedRefused(s: State, t: nat, r: Roles)
    requires Inv(s, r) && t < |s.threads| && s.threads[t].pc.LockInc? && s.lock < 0
    ensures Good(Goto(s.(lock := s.lock + 1), t, LockSpin))
  {
    LockSign(s, r);
    assert ThreadInv(s, t);
    RefusedMove(s, t, r);
    LockStepKept(s, t, s.lock + 1, LockSpin, r);
  }

  lemma RefusedMove(s: State, t: nat, r: Roles)
    requires Shaped(s) && LockInv(s, r) && t < |s.threads| && ThreadInv(s, t)
    requires s.threads[t].pc.LockInc? && r.excl.Some?
    ensures CanMove(s, t, s.lock + 1, LockSpin, r)
  {
    RefusedLock(s, t, r);
    assert LockMove(s, t, s.lock + 1, LockSpin, r, r.(bumped := r.bumped + {t}));
  }

  /** A slot that is not marked yet lies beyond everything the hardware has seen. */
  lemma UnmarkedIsAhead(s: State, t: nat, r: Roles)
    requires Inv(s, r) && t < |s.threads| && HasRange(s.threads[t].pc) && s.threads[t].sync && !s.threads[t].pc.Mark?
    ensures s.hwProd <= s.threads[t].Slot()
    ensures ThreadConsInv(s, r, s.threads[t].(pc := Mark(s.threads[t].base)), t)
  {
    var th := s.threads[t];
    assert ThreadInv(s, t);
    assert s.log[th.Slot()] == Pos(t, true, th.Slot() < WrittenTo(th), false);
    if OtherWriter(s, r, t) {
      assert ThreadConsInv(s, r, s.threads[r.writer.value], r.writer.value);
    }
  }

  lemma TakenLock(s: State, t: nat, r: Roles)
    requires LockInv(s, r) && t < |s.threads| && r.excl.None? && s.threads[t].sync
    requires s.threads[t].pc.LockInc? || s.threads[t].pc.LockCas?
    ensures LockInv(Goto(s.(lock := s.lock + 1), t, Mark(s.threads[t].base)),
                    r.(sharers := r.sharers + {t}, bumped := {}))
  {
    assert t !in r.sharers;
  }

  lemma SharedTaken(s: State, t: nat, r: Roles)
    requires Inv(s, r) && t < |s.threads| && s.lock >= 0
    requires s.threads[t].pc.LockInc? || s.threads[t].pc.LockCas?
    ensures Good(Goto(s.(lock := s.lock + 1), t, Mark(s.threads[t].base)))
  {
    LockSign(s, r);
    assert ThreadInv(s, t);
    UnmarkedIsAhead(s, t, r);
    TakenMove(s, t, r);
    LockStepKept(s, t, s.lock + 1, Mark(s.threads[t].base), r);
  }

  lemma TakenMove(s: State, t: nat, r: Roles)
    requires Shaped(s) && LockInv(s, r) && t < |s.threads| && ThreadInv(s, t) && r.excl.None?
    requires s.threads[t].pc.LockInc? || s.threads[t].pc.LockCas?
    requires ThreadConsInv(s, r, s.threads[t].(pc := Mark(s.threads[t].base)), t)
    ensures CanMove(s, t, s.lock + 1, Mark(s.threads[t].base), r)
  {
    TakenLock(s, t, r);
    assert LockMove(s, t, s.lock + 1, Mark(s.threads[t].base), r, r.(sharers := r.sharers + {t}, bumped := {}));
  }

  lemma ReleasedLock(s: State, t: nat, r: Roles)
    requires LockInv(s, r) && t < |s.threads| && s.threads[t].pc.SyncDec? && s.threads[t].sync
    ensures LockInv(Goto(s.(lock := s.lock - 1), t, Idle), r.(sharers := r.sharers - {t}, bumped := {}))
  {
    assert t in r.sharers;
  }

  lemma SharedReleased(s: State, t: nat, r: Roles)
    requires Inv(s, r) && t < |s.threads| && s.threads[t].pc.SyncDec?
    ensures Good(Goto(s.(lock := s.lock - 1), t, Idle))
  {
    assert ThreadInv(s, t);
    LastMove(s, t, r);
    LockStepKept(s, t, s.lock - 1, Idle, r);
  }

  lemma LastMove(s: State, t: nat, r: Roles)
    requires Shaped(s) && LockInv(s, r) && t < |s.threads| && ThreadInv(s, t) && s.threads[t].pc.SyncDec?
    ensures CanMove(s, t, s.lock - 1, Idle, r)
  {
    ReleasedLock(s, t, r);
    assert LockMove(s, t, s.lock - 1, Idle, r, r.(sharers := r.sharers - {t}, bumped := {}));
  }

  // ----- writing the shared consumer position

  /** The window follows the consumer: what it leaves behind is marked, so the next lap starts unmarked. */
  lemma WindowShifts(s: State, s': State, c: nat)
    requires Shaped(s) && WindowInv(s) && LogInv(s) && OrderInv(s)
    requires s.cons <= c <= s.hwCons
    requires Shaped(s') && s'.cons == c && s'.bits == s.bits && s'.slots == s.slots && s'.log == s.log
    requires s'.hwCons == s.hwCons && s'.msi == s.msi
    ensures WindowInv(s')
  {
    var size := s.Size();
    forall x: nat | c <= x < c + size ensures PosInv(s', x) {
      if x < s.cons + size {
        assert PosInv(s, x);
      } else {
        assert PosInv(s, x - size);
        Advance(size, x - size, size);
      }
    }
  }

  lemma ExclusiveWrites(s: State, t: nat, r: Roles)
    requires Inv(s, r) && t < |s.threads| && s.threads[t].pc.ExclWrite?
    ensures Inv(Goto(s.(cons := s.threads[t].pc.c), t, ExclUnlock), r)
    ensures s.cons <= s.threads[t].pc.c
  {
    var c := s.threads[t].pc.c;
    var s' := Goto(s.(cons := c), t, ExclUnlock);
    assert ThreadInv(s, t) && ThreadConsInv(s, r, s.threads[t], t);
    assert r.excl == Some(t);
    WindowShifts(s, s', c);
    ThreadsKept(s, s', t);
    OwnerFrame(s, s', t, r);
    LockFrame(s, s', t, r);
    forall u: nat | u < |s'.threads| ensures ThreadConsInv(s', r, s'.threads[u], u) {
      assert ThreadConsInv(s, r, s.threads[u], u);
      assert u !in r.sharers;
      assert u != t ==> r.excl != Some(u);
    }
  }

  lemma SharedWrites(s: State, t: nat, r: Roles)
    requires Inv(s, r) && t < |s.threads| && s.threads[t].pc.SyncWrite?
    ensures Inv(Goto(s.(cons := s.threads[t].pc.c), t, SyncDec), r.(writer := None))
    ensures s.cons < s.threads[t].pc.c
  {
    var c := s.threads[t].pc.c;
    var s' := Goto(s.(cons := c), t, SyncDec);
    assert ThreadInv(s, t) && ThreadConsInv(s, r, s.threads[t], t);
    WriterThread(s, s', t);
    WindowShifts(s, s', c);
    ThreadsKept(s, s', t);
    OwnerFrame(s, s', t, r);
    WriterDone(s, s', t, r);
    WriterLeavesCons(s, s', t, r);
    OwnerRolesOnly(s', r, r.(writer := None));
  }

  lemma WriterThread(s: State, s': State, t: nat)
    requires Shaped(s) && t < |s.threads| && s.threads[t].pc.SyncWrite? && ThreadInv(s, t)
    requires s' == Goto(s.(cons := s.threads[t].pc.c), t, SyncDec)
    ensures ThreadInv(s', t) && s.threads[t].sync
  {
  }

  lemma WriterLeavesCons(s: State, s': State, t: nat, r: Roles)
    requires Moves(s, s', t) && LockInv(s, r) && ConsInv(s, r) && s.threads[t].pc.SyncWrite? && s.threads[t].sync
    requires s' == Goto(s.(cons := s.threads[t].pc.c), t, SyncDec)
    ensures ConsInv(s', r.(writer := None))
  {
    assert r.writer == Some(t) && t in r.sharers;
    forall u: nat | u < |s'.threads| ensures ThreadConsInv(s', r.(writer := None), s'.threads[u], u) {
      assert ThreadConsInv(s, r, s.threads[u], u);
      assert r.excl != Some(u);
    }
  }

  lemma OwnerRolesOnly(s: State, r: Roles, r': Roles)
    requires OwnerInv(s, r) && r'.gatherer == r.gatherer && r'.publisher == r.publisher
    ensures OwnerInv(s, r')
  {
  }

  lemma WriterDone(s: State, s': State, t: nat, r: Roles)
    requires Moves(s, s', t) && LockInv(s, r) && s'.lock == s.lock
    requires s.threads[t].pc.SyncWrite? && s'.threads[t] == s.threads[t].(pc := SyncDec) && s.threads[t].sync
    ensures LockInv(s', r.(writer := None))
  {
    assert r.writer == Some(t);
  }

  /** Only the last reader becomes the writer, and it finds no other. */
  lemma LastReader(s: State, t: nat, r: Roles)
    requires Inv(s, r) && t < |s.threads| && s.threads[t].pc.TryUnlock? && s.lock == 1
    ensures r.writer.None? && r.sharers == {t}
    ensures Good(Goto(s, t, SyncWrite(s.threads[t].pc.c)))
  {
    LockSign(s, r);
    OnlyReader(s, t, r);
    assert ThreadInv(s, t);
    ReaderThread(s, t);
    ReaderWrites(s, Goto(s, t, SyncWrite(s.threads[t].pc.c)), t, r);
    ReaderKept(s, t, r);
  }

  lemma ReaderThread(s: State, t: nat)
    requires Shaped(s) && t < |s.threads| && s.threads[t].pc.TryUnlock? && ThreadInv(s, t)
    ensures ThreadInv(Goto(s, t, SyncWrite(s.threads[t].pc.c)), t) && s.threads[t].sync
  {
  }

  lemma ReaderKept(s: State, t: nat, r: Roles)
    requires Inv(s, r) && t < |s.threads| && s.threads[t].pc.TryUnlock? && r.writer.None?
    requires
      var s', r' := Goto(s, t, SyncWrite(s.threads[t].pc.c)), r.(writer := Some(t));
      ThreadInv(s', t) && LockInv(s', r') && ConsInv(s', r')
    ensures Inv(Goto(s, t, SyncWrite(s.threads[t].pc.c)), r.(writer := Some(t)))
  {
    var s' := Goto(s, t, SyncWrite(s.threads[t].pc.c));
    WindowFrame(s, s');
    ThreadsKept(s, s', t);
    OwnerFrame(s, s', t, r);
    OwnerRolesOnly(s', r, r.(writer := Some(t)));
  }

  lemma OnlyReader(s: State, t: nat, r: Roles)
    requires Shaped(s) && LockInv(s, r) && t < |s.threads| && s.threads[t].pc.TryUnlock? && |r.sharers| == 1
    requires forall u: nat {:trigger ThreadInv(s, u)} :: u < |s.threads| ==> ThreadInv(s, u)
    ensures r.writer.None? && r.sharers == {t}
  {
    assert ThreadInv(s, t);
    assert t in r.sharers;
    assert |r.sharers - {t}| == 0;
    forall u: nat | u < |s.threads| ensures s.threads[u].pc.SyncWrite? ==> u in r.sharers {
      assert ThreadInv(s, u);
    }
  }

  lemma ReaderWrites(s: State, s': State, t: nat, r: Roles)
    requires t < |s.threads| && s.threads[t].pc.TryUnlock? && s.threads[t].sync
    requires LockInv(s, r) && ConsInv(s, r) && r.writer.None? && r.sharers == {t}
    requires s' == Goto(s, t, SyncWrite(s.threads[t].pc.c))
    ensures LockInv(s', r.(writer := Some(t))) && ConsInv(s', r.(writer := Some(t)))
  {
    forall u: nat | u < |s'.threads| ensures ThreadConsInv(s', r.(writer := Some(t)), s'.threads[u], u) {
      assert ThreadConsInv(s, r, s.threads[u], u);
      assert u in r.sharers ==> u == t;
    }
  }

  // ----- allocation

  /** The compare-and-swap found the word the space test was made on, so the test holds now. */
  lemma SpaceIsReal(s: State, t: nat, r: Roles)
    requires Inv(s, r) && t < |s.threads| && s.threads[t].pc.AllocCas?
    requires SameWord(s.Size(), s.threads[t].pc.view, s.Now())
    ensures s.prod + s.threads[t].Len() <= s.cons + s.Size()
  {
    assert ThreadInv(s, t);
    HasSpaceIsExact(s.Size(), s.prod, s.cons, s.threads[t].Len());
  }

  lemma AllocatedThread(s: State, t: nat)
    requires Shaped(s) && t < |s.threads| && s.threads[t].Len() > 0
    ensures Shaped(Allocate(s, t)) && ThreadInv(Allocate(s, t), t) && LogGrows(s.log, Allocate(s, t).log, t)
  {
  }

  lemma AllocatedWindow(s: State, t: nat)
    requires Shaped(s) && t < |s.threads| && s.threads[t].Len() > 0
    requires WindowInv(s) && LogInv(s) && OrderInv(s)
    ensures WindowInv(Allocate(s, t)) && LogInv(Allocate(s, t))
  {
    var s' := Allocate(s, t);
    forall x: nat | s'.cons <= x < s'.cons + s'.Size() ensures PosInv(s', x) {
      assert PosInv(s, x);
    }
  }

  lemma AllocatedOwner(s: State, t: nat, r: Roles)
    requires Shaped(s) && OwnerInv(s, r) && t < |s.threads| && s.threads[t].Len() > 0 && s.threads[t].pc.AllocCas?
    ensures OwnerInv(Allocate(s, t), r.(gatherer := if s.owned then r.gatherer else Some(t)))
  {
    var s' := Allocate(s, t);
    var r' := r.(gatherer := if s.owned then r.gatherer else Some(t));
    assert r.gatherer != Some(t) && r.publisher != Some(t);
    assert GatherFrom(s', r') == GatherFrom(s, r);
    if r.publisher.Some? {
      assert PublisherInv(s, s.threads[r.publisher.value], GatherFrom(s, r));
    }
  }

  lemma AllocateKept(s: State, t: nat, r: Roles)
    requires Inv(s, r) && t < |s.threads| && s.threads[t].pc.AllocCas?
    requires SameWord(s.Size(), s.threads[t].pc.view, s.Now())
    ensures Inv(Allocate(s, t), r.(gatherer := if s.owned then r.gatherer else Some(t)))
  {
    var s' := Allocate(s, t);
    var r' := r.(gatherer := if s.owned then r.gatherer else Some(t));
    assert ThreadInv(s, t);
    SpaceIsReal(s, t, r);
    AllocatedThread(s, t);
    AllocatedWindow(s, t);
    AllocatedOwner(s, t, r);
    ThreadsKept(s, s', t);
    LockFrame(s, s', t, r);
    LockRolesOnly(s', r, r');
    ConsFrame(s, s', t, r);
    ConsRolesOnly(s', r, r');
  }

  lemma LockRolesOnly(s: State, r: Roles, r': Roles)
    requires LockInv(s, r) && r' == r.(gatherer := r'.gatherer, publisher := r'.publisher)
    ensures LockInv(s, r')
  {
  }

  // ----- writing the entries

  /** Positions of one window fall on different slots. */
  lemma DistinctSlots(size: nat, from: nat, x: nat, y: nat)
    requires size > 0 && from <= x < from + size && from <= y < from + size && x != y
    ensures Idx(size, x) != Idx(size, y)
  {
    OffsetOfPosition(size, from, x);
    OffsetOfPosition(size, from, y);
  }

  /** The slot to be written lies in the window and beyond the hardware: what it held has been consumed. */
  lemma WriteIsSafe(s: State, t: nat, r: Roles)
    requires Inv(s, r) && t < |s.threads| && s.threads[t].pc.WriteEntry?
    ensures
      var x := s.threads[t].base + s.threads[t].pc.i;
      && s.hwProd <= x < s.prod && x < s.cons + s.Size()
      && s.log[x] == Pos(t, s.threads[t].sync && s.threads[t].pc.i == s.threads[t].n, false, false)
      && forall y: nat :: s.hwCons <= y < s.prod && y != x ==> Idx(s.Size(), y) != Idx(s.Size(), x)
  {
    var th := s.threads[t];
    var x := th.base + th.pc.i;
    assert ThreadInv(s, t);
    assert s.log[x].cpu == t;
    forall y: nat | s.hwCons <= y < s.prod && y != x ensures Idx(s.Size(), y) != Idx(s.Size(), x) {
      DistinctSlots(s.Size(), s.cons, x, y);
    }
  }

  lemma WrittenThread(s: State, t: nat)
    requires Shaped(s) && t < |s.threads| && s.threads[t].pc.WriteEntry? && ThreadInv(s, t)
    ensures
      var s' := WriteOne(s, t, s.threads[t].pc.i);
      Shaped(s') && ThreadInv(s', t) && LogGrows(s.log, s'.log, t)
  {
  }

  lemma WrittenWindow(s: State, t: nat, r: Roles)
    requires Inv(s, r) && t < |s.threads| && s.threads[t].pc.WriteEntry?
    ensures WindowInv(WriteOne(s, t, s.threads[t].pc.i)) && LogInv(WriteOne(s, t, s.threads[t].pc.i))
  {
    var s' := WriteOne(s, t, s.threads[t].pc.i);
    assert ThreadInv(s, t);
    WriteIsSafe(s, t, r);
    forall y: nat | s'.cons <= y < s'.cons + s'.Size() ensures PosInv(s', y) {
      assert PosInv(s, y);
      WrittenPos(s, t, y);
    }
  }

  lemma WrittenPos(s: State, t: nat, y: nat)
    requires Shaped(s) && t < |s.threads| && s.threads[t].pc.WriteEntry? && ThreadInv(s, t)
    requires s.cons <= s.threads[t].base + s.threads[t].pc.i < s.cons + s.Size()
    requires s.hwCons <= s.threads[t].base + s.threads[t].pc.i
    requires s.cons <= y < s.cons + s.Size() && PosInv(s, y)
    ensures Shaped(WriteOne(s, t, s.threads[t].pc.i)) && PosInv(WriteOne(s, t, s.threads[t].pc.i), y)
  {
    var x := s.threads[t].base + s.threads[t].pc.i;
    if y != x {
      DistinctSlots(s.Size(), s.cons, x, y);
    }
  }

  lemma WriteKept(s: State, t: nat, r: Roles)
    requires Inv(s, r) && t < |s.threads| && s.threads[t].pc.WriteEntry?
    ensures Inv(WriteOne(s, t, s.threads[t].pc.i), r)
  {
    var s' := WriteOne(s, t, s.threads[t].pc.i);
    assert ThreadInv(s, t);
    WrittenThread(s, t);
    WrittenWindow(s, t, r);
    ThreadsKept(s, s', t);
    WrittenRoles(s, t, r);
  }

  lemma WrittenRoles(s: State, t: nat, r: Roles)
    requires Shaped(s) && t < |s.threads| && s.threads[t].pc.WriteEntry? && ThreadInv(s, t)
    requires OwnerInv(s, r) && LockInv(s, r) && ConsInv(s, r)
    requires LogGrows(s.log, WriteOne(s, t, s.threads[t].pc.i).log, t)
    ensures
      var s' := WriteOne(s, t, s.threads[t].pc.i);
      OwnerInv(s', r) && LockInv(s', r) && ConsInv(s', r)
  {
    var s' := WriteOne(s, t, s.threads[t].pc.i);
    assert ThreadConsInv(s, r, s.threads[t], t);
    OwnerFrame(s, s', t, r);
    LockFrame(s, s', t, r);
    ConsFrame(s, s', t, r);
  }

  // ----- marking

  lemma MarkBounds(s: State, t: nat, r: Roles)
    requires Inv(s, r) && t < |s.threads| && s.threads[t].pc.Mark?
    ensures
      var th := s.threads[t];
      var m' := TurnEnd(s.Size(), th.pc.m, th.End());
      && s.hwProd <= th.pc.m < m' <= th.End() <= s.prod
      && (SamePointer(s.Size(), m', th.End()) <==> m' == th.End())
  {
    var th := s.threads[t];
    assert ThreadInv(s, t);
    assert !s.log[th.pc.m].marked;
    LimitIsTurnEnd(s.Size(), th.pc.m, th.End());
    WordsEqualIffPositions(s.Size(), TurnEnd(s.Size(), th.pc.m, th.End()), th.End());
  }

  lemma MarkedThread(s: State, t: nat)
    requires Shaped(s) && t < |s.threads| && s.threads[t].pc.Mark? && ThreadInv(s, t)
    requires
      var th := s.threads[t];
      var m' := TurnEnd(s.Size(), th.pc.m, th.End());
      th.pc.m < m' <= th.End() && (SamePointer(s.Size(), m', th.End()) <==> m' == th.End())
    ensures
      var s' := MarkTurn(s, t, s.threads[t].pc.m);
      Shaped(s') && ThreadInv(s', t) && LogGrows(s.log, s'.log, t)
  {
    var th := s.threads[t];
    var s' := MarkTurn(s, t, th.pc.m);
    if s'.threads[t].pc.Mark? {
      assert RangeInv(s'.log, t, s'.threads[t]);
    } else if th.sync {
      assert s.log[th.Slot()] == Pos(t, true, true, th.Slot() < th.pc.m);
    }
  }

  /** A flip of [m, m') seen from any position of the window that starts at `from`. */
  lemma FlipInWindow(bits: seq<bool>, from: nat, m: nat, m': nat, x: nat)
    requires |bits| > 0 && from <= m <= m' <= from + |bits| && from <= x < from + |bits|
    ensures Flip(bits, m, m')[x % |bits|] == if m <= x < m' then !bits[x % |bits|] else bits[x % |bits|]
  {
    if m <= x {
      FlipAt(bits, m, m', x);
    } else {
      Advance(|bits|, x, |bits|);
      FlipAt(bits, m, m', x + |bits|);
    }
  }

  lemma MarkedPos(s: State, t: nat, m': nat, x: nat)
    requires Shaped(s) && OrderInv(s) && t < |s.threads| && s.threads[t].pc.Mark? && ThreadInv(s, t)
    requires m' == TurnEnd(s.Size(), s.threads[t].pc.m, s.threads[t].End())
    requires s.hwProd <= s.threads[t].pc.m < m' <= s.threads[t].End()
    requires s.cons <= x < s.cons + s.Size() && PosInv(s, x)
    ensures Shaped(MarkTurn(s, t, s.threads[t].pc.m)) && PosInv(MarkTurn(s, t, s.threads[t].pc.m), x)
  {
    var m := s.threads[t].pc.m;
    FlipInWindow(s.bits, s.cons, m, m', x);
    if m <= x < m' {
      assert !s.log[x].marked;
    }
  }

  lemma MarkedWindow(s: State, t: nat, r: Roles)
    requires Inv(s, r) && t < |s.threads| && s.threads[t].pc.Mark?
    ensures Shaped(MarkTurn(s, t, s.threads[t].pc.m))
    ensures WindowInv(MarkTurn(s, t, s.threads[t].pc.m))
  {
    var s' := MarkTurn(s, t, s.threads[t].pc.m);
    assert ThreadInv(s, t);
    MarkBounds(s, t, r);
    forall x: nat | s'.cons <= x < s'.cons + s'.Size() ensures PosInv(s', x) {
      assert PosInv(s, x);
      MarkedPos(s, t, TurnEnd(s.Size(), s.threads[t].pc.m, s.threads[t].End()), x);
    }
  }

  lemma MarkedLog(s: State, t: nat)
    requires Shaped(s) && t < |s.threads| && s.threads[t].pc.Mark? && ThreadInv(s, t) && LogInv(s)
    requires TurnEnd(s.Size(), s.threads[t].pc.m, s.threads[t].End()) <= s.threads[t].End()
    ensures LogInv(MarkTurn(s, t, s.threads[t].pc.m))
  {
  }

  lemma MarkKept(s: State, t: nat, r: Roles)
    requires Inv(s, r) && t < |s.threads| && s.threads[t].pc.Mark?
    ensures Inv(MarkTurn(s, t, s.threads[t].pc.m), r)
  {
    var s' := MarkTurn(s, t, s.threads[t].pc.m);
    assert ThreadInv(s, t);
    MarkBounds(s, t, r);
    MarkedThread(s, t);
    MarkedWindow(s, t, r);
    MarkedLog(s, t);
    ThreadsKept(s, s', t);
    MarkedRoles(s, t, r);
  }

  lemma MarkedRoles(s: State, t: nat, r: Roles)
    requires Shaped(s) && t < |s.threads| && s.threads[t].pc.Mark? && ThreadInv(s, t)
    requires OwnerInv(s, r) && LockInv(s, r) && ConsInv(s, r)
    requires LogGrows(s.log, MarkTurn(s, t, s.threads[t].pc.m).log, t)
    ensures
      var s' := MarkTurn(s, t, s.threads[t].pc.m);
      OwnerInv(s', r) && LockInv(s', r) && ConsInv(s', r)
  {
    OwnerFrame(s, MarkTurn(s, t, s.threads[t].pc.m), t, r);
    MarkedLock(s, t, r);
  }

  lemma MarkedLock(s: State, t: nat, r: Roles)
    requires Shaped(s) && t < |s.threads| && s.threads[t].pc.Mark? && LockInv(s, r) && ConsInv(s, r)
    ensures
      var s' := MarkTurn(s, t, s.threads[t].pc.m);
      LockInv(s', r) && ConsInv(s', r)
  {
    var s' := MarkTurn(s, t, s.threads[t].pc.m);
    assert ThreadConsInv(s, r, s.threads[t], t);
    LockFrame(s, s', t, r);
    ConsFrame(s, s', t, r);
  }

  // ----- the owner's turn

  lemma ClosesRange(s: State, t: nat, r: Roles)
    requires Inv(s, r) && t < |s.threads| && s.threads[t].pc.ClearOwned?
    ensures !SamePointer(s.Size(), s.prod, s.threads[t].base)
    ensures Inv(Goto(s.(owned := false), t, PollValid(s.threads[t].base, s.prod)),
                r.(gatherer := None, publisher := Some(t)))
  {
    var th := s.threads[t];
    var s' := Goto(s.(owned := false), t, PollValid(th.base, s.prod));
    assert ThreadInv(s, t) && ThreadConsInv(s, r, th, t);
    assert r.gatherer == Some(t);
    WordsEqualIffPositions(s.Size(), th.base, s.prod);
    WindowFrame(s, s');
    ThreadsKept(s, s', t);
    ClosedOwner(s, s', t, r);
    ClosedLock(s, s', t, r);
  }

  lemma ClosedLock(s: State, s': State, t: nat, r: Roles)
    requires t < |s.threads| && s.threads[t].pc.ClearOwned? && LockInv(s, r) && ConsInv(s, r)
    requires s' == Goto(s.(owned := false), t, PollValid(s.threads[t].base, s.prod))
    ensures
      var r' := r.(gatherer := None, publisher := Some(t));
      LockInv(s', r') && ConsInv(s', r')
  {
    var r' := r.(gatherer := None, publisher := Some(t));
    assert ThreadConsInv(s, r, s.threads[t], t);
    LockFrame(s, s', t, r);
    LockRolesOnly(s', r, r');
    ConsFrame(s, s', t, r);
    ConsRolesOnly(s', r, r');
  }

  lemma ClosedOwner(s: State, s': State, t: nat, r: Roles)
    requires OwnerInv(s, r) && OrderInv(s) && Moves(s, s', t) && s.threads[t].pc.ClearOwned? && r.gatherer == Some(t)
    requires s' == Goto(s.(owned := false), t, PollValid(s.threads[t].base, s.prod)) && |s.log| == s.prod
    ensures OwnerInv(s', r.(gatherer := None, publisher := Some(t)))
  {
  }

  lemma PublishKept(s: State, t: nat, r: Roles)
    requires Inv(s, r) && t < |s.threads| && s.threads[t].pc.Publish?
    ensures Inv(Goto(s.(hwProd := s.threads[t].pc.e), t, Handoff(s.threads[t].pc.e)), r)
    ensures s.hwProd < s.threads[t].pc.e <= s.prod
    ensures forall x :: s.hwProd <= x < s.threads[t].pc.e ==> s.log[x].marked && s.log[x].written
  {
    var th := s.threads[t];
    var s' := Goto(s.(hwProd := th.pc.e), t, Handoff(th.pc.e));
    assert ThreadInv(s, t) && ThreadConsInv(s, r, th, t);
    PublishedOwner(s, s', t, r);
    WindowFrame(s, s');
    ThreadsKept(s, s', t);
    PublishedLock(s, s', t, r);
  }

  lemma PublishedLock(s: State, s': State, t: nat, r: Roles)
    requires Shaped(s) && t < |s.threads| && s.threads[t].pc.Publish? && LockInv(s, r) && ConsInv(s, r)
    requires s' == Goto(s.(hwProd := s.threads[t].pc.e), t, Handoff(s.threads[t].pc.e))
    ensures LockInv(s', r) && ConsInv(s', r)
  {
    assert ThreadConsInv(s, r, s.threads[t], t);
    LockFrame(s, s', t, r);
    ConsFrame(s, s', t, r);
  }

  lemma PublishedOwner(s: State, s': State, t: nat, r: Roles)
    requires OwnerInv(s, r) && t < |s.threads| && s.threads[t].pc.Publish?
    requires s' == Goto(s.(hwProd := s.threads[t].pc.e), t, Handoff(s.threads[t].pc.e))
    ensures OwnerInv(s', r) && PublisherInv(s, s.threads[t], GatherFrom(s, r))
  {
    assert r.publisher == Some(t);
  }

  lemma HandoffKept(s: State, t: nat, r: Roles)
    requires Inv(s, r) && t < |s.threads| && s.threads[t].pc.Handoff?
    ensures Inv(Goto(s.(ownerProd := s.threads[t].pc.e), t, AfterOwner(s.threads[t], s.msi)), r.(publisher := None))
  {
    var th := s.threads[t];
    var s' := Goto(s.(ownerProd := th.pc.e), t, AfterOwner(th, s.msi));
    assert ThreadInv(s, t) && ThreadConsInv(s, r, th, t);
    HandedOverThread(s, s', t, r);
    HandedOverOwner(s, s', t, r);
    HandedOverLock(s, s', t, r);
    WindowFrame(s, s');
    ThreadsKept(s, s', t);
  }

  lemma HandedOverThread(s: State, s': State, t: nat, r: Roles)
    requires Shaped(s) && t < |s.threads| && s.threads[t].pc.Handoff?
    requires ThreadInv(s, t) && ThreadConsInv(s, r, s.threads[t], t)
    requires s' == Goto(s.(ownerProd := s.threads[t].pc.e), t, AfterOwner(s.threads[t], s.msi))
    ensures ThreadInv(s', t) && ThreadConsInv(s', r, s'.threads[t], t)
  {
  }

  lemma HandedOverLock(s: State, s': State, t: nat, r: Roles)
    requires Shaped(s) && t < |s.threads| && s.threads[t].pc.Handoff? && LockInv(s, r) && ConsInv(s, r)
    requires s' == Goto(s.(ownerProd := s.threads[t].pc.e), t, AfterOwner(s.threads[t], s.msi))
    requires ThreadConsInv(s', r, s'.threads[t], t)
    ensures LockInv(s', r.(publisher := None)) && ConsInv(s', r.(publisher := None))
  {
    var r' := r.(publisher := None);
    LockFrame(s, s', t, r);
    LockRolesOnly(s', r, r');
    ConsFrame(s, s', t, r);
    ConsRolesOnly(s', r, r');
  }

  lemma HandedOverOwner(s: State, s': State, t: nat, r: Roles)
    requires OwnerInv(s, r) && t < |s.threads| && s.threads[t].pc.Handoff?
    requires s' == Goto(s.(ownerProd := s.threads[t].pc.e), t, AfterOwner(s.threads[t], s.msi))
    ensures OwnerInv(s', r.(publisher := None))
  {
    assert r.publisher == Some(t);
    assert PublisherInv(s, s.threads[t], GatherFrom(s, r));
  }

  // ----- the hardware

  /** The SMMU fetches the command that was allocated, written and marked at its position. */
  lemma FetchIsIntended(s: State, r: Roles)
    requires Inv(s, r) && s.hwCons < s.hwProd
    ensures s.slots[Idx(s.Size(), s.hwCons)] == Holds(s.hwCons, s.log[s.hwCons].sync, false)
  {
    assert PosInv(s, s.hwCons);
  }

  lemma ConsumeKept(s: State, r: Roles)
    requires Inv(s, r) && s.hwCons < s.hwProd
    ensures Inv(Consume(s), r)
  {
    var s' := Consume(s);
    FetchIsIntended(s, r);
    forall x: nat | s'.cons <= x < s'.cons + s'.Size() ensures PosInv(s', x) {
      assert PosInv(s, x);
      if x != s.hwCons {
        DistinctSlots(s.Size(), s.cons, x, s.hwCons);
      }
    }
    forall t: nat | t < |s'.threads| ensures ThreadInv(s', t) {
      assert ThreadInv(s, t);
    }
    forall t: nat | t < |s'.threads| ensures ThreadConsInv(s', r, s'.threads[t], t) {
      assert ThreadConsInv(s, r, s.threads[t], t);
    }
    ConsumedOwner(s, r);
  }

  lemma ConsumedOwner(s: State, r: Roles)
    requires Shaped(s) && OwnerInv(s, r)
    ensures OwnerInv(Consume(s), r)
  {
    if r.publisher.Some? {
      assert PublisherInv(s, s.threads[r.publisher.value], GatherFrom(s, r));
    }
  }

  // ----- every step

  lemma LookKept(s: State, t: nat, start: Start, r: Roles)
    requires Inv(s, r) && t < |s.threads| && NonEmpty(start)
    requires s.threads[t].pc.Idle? || s.threads[t].pc.ReadQueue? || s.threads[t].pc.PollFull?
    ensures Good(Step(s, t, start))
  {
    var th := s.threads[t];
    if th.pc.Idle? {
      BeforeAllocation(s, t, ReadQueue, start.n, start.sync, r);
    } else {
      assert ThreadInv(s, t);
      BeforeAllocation(s, t, Look(s.Size(), th, s.Now()), th.n, th.sync, r);
    }
  }

  lemma AllocCasPreserves(s: State, t: nat, start: Start, r: Roles)
    requires Inv(s, r) && t < |s.threads| && s.threads[t].pc.AllocCas?
    ensures Good(Step(s, t, start))
  {
    var th := s.threads[t];
    if SameWord(s.Size(), th.pc.view, s.Now()) {
      AllocateKept(s, t, r);
    } else {
      assert ThreadInv(s, t);
      BeforeAllocation(s, t, Look(s.Size(), th, s.Now()), th.n, th.sync, r);
    }
  }

  lemma ExclTryPreserves(s: State, t: nat, start: Start, r: Roles)
    requires Inv(s, r) && t < |s.threads| && s.threads[t].pc.ExclTry?
    ensures Good(Step(s, t, start))
  {
    var th := s.threads[t];
    if s.lock == 0 {
      ExclusiveTaken(s, t, r);
    } else {
      assert ThreadInv(s, t);
      BeforeAllocation(s, t, PollFull, th.n, th.sync, r);
    }
  }

  lemma ExclusiveStep(s: State, t: nat, start: Start)
    requires Shaped(s) && t < |s.threads|
    ensures
      var pc := s.threads[t].pc;
      && (pc.ExclRead? ==> Step(s, t, start) == Goto(s, t, ExclWrite(s.hwCons)))
      && (pc.ExclWrite? ==> Step(s, t, start) == Goto(s.(cons := pc.c), t, ExclUnlock))
      && (pc.ExclUnlock? ==> Step(s, t, start) == Goto(s.(lock := 0), t, ReadQueue))
  {
  }

  lemma ExclusivePreserves(s: State, t: nat, start: Start, r: Roles)
    requires Inv(s, r) && t < |s.threads|
    requires s.threads[t].pc.ExclRead? || s.threads[t].pc.ExclWrite? || s.threads[t].pc.ExclUnlock?
    ensures Good(Step(s, t, start))
  {
    ExclusiveStep(s, t, start);
    if s.threads[t].pc.ExclRead? {
      ExclusiveReads(s, t, r);
    } else if s.threads[t].pc.ExclWrite? {
      ExclusiveWrites(s, t, r);
    } else {
      ExclusiveReleased(s, t, r);
    }
  }

  lemma ExclusiveReads(s: State, t: nat, r: Roles)
    requires Inv(s, r) && t < |s.threads| && s.threads[t].pc.ExclRead?
    ensures Inv(Goto(s, t, ExclWrite(s.hwCons)), r)
  {
    assert ThreadInv(s, t) && ThreadConsInv(s, r, s.threads[t], t);
    QuietKept(s, t, s.threads[t].(pc := ExclWrite(s.hwCons)), r);
  }

  lemma IncStep(s: State, t: nat, start: Start)
    requires Shaped(s) && t < |s.threads| && s.threads[t].pc.LockInc?
    ensures Step(s, t, start) ==
            Goto(s.(lock := s.lock + 1), t, if s.lock >= 0 then Mark(s.threads[t].base) else LockSpin)
  {
  }

  lemma LockIncPreserves(s: State, t: nat, start: Start, r: Roles)
    requires Inv(s, r) && t < |s.threads| && s.threads[t].pc.LockInc?
    ensures Good(Step(s, t, start))
  {
    IncStep(s, t, start);
    IncKept(s, t, r);
  }

  lemma IncKept(s: State, t: nat, r: Roles)
    requires Inv(s, r) && t < |s.threads| && s.threads[t].pc.LockInc?
    ensures Good(Goto(s.(lock := s.lock + 1), t, if s.lock >= 0 then Mark(s.threads[t].base) else LockSpin))
  {
    if s.lock < 0 {
      SharedRefused(s, t, r);
    } else {
      SharedTaken(s, t, r);
    }
  }

  lemma CasStep(s: State, t: nat, start: Start)
    requires Shaped(s) && t < |s.threads| && s.threads[t].pc.LockCas?
    ensures
      var th := s.threads[t];
      Step(s, t, start) ==
        if s.lock == th.pc.val then Goto(s.(lock := s.lock + 1), t, Mark(th.base)) else Goto(s, t, LockSpin)
  {
  }

  lemma LockCasPreserves(s: State, t: nat, start: Start, r: Roles)
    requires Inv(s, r) && t < |s.threads| && s.threads[t].pc.LockCas?
    ensures Good(Step(s, t, start))
  {
    CasStep(s, t, start);
    CasKept(s, t, r);
  }

  lemma CasKept(s: State, t: nat, r: Roles)
    requires Inv(s, r) && t < |s.threads| && s.threads[t].pc.LockCas?
    ensures
      var th := s.threads[t];
      Good(if s.lock == th.pc.val then Goto(s.(lock := s.lock + 1), t, Mark(th.base)) else Goto(s, t, LockSpin))
  {
    assert ThreadInv(s, t);
    if s.lock == s.threads[t].pc.val {
      SharedTaken(s, t, r);
    } else {
      WaitsForLock(s, t, LockSpin, r);
    }
  }

  lemma LockSpinKept(s: State, t: nat, start: Start, r: Roles)
    requires Inv(s, r) && t < |s.threads| && s.threads[t].pc.LockSpin?
    ensures Good(Step(s, t, start))
  {
    if s.lock >= 0 {
      WaitsForLock(s, t, LockCas(s.lock), r);
    }
  }

  lemma GathererStep(s: State, t: nat, start: Start)
    requires Shaped(s) && t < |s.threads|
    ensures
      var pc, base := s.threads[t].pc, s.threads[t].base;
      && (pc.WaitOwner? ==>
            Step(s, t, start) == if SamePointer(s.Size(), s.ownerProd, base) then Goto(s, t, ClearOwned) else s)
      && (pc.ClearOwned? && !SamePointer(s.Size(), s.prod, base) ==>
            Step(s, t, start) == Goto(s.(owned := false), t, PollValid(base, s.prod)))
  {
  }

  lemma GathererPreserves(s: State, t: nat, start: Start, r: Roles)
    requires Inv(s, r) && t < |s.threads| && (s.threads[t].pc.WaitOwner? || s.threads[t].pc.ClearOwned?)
    ensures Good(Step(s, t, start))
  {
    GathererStep(s, t, start);
    if s.threads[t].pc.ClearOwned? {
      ClosesRange(s, t, r);
    } else if SamePointer(s.Size(), s.ownerProd, s.threads[t].base) {
      TurnComes(s, t, r);
    }
  }

  lemma PollValidStep(s: State, t: nat, start: Start)
    requires Shaped(s) && t < |s.threads| && s.threads[t].pc.PollValid?
    ensures
      var pc := s.threads[t].pc;
      var q' := TurnEnd(s.Size(), pc.q, pc.e);
      Step(s, t, start) ==
        if !TurnValid(s, pc.q, pc.e) then s
        else Goto(s, t, if SamePointer(s.Size(), q', pc.e) then Publish(pc.e) else PollValid(q', pc.e))
  {
  }

  lemma PollValidKept(s: State, t: nat, start: Start, r: Roles)
    requires Inv(s, r) && t < |s.threads| && s.threads[t].pc.PollValid?
    ensures Good(Step(s, t, start))
  {
    PollValidStep(s, t, start);
    if TurnValid(s, s.threads[t].pc.q, s.threads[t].pc.e) {
      PollTurnKept(s, t, r);
    }
  }

  /** Where a waiting CMD_SYNC goes. */
  function SyncNext(s: State, t: nat): Pc
    requires Shaped(s) && t < |s.threads|
  {
    var th := s.threads[t];
    if th.pc.SyncMsi? then (if CellDone(s, th.Slot()) then TryUnlock(th.Slot() + 1) else SyncMsi)
    else SyncCheck(s.Size(), th, if th.pc.SyncFirst? then s.cons else s.hwCons)
  }

  lemma SyncStep(s: State, t: nat, start: Start)
    requires Shaped(s) && t < |s.threads|
    requires s.threads[t].pc.SyncFirst? || s.threads[t].pc.SyncPoll? || s.threads[t].pc.SyncMsi?
    ensures Step(s, t, start) == Goto(s, t, SyncNext(s, t))
  {
    if Step(s, t, start) == s {
      assert s.threads[t := s.threads[t]] == s.threads;
    }
  }

  lemma SyncStepKept(s: State, t: nat, start: Start, r: Roles)
    requires Inv(s, r) && t < |s.threads|
    requires s.threads[t].pc.SyncFirst? || s.threads[t].pc.SyncPoll? || s.threads[t].pc.SyncMsi?
    ensures Good(Step(s, t, start))
  {
    SyncStep(s, t, start);
    SyncNextIsSafe(s, t, r);
    SyncWaitKept(s, t, SyncNext(s, t), r);
  }

  lemma SyncNextIsSafe(s: State, t: nat, r: Roles)
    requires Inv(s, r) && t < |s.threads|
    requires s.threads[t].pc.SyncFirst? || s.threads[t].pc.SyncPoll? || s.threads[t].pc.SyncMsi?
    ensures
      var pc := SyncNext(s, t);
      pc.SyncPoll? || pc.SyncMsi? || (pc.TryUnlock? && s.threads[t].Slot() < pc.c <= s.hwCons)
  {
    assert ThreadInv(s, t);
    SlotWithinALap(s, t, r);
    DoneMeansConsumed(s, t, r);
  }

  lemma TryUnlockStep(s: State, t: nat, start: Start)
    requires Shaped(s) && t < |s.threads| && s.threads[t].pc.TryUnlock?
    ensures Step(s, t, start) == Goto(s, t, if s.lock == 1 then SyncWrite(s.threads[t].pc.c) else SyncDec)
  {
  }

  lemma TryUnlockPreserves(s: State, t: nat, start: Start, r: Roles)
    requires Inv(s, r) && t < |s.threads| && s.threads[t].pc.TryUnlock?
    ensures Good(Step(s, t, start))
  {
    TryUnlockStep(s, t, start);
    if s.lock == 1 {
      LastReader(s, t, r);
    } else {
      NotTheLast(s, t, r);
    }
  }

  lemma NotTheLast(s: State, t: nat, r: Roles)
    requires Inv(s, r) && t < |s.threads| && s.threads[t].pc.TryUnlock?
    ensures Inv(Goto(s, t, SyncDec), r)
  {
    assert ThreadInv(s, t) && ThreadConsInv(s, r, s.threads[t], t);
    QuietKept(s, t, s.threads[t].(pc := SyncDec), r);
  }

  /** Every step of every CPU keeps the invariant. */
  lemma StepPreserves(s: State, t: nat, start: Start)
    requires Good(s) && t < |s.threads| && NonEmpty(start)
    ensures Good(Step(s, t, start))
  {
    var r :| Inv(s, r);
    var pc := s.threads[t].pc;
    if pc.ExclTry? || HoldsExclusive(s.threads[t]) || pc.LockInc? || pc.LockCas? {
      LockWordPreserves(s, t, start, r);
    } else if pc.AllocCas? || pc.WaitOwner? || pc.ClearOwned? || pc.Handoff? {
      OwnershipPreserves(s, t, start, r);
    } else if pc.TryUnlock? {
      TryUnlockPreserves(s, t, start, r);
    } else if pc.SyncWrite? {
      SyncWritePreserves(s, t, start, r);
    } else if pc.SyncDec? {
      SyncDecPreserves(s, t, start, r);
    } else {
      RolesKept(s, t, start, r);
    }
  }

  lemma LockWordPreserves(s: State, t: nat, start: Start, r: Roles)
    requires Inv(s, r) && t < |s.threads|
    requires
      var pc := s.threads[t].pc;
      pc.ExclTry? || HoldsExclusive(s.threads[t]) || pc.LockInc? || pc.LockCas?
    ensures Good(Step(s, t, start))
  {
    var pc := s.threads[t].pc;
    if pc.ExclTry? {
      ExclTryPreserves(s, t, start, r);
    } else if pc.LockInc? {
      LockIncPreserves(s, t, start, r);
    } else if pc.LockCas? {
      LockCasPreserves(s, t, start, r);
    } else {
      ExclusivePreserves(s, t, start, r);
    }
  }

  lemma OwnershipPreserves(s: State, t: nat, start: Start, r: Roles)
    requires Inv(s, r) && t < |s.threads|
    requires
      var pc := s.threads[t].pc;
      pc.AllocCas? || pc.WaitOwner? || pc.ClearOwned? || pc.Handoff?
    ensures Good(Step(s, t, start))
  {
    var pc := s.threads[t].pc;
    if pc.AllocCas? {
      AllocCasPreserves(s, t, start, r);
    } else if pc.Handoff? {
      HandoffKept(s, t, r);
    } else {
      GathererPreserves(s, t, start, r);
    }
  }

  lemma SyncWritePreserves(s: State, t: nat, start: Start, r: Roles)
    requires Inv(s, r) && t < |s.threads| && s.threads[t].pc.SyncWrite?
    ensures Good(Step(s, t, start))
  {
    SharedWrites(s, t, r);
  }

  lemma SyncDecStep(s: State, t: nat, start: Start)
    requires Shaped(s) && t < |s.threads| && s.threads[t].pc.SyncDec?
    ensures Step(s, t, start) == Goto(s.(lock := s.lock - 1), t, Idle)
  {
  }

  lemma SyncDecPreserves(s: State, t: nat, start: Start, r: Roles)
    requires Inv(s, r) && t < |s.threads| && s.threads[t].pc.SyncDec?
    ensures Good(Step(s, t, start))
  {
    SyncDecStep(s, t, start);
    SharedReleased(s, t, r);
  }

  /** The steps that change nobody's role. */
  lemma RangeStep(s: State, t: nat, start: Start)
    requires Shaped(s) && t < |s.threads|
    ensures
      var pc := s.threads[t].pc;
      && (pc.WriteEntry? ==> Step(s, t, start) == WriteOne(s, t, pc.i))
      && (pc.Mark? ==> Step(s, t, start) == MarkTurn(s, t, pc.m))
      && (pc.Publish? ==> Step(s, t, start) == Goto(s.(hwProd := pc.e), t, Handoff(pc.e)))
  {
  }

  lemma RangeStepKept(s: State, t: nat, start: Start, r: Roles)
    requires Inv(s, r) && t < |s.threads|
    requires s.threads[t].pc.WriteEntry? || s.threads[t].pc.Mark? || s.threads[t].pc.Publish?
    ensures Good(Step(s, t, start))
  {
    RangeStep(s, t, start);
    if s.threads[t].pc.WriteEntry? {
      WriteKept(s, t, r);
    } else if s.threads[t].pc.Mark? {
      MarkKept(s, t, r);
    } else {
      PublishKept(s, t, r);
    }
  }

  lemma RolesKept(s: State, t: nat, start: Start, r: Roles)
    requires Inv(s, r) && t < |s.threads| && NonEmpty(start)
    requires
      var pc := s.threads[t].pc;
      || pc.Idle? || pc.ReadQueue? || pc.PollFull? || pc.WriteEntry? || pc.LockSpin? || pc.Mark?
      || pc.PollValid? || pc.Publish? || pc.SyncFirst? || pc.SyncPoll? || pc.SyncMsi?
    ensures Good(Step(s, t, start))
  {
    var pc := s.threads[t].pc;
    if pc.Idle? || pc.ReadQueue? || pc.PollFull? {
      LookKept(s, t, start, r);
    } else if pc.WriteEntry? || pc.Mark? || pc.Publish? {
      RangeStepKept(s, t, start, r);
    } else if pc.LockSpin? {
      LockSpinKept(s, t, start, r);
    } else if pc.PollValid? {
      PollValidKept(s, t, start, r);
    } else {
      SyncStepKept(s, t, start, r);
    }
  }

  // ----- runs

  lemma InitHolds(s: State) returns (r: Roles)
    requires Init(s)
    ensures Inv(s, r)
  {
    r := Roles(None, None, None, None, {}, {});
    forall x: nat | s.cons <= x < s.cons + s.Size() ensures PosInv(s, x) {
      Advance(s.Size(), 0, x);
    }
  }

  lemma NextPreserves(s: State, s': State)
    requires Good(s) && Next(s, s')
    ensures Good(s')
  {
    if s' == Consume(s) {
      if s.hwCons < s.hwProd {
        var r :| Inv(s, r);
        ConsumeKept(s, r);
      }
    } else {
      var t: nat, start: Start :| t < |s.threads| && NonEmpty(start) && s' == Step(s, t, start);
      StepPreserves(s, t, start);
    }
  }

  lemma InitIsGood(s: State)
    requires Init(s)
    ensures Good(s)
  {
    var r := InitHolds(s);
  }

  lemma {:induction false} RunIsGood(run: seq<State>, i: nat)
    requires IsRun(run) && i < |run|
    ensures Good(run[i])
  {
    if i == 0 {
      InitIsGood(run[0]);
    } else {
      RunIsGood(run, i - 1);
      NextPreserves(run[i - 1], run[i - 1 + 1]);
    }
  }

  // ----- what holds over every run

  /**
   Live batches occupy disjoint ranges of positions, less than a lap together, all beyond the
   hardware's reach until marked.
   */
  lemma RangesAreDisjoint(run: seq<State>, i: nat, t: nat, u: nat)
    requires IsRun(run) && i < |run| && t < |run[i].threads| && u < |run[i].threads| && t != u
    requires HasRange(run[i].threads[t].pc) && HasRange(run[i].threads[u].pc)
    ensures
      var a, b := run[i].threads[t], run[i].threads[u];
      && (a.End() <= b.base || b.End() <= a.base)
      && a.base < a.End() <= run[i].prod <= run[i].cons + run[i].Size()
  {
    var s := run[i];
    RunIsGood(run, i);
    var r :| Inv(s, r);
    var a, b := s.threads[t], s.threads[u];
    assert ThreadInv(s, t) && ThreadInv(s, u);
    if a.base < b.End() && b.base < a.End() {
      var x := if a.base < b.base then b.base else a.base;
      AllocatedBy(s.log, t, a, x);
      AllocatedBy(s.log, u, b, x);
    }
  }

  lemma AllocatedBy(log: seq<Pos>, t: nat, th: Thread, x: nat)
    requires RangeInv(log, t, th) && th.base <= x < th.End()
    ensures log[x].cpu == t
  {
  }

  /** Writing an entry never touches the slot of another position that is allocated and not yet consumed. */
  lemma NothingLiveIsOverwritten(run: seq<State>, i: nat, t: nat, y: nat)
    requires IsRun(run) && i < |run| && t < |run[i].threads| && run[i].threads[t].pc.WriteEntry?
    requires run[i].hwCons <= y < run[i].prod && y != run[i].threads[t].base + run[i].threads[t].pc.i
    ensures run[i].Size() > 0
    ensures Idx(run[i].Size(), y) != Idx(run[i].Size(), run[i].threads[t].base + run[i].threads[t].pc.i)
  {
    RunIsGood(run, i);
    var r :| Inv(run[i], r);
    WriteIsSafe(run[i], t, r);
  }

  /** Owners take turns, and so do the writers of the shared consumer position. */
  lemma TurnsAreTaken(run: seq<State>, i: nat, t: nat, u: nat)
    requires IsRun(run) && i < |run| && t < |run[i].threads| && u < |run[i].threads|
    ensures IsPublisher(run[i].threads[t]) && IsPublisher(run[i].threads[u]) ==> t == u
    ensures IsGatherer(run[i].threads[t]) && IsGatherer(run[i].threads[u]) ==> t == u
    ensures WritesCons(run[i].threads[t]) && WritesCons(run[i].threads[u]) ==> t == u
  {
    RunIsGood(run, i);
    var r :| Inv(run[i], r);
    assert ThreadInv(run[i], t) && ThreadInv(run[i], u);
    assert run[i].threads[t].pc.SyncWrite? ==> t in r.sharers;
    assert run[i].threads[u].pc.SyncWrite? ==> u in r.sharers;
  }

  predicate WritesCons(th: Thread) {
    th.pc.ExclWrite? || th.pc.SyncWrite?
  }

  /** What the hardware may fetch has been written and marked, and is what it will find. */
  lemma PublishedIsValid(run: seq<State>, i: nat, x: nat)
    requires IsRun(run) && i < |run| && x < run[i].hwProd
    ensures x < |run[i].log| && run[i].log[x].written && run[i].log[x].marked
    ensures run[i].hwCons <= x ==>
              run[i].Size() > 0 && |run[i].slots| == run[i].Size()
              && run[i].slots[Idx(run[i].Size(), x)] == Holds(x, run[i].log[x].sync, false)
  {
    RunIsGood(run, i);
    var s := run[i];
    var r :| Inv(s, r);
    if s.hwCons <= x {
      assert PosInv(s, x);
    }
  }

  /** A CPU that waits for its CMD_SYNC reads its completion exactly, however often the queue has wrapped. */
  lemma SyncTestIsExact(run: seq<State>, i: nat, t: nat)
    requires IsRun(run) && i < |run| && t < |run[i].threads|
    requires GuardsSlot(run[i].threads[t]) && !run[i].threads[t].pc.Mark?
    ensures
      var s, slot := run[i], run[i].threads[t].Slot();
      && Shaped(s)
      && s.cons <= slot < s.prod <= slot + s.Size()
      && (Consumed(s.Size(), Word(s.Size(), s.hwCons), Word(s.Size(), slot)) <==> s.hwCons > slot)
      && (s.msi ==> (CellDone(s, slot) <==> s.hwCons > slot))
  {
    RunIsGood(run, i);
    var r :| Inv(run[i], r);
    SlotWithinALap(run[i], t, r);
    DoneMeansConsumed(run[i], t, r);
  }

  lemma StepChangesPointers(s: State, t: nat, start: Start)
    requires Shaped(s) && t < |s.threads|
    ensures
      var s', pc := Step(s, t, start), s.threads[t].pc;
      && (s'.cons != s.cons ==> (pc.ExclWrite? || pc.SyncWrite?) && s'.cons == pc.c)
      && (s'.hwProd != s.hwProd ==> pc.Publish? && s'.hwProd == pc.e)
      && s'.hwCons == s.hwCons && s'.prod >= s.prod
  {
    match s.threads[t].pc {
      case Idle =>
      case ReadQueue =>
      case ExclTry =>
      case ExclRead =>
      case ExclWrite(_) =>
      case ExclUnlock =>
      case PollFull =>
      case AllocCas(_) =>
      case WriteEntry(_) =>
      case LockInc =>
      case LockSpin =>
      case LockCas(_) =>
      case Mark(_) =>
      case WaitOwner =>
      case ClearOwned =>
      case PollValid(_, _) =>
      case Publish(_) =>
      case Handoff(_) =>
      case SyncFirst =>
      case SyncPoll =>
      case SyncMsi =>
      case TryUnlock(_) =>
      case SyncWrite(_) =>
      case SyncDec =>
    }
  }

  /** No pointer ever moves backwards. */
  lemma PointersOnlyAdvance(run: seq<State>, i: nat)
    requires IsRun(run) && i + 1 < |run|
    ensures
      var s, s' := run[i], run[i + 1];
      s.prod <= s'.prod && s.cons <= s'.cons && s.hwProd <= s'.hwProd && s.hwCons <= s'.hwCons
  {
    RunIsGood(run, i);
    var s := run[i];
    var r :| Inv(s, r);
    assert Next(run[i], run[i + 1]);
    if run[i + 1] != Consume(s) {
      var t: nat, start: Start :| t < |s.threads| && NonEmpty(start) && run[i + 1] == Step(s, t, start);
      PointerStep(s, t, start, r);
    }
  }

  lemma PointerStep(s: State, t: nat, start: Start, r: Roles)
    requires Inv(s, r) && t < |s.threads|
    ensures
      var s' := Step(s, t, start);
      s.prod <= s'.prod && s.cons <= s'.cons && s.hwProd <= s'.hwProd && s.hwCons <= s'.hwCons
  {
    StepChangesPointers(s, t, start);
    if s.threads[t].pc.ExclWrite? {
      ExclusiveWrites(s, t, r);
    } else if s.threads[t].pc.SyncWrite? {
      SharedWrites(s, t, r);
    } else if s.threads[t].pc.Publish? {
      PublishKept(s, t, r);
    }
  }

  // ----- an empty batch

  ghost predicate Steps(s: State, s': State) {
    Shaped(s) && exists t: nat, start: Start :: t < |s.threads| && s' == Step(s, t, start)
  }

  ghost predicate IsTrace(tr: seq<State>) {
    forall i :: 0 <= i < |tr| - 1 ==> Steps(tr[i], tr[i + 1])
  }

  lemma {:induction false} Extend(tr: seq<State>, t: nat, start: Start) returns (tr': seq<State>)
    requires |tr| > 0 && IsTrace(tr) && Shaped(tr[|tr| - 1]) && t < |tr[|tr| - 1].threads|
    ensures |tr'| == |tr| + 1 && IsTrace(tr') && tr'[0] == tr[0] && tr'[|tr| - 1] == tr[|tr| - 1]
    ensures tr'[|tr|] == Step(tr[|tr| - 1], t, start)
  {
    tr' := tr + [Step(tr[|tr| - 1], t, start)];
    forall i | 0 <= i < |tr'| - 1 ensures Steps(tr'[i], tr'[i + 1]) {
      if i < |tr| - 1 {
        assert Steps(tr[i], tr[i + 1]);
      }
    }
  }

  /** CPU 0 issues an empty batch and gets as far as its register write. */
  lemma EmptyOwner(s: State) returns (tr: seq<State>)
    requires Init(s) && |s.threads| >= 2
    ensures |tr| > 0 && tr[0] == s && IsTrace(tr)
    ensures tr[|tr| - 1] == s.(threads := s.threads[0 := Thread(Publish(0), 0, false, 0, true)])
  {
    var size, none := s.Size(), Start(0, false);
    FullIsExact(size, 0, 0);
    HasSpaceIsExact(size, 0, 0, 0);
    tr := Extend([s], 0, none);
    tr := Extend(tr, 0, none);
    tr := Extend(tr, 0, none);
    tr := Extend(tr, 0, none);
    assert tr[|tr| - 1] == s.(owned := true, threads := s.threads[0 := Thread(ClearOwned, 0, false, 0, true)]);
    tr := Extend(tr, 0, none);
  }

  ghost predicate OneWritten(e: State, pc: Pc, mark: bool) {
    && Shaped(e) && |e.threads| >= 2 && e.prod == 1 && e.ownerProd == 0 && e.hwProd == 0
    && e.threads[0] == Thread(Publish(0), 0, false, 0, true)
    && e.threads[1] == Thread(pc, 1, false, 0, true)
    && e.bits[0] == mark
  }

  lemma WritesOne(before: seq<State>, s: State) returns (tr: seq<State>)
    requires |before| > 0 && IsTrace(before) && Init(s) && |s.threads| >= 2
    requires before[|before| - 1] == s.(threads := s.threads[0 := Thread(Publish(0), 0, false, 0, true)])
    ensures |tr| > 0 && tr[0] == before[0] && IsTrace(tr) && OneWritten(tr[|tr| - 1], Mark(0), false)
  {
    var one := Start(1, false);
    HasSpaceIsExact(s.Size(), 0, 0, 1);
    tr := Extend(before, 1, one);
    tr := Extend(tr, 1, one);
    tr := Extend(tr, 1, one);
    assert tr[|tr| - 1].threads[1] == Thread(WriteEntry(0), 1, false, 0, true);
    tr := Extend(tr, 1, one);
  }

  lemma MarksOne(before: seq<State>) returns (tr: seq<State>)
    requires |before| > 0 && IsTrace(before) && OneWritten(before[|before| - 1], Mark(0), false)
    ensures |tr| > 0 && tr[0] == before[0] && IsTrace(tr) && OneWritten(tr[|tr| - 1], PollValid(0, 1), true)
  {
    var s, one := before[|before| - 1], Start(1, false);
    WordsEqualIffPositions(s.Size(), 0, 1);
    assert TurnEnd(s.Size(), 0, 1) == 1 && Idx(s.Size(), 0) == 0;
    tr := Extend(before, 1, one);
    assert OneWritten(tr[|tr| - 1], WaitOwner, true);
    tr := Extend(tr, 1, one);
    tr := Extend(tr, 1, one);
  }

  /** CPU 1 issues one command, finds the empty batch's position equal to its own, and does not wait for CPU 0. */
  lemma OvertakesEmptyOwner(before: seq<State>, s: State) returns (tr: seq<State>)
    requires |before| > 0 && IsTrace(before) && Init(s) && |s.threads| >= 2
    requires before[|before| - 1] == s.(threads := s.threads[0 := Thread(Publish(0), 0, false, 0, true)])
    ensures |tr| > 0 && tr[0] == before[0] && IsTrace(tr)
    ensures
      var e := tr[|tr| - 1];
      && e.hwProd == 1 && |e.threads| >= 2 && e.threads[0] == Thread(Publish(0), 0, false, 0, true) && Shaped(e)
  {
    tr := WritesOne(before, s);
    tr := MarksOne(tr);
    var e := tr[|tr| - 1];
    assert TurnEnd(e.Size(), 0, 1) == 1 && Idx(e.Size(), 0) == 0 && !Wrp(e.Size(), 0);
    tr := Extend(tr, 1, Start(1, false));
    assert OneWritten(tr[|tr| - 1], Publish(1), true);
    tr := Extend(tr, 1, Start(1, false));
  }

  /** With an empty batch the owners do not take turns: the hardware producer pointer moves backwards. */
  lemma EmptyBatchMovesHardwareBack(s: State) returns (tr: seq<State>)
    requires Init(s) && |s.threads| >= 2
    ensures |tr| > 1 && tr[0] == s && IsTrace(tr)
    ensures tr[|tr| - 1].hwProd < tr[|tr| - 2].hwProd
  {
    tr := EmptyOwner(s);
    tr := OvertakesEmptyOwner(tr, s);
    var e := tr[|tr| - 1];
    var n := |tr|;
    tr := Extend(tr, 0, Start(0, false));
    assert tr[n - 1] == e && tr[n] == Step(e, 0, Start(0, false));
  }
}
