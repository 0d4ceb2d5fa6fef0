/**
 What the calls of the queued spinlock promise their callers, over whole runs: qspin_lock returns as owner,
 qspin_trylock does so or fails at once, and unlock gives the lock back.
 */
module SpinlockCalls {
  import opened Common
  import opened QueuedSpinlock
  import opened QueuedSpinlockProof

  // ----- one step

  predicate Trying(pc: Pc) {
    pc.TrylockRead? || pc.TrylockCas?
  }

  /** How a context may go on once its call has begun. */
  ghost predicate GoesOn(w: Word, pc: Pc, w': Word, pc': Pc) {
    && (Trying(pc') ==> pc.TrylockRead?)
    && (pc'.Idle? ==> if pc.Holding? then w' == w.(locked := false) else Trying(pc) && w != FREE_WORD && w' == w)
    && (Trying(pc) ==>
          pc'.Idle? || pc'.TrylockCas? || (pc'.Holding? && w == FREE_WORD && w' == Word(None, false, true)))
  }

  lemma WordGoesOn(w: Word, pc: Pc)
    requires !Counted(pc) && !pc.Idle? && !pc.Enqueue?
    ensures
      var (w', pc') := WordAccess(w, pc);
      GoesOn(w, pc, w', pc')
  {
  }

  lemma QueueingGoesOn(t: nat, c: Context, lock: Lock, count: nat)
    requires c.pc.Enqueue? || (Counted(c.pc) && !InQueue(c.pc))
    ensures
      var e := QueueingAccess(t, c, lock, count);
      GoesOn(lock.word, c.pc, e.lock.word, e.ctx.pc) && e.ctx.lock == c.lock
  {
  }

  lemma QueueGoesOn(t: nat, c: Context, lock: Lock, mine: Node, count: nat)
    requires InQueue(c.pc)
    ensures
      var e := QueueAccess(t, c, lock, mine, count);
      GoesOn(lock.word, c.pc, e.lock.word, e.ctx.pc) && e.ctx.lock == c.lock
  {
  }

  lemma StepGoesOn(s: State, t: nat, start: Start)
    requires t < |s.ctxs| && s.ctxs[t].lock < |s.locks| && start.lock < |s.locks| && !s.ctxs[t].pc.Idle?
    ensures
      var s', l := Step(s, t, start), s.ctxs[t].lock;
      && s'.ctxs[t].lock == l
      && GoesOn(s.locks[l].word, s.ctxs[t].pc, s'.locks[l].word, s'.ctxs[t].pc)
  {
    var c := s.ctxs[t];
    var lock, count := s.locks[c.lock], Count(s, c.cpu);
    if InQueue(c.pc) {
      QueueGoesOn(t, c, lock, NodeAt(s, c.Mine()), count);
    } else if c.pc.Enqueue? || Counted(c.pc) {
      QueueingGoesOn(t, c, lock, count);
    } else {
      WordGoesOn(lock.word, c.pc);
    }
  }

  // ----- calls

  /** Context t begins a call at run[i], and it is in progress up to run[j]. */
  ghost predicate Call(run: seq<State>, i: nat, j: nat, t: nat, start: Start) {
    && IsRun(run) && i < j < |run| && t < |run[i].ctxs| && run[i].ctxs[t].pc.Idle?
    && run[i].ctxs[t].lock < |run[i].locks| && start.lock < |run[i].locks| && run[i + 1] == Step(run[i], t, start)
    && forall k :: i < k <= j ==> t < |run[k].ctxs| && !run[k].ctxs[t].pc.Idle?
  }

  /** Where a call begun with start can be before it ends: at the accesses of qspin_trylock only if that was called. */
  ghost predicate InCall(c: Context, start: Start) {
    c.lock == start.lock && if start.StartLock? then !Trying(c.pc) else Trying(c.pc) || c.pc.Holding?
  }

  lemma StepStaysInCall(s: State, t: nat, start: Start, begin: Start)
    requires t < |s.ctxs| && s.ctxs[t].lock < |s.locks| && begin.lock < |s.locks| && !s.ctxs[t].pc.Idle?
    requires InCall(s.ctxs[t], start) && !Step(s, t, begin).ctxs[t].pc.Idle?
    ensures InCall(Step(s, t, begin).ctxs[t], start)
  {
    StepGoesOn(s, t, begin);
    if s.ctxs[t].pc.Holding? {
      WordGoesOn(s.locks[s.ctxs[t].lock].word, s.ctxs[t].pc);
    }
  }

  /** A context moves only by its own steps. */
  ghost predicate OwnMove(s: State, s': State, t: nat) {
    exists begin: Start ::
      t < |s.ctxs| && s.ctxs[t].lock < |s.locks| && begin.lock < |s.locks| && s' == Step(s, t, begin)
  }

  lemma OnlyOwnMoves(s: State, s': State, t: nat)
    requires Next(s, s') && t < |s.ctxs| == |s'.ctxs| && s.ctxs[t] != s'.ctxs[t]
    ensures OwnMove(s, s', t)
  {
  }

  lemma NextStaysInCall(s: State, s': State, t: nat, start: Start)
    requires Next(s, s') && t < |s.ctxs| == |s'.ctxs| && !s.ctxs[t].pc.Idle? && !s'.ctxs[t].pc.Idle?
    requires InCall(s.ctxs[t], start)
    ensures InCall(s'.ctxs[t], start)
  {
    if s.ctxs[t] != s'.ctxs[t] {
      OnlyOwnMoves(s, s', t);
      var begin: Start :| begin.lock < |s.locks| && s' == Step(s, t, begin);
      StepStaysInCall(s, t, start, begin);
    }
  }

  lemma NextEndsCall(s: State, s': State, t: nat)
    requires Next(s, s') && t < |s.ctxs| == |s'.ctxs| && |s.locks| == |s'.locks|
    requires !s.ctxs[t].pc.Idle? && s'.ctxs[t].pc.Idle? && s.ctxs[t].lock < |s.locks|
    ensures
      var l := s.ctxs[t].lock;
      GoesOn(s.locks[l].word, s.ctxs[t].pc, s'.locks[l].word, s'.ctxs[t].pc)
  {
    OnlyOwnMoves(s, s', t);
    var begin: Start :| begin.lock < |s.locks| && s' == Step(s, t, begin);
    StepGoesOn(s, t, begin);
  }

  lemma NextKeepsSizes(s: State, s': State)
    requires Next(s, s')
    ensures |s'.ctxs| == |s.ctxs| && |s'.locks| == |s.locks|
  {
  }

  lemma {:induction false} CallStays(run: seq<State>, i: nat, j: nat, t: nat, start: Start)
    requires Call(run, i, j, t, start)
    ensures InCall(run[j].ctxs[t], start) && start.lock < |run[j].locks|
    decreases j
  {
    if j > i + 1 {
      var k := j - 1;
      CallStays(run, i, k, t, start);
      assert Next(run[k], run[k + 1]);
      NextKeepsSizes(run[k], run[j]);
      NextStaysInCall(run[k], run[j], t, start);
    }
  }

  /**
   qspin_lock returns as owner, and so does every successful qspin_trylock: a call ends only with the unlock of a lock
   that is locked and that nobody else owns.  A qspin_trylock may also end without the lock, when the access it ends
   with finds the word not free; it then leaves the word alone.
   */
  lemma CallEndsAsOwner(run: seq<State>, i: nat, j: nat, t: nat, start: Start)
    requires Call(run, i, j, t, start) && j + 1 < |run| && t < |run[j + 1].ctxs| && run[j + 1].ctxs[t].pc.Idle?
    ensures
      var l := start.lock;
      && run[j].ctxs[t].lock == l < |run[j].locks| == |run[j + 1].locks|
      && var w, w' := run[j].locks[l].word, run[j + 1].locks[l].word;
      if Owns(run[j].ctxs[t].pc) then
        && w.locked && w' == w.(locked := false)
        && forall u: nat :: On(run[j], l, u) && Owns(run[j].ctxs[u].pc) ==> u == t
      else
        start.StartTrylock? && w != FREE_WORD && w' == w
  {
    CallStays(run, i, j, t, start);
    assert Next(run[j], run[j + 1]);
    NextKeepsSizes(run[j], run[j + 1]);
    NextEndsCall(run[j], run[j + 1], t);
    TakesOnlyFree(run, j, t);
    MutualExclusion(run, j, start.lock);
  }

  /**
   qspin_trylock does not wait: each of its accesses decides it or is the read before the compare-and-swap, and it
   takes the lock exactly when that finds the word free.
   */
  lemma TrylockDecides(run: seq<State>, i: nat, j: nat, t: nat, l: nat, begin: Start)
    requires Call(run, i, j, t, StartTrylock(l)) && !Owns(run[j].ctxs[t].pc)
    requires l < |run[j].locks| && run[j].ctxs[t].lock == l && begin.lock < |run[j].locks|
    ensures
      var s, s' := run[j], Step(run[j], t, begin);
      var w, pc, pc' := s.locks[l].word, s.ctxs[t].pc, s'.ctxs[t].pc;
      if w != FREE_WORD then pc'.Idle? && s'.locks[l].word == w
      else if pc.TrylockRead? then pc'.TrylockCas? && s'.locks[l].word == w
      else Owns(pc') && s'.locks[l].word == Word(None, false, true)
  {
    CallStays(run, i, j, t, StartTrylock(l));
  }
}
