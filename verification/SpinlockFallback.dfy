/**
 A run of the queued spinlock in which the queue head waits for a successor and the only other context
 on the lock is one that fell back to spinning because its CPU was nested four deep already.
 */
module SpinlockFallback {
  import opened Common
  import opened QueuedSpinlock

  lemma {:induction false} Go(run: seq<State>, t: nat, start: Start) returns (run': seq<State>)
    requires IsRun(run)
    requires
      var s := run[|run| - 1];
      t < |s.ctxs| && s.ctxs[t].lock < |s.locks| && start.lock < |s.locks|
    ensures IsRun(run') && run'[0] == run[0] && run'[|run'| - 1] == Step(run[|run| - 1], t, start)
  {
    run' := run + [Step(run[|run| - 1], t, start)];
    forall i | 0 <= i < |run'| - 1 ensures Next(run'[i], run'[i + 1]) {
      if i < |run| - 1 {
        assert Next(run[i], run[i + 1]);
      }
    }
  }

  function Last(run: seq<State>): State
    requires |run| > 0
  {
    run[|run| - 1]
  }

  // ----- steps outside the queue

  /** Context t becomes c, its lock word becomes w, and nothing else changes. */
  ghost predicate Did(s: State, s': State, t: nat, c: Context, w: Word) {
    && t < |s.ctxs| && s'.ctxs == s.ctxs[t := c] && |s'.locks| == |s.locks| && s'.nodes == s.nodes
    && s.ctxs[t].lock < |s.locks| && s'.locks[s.ctxs[t].lock].word == w
    && (forall l :: 0 <= l < |s.locks| && l != s.ctxs[t].lock ==> s'.locks[l] == s.locks[l])
    && (forall cpu :: Count(s', cpu) == Count(s, cpu))
  }

  predicate Ready(s: State, t: nat) {
    t < |s.ctxs| && s.ctxs[t].lock < |s.locks|
  }

  lemma Starts(run: seq<State>, t: nat, l: nat) returns (run': seq<State>)
    requires IsRun(run) && Ready(Last(run), t) && l < |Last(run).locks| && Last(run).ctxs[t].pc.Idle?
    ensures IsRun(run') && run'[0] == run[0]
    ensures
      var s := Last(run);
      Did(s, Last(run'), t, s.ctxs[t].(lock := l, pc := FastCas), s.locks[s.ctxs[t].lock].word)
  {
    run' := Go(run, t, StartLock(l));
  }

  lemma Accesses(run: seq<State>, t: nat) returns (run': seq<State>)
    requires IsRun(run) && Ready(Last(run), t)
    requires
      var pc := Last(run).ctxs[t].pc;
      !Counted(pc) && !pc.Idle? && !pc.Enqueue?
    ensures IsRun(run') && run'[0] == run[0]
    ensures
      var s := Last(run);
      var (w, pc) := WordAccess(s.locks[s.ctxs[t].lock].word, s.ctxs[t].pc);
      Did(s, Last(run'), t, s.ctxs[t].(pc := pc), w)
  {
    run' := Go(run, t, StartLock(0));
  }

  /** The nesting count of the CPU goes up by one. */
  lemma Nests(run: seq<State>, t: nat) returns (run': seq<State>)
    requires IsRun(run) && Ready(Last(run), t) && Last(run).ctxs[t].pc.Enqueue?
    ensures IsRun(run') && run'[0] == run[0]
    ensures
      var s, s' := Last(run), Last(run');
      var c := s.ctxs[t];
      var n := Count(s, c.cpu);
      && s'.ctxs == s.ctxs[t := c.(idx := n, pc := if n >= MAX_NODES then FallbackRead else InitLocked)]
      && s'.locks == s.locks && s'.nodes == s.nodes
      && forall cpu :: Count(s', cpu) == if cpu == c.cpu then n + 1 else Count(s, cpu)
  {
    run' := Go(run, t, StartLock(0));
  }

  // ----- the contexts

  /** Contexts 0 to 3 are on lock 0; 4 to 9 on lock 1, the last four of them on the CPU of context 1. */
  function Fresh(t: nat): Context {
    Context(if t >= 6 then 1 else t, if t < 4 then 0 else 1, 0, Idle)
  }

  predicate At(s: State, t: nat, pc: Pc) {
    t < |s.ctxs| && s.ctxs[t].cpu == t && s.ctxs[t].lock == 0 && s.ctxs[t].pc == pc
  }

  predicate Sized(s: State) {
    |s.locks| == 2 && |s.ctxs| == 10
  }

  /** The four contexts on lock 0, and its word. */
  predicate Scene(s: State, x: Pc, f: Pc, p: Pc, h: Pc, w: Word) {
    && Sized(s) && (forall t :: 4 <= t < 10 ==> s.ctxs[t].lock == 1)
    && At(s, 0, x) && At(s, 1, f) && At(s, 2, p) && At(s, 3, h) && s.locks[0].word == w
  }

  function Begin(): State {
    State([Lock(FREE_WORD, [], []), Lock(FREE_WORD, [], [])], seq(10, t requires 0 <= t < 10 => Fresh(t)), map[], map[])
  }

  // ----- the CPU of context 1 gets four deep

  /** Contexts from k on have not started, lock 0 is untouched, and n contexts of CPU 1 are counted. */
  predicate Side(s: State, w: Word, k: nat, n: nat) {
    && Scene(s, Idle, Idle, Idle, Idle, FREE_WORD) && s.locks[1].word == w && Count(s, 1) == n && Count(s, 3) == 0
    && forall t :: k <= t < 10 ==> s.ctxs[t] == Fresh(t)
  }

  lemma SideLockTaken(run: seq<State>) returns (run': seq<State>)
    requires IsRun(run) && Side(Last(run), FREE_WORD, 4, 0)
    ensures IsRun(run') && run'[0] == run[0] && Side(Last(run'), Word(None, false, true), 5, 0)
  {
    run' := Starts(run, 4, 1);
    run' := Accesses(run', 4);
  }

  lemma SideLockPending(run: seq<State>) returns (run': seq<State>)
    requires IsRun(run) && Side(Last(run), Word(None, false, true), 5, 0)
    ensures IsRun(run') && run'[0] == run[0] && Side(Last(run'), Word(None, true, true), 6, 0)
  {
    run' := Starts(run, 5, 1);
    run' := Accesses(run', 5);
    run' := Accesses(run', 5);
  }

  lemma OneDeeper(run: seq<State>, t: nat) returns (run': seq<State>)
    requires IsRun(run) && 6 <= t < 10 && Side(Last(run), Word(None, true, true), t, t - 6)
    ensures IsRun(run') && run'[0] == run[0] && Side(Last(run'), Word(None, true, true), t + 1, t - 5)
  {
    run' := Starts(run, t, 1);
    run' := Accesses(run', t);
    run' := Nests(run', t);
  }

  lemma FourDeep() returns (run: seq<State>)
    ensures IsRun(run) && run[0] == Begin() && Side(Last(run), Word(None, true, true), 10, 4)
  {
    run := [Begin()];
    run := SideLockTaken(run);
    run := SideLockPending(run);
    run := OneDeeper(run, 6);
    run := OneDeeper(run, 7);
    run := OneDeeper(run, 8);
    run := OneDeeper(run, 9);
  }

  // ----- lock 0

  const LOCKED := Word(None, false, true)
  const TAIL := Some(NodeId(3, 0))

  /** A scene with CPU 1 four deep, and n contexts counted on CPU 3. */
  predicate Deep(s: State, x: Pc, f: Pc, p: Pc, h: Pc, w: Word, n: nat) {
    Scene(s, x, f, p, h, w) && Count(s, 1) == 4 && Count(s, 3) == n
  }

  /** Context 3 has node index 0 and nothing linked behind it. */
  predicate Alone(s: State) {
    Sized(s) && s.ctxs[3].idx == 0 && NodeAt(s, NodeId(3, 0)).next == None
  }

  /** Context 0 takes the lock, and context 1 sees it locked without contention. */
  lemma Taken(run: seq<State>) returns (run': seq<State>)
    requires IsRun(run) && Deep(Last(run), Idle, Idle, Idle, Idle, FREE_WORD, 0)
    ensures IsRun(run') && run'[0] == run[0] && Deep(Last(run'), Holding, FetchPending, Idle, Idle, LOCKED, 0)
  {
    run' := Starts(run, 0, 0);
    run' := Accesses(run', 0);
    assert Deep(Last(run'), Holding, Idle, Idle, Idle, LOCKED, 0);
    run' := Starts(run', 1, 0);
    run' := Accesses(run', 1);
  }

  /** Context 2 goes pending. */
  lemma WaitsPending(run: seq<State>) returns (run': seq<State>)
    requires IsRun(run) && Deep(Last(run), Holding, FetchPending, Idle, Idle, LOCKED, 0)
    ensures IsRun(run') && run'[0] == run[0]
    ensures Deep(Last(run'), Holding, FetchPending, WaitUnlocked, Idle, Word(None, true, true), 0)
  {
    run' := Starts(run, 2, 0);
    run' := Accesses(run', 2);
    run' := Accesses(run', 2);
  }

  /** Context 3 is on its way into the queue. */
  lemma Queues(run: seq<State>) returns (run': seq<State>)
    requires IsRun(run) && Deep(Last(run), Holding, FetchPending, WaitUnlocked, Idle, Word(None, true, true), 0)
    ensures IsRun(run') && run'[0] == run[0]
    ensures Deep(Last(run'), Holding, FetchPending, WaitUnlocked, InitLocked, Word(None, true, true), 1)
    ensures Last(run').ctxs[3].idx == 0
  {
    run' := Starts(run, 3, 0);
    run' := Accesses(run', 3);
    run' := Nests(run', 3);
  }

  lemma GetsNode(run: seq<State>) returns (run': seq<State>)
    requires IsRun(run) && Deep(Last(run), Holding, FetchPending, WaitUnlocked, InitLocked, Word(None, true, true), 1)
    requires Last(run).ctxs[3].idx == 0
    ensures IsRun(run') && run'[0] == run[0] && Alone(Last(run'))
    ensures Deep(Last(run'), Holding, FetchPending, WaitUnlocked, TryRead, Word(None, true, true), 1)
  {
    run' := Go(run, 3, StartLock(0));
    assert Deep(Last(run'), Holding, FetchPending, WaitUnlocked, InitNext, Word(None, true, true), 1);
    run' := Go(run', 3, StartLock(0));
  }

  lemma SeesTheLockTaken(run: seq<State>) returns (run': seq<State>)
    requires IsRun(run) && Alone(Last(run))
    requires Deep(Last(run), Holding, FetchPending, WaitUnlocked, TryRead, Word(None, true, true), 1)
    ensures IsRun(run') && run'[0] == run[0] && Alone(Last(run'))
    ensures Deep(Last(run'), Holding, FetchPending, WaitUnlocked, XchgTail, Word(None, true, true), 1)
  {
    run' := Go(run, 3, StartLock(0));
  }

  lemma BecomesHead(run: seq<State>) returns (run': seq<State>)
    requires IsRun(run) && Alone(Last(run))
    requires Deep(Last(run), Holding, FetchPending, WaitUnlocked, TryRead, Word(None, true, true), 1)
    ensures IsRun(run') && run'[0] == run[0] && Alone(Last(run'))
    ensures Deep(Last(run'), Holding, FetchPending, WaitUnlocked, HeadWait(None), Word(TAIL, true, true), 1)
  {
    run' := SeesTheLockTaken(run);
    run' := Go(run', 3, StartLock(0));
  }

  lemma PendingIsNext(run: seq<State>) returns (run': seq<State>)
    requires IsRun(run) && Alone(Last(run))
    requires Deep(Last(run), Holding, FetchPending, WaitUnlocked, HeadWait(None), Word(TAIL, true, true), 1)
    ensures IsRun(run') && run'[0] == run[0] && Alone(Last(run'))
    ensures Deep(Last(run'), Idle, FetchPending, TakePending, HeadWait(None), Word(TAIL, true, false), 1)
  {
    run' := Accesses(run, 0);
    run' := Accesses(run', 2);
  }

  /** The owner leaves; the pending context takes the lock and leaves too. */
  lemma LockIsFree(run: seq<State>) returns (run': seq<State>)
    requires IsRun(run) && Alone(Last(run))
    requires Deep(Last(run), Holding, FetchPending, WaitUnlocked, HeadWait(None), Word(TAIL, true, true), 1)
    ensures IsRun(run') && run'[0] == run[0] && Alone(Last(run'))
    ensures Deep(Last(run'), Idle, FetchPending, Idle, HeadWait(None), Word(TAIL, false, false), 1)
  {
    run' := PendingIsNext(run);
    run' := Accesses(run', 2);
    run' := Accesses(run', 2);
  }

  lemma HeadSeesTheLockFree(run: seq<State>) returns (run': seq<State>)
    requires IsRun(run) && Alone(Last(run))
    requires Deep(Last(run), Idle, FetchPending, Idle, HeadWait(None), Word(TAIL, false, false), 1)
    ensures IsRun(run') && run'[0] == run[0] && Alone(Last(run'))
    ensures Deep(Last(run'), Idle, FetchPending, Idle, ClaimCas(None), Word(TAIL, false, false), 1)
  {
    run' := Go(run, 3, StartLock(0));
  }

  /** Context 1 sets the pending bit while the head is about to claim the lock. */
  lemma PendingInTheWay(run: seq<State>) returns (run': seq<State>)
    requires IsRun(run) && Alone(Last(run))
    requires Deep(Last(run), Idle, FetchPending, Idle, HeadWait(None), Word(TAIL, false, false), 1)
    ensures IsRun(run') && run'[0] == run[0] && Alone(Last(run'))
    ensures Deep(Last(run'), Idle, UndoPending, Idle, ClaimCas(None), Word(TAIL, true, false), 1)
  {
    run' := HeadSeesTheLockFree(run);
    run' := Accesses(run', 1);
  }

  /** The compare-and-swap of the head fails. */
  lemma ClaimFails(run: seq<State>) returns (run': seq<State>)
    requires IsRun(run) && Alone(Last(run))
    requires Deep(Last(run), Idle, UndoPending, Idle, ClaimCas(None), Word(TAIL, true, false), 1)
    ensures IsRun(run') && run'[0] == run[0] && Alone(Last(run'))
    ensures Deep(Last(run'), Idle, UndoPending, Idle, WaitNext, Word(TAIL, true, true), 1)
  {
    run' := Go(run, 3, StartLock(0));
    assert Deep(Last(run'), Idle, UndoPending, Idle, SetLocked(None), Word(TAIL, true, false), 1) && Alone(Last(run'));
    run' := Go(run', 3, StartLock(0));
  }

  /** Context 1 takes the bit back and has no node left. */
  lemma FallsBack(run: seq<State>) returns (run': seq<State>)
    requires IsRun(run) && Alone(Last(run))
    requires Deep(Last(run), Idle, UndoPending, Idle, WaitNext, Word(TAIL, true, true), 1)
    ensures IsRun(run') && run'[0] == run[0] && Alone(Last(run')) && Last(run').ctxs[1].idx == MAX_NODES
    ensures Scene(Last(run'), Idle, FallbackRead, Idle, WaitNext, Word(TAIL, false, true))
  {
    run' := Accesses(run, 1);
    run' := Nests(run', 1);
  }

  /** The head owns the lock and waits; the one other context on the lock that is not idle has fallen back. */
  lemma HeadWaitsForFallback() returns (run: seq<State>)
    ensures IsRun(run) && run[0] == Begin()
    ensures
      var s := Last(run);
      && Sized(s) && s.ctxs[3].lock == 0 && s.ctxs[3].pc.WaitNext? && NodeAt(s, s.ctxs[3].Mine()).next == None
      && s.ctxs[1].lock == 0 && s.ctxs[1].pc.FallbackRead? && s.ctxs[1].idx == MAX_NODES
      && forall u: nat :: On(s, 0, u) && u != 1 && u != 3 ==> s.ctxs[u].pc.Idle?
  {
    run := FourDeep();
    run := Taken(run);
    run := WaitsPending(run);
    run := Queues(run);
    run := GetsNode(run);
    run := BecomesHead(run);
    run := LockIsFree(run);
    run := PendingInTheWay(run);
    run := ClaimFails(run);
    run := FallsBack(run);
  }
}
