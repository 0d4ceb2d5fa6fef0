/**
 The queued spinlock of kernel/spinlock.c as a step system.

 Any number of locks, CPUs and execution contexts take part.  A context is one
 acquisition in progress on a CPU; contexts of one CPU share its four queue
 nodes and its nesting count.  One step is one access to shared memory, and
 accesses are sequentially consistent.  `arrived` and `granted` log the order
 of tail exchanges and of claims by queue heads; no step reads them.
 */
module QueuedSpinlock {
  import opened Common

  const MAX_NODES: nat := 4
  const PENDING_LOOPS: nat := 1

  datatype NodeId = NodeId(cpu: nat, idx: nat)

  /** The lock word: queue tail, pending bit, locked byte. */
  datatype Word = Word(tail: Option<NodeId>, pending: bool, locked: bool)

  const FREE_WORD := Word(None, false, false)
  const PENDING_WORD := Word(None, true, false)

  datatype Node = Node(next: Option<NodeId>, locked: bool)

  /** The next shared access of a context, with the locals it still needs. */
  datatype Pc =
    | Idle
    | TrylockRead
    | TrylockCas
    | FastCas
    | PendingSpin(left: nat)
    | FetchPending
    | UndoPending
    | WaitUnlocked
    | TakePending
    | Enqueue
    | FallbackRead
    | FallbackCas
    | InitLocked
    | InitNext
    | TryRead
    | TryCas
    | XchgTail
    | Link(prev: NodeId)
    | WaitGrant
    | ReadNext
    | HeadWait(seen: Option<NodeId>)
    | ClaimCas(seen: Option<NodeId>)
    | SetLocked(seen: Option<NodeId>)
    | WaitNext
    | Pass(succ: NodeId)
    | Release
    | Holding

  datatype Context = Context(cpu: nat, lock: nat, idx: nat, pc: Pc) {
    function Mine(): NodeId { NodeId(cpu, idx) }
  }

  datatype Lock = Lock(word: Word, arrived: seq<nat>, granted: seq<nat>)

  datatype State = State(locks: seq<Lock>, ctxs: seq<Context>,
                         nodes: map<NodeId, Node>, counts: map<nat, nat>)

  datatype Start = StartLock(lock: nat) | StartTrylock(lock: nat)

  // ----- reading and writing the state

  function NodeAt(s: State, n: NodeId): Node {
    if n in s.nodes then s.nodes[n] else Node(None, false)
  }

  function Count(s: State, cpu: nat): nat {
    if cpu in s.counts then s.counts[cpu] else 0
  }

  datatype NodeWrite =
    | NoWrite
    | WriteNext(node: NodeId, next: Option<NodeId>)
    | WriteLocked(node: NodeId, locked: bool)

  /** What one step does: the context, its lock, one field of one node, its CPU's nesting count. */
  datatype Effect = Effect(ctx: Context, lock: Lock, write: NodeWrite, count: nat)

  function Apply(s: State, t: nat, e: Effect): State
    requires t < |s.ctxs| && s.ctxs[t].lock < |s.locks|
  {
    State(s.locks[s.ctxs[t].lock := e.lock],
          s.ctxs[t := e.ctx],
          match e.write
          case NoWrite => s.nodes
          case WriteNext(n, v) => s.nodes[n := NodeAt(s, n).(next := v)]
          case WriteLocked(n, v) => s.nodes[n := NodeAt(s, n).(locked := v)],
          s.counts[s.ctxs[t].cpu := e.count])
  }

  // ----- roles of a context

  predicate Owns(pc: Pc) {
    pc.WaitNext? || pc.Pass? || pc.Release? || pc.Holding?
  }

  /** Responsible for the pending bit: the next owner, or the one that must undo it. */
  predicate HoldsPending(pc: Pc) {
    pc.UndoPending? || pc.WaitUnlocked? || pc.TakePending?
  }

  predicate InQueue(pc: Pc) {
    pc.Link? || pc.WaitGrant? || pc.ReadNext? || pc.HeadWait? || pc.ClaimCas? || pc.SetLocked? || pc.WaitNext?
        || pc.Pass?
  }

  predicate Counted(pc: Pc) {
    || InQueue(pc) || pc.FallbackRead? || pc.FallbackCas? || pc.InitLocked? || pc.InitNext?
    || pc.TryRead? || pc.TryCas? || pc.XchgTail? || pc.Release?
  }

  /** Uses its queue node. */
  predicate UsesNode(pc: Pc) {
    InQueue(pc) || pc.InitLocked? || pc.InitNext? || pc.TryRead? || pc.TryCas? || pc.XchgTail?
  }

  /** Saw contention and is on its way to the tail exchange. */
  predicate Committed(pc: Pc) {
    || pc.UndoPending? || pc.Enqueue? || pc.InitLocked? || pc.InitNext? || pc.TryRead? || pc.TryCas? || pc.XchgTail?
  }

  /** Nested too deep for a node: it spins on the lock word and never exchanges the tail. */
  predicate InFallback(pc: Pc) {
    pc.FallbackRead? || pc.FallbackCas?
  }

  predicate Queueing(pc: Pc) {
    Committed(pc) || InFallback(pc)
  }

  /** Past the wait for owner and pending, not yet owner. */
  predicate Claiming(pc: Pc) {
    pc.ClaimCas? || pc.SetLocked?
  }

  // ----- the steps

  /** Anything above the locked byte is set. */
  predicate Contended(w: Word) {
    w.tail.Some? || w.pending
  }

  function AfterPendingSpin(val: Word): Pc {
    if Contended(val) then Enqueue else FetchPending
  }

  function SlowEntry(val: Word): Pc {
    if val == PENDING_WORD then PendingSpin(PENDING_LOOPS) else AfterPendingSpin(val)
  }

  function AfterFetchPending(val: Word): Pc {
    if Contended(val) then if val.pending then Enqueue else UndoPending
    else if val.locked then WaitUnlocked
    else TakePending
  }

  /** The accesses of qspin_lock and qspin_trylock before queueing, and of unlock: new word, next access. */
  function WordAccess(w: Word, pc: Pc): (Word, Pc)
    requires !Counted(pc) && !pc.Idle? && !pc.Enqueue?
  {
    var taken := w.(locked := true);
    match pc
    case TrylockRead => (w, if w == FREE_WORD then TrylockCas else Idle)
    case TrylockCas => if w == FREE_WORD then (taken, Holding) else (w, Idle)
    case FastCas => if w == FREE_WORD then (taken, Holding) else (w, SlowEntry(w))
    case PendingSpin(left) =>
      (w, if w != PENDING_WORD || left == 0 then AfterPendingSpin(w) else PendingSpin(left - 1))
    case FetchPending => (w.(pending := true), AfterFetchPending(w))
    case UndoPending => (w.(pending := false), Enqueue)
    case WaitUnlocked => (w, if w.locked then pc else TakePending)
    case TakePending => (w.(pending := false, locked := true), Holding)
    case Holding => (w.(locked := false), Idle)
  }

  /** The accesses from the nesting count to the tail exchange and back to the count. */
  function QueueingAccess(t: nat, c: Context, lock: Lock, count: nat): Effect
    requires c.pc.Enqueue? || (Counted(c.pc) && !InQueue(c.pc))
  {
    var w := lock.word;
    var taken := lock.(word := w.(locked := true));
    var e := Effect(c, lock, NoWrite, count);
    match c.pc
    case Enqueue =>
      e.(ctx := c.(idx := count, pc := if count >= MAX_NODES then FallbackRead else InitLocked), count := count + 1)
    case FallbackRead => e.(ctx := c.(pc := if w == FREE_WORD then FallbackCas else c.pc))
    case FallbackCas =>
      if w == FREE_WORD then e.(ctx := c.(pc := Release), lock := taken) else e.(ctx := c.(pc := FallbackRead))
    case InitLocked => e.(ctx := c.(pc := InitNext), write := WriteLocked(c.Mine(), false))
    case InitNext => e.(ctx := c.(pc := TryRead), write := WriteNext(c.Mine(), None))
    case TryRead => e.(ctx := c.(pc := if w == FREE_WORD then TryCas else XchgTail))
    case TryCas =>
      if w == FREE_WORD then e.(ctx := c.(pc := Release), lock := taken) else e.(ctx := c.(pc := XchgTail))
    case XchgTail =>
      e.(ctx := c.(pc := if w.tail.Some? then Link(w.tail.value) else HeadWait(None)),
         lock := lock.(word := w.(tail := Some(c.Mine())), arrived := lock.arrived + [t]))
    case Release =>
      // Contexts of a CPU nest, so only the innermost one gets to run its decrement.
      if c.idx + 1 == count then e.(ctx := c.(pc := Holding), count := c.idx) else e
  }

  /** The accesses of a context in the MCS queue; `mine` is its own node. */
  function QueueAccess(t: nat, c: Context, lock: Lock, mine: Node, count: nat): Effect
    requires InQueue(c.pc)
  {
    var w := lock.word;
    var e := Effect(c, lock, NoWrite, count);
    match c.pc
    case Link(prev) => e.(ctx := c.(pc := WaitGrant), write := WriteNext(prev, Some(c.Mine())))
    case WaitGrant => e.(ctx := c.(pc := if mine.locked then ReadNext else c.pc))
    case ReadNext => e.(ctx := c.(pc := HeadWait(mine.next)))
    case HeadWait(seen) =>
      if w.locked || w.pending then e
      else e.(ctx := c.(pc := if w.tail == Some(c.Mine()) then ClaimCas(seen) else SetLocked(seen)))
    case ClaimCas(seen) =>
      if w == Word(Some(c.Mine()), false, false)
      then e.(ctx := c.(pc := Release), lock := lock.(word := Word(None, false, true), granted := lock.granted + [t]))
      else e.(ctx := c.(pc := SetLocked(seen)))
    case SetLocked(seen) =>
      e.(ctx := c.(pc := if seen.Some? then Pass(seen.value) else WaitNext),
         lock := lock.(word := w.(locked := true), granted := lock.granted + [t]))
    case WaitNext => e.(ctx := c.(pc := if mine.next.Some? then Pass(mine.next.value) else c.pc))
    case Pass(succ) => e.(ctx := c.(pc := Release), write := WriteLocked(succ, true))
  }

  function Access(t: nat, c: Context, lock: Lock, mine: Node, count: nat, start: Start): Effect {
    if c.pc.Idle? then
      Effect(c.(lock := start.lock, pc := if start.StartLock? then FastCas else TrylockRead), lock, NoWrite, count)
    else if InQueue(c.pc) then QueueAccess(t, c, lock, mine, count)
    else if c.pc.Enqueue? || Counted(c.pc) then QueueingAccess(t, c, lock, count)
    else
      var (w, pc) := WordAccess(lock.word, c.pc);
      Effect(c.(pc := pc), lock.(word := w), NoWrite, count)
  }

  /** Step of context t; a step whose wait condition is false leaves the state as it is. */
  function Step(s: State, t: nat, start: Start): State
    requires t < |s.ctxs| && s.ctxs[t].lock < |s.locks| && start.lock < |s.locks|
  {
    var c := s.ctxs[t];
    Apply(s, t, Access(t, c, s.locks[c.lock], NodeAt(s, c.Mine()), Count(s, c.cpu), start))
  }

  // ----- runs

  ghost predicate Init(s: State) {
    && (forall l :: 0 <= l < |s.locks| ==> s.locks[l] == Lock(FREE_WORD, [], []))
    && (forall t :: 0 <= t < |s.ctxs| ==> s.ctxs[t].pc == Idle && s.ctxs[t].lock < |s.locks|)
    && s.counts == map[]
  }

  ghost predicate Next(s: State, s': State) {
    exists t: nat, start: Start ::
      t < |s.ctxs| && s.ctxs[t].lock < |s.locks| && start.lock < |s.locks| && s' == Step(s, t, start)
  }

  ghost predicate IsRun(run: seq<State>) {
    |run| > 0 && Init(run[0]) && forall i :: 0 <= i < |run| - 1 ==> Next(run[i], run[i + 1])
  }

  // ----- the invariant

  /** Who owns the lock, who answers for the pending bit, the MCS queue, and a context on its way into it. */
  datatype Roles = Roles(owner: Option<nat>, pender: Option<nat>, queue: seq<nat>, helper: nat)

  ghost predicate On(s: State, l: nat, t: nat) {
    t < |s.ctxs| && s.ctxs[t].lock == l
  }

  ghost predicate RolesMatch(s: State, l: nat, r: Roles)
    requires l < |s.locks|
  {
    && (s.locks[l].word.locked <==> r.owner.Some?)
    && (s.locks[l].word.pending <==> r.pender.Some?)
    && (r.owner.Some? ==> r.owner.value < |s.ctxs|)
    && (r.pender.Some? ==> r.pender.value < |s.ctxs|)
    && (forall t: nat :: t < |s.ctxs| ==> (r.owner == Some(t) <==> s.ctxs[t].lock == l && Owns(s.ctxs[t].pc)))
    && (forall t: nat :: t < |s.ctxs| ==> (r.pender == Some(t) <==> s.ctxs[t].lock == l && HoldsPending(s.ctxs[t].pc)))
    && (forall t: nat :: t < |s.ctxs| ==> (t in r.queue <==> s.ctxs[t].lock == l && InQueue(s.ctxs[t].pc)))
    && (forall i, j :: 0 <= i < j < |r.queue| ==> r.queue[i] != r.queue[j])
    && (forall i :: 0 <= i < |r.queue| ==> r.queue[i] < |s.ctxs|)
  }

  /** The node after position i, if the context there has linked itself already. */
  ghost function LinkedAfter(s: State, q: seq<nat>, i: nat): Option<NodeId>
    requires forall k :: 0 <= k < |q| ==> q[k] < |s.ctxs|
  {
    if i + 1 < |q| && !s.ctxs[q[i + 1]].pc.Link? then Some(s.ctxs[q[i + 1]].Mine()) else None
  }

  ghost predicate QueueInv(s: State, l: nat, q: seq<nat>)
    requires l < |s.locks|
    requires forall k :: 0 <= k < |q| ==> q[k] < |s.ctxs|
  {
    && s.locks[l].word.tail == (if q == [] then None else Some(s.ctxs[q[|q| - 1]].Mine()))
    && (forall i {:trigger MemberInv(s, q, i)} :: 0 <= i < |q| ==> MemberInv(s, q, i))
    && (q != [] ==> HeadInv(s, q))
  }

  ghost predicate MemberInv(s: State, q: seq<nat>, i: nat)
    requires i < |q|
    requires forall k :: 0 <= k < |q| ==> q[k] < |s.ctxs|
  {
    var c := s.ctxs[q[i]];
    && NodeAt(s, c.Mine()).next == LinkedAfter(s, q, i)
    && (i > 0 ==>
          && (c.pc.Link? || c.pc.WaitGrant?)
          && !NodeAt(s, c.Mine()).locked
          && (c.pc.Link? ==> c.pc.prev == s.ctxs[q[i - 1]].Mine()))
  }

  ghost predicate HeadInv(s: State, q: seq<nat>)
    requires q != []
    requires forall k :: 0 <= k < |q| ==> q[k] < |s.ctxs|
  {
    var pc := s.ctxs[q[0]].pc;
    && !pc.Link?
    && (pc.WaitGrant? ==> NodeAt(s, s.ctxs[q[0]].Mine()).locked)
    && (pc.HeadWait? || pc.ClaimCas? || pc.SetLocked? ==> pc.seen.Some? ==> pc.seen == LinkedAfter(s, q, 0))
    && (pc.Pass? ==> Some(pc.succ) == LinkedAfter(s, q, 0))
  }

  /** Nobody else can take the lock from under a pending or a claiming context. */
  ghost predicate ClaimInv(s: State, l: nat, r: Roles)
    requires l < |s.locks| && RolesMatch(s, l, r)
  {
    && (r.pender.Some? && s.ctxs[r.pender.value].pc.TakePending? ==> !s.locks[l].word.locked)
    && (r.queue != [] && Claiming(s.ctxs[r.queue[0]].pc) ==>
          && !s.locks[l].word.locked
          && (r.pender.Some? ==> s.ctxs[r.pender.value].pc.UndoPending?))
  }

  /** A lone head that will wait for a successor has one on its way. */
  ghost predicate HelperInv(s: State, l: nat, r: Roles)
    requires l < |s.locks| && RolesMatch(s, l, r)
  {
    |r.queue| == 1 && (s.ctxs[r.queue[0]].pc.SetLocked? || s.ctxs[r.queue[0]].pc.WaitNext?) ==>
      On(s, l, r.helper) && Queueing(s.ctxs[r.helper].pc)
  }

  /** The queue is what has arrived and not yet left, in arrival order. */
  ghost predicate LogInv(s: State, l: nat, r: Roles)
    requires l < |s.locks| && RolesMatch(s, l, r)
  {
    var served := if r.queue != [] && r.owner == Some(r.queue[0]) then [r.queue[0]] else [];
    exists left: seq<nat> ::
      s.locks[l].arrived == left + r.queue && s.locks[l].granted == left + served
  }

  ghost predicate LockInv(s: State, l: nat, r: Roles) {
    && l < |s.locks|
    && RolesMatch(s, l, r)
    && QueueInv(s, l, r.queue)
    && ClaimInv(s, l, r)
    && HelperInv(s, l, r)
    && LogInv(s, l, r)
  }

  /** Contexts of one CPU use different nodes, below its nesting count; fresh nodes are clean. */
  ghost predicate NodesInv(s: State) {
    && (forall t :: 0 <= t < |s.ctxs| ==> s.ctxs[t].lock < |s.locks|)
    && (forall t :: 0 <= t < |s.ctxs| && Counted(s.ctxs[t].pc) ==> s.ctxs[t].idx < Count(s, s.ctxs[t].cpu))
    && (forall t :: 0 <= t < |s.ctxs| && UsesNode(s.ctxs[t].pc) ==> s.ctxs[t].idx < MAX_NODES)
    && (forall t, u :: 0 <= t < u < |s.ctxs| && Counted(s.ctxs[t].pc) && Counted(s.ctxs[u].pc) ==>
          s.ctxs[t].Mine() != s.ctxs[u].Mine())
    && (forall t :: 0 <= t < |s.ctxs| ==> FreshNode(s, s.ctxs[t]))
  }

  ghost predicate FreshNode(s: State, c: Context) {
    && (c.pc.InitNext? || c.pc.TryRead? || c.pc.TryCas? || c.pc.XchgTail? ==> !NodeAt(s, c.Mine()).locked)
    && (c.pc.TryRead? || c.pc.TryCas? || c.pc.XchgTail? ==> NodeAt(s, c.Mine()).next == None)
  }

  ghost predicate Inv(s: State, rs: seq<Roles>) {
    && NodesInv(s)
    && |rs| == |s.locks|
    && forall l :: 0 <= l < |rs| ==> LockInv(s, l, rs[l])
  }
}
