/** Every step of the queued spinlock keeps the invariant. */
module QueuedSpinlockProof {
  import opened Common
  import opened QueuedSpinlock

  /** What a step by t on lock l leaves alone, seen from another lock. */
  ghost predicate Untouched(s: State, s': State, t: nat, l: nat) {
    && |s'.ctxs| == |s.ctxs| && |s'.locks| == |s.locks|
    && t < |s.ctxs| && l < |s.locks|
    && s'.locks[l] == s.locks[l]
    && (forall u :: 0 <= u < |s.ctxs| && u != t ==> s'.ctxs[u] == s.ctxs[u])
    && (s.ctxs[t].lock == l ==> s.ctxs[t].pc.Idle?)
    && s'.ctxs[t].lock != l
  }

  lemma RolesUntouched(s: State, s': State, t: nat, l: nat, r: Roles)
    requires Untouched(s, s', t, l)
    requires RolesMatch(s, l, r)
    ensures RolesMatch(s', l, r)
    ensures t !in r.queue && r.owner != Some(t) && r.pender != Some(t)
  {
  }

  /** A queue keeps its invariant when its members, their nodes and the lock word stay. */
  lemma QueueFrame(s: State, s': State, l: nat, q: seq<nat>)
    requires l < |s.locks| && l < |s'.locks| && s'.locks[l].word.tail == s.locks[l].word.tail
    requires |s'.ctxs| == |s.ctxs|
    requires forall k :: 0 <= k < |q| ==> q[k] < |s.ctxs|
    requires forall k :: 0 <= k < |q| ==> s'.ctxs[q[k]] == s.ctxs[q[k]]
    requires forall k :: 0 <= k < |q| ==> NodeAt(s', s.ctxs[q[k]].Mine()) == NodeAt(s, s.ctxs[q[k]].Mine())
    requires QueueInv(s, l, q)
    ensures QueueInv(s', l, q)
  {
    forall i | 0 <= i < |q| ensures MemberInv(s', q, i) {
      assert MemberInv(s, q, i);
    }
  }

  lemma OtherLockKept(s: State, s': State, t: nat, l: nat, r: Roles)
    requires LockInv(s, l, r)
    requires Untouched(s, s', t, l)
    requires forall u :: 0 <= u < |s.ctxs| && s.ctxs[u].lock == l && InQueue(s.ctxs[u].pc) ==>
          NodeAt(s', s.ctxs[u].Mine()) == NodeAt(s, s.ctxs[u].Mine())
    ensures LockInv(s', l, r)
  {
    RolesUntouched(s, s', t, l, r);
    QueueFrame(s, s', l, r.queue);
  }

  // ----- nodes

  ghost predicate IsQueuedNode(s: State, t: nat, n: NodeId) {
    t < |s.ctxs| &&
    exists u: nat :: u < |s.ctxs| && u != t && s.ctxs[u].lock == s.ctxs[t].lock && InQueue(s.ctxs[u].pc)
        && s.ctxs[u].Mine() == n
  }

  lemma NodesKeptLocal(s: State, t: nat, e: Effect)
    requires NodesInv(s) && t < |s.ctxs| && e.ctx.lock < |s.locks|
    requires e.write.NoWrite? && e.count == Count(s, s.ctxs[t].cpu)
    requires Counted(e.ctx.pc) ==> Counted(s.ctxs[t].pc) && e.ctx.Mine() == s.ctxs[t].Mine()
    requires UsesNode(e.ctx.pc) ==> UsesNode(s.ctxs[t].pc)
    requires FreshNode(s, e.ctx)
    ensures NodesInv(Apply(s, t, e))
  {
  }

  lemma NodesKeptWrite(s: State, t: nat, e: Effect)
    requires NodesInv(s) && t < |s.ctxs| && e.ctx.lock < |s.locks|
    requires !e.write.NoWrite? && e.count == Count(s, s.ctxs[t].cpu)
    requires Counted(s.ctxs[t].pc) && e.ctx.Mine() == s.ctxs[t].Mine()
    requires UsesNode(e.ctx.pc) ==> UsesNode(s.ctxs[t].pc)
    requires e.write.node == s.ctxs[t].Mine() || IsQueuedNode(s, t, e.write.node)
    requires FreshNode(Apply(s, t, e), e.ctx)
    ensures NodesInv(Apply(s, t, e))
  {
    var s' := Apply(s, t, e);
    forall u: nat | u < |s.ctxs| && u != t ensures FreshNode(s', s'.ctxs[u]) {
      WriteElsewhere(s, t, e, u);
    }
  }

  lemma WriteElsewhere(s: State, t: nat, e: Effect, u: nat)
    requires NodesInv(s) && t < |s.ctxs| && u < |s.ctxs| && u != t && !e.write.NoWrite? && Counted(s.ctxs[t].pc)
    requires e.write.node == s.ctxs[t].Mine() || IsQueuedNode(s, t, e.write.node)
    ensures FreshNode(Apply(s, t, e), s.ctxs[u])
  {
    assert FreshNode(s, s.ctxs[u]);
    if e.write.node != s.ctxs[t].Mine() {
      var v: nat :| v < |s.ctxs| && v != t && s.ctxs[v].lock == s.ctxs[t].lock && InQueue(s.ctxs[v].pc)
          && s.ctxs[v].Mine() == e.write.node;
    }
  }

  /** The context takes the next node of its CPU. */
  lemma NodesKeptEnqueue(s: State, t: nat, e: Effect)
    requires NodesInv(s) && t < |s.ctxs| && e.ctx.lock < |s.locks|
    requires e.write.NoWrite? && e.ctx.cpu == s.ctxs[t].cpu
    requires e.count == Count(s, s.ctxs[t].cpu) + 1 && e.ctx.idx == Count(s, s.ctxs[t].cpu)
    requires if e.ctx.idx < MAX_NODES then e.ctx.pc.InitLocked? else e.ctx.pc.FallbackRead?
    ensures NodesInv(Apply(s, t, e))
  {
    var s' := Apply(s, t, e);
    forall u | 0 <= u < |s.ctxs| && u != t ensures FreshNode(s', s'.ctxs[u]) {
      assert FreshNode(s, s.ctxs[u]);
    }
  }

  /** The innermost context of a CPU gives its node back. */
  lemma NodesKeptRelease(s: State, t: nat, e: Effect)
    requires NodesInv(s) && t < |s.ctxs| && e.ctx.lock < |s.locks|
    requires e.write.NoWrite? && e.ctx.cpu == s.ctxs[t].cpu
    requires s.ctxs[t].pc.Release? && e.ctx.pc.Holding? && e.count == e.ctx.idx == s.ctxs[t].idx
    requires e.count + 1 == Count(s, s.ctxs[t].cpu)
    ensures NodesInv(Apply(s, t, e))
  {
    var s' := Apply(s, t, e);
    forall u | 0 <= u < |s.ctxs| && u != t && Counted(s.ctxs[u].pc)
      ensures s'.ctxs[u].idx < Count(s', s.ctxs[u].cpu)
    {
      assert s.ctxs[u].Mine() != s.ctxs[t].Mine();
    }
    forall u | 0 <= u < |s.ctxs| && u != t ensures FreshNode(s', s'.ctxs[u]) {
      assert FreshNode(s, s.ctxs[u]);
    }
  }

  /** A step writes at most its own node or the node of a queued context. */
  lemma NodesKept(s: State, t: nat, start: Start)
    requires NodesInv(s)
    requires t < |s.ctxs| && start.lock < |s.locks|
    requires s.ctxs[t].pc.Link? ==> IsQueuedNode(s, t, s.ctxs[t].pc.prev)
    requires s.ctxs[t].pc.Pass? ==> IsQueuedNode(s, t, s.ctxs[t].pc.succ)
    ensures NodesInv(Step(s, t, start))
  {
    var c, e := s.ctxs[t], EffectOf(s, t, start);
    assert FreshNode(s, c);
    NodeEffects(s, t, start);
    NodeWrites(s, t, start);
    if c.pc.Enqueue? {
      NodesKeptEnqueue(s, t, e);
      return;
    }
    FreshAfter(s, t, start);
    if e.count != Count(s, c.cpu) {
      NodesKeptRelease(s, t, e);
    } else if e.write.NoWrite? {
      FreshFrame(s, Step(s, t, start), e.ctx);
      NodesKeptLocal(s, t, e);
    } else {
      NodesKeptWrite(s, t, e);
    }
  }

  /** What an access does to the nesting count. */
  lemma NodeEffects(s: State, t: nat, start: Start)
    requires t < |s.ctxs| && s.ctxs[t].lock < |s.locks| && start.lock < |s.locks|
    ensures
      var c, e := s.ctxs[t], EffectOf(s, t, start);
      && e.ctx.lock < |s.locks| && e.ctx.cpu == c.cpu
      && (if c.pc.Enqueue? then
            && e.count == Count(s, c.cpu) + 1 && e.ctx.idx == Count(s, c.cpu) && e.write.NoWrite?
            && (if e.ctx.idx < MAX_NODES then e.ctx.pc.InitLocked? else e.ctx.pc.FallbackRead?)
          else if e.count != Count(s, c.cpu) then
            && c.pc.Release? && e.ctx.pc.Holding? && e.count == e.ctx.idx == c.idx
            && e.count + 1 == Count(s, c.cpu) && e.write.NoWrite?
          else
            && (Counted(e.ctx.pc) ==> Counted(c.pc)) && e.ctx.Mine() == c.Mine()
            && (UsesNode(e.ctx.pc) ==> UsesNode(c.pc)))
  {
  }

  lemma NodeWrites(s: State, t: nat, start: Start)
    requires t < |s.ctxs| && s.ctxs[t].lock < |s.locks| && start.lock < |s.locks|
    ensures
      var c, e := s.ctxs[t], EffectOf(s, t, start);
      !e.write.NoWrite? ==>
        Counted(c.pc) && (e.write.node == c.Mine() || c.pc == Link(e.write.node) || c.pc == Pass(e.write.node))
  {
  }

  lemma FreshAfter(s: State, t: nat, start: Start)
    requires t < |s.ctxs| && s.ctxs[t].lock < |s.locks| && start.lock < |s.locks| && FreshNode(s, s.ctxs[t])
    requires !s.ctxs[t].pc.Enqueue?
    ensures FreshNode(Step(s, t, start), EffectOf(s, t, start).ctx)
  {
    FreshFrom(s, t, start);
    FreshKept(s, t, EffectOf(s, t, start));
  }

  /** Where a context with a clean node comes from. */
  predicate Cleans(c: Context, e: Effect) {
    && (e.ctx.pc.InitNext? ==> c.pc.InitLocked? && e.write == WriteLocked(c.Mine(), false))
    && (e.ctx.pc.TryRead? ==> c.pc.InitNext? && e.write == WriteNext(c.Mine(), None))
    && (e.ctx.pc.TryCas? || e.ctx.pc.XchgTail? ==> (c.pc.TryRead? || c.pc.TryCas?) && e.write.NoWrite?)
    && e.ctx.Mine() == c.Mine()
  }

  lemma FreshFrom(s: State, t: nat, start: Start)
    requires t < |s.ctxs| && s.ctxs[t].lock < |s.locks| && start.lock < |s.locks| && !s.ctxs[t].pc.Enqueue?
    ensures Cleans(s.ctxs[t], EffectOf(s, t, start))
  {
    var c := s.ctxs[t];
    if InQueue(c.pc) || c.pc.Idle? {
    } else if !Counted(c.pc) {
      assert !UsesNode(WordAccess(s.locks[c.lock].word, c.pc).1);
    }
  }

  lemma FreshKept(s: State, t: nat, e: Effect)
    requires t < |s.ctxs| && s.ctxs[t].lock < |s.locks| && FreshNode(s, s.ctxs[t]) && Cleans(s.ctxs[t], e)
    ensures FreshNode(Apply(s, t, e), e.ctx)
  {
  }

  lemma FreshFrame(s: State, s': State, c: Context)
    requires s'.nodes == s.nodes && FreshNode(s', c)
    ensures FreshNode(s, c)
  {
  }

  // ----- steps of a context outside the queue

  /** The new roles differ from the old ones only in what context t is. */
  ghost predicate RolesFollow(r: Roles, r': Roles, t: nat, pc: Pc) {
    && r'.queue == r.queue
    && (forall u: nat :: u != t ==> (r'.owner == Some(u) <==> r.owner == Some(u)))
    && (forall u: nat :: u != t ==> (r'.pender == Some(u) <==> r.pender == Some(u)))
    && (r'.owner == Some(t) <==> Owns(pc))
    && (r'.pender == Some(t) <==> HoldsPending(pc))
  }

  ghost predicate OutsideStep(s: State, t: nat, e: Effect, l: nat) {
    && t < |s.ctxs| && l < |s.locks| && s.ctxs[t].lock < |s.locks|
    && e.ctx.lock == l && (s.ctxs[t].lock == l || (s.ctxs[t].pc.Idle? && e.lock == s.locks[s.ctxs[t].lock]))
    && !InQueue(s.ctxs[t].pc) && !InQueue(e.ctx.pc)
    && (s.ctxs[t].lock == l ==> e.lock == s.locks[l].(word := e.lock.word) && e.lock.word.tail == s.locks[l].word.tail)
    && (e.write.NoWrite? || (e.write.node == s.ctxs[t].Mine() && Counted(s.ctxs[t].pc)))
  }

  lemma OutsideRoles(s: State, t: nat, e: Effect, l: nat, r: Roles, r': Roles)
    requires OutsideStep(s, t, e, l) && RolesMatch(s, l, r)
    requires RolesFollow(r, r', t, e.ctx.pc)
    requires s.ctxs[t].lock == l ==>
              (e.lock.word.locked <==> r'.owner.Some?) && (e.lock.word.pending <==> r'.pender.Some?)
    requires s.ctxs[t].lock != l ==> (r'.owner.Some? <==> r.owner.Some?) && (r'.pender.Some? <==> r.pender.Some?)
    ensures RolesMatch(Apply(s, t, e), l, r')
    ensures t !in r.queue
  {
    assert r'.owner.Some? && r'.owner.value != t ==> r.owner == Some(r'.owner.value);
    assert r'.pender.Some? && r'.pender.value != t ==> r.pender == Some(r'.pender.value);
  }

  lemma OutsideQueue(s: State, t: nat, e: Effect, l: nat, r: Roles)
    requires OutsideStep(s, t, e, l) && RolesMatch(s, l, r) && NodesInv(s)
    requires QueueInv(s, l, r.queue)
    ensures QueueInv(Apply(s, t, e), l, r.queue)
    ensures forall k :: 0 <= k < |r.queue| ==> Apply(s, t, e).ctxs[r.queue[k]] == s.ctxs[r.queue[k]]
  {
    var s' := Apply(s, t, e);
    forall k | 0 <= k < |r.queue|
      ensures s'.ctxs[r.queue[k]] == s.ctxs[r.queue[k]]
      ensures NodeAt(s', s.ctxs[r.queue[k]].Mine()) == NodeAt(s, s.ctxs[r.queue[k]].Mine())
    {
      assert r.queue[k] in r.queue;
    }
    QueueFrame(s, s', l, r.queue);
  }

  /** All but the claim part of the invariant, for a step outside the queue. */
  lemma OutsideKept(s: State, t: nat, e: Effect, l: nat, r: Roles, r': Roles)
    requires NodesInv(s) && LockInv(s, l, r)
    requires OutsideStep(s, t, e, l) && RolesFollow(r, r', t, e.ctx.pc) && r'.helper == r.helper
    requires s.ctxs[t].lock == l ==>
              (e.lock.word.locked <==> r'.owner.Some?) && (e.lock.word.pending <==> r'.pender.Some?)
    requires s.ctxs[t].lock != l ==> (r'.owner.Some? <==> r.owner.Some?) && (r'.pender.Some? <==> r.pender.Some?)
    requires (Queueing(s.ctxs[t].pc) ==> Queueing(e.ctx.pc)) || r.queue == []
    ensures
      var s' := Apply(s, t, e);
      && RolesMatch(s', l, r') && QueueInv(s', l, r'.queue)
      && HelperInv(s', l, r') && LogInv(s', l, r')
      && forall k :: 0 <= k < |r.queue| ==> s'.ctxs[r.queue[k]] == s.ctxs[r.queue[k]]
  {
    OutsideRoles(s, t, e, l, r, r');
    OutsideQueue(s, t, e, l, r);
    assert r.queue != [] ==> r.queue[0] in r.queue;
  }

  function EffectOf(s: State, t: nat, start: Start): Effect
    requires t < |s.ctxs| && s.ctxs[t].lock < |s.locks|
  {
    var c := s.ctxs[t];
    Access(t, c, s.locks[c.lock], NodeAt(s, c.Mine()), Count(s, c.cpu), start)
  }

  function RolesAfter(r: Roles, t: nat, pc: Pc, pc': Pc): Roles {
    r.(owner := if Owns(pc') then Some(t) else if Owns(pc) then None else r.owner,
       pender := if HoldsPending(pc') then Some(t) else if HoldsPending(pc) then None else r.pender)
  }

  /** How the word and the roles of a context outside the queue change together. */
  predicate OutsideMove(w: Word, pc: Pc, w': Word, pc': Pc) {
    && w'.tail == w.tail
    && ((Queueing(pc) ==> Queueing(pc')) || w.tail.None?)
    && (if Owns(pc) == Owns(pc') then w'.locked == w.locked else w'.locked == Owns(pc') && w.locked == Owns(pc))
    && (if HoldsPending(pc) == HoldsPending(pc') then w'.pending == w.pending
        else w'.pending == HoldsPending(pc') && w.pending == HoldsPending(pc))
    && (pc'.TakePending? ==> !w'.locked)
    && (w'.locked && !w.locked ==> pc.TakePending? || (w.tail.None? && !w.pending))
    && (HoldsPending(pc') ==> pc'.UndoPending? || w.tail.None? || pc.WaitUnlocked?)
  }

  lemma AccessMovesOutside(s: State, t: nat, start: Start)
    requires t < |s.ctxs| && s.ctxs[t].lock < |s.locks| && start.lock < |s.locks|
    requires !InQueue(s.ctxs[t].pc) && !s.ctxs[t].pc.XchgTail?
    requires s.ctxs[t].pc.TakePending? || Owns(s.ctxs[t].pc) ==>
              s.locks[s.ctxs[t].lock].word.locked == Owns(s.ctxs[t].pc)
    requires HoldsPending(s.ctxs[t].pc) ==> s.locks[s.ctxs[t].lock].word.pending
    ensures
      var c, e := s.ctxs[t], EffectOf(s, t, start);
      && OutsideStep(s, t, e, e.ctx.lock)
      && OutsideMove(s.locks[c.lock].word, c.pc, e.lock.word, e.ctx.pc)
      && (c.pc.Idle? ==> !Owns(e.ctx.pc) && !HoldsPending(e.ctx.pc))
  {
    AccessStaysOutside(s, t, start);
    var c := s.ctxs[t];
    if c.pc.Enqueue? || Counted(c.pc) {
      QueueingMoves(t, c, s.locks[c.lock], Count(s, c.cpu));
    } else if !c.pc.Idle? {
      WordMoves(s.locks[c.lock].word, c.pc);
    }
  }

  lemma AccessStaysOutside(s: State, t: nat, start: Start)
    requires t < |s.ctxs| && s.ctxs[t].lock < |s.locks| && start.lock < |s.locks|
    requires !InQueue(s.ctxs[t].pc) && !s.ctxs[t].pc.XchgTail?
    ensures OutsideStep(s, t, EffectOf(s, t, start), EffectOf(s, t, start).ctx.lock)
  {
  }

  lemma WordMoves(w: Word, pc: Pc)
    requires !Counted(pc) && !pc.Idle? && !pc.Enqueue?
    requires pc.TakePending? || Owns(pc) ==> w.locked == Owns(pc)
    requires HoldsPending(pc) ==> w.pending
    ensures
      var (w', pc') := WordAccess(w, pc);
      OutsideMove(w, pc, w', pc')
  {
  }

  lemma QueueingMoves(t: nat, c: Context, lock: Lock, count: nat)
    requires c.pc.Enqueue? || (Counted(c.pc) && !InQueue(c.pc) && !c.pc.XchgTail?)
    requires Owns(c.pc) ==> lock.word.locked
    ensures
      var e := QueueingAccess(t, c, lock, count);
      OutsideMove(lock.word, c.pc, e.lock.word, e.ctx.pc)
  {
  }

  /** Steps of a context that is outside the queue before and after. */
  lemma OutsidePreserves(s: State, t: nat, e: Effect, l: nat, r: Roles)
    requires NodesInv(s) && LockInv(s, l, r)
    requires OutsideStep(s, t, e, l)
    requires if s.ctxs[t].lock == l then OutsideMove(s.locks[l].word, s.ctxs[t].pc, e.lock.word, e.ctx.pc)
             else !Owns(e.ctx.pc) && !HoldsPending(e.ctx.pc)
    ensures LockInv(Apply(s, t, e), l, RolesAfter(r, t, s.ctxs[t].pc, e.ctx.pc))
  {
    var r' := RolesAfter(r, t, s.ctxs[t].pc, e.ctx.pc);
    OutsideFollows(s, t, e, l, r);
    OutsideKept(s, t, e, l, r, r');
    OutsideClaims(s, t, e, l, r);
  }

  lemma OutsideFollows(s: State, t: nat, e: Effect, l: nat, r: Roles)
    requires l < |s.locks| && RolesMatch(s, l, r) && QueueInv(s, l, r.queue) && OutsideStep(s, t, e, l)
    requires if s.ctxs[t].lock == l then OutsideMove(s.locks[l].word, s.ctxs[t].pc, e.lock.word, e.ctx.pc)
             else !Owns(e.ctx.pc) && !HoldsPending(e.ctx.pc)
    ensures
      var r' := RolesAfter(r, t, s.ctxs[t].pc, e.ctx.pc);
      && RolesFollow(r, r', t, e.ctx.pc)
      && (s.ctxs[t].lock == l ==>
            (e.lock.word.locked <==> r'.owner.Some?) && (e.lock.word.pending <==> r'.pender.Some?))
      && (s.ctxs[t].lock != l ==> (r'.owner.Some? <==> r.owner.Some?) && (r'.pender.Some? <==> r.pender.Some?))
      && ((Queueing(s.ctxs[t].pc) ==> Queueing(e.ctx.pc)) || r.queue == [])
  {
    var c := s.ctxs[t];
    assert r.owner == Some(t) <==> c.lock == l && Owns(c.pc);
    assert r.pender == Some(t) <==> c.lock == l && HoldsPending(c.pc);
  }

  lemma OutsideClaims(s: State, t: nat, e: Effect, l: nat, r: Roles)
    requires LockInv(s, l, r) && OutsideStep(s, t, e, l)
    requires if s.ctxs[t].lock == l then OutsideMove(s.locks[l].word, s.ctxs[t].pc, e.lock.word, e.ctx.pc)
             else !Owns(e.ctx.pc) && !HoldsPending(e.ctx.pc)
    requires RolesMatch(Apply(s, t, e), l, RolesAfter(r, t, s.ctxs[t].pc, e.ctx.pc))
    requires forall k :: 0 <= k < |r.queue| ==> Apply(s, t, e).ctxs[r.queue[k]] == s.ctxs[r.queue[k]]
    ensures ClaimInv(Apply(s, t, e), l, RolesAfter(r, t, s.ctxs[t].pc, e.ctx.pc))
  {
    var c := s.ctxs[t];
    assert r.owner == Some(t) <==> c.lock == l && Owns(c.pc);
    assert r.pender == Some(t) <==> c.lock == l && HoldsPending(c.pc);
  }

  // ----- joining the queue

  /** What a tail exchange by t does to its lock and to the contexts. */
  ghost predicate Exchanged(s: State, s': State, t: nat, l: nat) {
    && t < |s.ctxs| && l < |s.locks| && s.ctxs[t].lock == l && s.ctxs[t].pc.XchgTail?
    && var w := s.locks[l].word;
    && s'.ctxs == s.ctxs[t := s.ctxs[t].(pc := if w.tail.Some? then Link(w.tail.value) else HeadWait(None))]
    && s'.locks == s.locks[l := Lock(w.(tail := Some(s.ctxs[t].Mine())), s.locks[l].arrived + [t], s.locks[l].granted)]
    && s'.nodes == s.nodes
  }

  lemma ExchangePreserves(s: State, s': State, t: nat, l: nat, r: Roles)
    requires NodesInv(s) && LockInv(s, l, r) && Exchanged(s, s', t, l)
    ensures LockInv(s', l, r.(queue := r.queue + [t]))
  {
    ExchangeRoles(s, s', t, l, r);
    ExchangeQueue(s, s', t, l, r);
    ExchangeLog(s, s', t, l, r);
    assert r.queue != [] ==> r.queue[0] in r.queue;
  }

  lemma ExchangeRoles(s: State, s': State, t: nat, l: nat, r: Roles)
    requires Exchanged(s, s', t, l) && RolesMatch(s, l, r)
    ensures RolesMatch(s', l, r.(queue := r.queue + [t]))
    ensures t !in r.queue && r.owner != Some(t) && r.pender != Some(t)
  {
    NotQueuedYet(s, t, l, r);
    var q' := r.queue + [t];
    forall u: nat | u < |s'.ctxs| ensures u in q' <==> s'.ctxs[u].lock == l && InQueue(s'.ctxs[u].pc) {
      assert u in r.queue <==> s.ctxs[u].lock == l && InQueue(s.ctxs[u].pc);
    }
    forall i, j | 0 <= i < j < |q'| ensures q'[i] != q'[j] {
      assert j == |r.queue| ==> r.queue[i] in r.queue;
    }
  }

  lemma NotQueuedYet(s: State, t: nat, l: nat, r: Roles)
    requires l < |s.locks| && RolesMatch(s, l, r) && t < |s.ctxs| && s.ctxs[t].pc.XchgTail?
    ensures t !in r.queue && r.owner != Some(t) && r.pender != Some(t)
  {
  }

  lemma ExchangeLog(s: State, s': State, t: nat, l: nat, r: Roles)
    requires Exchanged(s, s', t, l) && RolesMatch(s, l, r) && LogInv(s, l, r)
    requires RolesMatch(s', l, r.(queue := r.queue + [t])) && r.owner != Some(t)
    ensures LogInv(s', l, r.(queue := r.queue + [t]))
  {
    var served := if r.queue != [] && r.owner == Some(r.queue[0]) then [r.queue[0]] else [];
    var left :| s.locks[l].arrived == left + r.queue && s.locks[l].granted == left + served;
    assert s'.locks[l].arrived == left + (r.queue + [t]);
  }

  lemma ExchangeMember(s: State, s': State, t: nat, l: nat, q: seq<nat>, i: nat)
    requires Exchanged(s, s', t, l) && s.locks[l].word.tail.Some? && t !in q && i < |q|
    requires forall k :: 0 <= k < |q| ==> q[k] < |s.ctxs|
    requires MemberInv(s, q, i)
    ensures MemberInv(s', q + [t], i)
    ensures LinkedAfter(s', q + [t], i) == LinkedAfter(s, q, i)
  {
    var q' := q + [t];
    assert q'[i] == q[i] && q[i] in q;
    assert i > 0 ==> q'[i - 1] == q[i - 1] && q[i - 1] in q;
    assert i + 1 < |q| ==> q'[i + 1] == q[i + 1] && q[i + 1] in q;
    if i + 1 == |q| {
      assert q'[i + 1] == t;
    }
  }

  lemma ExchangeQueue(s: State, s': State, t: nat, l: nat, r: Roles)
    requires Exchanged(s, s', t, l) && t !in r.queue
    requires NodesInv(s) && RolesMatch(s, l, r) && QueueInv(s, l, r.queue)
    ensures QueueInv(s', l, r.queue + [t])
  {
    var q, q' := r.queue, r.queue + [t];
    assert FreshNode(s, s.ctxs[t]);
    forall i | 0 <= i < |q'| ensures MemberInv(s', q', i) {
      if i < |q| {
        assert MemberInv(s, q, i);
        ExchangeMember(s, s', t, l, q, i);
      } else {
        assert i > 0 ==> q[i - 1] in q;
      }
    }
    if q != [] {
      assert MemberInv(s, q, 0);
      ExchangeMember(s, s', t, l, q, 0);
      assert q[0] in q;
    }
  }

  // ----- linking behind the predecessor

  /** What linking t behind its predecessor does. */
  ghost predicate Linked(s: State, s': State, t: nat) {
    && t < |s.ctxs| && s.ctxs[t].pc.Link?
    && s'.ctxs == s.ctxs[t := s.ctxs[t].(pc := WaitGrant)]
    && s'.locks == s.locks
    && s'.nodes == s.nodes[s.ctxs[t].pc.prev := NodeAt(s, s.ctxs[t].pc.prev).(next := Some(s.ctxs[t].Mine()))]
  }

  lemma LinkStep(s: State, t: nat, start: Start)
    requires t < |s.ctxs| && s.ctxs[t].lock < |s.locks| && start.lock < |s.locks| && s.ctxs[t].pc.Link?
    ensures Linked(s, Step(s, t, start), t)
  {
  }

  lemma LinkPreserves(s: State, t: nat, start: Start, r: Roles)
    requires NodesInv(s) && t < |s.ctxs| && start.lock < |s.locks|
    requires LockInv(s, s.ctxs[t].lock, r)
    requires s.ctxs[t].pc.Link?
    ensures LockInv(Step(s, t, start), s.ctxs[t].lock, r)
    ensures exists i :: 0 < i < |r.queue| && r.queue[i] == t && s.ctxs[t].pc.prev == s.ctxs[r.queue[i - 1]].Mine()
  {
    var q := r.queue;
    assert t in q;
    var i :| 0 <= i < |q| && q[i] == t;
    assert MemberInv(s, q, i);
    LinkStep(s, t, start);
    LinkedKept(s, Step(s, t, start), t, r, i);
  }

  lemma LinkedKept(s: State, s': State, t: nat, r: Roles, i: nat)
    requires NodesInv(s) && Linked(s, s', t) && LockInv(s, s.ctxs[t].lock, r)
    requires 0 < i < |r.queue| && r.queue[i] == t && s.ctxs[t].pc.prev == s.ctxs[r.queue[i - 1]].Mine()
    ensures LockInv(s', s.ctxs[t].lock, r)
  {
    LinkRoles(s, s', t, r);
    assert forall k :: 0 <= k < |r.queue| ==> r.queue[k] in r.queue;
    LinkQueue(s, s', t, r.queue, i);
    LinkRest(s, s', t, r);
  }

  lemma LinkRoles(s: State, s': State, t: nat, r: Roles)
    requires Linked(s, s', t) && s.ctxs[t].lock < |s.locks| && RolesMatch(s, s.ctxs[t].lock, r)
    ensures RolesMatch(s', s.ctxs[t].lock, r)
  {
  }

  lemma LinkRest(s: State, s': State, t: nat, r: Roles)
    requires Linked(s, s', t) && LockInv(s, s.ctxs[t].lock, r) && RolesMatch(s', s.ctxs[t].lock, r)
    ensures ClaimInv(s', s.ctxs[t].lock, r) && HelperInv(s', s.ctxs[t].lock, r) && LogInv(s', s.ctxs[t].lock, r)
  {
    assert r.queue != [] ==> r.queue[0] != t by {
      assert r.queue != [] ==> HeadInv(s, r.queue);
    }
  }

  lemma LinkQueue(s: State, s': State, t: nat, q: seq<nat>, i: nat)
    requires NodesInv(s) && Linked(s, s', t) && s.ctxs[t].lock < |s.locks|
    requires forall k :: 0 <= k < |q| ==> q[k] < |s.ctxs|
    requires forall k :: 0 <= k < |q| ==> InQueue(s.ctxs[q[k]].pc)
    requires forall i, j :: 0 <= i < j < |q| ==> q[i] != q[j]
    requires QueueInv(s, s.ctxs[t].lock, q)
    requires 0 < i < |q| && q[i] == t && s.ctxs[t].pc.prev == s.ctxs[q[i - 1]].Mine()
    ensures QueueInv(s', s.ctxs[t].lock, q)
  {
    forall k: nat | k < |q| ensures MemberInv(s', q, k) {
      assert MemberInv(s, q, k);
      LinkMember(s, s', t, q, i, k);
    }
    LinkHead(s, s', t, q, i);
  }

  lemma LinkMember(s: State, s': State, t: nat, q: seq<nat>, i: nat, k: nat)
    requires NodesInv(s) && Linked(s, s', t) && 0 < i < |q| && k < |q| && q[i] == t
    requires forall k :: 0 <= k < |q| ==> q[k] < |s.ctxs|
    requires forall k :: 0 <= k < |q| ==> InQueue(s.ctxs[q[k]].pc)
    requires forall i, j :: 0 <= i < j < |q| ==> q[i] != q[j]
    requires s.ctxs[t].pc.prev == s.ctxs[q[i - 1]].Mine() && MemberInv(s, q, k)
    ensures MemberInv(s', q, k)
  {
    if k != i - 1 {
      assert q[k] != q[i - 1];
      assert NodeAt(s', s.ctxs[q[k]].Mine()) == NodeAt(s, s.ctxs[q[k]].Mine());
    }
  }

  lemma LinkHead(s: State, s': State, t: nat, q: seq<nat>, i: nat)
    requires Linked(s, s', t) && 0 < i < |q| && q[i] == t && forall k :: 0 <= k < |q| ==> q[k] < |s.ctxs|
    requires forall i, j :: 0 <= i < j < |q| ==> q[i] != q[j]
    requires s.ctxs[t].pc.prev == s.ctxs[q[i - 1]].Mine()
    requires HeadInv(s, q) && MemberInv(s, q, 0) && MemberInv(s', q, 0)
    ensures HeadInv(s', q)
  {
    assert NodeAt(s', s.ctxs[q[0]].Mine()).locked == NodeAt(s, s.ctxs[q[0]].Mine()).locked;
  }

  // ----- moves of the queue head

  /** Only the head of the queue is past its grant. */
  lemma HeadIsFirst(s: State, t: nat, l: nat, r: Roles)
    requires l < |s.locks| && RolesMatch(s, l, r) && QueueInv(s, l, r.queue)
    requires On(s, l, t) && InQueue(s.ctxs[t].pc) && !s.ctxs[t].pc.Link?
    requires s.ctxs[t].pc.WaitGrant? ==> NodeAt(s, s.ctxs[t].Mine()).locked
    ensures r.queue != [] && r.queue[0] == t
    ensures MemberInv(s, r.queue, 0) && HeadInv(s, r.queue)
  {
    assert t in r.queue;
    var i :| 0 <= i < |r.queue| && r.queue[i] == t;
    assert MemberInv(s, r.queue, i);
  }

  /** The context moves on; no shared access but a read. */
  ghost predicate Moved(s: State, s': State, t: nat, pc: Pc) {
    && t < |s.ctxs|
    && s'.ctxs == s.ctxs[t := s.ctxs[t].(pc := pc)]
    && s'.locks == s.locks
    && s'.nodes == s.nodes
  }

  lemma HeadMoveQueue(s: State, s': State, t: nat, l: nat, pc: Pc, q: seq<nat>)
    requires Moved(s, s', t, pc) && l < |s.locks| && InQueue(pc) && !pc.Link? && !s.ctxs[t].pc.Link?
    requires q != [] && q[0] == t && forall k :: 0 <= k < |q| ==> q[k] < |s.ctxs|
    requires forall i, j :: 0 <= i < j < |q| ==> q[i] != q[j]
    requires QueueInv(s, l, q)
    requires pc.WaitGrant? ==> s.ctxs[t].pc.WaitGrant?
    requires pc.HeadWait? || pc.ClaimCas? || pc.SetLocked? ==> pc.seen.Some? ==> pc.seen == LinkedAfter(s, q, 0)
    requires pc.Pass? ==> Some(pc.succ) == LinkedAfter(s, q, 0)
    ensures QueueInv(s', l, q)
  {
    forall i | 0 <= i < |q| ensures MemberInv(s', q, i) {
      assert MemberInv(s, q, i);
    }
    assert LinkedAfter(s', q, 0) == LinkedAfter(s, q, 0);
  }

  /** The head may go on to pc; `helper` is on its way into the queue if the head will wait for a successor. */
  ghost predicate HeadMove(s: State, t: nat, l: nat, pc: Pc, r: Roles, helper: nat)
    requires l < |s.locks| && RolesMatch(s, l, r)
  {
    && On(s, l, t) && r.queue != [] && r.queue[0] == t && InQueue(s.ctxs[t].pc) && !s.ctxs[t].pc.Link?
    && InQueue(pc) && !pc.Link? && (pc.WaitGrant? ==> s.ctxs[t].pc.WaitGrant?)
    && Owns(pc) == Owns(s.ctxs[t].pc)
    && (pc.HeadWait? || pc.ClaimCas? || pc.SetLocked? ==> pc.seen.Some? ==> pc.seen == LinkedAfter(s, r.queue, 0))
    && (pc.Pass? ==> Some(pc.succ) == LinkedAfter(s, r.queue, 0))
    && (Claiming(pc) ==> Claiming(s.ctxs[t].pc) || (!s.locks[l].word.locked && !s.locks[l].word.pending))
    && (|r.queue| == 1 && (pc.SetLocked? || pc.WaitNext?) ==>
          On(s, l, helper) && helper != t && Queueing(s.ctxs[helper].pc))
  }

  ghost predicate HeadCanMove(s: State, t: nat, l: nat, pc: Pc, r: Roles)
    requires l < |s.locks| && RolesMatch(s, l, r)
  {
    exists helper :: HeadMove(s, t, l, pc, r, helper)
  }

  lemma HeadMovePreserves(s: State, s': State, t: nat, l: nat, pc: Pc, r: Roles) returns (r': Roles)
    requires LockInv(s, l, r) && Moved(s, s', t, pc) && HeadCanMove(s, t, l, pc, r)
    ensures LockInv(s', l, r')
  {
    var helper :| HeadMove(s, t, l, pc, r, helper);
    r' := r.(helper := helper);
    HeadMoveRoles(s, s', t, l, pc, r, helper);
    HeadMoveQueue(s, s', t, l, pc, r.queue);
    HeadMoveClaims(s, s', t, l, pc, r, helper);
  }

  lemma HeadMoveRoles(s: State, s': State, t: nat, l: nat, pc: Pc, r: Roles, helper: nat)
    requires l < |s.locks| && RolesMatch(s, l, r) && Moved(s, s', t, pc) && HeadMove(s, t, l, pc, r, helper)
    ensures RolesMatch(s', l, r.(helper := helper))
  {
  }

  lemma HeadMoveClaims(s: State, s': State, t: nat, l: nat, pc: Pc, r: Roles, helper: nat)
    requires l < |s.locks| && RolesMatch(s, l, r) && Moved(s, s', t, pc) && HeadMove(s, t, l, pc, r, helper)
    requires RolesMatch(s', l, r.(helper := helper)) && ClaimInv(s, l, r) && LogInv(s, l, r)
    ensures
      var r' := r.(helper := helper);
      ClaimInv(s', l, r') && HelperInv(s', l, r') && LogInv(s', l, r')
  {
  }

  /** The head claims the lock: the word and the grant log change with its access. */
  ghost predicate Claimed(s: State, s': State, t: nat, l: nat, w: Word, pc: Pc) {
    && On(s, l, t) && l < |s.locks|
    && s'.ctxs == s.ctxs[t := s.ctxs[t].(pc := pc)]
    && s'.locks == s.locks[l := Lock(w, s.locks[l].arrived, s.locks[l].granted + [t])]
    && s'.nodes == s.nodes
  }

  /** A head that is alone empties the queue with its claim. */
  lemma ClaimAlonePreserves(s: State, s': State, t: nat, l: nat, r: Roles)
    requires LockInv(s, l, r) && Claimed(s, s', t, l, Word(None, false, true), Release)
    requires s.ctxs[t].pc.ClaimCas? && NodesInv(s)
    requires s.locks[l].word == Word(Some(s.ctxs[t].Mine()), false, false)
    ensures LockInv(s', l, r.(owner := Some(t), queue := []))
    ensures r.queue == [t]
  {
    HeadIsFirst(s, t, l, r);
    HeadIsLast(s, t, l, r);
    ClaimAloneRoles(s, s', t, l, r);
    ClaimAloneLog(s, s', t, l, r);
  }

  /** A head whose node is the tail is alone. */
  lemma HeadIsLast(s: State, t: nat, l: nat, r: Roles)
    requires NodesInv(s) && l < |s.locks| && RolesMatch(s, l, r) && QueueInv(s, l, r.queue)
    requires r.queue != [] && r.queue[0] == t && s.locks[l].word.tail == Some(s.ctxs[t].Mine())
    ensures r.queue == [t]
  {
    var q := r.queue;
    assert q[|q| - 1] in q && q[0] in q;
  }

  lemma ClaimAloneLog(s: State, s': State, t: nat, l: nat, r: Roles)
    requires l < |s.locks| && RolesMatch(s, l, r) && LogInv(s, l, r) && r.queue == [t] && r.owner.None?
    requires Claimed(s, s', t, l, Word(None, false, true), Release)
    requires RolesMatch(s', l, r.(owner := Some(t), queue := []))
    ensures LogInv(s', l, r.(owner := Some(t), queue := []))
  {
    var left :| s.locks[l].arrived == left + r.queue && s.locks[l].granted == left + [];
    assert s'.locks[l].arrived == (left + [t]) + [] && s'.locks[l].granted == (left + [t]) + [];
  }

  lemma ClaimAloneRoles(s: State, s': State, t: nat, l: nat, r: Roles)
    requires l < |s.locks| && RolesMatch(s, l, r) && r.owner.None? && r.pender.None? && r.queue == [t]
    requires Claimed(s, s', t, l, Word(None, false, true), Release)
    ensures RolesMatch(s', l, r.(owner := Some(t), queue := []))
  {
    forall u: nat | u < |s'.ctxs| && u != t ensures s'.ctxs[u] == s.ctxs[u]
        && !(s.ctxs[u].lock == l && InQueue(s.ctxs[u].pc)) {
      assert u !in r.queue;
    }
  }

  /** A head with company, or one that met a pending bit, takes the lock and keeps its place. */
  lemma SetLockedPreserves(s: State, s': State, t: nat, l: nat, pc: Pc, r: Roles)
    requires LockInv(s, l, r) && Claimed(s, s', t, l, s.locks[l].word.(locked := true), pc)
    requires s.ctxs[t].pc.SetLocked?
    requires pc == (if s.ctxs[t].pc.seen.Some? then Pass(s.ctxs[t].pc.seen.value) else WaitNext)
    ensures LockInv(s', l, r.(owner := Some(t)))
  {
    HeadIsFirst(s, t, l, r);
    var r' := r.(owner := Some(t));
    var q := r.queue;
    SetLockedRoles(s, s', t, l, pc, r);
    var mid := s.(ctxs := s.ctxs[t := s.ctxs[t].(pc := pc)]);
    HeadMoveQueue(s, mid, t, l, pc, q);
    QueueFrame(mid, s', l, q);
    var left :| s.locks[l].arrived == left + q && s.locks[l].granted == left + [];
    assert s'.locks[l].arrived == left + q && s'.locks[l].granted == left + [q[0]];
  }

  lemma SetLockedRoles(s: State, s': State, t: nat, l: nat, pc: Pc, r: Roles)
    requires l < |s.locks| && RolesMatch(s, l, r) && r.owner.None? && r.pender != Some(t) && t in r.queue
    requires Claimed(s, s', t, l, s.locks[l].word.(locked := true), pc) && (pc.Pass? || pc.WaitNext?)
    ensures RolesMatch(s', l, r.(owner := Some(t)))
  {
    forall u: nat | u < |s'.ctxs| ensures u in r.queue <==> s'.ctxs[u].lock == l && InQueue(s'.ctxs[u].pc) {
      assert u in r.queue <==> s.ctxs[u].lock == l && InQueue(s.ctxs[u].pc);
    }
  }

  // ----- passing the MCS lock on

  ghost predicate Passed(s: State, s': State, t: nat, l: nat) {
    && On(s, l, t) && l < |s.locks| && s.ctxs[t].pc.Pass?
    && s'.ctxs == s.ctxs[t := s.ctxs[t].(pc := Release)]
    && s'.locks == s.locks
    && s'.nodes == s.nodes[s.ctxs[t].pc.succ := NodeAt(s, s.ctxs[t].pc.succ).(locked := true)]
  }

  lemma PassMember(s: State, s': State, t: nat, l: nat, q: seq<nat>, i: nat)
    requires NodesInv(s) && Passed(s, s', t, l) && 0 < i < |q| && q[0] == t
    requires forall k :: 0 <= k < |q| ==> q[k] < |s.ctxs|
    requires forall k :: 0 <= k < |q| ==> InQueue(s.ctxs[q[k]].pc)
    requires forall i, j :: 0 <= i < j < |q| ==> q[i] != q[j]
    requires s.ctxs[t].pc.succ == s.ctxs[q[1]].Mine()
    requires MemberInv(s, q, i)
    ensures MemberInv(s', q[1..], i - 1)
    ensures i == 1 ==> NodeAt(s', s'.ctxs[q[1]].Mine()).locked
  {
    var q' := q[1..];
    assert q'[i - 1] == q[i] && q[i] != t;
    assert i + 1 < |q| ==> q'[i] == q[i + 1] && q[i + 1] != t;
    assert i > 1 ==> q'[i - 2] == q[i - 1] && q[i - 1] != t && q[i] != q[1];
  }

  lemma PassQueue(s: State, s': State, t: nat, l: nat, q: seq<nat>)
    requires NodesInv(s) && Passed(s, s', t, l) && |q| > 1 && q[0] == t
    requires forall k :: 0 <= k < |q| ==> q[k] < |s.ctxs|
    requires forall k :: 0 <= k < |q| ==> InQueue(s.ctxs[q[k]].pc)
    requires forall i, j :: 0 <= i < j < |q| ==> q[i] != q[j]
    requires s.ctxs[t].pc.succ == s.ctxs[q[1]].Mine() && s.ctxs[q[1]].pc.WaitGrant?
    requires QueueInv(s, l, q)
    ensures QueueInv(s', l, q[1..])
  {
    forall i | 0 <= i < |q[1..]| ensures MemberInv(s', q[1..], i) {
      assert MemberInv(s, q, i + 1);
      PassMember(s, s', t, l, q, i + 1);
    }
    assert MemberInv(s, q, 1);
    PassMember(s, s', t, l, q, 1);
  }

  lemma PassPreserves(s: State, s': State, t: nat, l: nat, r: Roles)
    requires NodesInv(s) && LockInv(s, l, r) && Passed(s, s', t, l)
    ensures |r.queue| > 1 && r.queue[0] == t && s.ctxs[t].pc.succ == s.ctxs[r.queue[1]].Mine()
    ensures s.ctxs[r.queue[1]].pc.WaitGrant?
    ensures LockInv(s', l, r.(queue := r.queue[1..]))
  {
    HeadIsFirst(s, t, l, r);
    var q := r.queue;
    forall k | 0 <= k < |q| ensures InQueue(s.ctxs[q[k]].pc) {
      assert q[k] in q;
    }
    assert MemberInv(s, q, 1);
    PassRoles(s, s', t, l, r);
    PassQueue(s, s', t, l, q);
    PassLog(s, s', t, l, r);
  }

  lemma PassRoles(s: State, s': State, t: nat, l: nat, r: Roles)
    requires Passed(s, s', t, l) && RolesMatch(s, l, r) && r.queue != [] && r.queue[0] == t
    ensures RolesMatch(s', l, r.(queue := r.queue[1..]))
  {
    var q := r.queue;
    forall u: nat | u < |s.ctxs| ensures u in q[1..] <==> u in q && u != t {
      if u in q && u != t {
        var i :| 0 <= i < |q| && q[i] == u;
        assert q[1..][i - 1] == u;
      }
    }
  }

  lemma PassLog(s: State, s': State, t: nat, l: nat, r: Roles)
    requires Passed(s, s', t, l) && RolesMatch(s, l, r) && |r.queue| > 1 && r.queue[0] == t
    requires LogInv(s, l, r) && RolesMatch(s', l, r.(queue := r.queue[1..]))
    ensures LogInv(s', l, r.(queue := r.queue[1..]))
  {
    var q := r.queue;
    var left :| s.locks[l].arrived == left + q && s.locks[l].granted == left + [q[0]];
    assert left + q == (left + [q[0]]) + q[1..];
  }

  // ----- one step of any context

  lemma HeadReadsPreserve(s: State, t: nat, start: Start, r: Roles) returns (r': Roles)
    requires NodesInv(s) && t < |s.ctxs| && start.lock < |s.locks|
    requires LockInv(s, s.ctxs[t].lock, r)
    requires HeadReads(s, t)
    ensures LockInv(Step(s, t, start), s.ctxs[t].lock, r')
  {
    var l, pc := s.ctxs[t].lock, EffectOf(s, t, start).ctx.pc;
    HeadReadStep(s, t, start);
    HeadReadIsSafe(s, t, start, r);
    r' := HeadMovePreserves(s, Step(s, t, start), t, l, pc, r);
  }

  /** The head of the queue is at an access that only reads, or at a claim that fails. */
  ghost predicate HeadReads(s: State, t: nat)
    requires t < |s.ctxs| && s.ctxs[t].lock < |s.locks|
  {
    var c := s.ctxs[t];
    || (c.pc.WaitGrant? && NodeAt(s, c.Mine()).locked)
    || c.pc.ReadNext? || c.pc.HeadWait? || c.pc.WaitNext?
    || (c.pc.ClaimCas? && s.locks[c.lock].word != Word(Some(c.Mine()), false, false))
  }

  lemma HeadReadStep(s: State, t: nat, start: Start)
    requires t < |s.ctxs| && s.ctxs[t].lock < |s.locks| && start.lock < |s.locks| && HeadReads(s, t)
    ensures Moved(s, Step(s, t, start), t, EffectOf(s, t, start).ctx.pc)
  {
  }

  lemma HeadReadIsSafe(s: State, t: nat, start: Start, r: Roles)
    requires t < |s.ctxs| && s.ctxs[t].lock < |s.locks| && start.lock < |s.locks| && HeadReads(s, t)
    requires LockInv(s, s.ctxs[t].lock, r)
    ensures HeadCanMove(s, t, s.ctxs[t].lock, EffectOf(s, t, start).ctx.pc, r)
  {
    var c, pc := s.ctxs[t], EffectOf(s, t, start).ctx.pc;
    HeadIsFirst(s, t, c.lock, r);
    var helper := if r.pender.Some? && c.pc.ClaimCas? then r.pender.value else r.helper;
    assert HeadMove(s, t, c.lock, pc, r, helper);
  }

  lemma QueuedPreserves(s: State, t: nat, start: Start, r: Roles) returns (r': Roles)
    requires NodesInv(s) && t < |s.ctxs| && start.lock < |s.locks|
    requires LockInv(s, s.ctxs[t].lock, r)
    requires InQueue(s.ctxs[t].pc)
    ensures LockInv(Step(s, t, start), s.ctxs[t].lock, r')
  {
    var c := s.ctxs[t];
    var s' := Step(s, t, start);
    r' := r;
    if c.pc.Link? {
      LinkPreserves(s, t, start, r);
    } else if c.pc.SetLocked? {
      SetLockedPreserves(s, s', t, c.lock, EffectOf(s, t, start).ctx.pc, r);
      r' := r.(owner := Some(t));
    } else if c.pc.Pass? {
      PassPreserves(s, s', t, c.lock, r);
      r' := r.(queue := r.queue[1..]);
    } else if c.pc.ClaimCas? && s.locks[c.lock].word == Word(Some(c.Mine()), false, false) {
      ClaimAlonePreserves(s, s', t, c.lock, r);
      r' := r.(owner := Some(t), queue := []);
    } else if c.pc.WaitGrant? && !NodeAt(s, c.Mine()).locked {
      OtherFrame(s, s', c.lock, r);
    } else {
      r' := HeadReadsPreserve(s, t, start, r);
    }
  }

  /** The nodes a link or a hand-over writes belong to neighbours in the same queue. */
  lemma WritesAreQueued(s: State, t: nat, r: Roles)
    requires NodesInv(s) && t < |s.ctxs| && LockInv(s, s.ctxs[t].lock, r)
    ensures s.ctxs[t].pc.Link? ==> IsQueuedNode(s, t, s.ctxs[t].pc.prev)
    ensures s.ctxs[t].pc.Pass? ==> IsQueuedNode(s, t, s.ctxs[t].pc.succ)
  {
    var q := r.queue;
    if s.ctxs[t].pc.Link? {
      assert t in q;
      var i :| 0 <= i < |q| && q[i] == t;
      assert MemberInv(s, q, i);
      assert i > 0 ==> q[i - 1] in q;
    } else if s.ctxs[t].pc.Pass? {
      HeadIsFirst(s, t, s.ctxs[t].lock, r);
      assert q[1] in q;
    }
  }

  /** A wait that goes on changes nothing but the (unread) shape of the count map. */
  lemma OtherFrame(s: State, s': State, l: nat, r: Roles)
    requires LockInv(s, l, r)
    requires s'.ctxs == s.ctxs && s'.locks == s.locks && s'.nodes == s.nodes
    ensures LockInv(s', l, r)
  {
    QueueFrame(s, s', l, r.queue);
  }

  lemma OutsideAccessPreserves(s: State, t: nat, start: Start, r: Roles) returns (r': Roles)
    requires NodesInv(s) && t < |s.ctxs| && start.lock < |s.locks|
    requires LockInv(s, EffectOf(s, t, start).ctx.lock, r) && !InQueue(s.ctxs[t].pc) && !s.ctxs[t].pc.XchgTail?
    ensures LockInv(Step(s, t, start), EffectOf(s, t, start).ctx.lock, r')
  {
    var c, e := s.ctxs[t], EffectOf(s, t, start);
    assert r.owner == Some(t) <==> c.lock == e.ctx.lock && Owns(c.pc);
    assert r.pender == Some(t) <==> c.lock == e.ctx.lock && HoldsPending(c.pc);
    AccessMovesOutside(s, t, start);
    OutsidePreserves(s, t, e, e.ctx.lock, r);
    r' := RolesAfter(r, t, c.pc, e.ctx.pc);
  }

  lemma LockPreserved(s: State, t: nat, start: Start, r: Roles) returns (r': Roles)
    requires NodesInv(s) && t < |s.ctxs| && start.lock < |s.locks|
    requires LockInv(s, EffectOf(s, t, start).ctx.lock, r)
    ensures LockInv(Step(s, t, start), EffectOf(s, t, start).ctx.lock, r')
  {
    var c := s.ctxs[t];
    if InQueue(c.pc) {
      r' := QueuedPreserves(s, t, start, r);
    } else if c.pc.XchgTail? {
      ExchangePreserves(s, Step(s, t, start), t, c.lock, r);
      r' := r.(queue := r.queue + [t]);
    } else {
      r' := OutsideAccessPreserves(s, t, start, r);
    }
  }

  lemma EffectStaysOnLock(s: State, t: nat, start: Start)
    requires t < |s.ctxs| && s.ctxs[t].lock < |s.locks|
    ensures EffectOf(s, t, start).ctx.lock == if s.ctxs[t].pc.Idle? then start.lock else s.ctxs[t].lock
    ensures s.ctxs[t].pc.Idle? ==> EffectOf(s, t, start).lock == s.locks[s.ctxs[t].lock]
    ensures
      var w := EffectOf(s, t, start).write;
      || w.NoWrite?
      || (w.node == s.ctxs[t].Mine() && Counted(s.ctxs[t].pc))
      || (s.ctxs[t].pc.Link? && w.node == s.ctxs[t].pc.prev)
      || (s.ctxs[t].pc.Pass? && w.node == s.ctxs[t].pc.succ)
  {
  }

  lemma OtherLocksPreserved(s: State, t: nat, start: Start, l: nat, r: Roles)
    requires NodesInv(s) && t < |s.ctxs| && start.lock < |s.locks|
    requires LockInv(s, l, r) && l != EffectOf(s, t, start).ctx.lock
    requires s.ctxs[t].pc.Link? ==> IsQueuedNode(s, t, s.ctxs[t].pc.prev)
    requires s.ctxs[t].pc.Pass? ==> IsQueuedNode(s, t, s.ctxs[t].pc.succ)
    ensures LockInv(Step(s, t, start), l, r)
  {
    EffectStaysOnLock(s, t, start);
    var e := EffectOf(s, t, start);
    OtherLockNodes(s, t, e, l);
    OtherLockKept(s, Apply(s, t, e), t, l, r);
  }

  lemma OtherLockNodes(s: State, t: nat, e: Effect, l: nat)
    requires NodesInv(s) && t < |s.ctxs|
    requires s.ctxs[t].lock == l ==> !Counted(s.ctxs[t].pc)
    requires
      || e.write.NoWrite?
      || (e.write.node == s.ctxs[t].Mine() && Counted(s.ctxs[t].pc))
      || (Counted(s.ctxs[t].pc) && IsQueuedNode(s, t, e.write.node))
    ensures forall u :: 0 <= u < |s.ctxs| && s.ctxs[u].lock == l && InQueue(s.ctxs[u].pc) ==>
              NodeAt(Apply(s, t, e), s.ctxs[u].Mine()) == NodeAt(s, s.ctxs[u].Mine())
  {
  }

  /** Every step keeps the invariant of every lock. */
  lemma StepPreserves(s: State, t: nat, start: Start, rs: seq<Roles>) returns (rs': seq<Roles>)
    requires Inv(s, rs) && t < |s.ctxs| && start.lock < |s.locks|
    ensures Inv(Step(s, t, start), rs')
  {
    var s' := Step(s, t, start);
    EffectStaysOnLock(s, t, start);
    var l := EffectOf(s, t, start).ctx.lock;
    var r' := LockPreserved(s, t, start, rs[l]);
    if !s.ctxs[t].pc.Idle? {
      WritesAreQueued(s, t, rs[l]);
    }
    NodesKept(s, t, start);
    rs' := rs[l := r'];
    forall k | 0 <= k < |rs'| ensures LockInv(s', k, rs'[k]) {
      if k != l {
        OtherLocksPreserved(s, t, start, k, rs[k]);
      }
    }
  }

  lemma InitHolds(s: State) returns (rs: seq<Roles>)
    requires Init(s)
    ensures Inv(s, rs)
  {
    rs := seq(|s.locks|, i => Roles(None, None, [], 0));
    forall l | 0 <= l < |rs| ensures LockInv(s, l, rs[l]) {
      assert s.locks[l].arrived == [] + rs[l].queue && s.locks[l].granted == [] + [];
    }
  }

  lemma {:induction false} RunHasRoles(run: seq<State>, i: nat) returns (rs: seq<Roles>)
    requires IsRun(run) && i < |run|
    ensures Inv(run[i], rs)
  {
    if i == 0 {
      rs := InitHolds(run[0]);
    } else {
      var before := RunHasRoles(run, i - 1);
      assert Next(run[i - 1], run[i - 1 + 1]);
      var t: nat, start: Start :|
        t < |run[i - 1].ctxs| && run[i - 1].ctxs[t].lock < |run[i - 1].locks| && start.lock < |run[i - 1].locks|
        && run[i] == Step(run[i - 1], t, start);
      rs := StepPreserves(run[i - 1], t, start, before);
    }
  }

  // ----- what holds in every state of every run

  /** At most one context owns a lock, and the locked byte is set exactly when one does. */
  ghost predicate Exclusive(s: State, l: nat) {
    && l < |s.locks|
    && (forall t: nat, u: nat :: On(s, l, t) && On(s, l, u) && Owns(s.ctxs[t].pc) && Owns(s.ctxs[u].pc) ==> t == u)
    && (s.locks[l].word.locked <==> exists t: nat :: On(s, l, t) && Owns(s.ctxs[t].pc))
  }

  /** At most one context answers for the pending bit, and the bit is set exactly when one does. */
  ghost predicate PendingAnswered(s: State, l: nat) {
    && l < |s.locks|
    && (forall t: nat, u: nat ::
          On(s, l, t) && On(s, l, u) && HoldsPending(s.ctxs[t].pc) && HoldsPending(s.ctxs[u].pc) ==> t == u)
    && (s.locks[l].word.pending <==> exists t: nat :: On(s, l, t) && HoldsPending(s.ctxs[t].pc))
  }

  lemma MutualExclusion(run: seq<State>, i: nat, l: nat)
    requires IsRun(run) && i < |run| && l < |run[i].locks|
    ensures Exclusive(run[i], l)
    ensures PendingAnswered(run[i], l)
  {
    var rs := RunHasRoles(run, i);
    var s := run[i];
    var r := rs[l];
    assert LockInv(s, l, r);
    assert r.owner.Some? ==> On(s, l, r.owner.value) && Owns(s.ctxs[r.owner.value].pc);
    assert r.pender.Some? ==> On(s, l, r.pender.value) && HoldsPending(s.ctxs[r.pender.value].pc);
  }

  /** The pending context that is about to take the lock finds it pending and unlocked. */
  lemma TakesOnlyFree(run: seq<State>, i: nat, t: nat)
    requires IsRun(run) && i < |run| && t < |run[i].ctxs| && run[i].ctxs[t].lock < |run[i].locks|
    ensures run[i].ctxs[t].pc.TakePending? ==>
              run[i].locks[run[i].ctxs[t].lock].word.pending && !run[i].locks[run[i].ctxs[t].lock].word.locked
    ensures Claiming(run[i].ctxs[t].pc) ==> !run[i].locks[run[i].ctxs[t].lock].word.locked
    ensures run[i].ctxs[t].pc.UndoPending? ==> run[i].locks[run[i].ctxs[t].lock].word.pending
    ensures Owns(run[i].ctxs[t].pc) ==> run[i].locks[run[i].ctxs[t].lock].word.locked
  {
    var rs := RunHasRoles(run, i);
    var l := run[i].ctxs[t].lock;
    assert LockInv(run[i], l, rs[l]);
    if Claiming(run[i].ctxs[t].pc) {
      HeadIsFirst(run[i], t, l, rs[l]);
    }
  }

  /** Claims by queue heads follow the order of the tail exchanges. */
  lemma GrantsFollowArrivals(run: seq<State>, i: nat, l: nat)
    requires IsRun(run) && i < |run| && l < |run[i].locks|
    ensures run[i].locks[l].granted <= run[i].locks[l].arrived
  {
    var rs := RunHasRoles(run, i);
    var r := rs[l];
    assert LockInv(run[i], l, r);
    var served := if r.queue != [] && r.owner == Some(r.queue[0]) then [r.queue[0]] else [];
    var left :| run[i].locks[l].arrived == left + r.queue && run[i].locks[l].granted == left + served;
    assert served <= r.queue;
  }

  /** A link writes into the node of a live member of the same queue, and so does a hand-over. */
  lemma WritesReachLiveNodes(run: seq<State>, i: nat, t: nat)
    requires IsRun(run) && i < |run| && t < |run[i].ctxs| && run[i].ctxs[t].lock < |run[i].locks|
    ensures run[i].ctxs[t].pc.Link? ==> IsQueuedNode(run[i], t, run[i].ctxs[t].pc.prev)
    ensures run[i].ctxs[t].pc.Pass? ==> IsQueuedNode(run[i], t, run[i].ctxs[t].pc.succ)
  {
    var rs := RunHasRoles(run, i);
    var l := run[i].ctxs[t].lock;
    assert LockInv(run[i], l, rs[l]);
    WritesAreQueued(run[i], t, rs[l]);
  }

  /** Contexts that fall back are nested four deep or more. */
  ghost predicate FallbackInv(s: State) {
    forall t :: 0 <= t < |s.ctxs| && InFallback(s.ctxs[t].pc) ==> s.ctxs[t].idx >= MAX_NODES
  }

  lemma FallbackKept(s: State, t: nat, start: Start)
    requires FallbackInv(s) && t < |s.ctxs| && s.ctxs[t].lock < |s.locks| && start.lock < |s.locks|
    ensures FallbackInv(Step(s, t, start))
  {
    var c, c' := s.ctxs[t], Step(s, t, start).ctxs[t];
    assert InFallback(c'.pc) ==> c.pc.Enqueue? || InFallback(c.pc);
  }

  lemma {:induction false} FallbackIsDeep(run: seq<State>, i: nat)
    requires IsRun(run) && i < |run|
    ensures FallbackInv(run[i])
  {
    if i > 0 {
      FallbackIsDeep(run, i - 1);
      assert Next(run[i - 1], run[i - 1 + 1]);
      var t: nat, start: Start :|
        t < |run[i - 1].ctxs| && run[i - 1].ctxs[t].lock < |run[i - 1].locks| && start.lock < |run[i - 1].locks|
        && run[i] == Step(run[i - 1], t, start);
      FallbackKept(run[i - 1], t, start);
    }
  }

  /**
   A head that owns the lock and waits for its successor has one: linked, linking, or committed to the tail
   exchange; or there is a context on the lock that is nested four deep and fell back.
   */
  lemma SuccessorIsComing(run: seq<State>, i: nat, t: nat)
    requires IsRun(run) && i < |run| && t < |run[i].ctxs| && run[i].ctxs[t].lock < |run[i].locks|
    requires run[i].ctxs[t].pc.WaitNext?
    ensures
      var s, c := run[i], run[i].ctxs[t];
      || NodeAt(s, c.Mine()).next.Some?
      || (exists u: nat :: On(s, c.lock, u) && s.ctxs[u].pc == Link(c.Mine()))
      || (exists u: nat :: On(s, c.lock, u) && Committed(s.ctxs[u].pc))
      || (exists u: nat :: On(s, c.lock, u) && InFallback(s.ctxs[u].pc) && s.ctxs[u].idx >= MAX_NODES)
  {
    var rs := RunHasRoles(run, i);
    var s := run[i];
    var l := s.ctxs[t].lock;
    var r := rs[l];
    assert LockInv(s, l, r);
    HeadIsFirst(s, t, l, r);
    FallbackIsDeep(run, i);
    if |r.queue| > 1 {
      assert MemberInv(s, r.queue, 1);
      assert r.queue[1] in r.queue;
      assert On(s, l, r.queue[1]);
    }
  }

  /** How many steps a committed context is away from the tail exchange, at most. */
  function ToExchange(pc: Pc): nat
    requires Committed(pc)
  {
    match pc
    case UndoPending => 7
    case Enqueue => 6
    case InitLocked => 5
    case InitNext => 4
    case TryRead => 3
    case TryCas => 2
    case XchgTail => 1
  }

  /**
   While some context is in the queue, a committed context whose CPU is not nested four deep comes closer to its
   tail exchange with each of its steps, and the last one makes the exchange; steps of others leave it alone.
   */
  lemma CommittedExchanges(run: seq<State>, i: nat, t: nat, u: nat, v: nat, start: Start)
    requires IsRun(run) && i < |run| && t < |run[i].ctxs| && u < |run[i].ctxs| && v < |run[i].ctxs|
    requires InQueue(run[i].ctxs[t].pc) && run[i].ctxs[t].lock == run[i].ctxs[u].lock < |run[i].locks|
    requires Committed(run[i].ctxs[u].pc) && run[i].ctxs[v].lock < |run[i].locks| && start.lock < |run[i].locks|
    requires run[i].ctxs[u].pc.Enqueue? ==> Count(run[i], run[i].ctxs[u].cpu) < MAX_NODES
    ensures
      var s, s' := run[i], Step(run[i], v, start);
      var l, pc, pc' := s.ctxs[u].lock, s.ctxs[u].pc, s'.ctxs[u].pc;
      if v != u then s'.ctxs[u] == s.ctxs[u]
      else if pc.XchgTail? then pc'.Link? && s'.locks[l].arrived == s.locks[l].arrived + [u]
      else Committed(pc') && ToExchange(pc') < ToExchange(pc)
  {
    var rs := RunHasRoles(run, i);
    var l := run[i].ctxs[u].lock;
    assert LockInv(run[i], l, rs[l]);
    assert t in rs[l].queue;
    CommittedStep(run[i], u, v, start);
  }

  lemma CommittedStep(s: State, u: nat, v: nat, start: Start)
    requires u < |s.ctxs| && v < |s.ctxs| && s.ctxs[u].lock < |s.locks| && s.ctxs[v].lock < |s.locks|
    requires start.lock < |s.locks| && Committed(s.ctxs[u].pc) && s.locks[s.ctxs[u].lock].word.tail.Some?
    requires s.ctxs[u].pc.Enqueue? ==> Count(s, s.ctxs[u].cpu) < MAX_NODES
    ensures
      var s' := Step(s, v, start);
      var l, pc, pc' := s.ctxs[u].lock, s.ctxs[u].pc, s'.ctxs[u].pc;
      if v != u then s'.ctxs[u] == s.ctxs[u]
      else if pc.XchgTail? then pc'.Link? && s'.locks[l].arrived == s.locks[l].arrived + [u]
      else Committed(pc') && ToExchange(pc') < ToExchange(pc)
  {
  }
}
