/** What every state of the command queue satisfies, and the roles its threads play. */
module CommandQueueInvariant {
  import opened Common
  import opened QueuePointers
  import opened ValidMap
  import opened CommandQueue

  // ----- roles

  predicate HasRange(pc: Pc) {
    pc.WriteEntry? || pc.LockInc? || pc.LockSpin? || pc.LockCas? || pc.Mark?
  }

  /** Owner that still gathers the batches allocated behind it. */
  predicate IsGatherer(th: Thread) {
    th.owner && (HasRange(th.pc) || th.pc.WaitOwner? || th.pc.ClearOwned?)
  }

  /** Owner that has closed its range and hands it to the hardware. */
  predicate IsPublisher(th: Thread) {
    th.pc.PollValid? || th.pc.Publish? || th.pc.Handoff?
  }

  predicate HoldsExclusive(th: Thread) {
    th.pc.ExclRead? || th.pc.ExclWrite? || th.pc.ExclUnlock?
  }

  predicate IsSharer(th: Thread) {
    th.sync && (|| th.pc.Mark? || th.pc.WaitOwner? || th.pc.ClearOwned? || IsPublisher(th) || th.pc.SyncFirst?
                || th.pc.SyncPoll? || th.pc.SyncMsi? || th.pc.TryUnlock? || th.pc.SyncWrite? || th.pc.SyncDec?)
  }

  /** A sharer that has not yet let go of its slot. */
  predicate GuardsSlot(th: Thread) {
    IsSharer(th) && !th.pc.SyncDec?
  }

  datatype Roles = Roles(gatherer: Option<nat>, publisher: Option<nat>, excl: Option<nat>, writer: Option<nat>,
                         sharers: set<nat>, bumped: set<nat>)

  // ----- the invariant

  ghost predicate OrderInv(s: State) {
    s.cons <= s.hwCons <= s.hwProd <= s.prod <= s.cons + s.Size()
  }

  /** What is handed to the hardware has been marked, and what is marked has been written. */
  ghost predicate LogInv(s: State) {
    forall x :: 0 <= x < |s.log| ==>
      (x < s.hwProd ==> s.log[x].marked) && (s.log[x].marked ==> s.log[x].written)
  }

  predicate MarkedAt(s: State, x: nat) {
    x < |s.log| && s.log[x].marked
  }

  /**
   The slot of position x: its valid bit has the polarity of its lap exactly when x is marked, and
   it holds x once written.
   */
  ghost predicate PosInv(s: State, x: nat)
    requires Shaped(s)
  {
    && s.bits[Idx(s.Size(), x)] == (Polarity(s.Size(), x) == MarkedAt(s, x))
    && (x < |s.log| && s.log[x].written ==>
          s.slots[Idx(s.Size(), x)] == Holds(x, s.log[x].sync, s.msi && s.log[x].sync && x < s.hwCons))
  }

  ghost predicate WindowInv(s: State)
    requires Shaped(s)
  {
    forall x: nat {:trigger PosInv(s, x)} :: s.cons <= x < s.cons + s.Size() ==> PosInv(s, x)
  }

  function WrittenTo(th: Thread): nat {
    if th.pc.WriteEntry? then th.base + th.pc.i else th.End()
  }

  function MarkedTo(th: Thread): nat {
    if th.pc.Mark? then th.pc.m else th.base
  }

  ghost predicate RangeInv(log: seq<Pos>, t: nat, th: Thread) {
    && th.End() <= |log| && th.base <= WrittenTo(th) <= th.End() && th.base <= MarkedTo(th) <= th.End()
    && forall x :: th.base <= x < th.End() ==>
         log[x] == Pos(t, th.sync && x == th.Slot(), x < WrittenTo(th), x < MarkedTo(th))
  }

  ghost predicate ThreadInv(s: State, t: nat)
    requires Shaped(s) && t < |s.threads|
  {
    var th := s.threads[t];
    && (!th.pc.Idle? ==> th.Len() > 0)
    && (th.pc.AllocCas? ==> SpaceFor(s.Size(), th.pc.view, th.Len()))
    && (HasRange(th.pc) ==> RangeInv(s.log, t, th))
    && (th.pc.WriteEntry? ==> th.pc.i < th.Len())
    && (th.pc.Mark? ==> th.pc.m < th.End())
    && (th.pc.LockInc? || th.pc.LockSpin? || th.pc.LockCas? ==> th.sync)
    && (th.pc.LockCas? ==> th.pc.val >= 0)
    && (IsSharer(th) && !th.pc.Mark? ==> th.Slot() < |s.log| && s.log[th.Slot()].sync && s.log[th.Slot()].written)
    && (th.pc.SyncFirst? || th.pc.SyncPoll? || th.pc.SyncMsi? ==> th.sync)
    && (th.pc.TryUnlock? || th.pc.SyncWrite? || th.pc.SyncDec? ==> th.sync)
    && (th.pc.WaitOwner? || th.pc.ClearOwned? || IsPublisher(th) ==> th.owner)
  }

  ghost predicate OwnerInv(s: State, r: Roles) {
    && (r.gatherer.Some? ==> r.gatherer.value < |s.threads|)
    && (r.publisher.Some? ==> r.publisher.value < |s.threads|)
    && (forall t: nat :: t < |s.threads| ==> (r.gatherer == Some(t) <==> IsGatherer(s.threads[t])))
    && (forall t: nat :: t < |s.threads| ==> (r.publisher == Some(t) <==> IsPublisher(s.threads[t])))
    && (s.owned <==> r.gatherer.Some?)
    && (r.gatherer.Some? ==> s.threads[r.gatherer.value].base < s.prod)
    && (r.publisher.None? ==> s.ownerProd == s.hwProd == GatherFrom(s, r))
    && (r.publisher.Some? ==> PublisherInv(s, s.threads[r.publisher.value], GatherFrom(s, r)))
    && (r.gatherer.Some? && s.threads[r.gatherer.value].pc.ClearOwned? ==> r.publisher.None?)
  }

  /** Where the open range starts. */
  ghost function GatherFrom(s: State, r: Roles): nat
    requires r.gatherer.Some? ==> r.gatherer.value < |s.threads|
  {
    if r.gatherer.Some? then s.threads[r.gatherer.value].base else s.prod
  }

  function RangeEnd(pc: Pc): nat
    requires pc.PollValid? || pc.Publish? || pc.Handoff?
  {
    pc.e
  }

  ghost predicate PublisherInv(s: State, th: Thread, end: nat) {
    && IsPublisher(th)
    && RangeEnd(th.pc) == end && th.base < end <= |s.log| && end <= th.base + s.Size() && s.ownerProd == th.base
    && s.hwProd == (if th.pc.Handoff? then end else th.base)
    && (th.pc.PollValid? ==> th.base <= th.pc.q < end)
    && forall x :: th.base <= x < (if th.pc.PollValid? then th.pc.q else end) ==> s.log[x].marked
  }

  ghost predicate LockInv(s: State, r: Roles) {
    && (forall t: nat :: t < |s.threads| ==> (r.excl == Some(t) <==> HoldsExclusive(s.threads[t])))
    && (r.excl.Some? ==> r.excl.value < |s.threads| && r.sharers == {} && s.lock == INT_MIN + |r.bumped|)
    && (r.excl.None? ==> s.lock == |r.sharers|)
    && (forall t: nat :: t < |s.threads| ==> (t in r.sharers <==> IsSharer(s.threads[t])))
    && (forall t :: t in r.sharers ==> t < |s.threads|)
    && (forall t :: t in r.bumped ==> t < |s.threads| && (s.threads[t].pc.LockSpin? || s.threads[t].pc.LockCas?))
    && (r.writer.Some? ==> r.writer.value < |s.threads|)
    && (forall t: nat :: t < |s.threads| ==> (r.writer == Some(t) <==> s.threads[t].pc.SyncWrite?))
  }

  /** The shared consumer position never passes the slot of a waiting CMD_SYNC, nor the hardware's. */
  ghost predicate ConsInv(s: State, r: Roles) {
    forall t: nat :: t < |s.threads| ==> ThreadConsInv(s, r, s.threads[t], t)
  }

  ghost predicate ThreadConsInv(s: State, r: Roles, th: Thread, t: nat) {
    && (th.pc.ExclWrite? ==> s.cons <= th.pc.c <= s.hwCons)
    && (th.pc.TryUnlock? || th.pc.SyncWrite? ==> th.Slot() < th.pc.c <= s.hwCons)
    && (GuardsSlot(th) ==> s.cons <= th.Slot())
    && (GuardsSlot(th) && OtherWriter(s, r, t) ==> s.threads[r.writer.value].pc.c <= th.Slot())
  }

  ghost predicate OtherWriter(s: State, r: Roles, t: nat) {
    r.writer.Some? && r.writer.value != t && r.writer.value < |s.threads| && s.threads[r.writer.value].pc.SyncWrite?
  }

  ghost predicate Inv(s: State, r: Roles) {
    && Shaped(s)
    && OrderInv(s)
    && LogInv(s)
    && WindowInv(s)
    && (forall t: nat {:trigger ThreadInv(s, t)} :: t < |s.threads| ==> ThreadInv(s, t))
    && OwnerInv(s, r)
    && LockInv(s, r)
    && ConsInv(s, r)
  }

  /** The invariant with its roles hidden. */
  ghost predicate Good(s: State) {
    exists r :: Inv(s, r)
  }

  // ----- how a step moves a thread

  /** Only thread t moves. */
  ghost predicate Moves(s: State, s': State, t: nat) {
    && t < |s.threads| && |s'.threads| == |s.threads|
    && (forall u :: 0 <= u < |s.threads| && u != t ==> s'.threads[u] == s.threads[u])
  }

  /** Positions of other threads stay as they are, and nothing is forgotten. */
  ghost predicate LogGrows(log: seq<Pos>, log': seq<Pos>, t: nat) {
    && |log| <= |log'|
    && forall x :: 0 <= x < |log| ==>
         && (log[x].cpu != t ==> log'[x] == log[x])
         && log'[x].cpu == log[x].cpu && log'[x].sync == log[x].sync
         && (log[x].written ==> log'[x].written) && (log[x].marked ==> log'[x].marked)
  }

  predicate SameLockRole(th: Thread, th': Thread) {
    && HoldsExclusive(th') == HoldsExclusive(th) && IsSharer(th') == IsSharer(th)
        && th'.pc.SyncWrite? == th.pc.SyncWrite?
    && (th.pc.LockSpin? || th.pc.LockCas? ==> th'.pc.LockSpin? || th'.pc.LockCas?)
  }

  /** Thread t takes the state th without changing its roles. */
  ghost predicate Quiet(s: State, t: nat, th: Thread, r: Roles)
    requires Shaped(s) && t < |s.threads| && (r.gatherer.Some? ==> r.gatherer.value < |s.threads|)
  {
    var s' := s.(threads := s.threads[t := th]);
    && ThreadInv(s', t) && ThreadConsInv(s', r, th, t)
    && (IsPublisher(th) ==> PublisherInv(s', th, GatherFrom(s, r)))
    && SameLockRole(s.threads[t], th) && (th.pc.SyncWrite? ==> th.pc == s.threads[t].pc)
    && IsGatherer(th) == IsGatherer(s.threads[t]) && IsPublisher(th) == IsPublisher(s.threads[t])
    && (IsGatherer(th) ==> th.base == s.threads[t].base && (th.pc.ClearOwned? ==> r.publisher.None?))
  }

  /** Thread t changes the lock word to `lock` and goes to pc, and the roles at the lock become those of r'. */
  ghost predicate LockMove(s: State, t: nat, lock: int, pc: Pc, r: Roles, r': Roles)
    requires Shaped(s) && t < |s.threads|
  {
    var s', th := Goto(s.(lock := lock), t, pc), s.threads[t];
    && r'.gatherer == r.gatherer && r'.publisher == r.publisher && r'.writer == r.writer && !pc.SyncWrite?
    && ThreadInv(s', t) && ThreadConsInv(s', r, s'.threads[t], t) && LockInv(s', r')
    && IsGatherer(s'.threads[t]) == IsGatherer(th) && !IsPublisher(s'.threads[t]) && !IsPublisher(th) && !pc.ClearOwned?
  }

  ghost predicate CanMove(s: State, t: nat, lock: int, pc: Pc, r: Roles)
    requires Shaped(s) && t < |s.threads|
  {
    exists r' :: LockMove(s, t, lock, pc, r, r')
  }
}
