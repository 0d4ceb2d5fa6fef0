/**
 What a call of the command queue has done when it returns, over every run: its batch is in the queue, once, and a
 call with a CMD_SYNC has waited for the SMMU to consume it.
 */
module CommandQueueCalls {
  import opened Common
  import opened QueuePointers
  import opened ValidMap
  import opened CommandQueue
  import opened CommandQueueInvariant
  import opened CommandQueueProof

  // ----- the life of a call

  /** The batch is written and marked; at Idle the call has returned. */
  predicate Past(pc: Pc) {
    || pc.WaitOwner? || pc.ClearOwned? || pc.PollValid? || pc.Publish? || pc.Handoff? || pc.SyncFirst? || pc.SyncPoll?
    || pc.SyncMsi? || pc.TryUnlock? || pc.SyncWrite? || pc.SyncDec? || pc.Idle?
  }

  /** An owner here has published its own batch. */
  predicate Told(pc: Pc) {
    Past(pc) && !pc.WaitOwner? && !pc.ClearOwned? && !pc.PollValid? && !pc.Publish?
  }

  ghost predicate Placed(log: seq<Pos>, t: nat, th: Thread) {
    th.End() <= |log|
    && forall x :: th.base <= x < th.End() ==> log[x] == Pos(t, th.sync && x == th.Slot(), true, true)
  }

  /** Since position `from`, CPU t has allocated at most the range of its batch. */
  ghost predicate OnlyBatch(log: seq<Pos>, t: nat, th: Thread, from: nat) {
    && from <= |log|
    && (HasRange(th.pc) || Past(th.pc) ==> from <= th.base)
    && forall x :: from <= x < |log| && log[x].cpu == t ==> (HasRange(th.pc) || Past(th.pc)) && th.base <= x < th.End()
  }

  /** Where CPU t is in a call begun with `call` when the producer was at `from`. */
  ghost predicate InCall(s: State, t: nat, call: Start, from: nat) {
    && t < |s.threads|
    && var th := s.threads[t];
    && th.n == call.n && th.sync == call.sync
    && OnlyBatch(s.log, t, th, from)
    && (Past(th.pc) ==> Placed(s.log, t, th))
    && (IsPublisher(th) ==> th.End() <= RangeEnd(th.pc))
    && (Told(th.pc) && th.owner ==> th.End() <= s.hwProd)
    && (th.sync && (th.pc.SyncDec? || th.pc.Idle?) ==> th.Slot() < s.hwCons)
  }

  // ----- a step of the CPU itself

  /** Thread t only goes from one access to the next. */
  ghost predicate Moved(s: State, s': State, t: nat) {
    && Moves(s, s', t) && s'.threads[t] == s.threads[t].(pc := s'.threads[t].pc)
    && s'.log == s.log && s'.hwCons == s.hwCons
  }

  lemma BeforeStep(s: State, t: nat, begin: Start)
    requires Shaped(s) && t < |s.threads| && !HasRange(s.threads[t].pc) && !Past(s.threads[t].pc)
    requires s.threads[t].pc.AllocCas? ==> !SameWord(s.Size(), s.threads[t].pc.view, s.Now())
    ensures
      var s' := Step(s, t, begin);
      Moved(s, s', t) && !HasRange(s'.threads[t].pc) && !Past(s'.threads[t].pc)
  {
    if HoldsExclusive(s.threads[t]) {
      ExclusiveStep(s, t, begin);
    } else {
      LookStep(s, t, begin);
    }
  }

  lemma LookStep(s: State, t: nat, begin: Start)
    requires Shaped(s) && t < |s.threads|
    requires !HasRange(s.threads[t].pc) && !Past(s.threads[t].pc) && !HoldsExclusive(s.threads[t])
    requires s.threads[t].pc.AllocCas? ==> !SameWord(s.Size(), s.threads[t].pc.view, s.Now())
    ensures
      var s' := Step(s, t, begin);
      Moved(s, s', t) && !HasRange(s'.threads[t].pc) && !Past(s'.threads[t].pc)
  {
  }

  lemma LockingStep(s: State, t: nat, begin: Start)
    requires Shaped(s) && t < |s.threads|
    requires s.threads[t].pc.LockInc? || s.threads[t].pc.LockSpin? || s.threads[t].pc.LockCas?
    ensures
      var s' := Step(s, t, begin);
      Moved(s, s', t) && HasRange(s'.threads[t].pc)
  {
  }

  /** How a call goes on once its batch is marked. */
  ghost predicate PastMove(s: State, s': State, t: nat)
    requires Moved(s, s', t)
  {
    var th, th' := s.threads[t], s'.threads[t];
    && Past(th'.pc)
    && (IsPublisher(th') ==> RangeEnd(th'.pc) == if IsPublisher(th) then RangeEnd(th.pc) else |s.log|)
    && (Told(th'.pc) ==> Told(th.pc) || th.pc.Publish?)
    && s'.hwProd == (if th.pc.Publish? then th.pc.e else s.hwProd)
    && (th'.pc.SyncDec? ==> th.pc.SyncDec? || th.pc.TryUnlock? || th.pc.SyncWrite?)
    && (th'.pc.Idle? && th.sync ==> th.pc.SyncDec?)
  }

  lemma GatheringStep(s: State, t: nat, begin: Start)
    requires Shaped(s) && t < |s.threads| && (s.threads[t].pc.WaitOwner? || s.threads[t].pc.ClearOwned?)
    ensures Moved(s, Step(s, t, begin), t) && PastMove(s, Step(s, t, begin), t)
  {
  }

  lemma PublishingStep(s: State, t: nat, begin: Start)
    requires Shaped(s) && t < |s.threads| && IsPublisher(s.threads[t])
    ensures Moved(s, Step(s, t, begin), t) && PastMove(s, Step(s, t, begin), t)
  {
    if s.threads[t].pc.PollValid? {
      PollValidStep(s, t, begin);
    }
  }

  lemma WaitingStep(s: State, t: nat, begin: Start)
    requires Shaped(s) && t < |s.threads| && Past(s.threads[t].pc) && !s.threads[t].pc.Idle?
    requires !s.threads[t].pc.WaitOwner? && !s.threads[t].pc.ClearOwned? && !IsPublisher(s.threads[t])
    ensures Moved(s, Step(s, t, begin), t) && PastMove(s, Step(s, t, begin), t)
  {
  }

  lemma PastStep(s: State, t: nat, begin: Start)
    requires Shaped(s) && t < |s.threads| && Past(s.threads[t].pc) && !s.threads[t].pc.Idle?
    ensures Moved(s, Step(s, t, begin), t) && PastMove(s, Step(s, t, begin), t)
  {
    if s.threads[t].pc.WaitOwner? || s.threads[t].pc.ClearOwned? {
      GatheringStep(s, t, begin);
    } else if IsPublisher(s.threads[t]) {
      PublishingStep(s, t, begin);
    } else {
      WaitingStep(s, t, begin);
    }
  }

  lemma MovedGoesOn(s: State, s': State, t: nat, call: Start, from: nat)
    requires InCall(s, t, call, from) && Moved(s, s', t) && !Past(s.threads[t].pc) && !Past(s'.threads[t].pc)
    requires HasRange(s'.threads[t].pc) == HasRange(s.threads[t].pc)
    ensures InCall(s', t, call, from)
  {
  }

  lemma AllocateGoesOn(s: State, t: nat, call: Start, from: nat)
    requires Shaped(s) && InCall(s, t, call, from) && s.threads[t].pc.AllocCas? && s.threads[t].Len() > 0
    ensures InCall(Allocate(s, t), t, call, from)
  {
  }

  lemma WriteGoesOn(s: State, t: nat, call: Start, from: nat)
    requires Shaped(s) && InCall(s, t, call, from) && s.threads[t].pc.WriteEntry? && ThreadInv(s, t)
    ensures InCall(WriteOne(s, t, s.threads[t].pc.i), t, call, from)
  {
  }

  lemma MarkGoesOn(s: State, t: nat, call: Start, from: nat)
    requires Shaped(s) && InCall(s, t, call, from) && s.threads[t].pc.Mark? && ThreadInv(s, t)
    requires
      var th := s.threads[t];
      var m' := TurnEnd(s.Size(), th.pc.m, th.End());
      th.pc.m < m' <= th.End() && (SamePointer(s.Size(), m', th.End()) <==> m' == th.End())
    ensures InCall(MarkTurn(s, t, s.threads[t].pc.m), t, call, from)
  {
  }

  lemma PastGoesOn(s: State, t: nat, begin: Start, call: Start, from: nat, r: Roles)
    requires Inv(s, r) && InCall(s, t, call, from) && Past(s.threads[t].pc) && !s.threads[t].pc.Idle?
    ensures InCall(Step(s, t, begin), t, call, from)
  {
    PastStep(s, t, begin);
    assert ThreadInv(s, t) && ThreadConsInv(s, r, s.threads[t], t);
    var s' := Step(s, t, begin);
    assert OnlyBatch(s'.log, t, s'.threads[t], from);
    assert Placed(s'.log, t, s'.threads[t]);
  }

  lemma OwnStepGoesOn(s: State, t: nat, begin: Start, call: Start, from: nat, r: Roles)
    requires Inv(s, r) && InCall(s, t, call, from) && !s.threads[t].pc.Idle?
    ensures InCall(Step(s, t, begin), t, call, from)
  {
    var pc := s.threads[t].pc;
    assert ThreadInv(s, t);
    if Past(pc) {
      PastGoesOn(s, t, begin, call, from, r);
    } else if pc.Mark? {
      RangeStep(s, t, begin);
      MarkBounds(s, t, r);
      MarkGoesOn(s, t, call, from);
    } else if pc.WriteEntry? {
      RangeStep(s, t, begin);
      WriteGoesOn(s, t, call, from);
    } else if HasRange(pc) {
      LockingStep(s, t, begin);
      MovedGoesOn(s, Step(s, t, begin), t, call, from);
    } else if pc.AllocCas? && SameWord(s.Size(), pc.view, s.Now()) {
      AllocateGoesOn(s, t, call, from);
    } else {
      BeforeStep(s, t, begin);
      MovedGoesOn(s, Step(s, t, begin), t, call, from);
    }
  }

  // ----- the steps of the others

  /** Another CPU u adds only positions of its own and changes no position of t. */
  ghost predicate LogLeft(log: seq<Pos>, log': seq<Pos>, t: nat) {
    && |log| <= |log'|
    && (forall x :: 0 <= x < |log| ==> log'[x].cpu == log[x].cpu && (log[x].cpu == t ==> log'[x] == log[x]))
    && (forall x :: |log| <= x < |log'| ==> log'[x].cpu != t)
  }

  lemma StepLeavesOthers(s: State, u: nat, begin: Start, t: nat, r: Roles)
    requires Inv(s, r) && u < |s.threads| && u != t
    ensures LogLeft(s.log, Step(s, u, begin).log, t) && Moves(s, Step(s, u, begin), u)
  {
    var pc := s.threads[u].pc;
    assert ThreadInv(s, u);
    if pc.Mark? {
      RangeStep(s, u, begin);
      MarkBounds(s, u, r);
      MarkedThread(s, u);
    } else if pc.WriteEntry? {
      RangeStep(s, u, begin);
      WrittenThread(s, u);
    } else if pc.AllocCas? && SameWord(s.Size(), pc.view, s.Now()) {
      AllocatedThread(s, u);
    } else {
      LogStays(s, u, begin);
    }
  }

  lemma LogStays(s: State, u: nat, begin: Start)
    requires Shaped(s) && u < |s.threads| && !s.threads[u].pc.Mark? && !s.threads[u].pc.WriteEntry?
    requires s.threads[u].pc.AllocCas? ==> !SameWord(s.Size(), s.threads[u].pc.view, s.Now())
    ensures Step(s, u, begin).log == s.log && Moves(s, Step(s, u, begin), u)
  {
    var pc := s.threads[u].pc;
    if !pc.Idle? {
      if Past(pc) {
        PastStep(s, u, begin);
      } else if HasRange(pc) {
        LockingStep(s, u, begin);
      } else {
        BeforeStep(s, u, begin);
      }
    }
  }

  lemma OthersLeave(s: State, s': State, t: nat, call: Start, from: nat)
    requires InCall(s, t, call, from) && LogLeft(s.log, s'.log, t) && s.hwProd <= s'.hwProd && s.hwCons <= s'.hwCons
    requires t < |s'.threads| && s'.threads[t] == s.threads[t]
    ensures InCall(s', t, call, from)
  {
  }

  lemma NextGoesOn(s: State, s': State, t: nat, call: Start, from: nat)
    requires Good(s) && Next(s, s') && InCall(s, t, call, from) && !s.threads[t].pc.Idle?
    ensures InCall(s', t, call, from)
  {
    var r :| Inv(s, r);
    if s' == Consume(s) {
      OthersLeave(s, s', t, call, from);
    } else {
      var u: nat, begin: Start :| u < |s.threads| && NonEmpty(begin) && s' == Step(s, u, begin);
      if u == t {
        OwnStepGoesOn(s, t, begin, call, from, r);
      } else {
        StepLeavesOthers(s, u, begin, t, r);
        PointerStep(s, u, begin, r);
        OthersLeave(s, s', t, call, from);
      }
    }
  }

  // ----- whole calls

  /** CPU t begins a call at run[i], and has not returned before run[j]. */
  ghost predicate Call(run: seq<State>, i: nat, j: nat, t: nat, call: Start) {
    && IsRun(run) && i < j < |run| && NonEmpty(call)
    && Shaped(run[i]) && t < |run[i].threads| && run[i].threads[t].pc.Idle? && run[i + 1] == Step(run[i], t, call)
    && forall k :: i < k < j ==> t < |run[k].threads| && !run[k].threads[t].pc.Idle?
  }

  lemma Begins(s: State, s': State, t: nat, call: Start)
    requires Shaped(s) && t < |s.threads| && s.threads[t].pc.Idle? && s' == Step(s, t, call)
    ensures InCall(s', t, call, s.prod)
  {
  }

  lemma {:induction false} CallGoesOn(run: seq<State>, i: nat, j: nat, t: nat, call: Start)
    requires Call(run, i, j, t, call)
    ensures InCall(run[j], t, call, run[i].prod)
    decreases j
  {
    if j == i + 1 {
      Begins(run[i], run[j], t, call);
    } else {
      var k := j - 1;
      CallGoesOn(run, i, k, t, call);
      RunIsGood(run, k);
      assert Next(run[k], run[k + 1]);
      NextGoesOn(run[k], run[j], t, call, run[i].prod);
    }
  }

  /**
   A call that returns has put its n commands, and the CMD_SYNC after them if it asked for one, at positions that were
   free when it began: these and no others, all written and marked valid.  If it became the owner, it has published
   them; if it asked for a CMD_SYNC, the SMMU has consumed them all.
   */
  lemma CallReturnsDone(run: seq<State>, i: nat, j: nat, t: nat, call: Start)
    requires Call(run, i, j, t, call) && t < |run[j].threads| && run[j].threads[t].pc.Idle?
    ensures
      var s, base, from := run[j], run[j].threads[t].base, run[i].prod;
      var end := base + call.n + if call.sync then 1 else 0;
      && from <= base < end <= |s.log|
      && (forall x :: from <= x < |s.log| ==> (s.log[x].cpu == t <==> base <= x < end))
      && (forall x :: base <= x < end ==> s.log[x] == Pos(t, call.sync && x == base + call.n, true, true))
      && (s.threads[t].owner ==> end <= s.hwProd)
      && (call.sync ==> end <= s.hwCons)
  {
    CallGoesOn(run, i, j, t, call);
  }
}
