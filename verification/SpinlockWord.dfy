/**
 The 32-bit layouts of the spinlock word (include/asm-generic/spinlock.h) and the
 two builds of the word updates in kernel/spinlock.c: byte stores when the pending
 field is a byte, whole-word atomics when it is a single bit.  Bit fields are
 written with division and remainder by powers of two.
 */
module SpinlockWord {
  import opened Common
  import opened QueuedSpinlock
  import QueuedSpinlockProof

  datatype Build = ByteBuild | WordBuild

  const WORD_SPAN: nat := 0x1_0000_0000
  const PENDING_VAL: nat := 0x100
  const LOCKED_VAL: nat := 1

  /** Weight of the lowest bit of the tail index, and of the tail CPU. */
  function IdxUnit(b: Build): nat { if b.ByteBuild? then 0x1_0000 else 0x200 }
  function CpuUnit(b: Build): nat { if b.ByteBuild? then 0x4_0000 else 0x800 }

  /** 2 ** _Q_TAIL_CPU_BITS: the CPU number plus one has to stay below it. */
  function CpuSpan(b: Build): nat { if b.ByteBuild? then 0x4000 else 0x20_0000 }

  predicate NodeFits(b: Build, n: NodeId) {
    n.idx < MAX_NODES && n.cpu + 1 < CpuSpan(b)
  }

  predicate Fits(b: Build, w: Word) {
    w.tail.Some? ==> NodeFits(b, w.tail.value)
  }

  // ----- encoding

  function EncodeTail(b: Build, n: NodeId): nat {
    (n.cpu + 1) * CpuUnit(b) + n.idx * IdxUnit(b)
  }

  function DecodeTail(b: Build, code: nat): NodeId
    requires code >= CpuUnit(b)
  {
    NodeId(code / CpuUnit(b) - 1, code / IdxUnit(b) % 4)
  }

  function TailCode(b: Build, tail: Option<NodeId>): nat {
    if tail.Some? then EncodeTail(b, tail.value) else 0
  }

  function Pack(b: Build, w: Word): nat {
    TailCode(b, w.tail) + (if w.pending then PENDING_VAL else 0) + (if w.locked then LOCKED_VAL else 0)
  }

  function LockedByte(v: nat): nat { v % 0x100 }
  function PendingField(b: Build, v: nat): nat { v / 0x100 % (IdxUnit(b) / 0x100) }
  function TailField(b: Build, v: nat): nat { v / IdxUnit(b) * IdxUnit(b) }

  function Unpack(b: Build, v: nat): Word {
    Word(if TailField(b, v) >= CpuUnit(b) then Some(DecodeTail(b, TailField(b, v))) else None,
         PendingField(b, v) != 0,
         LockedByte(v) != 0)
  }

  function TailNumber(tail: Option<NodeId>): nat {
    if tail.Some? then 4 * (tail.value.cpu + 1) + tail.value.idx else 0
  }

  function Bit(x: bool): nat { if x then 1 else 0 }

  lemma PackIsSum(b: Build, w: Word)
    ensures TailCode(b, w.tail) == IdxUnit(b) * TailNumber(w.tail)
    ensures Pack(b, w) == IdxUnit(b) * TailNumber(w.tail) + 0x100 * Bit(w.pending) + Bit(w.locked)
  {
  }

  lemma ByteFields(k: nat, p: nat, x: nat)
    requires p < 2 && x < 2
    ensures
      var v := 0x1_0000 * k + 0x100 * p + x;
      v / 0x1_0000 == k && v % 0x1_0000 == 0x100 * p + x && v % 0x100 == x && v / 0x100 == 0x100 * k + p
    ensures (0x100 * k + p) % 0x100 == p && (0x100 * k + p) % 2 == p
  {
    assert 0x100 * k + p == 2 * (0x80 * k) + p;
  }

  lemma WordFields(k: nat, p: nat, x: nat)
    requires p < 2 && x < 2
    ensures
      var v := 0x200 * k + 0x100 * p + x;
      v / 0x200 == k && v % 0x200 == 0x100 * p + x && v % 0x100 == x && v / 0x100 == 2 * k + p
    ensures (2 * k + p) % 2 == p
  {
  }

  lemma PackFields(b: Build, w: Word)
    requires Fits(b, w)
    ensures
      var v := Pack(b, w);
      && v < WORD_SPAN
      && LockedByte(v) == Bit(w.locked)
      && PendingField(b, v) == v / PENDING_VAL % 2 == Bit(w.pending)
      && TailField(b, v) == TailCode(b, w.tail)
      && v % IdxUnit(b) == 0x100 * Bit(w.pending) + Bit(w.locked)
      && v / IdxUnit(b) == TailNumber(w.tail)
  {
    PackIsSum(b, w);
    if b.ByteBuild? {
      ByteFields(TailNumber(w.tail), Bit(w.pending), Bit(w.locked));
    } else {
      WordFields(TailNumber(w.tail), Bit(w.pending), Bit(w.locked));
    }
  }

  lemma TailRoundTrip(b: Build, n: NodeId)
    requires NodeFits(b, n)
    ensures EncodeTail(b, n) >= CpuUnit(b) && DecodeTail(b, EncodeTail(b, n)) == n
    ensures EncodeTail(b, n) == IdxUnit(b) * TailNumber(Some(n))
  {
    var k := TailNumber(Some(n));
    if b.ByteBuild? {
      assert EncodeTail(b, n) / 0x1_0000 == k;
    } else {
      assert EncodeTail(b, n) / 0x200 == k;
    }
    assert k % 4 == n.idx;
  }

  /** Packing loses nothing, fits the word, and tells an empty tail from CPU 0, index 0. */
  lemma PackRoundTrip(b: Build, w: Word)
    requires Fits(b, w)
    ensures Pack(b, w) < WORD_SPAN
    ensures Unpack(b, Pack(b, w)) == w
    ensures w.tail.Some? ==> TailCode(b, w.tail) != 0 && DecodeTail(b, TailCode(b, w.tail)) == w.tail.value
  {
    PackFields(b, w);
    if w.tail.Some? {
      TailRoundTrip(b, w.tail.value);
    }
  }

  lemma PackInjective(b: Build, w: Word, w': Word)
    requires Fits(b, w) && Fits(b, w') && Pack(b, w) == Pack(b, w')
    ensures w == w'
  {
    PackRoundTrip(b, w);
    PackRoundTrip(b, w');
  }

  // ----- the tests of the lock code on the packed word

  /** The word tests of the slow path read the intended fields. */
  lemma TestsReadFields(b: Build, w: Word, n: NodeId)
    requires Fits(b, w) && NodeFits(b, n)
    ensures Pack(b, w) == 0 <==> w == FREE_WORD
    ensures Pack(b, w) == PENDING_VAL <==> w == PENDING_WORD
    ensures Pack(b, w) - LockedByte(Pack(b, w)) != 0 <==> Contended(w)
    ensures TailField(b, Pack(b, w)) == EncodeTail(b, n) <==> w.tail == Some(n)
  {
    PackFields(b, w);
    TailRoundTrip(b, n);
    if w.tail.Some? {
      TailRoundTrip(b, w.tail.value);
    }
  }

  // ----- byte stores and whole-word atomics

  function StoreLocked(v: nat, x: nat): nat
    requires x < 0x100
  {
    v - v % 0x100 + x
  }

  /** WRITE_ONCE(lock->u.pending, 0): the second byte. */
  function StorePendingZero(v: nat): nat {
    v / 0x1_0000 * 0x1_0000 + v % 0x100
  }

  /** WRITE_ONCE(lock->u.locked_pending, x): the low half. */
  function StoreLockedPending(v: nat, x: nat): nat
    requires x < 0x1_0000
  {
    v / 0x1_0000 * 0x1_0000 + x
  }

  /** xchg(&lock->tail, code >> 16): the high half. */
  function StoreTail(v: nat, code: nat): nat {
    code / 0x1_0000 * 0x1_0000 + v % 0x1_0000
  }

  function AndNotPending(v: nat): nat {
    if v / PENDING_VAL % 2 == 1 then v - PENDING_VAL else v
  }

  function OrPending(v: nat): nat {
    if v / PENDING_VAL % 2 == 1 then v else v + PENDING_VAL
  }

  /** atomic_add(-_Q_PENDING_VAL + _Q_LOCKED_VAL): modulo the word. */
  function AddTake(v: nat): nat {
    (v + WORD_SPAN - PENDING_VAL + LOCKED_VAL) % WORD_SPAN
  }

  /** One turn of the compare-and-swap loop: the new word, and whether the swap took place. */
  function CasTail(v: nat, expected: nat, code: nat): (nat, bool) {
    if v == expected then (expected % 0x200 + code, true) else (v, false)
  }

  /** Both builds set and clear the locked byte with a byte store. */
  lemma StoreLockedUpdates(b: Build, w: Word)
    requires Fits(b, w)
    ensures StoreLocked(Pack(b, w), LOCKED_VAL) == Pack(b, w.(locked := true))
    ensures StoreLocked(Pack(b, w), 0) == Pack(b, w.(locked := false))
  {
    PackFields(b, w);
    assert Pack(b, w) % 0x100 == Bit(w.locked);
  }

  /** The fetch-or sets the pending bit and nothing else. */
  lemma OrPendingUpdates(b: Build, w: Word)
    requires Fits(b, w)
    ensures OrPending(Pack(b, w)) == Pack(b, w.(pending := true))
  {
    PackFields(b, w);
  }

  /** clear_pending: each build does the abstract update on its own layout. */
  lemma ClearPendingAlike(w: Word)
    requires Fits(ByteBuild, w) && Fits(WordBuild, w)
    ensures StorePendingZero(Pack(ByteBuild, w)) == Pack(ByteBuild, w.(pending := false))
    ensures AndNotPending(Pack(WordBuild, w)) == Pack(WordBuild, w.(pending := false))
  {
    PackFields(ByteBuild, w);
    PackFields(WordBuild, w);
    PackIsSum(ByteBuild, w.(pending := false));
  }

  /** The byte build exchanges the tail with one store. */
  lemma StoreTailExchanges(w: Word, n: NodeId)
    requires Fits(ByteBuild, w) && NodeFits(ByteBuild, n)
    ensures StoreTail(Pack(ByteBuild, w), EncodeTail(ByteBuild, n)) == Pack(ByteBuild, w.(tail := Some(n)))
  {
    PackFields(ByteBuild, w);
    PackFields(ByteBuild, Word(Some(n), false, false));
    PackIsSum(ByteBuild, w.(tail := Some(n)));
  }

  /** A turn of the compare-and-swap loop that fails leaves the word alone; one that succeeds is the exchange. */
  lemma CasLoopTurn(w: Word, seen: Word, n: NodeId)
    requires Fits(WordBuild, w) && Fits(WordBuild, seen) && NodeFits(WordBuild, n)
    ensures
      var (v, done) := CasTail(Pack(WordBuild, w), Pack(WordBuild, seen), EncodeTail(WordBuild, n));
      v == Pack(WordBuild, if done then w.(tail := Some(n)) else w) && (done <==> w == seen)
  {
    PackFields(WordBuild, w);
    PackIsSum(WordBuild, w.(tail := Some(n)));
    if Pack(WordBuild, w) == Pack(WordBuild, seen) {
      PackInjective(WordBuild, w, seen);
    }
  }

  /**
   clear_pending_set_locked: the word build takes the lock exactly when pending is set and locked is
   clear; the byte build always does.
   */
  lemma TakeAgreesIff(w: Word)
    requires Fits(ByteBuild, w) && Fits(WordBuild, w)
    ensures StoreLockedPending(Pack(ByteBuild, w), LOCKED_VAL) == Pack(ByteBuild, w.(pending := false, locked := true))
    ensures AddTake(Pack(WordBuild, w)) == Pack(WordBuild, w.(pending := false, locked := true)) <==>
              w.pending && !w.locked
  {
    PackFields(ByteBuild, w);
    PackIsSum(ByteBuild, w.(pending := false, locked := true));
    PackFields(WordBuild, w);
    PackIsSum(WordBuild, w);
    PackIsSum(WordBuild, w.(pending := false, locked := true));
    AddTakeWraps(Pack(WordBuild, w));
  }

  lemma AddTakeWraps(v: nat)
    requires v < WORD_SPAN
    ensures AddTake(v) == if v < PENDING_VAL - LOCKED_VAL then v + WORD_SPAN - PENDING_VAL + LOCKED_VAL
                          else v - PENDING_VAL + LOCKED_VAL
  {
  }

  // ----- both builds on reachable words

  /** NR_CPUS is below the span of the tail's CPU field. */
  ghost predicate CpusFit(b: Build, s: State) {
    forall t :: 0 <= t < |s.ctxs| ==> s.ctxs[t].cpu + 1 < CpuSpan(b)
  }

  /** Every word of a run packs into 32 bits, and so does every code a context writes to the tail. */
  lemma ReachableFits(b: Build, run: seq<State>, i: nat, l: nat)
    requires IsRun(run) && i < |run| && l < |run[i].locks| && CpusFit(b, run[i])
    ensures Fits(b, run[i].locks[l].word)
    ensures forall t :: 0 <= t < |run[i].ctxs| && UsesNode(run[i].ctxs[t].pc) ==> NodeFits(b, run[i].ctxs[t].Mine())
  {
    var s := run[i];
    var rs := QueuedSpinlockProof.RunHasRoles(run, i);
    assert LockInv(s, l, rs[l]);
    var q := rs[l].queue;
    assert q != [] ==> q[|q| - 1] in q;
  }

  /** In every state of every run, taking the lock from the pending bit works alike in both builds. */
  lemma TakeAgreesOnRuns(run: seq<State>, i: nat, t: nat)
    requires IsRun(run) && i < |run| && t < |run[i].ctxs| && run[i].ctxs[t].lock < |run[i].locks|
    requires CpusFit(ByteBuild, run[i]) && run[i].ctxs[t].pc.TakePending?
    ensures
      var w := run[i].locks[run[i].ctxs[t].lock].word;
      var w' := w.(pending := false, locked := true);
      && Fits(ByteBuild, w) && Fits(WordBuild, w)
      && StoreLockedPending(Pack(ByteBuild, w), LOCKED_VAL) == Pack(ByteBuild, w')
      && AddTake(Pack(WordBuild, w)) == Pack(WordBuild, w')
  {
    QueuedSpinlockProof.TakesOnlyFree(run, i, t);
    ReachableFits(ByteBuild, run, i, run[i].ctxs[t].lock);
    TakeAgreesIff(run[i].locks[run[i].ctxs[t].lock].word);
  }
}
