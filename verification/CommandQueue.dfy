/**
 Concurrent insertion into the SMMUv3 command queue
 (arm_smmu_cmdq_issue_cmdlist in drivers/iommu/arm_smmuv3.c) as a step system.

 Any number of CPUs issue batches; one step is one access to shared memory or to
 a device register.  Queue pointers are kept as unbounded positions, but every test
 the driver makes is made on the wrapped pointer words of those positions.  `log`
 records, position by position, who allocated it and whether it has been written
 and marked valid; no step reads it.  Clearing the owned flag is one atomic step here;
 module SplitClear treats the load and the store that the driver makes of it.
 Polls do not time out.
 */
module CommandQueue {
  import opened QueuePointers
  import opened ValidMap

  const INT_MIN: int := -0x8000_0000

  /** A copy of the shared producer/owned/consumer word. */
  datatype View = View(prod: nat, owned: bool, cons: nat)

  /** A queue entry: the command of position `pos`, and whether its completion was written back. */
  datatype Cell = Vacant | Holds(pos: nat, sync: bool, done: bool)

  datatype Pos = Pos(cpu: nat, sync: bool, written: bool, marked: bool)

  datatype Pc =
    | Idle
    | ReadQueue
    | ExclTry
    | ExclRead
    | ExclWrite(c: nat)
    | ExclUnlock
    | PollFull
    | AllocCas(view: View)
    | WriteEntry(i: nat)
    | LockInc
    | LockSpin
    | LockCas(val: int)
    | Mark(m: nat)
    | WaitOwner
    | ClearOwned
    | PollValid(q: nat, e: nat)
    | Publish(e: nat)
    | Handoff(e: nat)
    | SyncFirst
    | SyncPoll
    | SyncMsi
    | TryUnlock(c: nat)
    | SyncWrite(c: nat)
    | SyncDec

  /** A CPU: its batch of n commands and maybe a CMD_SYNC, placed at base. */
  datatype Thread = Thread(pc: Pc, n: nat, sync: bool, base: nat, owner: bool) {
    function Len(): nat { n + if sync then 1 else 0 }
    function End(): nat { base + Len() }
    function Slot(): nat { base + n }
  }

  datatype State = State(prod: nat, owned: bool, cons: nat, ownerProd: nat, lock: int,
                         bits: seq<bool>, slots: seq<Cell>, hwProd: nat, hwCons: nat, msi: bool,
                         threads: seq<Thread>, log: seq<Pos>) {
    function Size(): nat { |bits| }
    function Now(): View { View(prod, owned, cons) }
  }

  predicate Shaped(s: State) {
    RingSize(|s.bits|) && |s.slots| == |s.bits| && |s.log| == s.prod && |s.threads| < 0x8000_0000
  }

  // ----- what a CPU does next

  predicate SamePointer(size: nat, x: nat, y: nat)
    requires size > 0
  {
    Word(size, x) == Word(size, y)
  }

  predicate SpaceFor(size: nat, v: View, n: nat)
    requires size > 0
  {
    HasSpace(size, Word(size, v.prod), Word(size, v.cons), n)
  }

  function Look(size: nat, th: Thread, v: View): Pc
    requires size > 0
  {
    if SpaceFor(size, v, th.Len()) then AllocCas(v) else ExclTry
  }

  predicate SameWord(size: nat, v: View, w: View)
    requires size > 0
  {
    SamePointer(size, v.prod, w.prod) && v.owned == w.owned && SamePointer(size, v.cons, w.cons)
  }

  function AfterOwner(th: Thread, msi: bool): Pc {
    if !th.sync then Idle else if msi then SyncMsi else SyncFirst
  }

  function AfterMark(th: Thread, msi: bool): Pc {
    if th.owner then WaitOwner else AfterOwner(th, msi)
  }

  function AfterWrites(th: Thread): Pc {
    if th.sync then LockInc else Mark(th.base)
  }

  function SyncCheck(size: nat, th: Thread, cons: nat): Pc
    requires size > 0
  {
    if Consumed(size, Word(size, cons), Word(size, th.Slot())) then TryUnlock(cons) else SyncPoll
  }

  // ----- the steps

  function Goto(s: State, t: nat, pc: Pc): State
    requires t < |s.threads|
  {
    s.(threads := s.threads[t := s.threads[t].(pc := pc)])
  }

  function Allocate(s: State, t: nat): State
    requires t < |s.threads|
  {
    var th := s.threads[t].(base := s.prod, owner := !s.owned);
    s.(prod := s.prod + th.Len(), owned := true,
       log := s.log + seq(th.Len(), i requires 0 <= i < th.Len() => Pos(t, th.sync && i == th.n, false, false)),
       threads := s.threads[t := th.(pc := if th.Len() == 0 then AfterMark(th, s.msi) else WriteEntry(0))])
  }

  function WriteOne(s: State, t: nat, i: nat): State
    requires Shaped(s) && t < |s.threads|
  {
    var th := s.threads[t];
    var x := th.base + i;
    Goto(s.(slots := s.slots[Idx(s.Size(), x) := Holds(x, th.sync && i == th.n, false)],
            log := if x < |s.log| then s.log[x := s.log[x].(written := true)] else s.log),
         t, if i + 1 < th.Len() then WriteEntry(i + 1) else AfterWrites(th))
  }

  function MarkTurn(s: State, t: nat, m: nat): State
    requires Shaped(s) && t < |s.threads|
  {
    var th := s.threads[t];
    var m' := TurnEnd(s.Size(), m, th.End());
    Goto(s.(bits := Flip(s.bits, m, m'),
            log := seq(|s.log|, x requires 0 <= x < |s.log| => if m <= x < m' then s.log[x].(marked := true)
                                                               else s.log[x])),
         t, if SamePointer(s.Size(), m', th.End()) then AfterMark(th, s.msi) else Mark(m'))
  }

  /** The word test of one poll turn starting at position q. */
  predicate TurnValid(s: State, q: nat, e: nat)
    requires Shaped(s)
  {
    var lo, n := Idx(s.Size(), q), TurnEnd(s.Size(), q, e) - q;
    lo + n <= s.Size() && n >= 0 && WordValid(s.bits, lo, lo + n, Wrp(s.Size(), q))
  }

  predicate CellDone(s: State, x: nat)
    requires Shaped(s)
  {
    var cell := s.slots[Idx(s.Size(), x)];
    cell.Holds? && cell.done
  }

  datatype Start = Start(n: nat, sync: bool)

  /** Step of CPU t; a step whose wait condition is false leaves the state as it is. */
  function Step(s: State, t: nat, start: Start): State
    requires Shaped(s) && t < |s.threads|
  {
    var th := s.threads[t];
    var size := s.Size();
    match th.pc
    case Idle => s.(threads := s.threads[t := th.(pc := ReadQueue, n := start.n, sync := start.sync)])
    case ReadQueue => Goto(s, t, Look(size, th, s.Now()))
    case ExclTry => if s.lock == 0 then Goto(s.(lock := INT_MIN), t, ExclRead) else Goto(s, t, PollFull)
    case ExclRead => Goto(s, t, ExclWrite(s.hwCons))
    case ExclWrite(c) => Goto(s.(cons := c), t, ExclUnlock)
    case ExclUnlock => Goto(s.(lock := 0), t, ReadQueue)
    case PollFull =>
      if Full(size, Word(size, s.prod), Word(size, s.cons)) then s else Goto(s, t, Look(size, th, s.Now()))
    case AllocCas(v) => if SameWord(size, v, s.Now()) then Allocate(s, t) else Goto(s, t, Look(size, th, s.Now()))
    case WriteEntry(i) => WriteOne(s, t, i)
    case LockInc => Goto(s.(lock := s.lock + 1), t, if s.lock >= 0 then Mark(th.base) else LockSpin)
    case LockSpin => if s.lock >= 0 then Goto(s, t, LockCas(s.lock)) else s
    case LockCas(val) => if s.lock == val then Goto(s.(lock := val + 1), t, Mark(th.base)) else Goto(s, t, LockSpin)
    case Mark(m) => MarkTurn(s, t, m)
    case WaitOwner => if SamePointer(size, s.ownerProd, th.base) then Goto(s, t, ClearOwned) else s
    case ClearOwned =>
      Goto(s.(owned := false), t, if SamePointer(size, s.prod, th.base) then Publish(s.prod)
                                  else PollValid(th.base, s.prod))
    case PollValid(q, e) =>
      var q' := TurnEnd(size, q, e);
      if !TurnValid(s, q, e) then s else Goto(s, t, if SamePointer(size, q', e) then Publish(e) else PollValid(q', e))
    case Publish(e) => Goto(s.(hwProd := e), t, Handoff(e))
    case Handoff(e) => Goto(s.(ownerProd := e), t, AfterOwner(th, s.msi))
    case SyncFirst => Goto(s, t, SyncCheck(size, th, s.cons))
    case SyncPoll => Goto(s, t, SyncCheck(size, th, s.hwCons))
    case SyncMsi => if CellDone(s, th.Slot()) then Goto(s, t, TryUnlock(th.Slot() + 1)) else s
    case TryUnlock(c) => Goto(s, t, if s.lock == 1 then SyncWrite(c) else SyncDec)
    case SyncWrite(c) => Goto(s.(cons := c), t, SyncDec)
    case SyncDec => Goto(s.(lock := s.lock - 1), t, Idle)
  }

  /** The SMMU consumes the next published command; a CMD_SYNC with an MSI is written back as done. */
  function Consume(s: State): State
    requires Shaped(s)
  {
    if s.hwCons >= s.hwProd then s
    else
      var i := Idx(s.Size(), s.hwCons);
      var cell := s.slots[i];
      s.(hwCons := s.hwCons + 1,
         slots := if s.msi && cell.Holds? && cell.sync then s.slots[i := cell.(done := true)] else s.slots)
  }

  // ----- runs

  /** All callers issue at least one command or a CMD_SYNC. */
  predicate NonEmpty(start: Start) {
    start.n > 0 || start.sync
  }

  ghost predicate Init(s: State) {
    && Shaped(s) && s.prod == s.cons == s.ownerProd == s.hwProd == s.hwCons == 0 && !s.owned && s.lock == 0
    && (forall i :: 0 <= i < |s.bits| ==> !s.bits[i])
    && (forall t :: 0 <= t < |s.threads| ==> s.threads[t].pc.Idle?)
  }

  ghost predicate Next(s: State, s': State) {
    && Shaped(s)
    && (|| s' == Consume(s)
        || exists t: nat, start: Start :: t < |s.threads| && NonEmpty(start) && s' == Step(s, t, start))
  }

  ghost predicate IsRun(run: seq<State>) {
    |run| > 0 && Init(run[0]) && forall i :: 0 <= i < |run| - 1 ==> Next(run[i], run[i + 1])
  }
}
