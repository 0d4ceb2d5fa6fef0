/**
 The timer order queue (kernel/timer.c): timers by number in an array, the ones that timed
 out first, then the armed ones by rising timeout, then invalid slots.
 */
module TimerQueue {
  import opened Arithmetic

  /** MAX_TIMEOUT + 1: timeouts are signed words from -limit up to limit. */
  function Wrap(limit: nat, x: int): int
    requires limit > 0
  {
    (x + limit) % (2 * limit) - limit
  }

  /** TIMER_MAKE: the time shifted left in its own type, with the armed flag in the low bit. */
  function Make(limit: nat, time: int): int
    requires limit > 0
  {
    Wrap(limit, 2 * time + 1)
  }

  /** TIMER_TIME, an arithmetic shift. */
  function Time(timeout: int): int {
    timeout / 2
  }

  /** TIMER_SHOT */
  predicate Armed(timeout: int) {
    timeout % 2 == 1
  }

  const IDLE := 0

  lemma ModBelowZero(x: int, d: nat)
    requires 0 <= x + d < d
    ensures x % d == x + d
  {
    var q, r := x / d, x % d;
    assert x == q * d + r;
    assert (q + 1) * d == x + d - r;
  }

  lemma WrapOnce(limit: nat, x: int)
    requires limit > 0 && 0 <= x + 3 * limit && x < 3 * limit
    ensures Wrap(limit, x) == if x + limit < 0 then x + 2 * limit else if x < limit then x else x - 2 * limit
  {
    if x + limit < 0 {
      ModBelowZero(x + limit, 2 * limit);
    } else if x < limit {
      DivUnique(0, x + limit, 2 * limit);
    } else {
      DivUnique(1, x - limit, 2 * limit);
    }
  }

  /** A time comes back from its timeout exactly when it fits beside the flag bit; else it comes back below zero. */
  lemma MakeRoundTripsIff(limit: nat, time: nat)
    requires limit > 0 && limit % 2 == 0 && time < limit
    ensures Time(Make(limit, time)) == time <==> time < limit / 2
    ensures time >= limit / 2 ==> Time(Make(limit, time)) == time - limit < 0
    ensures Armed(Make(limit, time))
  {
    WrapOnce(limit, 2 * time + 1);
  }

  // ----- queues of timer numbers

  ghost predicate Distinct(queue: seq<nat>, n: nat) {
    && (forall i :: 0 <= i < |queue| ==> queue[i] < n)
    && (forall i, j :: 0 <= i < j < |queue| ==> queue[i] != queue[j])
  }

  /** Timed out or armed with a positive time, in order of time. */
  ghost predicate Ordered(queue: seq<nat>, timeouts: seq<int>) {
    && (forall i :: 0 <= i < |queue| ==> queue[i] < |timeouts|)
    && (forall i :: 0 <= i < |queue| ==>
          timeouts[queue[i]] == IDLE || (Armed(timeouts[queue[i]]) && Time(timeouts[queue[i]]) >= 1))
    && (forall i, j :: 0 <= i < j < |queue| ==> Time(timeouts[queue[i]]) <= Time(timeouts[queue[j]]))
  }

  function Without(queue: seq<nat>, tid: nat): seq<nat> {
    if queue == [] then [] else if queue[0] == tid then queue[1..] else [queue[0]] + Without(queue[1..], tid)
  }

  lemma {:induction false} WithoutAt(queue: seq<nat>, tid: nat, k: nat)
    requires k < |queue| && queue[k] == tid && tid !in queue[..k]
    ensures Without(queue, tid) == queue[..k] + queue[k + 1..]
  {
    if k > 0 {
      assert queue[0] == queue[..k][0];
      assert queue[1..][..k - 1] == queue[..k][1..];
      WithoutAt(queue[1..], tid, k - 1);
      assert queue[..k] + queue[k + 1..] == [queue[0]] + (queue[1..][..k - 1] + queue[1..][k..]);
    }
  }

  lemma {:induction false} WithoutNone(queue: seq<nat>, tid: nat)
    requires tid !in queue
    ensures Without(queue, tid) == queue
  {
    if queue != [] {
      WithoutNone(queue[1..], tid);
    }
  }

  lemma Dropped(queue: seq<nat>, n: nat, k: nat)
    requires Distinct(queue, n) && k < |queue|
    ensures Distinct(queue[..k] + queue[k + 1..], n) && queue[k] !in queue[..k] + queue[k + 1..]
  {
    var rest := queue[..k] + queue[k + 1..];
    assert forall i :: 0 <= i < |rest| ==> rest[i] == queue[if i < k then i else i + 1];
  }

  lemma SomeNumber(queue: seq<nat>, n: nat)
    requires Distinct(queue, n) && queue != []
    ensures n > 0
  {
    assert queue[0] < n;
  }

  /** There are no more timers in the queue than numbers. */
  lemma {:induction false} NoMoreThanNumbers(queue: seq<nat>, n: nat)
    requires Distinct(queue, n)
    ensures |queue| <= n
    decreases n
  {
    if queue != [] {
      SomeNumber(queue, n);
      var m := n - 1;
      if k :| 0 <= k < |queue| && queue[k] == m {
        Dropped(queue, n, k);
        NoMoreThanNumbers(queue[..k] + queue[k + 1..], m);
      } else {
        NoMoreThanNumbers(queue, m);
      }
    }
  }

  lemma RoomForOne(queue: seq<nat>, n: nat, tid: nat)
    requires Distinct(queue, n) && tid < n && tid !in queue
    ensures |queue| < n
  {
    NoMoreThanNumbers(queue + [tid], n);
  }

  // ----- spans and insertions

  /** Where a timer of the given time goes: after the ones that are not later. */
  ghost predicate Place(queue: seq<nat>, timeouts: seq<int>, time: int, k: nat) {
    && k <= |queue| && (forall i :: 0 <= i < |queue| ==> queue[i] < |timeouts|)
    && (forall i :: 0 <= i < k ==> Time(timeouts[queue[i]]) <= time)
    && (forall i :: k <= i < |queue| ==> Time(timeouts[queue[i]]) > time)
  }

  function Added(queue: seq<nat>, tid: nat, k: nat): seq<nat>
    requires k <= |queue|
  {
    queue[..k] + [tid] + queue[k..]
  }

  lemma AddedDistinct(queue: seq<nat>, n: nat, tid: nat, k: nat)
    requires Distinct(queue, n) && tid < n && tid !in queue && k <= |queue|
    ensures Distinct(Added(queue, tid, k), n)
  {
    var after := Added(queue, tid, k);
    assert forall i :: 0 <= i < |after| ==> after[i] == if i < k then queue[i] else if i == k then tid
      else queue[i - 1];
  }

  lemma AddedOrdered(queue: seq<nat>, timeouts: seq<int>, tid: nat, k: nat)
    requires Ordered(queue, timeouts) && tid < |timeouts| && Place(queue, timeouts, Time(timeouts[tid]), k)
    requires Armed(timeouts[tid]) && Time(timeouts[tid]) >= 1
    ensures Ordered(Added(queue, tid, k), timeouts)
  {
    var after := Added(queue, tid, k);
    forall i, j | 0 <= i < j < |after| ensures Time(timeouts[after[i]]) <= Time(timeouts[after[j]]) {
      assert after[i] == if i < k then queue[i] else if i == k then tid else queue[i - 1];
      assert after[j] == if j < k then queue[j] else if j == k then tid else queue[j - 1];
    }
  }

  /** What the pass over the armed timers makes of a timeout; the difference is taken in the timeout's type. */
  function Passed(limit: nat, timeout: int, span: nat): int
    requires limit > 0
  {
    var left := Wrap(limit, Time(timeout) - span);
    if Armed(timeout) then Make(limit, if left <= 0 then 1 else left) else timeout
  }

  /** Timed out, or armed with any time that a timeout can hold. */
  predicate Held(limit: nat, timeout: int) {
    timeout == IDLE || (Armed(timeout) && 0 <= Time(timeout) + limit / 2 < limit)
  }

  /** The difference does not leave the type. */
  predicate Fits(limit: nat, timeout: int, span: nat) {
    Armed(timeout) ==> span - Time(timeout) <= limit
  }

  /** The time left, at least 1, or a time below zero if the difference overflows. */
  lemma PassedTime(limit: nat, a: int, span: nat)
    requires limit >= 4 && limit % 2 == 0 && span < limit && Held(limit, a) && Armed(a)
    ensures Armed(Passed(limit, a, span))
    ensures Fits(limit, a, span) ==>
              Time(Passed(limit, a, span)) == if Time(a) - span <= 0 then 1 else Time(a) - span
    ensures !Fits(limit, a, span) ==> Time(Passed(limit, a, span)) == Time(a) - span + limit < 0
  {
    WrapOnce(limit, Time(a) - span);
    var left := Wrap(limit, Time(a) - span);
    MakeRoundTripsIff(limit, if left <= 0 then 1 else left);
  }

  lemma DroppedOrdered(queue: seq<nat>, timeouts: seq<int>, k: nat)
    requires Ordered(queue, timeouts) && k < |queue|
    ensures Ordered(queue[..k] + queue[k + 1..], timeouts)
  {
    var rest := queue[..k] + queue[k + 1..];
    assert forall i :: 0 <= i < |rest| ==> rest[i] == queue[if i < k then i else i + 1];
  }

  lemma DroppedOnly(queue: seq<nat>, k: nat)
    requires k < |queue|
    ensures forall t :: t in queue && t != queue[k] ==> t in queue[..k] + queue[k + 1..]
  {
    var rest := queue[..k] + queue[k + 1..];
    forall t | t in queue && t != queue[k] ensures t in rest {
      var i :| 0 <= i < |queue| && queue[i] == t;
      assert rest[if i < k then i else i - 1] == t;
    }
  }

  /** Deleting a timer keeps all others, in order. */
  lemma WithoutKeeps(queue: seq<nat>, timeouts: seq<int>, n: nat, tid: nat)
    requires Distinct(queue, n) && Ordered(queue, timeouts)
    ensures Distinct(Without(queue, tid), n) && Ordered(Without(queue, tid), timeouts)
    ensures forall t :: t in Without(queue, tid) <==> t in queue && t != tid
  {
    if k :| 0 <= k < |queue| && queue[k] == tid {
      Dropped(queue, n, k);
      DroppedOrdered(queue, timeouts, k);
      DroppedOnly(queue, k);
      WithoutAt(queue, tid, k);
    } else {
      WithoutNone(queue, tid);
    }
  }

  ghost predicate InRange(queue: seq<nat>, timeouts: seq<int>, limit: nat) {
    forall i :: 0 <= i < |queue| ==> queue[i] < |timeouts| && 0 <= Time(timeouts[queue[i]]) < limit / 2
  }

  ghost predicate InOrder(queue: seq<nat>, timeouts: seq<int>, limit: nat) {
    Ordered(queue, timeouts) && InRange(queue, timeouts, limit)
  }

  /** Timed out timers first, then armed ones in order of time; the times may have run below zero. */
  ghost predicate Loose(queue: seq<nat>, timeouts: seq<int>, limit: nat) {
    && (forall i :: 0 <= i < |queue| ==> queue[i] < |timeouts| && Held(limit, timeouts[queue[i]]))
    && (forall i, j :: 0 <= i < j < |queue| && Armed(timeouts[queue[i]]) ==>
          Armed(timeouts[queue[j]]) && Time(timeouts[queue[i]]) <= Time(timeouts[queue[j]]))
  }

  /** No time left overflows. */
  ghost predicate AllFit(queue: seq<nat>, timeouts: seq<int>, limit: nat, span: nat)
    requires forall i :: 0 <= i < |queue| ==> queue[i] < |timeouts|
  {
    forall i :: 0 <= i < |queue| ==> Fits(limit, timeouts[queue[i]], span)
  }

  /** The timeouts after the pass over the queue. */
  ghost function AllPassed(queue: seq<nat>, before: seq<int>, limit: nat, span: nat): (after: seq<int>)
    requires limit > 0
    ensures |after| == |before|
    ensures forall t :: 0 <= t < |before| ==> after[t] == if t in queue then Passed(limit, before[t], span)
                                                          else before[t]
  {
    seq(|before|, t requires 0 <= t < |before| => if t in queue then Passed(limit, before[t], span) else before[t])
  }

  /** The timeouts when the pass has come to timer i of the queue. */
  ghost function PassedTo(queue: seq<nat>, before: seq<int>, limit: nat, span: nat, i: nat): (now: seq<int>)
    requires limit > 0 && i <= |queue| && forall j :: 0 <= j < |queue| ==> queue[j] < |before|
    ensures |now| == |before|
  {
    if i == 0 then before
    else
      var now := PassedTo(queue, before, limit, span, i - 1);
      now[queue[i - 1] := Passed(limit, now[queue[i - 1]], span)]
  }

  lemma {:induction false} PassedToAt(queue: seq<nat>, before: seq<int>, limit: nat, span: nat, i: nat, t: nat)
    requires limit > 0 && i <= |queue| && t < |before| && Distinct(queue, |before|)
    ensures PassedTo(queue, before, limit, span, i)[t] ==
            if t in queue[..i] then Passed(limit, before[t], span) else before[t]
  {
    if i > 0 {
      PassedToAt(queue, before, limit, span, i - 1, t);
      assert queue[..i] == queue[..i - 1] + [queue[i - 1]];
    }
  }

  /** The pass, timer by timer, is that over all of them. */
  lemma PassedToEnd(queue: seq<nat>, before: seq<int>, limit: nat, span: nat)
    requires limit > 0 && Distinct(queue, |before|)
    ensures PassedTo(queue, before, limit, span, |queue|) == AllPassed(queue, before, limit, span)
  {
    assert queue[..|queue|] == queue;
    forall t: nat | t < |before|
      ensures PassedTo(queue, before, limit, span, |queue|)[t] == AllPassed(queue, before, limit, span)[t]
    {
      PassedToAt(queue, before, limit, span, |queue|, t);
    }
  }

  /** The times left of the timers of the queue; the same timers are armed. */
  ghost predicate Left(queue: seq<nat>, before: seq<int>, after: seq<int>, limit: nat, span: nat)
    requires limit > 0
  {
    && |before| == |after|
    && forall i :: 0 <= i < |queue| ==>
         && queue[i] < |before| && after[queue[i]] == Passed(limit, before[queue[i]], span)
         && (Armed(before[queue[i]]) <==> Armed(after[queue[i]]))
  }

  /** The pass keeps armed timers armed and in order, whether or not a difference overflows. */
  lemma PassedLoose(queue: seq<nat>, before: seq<int>, limit: nat, span: nat)
    requires limit >= 4 && limit % 2 == 0 && span < limit && Loose(queue, before, limit)
    ensures Loose(queue, AllPassed(queue, before, limit, span), limit)
    ensures Left(queue, before, AllPassed(queue, before, limit, span), limit, span)
  {
    var after := AllPassed(queue, before, limit, span);
    forall i | 0 <= i < |queue|
      ensures Held(limit, after[queue[i]]) && (Armed(after[queue[i]]) <==> Armed(before[queue[i]]))
    {
      if Armed(before[queue[i]]) {
        PassedTime(limit, before[queue[i]], span);
      }
    }
    forall i, j | 0 <= i < j < |queue| && Armed(after[queue[i]])
      ensures Armed(after[queue[j]]) && Time(after[queue[i]]) <= Time(after[queue[j]])
    {
      PassedTime(limit, before[queue[i]], span);
      PassedTime(limit, before[queue[j]], span);
    }
  }

  /** The pass makes all times positive and ordered, if and only if no difference overflows. */
  lemma PassedOrderedIff(queue: seq<nat>, before: seq<int>, limit: nat, span: nat)
    requires limit >= 4 && limit % 2 == 0 && span < limit && Loose(queue, before, limit)
    ensures
      var after := AllPassed(queue, before, limit, span);
      InOrder(queue, after, limit) <==> AllFit(queue, before, limit, span)
  {
    var after := AllPassed(queue, before, limit, span);
    forall i | 0 <= i < |queue| && Armed(before[queue[i]])
      ensures Armed(after[queue[i]])
      ensures Fits(limit, before[queue[i]], span) ==>
                Time(after[queue[i]]) == if Time(before[queue[i]]) - span <= 0 then 1 else Time(before[queue[i]]) - span
      ensures !Fits(limit, before[queue[i]], span) ==> Time(after[queue[i]]) < 0
    {
      PassedTime(limit, before[queue[i]], span);
    }
  }

  /** Times that were not below zero never overflow. */
  lemma OrderedFits(queue: seq<nat>, timeouts: seq<int>, limit: nat, span: nat)
    requires InRange(queue, timeouts, limit) && span < limit
    ensures AllFit(queue, timeouts, limit, span)
  {
  }

  /** `timeout` is that of an armed timer of the queue with the smallest time, or idle when none is armed. */
  ghost predicate IsNext(queue: seq<nat>, timeouts: seq<int>, timeout: int) {
    && (forall i :: 0 <= i < |queue| ==> queue[i] < |timeouts|)
    && (forall i :: 0 <= i < |queue| && Armed(timeouts[queue[i]]) ==>
        Armed(timeout) && Time(timeout) <= Time(timeouts[queue[i]]))
    && (Armed(timeout) ==> exists i :: 0 <= i < |queue| && timeouts[queue[i]] == timeout)
    && (!Armed(timeout) ==> timeout == IDLE)
  }

  /** What timer_timeout holds after the first i timers of the pass. */
  ghost function FirstArmed(queue: seq<nat>, after: seq<int>, i: nat): int
    requires i <= |queue| && forall j :: 0 <= j < |queue| ==> queue[j] < |after|
  {
    if i == 0 then IDLE
    else if Armed(FirstArmed(queue, after, i - 1)) || !Armed(after[queue[i - 1]]) then FirstArmed(queue, after, i - 1)
    else after[queue[i - 1]]
  }

  lemma {:induction false} FirstArmedIsNext(queue: seq<nat>, after: seq<int>, limit: nat, i: nat)
    requires i <= |queue| && Loose(queue, after, limit)
    ensures IsNext(queue[..i], after, FirstArmed(queue, after, i))
  {
    if i > 0 {
      FirstArmedIsNext(queue, after, limit, i - 1);
      var prev, q, q' := FirstArmed(queue, after, i - 1), queue[..i - 1], queue[..i];
      assert forall j :: 0 <= j < i - 1 ==> q'[j] == q[j];
      if Armed(prev) {
        var j :| 0 <= j < |q| && after[q[j]] == prev;
        assert q'[j] == queue[j];
      } else if Armed(after[queue[i - 1]]) {
        assert q'[i - 1] == queue[i - 1];
      }
    }
  }

  ghost function Slot(queue: seq<nat>, n: nat, p: nat, j: nat): nat {
    if p > |queue| then (if j < |queue| then queue[j] else n)
    else if j < p then queue[j]
    else if j == p || j > |queue| then n
    else queue[j - 1]
  }

  /** What the pass comes to. */
  lemma AfterPass(queue: seq<nat>, before: seq<int>, limit: nat, span: nat)
    requires limit >= 4 && limit % 2 == 0 && span < limit && Distinct(queue, |before|) && Loose(queue, before, limit)
    ensures
      var after := AllPassed(queue, before, limit, span);
      && PassedTo(queue, before, limit, span, |queue|) == after && Left(queue, before, after, limit, span)
      && Loose(queue, after, limit) && IsNext(queue, after, FirstArmed(queue, after, |queue|))
      && (InOrder(queue, after, limit) <==> AllFit(queue, before, limit, span))
  {
    PassedToEnd(queue, before, limit, span);
    PassedOrderedIff(queue, before, limit, span);
    PassedLoose(queue, before, limit, span);
    FirstArmedIsNext(queue, AllPassed(queue, before, limit, span), limit, |queue|);
    assert queue[..|queue|] == queue;
  }

  class Timers {
    const n: nat
    const limit: nat
    const orders: array<nat>
    const timeouts: array<int>
    var timeout: int
    ghost var queue: seq<nat>

    /** The array is the queue and then invalid slots, one more than there are timers. */
    ghost predicate Shape()
      reads this`queue, orders
    {
      && n > 0 && orders.Length == n + 1 && |queue| <= n && Distinct(queue, n)
      && (forall i :: 0 <= i < |queue| ==> orders[i] == queue[i])
      && (forall i :: |queue| <= i <= n ==> orders[i] == n)
    }

    ghost predicate Sized()
      reads this`queue, orders
    {
      Shape() && timeouts.Length == n && limit >= 4 && limit % 2 == 0
    }

    /** What the timer interrupt leaves: times may have run below zero. */
    ghost predicate Pending()
      reads this, orders, timeouts
    {
      Sized() && Loose(queue, timeouts[..], limit)
    }

    ghost predicate Valid()
      reads this, orders, timeouts
      ensures Valid() ==> Pending()
    {
      Sized() && InOrder(queue, timeouts[..], limit)
    }

    /** timer_timeout is that of the next timer. */
    ghost predicate Next()
      reads this, timeouts
    {
      IsNext(queue, timeouts[..], timeout)
    }

    constructor (n: nat, limit: nat)
      requires n > 0 && limit >= 4 && limit % 2 == 0
      ensures Valid() && queue == [] && fresh(orders) && fresh(timeouts) && this.n == n && this.limit == limit
      ensures forall i :: 0 <= i < n ==> timeouts[i] == IDLE
    {
      this.n, this.limit := n, limit;
      orders := new nat[n + 1](i => n);
      timeouts := new int[n](i => IDLE);
      timeout, queue := IDLE, [];
    }

    /** The second loop of __timer_del: the number at k is swapped to the end and overwritten. */
    method CloseUp(k: nat)
      requires Shape() && k < |queue|
      modifies this`queue, orders
      ensures Shape() && queue == old(queue)[..k] + old(queue)[k + 1..]
    {
      Dropped(queue, n, k);
      var i := k;
      ghost var was, tid := orders[..], orders[k];
      while i < n - 1
        invariant k <= i <= n - 1 && orders[i] == tid && queue == old(queue)
        invariant forall j :: 0 <= j < k ==> orders[j] == was[j]
        invariant forall j :: k <= j < i ==> orders[j] == was[j + 1]
        invariant forall j :: i < j <= n ==> orders[j] == was[j]
      {
        if orders[i] != n {
          orders[i], orders[i + 1] := orders[i + 1], orders[i];
        }
        i := i + 1;
      }
      orders[i] := n;
      queue := queue[..k] + queue[k + 1..];
    }

    /** __timer_del */
    method Del(tid: nat)
      requires Shape() && tid < n
      modifies this`queue, orders
      ensures Shape() && queue == Without(old(queue), tid)
    {
      var i := 0;
      while i < n
        invariant i <= n && i <= |queue| && tid !in queue[..i]
      {
        if orders[i] == n {
          assert queue[..i] == queue;
          WithoutNone(queue, tid);
          return;
        }
        if orders[i] == tid {
          WithoutAt(queue, tid, i);
          CloseUp(i);
          return;
        }
        i := i + 1;
      }
      assert queue[..i] == queue;
      WithoutNone(queue, tid);
      orders[n] := n;
    }

    /** The slots while the later timers from p on have moved up by one, leaving p free. */
    ghost predicate Open(p: nat)
      reads this, orders
    {
      && orders.Length == n + 1 && |queue| < n
      && forall j :: 0 <= j <= n ==> orders[j] == Slot(queue, n, p, j)
    }

    /** One turn of __timer_add at slot p - 1; done when the timer there is not later. */
    method AddTurn(tid: nat, p: nat) returns (done: bool)
      requires Open(p) && Distinct(queue, n) && timeouts.Length == n && 0 < p <= n && tid < n && tid !in queue
      modifies orders
      ensures done ==>
                p <= |queue| && orders[p] == tid && (forall j :: 0 <= j <= n && j != p ==>
                    orders[j] == Slot(queue, n, p, j))
      ensures done ==> Time(timeouts[queue[p - 1]]) <= Time(timeouts[tid])
      ensures !done ==> Open(p - 1) && (p - 1 < |queue| ==> Time(timeouts[queue[p - 1]]) > Time(timeouts[tid]))
    {
      var t := orders[p - 1];
      assert t != tid;
      if t != n {
        assert p < n;
        if Time(timeouts[t]) > Time(timeouts[tid]) {
          orders[p] := t;
          orders[p - 1] := n;
        } else {
          orders[p] := tid;
          return true;
        }
      }
      return false;
    }

    /** The free slot holds the new timer. */
    ghost method Filled(tid: nat, k: nat)
      requires n > 0 && orders.Length == n + 1 && |queue| < n && Distinct(queue, n) && tid < n && tid !in queue
      requires k <= |queue|
      requires orders[k] == tid && forall j :: 0 <= j <= n && j != k ==> orders[j] == Slot(queue, n, k, j)
      modifies this`queue
      ensures Shape() && queue == Added(old(queue), tid, k)
    {
      AddedDistinct(queue, n, tid, k);
      queue := Added(queue, tid, k);
    }

    /** __timer_add: behind the last timer that is not later; no BUG_ON is reached. */
    method Add(tid: nat) returns (ghost k: nat)
      requires Shape() && tid < n && tid !in queue && timeouts.Length == n
      modifies this`queue, orders
      ensures Shape() && k <= |old(queue)| && queue == Added(old(queue), tid, k)
      ensures k > 0 ==> Time(timeouts[old(queue)[k - 1]]) <= Time(timeouts[tid])
      ensures forall j :: k <= j < |old(queue)| ==> Time(timeouts[old(queue)[j]]) > Time(timeouts[tid])
    {
      RoomForOne(queue, n, tid);
      var p: nat, done := n, false;
      while p > 0
        invariant p <= n && queue == old(queue) && Open(p)
        invariant forall j :: p <= j < |queue| ==> Time(timeouts[queue[j]]) > Time(timeouts[tid])
      {
        done := AddTurn(tid, p);
        if done {
          k := p;
          Filled(tid, k);
          return;
        }
        p := p - 1;
      }
      assert orders[0] == n;
      orders[0] := tid;
      k := 0;
      Filled(tid, 0);
    }

    /** One turn of __timer_recalc_timeout. */
    method Pass(tid: nat, span: nat)
      requires tid < timeouts.Length && limit > 0
      modifies this`timeout, timeouts
      ensures timeouts[tid] == Passed(limit, old(timeouts[tid]), span)
      ensures forall t :: 0 <= t < timeouts.Length && t != tid ==> timeouts[t] == old(timeouts[t])
      ensures timeout == if Armed(old(timeouts[tid])) && !Armed(old(timeout)) then timeouts[tid] else old(timeout)
    {
      if Armed(timeouts[tid]) {
        var left := Wrap(limit, Time(timeouts[tid]) - span);
        if left <= 0 {
          left := 1;
        }
        timeouts[tid] := Make(limit, left);
        if !Armed(timeout) {
          timeout := timeouts[tid];
        }
      }
    }

    /** One turn of the pass, at the i-th timer of the queue. */
    method PassTurn(i: nat, span: nat, ghost before: seq<int>, ghost after: seq<int>)
      requires Sized() && i < |queue| && |before| == n && Left(queue, before, after, limit, span)
      requires timeouts[..] == PassedTo(queue, before, limit, span, i) && timeout == FirstArmed(queue, after, i)
      modifies this`timeout, timeouts
      ensures Sized() && timeouts[..] == PassedTo(queue, before, limit, span, i + 1)
      ensures timeout == FirstArmed(queue, after, i + 1)
    {
      ghost var now := timeouts[..];
      var tid := orders[i];
      PassedToAt(queue, before, limit, span, i, tid);
      assert tid == queue[i] && tid !in queue[..i] && now[tid] == before[tid];
      Pass(tid, span);
      assert timeouts[..] == now[tid := after[tid]];
    }

    /** The loop goes on while a timer is left. */
    lemma Ends(i: nat)
      requires Shape() && i <= |queue|
      ensures i < n && orders[i] != n <==> i < |queue|
    {
    }

    /** The loop of __timer_recalc_timeout. */
    method PassAll(span: nat, ghost before: seq<int>, ghost after: seq<int>)
      requires Sized() && before == timeouts[..] && Left(queue, before, after, limit, span)
      modifies this`timeout, timeouts
      ensures timeouts[..] == PassedTo(queue, before, limit, span, |queue|)
      ensures timeout == FirstArmed(queue, after, |queue|)
    {
      timeout := IDLE;
      var i: nat := 0;
      Ends(i);
      while i < n && orders[i] != n
        invariant i <= |queue| && Sized() && timeouts[..] == PassedTo(queue, before, limit, span, i)
        invariant timeout == FirstArmed(queue, after, i)
        invariant i < n && orders[i] != n <==> i < |queue|
        decreases |queue| - i
      {
        PassTurn(i, span, before, after);
        i := i + 1;
        Ends(i);
      }
    }

    /**
     __timer_recalc_timeout(false) after `span` ticks.  timer_timeout is the smallest in every case, so the
     comparison that its BUG_ON was meant to make never fails.
     */
    method Recalc(span: nat)
      requires Pending() && span < limit
      modifies this`timeout, timeouts
      ensures Pending() && Next() && timeouts[..] == AllPassed(queue, old(timeouts[..]), limit, span)
      ensures Valid() <==> AllFit(queue, old(timeouts[..]), limit, span)
    {
      ghost var before := timeouts[..];
      AfterPass(queue, before, limit, span);
      PassAll(span, before, AllPassed(queue, before, limit, span));
    }

    /** The timer leaves the queue and the others are passed over. */
    method Unschedule(tid: nat, span: nat)
      requires Pending() && tid < n && span < limit
      modifies this, orders, timeouts
      ensures Pending() && Next() && tid !in queue && queue == Without(old(queue), tid)
      ensures timeouts[..] == AllPassed(queue, old(timeouts[..]), limit, span)
    {
      WithoutLoose(queue, timeouts[..], limit, n, tid);
      Del(tid);
      Recalc(span);
    }

    /** The timer is armed and takes its place. */
    method Arm(tid: nat, time: nat) returns (ghost k: nat)
      requires Pending() && Next() && tid < n && tid !in queue && 1 <= time < limit
      modifies this, orders, timeouts
      ensures Sized() && Rearmed(old(queue), old(timeouts[..]), queue, timeouts[..], tid, k, limit, time, timeout)
    {
      ghost var others, before := queue, timeouts[..];
      timeouts[tid] := Make(limit, time);
      assert timeouts[..] == before[tid := Make(limit, time)];
      k := Add(tid);
      RearmedBy(others, before, timeouts[..], tid, k, limit, time, timeout);
      if !Armed(timeout) || time < Time(timeout) {
        timeout := timeouts[tid];
      }
    }

    /** timer_schedule_shot, `span` ticks after the last pass. */
    method Schedule(tid: nat, ms: int, span: nat) returns (ghost k: nat)
      requires Pending() && tid < n && 0 <= ms + limit < 2 * limit && span < limit
      modifies this, orders, timeouts
      ensures Sized()
      ensures Scheduled(old(queue), old(timeouts[..]), queue, timeouts[..], tid, k, limit, ms, span, timeout)
    {
      ghost var queue0, was := queue, timeouts[..];
      WithoutLoose(queue0, was, limit, n, tid);
      Unschedule(tid, span);
      k := Arm(tid, if ms <= 0 then 1 else ms);
      ScheduledBy(queue0, was, queue, timeouts[..], tid, k, limit, ms, span, timeout);
    }
  }

  /** A queue of one timer. */
  method OneTimer() returns (t: Timers)
    ensures fresh(t) && fresh(t.orders) && fresh(t.timeouts) && t.Valid() && t.n == 2 && t.limit == 0x8000_0000
    ensures t.queue == [0] && t.timeouts[..] == [Make(0x8000_0000, 10), IDLE]
  {
    t := new Timers(2, 0x8000_0000);
    ghost var was := t.timeouts[..];
    ghost var k := t.Schedule(0, 10, 0);
    FirstOne(was, t.queue, t.timeouts[..], k, 0x8000_0000, 10, t.timeout);
  }

  lemma FirstOne(was: seq<int>, queue: seq<nat>, after: seq<int>, k: nat, limit: nat, time: nat, timeout: int)
    requires limit >= 4 && limit % 2 == 0 && 1 <= time < limit / 2 && was == [IDLE, IDLE]
    requires Scheduled([], was, queue, after, 0, k, limit, time, 0, timeout)
    ensures queue == [0] && after == [Make(limit, time), IDLE]
    ensures InOrder(queue, after, limit) && IsNext(queue, after, timeout)
  {
    assert Without([], 0) == [];
    assert AllPassed([], was, limit, 0) == was;
  }

  /** A timeout that is let through and does not fit: the timer is first in the queue, and timer_timeout misses it. */
  method LongTimeoutIsMissed() returns (t: Timers)
    ensures fresh(t) && t.n == 2 && t.limit == 0x8000_0000 && t.queue == [1, 0]
    ensures t.timeouts[..] == [Make(0x8000_0000, 10), Make(0x8000_0000, 0x7FFF_FFFF)]
    ensures Time(t.timeouts[..][0]) == 10 && Time(t.timeouts[..][1]) == -1
    ensures !IsNext(t.queue, t.timeouts[..], t.timeout)
  {
    t := OneTimer();
    ghost var was := t.timeouts[..];
    ghost var k := t.Schedule(1, 0x7FFF_FFFF, 0);
    SecondMissed(was, t.queue, t.timeouts[..], k, 0x8000_0000, 10, 0x7FFF_FFFF, t.timeout);
  }

  /** Of two timers, the one whose timeout wraps is first and is missed. */
  lemma SecondMissed(was: seq<int>, queue: seq<nat>, after: seq<int>, k: nat, limit: nat, time: nat, long: nat,
                     timeout: int)
    requires limit >= 4 && limit % 2 == 0 && 1 <= time < limit / 2 <= long < limit
    requires was == [Make(limit, time), IDLE] && Scheduled([0], was, queue, after, 1, k, limit, long, 0, timeout)
    ensures queue == [1, 0] && after == [Make(limit, time), Make(limit, long)]
    ensures Time(after[0]) == time && Time(after[1]) == long - limit && !IsNext(queue, after, timeout)
  {
    StillOne(was, limit, time);
    SecondFirst(was, after, k, limit, time, long);
    assert Armed(was[[0][0]]) && SomeArmed([0], was);
    assert Later([0], was, long - limit);
  }

  lemma SecondFirst(was: seq<int>, after: seq<int>, k: nat, limit: nat, time: nat, long: nat)
    requires limit >= 4 && limit % 2 == 0 && 1 <= time < limit / 2 <= long < limit && |was| == 2 && Time(was[0]) == time
    requires after == was[1 := Make(limit, long)] && k <= 1 && WeakPlace([0], after, 1, k)
    ensures k == 0 && Added([0], 1, k) == [1, 0] && Time(after[1]) == long - limit
  {
    MakeRoundTripsIff(limit, long);
  }

  lemma StillOne(was: seq<int>, limit: nat, time: nat)
    requires limit >= 4 && limit % 2 == 0 && 1 <= time < limit / 2 && was == [Make(limit, time), IDLE]
    ensures Without([0], 1) == [0] && AllPassed([0], was, limit, 0) == was && Armed(was[0]) && Time(was[0]) == time
  {
    MakeRoundTripsIff(limit, time);
    PassedTime(limit, was[0], 0);
    WithoutNone([0], 1);
  }

  // ----- lemmas about the queue with a timer more or less

  ghost predicate SomeArmed(queue: seq<nat>, timeouts: seq<int>) {
    exists i :: 0 <= i < |queue| && queue[i] < |timeouts| && Armed(timeouts[queue[i]])
  }

  ghost predicate SomeIdle(queue: seq<nat>, timeouts: seq<int>) {
    exists i :: 0 <= i < |queue| && queue[i] < |timeouts| && !Armed(timeouts[queue[i]])
  }

  /** Every armed timer is later than the time. */
  ghost predicate Later(queue: seq<nat>, timeouts: seq<int>, time: int) {
    forall i :: 0 <= i < |queue| && queue[i] < |timeouts| && Armed(timeouts[queue[i]]) ==>
      Time(timeouts[queue[i]]) > time
  }

  lemma WithoutLoose(queue: seq<nat>, timeouts: seq<int>, limit: nat, n: nat, tid: nat)
    requires Distinct(queue, n) && Loose(queue, timeouts, limit)
    ensures Loose(Without(queue, tid), timeouts, limit) && tid !in Without(queue, tid)
  {
    if k :| 0 <= k < |queue| && queue[k] == tid {
      Dropped(queue, n, k);
      WithoutAt(queue, tid, k);
      LooseRest(queue, timeouts, limit, k);
    } else {
      WithoutNone(queue, tid);
    }
  }

  lemma LooseRest(queue: seq<nat>, timeouts: seq<int>, limit: nat, k: nat)
    requires k < |queue| && Loose(queue, timeouts, limit)
    ensures Loose(queue[..k] + queue[k + 1..], timeouts, limit)
  {
    var rest := queue[..k] + queue[k + 1..];
    assert forall i :: 0 <= i < |rest| ==> rest[i] == queue[if i < k then i else i + 1];
  }

  /** The pass changes no timer's being armed. */
  lemma SameArmed(queue: seq<nat>, before: seq<int>, limit: nat, span: nat)
    requires limit >= 4 && limit % 2 == 0 && span < limit && Loose(queue, before, limit)
    ensures SomeArmed(queue, AllPassed(queue, before, limit, span)) <==> SomeArmed(queue, before)
    ensures SomeIdle(queue, AllPassed(queue, before, limit, span)) <==> SomeIdle(queue, before)
  {
    PassedLoose(queue, before, limit, span);
  }

  /** A timer that is not in the queue changes nothing for it. */
  lemma OtherTimeout(queue: seq<nat>, before: seq<int>, after: seq<int>, limit: nat, tid: nat)
    requires tid < |before| && |after| == |before| && after == before[tid := after[tid]] && tid !in queue
    ensures InOrder(queue, after, limit) <==> InOrder(queue, before, limit)
    ensures Loose(queue, after, limit) <==> Loose(queue, before, limit)
  {
    assert forall i :: 0 <= i < |queue| && queue[i] < |before| ==> after[queue[i]] == before[queue[i]];
    if Loose(queue, before, limit) {
    }
  }

  lemma OtherNext(queue: seq<nat>, before: seq<int>, after: seq<int>, tid: nat, timeout: int, time: int)
    requires tid < |before| && |after| == |before| && after == before[tid := after[tid]] && tid !in queue
    ensures IsNext(queue, after, timeout) <==> IsNext(queue, before, timeout)
    ensures SomeArmed(queue, after) <==> SomeArmed(queue, before)
    ensures SomeIdle(queue, after) <==> SomeIdle(queue, before)
    ensures Later(queue, after, time) <==> Later(queue, before, time)
  {
    assert forall i :: 0 <= i < |queue| && queue[i] < |before| ==> after[queue[i]] == before[queue[i]];
  }

  lemma AddedAt(queue: seq<nat>, tid: nat, k: nat)
    requires k <= |queue|
    ensures
      var after := Added(queue, tid, k);
      && after[k] == tid && (forall i :: 0 <= i < k ==> after[i] == queue[i])
      && forall i :: k <= i < |queue| ==> after[i + 1] == queue[i]
  {
  }

  /** The smaller of the new timeout and the smallest before is the smallest now. */
  lemma AddedNext(queue: seq<nat>, timeouts: seq<int>, tid: nat, k: nat, timeout: int)
    requires k <= |queue| && tid < |timeouts| && IsNext(queue, timeouts, timeout) && Armed(timeouts[tid])
    ensures IsNext(Added(queue, tid, k), timeouts,
                   if !Armed(timeout) || Time(timeouts[tid]) < Time(timeout) then timeouts[tid] else timeout)
  {
    var after := Added(queue, tid, k);
    assert after[k] == tid;
    forall i | 0 <= i < |after| ensures after[i] == if i < k then queue[i] else if i == k then tid else queue[i - 1] {
    }
    if Armed(timeout) {
      var i :| 0 <= i < |queue| && timeouts[queue[i]] == timeout;
      assert after[if i < k then i else i + 1] == queue[i];
    }
  }

  /** A timer placed behind the last that is not later, in a queue in order, is behind all that are not later. */
  lemma NewPlace(queue: seq<nat>, timeouts: seq<int>, tid: nat, k: nat)
    requires Ordered(queue, timeouts) && k <= |queue| && tid < |timeouts|
    requires k > 0 ==> Time(timeouts[queue[k - 1]]) <= Time(timeouts[tid])
    requires forall j :: k <= j < |queue| ==> Time(timeouts[queue[j]]) > Time(timeouts[tid])
    ensures Place(queue, timeouts, Time(timeouts[tid]), k)
  {
  }

  /** The queue is in order with the timer if and only if it is without, and the timer is in range. */
  lemma AddedInOrderIff(queue: seq<nat>, timeouts: seq<int>, tid: nat, k: nat, limit: nat)
    requires k <= |queue| && tid < |timeouts| && Armed(timeouts[tid])
    requires InOrder(queue, timeouts, limit) ==> Place(queue, timeouts, Time(timeouts[tid]), k)
    ensures InOrder(Added(queue, tid, k), timeouts, limit) <==>
              InOrder(queue, timeouts, limit) && 1 <= Time(timeouts[tid]) < limit / 2
  {
    var after := Added(queue, tid, k);
    AddedAt(queue, tid, k);
    if InOrder(after, timeouts, limit) {
      assert after[k] == tid;
      forall i | 0 <= i < |queue| ensures queue[i] == after[if i < k then i else i + 1] {
      }
    }
    if InOrder(queue, timeouts, limit) && 1 <= Time(timeouts[tid]) < limit / 2 {
      AddedOrdered(queue, timeouts, tid, k);
      forall i | 0 <= i < |after| ensures after[i] == if i < k then queue[i] else if i == k then tid else queue[i - 1] {
      }
    }
  }

  /** A timeout that wraps is missed exactly when another timer is armed and none of them comes before it. */
  lemma WrappedNextIff(queue: seq<nat>, timeouts: seq<int>, tid: nat, k: nat, limit: nat, time: nat, timeout: int)
    requires k <= |queue| && tid < |timeouts| && IsNext(queue, timeouts, timeout) && Loose(queue, timeouts, limit)
    requires Armed(timeouts[tid]) && Time(timeouts[tid]) == (if time < limit / 2 then time else time - limit)
    requires limit >= 4 && 1 <= time < limit
    ensures
      var next := if !Armed(timeout) || time < Time(timeout) then timeouts[tid] else timeout;
      IsNext(Added(queue, tid, k), timeouts, next) <==>
        time < limit / 2 || !SomeArmed(queue, timeouts) || !Later(queue, timeouts, time - limit)
  {
    var after := Added(queue, tid, k);
    AddedNext(queue, timeouts, tid, k, timeout);
    AddedAt(queue, tid, k);
    if time >= limit / 2 && Armed(timeout) {
      var i :| 0 <= i < |queue| && timeouts[queue[i]] == timeout;
      assert Held(limit, timeouts[queue[i]]);
      if Later(queue, timeouts, time - limit) {
        assert after[k] == tid;
      }
    }
  }

  /** The queue stays idle timers first, armed ones in order, unless a wrapped timeout gets ahead of an idle timer. */
  lemma AddedLooseIff(queue: seq<nat>, timeouts: seq<int>, tid: nat, k: nat, limit: nat)
    requires k <= |queue| && tid < |timeouts| && Armed(timeouts[tid]) && Held(limit, timeouts[tid])
    requires Loose(queue, timeouts, limit) && WeakPlace(queue, timeouts, tid, k)
    ensures Loose(Added(queue, tid, k), timeouts, limit) <==>
              Time(timeouts[tid]) >= 0 || !SomeIdle(queue, timeouts) || !Later(queue, timeouts, Time(timeouts[tid]))
  {
    var after := Added(queue, tid, k);
    AddedAt(queue, tid, k);
    if Time(timeouts[tid]) < 0 && SomeIdle(queue, timeouts) && Later(queue, timeouts, Time(timeouts[tid])) {
      var i :| 0 <= i < |queue| && queue[i] < |timeouts| && !Armed(timeouts[queue[i]]);
      assert after[k] == tid && after[i + 1] == queue[i];
    } else {
      forall j | k <= j < |queue| ensures Armed(timeouts[queue[j]]) {
        ArmedBehind(queue, timeouts, tid, k, limit, j);
      }
      AddedLoose(queue, timeouts, tid, k, limit);
    }
  }

  lemma ArmedBehind(queue: seq<nat>, timeouts: seq<int>, tid: nat, k: nat, limit: nat, j: nat)
    requires k <= j < |queue| && tid < |timeouts| && Loose(queue, timeouts, limit) && WeakPlace(queue, timeouts, tid, k)
    requires Time(timeouts[tid]) >= 0 || !SomeIdle(queue, timeouts) || !Later(queue, timeouts, Time(timeouts[tid]))
    ensures Armed(timeouts[queue[j]])
  {
    if !Armed(timeouts[queue[j]]) {
      assert SomeIdle(queue, timeouts);
    }
  }

  lemma AddedLoose(queue: seq<nat>, timeouts: seq<int>, tid: nat, k: nat, limit: nat)
    requires k <= |queue| && tid < |timeouts| && Armed(timeouts[tid]) && Held(limit, timeouts[tid])
    requires Loose(queue, timeouts, limit) && WeakPlace(queue, timeouts, tid, k)
    requires forall j :: k <= j < |queue| ==> Armed(timeouts[queue[j]])
    ensures Loose(Added(queue, tid, k), timeouts, limit)
  {
    var after := Added(queue, tid, k);
    assert forall i :: 0 <= i < k && Armed(timeouts[queue[i]]) ==> Time(timeouts[queue[i]]) <= Time(timeouts[tid]);
    forall i, j | 0 <= i < j < |after| && Armed(timeouts[after[i]])
      ensures Armed(timeouts[after[j]]) && Time(timeouts[after[i]]) <= Time(timeouts[after[j]])
    {
      assert after[i] == if i < k then queue[i] else if i == k then tid else queue[i - 1];
      assert after[j] == if j < k then queue[j] else if j == k then tid else queue[j - 1];
    }
  }

  /** The timer is behind one that is not later, or first, and before only later ones. */
  ghost predicate WeakPlace(queue: seq<nat>, timeouts: seq<int>, tid: nat, k: nat) {
    && tid < |timeouts| && k <= |queue| && (forall i :: 0 <= i < |queue| ==> queue[i] < |timeouts|)
    && (k > 0 ==> Time(timeouts[queue[k - 1]]) <= Time(timeouts[tid]))
    && (forall j :: k <= j < |queue| ==> Time(timeouts[queue[j]]) > Time(timeouts[tid]))
  }

  /** A timer was armed for `time`, and the others are those of `others` with the timeouts of `before`. */
  ghost predicate Rearmed(others: seq<nat>, before: seq<int>, queue: seq<nat>, after: seq<int>,
                          tid: nat, k: nat, limit: nat, time: nat, timeout: int)
    requires limit > 0
  {
    && tid < |before| && after == before[tid := Make(limit, time)]
    && k <= |others| && queue == Added(others, tid, k) && WeakPlace(others, after, tid, k)
    && (InOrder(others, before, limit) ==> Place(others, after, Time(after[tid]), k))
    && (InOrder(queue, after, limit) <==> InOrder(others, before, limit) && time < limit / 2)
    && (Loose(queue, after, limit) <==>
          time < limit / 2 || !SomeIdle(others, before) || !Later(others, before, time - limit))
    && (IsNext(queue, after, timeout) <==>
          time < limit / 2 || !SomeArmed(others, before) || !Later(others, before, time - limit))
  }

  lemma RearmedBy(others: seq<nat>, before: seq<int>, after: seq<int>, tid: nat, k: nat, limit: nat, time: nat,
                  timeout: int)
    requires limit >= 4 && limit % 2 == 0 && 1 <= time < limit && tid < |before| && tid !in others
    requires after == before[tid := Make(limit, time)] && WeakPlace(others, after, tid, k)
    requires Loose(others, before, limit) && IsNext(others, before, timeout)
    ensures Rearmed(others, before, Added(others, tid, k), after, tid, k, limit, time,
                    if !Armed(timeout) || time < Time(timeout) then after[tid] else timeout)
  {
    MakeRoundTripsIff(limit, time);
    OtherTimeout(others, before, after, limit, tid);
    OtherNext(others, before, after, tid, timeout, time - limit);
    if InOrder(others, before, limit) {
      NewPlace(others, after, tid, k);
    }
    WrappedNextIff(others, after, tid, k, limit, time, timeout);
    AddedInOrderIff(others, after, tid, k, limit);
    AddedLooseIff(others, after, tid, k, limit);
  }

  /**
   The outcome of timer_schedule_shot.  The queue is in order if and only if no time left overflows and the timeout
   fits beside the flag.  timer_timeout is the smallest if and only if the timeout fits, no other timer is armed, or
   one of them comes before it all the same.  The next call finds a queue it can work on if and only if the timeout
   fits, no other timer is idle, or an armed one comes before it.
   */
  ghost predicate Scheduled(queue0: seq<nat>, was: seq<int>, queue: seq<nat>, after: seq<int>,
                            tid: nat, k: nat, limit: nat, ms: int, span: nat, timeout: int)
    requires limit > 0
  {
    var others := Without(queue0, tid);
    var passed := AllPassed(others, was, limit, span);
    && tid < |was| && after == passed[tid := Make(limit, if ms <= 0 then 1 else ms)]
    && k <= |others| && queue == Added(others, tid, k) && WeakPlace(others, after, tid, k)
    && (InOrder(others, passed, limit) <==> AllFit(others, was, limit, span))
    && (AllFit(others, was, limit, span) ==> Place(others, after, Time(after[tid]), k))
    && (InOrder(queue, after, limit) <==> AllFit(others, was, limit, span) && ms < limit / 2)
    && (Loose(queue, after, limit) <==>
          ms < limit / 2 || !SomeIdle(others, was) || !Later(others, passed, ms - limit))
    && (IsNext(queue, after, timeout) <==>
          ms < limit / 2 || !SomeArmed(others, was) || !Later(others, passed, ms - limit))
  }

  lemma ScheduledBy(queue0: seq<nat>, was: seq<int>, queue: seq<nat>, after: seq<int>,
                    tid: nat, k: nat, limit: nat, ms: int, span: nat, timeout: int)
    requires limit >= 4 && limit % 2 == 0 && span < limit && tid < |was| && Loose(Without(queue0, tid), was, limit)
    requires
      var others := Without(queue0, tid);
      var time := if ms <= 0 then 1 else ms;
      Rearmed(others, AllPassed(others, was, limit, span), queue, after, tid, k, limit, time, timeout)
    ensures Scheduled(queue0, was, queue, after, tid, k, limit, ms, span, timeout)
  {
    var others := Without(queue0, tid);
    PassedOrderedIff(others, was, limit, span);
    SameArmed(others, was, limit, span);
  }
}
