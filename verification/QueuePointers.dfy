/**
 The wrapped pointers of the SMMUv3 circular queues: an index of `shift` bits and
 one wrap bit above it (section 3.5 of Arm IHI 0070; include/driver/arm_smmuv3.h).
 A pointer stands for an unbounded position modulo twice the queue size.
 */
module QueuePointers {
  import opened Arithmetic

  /** Q_IDX and Q_WRP of a pointer word; the owned flag of the word is kept apart. */
  function Idx(size: nat, p: nat): nat
    requires size > 0
  {
    p % size
  }

  predicate Wrp(size: nat, p: nat)
    requires size > 0
  {
    p / size % 2 == 1
  }

  /** The pointer word of an unbounded position. */
  function Word(size: nat, position: nat): nat
    requires size > 0
  {
    position % (2 * size)
  }

  // ----- the queue tests of the driver, on pointer words

  predicate HasSpace(size: nat, prod: nat, cons: nat, n: nat)
    requires size > 0
  {
    var space := if Wrp(size, prod) == Wrp(size, cons)
                 then size - (Idx(size, prod) - Idx(size, cons))
                 else Idx(size, cons) - Idx(size, prod);
    space >= n
  }

  predicate Full(size: nat, prod: nat, cons: nat)
    requires size > 0
  {
    Idx(size, prod) == Idx(size, cons) && Wrp(size, prod) != Wrp(size, cons)
  }

  predicate Empty(size: nat, prod: nat, cons: nat)
    requires size > 0
  {
    Idx(size, prod) == Idx(size, cons) && Wrp(size, prod) == Wrp(size, cons)
  }

  predicate Consumed(size: nat, cons: nat, prod: nat)
    requires size > 0
  {
    || (Wrp(size, cons) == Wrp(size, prod) && Idx(size, cons) > Idx(size, prod))
    || (Wrp(size, cons) != Wrp(size, prod) && Idx(size, cons) <= Idx(size, prod))
  }

  /** queue_inc_prod_n without the flag: add, then keep wrap bit and index. */
  function Inc(size: nat, p: nat, n: nat): nat
    requires size > 0
  {
    (p % (2 * size) + n) % (2 * size)
  }

  // ----- words against positions

  lemma SplitTwice(size: nat, x: nat)
    requires size > 0
    ensures
      var a, i := x / size, x % size;
      x == (a / 2) * (2 * size) + (a % 2 * size + i) && a % 2 * size + i < 2 * size
  {
    var a, i := x / size, x % size;
    var q, b := a / 2, a % 2;
    assert x == a * size + i;
    assert a * size == (2 * q + b) * size == q * (2 * size) + b * size;
    assert b == 0 || b == 1;
  }

  /** A word has the index and the wrap bit of its position. */
  lemma WordFields(size: nat, x: nat)
    requires size > 0
    ensures Idx(size, Word(size, x)) == Idx(size, x)
    ensures Wrp(size, Word(size, x)) == Wrp(size, x)
  {
    var a, i := x / size, x % size;
    SplitTwice(size, x);
    DivUnique(a / 2, a % 2 * size + i, 2 * size);
    DivUnique(a % 2, i, size);
  }

  /** Going forward by at most one lap moves the index and flips the wrap bit at the end of the ring. */
  lemma Advance(size: nat, x: nat, d: nat)
    requires size > 0 && d <= size
    ensures Idx(size, x) + d < size ==> Idx(size, x + d) == Idx(size, x) + d && Wrp(size, x + d) == Wrp(size, x)
    ensures Idx(size, x) + d >= size ==> Idx(size, x + d) == Idx(size, x) + d - size && Wrp(size, x + d) != Wrp(size, x)
  {
    var a, i := x / size, x % size;
    assert x == a * size + i;
    if i + d < size {
      assert x + d == a * size + (i + d);
      DivUnique(a, i + d, size);
    } else {
      assert x + d == (a + 1) * size + (i + d - size);
      DivUnique(a + 1, i + d - size, size);
    }
  }

  /** The increment of a word is the word of the incremented position. */
  lemma IncIsExact(size: nat, x: nat, n: nat)
    requires size > 0
    ensures Inc(size, Word(size, x), n) == Word(size, x + n)
  {
    ModSum(x, n, 2 * size);
    ModSum(x, 0, 2 * size);
  }

  /** The space test is exact while the producer is at most one lap ahead. */
  lemma HasSpaceIsExact(size: nat, prod: nat, cons: nat, n: nat)
    requires size > 0 && cons <= prod <= cons + size
    ensures HasSpace(size, Word(size, prod), Word(size, cons), n) <==> prod + n <= cons + size
  {
    WordFields(size, prod);
    WordFields(size, cons);
    Advance(size, cons, prod - cons);
  }

  lemma FullIsExact(size: nat, prod: nat, cons: nat)
    requires size > 0 && cons <= prod <= cons + size
    ensures Full(size, Word(size, prod), Word(size, cons)) <==> prod == cons + size
    ensures Empty(size, Word(size, prod), Word(size, cons)) <==> prod == cons
  {
    WordFields(size, prod);
    WordFields(size, cons);
    Advance(size, cons, prod - cons);
  }

  /** The consumption test is exact while the consumer is within one lap of the slot, on either side. */
  lemma ConsumedIsExact(size: nat, cons: nat, slot: nat)
    requires size > 0 && slot < cons + size && cons <= slot + size
    ensures Consumed(size, Word(size, cons), Word(size, slot)) <==> cons > slot
  {
    WordFields(size, cons);
    WordFields(size, slot);
    if cons > slot {
      Advance(size, slot, cons - slot);
    } else {
      Advance(size, cons, slot - cons);
    }
  }

  /** One lap further the test is wrong, so the bound of ConsumedIsExact is the exact one. */
  lemma ConsumedFailsAfterALap(size: nat, slot: nat)
    requires size > 0
    ensures !Consumed(size, Word(size, slot + size + 1), Word(size, slot))
    ensures slot >= size ==> Consumed(size, Word(size, slot - size), Word(size, slot))
  {
    WordFields(size, slot);
    WordFields(size, slot + size + 1);
    Advance(size, slot, size);
    Advance(size, slot + size, 1);
    if slot >= size {
      WordFields(size, slot - size);
      Advance(size, slot - size, size);
    }
  }

  /** Words are equal exactly when the positions are, when they are less than two laps apart. */
  lemma WordsEqualIffPositions(size: nat, x: nat, y: nat)
    requires size > 0 && x <= y < x + 2 * size
    ensures Word(size, x) == Word(size, y) <==> x == y
  {
    var d := 2 * size;
    var q, r := x / d, x % d;
    assert x == q * d + r;
    if r + (y - x) < d {
      assert y == q * d + (r + (y - x));
      DivUnique(q, r + (y - x), d);
    } else {
      assert y == (q + 1) * d + (r + (y - x) - d);
      DivUnique(q + 1, r + (y - x) - d, d);
    }
  }
}
