/** Bitwise operations on natural numbers, and rounding with a mask (include/target/bitops.h). */
module Bits {
  import opened Arithmetic

  function And(x: nat, y: nat): nat {
    if x == 0 || y == 0 then 0 else 2 * And(x / 2, y / 2) + (if x % 2 == 1 && y % 2 == 1 then 1 else 0)
  }

  function Or(x: nat, y: nat): nat {
    if x == 0 then y else 2 * Or(x / 2, y / 2) + (if x % 2 == 1 || y % 2 == 1 then 1 else 0)
  }

  /** x & ~y */
  function AndNot(x: nat, y: nat): nat {
    if x == 0 then 0 else 2 * AndNot(x / 2, y / 2) + (if x % 2 == 1 && y % 2 == 0 then 1 else 0)
  }

  /** round_down */
  function MaskDown(x: nat, y: nat): nat
    requires y > 0
  {
    AndNot(x, y - 1)
  }

  /** round_up; x - 1 wraps for an x of 0, and so does the result. */
  function MaskUp(x: nat, y: nat): nat
    requires y > 0
  {
    if x == 0 then 0 else Or(x - 1, y - 1) + 1
  }

  lemma {:induction false} AndNotBelow(x: nat, y: nat)
    ensures AndNot(x, y) <= x <= AndNot(x, y) + y
  {
    if x > 0 {
      AndNotBelow(x / 2, y / 2);
    }
  }

  lemma {:induction false} OrAbove(x: nat, y: nat)
    ensures x <= Or(x, y) && y <= Or(x, y) <= x + y
  {
    if x > 0 {
      OrAbove(x / 2, y / 2);
    }
  }

  // ----- powers of two

  ghost predicate IsPowerOfTwo(n: nat) {
    exists k: nat :: n == Two(k)
  }

  lemma {:induction false} TwoMonotone(j: nat, k: nat)
    requires j <= k
    ensures Two(j) <= Two(k)
  {
    if j < k {
      TwoMonotone(j, k - 1);
    }
  }

  /** Half of a number and the rest of it by half of an even divisor. */
  lemma HalfMod(x: nat, d: nat)
    requires d > 0
    ensures x % (2 * d) == 2 * (x / 2 % d) + x % 2
  {
    var q, r := Split(x / 2, d);
    assert x == 2 * (q * d + r) + x % 2;
    assert 2 * (q * d + r) + x % 2 == q * (2 * d) + (2 * r + x % 2);
    DivUnique(q, 2 * r + x % 2, 2 * d);
  }

  lemma OddMask(x: nat, m: nat)
    ensures And(x, 2 * m + 1) == 2 * And(x / 2, m) + x % 2
    ensures AndNot(x, 2 * m + 1) == 2 * AndNot(x / 2, m)
    ensures Or(x, 2 * m + 1) == 2 * Or(x / 2, m) + 1
  {
    assert (2 * m + 1) / 2 == m;
  }

  /** A mask leaves what is above it alone. */
  lemma {:induction false} HighPart(a: nat, b: nat, k: nat, m: nat)
    requires b < Two(k) && m < Two(k)
    ensures AndNot(a * Two(k) + b, m) == a * Two(k) + AndNot(b, m)
    decreases k
  {
    if k == 0 {
      NoMask(a);
    } else {
      HighPart(a, b / 2, k - 1, m / 2);
      HalfOf(a, b, Two(k - 1));
    }
  }

  lemma TwoOnes(x: nat, m: nat)
    ensures And(x, 4 * m + 3) == 4 * And(x / 4, m) + x % 4
  {
    OddMask(x, 2 * m + 1);
    OddMask(x / 2, m);
    assert 2 * (2 * m + 1) + 1 == 4 * m + 3 && x / 2 / 2 == x / 4;
  }

  /** A mask that ends in five ones. */
  lemma FiveOnes(x: nat, m: nat)
    ensures And(x, 32 * m + 31) == 32 * And(x / 32, m) + x % 32
  {
    TwoOnes(x, 8 * m + 7);
    TwoOnes(x / 4, 2 * m + 1);
    OddMask(x / 16, m);
    assert 4 * (8 * m + 7) + 3 == 32 * m + 31 && 4 * (2 * m + 1) + 3 == 8 * m + 7;
    assert x / 4 / 4 == x / 16 && x / 16 / 2 == x / 32;
  }

  lemma HalfOf(a: nat, b: nat, t: nat)
    ensures (a * (2 * t) + b) / 2 == a * t + b / 2 && (a * (2 * t) + b) % 2 == b % 2
  {
    assert a * (2 * t) == 2 * (a * t);
  }

  lemma OneMoreOne(x: nat, m: nat, r: nat)
    requires r <= x / 2 && And(x / 2, m) == r && AndNot(x / 2, m) == x / 2 - r && Or(x / 2, m) == x / 2 - r + m
    ensures
      var r' := 2 * r + x % 2;
      And(x, 2 * m + 1) == r' && AndNot(x, 2 * m + 1) == x - r' && Or(x, 2 * m + 1) == x - r' + 2 * m + 1
  {
    OddMask(x, m);
  }

  /** Masks of ones split a number into quotient and rest. */
  lemma {:induction false} OnesMask(x: nat, k: nat)
    ensures And(x, Two(k) - 1) == x % Two(k)
    ensures AndNot(x, Two(k) - 1) == x - x % Two(k)
    ensures Or(x, Two(k) - 1) == x - x % Two(k) + Two(k) - 1
    decreases k
  {
    if k == 0 {
      NoMask(x);
    } else {
      OnesMask(x / 2, k - 1);
      HalfMod(x, Two(k - 1));
      OneMoreOne(x, Two(k - 1) - 1, x / 2 % Two(k - 1));
    }
  }

  lemma {:induction false} NoMask(x: nat)
    ensures And(x, 0) == 0 && AndNot(x, 0) == x && Or(x, 0) == x
  {
    if x > 0 {
      NoMask(x / 2);
    }
  }

  /** The next power of two above a number that is none. */
  lemma {:induction false} PowersAround(n: nat) returns (k: nat)
    requires n > 0 && !IsPowerOfTwo(n)
    ensures Two(k) < n < 2 * Two(k)
  {
    assert n != Two(0);
    if j: nat :| n / 2 == Two(j) {
      assert n != Two(j + 1);
      k := j + 1;
    } else {
      k := PowersAround(n / 2);
      k := k + 1;
    }
  }

  // ----- rounding

  /** The largest multiple up to x. */
  function RoundDown(x: nat, align: nat): nat
    requires align > 0
  {
    x - x % align
  }

  /** The smallest multiple from x on. */
  function RoundUp(x: nat, align: nat): nat
    requires align > 0
  {
    RoundDown(x + align - 1, align)
  }

  lemma RoundDownIsHighest(x: nat, align: nat, p: nat)
    requires align > 0
    ensures RoundDown(x, align) <= x && RoundDown(x, align) % align == 0
    ensures p % align == 0 && p <= x ==> p <= RoundDown(x, align)
  {
    var n, r := Split(x, align);
    DivUnique(n, 0, align);
    if p % align == 0 && p > n * align {
      var k, zero := Split(p, align);
      if k <= n {
        MulMonotone(align, k, n);
      }
      MulStep(align, n, k);
    }
  }

  lemma NoMultipleBetween(n: nat, r: nat, p: nat, align: nat)
    requires align > 0 && r < align && p % align == 0 && n * align + r < p + align
    ensures n * align <= p
  {
    var k, zero := Split(p, align);
    if n > k {
      MulStep(align, k, n);
    }
  }

  lemma RoundUpIsLowest(x: nat, align: nat, p: nat)
    requires align > 0
    ensures x <= RoundUp(x, align) && RoundUp(x, align) % align == 0
    ensures p % align == 0 && x <= p ==> RoundUp(x, align) <= p
  {
    RoundDownIsHighest(x + align - 1, align, p);
    var n, r := Split(x + align - 1, align);
    if p % align == 0 && x <= p {
      NoMultipleBetween(n, r, p, align);
    }
  }

  lemma MaskRounds(x: nat, align: nat)
    requires align > 0 && IsPowerOfTwo(align)
    ensures MaskDown(x, align) == RoundDown(x, align) && MaskUp(x, align) == RoundUp(x, align)
  {
    var k: nat :| align == Two(k);
    OnesMask(x, k);
    if x == 0 {
      DivUnique(0, align - 1, align);
    } else {
      OnesMask(x - 1, k);
      UpFromBelow(x - 1, align);
    }
  }

  lemma UpFromBelow(x: nat, align: nat)
    requires align > 0
    ensures RoundUp(x + 1, align) == RoundDown(x, align) + align
  {
    var n, r := Split(x, align);
    assert x + align == (n + 1) * align + r;
    DivUnique(n + 1, r, align);
  }

  lemma MaskDownIsHighest(x: nat, align: nat, p: nat)
    requires align > 0 && IsPowerOfTwo(align)
    ensures MaskDown(x, align) <= x && MaskDown(x, align) % align == 0
    ensures p % align == 0 && p <= x ==> p <= MaskDown(x, align)
  {
    MaskRounds(x, align);
    RoundDownIsHighest(x, align, p);
  }

  lemma MaskUpIsLowest(x: nat, align: nat, p: nat)
    requires align > 0 && IsPowerOfTwo(align)
    ensures x <= MaskUp(x, align) && MaskUp(x, align) % align == 0
    ensures p % align == 0 && x <= p ==> MaskUp(x, align) <= p
  {
    MaskRounds(x, align);
    RoundUpIsLowest(x, align, p);
  }

  /** The next power of two above the alignment is rounded to itself by the masks, and is no multiple. */
  lemma MaskMisses(align: nat) returns (x: nat)
    requires align > 0 && !IsPowerOfTwo(align)
    ensures align < x < 2 * align && MaskDown(x, align) == x == MaskUp(x, align)
    ensures RoundDown(x, align) != x && RoundUp(x, align) != x
  {
    var k := PowersAround(align);
    x := Two(k + 1);
    AboveMask(k + 1, align - 1);
    DivUnique(1, x - align, align);
    RoundUpIsLowest(x, align, x);
  }

  /** A power of two has no bit in common with a smaller number, and one less has them all. */
  lemma {:induction false} AboveMask(k: nat, m: nat)
    requires m < Two(k)
    ensures AndNot(Two(k), m) == Two(k) && Or(Two(k) - 1, m) == Two(k) - 1
  {
    if k > 0 {
      AboveMask(k - 1, m / 2);
      EvenAndOdd(Two(k - 1), m);
    }
  }

  lemma EvenAndOdd(a: nat, m: nat)
    requires a > 0
    ensures AndNot(2 * a, m) == 2 * AndNot(a, m / 2) && Or(2 * a - 1, m) == 2 * Or(a - 1, m / 2) + 1
  {
    assert 2 * a / 2 == a && (2 * a - 1) / 2 == a - 1;
  }

  /** Rounding with a mask is rounding to multiples, for all numbers, if and only if the alignment is a power of two. */
  lemma MaskRoundsIff(align: nat)
    requires align > 0
    ensures (forall x: nat :: MaskDown(x, align) == RoundDown(x, align)) <==> IsPowerOfTwo(align)
    ensures (forall x: nat :: MaskUp(x, align) == RoundUp(x, align)) <==> IsPowerOfTwo(align)
  {
    if IsPowerOfTwo(align) {
      forall x: nat ensures MaskDown(x, align) == RoundDown(x, align) && MaskUp(x, align) == RoundUp(x, align) {
        MaskRounds(x, align);
      }
    } else {
      var x := MaskMisses(align);
    }
  }
}
