/** Facts about division with a symbolic divisor. */
module Arithmetic {
  /** 2 to the k. */
  function Two(k: nat): (n: nat)
    ensures n > 0
  {
    if k == 0 then 1 else 2 * Two(k - 1)
  }

  lemma TwiceProduct(x: nat, y: nat)
    ensures 2 * (x * y) == (2 * x) * y
  {
  }

  lemma {:induction false} TwoSum(j: nat, k: nat)
    ensures Two(j + k) == Two(j) * Two(k)
  {
    if j > 0 {
      TwoSum(j - 1, k);
      assert Two(j + k) == 2 * Two(j - 1 + k);
      TwiceProduct(Two(j - 1), Two(k));
    }
  }

  lemma {:induction false} MulStep(d: nat, a: nat, b: nat)
    requires a < b
    ensures a * d + d <= b * d
  {
    assert b * d == (b - 1) * d + d;
    if a + 1 < b {
      MulStep(d, a, b - 1);
    }
  }

  lemma MulMonotone(d: nat, a: nat, b: nat)
    requires a <= b
    ensures a * d <= b * d
  {
    if a < b {
      MulStep(d, a, b);
    }
  }

  lemma DivUnique(q: nat, r: nat, d: nat)
    requires r < d
    ensures (q * d + r) / d == q
    ensures (q * d + r) % d == r
  {
    var x := q * d + r;
    var q', r' := x / d, x % d;
    assert x == q' * d + r';
    if q' < q {
      MulStep(d, q', q);
    } else if q' > q {
      MulStep(d, q, q');
    }
  }

  lemma ModSum(x: nat, n: nat, d: nat)
    requires d > 0
    ensures (x % d + n) % d == (x + n) % d
  {
    var q, r := x / d, x % d;
    var q2, r2 := (r + n) / d, (r + n) % d;
    assert x + n == (q + q2) * d + r2 by {
      assert x == d * q + r;
      assert r + n == d * q2 + r2;
    }
    DivUnique(q + q2, r2, d);
  }

  lemma Regroup(q: nat, r: nat, a: nat, b: nat)
    ensures (q * a + r) * b == q * (a * b) + r * b
  {
    assert q * a * b == q * (a * b);
  }

  lemma Split(x: nat, d: nat) returns (q: nat, r: nat)
    requires d > 0
    ensures q == x / d && r == x % d && x == q * d + r && r < d
  {
    q, r := x / d, x % d;
  }

  /** Dividing by a product is dividing twice. */
  lemma DivModProduct(x: nat, a: nat, b: nat)
    requires a > 0 && b > 0
    ensures a * b > 0
    ensures x / (a * b) == x / b / a
    ensures x % (a * b) == (x / b % a) * b + x % b
  {
    var q, r := Split(x, b);
    var q2, r2 := Split(q, a);
    MulStep(b, r2, a);
    Regroup(q2, r2, a, b);
    var low, d := r2 * b + r, a * b;
    assert x == q2 * d + low;
    DivUnique(q2, low, d);
  }

  /** An aligned interval is exactly the addresses with its quotient. */
  lemma AlignedBlock(x: nat, start: nat, size: nat)
    requires size > 0 && start % size == 0
    ensures start <= x < start + size <==> x / size == start / size
    ensures start <= x < start + size ==> x % size == x - start
  {
    var q, zero := Split(start, size);
    if start <= x < start + size {
      DivUnique(q, x - start, size);
    } else {
      var p, r := Split(x, size);
      assert p == q ==> x == start + r;
    }
  }

  lemma MultipleOfMultiple(x: nat, a: nat, b: nat)
    requires a > 0 && b > 0 && x % (a * b) == 0
    ensures x % b == 0
  {
    assert a * b > 0;
    var q := x / (a * b);
    assert x == (q * a) * b + 0;
    DivUnique(q * a, 0, b);
  }

  lemma EqualByDigits(a: nat, b: nat, n: nat)
    requires n > 0 && a / n == b / n
    ensures a % n == b % n <==> a == b
  {
    assert a == n * (a / n) + a % n;
    assert b == n * (b / n) + b % n;
  }

  /** The i-th of n equal parts of an aligned block is aligned and lies inside the block. */
  lemma PartOfBlock(base: nat, i: nat, n: nat, b: nat)
    requires b > 0 && i < n && n * b > 0 && base % (n * b) == 0
    ensures (base + i * b) % b == 0 && base + i * b + b <= base + n * b
  {
    MultipleOfMultiple(base, n, b);
    var q := base / b;
    assert base + i * b == (q + i) * b + 0;
    DivUnique(q + i, 0, b);
    MulStep(b, i, n);
  }

  /** Within one block of n parts, the part's index tells the part. */
  lemma SameDigit(x: nat, y: nat, n: nat, b: nat)
    requires n > 0 && b > 0 && n * b > 0 && x / (n * b) == y / (n * b)
    ensures x / b % n == y / b % n <==> x / b == y / b
  {
    DivModProduct(x, n, b);
    DivModProduct(y, n, b);
    EqualByDigits(x / b, y / b, n);
  }
}
