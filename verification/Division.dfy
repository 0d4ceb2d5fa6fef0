/** Shift-and-subtract division and remainder on words of w bits (lib/muldiv.c). */
module Division {
  import opened Arithmetic

  /**
   After k turns on x0: the top k bits of x0 divided by y are in the low k bits of x, their
   remainder in `rest`, and the other bits of x0 in the high bits of x.
   */
  ghost predicate Turned(w: nat, k: nat, x0: nat, y: nat, x: nat, rest: nat, low: nat, q: nat) {
    && k <= w && low < Two(w - k) && q < Two(k) && x == low * Two(k) + q
    && x0 == (q * y + rest) * Two(w - k) + low
    && rest < Two(k) && (y > 0 ==> rest < y) && (y == 0 ==> q == Two(k) - 1)
  }

  lemma TopBit(low: nat, q: nat, s: nat, t: nat)
    requires q < t
    ensures low * t + q >= s * t <==> low >= s
  {
    if low >= s {
      MulMonotone(t, s, low);
    } else {
      MulStep(t, low, s);
    }
  }

  lemma Doubled(low: nat, q: nat, s: nat, t: nat, c: nat)
    requires q < t && low < s && c <= 1
    ensures
      var x := (c * s + low) * t + q;
      2 * x == c * (2 * (s * t)) + (low * (2 * t) + 2 * q) && low * (2 * t) + 2 * q < 2 * (s * t)
  {
    MulStep(t, low, s);
    assert (c * s + low) * t == c * (s * t) + low * t;
  }

  lemma Accounted(x0: nat, q: nat, y: nat, rest: nat, s: nat, low: nat, c: nat, bit: nat)
    requires x0 == (q * y + rest) * (2 * s) + (c * s + low)
    ensures x0 == ((2 * q + bit) * y + (2 * rest + c - bit * y)) * s + low
  {
    var n := q * y + rest;
    assert (2 * q + bit) * y == 2 * (q * y) + bit * y;
    assert (2 * n + c) * s == n * (2 * s) + c * s;
  }

  /** The powers of two that one turn works with. */
  lemma Halves(w: nat, k: nat) returns (s: nat, t: nat)
    requires k < w
    ensures s == Two(w - k - 1) && t == Two(k) && Two(w - k) == 2 * s && Two(k + 1) == 2 * t
    ensures Two(w - 1) == s * t && Two(w) == 2 * (s * t) && t <= Two(w - 1)
  {
    s, t := Two(w - k - 1), Two(k);
    TwoSum(w - k - 1, k);
    MulMonotone(t, 1, s);
  }

  /** The top bit of the word goes out, the rest moves up. */
  lemma ShiftedUp(w: nat, k: nat, x: nat, low: nat, q: nat) returns (c: nat, low': nat)
    requires k < w && low < Two(w - k) && q < Two(k) && x == low * Two(k) + q
    ensures c == (if x >= Two(w - 1) then 1 else 0) && low == c * Two(w - k - 1) + low' && low' < Two(w - k - 1)
    ensures 2 * x % Two(w) == low' * Two(k + 1) + 2 * q
  {
    var s, t := Halves(w, k);
    TopBit(low, q, s, t);
    c := if x >= Two(w - 1) then 1 else 0;
    low' := if c == 1 then low - s else low;
    Doubled(low', q, s, t, c);
    DivUnique(c, low' * (2 * t) + 2 * q, Two(w));
  }

  /** The partial remainder moves up without losing a bit. */
  lemma RestShiftedUp(w: nat, k: nat, rest: nat, c: nat)
    requires k < w && rest < Two(k) && c <= 1
    ensures 2 * rest % Two(w) == 2 * rest && 2 * rest + c < Two(k + 1) && 2 * rest + c < Two(w)
  {
    var s, t := Halves(w, k);
    DivUnique(0, 2 * rest, Two(w));
  }

  /** One turn: the word is shifted left, and the quotient bit goes into its lowest place. */
  lemma TurnedOnce(w: nat, k: nat, x0: nat, y: nat, x: nat, rest: nat, low: nat, q: nat) returns (low': nat, q': nat)
    requires k < w && Turned(w, k, x0, y, x, rest, low, q)
    ensures
      var c := if x >= Two(w - 1) then 1 else 0;
      var rest1 := 2 * rest % Two(w) + c;
      && 2 * rest + c < Two(w)
      && (if rest1 >= y then Turned(w, k + 1, x0, y, 2 * x % Two(w) + 1, rest1 - y, low', q')
          else Turned(w, k + 1, x0, y, 2 * x % Two(w), rest1, low', q'))
  {
    var c;
    c, low' := ShiftedUp(w, k, x, low, q);
    RestShiftedUp(w, k, rest, c);
    var s, t := Halves(w, k);
    var bit := if 2 * rest + c >= y then 1 else 0;
    Accounted(x0, q, y, rest, s, low', c, bit);
    q' := 2 * q + bit;
  }

  lemma Finished(w: nat, x0: nat, y: nat, x: nat, rest: nat, low: nat, q: nat)
    requires Turned(w, w, x0, y, x, rest, low, q)
    ensures y > 0 ==> x == x0 / y
    ensures y == 0 ==> x == Two(w) - 1
  {
    assert x == q && x0 == q * y + rest;
    if y > 0 {
      DivUnique(q, rest, y);
    }
  }

  /** div16u, div32u, div64u: the quotient; all ones when dividing by zero.  No shift loses a bit of the remainder. */
  method DivU(w: nat, x0: nat, y: nat) returns (x: nat)
    requires w > 0 && x0 < Two(w) && y < Two(w)
    ensures y > 0 ==> x == x0 / y
    ensures y == 0 ==> x == Two(w) - 1
  {
    x := x0;
    var rest: nat, count: nat := 0, w;
    ghost var low: nat, q: nat := x0, 0;
    while count > 0
      invariant count <= w && Turned(w, w - count, x0, y, x, rest, low, q)
    {
      ghost var low', q' := TurnedOnce(w, w - count, x0, y, x, rest, low, q);
      var c := if x >= Two(w - 1) then 1 else 0;
      x := 2 * x % Two(w);
      rest := 2 * rest % Two(w) + c;
      if rest >= y {
        rest := rest - y;
        x := x + 1;
      }
      low, q := low', q';
      count := count - 1;
    }
    Finished(w, x0, y, x, rest, low, q);
  }

  /** The divisor is y0 shifted left by count - 1 places; x has come down by whole multiples of y0. */
  ghost predicate Reduced(x0: nat, y0: nat, x: nat, y: nat, count: nat, m: nat) {
    x0 == m * y0 + x && (if count > 0 then y == y0 * Two(count - 1) && x < 2 * y else x < y0)
  }

  lemma ReducedOnce(x0: nat, y0: nat, x: nat, y: nat, count: nat, m: nat) returns (m': nat)
    requires count > 0 && y0 > 0 && Reduced(x0, y0, x, y, count, m)
    ensures Reduced(x0, y0, if x >= y then x - y else x, y / 2, count - 1, m')
  {
    var t := Two(count - 1);
    m' := if x >= y then m + t else m;
    assert (m + t) * y0 == m * y0 + y0 * t;
    if count > 1 {
      assert y0 * (2 * Two(count - 2)) == 2 * (y0 * Two(count - 2));
    }
  }

  /** mod16u, mod32u, mod64u: the remainder; all ones, of at most 32 bits, when dividing by zero. */
  method ModU(w: nat, x0: nat, y0: nat) returns (x: nat)
    requires w > 0 && x0 < Two(w) && y0 < Two(w)
    ensures y0 > 0 ==> x == x0 % y0
    ensures y0 == 0 ==> x == Two(if w < 32 then w else 32) - 1
  {
    if y0 == 0 {
      return Two(if w < 32 then w else 32) - 1;
    }
    x := x0;
    var y: nat, count: nat := y0, 1;
    while y < Two(w - 1)
      invariant count > 0 && 0 < y < Two(w) && y == y0 * Two(count - 1)
      decreases Two(w) - y
    {
      assert y0 * (2 * Two(count - 1)) == 2 * (y0 * Two(count - 1));
      DivUnique(0, 2 * y, Two(w));
      y := 2 * y % Two(w);
      count := count + 1;
    }
    ghost var m: nat := 0;
    while count > 0
      invariant Reduced(x0, y0, x, y, count, m)
    {
      m := ReducedOnce(x0, y0, x, y, count, m);
      if x >= y {
        x := x - y;
      }
      y := y / 2;
      count := count - 1;
    }
    DivUnique(m, x, y0);
  }

  /** mul16u: the product from the products of the bytes. */
  function Mul16(x: nat, y: nat): (r: nat)
    requires x < 0x1_0000 && y < 0x1_0000
    ensures r == x * y < 0x1_0000_0000
  {
    var a, b, c, d := x % 0x100, x / 0x100, y % 0x100, y / 0x100;
    SplitProduct(0x100, a, b, c, d);
    a * c + a * d * 0x100 + b * d * 0x1_0000 + b * c * 0x100
  }

  /** mul32u: the product from the products of the half words. */
  function Mul32(x: nat, y: nat): (r: nat)
    requires x < 0x1_0000_0000 && y < 0x1_0000_0000
    ensures r == x * y < 0x1_0000_0000_0000_0000
  {
    var a, b, c, d := x % 0x1_0000, x / 0x1_0000, y % 0x1_0000, y / 0x1_0000;
    SplitProduct(0x1_0000, a, b, c, d);
    Mul16(a, c) + Mul16(a, d) * 0x1_0000 + Mul16(b, d) * 0x1_0000_0000 + Mul16(b, c) * 0x1_0000
  }

  lemma FourProducts(p: nat, q: nat, r: nat, s: nat)
    ensures (p + q) * (r + s) == p * r + p * s + q * r + q * s
  {
  }

  lemma Regroup4(b: nat, d: nat, n: nat)
    ensures (b * n) * (d * n) == b * d * (n * n)
  {
    var m := d * n;
    assert b * n * m == b * (n * m);
    assert n * m == d * (n * n);
    assert b * (d * (n * n)) == b * d * (n * n);
  }

  lemma ProductBelow(u: nat, v: nat, m: nat)
    requires u < m && v < m
    ensures u * v < m * m
  {
    MulMonotone(v, u, m);
    MulStep(m, v, m);
  }

  lemma MovedFactor(a: nat, b: nat, c: nat)
    ensures (a * b) * c == a * c * b && a * (b * c) == a * b * c
  {
    assert (a * b) * c == a * (b * c);
    assert b * c == c * b;
  }

  lemma SplitProductBelow(n: nat, a: nat, b: nat, c: nat, d: nat)
    requires a < n && b < n && c < n && d < n
    ensures (b * n + a) * (d * n + c) < (n * n) * (n * n)
  {
    MulStep(n, b, n);
    MulStep(n, d, n);
    ProductBelow(b * n + a, d * n + c, n * n);
  }

  lemma SplitProduct(n: nat, a: nat, b: nat, c: nat, d: nat)
    requires a < n && b < n && c < n && d < n
    ensures (b * n + a) * (d * n + c) == a * c + a * d * n + b * d * (n * n) + b * c * n
    ensures (b * n + a) * (d * n + c) < (n * n) * (n * n)
  {
    SplitProductBelow(n, a, b, c, d);
    Regroup4(b, d, n);
    MovedFactor(b, n, c);
    MovedFactor(a, d, n);
    var p, r := b * n, d * n;
    FourProducts(p, a, r, c);
  }
}
