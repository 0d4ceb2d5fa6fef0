/** Page sizes as a bitmap, and the size that a piece of a range is mapped with (kernel/iommu/iommu.c). */
module PageSizes {
  import opened Arithmetic
  import opened Bits

  // ----- first and last bit

  /** __fls64 */
  function Fls(x: nat): nat
    requires x > 0
  {
    if x == 1 then 0 else 1 + Fls(x / 2)
  }

  /** __ffs64 */
  function Ffs(x: nat): nat
    requires x > 0
  {
    if x % 2 == 1 then 0 else 1 + Ffs(x / 2)
  }

  lemma {:induction false} FlsBounds(x: nat)
    requires x > 0
    ensures Two(Fls(x)) <= x < Two(Fls(x) + 1)
  {
    if x > 1 {
      FlsBounds(x / 2);
    }
  }

  /** Powers of two below a number are those up to its last bit. */
  lemma FlsIs(x: nat, k: nat)
    requires x > 0
    ensures Two(k) <= x <==> k <= Fls(x)
  {
    FlsBounds(x);
    if k <= Fls(x) {
      TwoMonotone(k, Fls(x));
    } else {
      TwoMonotone(Fls(x) + 1, k);
    }
  }

  lemma LastBit(x: nat, k: nat)
    requires Two(k) <= x < Two(k + 1)
    ensures Fls(x) == k
  {
    FlsIs(x, k);
    FlsIs(x, k + 1);
  }

  /** Powers of two that divide a number are those up to its first bit. */
  lemma {:induction false} FfsIs(x: nat, k: nat)
    requires x > 0
    ensures x % Two(k) == 0 <==> k <= Ffs(x)
  {
    if k > 0 {
      HalfMod(x, Two(k - 1));
      if x % 2 == 0 {
        FfsIs(x / 2, k - 1);
      }
    }
  }

  lemma OrHalf(x: nat, y: nat)
    ensures Or(x, y) / 2 == Or(x / 2, y / 2) && (Or(x, y) % 2 == 0 <==> x % 2 == 0 && y % 2 == 0)
  {
  }

  /** A power of two divides a bitwise or exactly when it divides both sides. */
  lemma {:induction false} OrMultiple(x: nat, y: nat, k: nat)
    ensures Or(x, y) % Two(k) == 0 <==> x % Two(k) == 0 && y % Two(k) == 0
    decreases k
  {
    if k > 0 {
      var t := Two(k - 1);
      HalfMod(Or(x, y), t);
      HalfMod(x, t);
      HalfMod(y, t);
      OrHalf(x, y);
      OrMultiple(x / 2, y / 2, k - 1);
    }
  }

  // ----- bitmaps

  predicate Rising(shifts: seq<nat>) {
    forall i, j :: 0 <= i < j < |shifts| ==> shifts[i] < shifts[j]
  }

  /** The bits at the given places. */
  function Bitmap(shifts: seq<nat>): nat {
    if shifts == [] then 0 else Bitmap(shifts[..|shifts| - 1]) + Two(shifts[|shifts| - 1])
  }

  /** The places below k. */
  function Lower(shifts: seq<nat>, k: nat): seq<nat> {
    if shifts == [] || shifts[|shifts| - 1] < k then shifts else Lower(shifts[..|shifts| - 1], k)
  }

  lemma {:induction false} LowerIs(shifts: seq<nat>, k: nat)
    requires Rising(shifts)
    ensures Rising(Lower(shifts, k))
    ensures forall x :: x in Lower(shifts, k) <==> x in shifts && x < k
  {
    if shifts != [] {
      var init, last := shifts[..|shifts| - 1], shifts[|shifts| - 1];
      assert shifts == init + [last];
      if last >= k {
        LowerIs(init, k);
      } else {
        assert forall x :: x in shifts ==> x <= last;
      }
    }
  }

  lemma {:induction false} BitmapBound(shifts: seq<nat>, k: nat)
    requires Rising(shifts) && forall i :: 0 <= i < |shifts| ==> shifts[i] < k
    ensures Bitmap(shifts) < Two(k)
  {
    if shifts != [] {
      var last := shifts[|shifts| - 1];
      BitmapBound(shifts[..|shifts| - 1], last);
      TwoMonotone(last + 1, k);
    }
  }

  lemma BitmapTop(shifts: seq<nat>)
    requires Rising(shifts) && shifts != []
    ensures Bitmap(shifts) > 0 && Fls(Bitmap(shifts)) == shifts[|shifts| - 1]
  {
    var last := shifts[|shifts| - 1];
    BitmapBound(shifts[..|shifts| - 1], last);
    LastBit(Bitmap(shifts), last);
  }

  lemma {:induction false} TwoDivides(j: nat, k: nat)
    requires j <= k
    ensures Two(k) % Two(j) == 0
  {
    if j < k {
      TwoDivides(j, k - 1);
      var q, zero := Split(Two(k - 1), Two(j));
      assert Two(k) == (2 * q) * Two(j) + 0;
      DivUnique(2 * q, 0, Two(j));
    } else {
      DivUnique(1, 0, Two(j));
    }
  }

  lemma ModOfSum(x: nat, y: nat, d: nat)
    requires d > 0 && y % d == 0
    ensures (x + y) % d == x % d
  {
    var q, r := Split(x, d);
    var p, zero := Split(y, d);
    assert x + y == (q + p) * d + r;
    DivUnique(q + p, r, d);
  }

  lemma SmallMod(x: nat, d: nat)
    requires x < d
    ensures x % d == x
  {
    DivUnique(0, x, d);
  }

  /** What a mask of ones leaves of a bitmap. */
  lemma {:induction false} BitmapMasked(shifts: seq<nat>, k: nat)
    requires Rising(shifts)
    ensures Bitmap(shifts) % Two(k) == Bitmap(Lower(shifts, k))
  {
    if shifts == [] {
      SmallMod(0, Two(k));
    } else if shifts[|shifts| - 1] < k {
      BitmapBound(shifts, k);
      SmallMod(Bitmap(shifts), Two(k));
    } else {
      var init, last := shifts[..|shifts| - 1], shifts[|shifts| - 1];
      BitmapMasked(init, k);
      TwoDivides(k, last);
      ModOfSum(Bitmap(init), Two(last), Two(k));
    }
  }

  // ----- one bit of a bitmap

  lemma {:induction false} AndTwo(k: nat, y: nat)
    ensures And(Two(k), y) == if y / Two(k) % 2 == 1 then Two(k) else 0
    decreases k
  {
    if k == 0 {
      assert And(1, y) == (if y % 2 == 1 then 1 else 0);
    } else {
      AndTwo(k - 1, y / 2);
      DivModProduct(y, Two(k - 1), 2);
      AndEven(Two(k - 1), y);
    }
  }

  lemma AndEven(h: nat, y: nat)
    ensures And(2 * h, y) == 2 * And(h, y / 2)
  {
  }

  lemma {:induction false} BitmapBit(shifts: seq<nat>, k: nat)
    requires Rising(shifts)
    ensures Bitmap(shifts) / Two(k) % 2 == 1 <==> k in shifts
  {
    if shifts == [] {
      DivUnique(0, 0, Two(k));
    } else {
      var init, last := shifts[..|shifts| - 1], shifts[|shifts| - 1];
      assert shifts == init + [last];
      BitmapBound(init, last);
      if k < last {
        BitmapBit(init, k);
        HighBitElsewhere(Bitmap(init), k, last);
      } else if k == last {
        DivUnique(1, Bitmap(init), Two(k));
      } else {
        BitmapBound(shifts, k);
        DivUnique(0, Bitmap(shifts), Two(k));
      }
    }
  }

  lemma AddMultiple(x: nat, m: nat, d: nat)
    requires d > 0
    ensures (x + m * d) / d == x / d + m
  {
    var q, r := Split(x, d);
    assert x + m * d == (q + m) * d + r;
    DivUnique(q + m, r, d);
  }

  lemma Twice(p: nat, d: nat)
    ensures p * (2 * d) == (2 * p) * d
  {
  }

  lemma EvenMore(x: nat, p: nat, d: nat)
    requires d > 0
    ensures (x + p * (2 * d)) / d % 2 == x / d % 2
  {
    Twice(p, d);
    AddMultiple(x, 2 * p, d);
  }

  lemma HighBitElsewhere(x: nat, k: nat, last: nat)
    requires k < last
    ensures (x + Two(last)) / Two(k) % 2 == x / Two(k) % 2
  {
    TwoDivides(k + 1, last);
    var p, zero := Split(Two(last), Two(k + 1));
    EvenMore(x, p, Two(k));
  }

  /** A single bit passes the test against the bitmap exactly when it is one of its bits. */
  lemma BitAllowed(shifts: seq<nat>, k: nat)
    requires Rising(shifts)
    ensures And(Two(k), Bitmap(shifts)) == Two(k) <==> k in shifts
  {
    AndTwo(k, Bitmap(shifts));
    BitmapBit(shifts, k);
  }

  // ----- the size of a piece

  function Smaller(x: nat, y: nat): nat {
    if x < y then x else y
  }

  /** The last bit that the size and the alignment allow. */
  function Allowed(merge: nat, size: nat): nat
    requires size > 0
  {
    if merge == 0 then Fls(size) else Smaller(Fls(size), Ffs(merge))
  }

  /** iommu_pgsize; 0 where it gives up. */
  function PageSize(shifts: seq<nat>, merge: nat, size: nat): nat
    requires size > 0
  {
    var sizes := And(Bitmap(shifts), Two(Allowed(merge, size) + 1) - 1);
    if sizes == 0 then 0 else Two(Fls(sizes))
  }

  lemma AllowedIs(merge: nat, size: nat, k: nat)
    requires size > 0
    ensures k <= Allowed(merge, size) <==> Two(k) <= size && merge % Two(k) == 0
  {
    FlsIs(size, k);
    if merge == 0 {
      DivUnique(0, 0, Two(k));
    } else {
      FfsIs(merge, k);
    }
  }

  ghost predicate Supported(shifts: seq<nat>, size: nat) {
    exists k :: k in shifts && size == Two(k)
  }

  lemma MaskedBitmap(shifts: seq<nat>, k: nat)
    requires Rising(shifts)
    ensures And(Bitmap(shifts), Two(k) - 1) == Bitmap(Lower(shifts, k))
  {
    OnesMask(Bitmap(shifts), k);
    BitmapMasked(shifts, k);
  }

  lemma PageSizeOf(shifts: seq<nat>, merge: nat, size: nat) returns (fit: seq<nat>)
    requires Rising(shifts) && size > 0
    ensures fit == Lower(shifts, Allowed(merge, size) + 1) && Rising(fit)
    ensures forall k :: k in fit <==> k in shifts && k <= Allowed(merge, size)
    ensures PageSize(shifts, merge, size) == if fit == [] then 0 else Two(fit[|fit| - 1])
  {
    var top := Allowed(merge, size);
    fit := Lower(shifts, top + 1);
    MaskedBitmap(shifts, top + 1);
    LowerIs(shifts, top + 1);
    if fit != [] {
      BitmapTop(fit);
    }
  }

  /** The size is the largest of those supported that fit into the range and divide its addresses. */
  lemma PageSizeIsLargest(shifts: seq<nat>, merge: nat, size: nat)
    requires Rising(shifts) && size > 0
    ensures
      var s := PageSize(shifts, merge, size);
      && (s != 0 ==> Supported(shifts, s) && s <= size && merge % s == 0)
      && forall k :: k in shifts && Two(k) <= size && merge % Two(k) == 0 ==> Two(k) <= s
  {
    var fit := PageSizeOf(shifts, merge, size);
    if fit != [] {
      assert fit[|fit| - 1] in fit;
      AllowedIs(merge, size, fit[|fit| - 1]);
    }
    forall k | k in shifts && Two(k) <= size && merge % Two(k) == 0 ensures Two(k) <= PageSize(shifts, merge, size) {
      AllowedIs(merge, size, k);
      assert k in fit;
      TwoMonotone(k, fit[|fit| - 1]);
    }
  }
}
