/**
 Entries of the LPAE I/O page tables (drivers/iommu/iommu_armv8.c; the VMSAv8-64
 translation table format of Arm DDI 0487).  An entry is kept as the fields of its
 64-bit word: the type in bits 1:0, the attributes selected by ARM_LPAE_PTE_ATTR_MASK,
 and the address field, bits 47:12 in place.
 */
module LpaeFormat {

  const TYPE_BLOCK: nat := 1
  const TYPE_TABLE: nat := 3
  const TYPE_PAGE: nat := 3
  const LAST_LEVEL: nat := 3
  const SZ_64K: nat := 0x1_0000

  datatype Pte = Pte(kind: nat, prot: nat, addr: nat)

  const ZERO_PTE := Pte(0, 0, 0)

  predicate IsLeaf(pte: Pte, lvl: nat) {
    if lvl == LAST_LEVEL then pte.kind == TYPE_PAGE else pte.kind == TYPE_BLOCK
  }

  predicate IsTable(pte: Pte, lvl: nat) {
    lvl < LAST_LEVEL && pte.kind == TYPE_TABLE
  }

  // ----- address packing

  /** Bits 51:48, 47:16 and 15:12 of an address. */
  function High4(p: nat): nat { p / 0x1_0000_0000_0000 % 16 }
  function Mid32(p: nat): nat { p / 0x1_0000 % 0x1_0000_0000 }
  function Low4(p: nat): nat { p / 0x1000 % 16 }

  function Or4(a: nat, b: nat): nat
    requires a < 16 && b < 16
  {
    ((a as bv4) | (b as bv4)) as nat
  }

  /** paddr_to_iopte: bits 51:48 are ored into bits 15:12. */
  function PaddrToIopte(p: nat): nat {
    Mid32(p) * 0x1_0000 + Or4(Low4(p), High4(p)) * 0x1000
  }

  /** iopte_to_paddr: with a 64K granule bits 15:12 move back to 51:48. */
  function IopteToPaddr(addr: nat, granule: nat): nat {
    if granule < SZ_64K then Mid32(addr) * 0x1_0000 + Low4(addr) * 0x1000
    else Low4(addr) * 0x1_0000_0000_0000 + Mid32(addr) * 0x1_0000
  }

  /** The address field of a table entry: the address of the page, not packed. */
  function TableField(page: nat): nat {
    Mid32(page) * 0x1_0000 + Low4(page) * 0x1000
  }

  function PhysLimit(granule: nat): nat {
    if granule < SZ_64K then 0x1_0000_0000_0000 else 0x10_0000_0000_0000
  }

  function Unit(granule: nat): nat {
    if granule < SZ_64K then 0x1000 else 0x1_0000
  }

  lemma Or4Zero(a: nat)
    requires a < 16
    ensures Or4(a, 0) == a && Or4(0, a) == a
  {
    assert (a as bv4) | 0 == a as bv4;
    assert 0 | (a as bv4) == a as bv4;
  }

  lemma Fields(h: nat, m: nat, l: nat, r: nat)
    requires h < 16 && m < 0x1_0000_0000 && l < 16 && r < 0x1000
    ensures
      var p := h * 0x1_0000_0000_0000 + m * 0x1_0000 + l * 0x1000 + r;
      High4(p) == h && Mid32(p) == m && Low4(p) == l && p < 0x10_0000_0000_0000
  {
    var p := h * 0x1_0000_0000_0000 + m * 0x1_0000 + l * 0x1000 + r;
    assert p / 0x1_0000 == h * 0x1_0000_0000 + m;
    assert p / 0x1000 == 16 * (h * 0x1_0000_0000 + m) + l;
  }

  lemma Split(p: nat)
    requires p < 0x10_0000_0000_0000
    ensures p == High4(p) * 0x1_0000_0000_0000 + Mid32(p) * 0x1_0000 + Low4(p) * 0x1000 + p % 0x1000
  {
    assert p / 0x1_0000 == High4(p) * 0x1_0000_0000 + Mid32(p);
    assert p / 0x1000 == 16 * (p / 0x1_0000) + Low4(p);
  }

  /** What comes back, in terms of the fields of the address. */
  lemma Unpacked(p: nat, granule: nat)
    ensures
      var o := Or4(Low4(p), High4(p));
      IopteToPaddr(PaddrToIopte(p), granule) ==
        if granule < SZ_64K then Mid32(p) * 0x1_0000 + o * 0x1000 else o * 0x1_0000_0000_0000 + Mid32(p) * 0x1_0000
  {
    Fields(0, Mid32(p), Or4(Low4(p), High4(p)), 0);
  }

  lemma SmallGranule(h: nat, m: nat, l: nat, r: nat, o: nat)
    requires h < 16 && m < 0x1_0000_0000 && l < 16 && r < 0x1000 && o < 16 && (h == 0 ==> o == l)
    ensures
      var p := h * 0x1_0000_0000_0000 + m * 0x1_0000 + l * 0x1000 + r;
      m * 0x1_0000 + o * 0x1000 == p <==> r == 0 && h == 0
  {
  }

  lemma LargeGranule(h: nat, m: nat, l: nat, r: nat, o: nat)
    requires h < 16 && m < 0x1_0000_0000 && l < 16 && r < 0x1000 && o < 16 && (l == 0 ==> o == h)
    ensures
      var p := h * 0x1_0000_0000_0000 + m * 0x1_0000 + l * 0x1000 + r;
      o * 0x1_0000_0000_0000 + m * 0x1_0000 == p <==> l == 0 && r == 0
  {
  }

  lemma FitsByFields(p: nat)
    requires p < 0x10_0000_0000_0000
    ensures p < 0x1_0000_0000_0000 <==> High4(p) == 0
    ensures p % 0x1_0000 == 0 <==> Low4(p) == 0 && p % 0x1000 == 0
  {
    Split(p);
    assert p % 0x1_0000 == Low4(p) * 0x1000 + p % 0x1000;
  }

  /** Packing an address and unpacking it gives it back exactly when it is aligned and in range for the granule. */
  lemma PackingRoundTrips(p: nat, granule: nat)
    requires p < 0x10_0000_0000_0000
    ensures IopteToPaddr(PaddrToIopte(p), granule) == p <==> p % Unit(granule) == 0 && p < PhysLimit(granule)
  {
    var h, m, l, r := High4(p), Mid32(p), Low4(p), p % 0x1000;
    var back := IopteToPaddr(PaddrToIopte(p), granule);
    assert back == if granule < SZ_64K then m * 0x1_0000 + Or4(l, h) * 0x1000
                   else Or4(l, h) * 0x1_0000_0000_0000 + m * 0x1_0000 by {
      Unpacked(p, granule);
    }
    assert p == h * 0x1_0000_0000_0000 + m * 0x1_0000 + l * 0x1000 + r by {
      Split(p);
    }
    FitsByFields(p);
    assert (h == 0 ==> Or4(l, h) == l) && (l == 0 ==> Or4(l, h) == h) by {
      if h == 0 || l == 0 {
        Or4Zero(if h == 0 then l else h);
      }
    }
    if granule < SZ_64K {
      SmallGranule(h, m, l, r, Or4(l, h));
    } else {
      LargeGranule(h, m, l, r, Or4(l, h));
    }
  }

  /**
   The address of a table page survives its entry exactly when it is aligned and below 48 bits,
   whatever the granule.
   */
  lemma TableFieldRoundTrips(page: nat, granule: nat)
    requires page < 0x10_0000_0000_0000 && page % Unit(granule) == 0
    ensures IopteToPaddr(TableField(page), granule) == page <==> page < 0x1_0000_0000_0000
  {
    Split(page);
    Fields(0, Mid32(page), Low4(page), 0);
    FitsByFields(page);
  }
}
