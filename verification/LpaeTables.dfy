/**
 Mapping, unmapping, block splitting and freeing of the LPAE I/O page tables,
 updating the table pages in place (drivers/iommu/iommu_armv8.c).  The tables are
 changed by one CPU at a time, and table walks are coherent.
 */
module LpaeTables {
  import opened Common
  import opened Arithmetic
  import opened Bits
  import opened PageSizes
  import opened LpaeFormat
  import opened LpaeWalk

  datatype MapResult = Mapped | Exists | NoMemory | Invalid | OutOfRange

  /** __arm_lpae_init_pte */
  function LeafPte(paddr: nat, prot: nat, lvl: nat): Pte {
    Pte(if lvl == LAST_LEVEL then TYPE_PAGE else TYPE_BLOCK, prot, PaddrToIopte(paddr))
  }

  function TablePte(page: nat): Pte {
    Pte(TYPE_TABLE, 0, TableField(page))
  }

  /** The size of a page or of a block at this level or below. */
  predicate IsBlockSize(c: Config, lvl: nat, size: nat)
    requires ConfigOk(c)
    decreases LAST_LEVEL + 1 - lvl
  {
    lvl <= LAST_LEVEL && (size == BlockSize(c, lvl) || IsBlockSize(c, lvl + 1, size))
  }

  // ----- entries

  lemma {:induction false} BlockIsGranules(c: Config, lvl: nat, p: nat)
    requires ConfigOk(c) && lvl <= LAST_LEVEL && p % BlockSize(c, lvl) == 0
    ensures p % Granule(c) == 0
    decreases LAST_LEVEL - lvl
  {
    if lvl < LAST_LEVEL {
      MultipleOfMultiple(p, c.n, BlockSize(c, lvl + 1));
      BlockIsGranules(c, lvl + 1, p);
    }
  }

  lemma GranuleIsUnits(c: Config, p: nat)
    requires ConfigOk(c) && p % Granule(c) == 0
    ensures p % Unit(Granule(c)) == 0
  {
    MultipleOfMultiple(p, Granule(c) / Unit(Granule(c)), Unit(Granule(c)));
  }

  /** An aligned address in range comes back from its leaf. */
  lemma LeafHoldsAddress(c: Config, paddr: nat, prot: nat, lvl: nat)
    requires ConfigOk(c) && lvl <= LAST_LEVEL
    requires paddr % BlockSize(c, lvl) == 0 && paddr + BlockSize(c, lvl) <= PhysLimit(Granule(c))
    ensures LeafOk(c, lvl, LeafPte(paddr, prot, lvl))
    ensures IopteToPaddr(LeafPte(paddr, prot, lvl).addr, Granule(c)) == paddr
  {
    BlockIsGranules(c, lvl, paddr);
    GranuleIsUnits(c, paddr);
    PackingRoundTrips(paddr, Granule(c));
  }

  lemma TableHoldsPage(c: Config, page: nat)
    requires ConfigOk(c) && PageOk(c, page)
    ensures Deref(c, TablePte(page)) == page
  {
    GranuleIsUnits(c, page);
    TableFieldRoundTrips(page, Granule(c));
  }

  // ----- a table that replaces a block

  /** The entries of a split block, with a hole at `hole` if that is an index. */
  function SplitEntries(c: Config, lvl: nat, base: nat, prot: nat, hole: int, k: nat): (r: seq<Pte>)
    requires ConfigOk(c) && lvl <= LAST_LEVEL
    ensures |r| == k
  {
    seq(k, i requires 0 <= i < k => if i == hole then ZERO_PTE else LeafPte(base + i * BlockSize(c, lvl), prot, lvl))
  }

  lemma PartAddress(c: Config, lvl: nat, base: nat, i: nat) returns (p: nat)
    requires ConfigOk(c) && 0 < lvl <= LAST_LEVEL && i < c.n
    requires base % BlockSize(c, lvl - 1) == 0
    ensures p == base + i * BlockSize(c, lvl) && p % BlockSize(c, lvl) == 0
    ensures p + BlockSize(c, lvl) <= base + BlockSize(c, lvl - 1)
  {
    var b := BlockSize(c, lvl);
    assert BlockSize(c, lvl - 1) == c.n * b;
    PartOfBlock(base, i, c.n, b);
    p := base + i * b;
  }

  lemma SplitEntryOk(c: Config, lvl: nat, base: nat, prot: nat, i: nat)
    requires ConfigOk(c) && 0 < lvl <= LAST_LEVEL && i < c.n
    requires base % BlockSize(c, lvl - 1) == 0 && base + BlockSize(c, lvl - 1) <= PhysLimit(Granule(c))
    ensures
      var p := base + i * BlockSize(c, lvl);
      LeafOk(c, lvl, LeafPte(p, prot, lvl)) && IopteToPaddr(LeafPte(p, prot, lvl).addr, Granule(c)) == p
  {
    var p := PartAddress(c, lvl, base, i);
    LeafHoldsAddress(c, p, prot, lvl);
  }

  /** Walking the split table gives what the block gave, except in the hole. */
  lemma SplitWalk(c: Config, mem: Memory, lvl: nat, page: nat, base: nat, prot: nat, hole: int, x: nat)
    requires ConfigOk(c) && 0 < lvl <= LAST_LEVEL && lvl != c.start
    requires base % BlockSize(c, lvl - 1) == 0 && base + BlockSize(c, lvl - 1) <= PhysLimit(Granule(c))
    requires page in mem && mem[page] == SplitEntries(c, lvl, base, prot, hole, c.n)
    ensures Walk(c, mem, lvl, page, x) ==
              if Index(c, lvl, x) == hole then None else Some(Xlat(base + x % BlockSize(c, lvl - 1), prot))
  {
    var i := Index(c, lvl, x);
    SplitEntryOk(c, lvl, base, prot, i);
    DivModProduct(x, c.n, BlockSize(c, lvl));
  }

  lemma SplitReached(c: Config, mem: Memory, lvl: nat, page: nat, base: nat, prot: nat, hole: int, x: nat)
    requires ConfigOk(c) && 0 < lvl <= LAST_LEVEL && lvl != c.start
    requires page in mem && mem[page] == SplitEntries(c, lvl, base, prot, hole, c.n)
    ensures Reached(c, mem, lvl, page, x) == lvl
  {
    var e := mem[page][Index(c, lvl, x)];
    assert e == ZERO_PTE || IsLeaf(e, lvl);
  }

  lemma SplitTree(c: Config, mem: Memory, lvl: nat, page: nat, base: nat, prot: nat, hole: int)
    requires ConfigOk(c) && 0 < lvl <= LAST_LEVEL && lvl != c.start
    requires base % BlockSize(c, lvl - 1) == 0 && base + BlockSize(c, lvl - 1) <= PhysLimit(Granule(c))
    requires page in mem && mem[page] == SplitEntries(c, lvl, base, prot, hole, c.n)
    ensures Tree(c, mem, lvl, page) && Pages(c, mem, lvl, page) == {page}
  {
    forall i | 0 <= i < |mem[page]| ensures EntryOk(c, mem, lvl, page, mem[page][i]) && !IsTable(mem[page][i], lvl) {
      SplitEntryOk(c, lvl, base, prot, i);
    }
  }

  /** The entry of x in this table is empty. */
  ghost predicate EmptyAt(c: Config, mem: Memory, lvl: nat, page: nat, x: nat)
    requires ConfigOk(c) && lvl <= LAST_LEVEL
  {
    Walk(c, mem, lvl, page, x) == None && LeafSize(c, mem, lvl, page, x) == 0 && Reached(c, mem, lvl, page, x) == lvl
  }

  /** No entry of this table is set. */
  ghost predicate Blank(c: Config, mem: Memory, lvl: nat, page: nat)
    requires ConfigOk(c) && lvl <= LAST_LEVEL
  {
    forall x: nat {:trigger EmptyAt(c, mem, lvl, page, x)} :: EmptyAt(c, mem, lvl, page, x)
  }

  lemma EmptyTree(c: Config, mem: Memory, lvl: nat, page: nat)
    requires ConfigOk(c) && lvl <= LAST_LEVEL
    requires page in mem && |mem[page]| == Entries(c, lvl)
    requires forall i :: 0 <= i < |mem[page]| ==> mem[page][i] == ZERO_PTE
    ensures Tree(c, mem, lvl, page) && Pages(c, mem, lvl, page) == {page}
    ensures Blank(c, mem, lvl, page)
  {
    forall i | 0 <= i < |mem[page]| ensures EntryOk(c, mem, lvl, page, mem[page][i])
        && ChildPages(c, mem, lvl, mem[page][i]) == {} {
    }
    forall x: nat ensures EmptyAt(c, mem, lvl, page, x) {
      assert mem[page][Index(c, lvl, x)] == ZERO_PTE;
    }
  }

  // ----- one entry written

  ghost predicate Fresh(c: Config, mem: Memory, free: seq<nat>)
    requires ConfigOk(c)
  {
    Pool(c, mem, free) && free != []
  }

  /** Writing a leaf or clearing a leaf: no page comes or goes. */
  lemma LeafWritten(c: Config, mem: Memory, free: seq<nat>, lvl: nat, page: nat, k: nat, e: Pte)
    requires ConfigOk(c) && lvl <= LAST_LEVEL && Tree(c, mem, lvl, page) && k < |mem[page]| && Pool(c, mem, free)
    requires !IsTable(mem[page][k], lvl) && (e == ZERO_PTE || LeafOk(c, lvl, e))
    ensures
      var mem' := mem[page := mem[page][k := e]];
      Replaced(c, mem, mem', lvl, page, k, e) && Steps(c, mem, free, mem', free, lvl, page)
  {
    var mem' := mem[page := mem[page][k := e]];
    TreePagesLive(c, mem, lvl, page);
    assert mem'.Keys == mem.Keys;
    assert Replaced(c, mem, mem', lvl, page, k, e);
    ReplacedSteps(c, mem, free, mem', free, lvl, page, k, e);
  }

  /** Hanging a fresh page below an entry that held no table. */
  lemma TableInstalled(c: Config, mem: Memory, free: seq<nat>, lvl: nat, page: nat, k: nat, content: seq<Pte>)
    requires ConfigOk(c) && lvl < LAST_LEVEL && Tree(c, mem, lvl, page) && k < |mem[page]| && Fresh(c, mem, free)
    requires !IsTable(mem[page][k], lvl) && lvl + 1 != c.start
    requires
      var mem' := mem[free[0] := content][page := mem[page][k := TablePte(free[0])]];
      Tree(c, mem', lvl + 1, free[0]) && Pages(c, mem', lvl + 1, free[0]) == {free[0]}
    ensures
      var mem' := mem[free[0] := content][page := mem[page][k := TablePte(free[0])]];
      && Replaced(c, mem, mem', lvl, page, k, TablePte(free[0])) && Deref(c, TablePte(free[0])) == free[0]
      && Steps(c, mem, free, mem', free[1..], lvl, page)
  {
    var new_ := free[0];
    var e := TablePte(new_);
    var mem' := mem[new_ := content][page := mem[page][k := e]];
    TableHoldsPage(c, new_);
    TreePagesLive(c, mem, lvl, page);
    assert mem'.Keys == mem.Keys + {new_};
    assert Replaced(c, mem, mem', lvl, page, k, e);
    PoolTakes(c, mem, free, mem');
    ReplacedSteps(c, mem, free, mem', free[1..], lvl, page, k, e);
  }

  lemma PoolTakes(c: Config, mem: Memory, free: seq<nat>, mem': Memory)
    requires ConfigOk(c) && Fresh(c, mem, free) && mem'.Keys == mem.Keys + {free[0]}
    ensures Pool(c, mem', free[1..]) && AllPages(mem', free[1..]) == AllPages(mem, free)
  {
    assert free == [free[0]] + free[1..];
    assert forall p :: p in free <==> p == free[0] || p in free[1..];
  }

  /** Clearing a table entry whose pages have gone back to the pool. */
  lemma TableCleared(c: Config, mem: Memory, free: seq<nat>, mem': Memory, free': seq<nat>, lvl: nat, page: nat, k: nat)
    requires ConfigOk(c) && lvl < LAST_LEVEL && Tree(c, mem, lvl, page) && k < |mem[page]|
    requires mem' == mem[page := mem[page][k := ZERO_PTE]] - ChildPages(c, mem, lvl, mem[page][k])
    requires Pool(c, mem', free') && AllPages(mem', free') == AllPages(mem, free)
    ensures Replaced(c, mem, mem', lvl, page, k, ZERO_PTE) && Steps(c, mem, free, mem', free', lvl, page)
  {
    var below := ChildPages(c, mem, lvl, mem[page][k]);
    ChildInPages(c, mem, lvl, page, k);
    TreePagesLive(c, mem, lvl, page);
    assert mem'.Keys == mem.Keys - below;
    assert Replaced(c, mem, mem', lvl, page, k, ZERO_PTE);
    ReplacedSteps(c, mem, free, mem', free', lvl, page, k, ZERO_PTE);
  }

  // ----- freeing a subtree

  /** Pages below the first k entries. */
  ghost function Below(c: Config, mem: Memory, lvl: nat, page: nat, k: nat): set<nat>
    requires lvl <= LAST_LEVEL && page in mem && k <= |mem[page]|
  {
    set p | p in mem && exists i :: 0 <= i < k && p in ChildPages(c, mem, lvl, mem[page][i])
  }

  lemma BelowGrows(c: Config, mem: Memory, lvl: nat, page: nat, k: nat)
    requires ConfigOk(c) && lvl <= LAST_LEVEL && Tree(c, mem, lvl, page) && k < |mem[page]|
    ensures Below(c, mem, lvl, page, k + 1) == Below(c, mem, lvl, page, k) + ChildPages(c, mem, lvl, mem[page][k])
    ensures Below(c, mem, lvl, page, k) !! ChildPages(c, mem, lvl, mem[page][k])
    ensures page !in Below(c, mem, lvl, page, k)
  {
    ChildInPages(c, mem, lvl, page, k);
    TreePagesLive(c, mem, lvl, page);
    forall p | p in Below(c, mem, lvl, page, k) ensures p !in ChildPages(c, mem, lvl, mem[page][k]) && p != page {
      var i :| 0 <= i < k && p in ChildPages(c, mem, lvl, mem[page][i]);
      assert ChildPages(c, mem, lvl, mem[page][i]) !! ChildPages(c, mem, lvl, mem[page][k]);
      ChildInPages(c, mem, lvl, page, i);
    }
  }

  lemma BelowAll(c: Config, mem: Memory, lvl: nat, page: nat)
    requires ConfigOk(c) && lvl <= LAST_LEVEL && Tree(c, mem, lvl, page)
    ensures Pages(c, mem, lvl, page) == {page} + Below(c, mem, lvl, page, |mem[page]|)
    ensures page !in Below(c, mem, lvl, page, |mem[page]|)
    ensures lvl == LAST_LEVEL ==> Below(c, mem, lvl, page, |mem[page]|) == {}
  {
    forall p | p in Below(c, mem, lvl, page, |mem[page]|) ensures p != page {
      var i :| 0 <= i < |mem[page]| && p in ChildPages(c, mem, lvl, mem[page][i]);
      ChildInPages(c, mem, lvl, page, i);
    }
  }

  lemma PoolGains(c: Config, mem: Memory, free: seq<nat>, page: nat)
    requires ConfigOk(c) && Pool(c, mem, free) && page in mem
    ensures Pool(c, mem - {page}, [page] + free) && AllPages(mem - {page}, [page] + free) == AllPages(mem, free)
  {
    assert forall p :: p in [page] + free <==> p == page || p in free;
  }

  // ----- splitting a block

  /** A block and the table that replaces it translate alike, but for the hole. */
  lemma SplitEntryWalk(c: Config, mem: Memory, mem': Memory, up: nat, page: nat, k: nat, t: nat, hole: int, x: nat)
    requires ConfigOk(c) && up < LAST_LEVEL && up + 1 != c.start && Tree(c, mem, up, page)
    requires k == Index(c, up, x) && k < |mem[page]| && LeafOk(c, up, mem[page][k]) && mem[page][k] != ZERO_PTE
    requires page in mem' && |mem'[page]| == |mem[page]| && mem'[page][k] == TablePte(t) && Deref(c, TablePte(t)) == t
    requires
      var e := mem[page][k];
      t in mem' && mem'[t] == SplitEntries(c, up + 1, IopteToPaddr(e.addr, Granule(c)), e.prot, hole, c.n)
    ensures Walk(c, mem', up, page, x) == if Index(c, up + 1, x) == hole then None else Walk(c, mem, up, page, x)
  {
    var e := mem[page][k];
    SplitWalk(c, mem', up + 1, t, IopteToPaddr(e.addr, Granule(c)), e.prot, hole, x);
    ThroughTable(c, mem', up, page, t, x);
  }

  lemma ThroughTable(c: Config, mem: Memory, up: nat, page: nat, t: nat, x: nat)
    requires ConfigOk(c) && up < LAST_LEVEL && page in mem && |mem[page]| == Entries(c, up)
    requires mem[page][Index(c, up, x)] == TablePte(t) && Deref(c, TablePte(t)) == t
    ensures Walk(c, mem, up, page, x) == Walk(c, mem, up + 1, t, x)
  {
  }

  /** Seen from the level above, the hole is the aligned range below it. */
  lemma HoleIsRange(c: Config, up: nat, iova: nat, x: nat)
    requires ConfigOk(c) && up < LAST_LEVEL && up + 1 != c.start && iova % BlockSize(c, up + 1) == 0
    requires x / Span(c, up) == iova / Span(c, up)
    ensures Index(c, up, x) == Index(c, up, iova) && Index(c, up + 1, x) == Index(c, up + 1, iova) <==>
            iova <= x < iova + BlockSize(c, up + 1)
  {
    IndexIsBlock(c, up, x, iova);
    SpanOfChild(c, up);
    if Index(c, up, x) == Index(c, up, iova) {
      HitsBlock(c, up + 1, iova, x);
    } else if iova <= x < iova + BlockSize(c, up + 1) {
      SmallInsideLarge(c, up, iova);
      QuotientInside(x, iova, iova + BlockSize(c, up + 1) - 1, BlockSize(c, up));
    }
  }

  /** An aligned small block lies inside one block of the level above. */
  lemma SmallInsideLarge(c: Config, up: nat, iova: nat)
    requires ConfigOk(c) && up < LAST_LEVEL && up + 1 != c.start && iova % BlockSize(c, up + 1) == 0
    ensures (iova + BlockSize(c, up + 1) - 1) / BlockSize(c, up) == iova / BlockSize(c, up)
    ensures Within(c, up, iova, BlockSize(c, up + 1))
  {
    var b := BlockSize(c, up + 1);
    AlignedBlock(iova + b - 1, iova, b);
    SameBlockSameSpan(c, up + 1, iova + b - 1, iova);
    SpanOfChild(c, up);
    SameBlockSameSpan(c, up, iova + b - 1, iova);
  }

  function HoleSize(c: Config, lvl: nat, hole: int): nat
    requires ConfigOk(c) && lvl <= LAST_LEVEL
  {
    if hole == -1 then 0 else BlockSize(c, lvl)
  }

  lemma SplitChangedAt(c: Config, mem: Memory, mem': Memory, up: nat, page: nat, t: nat, iova: nat, hole: int, x: nat)
    requires ConfigOk(c) && up < LAST_LEVEL && up + 1 != c.start && Tree(c, mem, up, page)
    requires
      var k := Index(c, up, iova);
      && LeafOk(c, up, mem[page][k]) && mem[page][k] != ZERO_PTE && Deref(c, TablePte(t)) == t
      && Replaced(c, mem, mem', up, page, k, TablePte(t)) && t in mem'
      && mem'[t] == SplitEntries(c, up + 1, IopteToPaddr(mem[page][k].addr, Granule(c)), mem[page][k].prot, hole, c.n)
    requires hole == -1 || (hole == Index(c, up + 1, iova) && iova % BlockSize(c, up + 1) == 0)
    requires x / Span(c, up) == iova / Span(c, up)
    ensures Walk(c, mem', up, page, x) ==
              if iova <= x < iova + HoleSize(c, up + 1, hole) then None else Walk(c, mem, up, page, x)
  {
    var k := Index(c, up, iova);
    if hole != -1 {
      HoleIsRange(c, up, iova, x);
    }
    if Index(c, up, x) == k {
      SplitEntryWalk(c, mem, mem', up, page, k, t, hole, x);
    } else {
      ReplacedWalk(c, mem, mem', up, page, k, TablePte(t), x);
    }
  }

  lemma SplitChanged(c: Config, mem: Memory, mem': Memory, up: nat, page: nat, t: nat, iova: nat, hole: int)
    requires ConfigOk(c) && up < LAST_LEVEL && up + 1 != c.start && Tree(c, mem, up, page)
    requires
      var k := Index(c, up, iova);
      && LeafOk(c, up, mem[page][k]) && mem[page][k] != ZERO_PTE && Deref(c, TablePte(t)) == t
      && Replaced(c, mem, mem', up, page, k, TablePte(t)) && t in mem'
      && mem'[t] == SplitEntries(c, up + 1, IopteToPaddr(mem[page][k].addr, Granule(c)), mem[page][k].prot, hole, c.n)
    requires hole == -1 || (hole == Index(c, up + 1, iova) && iova % BlockSize(c, up + 1) == 0)
    ensures
      var n := HoleSize(c, up + 1, hole);
      Changed(c, mem, mem', up, page, iova, n, None) && Within(c, up, iova, n)
  {
    if hole != -1 {
      SmallInsideLarge(c, up, iova);
    }
    forall x: nat | x / Span(c, up) == iova / Span(c, up)
      ensures Walk(c, mem', up, page, x) ==
                if iova <= x < iova + HoleSize(c, up + 1, hole) then None else Walk(c, mem, up, page, x)
    {
      SplitChangedAt(c, mem, mem', up, page, t, iova, hole, x);
    }
  }

  /** Everything about replacing the block at iova by a table. */
  lemma BlockSplit(c: Config, mem: Memory, free: seq<nat>, lvl: nat, page: nat, iova: nat, hole: int)
    requires ConfigOk(c) && 0 < lvl <= LAST_LEVEL && lvl != c.start && Tree(c, mem, lvl - 1, page)
    requires Fresh(c, mem, free)
    requires
      var e := mem[page][Index(c, lvl - 1, iova)];
      LeafOk(c, lvl - 1, e) && e != ZERO_PTE
    requires hole == -1 || (hole == Index(c, lvl, iova) && iova % BlockSize(c, lvl) == 0)
    ensures
      var k := Index(c, lvl - 1, iova);
      var e := mem[page][k];
      var content := SplitEntries(c, lvl, IopteToPaddr(e.addr, Granule(c)), e.prot, hole, c.n);
      var mem' := mem[free[0] := content][page := mem[page][k := TablePte(free[0])]];
      var n := HoleSize(c, lvl, hole);
      && Steps(c, mem, free, mem', free[1..], lvl - 1, page)
      && Changed(c, mem, mem', lvl - 1, page, iova, n, None) && Within(c, lvl - 1, iova, n)
      && Tree(c, mem', lvl, free[0]) && Deref(c, TablePte(free[0])) == free[0]
      && (hole == -1 ==> Walk(c, mem', lvl, free[0], iova) != None && Reached(c, mem', lvl, free[0], iova) == lvl)
  {
    var k := Index(c, lvl - 1, iova);
    var e := mem[page][k];
    var base := IopteToPaddr(e.addr, Granule(c));
    var content := SplitEntries(c, lvl, base, e.prot, hole, c.n);
    var mem' := mem[free[0] := content][page := mem[page][k := TablePte(free[0])]];
    SplitTree(c, mem', lvl, free[0], base, e.prot, hole);
    TableInstalled(c, mem, free, lvl - 1, page, k, content);
    SplitChanged(c, mem, mem', lvl - 1, page, free[0], iova, hole);
    SplitWalk(c, mem', lvl, free[0], base, e.prot, hole, iova);
    SplitReached(c, mem', lvl, free[0], base, e.prot, hole, iova);
  }

  lemma StepsNone(c: Config, mem: Memory, free: seq<nat>, lvl: nat, page: nat, iova: nat)
    requires ConfigOk(c) && lvl <= LAST_LEVEL && Tree(c, mem, lvl, page) && Pool(c, mem, free)
    ensures Steps(c, mem, free, mem, free, lvl, page) && Changed(c, mem, mem, lvl, page, iova, 0, None)
    ensures Within(c, lvl, iova, 0) && Sized(c, mem, mem, lvl, page, iova, 0, 0)
    ensures Deeper(c, mem, mem, lvl, page, iova, 0)
  {
    TreePagesLive(c, mem, lvl, page);
  }

  /** An operation below the entry of iova, as seen by the caller. */
  lemma BelowDone(c: Config, mem: Memory, free: seq<nat>, mem': Memory, free': seq<nat>, lvl: nat, page: nat,
                  iova: nat, n: nat, v: Option<Xlat>)
    requires ConfigOk(c) && lvl < LAST_LEVEL && Tree(c, mem, lvl, page)
    requires
      var e := mem[page][Index(c, lvl, iova)];
      && IsTable(e, lvl) && Steps(c, mem, free, mem', free', lvl + 1, Deref(c, e))
      && Changed(c, mem, mem', lvl + 1, Deref(c, e), iova, n, v) && Within(c, lvl + 1, iova, n)
    ensures Steps(c, mem, free, mem', free', lvl, page)
    ensures Changed(c, mem, mem', lvl, page, iova, n, v) && Within(c, lvl, iova, n)
  {
    ChildSteps(c, mem, free, mem', free', lvl, page, Index(c, lvl, iova));
    ChildChanged(c, mem, mem', lvl, page, iova, n, v);
  }

  /** A new table that changes no translation, followed by an operation below the new table. */
  lemma NewTableDone(c: Config, mem: Memory, free: seq<nat>, mem1: Memory, free1: seq<nat>, mem2: Memory,
                     free2: seq<nat>,
                  up: nat, page: nat, iova: nat, n: nat, v: Option<Xlat>)
    requires ConfigOk(c) && up < LAST_LEVEL
    requires Steps(c, mem, free, mem1, free1, up, page) && Changed(c, mem, mem1, up, page, iova, 0, None)
    requires
      var e := mem1[page][Index(c, up, iova)];
      && IsTable(e, up) && Steps(c, mem1, free1, mem2, free2, up + 1, Deref(c, e))
      && Changed(c, mem1, mem2, up + 1, Deref(c, e), iova, n, v) && Within(c, up + 1, iova, n)
    ensures Steps(c, mem, free, mem2, free2, up, page)
    ensures Changed(c, mem, mem2, up, page, iova, n, v) && Within(c, up, iova, n)
  {
    BelowDone(c, mem1, free1, mem2, free2, up, page, iova, n, v);
    StepsCompose(c, mem, free, mem1, free1, mem2, free2, up, page);
    ChangedCompose(c, mem, mem1, mem2, up, page, iova, n, v);
  }

  lemma {:induction false} LeafSizeSmaller(c: Config, mem: Memory, lvl: nat, page: nat, x: nat)
    requires ConfigOk(c) && lvl <= LAST_LEVEL
    ensures LeafSize(c, mem, lvl, page, x) <= BlockSize(c, lvl)
    decreases LAST_LEVEL - lvl
  {
    if lvl < LAST_LEVEL && page in mem && |mem[page]| == Entries(c, lvl) {
      LeafSizeSmaller(c, mem, lvl + 1, Deref(c, mem[page][Index(c, lvl, x)]), x);
      MulStep(BlockSize(c, lvl + 1), 0, c.n);
    }
  }

  /** An entry that is no leaf has only smaller leaves below it. */
  lemma LeafBelow(c: Config, mem: Memory, lvl: nat, page: nat, x: nat)
    requires ConfigOk(c) && lvl <= LAST_LEVEL && Tree(c, mem, lvl, page) && !IsLeaf(mem[page][Index(c, lvl, x)], lvl)
    ensures LeafSize(c, mem, lvl, page, x) < BlockSize(c, lvl)
  {
    if lvl < LAST_LEVEL {
      var b := BlockSize(c, lvl + 1);
      LeafSizeSmaller(c, mem, lvl + 1, Deref(c, mem[page][Index(c, lvl, x)]), x);
      MulStep(b, 1, c.n);
    }
  }

  /** A leaf that is not of the size is larger, if the size is a block of this level or below. */
  lemma LeafIsLarger(c: Config, mem: Memory, lvl: nat, page: nat, iova: nat, size: nat)
    requires ConfigOk(c) && lvl <= LAST_LEVEL && Tree(c, mem, lvl, page) && size != BlockSize(c, lvl)
    requires
      var e := mem[page][Index(c, lvl, iova)];
      IsLeaf(e, lvl) && e != ZERO_PTE
    ensures LeafSize(c, mem, lvl, page, iova) == BlockSize(c, lvl)
    ensures IsBlockSize(c, lvl, size) ==> IsBlockSize(c, lvl + 1, size) && size < BlockSize(c, lvl)
  {
    if IsBlockSize(c, lvl, size) {
      BlockSizesDecrease(c, lvl, size);
    }
  }

  /** A second change of the same range is what counts. */
  lemma Overwritten(c: Config, mem: Memory, mem1: Memory, mem2: Memory, lvl: nat, page: nat, iova: nat, size: nat,
                    v: Option<Xlat>)
    requires ConfigOk(c) && lvl <= LAST_LEVEL
    requires mem1 == mem || Changed(c, mem, mem1, lvl, page, iova, size, None)
    requires Changed(c, mem1, mem2, lvl, page, iova, size, v)
    ensures Changed(c, mem, mem2, lvl, page, iova, size, v)
  {
    forall x: nat | x / Span(c, lvl) == iova / Span(c, lvl)
      ensures Walk(c, mem2, lvl, page, x) == if iova <= x < iova + size then Shifted(v, x - iova)
                                             else Walk(c, mem, lvl, page, x)
    {
      assert mem1 == mem || Walk(c, mem1, lvl, page, x) == if iova <= x < iova + size then None
                                                           else Walk(c, mem, lvl, page, x);
    }
  }

  lemma {:induction false} BlockSizesDecrease(c: Config, lvl: nat, size: nat)
    requires ConfigOk(c) && lvl <= LAST_LEVEL && IsBlockSize(c, lvl, size)
    ensures size <= BlockSize(c, lvl)
    decreases LAST_LEVEL - lvl
  {
    if size != BlockSize(c, lvl) {
      BlockSizesDecrease(c, lvl + 1, size);
      MulStep(BlockSize(c, lvl + 1), 0, c.n);
    }
  }

  function ZeroTable(c: Config): seq<Pte> {
    seq(c.n, i => ZERO_PTE)
  }

  /** An empty table below an empty entry translates nothing, as before. */
  lemma EmptyTableInstalled(c: Config, mem: Memory, free: seq<nat>, lvl: nat, page: nat, iova: nat)
    requires ConfigOk(c) && c.start <= lvl < LAST_LEVEL && Tree(c, mem, lvl, page) && Fresh(c, mem, free)
    requires mem[page][Index(c, lvl, iova)] == ZERO_PTE
    ensures
      var k := Index(c, lvl, iova);
      var mem' := mem[free[0] := ZeroTable(c)][page := mem[page][k := TablePte(free[0])]];
      && Steps(c, mem, free, mem', free[1..], lvl, page) && Changed(c, mem, mem', lvl, page, iova, 0, None)
      && Sized(c, mem, mem', lvl, page, iova, 0, 0) && Deeper(c, mem, mem', lvl, page, iova, 0)
      && Deref(c, TablePte(free[0])) == free[0] && Tree(c, mem', lvl + 1, free[0])
      && EmptyAt(c, mem', lvl + 1, free[0], iova)
  {
    var k := Index(c, lvl, iova);
    var e := TablePte(free[0]);
    var mem' := mem[free[0] := ZeroTable(c)][page := mem[page][k := e]];
    EmptyTree(c, mem', lvl + 1, free[0]);
    TableInstalled(c, mem, free, lvl, page, k, ZeroTable(c));
    EmptyTableBelow(c, mem, mem', lvl, page, iova, free[0]);
  }

  lemma EmptyTableBelow(c: Config, mem: Memory, mem': Memory, lvl: nat, page: nat, iova: nat, t: nat)
    requires ConfigOk(c) && lvl < LAST_LEVEL && Tree(c, mem, lvl, page) && mem[page][Index(c, lvl, iova)] == ZERO_PTE
    requires Replaced(c, mem, mem', lvl, page, Index(c, lvl, iova), TablePte(t)) && Deref(c, TablePte(t)) == t
    requires Blank(c, mem', lvl + 1, t)
    ensures Changed(c, mem, mem', lvl, page, iova, 0, None) && Sized(c, mem, mem', lvl, page, iova, 0, 0)
    ensures Deeper(c, mem, mem', lvl, page, iova, 0) && EmptyAt(c, mem', lvl + 1, t, iova)
  {
    assert EmptyAt(c, mem', lvl + 1, t, iova);
    EmptyTableWalk(c, mem, mem', lvl, page, iova, t);
    EmptyTableSized(c, mem, mem', lvl, page, iova, t);
    EmptyTableDeeper(c, mem, mem', lvl, page, iova, t);
  }

  lemma EmptyTableWalk(c: Config, mem: Memory, mem': Memory, lvl: nat, page: nat, iova: nat, t: nat)
    requires ConfigOk(c) && lvl < LAST_LEVEL && Tree(c, mem, lvl, page) && mem[page][Index(c, lvl, iova)] == ZERO_PTE
    requires Replaced(c, mem, mem', lvl, page, Index(c, lvl, iova), TablePte(t)) && Deref(c, TablePte(t)) == t
    requires Blank(c, mem', lvl + 1, t)
    ensures Changed(c, mem, mem', lvl, page, iova, 0, None)
  {
    forall x: nat ensures Walk(c, mem', lvl, page, x) == Walk(c, mem, lvl, page, x) {
      if Index(c, lvl, x) == Index(c, lvl, iova) {
        assert EmptyAt(c, mem', lvl + 1, t, x);
      } else {
        ReplacedWalk(c, mem, mem', lvl, page, Index(c, lvl, iova), TablePte(t), x);
      }
    }
  }

  lemma EmptyTableSized(c: Config, mem: Memory, mem': Memory, lvl: nat, page: nat, iova: nat, t: nat)
    requires ConfigOk(c) && lvl < LAST_LEVEL && Tree(c, mem, lvl, page) && mem[page][Index(c, lvl, iova)] == ZERO_PTE
    requires Replaced(c, mem, mem', lvl, page, Index(c, lvl, iova), TablePte(t)) && Deref(c, TablePte(t)) == t
    requires Blank(c, mem', lvl + 1, t)
    ensures Sized(c, mem, mem', lvl, page, iova, 0, 0)
  {
    forall x: nat ensures LeafSize(c, mem', lvl, page, x) == LeafSize(c, mem, lvl, page, x) {
      if Index(c, lvl, x) == Index(c, lvl, iova) {
        assert EmptyAt(c, mem', lvl + 1, t, x);
      } else {
        ReplacedSize(c, mem, mem', lvl, page, Index(c, lvl, iova), TablePte(t), x);
      }
    }
  }

  lemma EmptyTableDeeper(c: Config, mem: Memory, mem': Memory, lvl: nat, page: nat, iova: nat, t: nat)
    requires ConfigOk(c) && lvl < LAST_LEVEL && Tree(c, mem, lvl, page) && mem[page][Index(c, lvl, iova)] == ZERO_PTE
    requires Replaced(c, mem, mem', lvl, page, Index(c, lvl, iova), TablePte(t))
    ensures Deeper(c, mem, mem', lvl, page, iova, 0)
  {
    forall x: nat ensures Reached(c, mem', lvl, page, x) >= Reached(c, mem, lvl, page, x) {
      if Index(c, lvl, x) != Index(c, lvl, iova) {
        ReplacedSize(c, mem, mem', lvl, page, Index(c, lvl, iova), TablePte(t), x);
      }
    }
  }

  lemma BelowDeeper(c: Config, mem: Memory, free: seq<nat>, mem': Memory, free': seq<nat>, lvl: nat, page: nat,
                    iova: nat, n: nat)
    requires ConfigOk(c) && lvl < LAST_LEVEL && Tree(c, mem, lvl, page)
    requires
      var e := mem[page][Index(c, lvl, iova)];
      && IsTable(e, lvl) && Steps(c, mem, free, mem', free', lvl + 1, Deref(c, e))
      && Deeper(c, mem, mem', lvl + 1, Deref(c, e), iova, n)
    ensures Deeper(c, mem, mem', lvl, page, iova, n)
  {
    ChildSteps(c, mem, free, mem', free', lvl, page, Index(c, lvl, iova));
    ChildDeeper(c, mem, mem', lvl, page, iova, n);
  }

  /** An operation below the entry of iova, as seen by the caller. */
  lemma BelowSized(c: Config, mem: Memory, free: seq<nat>, mem': Memory, free': seq<nat>, lvl: nat, page: nat,
                   iova: nat, n: nat, b: nat)
    requires ConfigOk(c) && lvl < LAST_LEVEL && Tree(c, mem, lvl, page)
    requires
      var e := mem[page][Index(c, lvl, iova)];
      && IsTable(e, lvl) && Steps(c, mem, free, mem', free', lvl + 1, Deref(c, e))
      && Sized(c, mem, mem', lvl + 1, Deref(c, e), iova, n, b) && Within(c, lvl + 1, iova, n)
    ensures Sized(c, mem, mem', lvl, page, iova, n, b)
  {
    ChildSteps(c, mem, free, mem', free', lvl, page, Index(c, lvl, iova));
    ChildSized(c, mem, mem', lvl, page, iova, n, b);
  }

  /** The translation is of pages and blocks of size b in the range, and as before elsewhere. */
  ghost predicate Resized(c: Config, mem: Memory, mem': Memory, pgd: nat, iova: nat, size: nat, b: nat)
    requires ConfigOk(c)
  {
    forall x: nat {:trigger ResizedAt(c, mem, mem', pgd, iova, size, b, x)} ::
      ResizedAt(c, mem, mem', pgd, iova, size, b, x)
  }

  ghost predicate ResizedAt(c: Config, mem: Memory, mem': Memory, pgd: nat, iova: nat, size: nat, b: nat, x: nat)
    requires ConfigOk(c)
  {
    Leaf(c, mem', pgd, x) == if iova <= x < iova + size then b else Leaf(c, mem, pgd, x)
  }

  /** Outside the range, no walk has lost a table. */
  ghost predicate Deepened(c: Config, mem: Memory, mem': Memory, pgd: nat, iova: nat, size: nat)
    requires ConfigOk(c)
  {
    forall x: nat {:trigger DeepenedAt(c, mem, mem', pgd, iova, size, x)} ::
      DeepenedAt(c, mem, mem', pgd, iova, size, x)
  }

  ghost predicate DeepenedAt(c: Config, mem: Memory, mem': Memory, pgd: nat, iova: nat, size: nat, x: nat)
    requires ConfigOk(c)
  {
    x < Span(c, c.start) && !(iova <= x < iova + size) ==>
      Reached(c, mem', c.start, pgd, x) >= Reached(c, mem, c.start, pgd, x)
  }

  lemma RootDeeper(c: Config, mem: Memory, mem': Memory, pgd: nat, iova: nat, size: nat)
    requires ConfigOk(c) && iova < Span(c, c.start) && Deeper(c, mem, mem', c.start, pgd, iova, size)
    ensures Deepened(c, mem, mem', pgd, iova, size)
  {
    BelowSpan(iova, Span(c, c.start));
    forall x: nat ensures DeepenedAt(c, mem, mem', pgd, iova, size, x) {
      BelowSpan(x, Span(c, c.start));
    }
  }

  /** Size of the page or block that translates x, or 0. */
  function Leaf(c: Config, mem: Memory, pgd: nat, iova: nat): nat
    requires ConfigOk(c)
  {
    if iova < Span(c, c.start) then LeafSize(c, mem, c.start, pgd, iova) else 0
  }

  lemma RootSized(c: Config, mem: Memory, mem': Memory, pgd: nat, iova: nat, size: nat, b: nat)
    requires ConfigOk(c) && iova < Span(c, c.start)
    requires Sized(c, mem, mem', c.start, pgd, iova, size, b) && Within(c, c.start, iova, size)
    ensures Resized(c, mem, mem', pgd, iova, size, b)
  {
    var span := Span(c, c.start);
    BelowSpan(iova, span);
    forall x: nat ensures ResizedAt(c, mem, mem', pgd, iova, size, b, x) {
      BelowSpan(x, span);
      if x < span {
        assert LeafSize(c, mem', c.start, pgd, x) == if iova <= x < iova + size then b
                                                     else LeafSize(c, mem, c.start, pgd, x);
      } else if iova <= x < iova + size {
        QuotientInside(x, iova, iova + size - 1, span);
      }
    }
  }

  /** An empty table that is new, followed by a map below it. */
  lemma FreshDone(c: Config, mem: Memory, free: seq<nat>, mem1: Memory, free1: seq<nat>, mem2: Memory,
                  free2: seq<nat>, lvl: nat, page: nat, iova: nat, n: nat, v: Option<Xlat>, b: nat)
    requires ConfigOk(c) && lvl < LAST_LEVEL
    requires Steps(c, mem, free, mem1, free1, lvl, page) && Changed(c, mem, mem1, lvl, page, iova, 0, None)
    requires Sized(c, mem, mem1, lvl, page, iova, 0, 0) && Deeper(c, mem, mem1, lvl, page, iova, 0)
    requires
      var e := mem1[page][Index(c, lvl, iova)];
      && IsTable(e, lvl) && Steps(c, mem1, free1, mem2, free2, lvl + 1, Deref(c, e))
      && Changed(c, mem1, mem2, lvl + 1, Deref(c, e), iova, n, v) && Within(c, lvl + 1, iova, n)
      && Sized(c, mem1, mem2, lvl + 1, Deref(c, e), iova, n, b) && Deeper(c, mem1, mem2, lvl + 1, Deref(c, e), iova, n)
    ensures Steps(c, mem, free, mem2, free2, lvl, page)
    ensures Changed(c, mem, mem2, lvl, page, iova, n, v) && Within(c, lvl, iova, n)
    ensures Sized(c, mem, mem2, lvl, page, iova, n, b) && Deeper(c, mem, mem2, lvl, page, iova, n)
  {
    NewTableDone(c, mem, free, mem1, free1, mem2, free2, lvl, page, iova, n, v);
    BelowSized(c, mem1, free1, mem2, free2, lvl, page, iova, n, b);
    SizedCompose(c, mem, mem1, mem2, lvl, page, iova, 0, n, b);
    BelowDeeper(c, mem1, free1, mem2, free2, lvl, page, iova, n);
    DeeperCompose(c, mem, mem1, mem2, lvl, page, iova, 0, n);
  }

  // ----- what a map or an unmap comes to

  /** The level whose blocks have this size, or the last one. */
  function LevelOf(c: Config, lvl: nat, size: nat): (l: nat)
    requires ConfigOk(c) && lvl <= LAST_LEVEL
    ensures lvl <= l <= LAST_LEVEL
    decreases LAST_LEVEL - lvl
  {
    if size == BlockSize(c, lvl) || lvl == LAST_LEVEL then lvl else LevelOf(c, lvl + 1, size)
  }

  /** More tables are missing on the walk of iova, down to the level of the size, than there are pages. */
  ghost predicate Short(c: Config, mem: Memory, pages: nat, lvl: nat, page: nat, iova: nat, size: nat)
    requires ConfigOk(c) && lvl <= LAST_LEVEL
  {
    Walk(c, mem, lvl, page, iova) == None && Reached(c, mem, lvl, page, iova) + pages < LevelOf(c, lvl, size)
  }

  /** What a map comes to, in terms of the tables and the number of free pages before it. */
  ghost function MapAnswer(c: Config, mem: Memory, pages: nat, lvl: nat, page: nat, iova: nat, size: nat): MapResult
    requires ConfigOk(c) && lvl <= LAST_LEVEL
  {
    var leaf, block := LeafSize(c, mem, lvl, page, iova), IsBlockSize(c, lvl, size);
    if (if block then leaf >= size else leaf > Granule(c)) then Exists
    else if Short(c, mem, pages, lvl, page, iova, size) then NoMemory
    else if block then Mapped
    else Invalid
  }

  /** What a map at this level does, and what it returns. */
  ghost predicate MapEffect(c: Config, mem: Memory, free: seq<nat>, mem': Memory, free': seq<nat>, lvl: nat, page: nat,
                            iova: nat, size: nat, v: Xlat, r: MapResult)
    requires ConfigOk(c) && lvl <= LAST_LEVEL
  {
    var n := if r == Mapped then size else 0;
    && r == MapAnswer(c, mem, |free|, lvl, page, iova, size) && (r == NoMemory ==> free' == [])
    && Steps(c, mem, free, mem', free', lvl, page)
    && Changed(c, mem, mem', lvl, page, iova, n, if r == Mapped then Some(v) else None) && Within(c, lvl, iova, n)
    && Sized(c, mem, mem', lvl, page, iova, n, size) && Deeper(c, mem, mem', lvl, page, iova, n)
  }

  lemma AnswerHere(c: Config, mem: Memory, pages: nat, lvl: nat, page: nat, iova: nat)
    requires ConfigOk(c) && lvl <= LAST_LEVEL
    ensures
      var size := BlockSize(c, lvl);
      MapAnswer(c, mem, pages, lvl, page, iova, size) ==
        if LeafSize(c, mem, lvl, page, iova) >= size then Exists else Mapped
  {
  }

  lemma AnswerLast(c: Config, mem: Memory, pages: nat, page: nat, iova: nat, size: nat)
    requires ConfigOk(c) && size != BlockSize(c, LAST_LEVEL)
    ensures MapAnswer(c, mem, pages, LAST_LEVEL, page, iova, size) == Invalid
  {
    LeafSizeSmaller(c, mem, LAST_LEVEL, page, iova);
  }

  lemma AnswerAtEmpty(c: Config, mem: Memory, lvl: nat, page: nat, iova: nat, size: nat)
    requires ConfigOk(c) && lvl < LAST_LEVEL && EmptyAt(c, mem, lvl, page, iova) && size > 0
    requires size != BlockSize(c, lvl)
    ensures MapAnswer(c, mem, 0, lvl, page, iova, size) == NoMemory
  {
  }

  lemma AnswerInFresh(c: Config, mem: Memory, pages: nat, lvl: nat, page: nat, iova: nat, size: nat, mem': Memory,
                      page': nat)
    requires ConfigOk(c) && lvl < LAST_LEVEL && EmptyAt(c, mem, lvl, page, iova) && size > 0
    requires size != BlockSize(c, lvl) && EmptyAt(c, mem', lvl + 1, page', iova)
    ensures MapAnswer(c, mem, pages + 1, lvl, page, iova, size) ==
            MapAnswer(c, mem', pages, lvl + 1, page', iova, size)
  {
  }

  lemma {:induction false} LargerThanGranule(c: Config, lvl: nat)
    requires ConfigOk(c) && lvl < LAST_LEVEL
    ensures BlockSize(c, lvl) > Granule(c)
    decreases LAST_LEVEL - lvl
  {
    MulStep(BlockSize(c, lvl + 1), 1, c.n);
    if lvl + 1 < LAST_LEVEL {
      LargerThanGranule(c, lvl + 1);
    }
  }

  lemma AnswerAtLeaf(c: Config, mem: Memory, pages: nat, lvl: nat, page: nat, iova: nat, size: nat)
    requires ConfigOk(c) && lvl < LAST_LEVEL && Tree(c, mem, lvl, page)
    requires
      var e := mem[page][Index(c, lvl, iova)];
      IsLeaf(e, lvl) && e != ZERO_PTE
    ensures MapAnswer(c, mem, pages, lvl, page, iova, size) == Exists
  {
    LargerThanGranule(c, lvl);
    if IsBlockSize(c, lvl, size) {
      BlockSizesDecrease(c, lvl, size);
    }
  }

  lemma AnswerBelow(c: Config, mem: Memory, pages: nat, lvl: nat, page: nat, iova: nat, size: nat)
    requires ConfigOk(c) && lvl < LAST_LEVEL && Tree(c, mem, lvl, page) && size != BlockSize(c, lvl)
    requires IsTable(mem[page][Index(c, lvl, iova)], lvl)
    ensures
      var e := mem[page][Index(c, lvl, iova)];
      MapAnswer(c, mem, pages, lvl, page, iova, size) == MapAnswer(c, mem, pages, lvl + 1, Deref(c, e), iova, size)
  {
    WalkBelow(c, mem, lvl, page, mem[page][Index(c, lvl, iova)], iova);
  }

  /** A map that leaves the tables alone. */
  lemma MapNothing(c: Config, mem: Memory, free: seq<nat>, lvl: nat, page: nat, iova: nat, size: nat, v: Xlat,
                   r: MapResult)
    requires ConfigOk(c) && lvl <= LAST_LEVEL && Tree(c, mem, lvl, page) && Pool(c, mem, free)
    requires r == MapAnswer(c, mem, |free|, lvl, page, iova, size) && r != Mapped && (r == NoMemory ==> free == [])
    ensures MapEffect(c, mem, free, mem, free, lvl, page, iova, size, v, r)
  {
    StepsNone(c, mem, free, lvl, page, iova);
  }

  /** A map below the table that the entry of iova points to, as seen by the caller. */
  lemma MapBelow(c: Config, mem: Memory, free: seq<nat>, mem': Memory, free': seq<nat>, lvl: nat, page: nat, iova: nat,
                 size: nat, v: Xlat, r: MapResult)
    requires ConfigOk(c) && lvl < LAST_LEVEL && Tree(c, mem, lvl, page) && size != BlockSize(c, lvl)
    requires
      var e := mem[page][Index(c, lvl, iova)];
      IsTable(e, lvl) && MapEffect(c, mem, free, mem', free', lvl + 1, Deref(c, e), iova, size, v, r)
    ensures MapEffect(c, mem, free, mem', free', lvl, page, iova, size, v, r)
  {
    var n := if r == Mapped then size else 0;
    BelowDone(c, mem, free, mem', free', lvl, page, iova, n, if r == Mapped then Some(v) else None);
    BelowSized(c, mem, free, mem', free', lvl, page, iova, n, size);
    BelowDeeper(c, mem, free, mem', free', lvl, page, iova, n);
    AnswerBelow(c, mem, |free|, lvl, page, iova, size);
  }

  /** A map below a table that is new and was empty. */
  lemma MapFresh(c: Config, mem: Memory, free: seq<nat>, mem1: Memory, free1: seq<nat>, mem2: Memory, free2: seq<nat>,
                 lvl: nat, page: nat, iova: nat, size: nat, v: Xlat, r: MapResult)
    requires ConfigOk(c) && lvl < LAST_LEVEL && EmptyAt(c, mem, lvl, page, iova) && size > 0
    requires Steps(c, mem, free, mem1, free1, lvl, page) && Changed(c, mem, mem1, lvl, page, iova, 0, None)
    requires Sized(c, mem, mem1, lvl, page, iova, 0, 0) && Deeper(c, mem, mem1, lvl, page, iova, 0)
    requires size != BlockSize(c, lvl) && |free1| == |free| - 1
    requires
      var e := mem1[page][Index(c, lvl, iova)];
      && IsTable(e, lvl) && EmptyAt(c, mem1, lvl + 1, Deref(c, e), iova)
      && MapEffect(c, mem1, free1, mem2, free2, lvl + 1, Deref(c, e), iova, size, v, r)
    ensures MapEffect(c, mem, free, mem2, free2, lvl, page, iova, size, v, r)
  {
    var n := if r == Mapped then size else 0;
    FreshDone(c, mem, free, mem1, free1, mem2, free2, lvl, page, iova, n, if r == Mapped then Some(v) else None, size);
    AnswerInFresh(c, mem, |free1|, lvl, page, iova, size, mem1, Deref(c, mem1[page][Index(c, lvl, iova)]));
  }

  /** A leaf installed at this level. */
  lemma MapHere(c: Config, mem: Memory, free: seq<nat>, mem': Memory, free': seq<nat>, lvl: nat, page: nat, iova: nat,
                v: Xlat, r: MapResult)
    requires ConfigOk(c) && lvl <= LAST_LEVEL && (r == Mapped || r == Exists)
    requires r == if LeafSize(c, mem, lvl, page, iova) >= BlockSize(c, lvl) then Exists else Mapped
    requires
      var n := if r == Mapped then BlockSize(c, lvl) else 0;
      && Steps(c, mem, free, mem', free', lvl, page)
      && Changed(c, mem, mem', lvl, page, iova, n, if r == Mapped then Some(v) else None) && Within(c, lvl, iova, n)
      && Sized(c, mem, mem', lvl, page, iova, n, n) && Deeper(c, mem, mem', lvl, page, iova, n)
    ensures MapEffect(c, mem, free, mem', free', lvl, page, iova, BlockSize(c, lvl), v, r)
  {
    AnswerHere(c, mem, |free|, lvl, page, iova);
  }

  /**
   When an unmap succeeds, in terms of the tables and the number of free pages before it: there is a page, a block or
   a table at the level of the size, or a larger block and pages for the tables it is split into.
   */
  ghost predicate Unmappable(c: Config, mem: Memory, pages: nat, lvl: nat, page: nat, iova: nat, size: nat)
    requires ConfigOk(c) && lvl <= LAST_LEVEL
  {
    var reached, level := Reached(c, mem, lvl, page, iova), LevelOf(c, lvl, size);
    IsBlockSize(c, lvl, size)
    && (reached > level || (Walk(c, mem, lvl, page, iova) != None && level <= reached + pages))
  }

  lemma UnmappableHere(c: Config, mem: Memory, pages: nat, lvl: nat, page: nat, iova: nat)
    requires ConfigOk(c) && lvl <= LAST_LEVEL && Tree(c, mem, lvl, page)
    ensures
      var e := mem[page][Index(c, lvl, iova)];
      Unmappable(c, mem, pages, lvl, page, iova, BlockSize(c, lvl)) <==> e != ZERO_PTE
  {
    assert EntryOk(c, mem, lvl, page, mem[page][Index(c, lvl, iova)]);
  }

  lemma UnmappableBelow(c: Config, mem: Memory, pages: nat, lvl: nat, page: nat, iova: nat, size: nat)
    requires ConfigOk(c) && lvl < LAST_LEVEL && Tree(c, mem, lvl, page) && size != BlockSize(c, lvl)
    requires IsTable(mem[page][Index(c, lvl, iova)], lvl)
    ensures
      var e := mem[page][Index(c, lvl, iova)];
      Unmappable(c, mem, pages, lvl, page, iova, size) <==>
      Unmappable(c, mem, pages, lvl + 1, Deref(c, e), iova, size)
  {
    WalkBelow(c, mem, lvl, page, mem[page][Index(c, lvl, iova)], iova);
  }

  /** When nothing was unmapped: nothing was mapped, or a larger block was to be split and no page is left. */
  ghost predicate Stuck(c: Config, mem: Memory, free': seq<nat>, lvl: nat, page: nat, iova: nat, size: nat, n: nat)
    requires ConfigOk(c) && lvl <= LAST_LEVEL
  {
    n == 0 && IsBlockSize(c, lvl, size) ==>
      Walk(c, mem, lvl, page, iova) == None || (free' == [] && LeafSize(c, mem, lvl, page, iova) > size)
  }

  /** Where no leaf is larger, all others keep their sizes. */
  ghost predicate Unsized(c: Config, mem: Memory, mem': Memory, lvl: nat, page: nat, iova: nat, size: nat, n: nat)
    requires ConfigOk(c) && lvl <= LAST_LEVEL
  {
    IsBlockSize(c, lvl, size) && LeafSize(c, mem, lvl, page, iova) <= size ==>
      Sized(c, mem, mem', lvl, page, iova, n, 0)
  }

  /** What an unmap at this level does, and when. */
  ghost predicate UnmapEffect(c: Config, mem: Memory, free: seq<nat>, mem': Memory, free': seq<nat>, lvl: nat,
                              page: nat, iova: nat, size: nat, n: nat)
    requires ConfigOk(c) && lvl <= LAST_LEVEL
  {
    && (n == 0 || n == size)
    && Steps(c, mem, free, mem', free', lvl, page)
    && Changed(c, mem, mem', lvl, page, iova, n, None) && Within(c, lvl, iova, n)
    && (n == size <==> Unmappable(c, mem, |free|, lvl, page, iova, size))
    && Stuck(c, mem, free', lvl, page, iova, size, n) && Unsized(c, mem, mem', lvl, page, iova, size, n)
  }

  /** An unmap below the entry of iova, as seen by the caller. */
  lemma UnmapBelow(c: Config, mem: Memory, free: seq<nat>, mem': Memory, free': seq<nat>, lvl: nat, page: nat,
                   iova: nat, size: nat, n: nat)
    requires ConfigOk(c) && lvl < LAST_LEVEL && Tree(c, mem, lvl, page) && size != BlockSize(c, lvl)
    requires
      var e := mem[page][Index(c, lvl, iova)];
      IsTable(e, lvl) && UnmapEffect(c, mem, free, mem', free', lvl + 1, Deref(c, e), iova, size, n)
    ensures UnmapEffect(c, mem, free, mem', free', lvl, page, iova, size, n)
  {
    WalkBelow(c, mem, lvl, page, mem[page][Index(c, lvl, iova)], iova);
    BelowDone(c, mem, free, mem', free', lvl, page, iova, n, None);
    UnmappableBelow(c, mem, |free|, lvl, page, iova, size);
    if IsBlockSize(c, lvl, size) && LeafSize(c, mem, lvl, page, iova) <= size {
      BelowSized(c, mem, free, mem', free', lvl, page, iova, n, 0);
    }
  }

  lemma UnmapNothing(c: Config, mem: Memory, free: seq<nat>, lvl: nat, page: nat, iova: nat, size: nat)
    requires ConfigOk(c) && lvl <= LAST_LEVEL && Tree(c, mem, lvl, page) && Pool(c, mem, free) && size > 0
    requires mem[page][Index(c, lvl, iova)] == ZERO_PTE
    ensures UnmapEffect(c, mem, free, mem, free, lvl, page, iova, size, 0)
  {
    StepsNone(c, mem, free, lvl, page, iova);
  }

  lemma UnmapEntry(c: Config, mem: Memory, free: seq<nat>, mem': Memory, free': seq<nat>, lvl: nat, page: nat,
                   iova: nat)
    requires ConfigOk(c) && lvl <= LAST_LEVEL && Tree(c, mem, lvl, page) && mem[page][Index(c, lvl, iova)] != ZERO_PTE
    requires
      var b := BlockSize(c, lvl);
      && Steps(c, mem, free, mem', free', lvl, page) && Changed(c, mem, mem', lvl, page, iova, b, None)
      && Within(c, lvl, iova, b) && Sized(c, mem, mem', lvl, page, iova, b, 0)
    ensures UnmapEffect(c, mem, free, mem', free', lvl, page, iova, BlockSize(c, lvl), BlockSize(c, lvl))
  {
    UnmappableHere(c, mem, |free|, lvl, page, iova);
  }

  lemma UnmapSplit(c: Config, mem: Memory, free: seq<nat>, mem': Memory, free': seq<nat>, lvl: nat, page: nat,
                   iova: nat, size: nat, n: nat)
    requires ConfigOk(c) && lvl <= LAST_LEVEL && Tree(c, mem, lvl, page) && size != BlockSize(c, lvl) && size > 0
    requires
      var e := mem[page][Index(c, lvl, iova)];
      IsLeaf(e, lvl) && e != ZERO_PTE
    requires n == 0 || n == size
    requires Steps(c, mem, free, mem', free', lvl, page)
    requires Changed(c, mem, mem', lvl, page, iova, n, None) && Within(c, lvl, iova, n)
    requires n == size <==> IsBlockSize(c, lvl + 1, size) && LevelOf(c, lvl, size) <= lvl + |free|
    requires n == 0 && IsBlockSize(c, lvl + 1, size) ==> free' == []
    ensures UnmapEffect(c, mem, free, mem', free', lvl, page, iova, size, n)
  {
    LeafIsLarger(c, mem, lvl, page, iova, size);
  }

  // ----- the entry points

  /** Bits that a level translates. */
  function LevelBits(c: Config): nat
    requires ConfigOk(c)
  {
    if c.n == 512 then 9 else if c.n == 2048 then 11 else 13
  }

  /** Bits below a level: its blocks have the size 2 to this. */
  function Shift(c: Config, lvl: nat): nat
    requires ConfigOk(c) && lvl <= LAST_LEVEL
    decreases LAST_LEVEL - lvl
  {
    if lvl == LAST_LEVEL then LevelBits(c) + 3 else LevelBits(c) + Shift(c, lvl + 1)
  }

  lemma LevelBitsIs(c: Config)
    requires ConfigOk(c)
    ensures Two(LevelBits(c)) == c.n && Two(3) == 8
  {
    assert Two(9) == 512 && Two(11) == 2048 && Two(13) == 8192;
  }

  lemma {:induction false} BlockIsTwo(c: Config, lvl: nat)
    requires ConfigOk(c) && lvl <= LAST_LEVEL
    ensures BlockSize(c, lvl) == Two(Shift(c, lvl))
    decreases LAST_LEVEL - lvl
  {
    LevelBitsIs(c);
    if lvl == LAST_LEVEL {
      TwoSum(LevelBits(c), 3);
    } else {
      BlockIsTwo(c, lvl + 1);
      TwoSum(LevelBits(c), Shift(c, lvl + 1));
    }
  }

  /** Blocks of level 1 are supported for the granule, and wide enough output addresses. */
  predicate Level1Blocks(c: Config, output: nat)
    requires ConfigOk(c)
  {
    c.n == 512 || (c.n == 8192 && output > 0x1_0000_0000_0000)
  }

  /**
   What arm_lpae_restrict_pgsizes leaves of the page sizes asked for, as the places of their bits: the granule, and
   any of the block sizes that go with it.
   */
  predicate PageSizesOk(c: Config, output: nat, shifts: seq<nat>)
    requires ConfigOk(c)
  {
    && Rising(shifts) && shifts != [] && shifts[0] == Shift(c, LAST_LEVEL)
    && forall k :: k in shifts ==>
         k == Shift(c, 3) || k == Shift(c, 2) || (k == Shift(c, 1) && Level1Blocks(c, output))
  }

  /** (size & pgsize_bitmap) == size, for a size that is not 0. */
  predicate MaskAllows(shifts: seq<nat>, size: nat) {
    size > 0 && And(size, Bitmap(shifts)) == size
  }

  /** Of the sizes that are blocks of the table, the mask lets through those that are supported. */
  lemma AllowedIsSupported(c: Config, lvl: nat, shifts: seq<nat>, size: nat)
    requires ConfigOk(c) && Rising(shifts) && IsBlockSize(c, lvl, size)
    ensures MaskAllows(shifts, size) <==> Supported(shifts, size)
    decreases LAST_LEVEL + 1 - lvl
  {
    if size == BlockSize(c, lvl) {
      BlockIsTwo(c, lvl);
      BitAllowed(shifts, Shift(c, lvl));
      if Supported(shifts, size) {
        var k :| k in shifts && size == Two(k);
        TwoInjective(k, Shift(c, lvl));
      }
    } else {
      AllowedIsSupported(c, lvl + 1, shifts, size);
    }
  }

  lemma TwoInjective(j: nat, k: nat)
    requires Two(j) == Two(k)
    ensures j == k
  {
    LastBit(Two(j), j);
    LastBit(Two(k), k);
  }

  lemma BlockSizeValues(c: Config)
    requires ConfigOk(c)
    ensures BlockSize(c, 3) == 8 * c.n
    ensures BlockSize(c, 2) == 8 * c.n * c.n
    ensures BlockSize(c, 1) == 8 * c.n * c.n * c.n
    ensures BlockSize(c, 0) == 8 * c.n * c.n * c.n * c.n
  {
    assert BlockSize(c, 2) == c.n * BlockSize(c, 3);
    assert BlockSize(c, 1) == c.n * BlockSize(c, 2);
    assert BlockSize(c, 0) == c.n * BlockSize(c, 1);
  }

  /** Supported sizes divide the physical address limit. */
  lemma SupportedDivides(c: Config, output: nat, shifts: seq<nat>, size: nat)
    requires ConfigOk(c) && PageSizesOk(c, output, shifts) && Supported(shifts, size)
    ensures PhysLimit(Granule(c)) % size == 0
  {
    var k :| k in shifts && size == Two(k);
    var lvl := if k == Shift(c, 3) then 3 else if k == Shift(c, 2) then 2 else 1;
    BlockIsTwo(c, lvl);
    BlocksDivide(c, output, lvl);
  }

  lemma BlocksDivide(c: Config, output: nat, lvl: nat)
    requires ConfigOk(c) && 1 <= lvl <= 3 && (lvl == 1 ==> Level1Blocks(c, output))
    ensures PhysLimit(Granule(c)) % BlockSize(c, lvl) == 0
  {
    BlockSizeValues(c);
  }

  lemma AllowedFits(c: Config, output: nat, shifts: seq<nat>, paddr: nat, size: nat)
    requires ConfigOk(c) && PageSizesOk(c, output, shifts) && MaskAllows(shifts, size)
    requires output <= PhysLimit(Granule(c)) && paddr % size == 0 && paddr < output
    ensures IsBlockSize(c, c.start, size) ==> paddr + size <= PhysLimit(Granule(c))
  {
    if IsBlockSize(c, c.start, size) {
      AllowedIsSupported(c, c.start, shifts, size);
      SupportedDivides(c, output, shifts, size);
      AlignedFits(paddr, size, PhysLimit(Granule(c)));
    }
  }

  lemma AlignedFits(p: nat, size: nat, limit: nat)
    requires size > 0 && p % size == 0 && limit % size == 0 && p < limit
    ensures p + size <= limit
  {
    var q, m := p / size, limit / size;
    assert p == q * size && limit == m * size;
    if q >= m {
      if q > m {
        MulStep(size, m, q);
      }
    } else {
      MulStep(size, q, m);
    }
  }

  function Translation(c: Config, mem: Memory, pgd: nat, iova: nat): Option<Xlat>
    requires ConfigOk(c)
  {
    if iova < Span(c, c.start) then Walk(c, mem, c.start, pgd, iova) else None
  }

  /** The translation is the old one, but for the range. */
  ghost predicate Remapped(c: Config, mem: Memory, mem': Memory, pgd: nat, iova: nat, size: nat, v: Option<Xlat>)
    requires ConfigOk(c)
  {
    forall x: nat {:trigger RemappedAt(c, mem, mem', pgd, iova, size, v, x)} ::
      RemappedAt(c, mem, mem', pgd, iova, size, v, x)
  }

  ghost predicate RemappedAt(c: Config, mem: Memory, mem': Memory, pgd: nat, iova: nat, size: nat, v: Option<Xlat>,
                             x: nat)
    requires ConfigOk(c)
  {
    Translation(c, mem', pgd, x) ==
      if iova <= x < iova + size then Shifted(v, x - iova) else Translation(c, mem, pgd, x)
  }

  /** A change at the first table is a change of the whole translation. */
  lemma RootChanged(c: Config, mem: Memory, mem': Memory, pgd: nat, iova: nat, size: nat, v: Option<Xlat>)
    requires ConfigOk(c) && iova < Span(c, c.start)
    requires Changed(c, mem, mem', c.start, pgd, iova, size, v) && Within(c, c.start, iova, size)
    ensures Remapped(c, mem, mem', pgd, iova, size, v)
  {
    var span := Span(c, c.start);
    BelowSpan(iova, span);
    forall x: nat ensures RemappedAt(c, mem, mem', pgd, iova, size, v, x) {
      BelowSpan(x, span);
      if x < span {
        assert Walk(c, mem', c.start, pgd, x) == if iova <= x < iova + size then Shifted(v, x - iova)
                                                 else Walk(c, mem, c.start, pgd, x);
      } else if iova <= x < iova + size {
        QuotientInside(x, iova, iova + size - 1, span);
      }
    }
  }

  /** An empty range is empty anywhere. */
  lemma Nothing(c: Config, mem: Memory, mem': Memory, pgd: nat, iova: nat, iova': nat, v: Option<Xlat>,
                v': Option<Xlat>)
    requires ConfigOk(c) && Remapped(c, mem, mem', pgd, iova, 0, v)
    ensures Remapped(c, mem, mem', pgd, iova', 0, v')
  {
    forall x: nat ensures RemappedAt(c, mem, mem', pgd, iova', 0, v', x) {
      assert RemappedAt(c, mem, mem', pgd, iova, 0, v, x);
    }
  }

  lemma Unchanged(c: Config, mem: Memory, pgd: nat, iova: nat, v: Option<Xlat>, b: nat)
    requires ConfigOk(c)
    ensures Remapped(c, mem, mem, pgd, iova, 0, v) && Resized(c, mem, mem, pgd, iova, 0, b)
    ensures Deepened(c, mem, mem, pgd, iova, 0)
  {
  }

  lemma BelowSpan(x: nat, d: nat)
    requires d > 0
    ensures x / d == 0 <==> x < d
  {
    if x < d {
      DivUnique(0, x, d);
    }
  }

  lemma RootOwnsAll(c: Config, mem: Memory, free: seq<nat>, mem': Memory, free': seq<nat>, pgd: nat)
    requires ConfigOk(c) && Steps(c, mem, free, mem', free', c.start, pgd) && mem.Keys == Pages(c, mem, c.start, pgd)
    ensures mem'.Keys == Pages(c, mem', c.start, pgd)
  {
    TreePagesLive(c, mem', c.start, pgd);
    OutsideAndBelow(mem.Keys, mem'.Keys, Pages(c, mem, c.start, pgd), Pages(c, mem', c.start, pgd));
  }

  /** One turn of the walk. */
  lemma WalkTurn(c: Config, mem: Memory, lvl: nat, page: nat, x: nat)
    requires ConfigOk(c) && lvl <= LAST_LEVEL && Tree(c, mem, lvl, page)
    ensures
      var e := mem[page][Index(c, lvl, x)];
      if e == ZERO_PTE then Walk(c, mem, lvl, page, x) == None
      else if IsLeaf(e, lvl) then
        Walk(c, mem, lvl, page, x) == Some(Xlat(IopteToPaddr(e.addr, Granule(c)) + x % BlockSize(c, lvl), e.prot))
      else
        && lvl < LAST_LEVEL && Tree(c, mem, lvl + 1, Deref(c, e))
        && Walk(c, mem, lvl, page, x) == Walk(c, mem, lvl + 1, Deref(c, e), x)
  {
    assert EntryOk(c, mem, lvl, page, mem[page][Index(c, lvl, x)]);
  }

  lemma TreeWithout(c: Config, mem: Memory, mem': Memory, lvl: nat, page: nat, gone: set<nat>)
    requires ConfigOk(c) && lvl <= LAST_LEVEL && Tree(c, mem, lvl, page)
    requires mem' == mem - gone && gone !! Pages(c, mem, lvl, page)
    ensures Tree(c, mem', lvl, page)
    ensures mem' - Pages(c, mem', lvl, page) == mem - (gone + Pages(c, mem, lvl, page))
  {
    TreePagesLive(c, mem, lvl, page);
    TreeFrame(c, mem, mem', lvl, page);
  }

  /** With the pages of the first k entries gone, the k-th child is still whole. */
  lemma NextChildWhole(c: Config, mem: Memory, mem': Memory, lvl: nat, page: nat, k: nat)
    requires ConfigOk(c) && lvl < LAST_LEVEL && Tree(c, mem, lvl, page) && k < |mem[page]|
    requires mem' == mem - Below(c, mem, lvl, page, k)
    requires mem[page][k] != ZERO_PTE && !IsLeaf(mem[page][k], lvl)
    ensures Tree(c, mem', lvl + 1, Deref(c, mem[page][k]))
    ensures mem' - Pages(c, mem', lvl + 1, Deref(c, mem[page][k])) == mem - Below(c, mem, lvl, page, k + 1)
    ensures page in mem && page !in Below(c, mem, lvl, page, k + 1)
  {
    var e := mem[page][k];
    assert EntryOk(c, mem, lvl, page, e);
    BelowGrows(c, mem, lvl, page, k);
    ChildInPages(c, mem, lvl, page, k);
    TreeWithout(c, mem, mem', lvl + 1, Deref(c, e), Below(c, mem, lvl, page, k));
  }

  lemma NoChild(c: Config, mem: Memory, lvl: nat, page: nat, k: nat)
    requires ConfigOk(c) && lvl <= LAST_LEVEL && Tree(c, mem, lvl, page) && k < |mem[page]|
    requires mem[page][k] == ZERO_PTE || IsLeaf(mem[page][k], lvl)
    ensures Below(c, mem, lvl, page, k + 1) == Below(c, mem, lvl, page, k)
    ensures page !in Below(c, mem, lvl, page, k)
  {
    BelowGrows(c, mem, lvl, page, k);
  }

  /** Clearing the entry leaves the tables below it whole, ready to be freed. */
  lemma ChildSurvivesClear(c: Config, mem: Memory, free: seq<nat>, lvl: nat, page: nat, k: nat)
    requires ConfigOk(c) && lvl < LAST_LEVEL && Tree(c, mem, lvl, page) && Pool(c, mem, free)
    requires k < |mem[page]| && IsTable(mem[page][k], lvl)
    ensures
      var mem' := mem[page := mem[page][k := ZERO_PTE]];
      && Tree(c, mem', lvl + 1, Deref(c, mem[page][k])) && Pool(c, mem', free)
          && AllPages(mem', free) == AllPages(mem, free)
      && Pages(c, mem', lvl + 1, Deref(c, mem[page][k])) == ChildPages(c, mem, lvl, mem[page][k])
  {
    var mem' := mem[page := mem[page][k := ZERO_PTE]];
    assert EntryOk(c, mem, lvl, page, mem[page][k]);
    TreePagesLive(c, mem, lvl + 1, Deref(c, mem[page][k]));
    TreeFrame(c, mem, mem', lvl + 1, Deref(c, mem[page][k]));
    assert mem'.Keys == mem.Keys;
  }

  /** The walk from the first table down to a leaf or an empty entry. */
  method WalkDown(c: Config, m: Memory, pgd: nat, iova: nat) returns (paddr: nat)
    requires ConfigOk(c) && Tree(c, m, c.start, pgd)
    ensures
      var t := Walk(c, m, c.start, pgd, iova);
      paddr == if t.Some? then t.value.paddr else 0
  {
    var lvl, page := c.start, pgd;
    while true
      invariant lvl <= LAST_LEVEL && Tree(c, m, lvl, page)
      invariant Walk(c, m, lvl, page, iova) == Walk(c, m, c.start, pgd, iova)
      decreases LAST_LEVEL - lvl
    {
      var e := m[page][Index(c, lvl, iova)];
      WalkTurn(c, m, lvl, page, iova);
      if e == ZERO_PTE {
        return 0;
      }
      if IsLeaf(e, lvl) {
        // The address of a leaf is aligned to its block, so the bitwise or is a sum.
        return IopteToPaddr(e.addr, Granule(c)) + iova % BlockSize(c, lvl);
      }
      lvl, page := lvl + 1, Deref(c, e);
    }
  }

  class PageTables {
    const c: Config
    const pgd: nat
    /** 2 ** oas: physical addresses lie below it. */
    const output: nat
    /** The places of the bits of cfg->pgsize_bitmap. */
    const shifts: seq<nat>
    var mem: Memory
    var free: seq<nat>

    /** The first table, empty, and the pages the allocator still has. */
    constructor (c: Config, pgd: nat, output: nat, shifts: seq<nat>, free: seq<nat>)
      requires ConfigOk(c) && PageOk(c, pgd) && output <= PhysLimit(Granule(c)) && pgd !in free
      requires Pool(c, map[], free) && PageSizesOk(c, output, shifts)
      ensures this.c == c && this.pgd == pgd && this.output == output && this.shifts == shifts && this.free == free
      ensures Valid() && forall iova :: Translate(iova) == None
    {
      this.c, this.pgd, this.output, this.shifts, this.free := c, pgd, output, shifts, free;
      this.mem := map[pgd := seq(c.m, i => ZERO_PTE)];
      new;
      EmptyTree(c, mem, c.start, pgd);
    }

    /** The whole table is one tree, and every page is in it once or in the pool once. */
    ghost predicate Valid()
      reads this
    {
      && ConfigOk(c) && output <= PhysLimit(Granule(c)) && PageSizesOk(c, output, shifts)
      && Tree(c, mem, c.start, pgd) && Pool(c, mem, free)
      && mem.Keys == Pages(c, mem, c.start, pgd)
    }

    /** What the hardware walk translates iova to. */
    ghost function Translate(iova: nat): Option<Xlat>
      requires ConfigOk(c)
      reads this
    {
      Translation(c, mem, pgd, iova)
    }

    /** Size of the page or block that translates iova, or 0. */
    ghost function LeafAt(iova: nat): nat
      requires ConfigOk(c)
      reads this
    {
      Leaf(c, mem, pgd, iova)
    }

    method FreePage(page: nat)
      requires ConfigOk(c) && Pool(c, mem, free) && page in mem
      modifies this
      ensures mem == old(mem) - {page} && free == [page] + old(free)
      ensures Pool(c, mem, free) && AllPages(mem, free) == old(AllPages(mem, free))
    {
      PoolGains(c, mem, free, page);
      mem := mem - {page};
      free := [page] + free;
    }

    /** One turn of the loop over the entries of `page`. */
    method FreeChild(lvl: nat, page: nat, k: nat, ghost m0: Memory)
      requires ConfigOk(c) && lvl < LAST_LEVEL && Tree(c, m0, lvl, page) && k < |m0[page]| && Pool(c, mem, free)
      requires mem == m0 - Below(c, m0, lvl, page, k) && page !in Below(c, m0, lvl, page, k)
      modifies this
      ensures mem == m0 - Below(c, m0, lvl, page, k + 1) && page !in Below(c, m0, lvl, page, k + 1)
      ensures Pool(c, mem, free) && AllPages(mem, free) == old(AllPages(mem, free))
      decreases LAST_LEVEL - lvl, 0
    {
      var e := mem[page][k];
      if e != ZERO_PTE && !IsLeaf(e, lvl) {
        NextChildWhole(c, m0, mem, lvl, page, k);
        FreeTable(lvl + 1, Deref(c, e));
      } else {
        NoChild(c, m0, lvl, page, k);
      }
    }

    /** The tables below `page`, entry by entry. */
    method FreeChildren(lvl: nat, page: nat)
      requires ConfigOk(c) && lvl < LAST_LEVEL && Tree(c, mem, lvl, page) && Pool(c, mem, free)
      modifies this
      ensures page in old(mem) && mem == old(mem) - Below(c, old(mem), lvl, page, |old(mem)[page]|)
      ensures page in mem && Pool(c, mem, free) && AllPages(mem, free) == old(AllPages(mem, free))
      decreases LAST_LEVEL - lvl, 1
    {
      ghost var m0: Memory := mem;
      assert mem == m0 - Below(c, m0, lvl, page, 0);
      var k, n := 0, |mem[page]|;
      while k < n
        invariant k <= n == |m0[page]| && Tree(c, m0, lvl, page)
        invariant mem == m0 - Below(c, m0, lvl, page, k) && page !in Below(c, m0, lvl, page, k)
        invariant Pool(c, mem, free) && AllPages(mem, free) == old(AllPages(mem, free))
      {
        FreeChild(lvl, page, k, m0);
        k := k + 1;
      }
    }

    /** __arm_lpae_free_pgtable: gives exactly the pages of the subtree back, each once. */
    method FreeTable(lvl: nat, page: nat)
      requires ConfigOk(c) && lvl <= LAST_LEVEL && Tree(c, mem, lvl, page) && Pool(c, mem, free)
      modifies this
      ensures mem == old(mem) - Pages(c, old(mem), lvl, page)
      ensures Pool(c, mem, free) && AllPages(mem, free) == old(AllPages(mem, free))
      decreases LAST_LEVEL - lvl, 2
    {
      BelowAll(c, mem, lvl, page);
      if lvl != LAST_LEVEL {
        FreeChildren(lvl, page);
      }
      FreePage(page);
    }

    /** Replaces the block entry of iova by a table of smaller leaves, all but the one at `hole`. */
    method InstallSplit(iova: nat, lvl: nat, page: nat, hole: int) returns (table: nat)
      requires ConfigOk(c) && 0 < lvl <= LAST_LEVEL && lvl != c.start && Tree(c, mem, lvl - 1, page)
      requires Fresh(c, mem, free)
      requires
        var e := mem[page][Index(c, lvl - 1, iova)];
        LeafOk(c, lvl - 1, e) && e != ZERO_PTE
      requires hole == -1 || (hole == Index(c, lvl, iova) && iova % BlockSize(c, lvl) == 0)
      modifies this
      ensures Steps(c, old(mem), old(free), mem, free, lvl - 1, page)
      ensures
        var n := HoleSize(c, lvl, hole);
        Changed(c, old(mem), mem, lvl - 1, page, iova, n, None) && Within(c, lvl - 1, iova, n)
      ensures Tree(c, mem, lvl, table) && |free| == |old(free)| - 1
      ensures hole == -1 ==> Walk(c, mem, lvl, table, iova) != None && Reached(c, mem, lvl, table, iova) == lvl
      ensures
        var k := Index(c, lvl - 1, iova);
        page in mem && k < |mem[page]| && IsTable(mem[page][k], lvl - 1) && Deref(c, mem[page][k]) == table
    {
      var k := Index(c, lvl - 1, iova);
      var blk := mem[page][k];
      table := free[0];
      BlockSplit(c, mem, free, lvl, page, iova, hole);
      var content := FillTable(IopteToPaddr(blk.addr, Granule(c)), blk.prot, lvl, hole);
      mem := mem[table := content][page := mem[page][k := TablePte(table)]];
      free := free[1..];
    }

    /** Splits the block entry of iova at level `up` into a full table and unmaps below it. */
    method SplitThenUnmap(iova: nat, size: nat, up: nat, page: nat) returns (n: nat)
      requires ConfigOk(c) && c.start <= up < LAST_LEVEL && Tree(c, mem, up, page) && Fresh(c, mem, free)
      requires size > 0 && iova % size == 0 && size != BlockSize(c, up)
      requires
        var e := mem[page][Index(c, up, iova)];
        LeafOk(c, up, e) && e != ZERO_PTE
      modifies this
      ensures n == 0 || n == size
      ensures Steps(c, old(mem), old(free), mem, free, up, page)
      ensures Changed(c, old(mem), mem, up, page, iova, n, None) && Within(c, up, iova, n)
      ensures n == size <==> IsBlockSize(c, up + 1, size) && LevelOf(c, up, size) <= up + |old(free)|
      ensures n == 0 && IsBlockSize(c, up + 1, size) ==> free == []
      decreases LAST_LEVEL - up, 0
    {
      ghost var m0: Memory, f0 := mem, free;
      var table := InstallSplit(iova, up + 1, page, -1);
      ghost var m1: Memory, f1 := mem, free;
      n := UnmapAt(iova, size, up + 1, table);
      NewTableDone(c, m0, f0, m1, f1, mem, free, up, page, iova, n, None);
    }

    /** arm_lpae_split_blk_unmap for the block entry of iova at level `up`. */
    method SplitUnmap(iova: nat, size: nat, up: nat, page: nat) returns (n: nat)
      requires ConfigOk(c) && c.start <= up <= LAST_LEVEL && Tree(c, mem, up, page) && Pool(c, mem, free)
      requires size > 0 && iova % size == 0 && size != BlockSize(c, up)
      requires
        var e := mem[page][Index(c, up, iova)];
        LeafOk(c, up, e) && e != ZERO_PTE
      modifies this
      ensures n == 0 || n == size
      ensures Steps(c, old(mem), old(free), mem, free, up, page)
      ensures Changed(c, old(mem), mem, up, page, iova, n, None) && Within(c, up, iova, n)
      ensures n == size <==> IsBlockSize(c, up + 1, size) && LevelOf(c, up, size) <= up + |old(free)|
      ensures n == 0 && IsBlockSize(c, up + 1, size) ==> free == []
      decreases LAST_LEVEL - up, 1
    {
      if up == LAST_LEVEL || free == [] {
        StepsNone(c, mem, free, up, page, iova);
        return 0;
      }
      if size == BlockSize(c, up + 1) {
        var table := InstallSplit(iova, up + 1, page, Index(c, up + 1, iova));
        return size;
      }
      n := SplitThenUnmap(iova, size, up, page);
    }

    /** The loop that fills the table of a split block. */
    method FillTable(base: nat, prot: nat, lvl: nat, hole: int) returns (content: seq<Pte>)
      requires ConfigOk(c) && lvl <= LAST_LEVEL
      ensures content == SplitEntries(c, lvl, base, prot, hole, c.n)
    {
      content := [];
      var paddr := base;
      var i := 0;
      while i < c.n
        invariant i <= c.n && paddr == base + i * BlockSize(c, lvl)
        invariant content == SplitEntries(c, lvl, base, prot, hole, i)
      {
        content := content + [if i == hole then ZERO_PTE else LeafPte(paddr, prot, lvl)];
        assert (i + 1) * BlockSize(c, lvl) == i * BlockSize(c, lvl) + BlockSize(c, lvl);
        i := i + 1;
        paddr := paddr + BlockSize(c, lvl);
      }
    }

    /** __arm_lpae_unmap */
    method UnmapAt(iova: nat, size: nat, lvl: nat, page: nat) returns (n: nat)
      requires ConfigOk(c) && c.start <= lvl <= LAST_LEVEL && Tree(c, mem, lvl, page) && Pool(c, mem, free)
      requires size > 0 && iova % size == 0
      modifies this
      ensures UnmapEffect(c, old(mem), old(free), mem, free, lvl, page, iova, size, n)
      decreases LAST_LEVEL - lvl, 2
    {
      ghost var m0: Memory, f0 := mem, free;
      var e := mem[page][Index(c, lvl, iova)];
      assert EntryOk(c, mem, lvl, page, e);
      if e == ZERO_PTE {
        UnmapNothing(c, mem, free, lvl, page, iova, size);
        return 0;
      }
      if size == BlockSize(c, lvl) {
        ClearEntry(iova, lvl, page);
        UnmapEntry(c, m0, f0, mem, free, lvl, page, iova);
        return size;
      } else if IsLeaf(e, lvl) {
        n := SplitUnmap(iova, size, lvl, page);
        UnmapSplit(c, m0, f0, mem, free, lvl, page, iova, size, n);
      } else {
        n := UnmapAt(iova, size, lvl + 1, Deref(c, e));
        UnmapBelow(c, m0, f0, mem, free, lvl, page, iova, size, n);
      }
    }

    /** Clears a table entry and frees the tables below it. */
    method ClearTable(lvl: nat, page: nat, k: nat)
      requires ConfigOk(c) && lvl < LAST_LEVEL && Tree(c, mem, lvl, page) && Pool(c, mem, free)
      requires k < |mem[page]| && IsTable(mem[page][k], lvl)
      modifies this
      ensures Replaced(c, old(mem), mem, lvl, page, k, ZERO_PTE)
      ensures Steps(c, old(mem), old(free), mem, free, lvl, page)
    {
      ghost var m0: Memory, f0 := mem, free;
      var e := mem[page][k];
      assert EntryOk(c, m0, lvl, page, e);
      mem := mem[page := mem[page][k := ZERO_PTE]];
      ChildSurvivesClear(c, m0, f0, lvl, page, k);
      FreeTable(lvl + 1, Deref(c, e));
      TableCleared(c, m0, f0, mem, free, lvl, page, k);
    }

    /** Clears the entry of iova and frees what hangs below it. */
    method ClearEntry(iova: nat, lvl: nat, page: nat)
      requires ConfigOk(c) && lvl <= LAST_LEVEL && Tree(c, mem, lvl, page) && Pool(c, mem, free)
      requires iova % BlockSize(c, lvl) == 0
      modifies this
      ensures Steps(c, old(mem), old(free), mem, free, lvl, page)
      ensures Changed(c, old(mem), mem, lvl, page, iova, BlockSize(c, lvl), None)
      ensures Sized(c, old(mem), mem, lvl, page, iova, BlockSize(c, lvl), 0)
      ensures Deeper(c, old(mem), mem, lvl, page, iova, BlockSize(c, lvl)) && Within(c, lvl, iova, BlockSize(c, lvl))
      ensures page in mem && Index(c, lvl, iova) < |mem[page]| && mem[page][Index(c, lvl, iova)] == ZERO_PTE
    {
      ghost var m0: Memory, f0 := mem, free;
      var k := Index(c, lvl, iova);
      var e := mem[page][k];
      assert EntryOk(c, m0, lvl, page, e);
      if e != ZERO_PTE && !IsLeaf(e, lvl) {
        ClearTable(lvl, page, k);
      } else {
        mem := mem[page := mem[page][k := ZERO_PTE]];
        LeafWritten(c, m0, f0, lvl, page, k, ZERO_PTE);
      }
      BlockChanged(c, m0, mem, lvl, page, iova, ZERO_PTE, None);
      BlockSized(c, m0, mem, lvl, page, iova, ZERO_PTE, 0);
      BlockDeeper(c, m0, mem, lvl, page, iova, ZERO_PTE);
    }

    /** arm_lpae_init_pte: installs a leaf at the entry of iova, freeing a table that was there. */
    method InitPte(iova: nat, paddr: nat, prot: nat, lvl: nat, page: nat) returns (r: MapResult)
      requires ConfigOk(c) && lvl <= LAST_LEVEL && Tree(c, mem, lvl, page) && Pool(c, mem, free)
      requires iova % BlockSize(c, lvl) == 0 && paddr % BlockSize(c, lvl) == 0
      requires paddr + BlockSize(c, lvl) <= PhysLimit(Granule(c))
      modifies this
      ensures Steps(c, old(mem), old(free), mem, free, lvl, page)
      ensures r == if LeafSize(c, old(mem), lvl, page, iova) >= BlockSize(c, lvl) then Exists else Mapped
      ensures r == Exists ==> Changed(c, old(mem), mem, lvl, page, iova, 0, None)
      ensures r == Exists ==> Sized(c, old(mem), mem, lvl, page, iova, 0, 0)
      ensures Deeper(c, old(mem), mem, lvl, page, iova, if r == Mapped then BlockSize(c, lvl) else 0)
      ensures r == Mapped ==> Sized(c, old(mem), mem, lvl, page, iova, BlockSize(c, lvl), BlockSize(c, lvl))
      ensures r == Mapped ==> Within(c, lvl, iova, BlockSize(c, lvl))
      ensures r == Mapped ==> Changed(c, old(mem), mem, lvl, page, iova, BlockSize(c, lvl), Some(Xlat(paddr, prot)))
    {
      ghost var m0: Memory, f0 := mem, free;
      var k := Index(c, lvl, iova);
      var e := mem[page][k];
      assert EntryOk(c, m0, lvl, page, e);
      StepsNone(c, mem, free, lvl, page, iova);
      if IsLeaf(e, lvl) {
        return Exists;
      }
      LeafBelow(c, m0, lvl, page, iova);
      if IsTable(e, lvl) {
        ClearEntry(iova, lvl, page);
      }
      ghost var m1: Memory, f1 := mem, free;
      mem := mem[page := mem[page][k := LeafPte(paddr, prot, lvl)]];
      LeafHoldsAddress(c, paddr, prot, lvl);
      LeafWritten(c, m1, f1, lvl, page, k, LeafPte(paddr, prot, lvl));
      BlockChanged(c, m1, mem, lvl, page, iova, LeafPte(paddr, prot, lvl), Some(Xlat(paddr, prot)));
      BlockSized(c, m1, mem, lvl, page, iova, LeafPte(paddr, prot, lvl), BlockSize(c, lvl));
      BlockDeeper(c, m1, mem, lvl, page, iova, LeafPte(paddr, prot, lvl));
      ghost var n := if m1 == m0 then 0 else BlockSize(c, lvl);
      SizedCompose(c, m0, m1, mem, lvl, page, iova, n, BlockSize(c, lvl), BlockSize(c, lvl));
      DeeperCompose(c, m0, m1, mem, lvl, page, iova, n, BlockSize(c, lvl));
      StepsCompose(c, m0, f0, m1, f1, mem, free, lvl, page);
      Overwritten(c, m0, m1, mem, lvl, page, iova, BlockSize(c, lvl), Some(Xlat(paddr, prot)));
      return Mapped;
    }

    /** Hangs an empty table below the entry of iova. */
    method InstallTable(iova: nat, lvl: nat, page: nat) returns (table: nat)
      requires ConfigOk(c) && c.start <= lvl < LAST_LEVEL && Tree(c, mem, lvl, page) && Fresh(c, mem, free)
      requires mem[page][Index(c, lvl, iova)] == ZERO_PTE
      modifies this
      ensures Steps(c, old(mem), old(free), mem, free, lvl, page)
      ensures Changed(c, old(mem), mem, lvl, page, iova, 0, None) && Sized(c, old(mem), mem, lvl, page, iova, 0, 0)
      ensures Deeper(c, old(mem), mem, lvl, page, iova, 0) && |free| == |old(free)| - 1
      ensures Tree(c, mem, lvl + 1, table) && EmptyAt(c, mem, lvl + 1, table, iova)
      ensures
        var k := Index(c, lvl, iova);
        page in mem && k < |mem[page]| && IsTable(mem[page][k], lvl) && Deref(c, mem[page][k]) == table
    {
      EmptyTableInstalled(c, mem, free, lvl, page, iova);
      table := free[0];
      mem := mem[table := ZeroTable(c)][page := mem[page][Index(c, lvl, iova) := TablePte(table)]];
      free := free[1..];
    }

    /** __arm_lpae_map */
    method MapAt(iova: nat, paddr: nat, size: nat, prot: nat, lvl: nat, page: nat) returns (r: MapResult)
      requires ConfigOk(c) && c.start <= lvl <= LAST_LEVEL && Tree(c, mem, lvl, page) && Pool(c, mem, free)
      requires size > 0 && iova % size == 0 && paddr % size == 0
      requires IsBlockSize(c, lvl, size) ==> paddr + size <= PhysLimit(Granule(c))
      modifies this
      ensures MapEffect(c, old(mem), old(free), mem, free, lvl, page, iova, size, Xlat(paddr, prot), r)
      decreases LAST_LEVEL - lvl
    {
      ghost var m0: Memory, f0 := mem, free;
      if size == BlockSize(c, lvl) {
        r := InitPte(iova, paddr, prot, lvl, page);
        MapHere(c, m0, f0, mem, free, lvl, page, iova, Xlat(paddr, prot), r);
        return;
      }
      if lvl >= LAST_LEVEL {
        AnswerLast(c, mem, |free|, page, iova, size);
        MapNothing(c, mem, free, lvl, page, iova, size, Xlat(paddr, prot), Invalid);
        return Invalid;
      }
      var e := mem[page][Index(c, lvl, iova)];
      assert EntryOk(c, mem, lvl, page, e);
      if e == ZERO_PTE {
        if free == [] {
          AnswerAtEmpty(c, mem, lvl, page, iova, size);
          MapNothing(c, mem, free, lvl, page, iova, size, Xlat(paddr, prot), NoMemory);
          return NoMemory;
        }
        var table := InstallTable(iova, lvl, page);
        ghost var m1: Memory, f1 := mem, free;
        r := MapAt(iova, paddr, size, prot, lvl + 1, table);
        MapFresh(c, m0, f0, m1, f1, mem, free, lvl, page, iova, size, Xlat(paddr, prot), r);
      } else if IsLeaf(e, lvl) {
        AnswerAtLeaf(c, mem, |free|, lvl, page, iova, size);
        MapNothing(c, mem, free, lvl, page, iova, size, Xlat(paddr, prot), Exists);
        return Exists;
      } else {
        r := MapAt(iova, paddr, size, prot, lvl + 1, Deref(c, e));
        MapBelow(c, m0, f0, mem, free, lvl, page, iova, size, Xlat(paddr, prot), r);
      }
    }

    /** The map of a range that passed the checks. */
    method MapChecked(iova: nat, paddr: nat, size: nat, prot: nat) returns (r: MapResult)
      requires Valid() && size > 0 && iova % size == 0 && paddr % size == 0 && iova < Span(c, c.start)
      requires IsBlockSize(c, c.start, size) ==> paddr + size <= PhysLimit(Granule(c))
      modifies this
      ensures Valid() && AllPages(mem, free) == old(AllPages(mem, free)) && r != OutOfRange
      ensures
        var n := if r == Mapped then size else 0;
        && Remapped(c, old(mem), mem, pgd, iova, n, Some(Xlat(paddr, prot)))
        && Resized(c, old(mem), mem, pgd, iova, n, size)
      ensures Deepened(c, old(mem), mem, pgd, iova, if r == Mapped then size else 0)
      ensures r == MapAnswer(c, old(mem), |old(free)|, c.start, pgd, iova, size) && (r == NoMemory ==> free == [])
    {
      ghost var m0: Memory, f0 := mem, free;
      r := MapAt(iova, paddr, size, prot, c.start, pgd);
      RootOwnsAll(c, m0, f0, mem, free, pgd);
      RootSized(c, m0, mem, pgd, iova, if r == Mapped then size else 0, size);
      RootDeeper(c, m0, mem, pgd, iova, if r == Mapped then size else 0);
      if r == Mapped {
        RootChanged(c, m0, mem, pgd, iova, size, Some(Xlat(paddr, prot)));
      } else {
        RootChanged(c, m0, mem, pgd, iova, 0, None);
        Nothing(c, m0, mem, pgd, iova, iova, None, Some(Xlat(paddr, prot)));
      }
    }

    /** arm_lpae_map */
    method Map(iova: nat, paddr: nat, size: nat, access: bool, prot: nat) returns (r: MapResult)
      requires Valid() && (size > 0 ==> iova % size == 0 && paddr % size == 0)
      modifies this
      ensures Valid() && AllPages(mem, free) == old(AllPages(mem, free))
      ensures
        var n := if access && r == Mapped then size else 0;
        && Remapped(c, old(mem), mem, pgd, iova, n, Some(Xlat(paddr, prot)))
        && Resized(c, old(mem), mem, pgd, iova, n, size)
        && Deepened(c, old(mem), mem, pgd, iova, n)
      ensures !access ==> r == Mapped
      ensures access && !MaskAllows(shifts, size) ==> r == Invalid
      ensures access && MaskAllows(shifts, size) ==>
                r == if iova >= Span(c, c.start) || paddr >= output then OutOfRange
                     else MapAnswer(c, old(mem), |old(free)|, c.start, pgd, iova, size)
      ensures r == NoMemory ==> free == []
    {
      Unchanged(c, mem, pgd, iova, Some(Xlat(paddr, prot)), size);
      if !access {
        return Mapped;
      }
      if !MaskAllows(shifts, size) {
        return Invalid;
      }
      if iova >= Span(c, c.start) || paddr >= output {
        return OutOfRange;
      }
      AllowedFits(c, output, shifts, paddr, size);
      r := MapChecked(iova, paddr, size, prot);
    }

    /** arm_lpae_unmap: the number of bytes unmapped. */
    method Unmap(iova: nat, size: nat) returns (n: nat)
      requires Valid() && (size > 0 ==> iova % size == 0)
      modifies this
      ensures Valid() && AllPages(mem, free) == old(AllPages(mem, free))
      ensures n == 0 || n == size
      ensures Remapped(c, old(mem), mem, pgd, iova, n, None)
      ensures n > 0 <==> MaskAllows(shifts, size) && iova < Span(c, c.start)
                         && Unmappable(c, old(mem), |old(free)|, c.start, pgd, iova, size)
      ensures n == 0 && MaskAllows(shifts, size) && IsBlockSize(c, c.start, size) ==>
                old(Translate(iova)) == None || (free == [] && old(LeafAt(iova)) > size)
      ensures n > 0 && old(LeafAt(iova)) <= size ==> Resized(c, old(mem), mem, pgd, iova, size, 0)
    {
      if !MaskAllows(shifts, size) || iova >= Span(c, c.start) {
        return 0;
      }
      ghost var m0: Memory, f0 := mem, free;
      n := UnmapAt(iova, size, c.start, pgd);
      RootOwnsAll(c, m0, f0, mem, free, pgd);
      RootChanged(c, m0, mem, pgd, iova, n, None);
      if n > 0 && LeafSize(c, m0, c.start, pgd, iova) <= size {
        RootSized(c, m0, mem, pgd, iova, n, 0);
      }
    }

    /** arm_lpae_iova_to_phys: 0 when there is no translation. */
    method IovaToPhys(iova: nat) returns (paddr: nat)
      requires Valid()
      ensures
        var t := Walk(c, mem, c.start, pgd, iova);
        paddr == if t.Some? then t.value.paddr else 0
      ensures iova < Span(c, c.start) && Translate(iova) == None ==> paddr == 0
    {
      paddr := WalkDown(c, mem, pgd, iova);
    }

    /** arm_lpae_pgtable_free: every table page is back in the pool, none twice. */
    method FreeAll()
      requires Valid()
      modifies this
      ensures mem == map[] && Pool(c, mem, free) && (set p | p in free) == old(AllPages(mem, free))
    {
      FreeTable(c.start, pgd);
      assert mem.Keys == {};
    }
  }
}
