/**
 Multi-level I/O page tables as a memory of table pages, and what their walk
 translates (drivers/iommu/iommu_armv8.c).  Granule, start level and size of the
 first table are parameters.
 */
module LpaeWalk {
  import opened Common
  import opened Arithmetic
  import opened LpaeFormat

  /** Entries per table, start level, entries of the first table. */
  datatype Config = Config(n: nat, start: nat, m: nat)

  predicate ConfigOk(c: Config) {
    (c.n == 512 || c.n == 2048 || c.n == 8192) && c.start <= LAST_LEVEL && c.m > 0
  }

  function Granule(c: Config): nat { 8 * c.n }

  /** ARM_LPAE_BLOCK_SIZE */
  function BlockSize(c: Config, lvl: nat): (b: nat)
    requires ConfigOk(c) && lvl <= LAST_LEVEL
    ensures b > 0
    decreases LAST_LEVEL - lvl
  {
    if lvl == LAST_LEVEL then Granule(c) else
    assert c.n * BlockSize(c, lvl + 1) > 0;
    c.n * BlockSize(c, lvl + 1)
  }

  function Entries(c: Config, lvl: nat): nat {
    if lvl == c.start then c.m else c.n
  }

  function Span(c: Config, lvl: nat): (r: nat)
    requires ConfigOk(c) && lvl <= LAST_LEVEL
    ensures r > 0
  {
    assert Entries(c, lvl) * BlockSize(c, lvl) > 0;
    Entries(c, lvl) * BlockSize(c, lvl)
  }

  /** ARM_LPAE_LVL_IDX */
  function Index(c: Config, lvl: nat, iova: nat): (i: nat)
    requires ConfigOk(c) && lvl <= LAST_LEVEL
    ensures i < Entries(c, lvl)
  {
    iova / BlockSize(c, lvl) % Entries(c, lvl)
  }

  type Memory = map<nat, seq<Pte>>

  function Deref(c: Config, e: Pte): nat {
    IopteToPaddr(e.addr, Granule(c))
  }

  datatype Xlat = Xlat(paddr: nat, prot: nat)

  /** The walk of the tables from `page` at `lvl`. */
  function Walk(c: Config, mem: Memory, lvl: nat, page: nat, x: nat): Option<Xlat>
    requires ConfigOk(c) && lvl <= LAST_LEVEL
    decreases LAST_LEVEL - lvl
  {
    if page !in mem || |mem[page]| != Entries(c, lvl) then None
    else
      var e := mem[page][Index(c, lvl, x)];
      if e == ZERO_PTE then None
      else if IsLeaf(e, lvl) then Some(Xlat(IopteToPaddr(e.addr, Granule(c)) + x % BlockSize(c, lvl), e.prot))
      else if lvl < LAST_LEVEL then Walk(c, mem, lvl + 1, Deref(c, e), x)
      else None
  }

  /** Size of the page or block that translates x, or 0. */
  function LeafSize(c: Config, mem: Memory, lvl: nat, page: nat, x: nat): nat
    requires ConfigOk(c) && lvl <= LAST_LEVEL
    decreases LAST_LEVEL - lvl
  {
    if page !in mem || |mem[page]| != Entries(c, lvl) then 0
    else
      var e := mem[page][Index(c, lvl, x)];
      if e == ZERO_PTE then 0
      else if IsLeaf(e, lvl) then BlockSize(c, lvl)
      else if lvl < LAST_LEVEL then LeafSize(c, mem, lvl + 1, Deref(c, e), x)
      else 0
  }

  /** The level of the last table on the walk of x. */
  function Reached(c: Config, mem: Memory, lvl: nat, page: nat, x: nat): (l: nat)
    requires ConfigOk(c) && lvl <= LAST_LEVEL
    ensures lvl <= l <= LAST_LEVEL
    decreases LAST_LEVEL - lvl
  {
    if page !in mem || |mem[page]| != Entries(c, lvl) then lvl
    else
      var e := mem[page][Index(c, lvl, x)];
      if e == ZERO_PTE || IsLeaf(e, lvl) || lvl == LAST_LEVEL then lvl
      else Reached(c, mem, lvl + 1, Deref(c, e), x)
  }

  // ----- well-formed tables

  ghost function ChildPages(c: Config, mem: Memory, lvl: nat, e: Pte): set<nat>
    requires lvl <= LAST_LEVEL
    decreases LAST_LEVEL - lvl, 0
  {
    if IsTable(e, lvl) then Pages(c, mem, lvl + 1, Deref(c, e)) else {}
  }

  /** The table pages reachable from `page`, itself included. */
  ghost function Pages(c: Config, mem: Memory, lvl: nat, page: nat): set<nat>
    requires lvl <= LAST_LEVEL
    decreases LAST_LEVEL - lvl, 1
  {
    if page in mem
    then {page} + (set p | p in mem && exists i :: 0 <= i < |mem[page]| && p in ChildPages(c, mem, lvl, mem[page][i]))
    else {page}
  }

  predicate LeafOk(c: Config, lvl: nat, e: Pte)
    requires ConfigOk(c) && lvl <= LAST_LEVEL
  {
    var p := IopteToPaddr(e.addr, Granule(c));
    IsLeaf(e, lvl) && p % BlockSize(c, lvl) == 0 && p + BlockSize(c, lvl) <= PhysLimit(Granule(c))
  }

  ghost predicate EntryOk(c: Config, mem: Memory, lvl: nat, page: nat, e: Pte)
    requires ConfigOk(c) && lvl <= LAST_LEVEL
    decreases LAST_LEVEL - lvl, 0
  {
    || e == ZERO_PTE
    || LeafOk(c, lvl, e)
    || (IsTable(e, lvl) && lvl + 1 != c.start && Tree(c, mem, lvl + 1, Deref(c, e))
        && page !in ChildPages(c, mem, lvl, e))
  }

  /** A tree of tables: every page in it is reachable in one way only. */
  ghost predicate Tree(c: Config, mem: Memory, lvl: nat, page: nat)
    requires ConfigOk(c) && lvl <= LAST_LEVEL
    decreases LAST_LEVEL - lvl, 1
  {
    && page in mem && |mem[page]| == Entries(c, lvl)
    && (forall i {:trigger EntryOk(c, mem, lvl, page, mem[page][i])} :: 0 <= i < |mem[page]| ==>
        EntryOk(c, mem, lvl, page, mem[page][i]))
    && (forall i, j {:trigger ChildPages(c, mem, lvl, mem[page][i]), ChildPages(c, mem, lvl, mem[page][j])} ::
        0 <= i < j < |mem[page]| ==>
          ChildPages(c, mem, lvl, mem[page][i]) !! ChildPages(c, mem, lvl, mem[page][j]))
  }

  // ----- frames

  ghost predicate Agree(mem: Memory, mem': Memory, pages: set<nat>) {
    forall p :: p in pages ==> p in mem && p in mem' && mem'[p] == mem[p]
  }

  lemma {:induction false} TreePagesLive(c: Config, mem: Memory, lvl: nat, page: nat)
    requires ConfigOk(c) && lvl <= LAST_LEVEL && Tree(c, mem, lvl, page)
    ensures Pages(c, mem, lvl, page) <= mem.Keys
  {
  }

  lemma ChildInPages(c: Config, mem: Memory, lvl: nat, page: nat, i: nat)
    requires ConfigOk(c) && lvl <= LAST_LEVEL && Tree(c, mem, lvl, page) && i < |mem[page]|
    ensures ChildPages(c, mem, lvl, mem[page][i]) <= Pages(c, mem, lvl, page)
    ensures page !in ChildPages(c, mem, lvl, mem[page][i])
  {
    var e := mem[page][i];
    assert EntryOk(c, mem, lvl, page, e);
    if IsTable(e, lvl) {
      TreePagesLive(c, mem, lvl + 1, Deref(c, e));
    }
  }

  ghost predicate SameWalk(c: Config, mem: Memory, mem': Memory, lvl: nat, page: nat)
    requires ConfigOk(c) && lvl <= LAST_LEVEL
  {
    forall x: nat {:trigger Walk(c, mem', lvl, page, x)} ::
      && Walk(c, mem', lvl, page, x) == Walk(c, mem, lvl, page, x)
      && LeafSize(c, mem', lvl, page, x) == LeafSize(c, mem, lvl, page, x)
      && Reached(c, mem', lvl, page, x) == Reached(c, mem, lvl, page, x)
  }

  ghost predicate SameEntry(c: Config, mem: Memory, mem': Memory, lvl: nat, page: nat, e: Pte)
    requires ConfigOk(c) && lvl <= LAST_LEVEL
  {
    && EntryOk(c, mem', lvl, page, e)
    && ChildPages(c, mem', lvl, e) == ChildPages(c, mem, lvl, e)
    && (IsTable(e, lvl) ==> SameWalk(c, mem, mem', lvl + 1, Deref(c, e)))
  }

  lemma PagesMember(c: Config, mem: Memory, lvl: nat, page: nat, p: nat)
    requires ConfigOk(c) && lvl <= LAST_LEVEL && Tree(c, mem, lvl, page)
    ensures p in Pages(c, mem, lvl, page) <==>
              p == page || exists i :: 0 <= i < |mem[page]| && p in ChildPages(c, mem, lvl, mem[page][i])
  {
    if i :| 0 <= i < |mem[page]| && p in ChildPages(c, mem, lvl, mem[page][i]) {
      ChildInPages(c, mem, lvl, page, i);
    }
  }

  /** All entries of the page mean the same in both memories. */
  ghost predicate SameEntries(c: Config, mem: Memory, mem': Memory, lvl: nat, page: nat)
    requires ConfigOk(c) && lvl <= LAST_LEVEL && Tree(c, mem, lvl, page)
  {
    && page in mem' && mem'[page] == mem[page]
    && forall i {:trigger SameEntry(c, mem, mem', lvl, page, mem[page][i])} :: 0 <= i < |mem[page]| ==>
         SameEntry(c, mem, mem', lvl, page, mem[page][i])
  }

  lemma SamePages(c: Config, mem: Memory, mem': Memory, lvl: nat, page: nat)
    requires ConfigOk(c) && lvl <= LAST_LEVEL && Tree(c, mem, lvl, page) && SameEntries(c, mem, mem', lvl, page)
    requires Tree(c, mem', lvl, page)
    ensures Pages(c, mem', lvl, page) == Pages(c, mem, lvl, page)
  {
    forall i | 0 <= i < |mem[page]|
      ensures ChildPages(c, mem', lvl, mem[page][i]) == ChildPages(c, mem, lvl, mem[page][i])
    {
      assert SameEntry(c, mem, mem', lvl, page, mem[page][i]);
    }
    forall p: nat ensures p in Pages(c, mem', lvl, page) <==> p in Pages(c, mem, lvl, page) {
      PagesMember(c, mem, lvl, page, p);
      PagesMember(c, mem', lvl, page, p);
    }
  }

  lemma SameWalks(c: Config, mem: Memory, mem': Memory, lvl: nat, page: nat)
    requires ConfigOk(c) && lvl <= LAST_LEVEL && Tree(c, mem, lvl, page) && SameEntries(c, mem, mem', lvl, page)
    requires Tree(c, mem', lvl, page)
    ensures SameWalk(c, mem, mem', lvl, page)
  {
    forall x: nat
      ensures Walk(c, mem', lvl, page, x) == Walk(c, mem, lvl, page, x)
      ensures LeafSize(c, mem', lvl, page, x) == LeafSize(c, mem, lvl, page, x)
      ensures Reached(c, mem', lvl, page, x) == Reached(c, mem, lvl, page, x)
    {
      var e := mem[page][Index(c, lvl, x)];
      assert SameEntry(c, mem, mem', lvl, page, e);
      assert IsTable(e, lvl) ==> Walk(c, mem', lvl + 1, Deref(c, e), x) == Walk(c, mem, lvl + 1, Deref(c, e), x);
    }
  }

  lemma EntriesGiveTree(c: Config, mem: Memory, mem': Memory, lvl: nat, page: nat)
    requires ConfigOk(c) && lvl <= LAST_LEVEL && Tree(c, mem, lvl, page) && SameEntries(c, mem, mem', lvl, page)
    ensures Tree(c, mem', lvl, page)
    ensures Pages(c, mem', lvl, page) == Pages(c, mem, lvl, page)
    ensures SameWalk(c, mem, mem', lvl, page)
  {
    forall i | 0 <= i < |mem'[page]| ensures EntryOk(c, mem', lvl, page, mem'[page][i]) {
      assert SameEntry(c, mem, mem', lvl, page, mem[page][i]);
    }
    forall i, j | 0 <= i < j < |mem'[page]|
      ensures ChildPages(c, mem', lvl, mem'[page][i]) !! ChildPages(c, mem', lvl, mem'[page][j])
    {
      assert SameEntry(c, mem, mem', lvl, page, mem[page][i]) && SameEntry(c, mem, mem', lvl, page, mem[page][j]);
      assert ChildPages(c, mem, lvl, mem[page][i]) !! ChildPages(c, mem, lvl, mem[page][j]);
    }
    SamePages(c, mem, mem', lvl, page);
    SameWalks(c, mem, mem', lvl, page);
  }

  /** A tree depends only on its own pages. */
  lemma {:induction false} TreeFrame(c: Config, mem: Memory, mem': Memory, lvl: nat, page: nat)
    requires ConfigOk(c) && lvl <= LAST_LEVEL && Tree(c, mem, lvl, page)
    requires Agree(mem, mem', Pages(c, mem, lvl, page))
    ensures Tree(c, mem', lvl, page)
    ensures Pages(c, mem', lvl, page) == Pages(c, mem, lvl, page)
    ensures SameWalk(c, mem, mem', lvl, page)
    decreases LAST_LEVEL - lvl
  {
    forall i | 0 <= i < |mem[page]| ensures SameEntry(c, mem, mem', lvl, page, mem[page][i]) {
      assert EntryOk(c, mem, lvl, page, mem[page][i]);
      ChildInPages(c, mem, lvl, page, i);
      EntryFrame(c, mem, mem', lvl, page, mem[page][i]);
    }
    EntriesGiveTree(c, mem, mem', lvl, page);
  }

  lemma {:induction false} EntryFrame(c: Config, mem: Memory, mem': Memory, lvl: nat, page: nat, e: Pte)
    requires ConfigOk(c) && lvl <= LAST_LEVEL && EntryOk(c, mem, lvl, page, e)
    requires Agree(mem, mem', ChildPages(c, mem, lvl, e))
    ensures SameEntry(c, mem, mem', lvl, page, e)
    decreases LAST_LEVEL - lvl, 0
  {
    if IsTable(e, lvl) {
      TreeFrame(c, mem, mem', lvl + 1, Deref(c, e));
    }
  }

  // ----- changing one entry

  /** Everything of the tree but what hangs below entry k. */
  ghost function Rest(c: Config, mem: Memory, lvl: nat, page: nat, k: nat): set<nat>
    requires lvl <= LAST_LEVEL && page in mem && k < |mem[page]|
  {
    Pages(c, mem, lvl, page) - ChildPages(c, mem, lvl, mem[page][k])
  }

  /** Entry k of the table is now e, or the tree below it has changed; nothing else has. */
  ghost predicate Replaced(c: Config, mem: Memory, mem': Memory, lvl: nat, page: nat, k: nat, e: Pte)
    requires ConfigOk(c) && lvl <= LAST_LEVEL
  {
    && page in mem && k < |mem[page]|
    && page in mem' && mem'[page] == mem[page][k := e]
    && Agree(mem, mem', Rest(c, mem, lvl, page, k) - {page})
    && EntryOk(c, mem', lvl, page, e)
    && ChildPages(c, mem', lvl, e) !! Rest(c, mem, lvl, page, k)
  }

  lemma OtherEntryKept(c: Config, mem: Memory, mem': Memory, lvl: nat, page: nat, k: nat, e: Pte, i: nat)
    requires ConfigOk(c) && lvl <= LAST_LEVEL && Tree(c, mem, lvl, page) && Replaced(c, mem, mem', lvl, page, k, e)
    requires i < |mem[page]| && i != k
    ensures SameEntry(c, mem, mem', lvl, page, mem[page][i])
    ensures ChildPages(c, mem, lvl, mem[page][i]) <= Rest(c, mem, lvl, page, k)
  {
    ChildInPages(c, mem, lvl, page, i);
    var lo, hi := if i < k then i else k, if i < k then k else i;
    assert ChildPages(c, mem, lvl, mem[page][lo]) !! ChildPages(c, mem, lvl, mem[page][hi]);
    assert EntryOk(c, mem, lvl, page, mem[page][i]);
    EntryFrame(c, mem, mem', lvl, page, mem[page][i]);
  }

  lemma ReplacedTree(c: Config, mem: Memory, mem': Memory, lvl: nat, page: nat, k: nat, e: Pte)
    requires ConfigOk(c) && lvl <= LAST_LEVEL && Tree(c, mem, lvl, page) && Replaced(c, mem, mem', lvl, page, k, e)
    ensures Tree(c, mem', lvl, page)
  {
    forall i | 0 <= i < |mem'[page]| ensures EntryOk(c, mem', lvl, page, mem'[page][i]) {
      if i != k {
        OtherEntryKept(c, mem, mem', lvl, page, k, e, i);
      }
    }
    forall i, j | 0 <= i < j < |mem'[page]|
      ensures ChildPages(c, mem', lvl, mem'[page][i]) !! ChildPages(c, mem', lvl, mem'[page][j])
    {
      if i != k {
        OtherEntryKept(c, mem, mem', lvl, page, k, e, i);
      }
      if j != k {
        OtherEntryKept(c, mem, mem', lvl, page, k, e, j);
      }
      assert ChildPages(c, mem, lvl, mem[page][i]) !! ChildPages(c, mem, lvl, mem[page][j]);
    }
  }

  lemma ReplacedPages(c: Config, mem: Memory, mem': Memory, lvl: nat, page: nat, k: nat, e: Pte)
    requires ConfigOk(c) && lvl <= LAST_LEVEL && Tree(c, mem, lvl, page) && Replaced(c, mem, mem', lvl, page, k, e)
    requires Tree(c, mem', lvl, page)
    ensures Pages(c, mem', lvl, page) == Rest(c, mem, lvl, page, k) + ChildPages(c, mem', lvl, e)
  {
    forall p: nat ensures p in Pages(c, mem', lvl, page) <==>
        p in Rest(c, mem, lvl, page, k) + ChildPages(c, mem', lvl, e) {
      PagesMember(c, mem, lvl, page, p);
      PagesMember(c, mem', lvl, page, p);
      ChildInPages(c, mem, lvl, page, k);
      if i :| 0 <= i < |mem[page]| && i != k && p in ChildPages(c, mem', lvl, mem'[page][i]) {
        OtherEntryKept(c, mem, mem', lvl, page, k, e, i);
      }
      if i :| 0 <= i < |mem[page]| && i != k && p in ChildPages(c, mem, lvl, mem[page][i]) {
        OtherEntryKept(c, mem, mem', lvl, page, k, e, i);
        assert mem'[page][i] == mem[page][i];
      }
      assert mem'[page][k] == e;
    }
  }

  lemma ReplacedWalk(c: Config, mem: Memory, mem': Memory, lvl: nat, page: nat, k: nat, e: Pte, x: nat)
    requires ConfigOk(c) && lvl <= LAST_LEVEL && Tree(c, mem, lvl, page) && Replaced(c, mem, mem', lvl, page, k, e)
    requires Index(c, lvl, x) != k
    ensures Walk(c, mem', lvl, page, x) == Walk(c, mem, lvl, page, x)
  {
    var i := Index(c, lvl, x);
    OtherEntryKept(c, mem, mem', lvl, page, k, e, i);
    assert IsTable(mem[page][i], lvl) ==>
      Walk(c, mem', lvl + 1, Deref(c, mem[page][i]), x) == Walk(c, mem, lvl + 1, Deref(c, mem[page][i]), x);
  }

  lemma ReplacedSize(c: Config, mem: Memory, mem': Memory, lvl: nat, page: nat, k: nat, e: Pte, x: nat)
    requires ConfigOk(c) && lvl <= LAST_LEVEL && Tree(c, mem, lvl, page) && Replaced(c, mem, mem', lvl, page, k, e)
    requires Index(c, lvl, x) != k
    ensures LeafSize(c, mem', lvl, page, x) == LeafSize(c, mem, lvl, page, x)
    ensures Reached(c, mem', lvl, page, x) == Reached(c, mem, lvl, page, x)
  {
    var i := Index(c, lvl, x);
    OtherEntryKept(c, mem, mem', lvl, page, k, e, i);
    assert IsTable(mem[page][i], lvl) ==>
      Walk(c, mem', lvl + 1, Deref(c, mem[page][i]), x) == Walk(c, mem, lvl + 1, Deref(c, mem[page][i]), x);
  }

  // ----- indices

  /** Addresses of one table span fall on the same entry exactly when they lie in the same block. */
  lemma IndexIsBlock(c: Config, lvl: nat, x: nat, y: nat)
    requires ConfigOk(c) && lvl <= LAST_LEVEL && x / Span(c, lvl) == y / Span(c, lvl)
    ensures Index(c, lvl, x) == Index(c, lvl, y) <==> x / BlockSize(c, lvl) == y / BlockSize(c, lvl)
  {
    SameDigit(x, y, Entries(c, lvl), BlockSize(c, lvl));
  }

  lemma SpanOfChild(c: Config, lvl: nat)
    requires ConfigOk(c) && lvl < LAST_LEVEL && lvl + 1 != c.start
    ensures Span(c, lvl + 1) == BlockSize(c, lvl)
  {
  }

  lemma SameBlockSameSpan(c: Config, lvl: nat, x: nat, y: nat)
    requires ConfigOk(c) && lvl <= LAST_LEVEL && x / BlockSize(c, lvl) == y / BlockSize(c, lvl)
    ensures x / Span(c, lvl) == y / Span(c, lvl)
  {
    DivModProduct(x, Entries(c, lvl), BlockSize(c, lvl));
    DivModProduct(y, Entries(c, lvl), BlockSize(c, lvl));
  }

  // ----- the allocator's pages

  ghost predicate PageOk(c: Config, p: nat)
    requires ConfigOk(c)
  {
    p % Granule(c) == 0 && 0 < p < 0x1_0000_0000_0000
  }

  /** Every page is either a live table or in the free pool, and in the pool only once. */
  ghost predicate Pool(c: Config, mem: Memory, free: seq<nat>)
    requires ConfigOk(c)
  {
    && (forall i :: 0 <= i < |free| ==> PageOk(c, free[i]) && free[i] !in mem)
    && (forall i, j :: 0 <= i < j < |free| ==> free[i] != free[j])
    && (forall p :: p in mem ==> PageOk(c, p))
  }

  ghost function AllPages(mem: Memory, free: seq<nat>): set<nat> {
    mem.Keys + (set p | p in free)
  }

  /**
   An operation on the tree at `page`: it stays a tree, pages move only between it and the pool,
   nothing else is touched.
   */
  ghost predicate Steps(c: Config, mem: Memory, free: seq<nat>, mem': Memory, free': seq<nat>, lvl: nat, page: nat)
    requires ConfigOk(c) && lvl <= LAST_LEVEL
  {
    && Tree(c, mem', lvl, page)
    && Pool(c, mem', free') && AllPages(mem', free') == AllPages(mem, free)
    && Agree(mem, mem', mem.Keys - Pages(c, mem, lvl, page))
    && mem'.Keys - Pages(c, mem', lvl, page) == mem.Keys - Pages(c, mem, lvl, page)
  }

  lemma StepsCompose(c: Config, mem: Memory, free: seq<nat>, mem1: Memory, free1: seq<nat>, mem2: Memory,
                     free2: seq<nat>, lvl: nat, page: nat)
    requires ConfigOk(c) && lvl <= LAST_LEVEL
    requires Steps(c, mem, free, mem1, free1, lvl, page) && Steps(c, mem1, free1, mem2, free2, lvl, page)
    ensures Steps(c, mem, free, mem2, free2, lvl, page)
  {
    forall p | p in mem.Keys - Pages(c, mem, lvl, page) ensures p in mem && p in mem2 && mem2[p] == mem[p] {
      assert p in mem1.Keys - Pages(c, mem1, lvl, page);
    }
  }

  /** A changed entry, with the pages below it accounted for, is a step of the tree. */
  lemma ReplacedSteps(c: Config, mem: Memory, free: seq<nat>, mem': Memory, free': seq<nat>, lvl: nat, page: nat,
                      k: nat, e: Pte)
    requires ConfigOk(c) && lvl <= LAST_LEVEL && Tree(c, mem, lvl, page) && Replaced(c, mem, mem', lvl, page, k, e)
    requires Pool(c, mem', free') && AllPages(mem', free') == AllPages(mem, free)
    requires Agree(mem, mem', mem.Keys - Pages(c, mem, lvl, page))
    requires mem'.Keys == (mem.Keys - ChildPages(c, mem, lvl, mem[page][k])) + ChildPages(c, mem', lvl, e)
    requires ChildPages(c, mem', lvl, e) !! (mem.Keys - ChildPages(c, mem, lvl, mem[page][k]))
    ensures Steps(c, mem, free, mem', free', lvl, page)
  {
    ReplacedTree(c, mem, mem', lvl, page, k, e);
    ReplacedPages(c, mem, mem', lvl, page, k, e);
    ChildInPages(c, mem, lvl, page, k);
  }

  lemma OutsideAndBelow(live: set<nat>, live': set<nat>, below: set<nat>, below': set<nat>)
    requires below <= live && below' <= live' && live' - below' == live - below
    ensures live' == (live - below) + below' && below' !! (live - below)
  {
    forall p ensures p in live' <==> p in (live - below) + below' {
      assert p in live' - below' <==> p in live - below;
    }
    forall p | p in live - below ensures p !in below' {
      assert p in live' - below';
    }
  }

  lemma ChildReplaced(c: Config, mem: Memory, mem': Memory, lvl: nat, page: nat, k: nat)
    requires ConfigOk(c) && lvl < LAST_LEVEL && Tree(c, mem, lvl, page) && k < |mem[page]|
    requires IsTable(mem[page][k], lvl) && Tree(c, mem', lvl + 1, Deref(c, mem[page][k]))
    requires
      var below, below' := ChildPages(c, mem, lvl, mem[page][k]), ChildPages(c, mem', lvl, mem[page][k]);
      Agree(mem, mem', mem.Keys - below) && below' !! (mem.Keys - below)
    ensures Replaced(c, mem, mem', lvl, page, k, mem[page][k])
  {
    var e := mem[page][k];
    assert EntryOk(c, mem, lvl, page, e);
    ChildInPages(c, mem, lvl, page, k);
    TreePagesLive(c, mem, lvl, page);
    assert Rest(c, mem, lvl, page, k) <= mem.Keys - ChildPages(c, mem, lvl, e);
    assert page in mem.Keys - ChildPages(c, mem, lvl, e);
  }

  /** An operation below entry k, seen from the table that holds the entry. */
  lemma ChildSteps(c: Config, mem: Memory, free: seq<nat>, mem': Memory, free': seq<nat>, lvl: nat, page: nat, k: nat)
    requires ConfigOk(c) && lvl < LAST_LEVEL && Tree(c, mem, lvl, page) && k < |mem[page]|
    requires IsTable(mem[page][k], lvl)
    requires Steps(c, mem, free, mem', free', lvl + 1, Deref(c, mem[page][k]))
    ensures Replaced(c, mem, mem', lvl, page, k, mem[page][k])
    ensures Steps(c, mem, free, mem', free', lvl, page)
  {
    var e := mem[page][k];
    assert EntryOk(c, mem, lvl, page, e);
    TreePagesLive(c, mem, lvl + 1, Deref(c, e));
    TreePagesLive(c, mem', lvl + 1, Deref(c, e));
    OutsideAndBelow(mem.Keys, mem'.Keys, ChildPages(c, mem, lvl, e), ChildPages(c, mem', lvl, e));
    ChildReplaced(c, mem, mem', lvl, page, k);
    ChildInPages(c, mem, lvl, page, k);
    ReplacedSteps(c, mem, free, mem', free', lvl, page, k, e);
  }

  // ----- what an operation does to the translation

  function Shifted(v: Option<Xlat>, d: nat): Option<Xlat> {
    if v.Some? then Some(Xlat(v.value.paddr + d, v.value.prot)) else None
  }

  /** Within the span of the table, [iova, iova + size) now translates as v says; the rest as before. */
  ghost predicate Changed(c: Config, mem: Memory, mem': Memory, lvl: nat, page: nat, iova: nat, size: nat,
                          v: Option<Xlat>)
    requires ConfigOk(c) && lvl <= LAST_LEVEL
  {
    forall x: nat {:trigger Walk(c, mem', lvl, page, x)} :: x / Span(c, lvl) == iova / Span(c, lvl) ==>
      Walk(c, mem', lvl, page, x) == if iova <= x < iova + size then Shifted(v, x - iova)
                                     else Walk(c, mem, lvl, page, x)
  }

  ghost predicate Within(c: Config, lvl: nat, iova: nat, size: nat)
    requires ConfigOk(c) && lvl <= LAST_LEVEL
  {
    size > 0 ==> (iova + size - 1) / Span(c, lvl) == iova / Span(c, lvl)
  }

  /** A quotient does not change inside an interval whose ends agree. */
  lemma QuotientInside(x: nat, lo: nat, hi: nat, d: nat)
    requires d > 0 && lo <= x <= hi && lo / d == hi / d
    ensures x / d == lo / d
  {
    var q := lo / d;
    assert lo == q * d + lo % d && hi == q * d + hi % d;
    DivUnique(q, x - q * d, d);
  }

  lemma WalkBelow(c: Config, mem: Memory, lvl: nat, page: nat, e: Pte, x: nat)
    requires ConfigOk(c) && lvl < LAST_LEVEL && page in mem && |mem[page]| == Entries(c, lvl)
    requires mem[page][Index(c, lvl, x)] == e && IsTable(e, lvl)
    ensures Walk(c, mem, lvl, page, x) == Walk(c, mem, lvl + 1, Deref(c, e), x)
    ensures LeafSize(c, mem, lvl, page, x) == LeafSize(c, mem, lvl + 1, Deref(c, e), x)
    ensures Reached(c, mem, lvl, page, x) == Reached(c, mem, lvl + 1, Deref(c, e), x)
  {
  }

  /** A range within a block ends where another block begins. */
  lemma OtherBlockOutside(c: Config, lvl: nat, iova: nat, size: nat, x: nat)
    requires ConfigOk(c) && lvl < LAST_LEVEL && lvl + 1 != c.start && Within(c, lvl + 1, iova, size)
    requires x / BlockSize(c, lvl) != iova / BlockSize(c, lvl)
    ensures !(iova <= x < iova + size)
  {
    SpanOfChild(c, lvl);
    if iova <= x < iova + size {
      QuotientInside(x, iova, iova + size - 1, BlockSize(c, lvl));
    }
  }

  lemma WithinAbove(c: Config, lvl: nat, iova: nat, size: nat)
    requires ConfigOk(c) && lvl < LAST_LEVEL && lvl + 1 != c.start && Within(c, lvl + 1, iova, size)
    ensures Within(c, lvl, iova, size)
  {
    if size > 0 {
      SpanOfChild(c, lvl);
      SameBlockSameSpan(c, lvl, iova + size - 1, iova);
    }
  }

  lemma ChildChangedAt(c: Config, mem: Memory, mem': Memory, lvl: nat, page: nat, iova: nat, size: nat, v: Option<Xlat>,
                       x: nat)
    requires ConfigOk(c) && lvl < LAST_LEVEL && lvl + 1 != c.start && Tree(c, mem, lvl, page)
    requires
      var k := Index(c, lvl, iova);
      var e := mem[page][k];
      && IsTable(e, lvl) && Replaced(c, mem, mem', lvl, page, k, e)
      && Changed(c, mem, mem', lvl + 1, Deref(c, e), iova, size, v) && Within(c, lvl + 1, iova, size)
    requires x / Span(c, lvl) == iova / Span(c, lvl)
    ensures Walk(c, mem', lvl, page, x) == if iova <= x < iova + size then Shifted(v, x - iova)
                                           else Walk(c, mem, lvl, page, x)
  {
    var k := Index(c, lvl, iova);
    IndexIsBlock(c, lvl, x, iova);
    if Index(c, lvl, x) == k {
      SpanOfChild(c, lvl);
      WalkBelow(c, mem, lvl, page, mem[page][k], x);
      WalkBelow(c, mem', lvl, page, mem[page][k], x);
    } else {
      ReplacedWalk(c, mem, mem', lvl, page, k, mem[page][k], x);
      OtherBlockOutside(c, lvl, iova, size, x);
    }
  }

  lemma ChildChanged(c: Config, mem: Memory, mem': Memory, lvl: nat, page: nat, iova: nat, size: nat, v: Option<Xlat>)
    requires ConfigOk(c) && lvl < LAST_LEVEL && Tree(c, mem, lvl, page)
    requires
      var k := Index(c, lvl, iova);
      var e := mem[page][k];
      && IsTable(e, lvl) && Replaced(c, mem, mem', lvl, page, k, e)
      && Changed(c, mem, mem', lvl + 1, Deref(c, e), iova, size, v) && Within(c, lvl + 1, iova, size)
    ensures Changed(c, mem, mem', lvl, page, iova, size, v) && Within(c, lvl, iova, size)
  {
    assert EntryOk(c, mem, lvl, page, mem[page][Index(c, lvl, iova)]);
    WithinAbove(c, lvl, iova, size);
    forall x: nat | x / Span(c, lvl) == iova / Span(c, lvl)
      ensures Walk(c, mem', lvl, page, x) == if iova <= x < iova + size then Shifted(v, x - iova)
                                             else Walk(c, mem, lvl, page, x)
    {
      ChildChangedAt(c, mem, mem', lvl, page, iova, size, v, x);
    }
  }

  /** Addresses of the span that hit the entry of an aligned iova are those of its block. */
  lemma HitsBlock(c: Config, lvl: nat, iova: nat, x: nat)
    requires ConfigOk(c) && lvl <= LAST_LEVEL && iova % BlockSize(c, lvl) == 0
    requires x / Span(c, lvl) == iova / Span(c, lvl)
    ensures Index(c, lvl, x) == Index(c, lvl, iova) <==> iova <= x < iova + BlockSize(c, lvl)
    ensures iova <= x < iova + BlockSize(c, lvl) ==> x % BlockSize(c, lvl) == x - iova
  {
    IndexIsBlock(c, lvl, x, iova);
    AlignedBlock(x, iova, BlockSize(c, lvl));
  }

  lemma EntryHit(c: Config, mem: Memory, lvl: nat, page: nat, e: Pte, v: Option<Xlat>, x: nat, d: nat)
    requires ConfigOk(c) && lvl <= LAST_LEVEL && page in mem && |mem[page]| == Entries(c, lvl)
    requires mem[page][Index(c, lvl, x)] == e && x % BlockSize(c, lvl) == d
    requires if v.None? then e == ZERO_PTE
             else IsLeaf(e, lvl) && e != ZERO_PTE && v.value == Xlat(IopteToPaddr(e.addr, Granule(c)), e.prot)
    ensures Walk(c, mem, lvl, page, x) == Shifted(v, d)
  {
  }

  lemma BlockChangedAt(c: Config, mem: Memory, mem': Memory, lvl: nat, page: nat, iova: nat, e: Pte, v: Option<Xlat>,
                       x: nat)
    requires ConfigOk(c) && lvl <= LAST_LEVEL && Tree(c, mem, lvl, page)
    requires Replaced(c, mem, mem', lvl, page, Index(c, lvl, iova), e) && iova % BlockSize(c, lvl) == 0
    requires if v.None? then e == ZERO_PTE
             else IsLeaf(e, lvl) && e != ZERO_PTE && v.value == Xlat(IopteToPaddr(e.addr, Granule(c)), e.prot)
    requires x / Span(c, lvl) == iova / Span(c, lvl)
    ensures Walk(c, mem', lvl, page, x) ==
              if iova <= x < iova + BlockSize(c, lvl) then Shifted(v, x - iova) else Walk(c, mem, lvl, page, x)
  {
    HitsBlock(c, lvl, iova, x);
    if iova <= x < iova + BlockSize(c, lvl) {
      EntryHit(c, mem', lvl, page, e, v, x, x - iova);
    } else {
      ReplacedWalk(c, mem, mem', lvl, page, Index(c, lvl, iova), e, x);
    }
  }

  lemma BlockWithin(c: Config, lvl: nat, iova: nat)
    requires ConfigOk(c) && lvl <= LAST_LEVEL && iova % BlockSize(c, lvl) == 0
    ensures Within(c, lvl, iova, BlockSize(c, lvl))
  {
    var b := BlockSize(c, lvl);
    AlignedBlock(iova + b - 1, iova, b);
    SameBlockSameSpan(c, lvl, iova + b - 1, iova);
  }

  /** Clearing an entry or installing a leaf changes exactly its block. */
  lemma BlockChanged(c: Config, mem: Memory, mem': Memory, lvl: nat, page: nat, iova: nat, e: Pte, v: Option<Xlat>)
    requires ConfigOk(c) && lvl <= LAST_LEVEL && Tree(c, mem, lvl, page)
    requires Replaced(c, mem, mem', lvl, page, Index(c, lvl, iova), e) && iova % BlockSize(c, lvl) == 0
    requires if v.None? then e == ZERO_PTE
             else IsLeaf(e, lvl) && e != ZERO_PTE && v.value == Xlat(IopteToPaddr(e.addr, Granule(c)), e.prot)
    ensures Changed(c, mem, mem', lvl, page, iova, BlockSize(c, lvl), v) && Within(c, lvl, iova, BlockSize(c, lvl))
  {
    BlockWithin(c, lvl, iova);
    forall x: nat | x / Span(c, lvl) == iova / Span(c, lvl)
      ensures Walk(c, mem', lvl, page, x) ==
                if iova <= x < iova + BlockSize(c, lvl) then Shifted(v, x - iova) else Walk(c, mem, lvl, page, x)
    {
      BlockChangedAt(c, mem, mem', lvl, page, iova, e, v, x);
    }
  }

  lemma ChangedCompose(c: Config, mem: Memory, mem1: Memory, mem2: Memory, lvl: nat, page: nat, iova: nat, size: nat,
                       v: Option<Xlat>)
    requires ConfigOk(c) && lvl <= LAST_LEVEL
    requires Changed(c, mem, mem1, lvl, page, iova, 0, None) && Changed(c, mem1, mem2, lvl, page, iova, size, v)
    ensures Changed(c, mem, mem2, lvl, page, iova, size, v)
  {
    forall x: nat | x / Span(c, lvl) == iova / Span(c, lvl)
      ensures Walk(c, mem2, lvl, page, x) == if iova <= x < iova + size then Shifted(v, x - iova)
                                             else Walk(c, mem, lvl, page, x)
    {
      assert Walk(c, mem1, lvl, page, x) == Walk(c, mem, lvl, page, x);
    }
  }

  // ----- what an operation does to the sizes of the leaves

  /** Within the span of the table, the leaves of [iova, iova + size) now have the size b; the rest are as before. */
  ghost predicate Sized(c: Config, mem: Memory, mem': Memory, lvl: nat, page: nat, iova: nat, size: nat, b: nat)
    requires ConfigOk(c) && lvl <= LAST_LEVEL
  {
    forall x: nat {:trigger LeafSize(c, mem', lvl, page, x)} :: x / Span(c, lvl) == iova / Span(c, lvl) ==>
      LeafSize(c, mem', lvl, page, x) == if iova <= x < iova + size then b else LeafSize(c, mem, lvl, page, x)
  }

  lemma ChildSizedAt(c: Config, mem: Memory, mem': Memory, lvl: nat, page: nat, iova: nat, size: nat, b: nat, x: nat)
    requires ConfigOk(c) && lvl < LAST_LEVEL && lvl + 1 != c.start && Tree(c, mem, lvl, page)
    requires
      var k := Index(c, lvl, iova);
      var e := mem[page][k];
      && IsTable(e, lvl) && Replaced(c, mem, mem', lvl, page, k, e)
      && Sized(c, mem, mem', lvl + 1, Deref(c, e), iova, size, b) && Within(c, lvl + 1, iova, size)
    requires x / Span(c, lvl) == iova / Span(c, lvl)
    ensures LeafSize(c, mem', lvl, page, x) == if iova <= x < iova + size then b else LeafSize(c, mem, lvl, page, x)
  {
    var k := Index(c, lvl, iova);
    IndexIsBlock(c, lvl, x, iova);
    if Index(c, lvl, x) == k {
      SpanOfChild(c, lvl);
      WalkBelow(c, mem, lvl, page, mem[page][k], x);
      WalkBelow(c, mem', lvl, page, mem[page][k], x);
    } else {
      ReplacedSize(c, mem, mem', lvl, page, k, mem[page][k], x);
      OtherBlockOutside(c, lvl, iova, size, x);
    }
  }

  lemma ChildSized(c: Config, mem: Memory, mem': Memory, lvl: nat, page: nat, iova: nat, size: nat, b: nat)
    requires ConfigOk(c) && lvl < LAST_LEVEL && Tree(c, mem, lvl, page)
    requires
      var k := Index(c, lvl, iova);
      var e := mem[page][k];
      && IsTable(e, lvl) && Replaced(c, mem, mem', lvl, page, k, e)
      && Sized(c, mem, mem', lvl + 1, Deref(c, e), iova, size, b) && Within(c, lvl + 1, iova, size)
    ensures Sized(c, mem, mem', lvl, page, iova, size, b)
  {
    assert EntryOk(c, mem, lvl, page, mem[page][Index(c, lvl, iova)]);
    forall x: nat | x / Span(c, lvl) == iova / Span(c, lvl)
      ensures LeafSize(c, mem', lvl, page, x) == if iova <= x < iova + size then b else LeafSize(c, mem, lvl, page, x)
    {
      ChildSizedAt(c, mem, mem', lvl, page, iova, size, b, x);
    }
  }

  lemma BlockSized(c: Config, mem: Memory, mem': Memory, lvl: nat, page: nat, iova: nat, e: Pte, b: nat)
    requires ConfigOk(c) && lvl <= LAST_LEVEL && Tree(c, mem, lvl, page)
    requires Replaced(c, mem, mem', lvl, page, Index(c, lvl, iova), e) && iova % BlockSize(c, lvl) == 0
    requires if b == 0 then e == ZERO_PTE else IsLeaf(e, lvl) && e != ZERO_PTE && b == BlockSize(c, lvl)
    ensures Sized(c, mem, mem', lvl, page, iova, BlockSize(c, lvl), b)
  {
    forall x: nat | x / Span(c, lvl) == iova / Span(c, lvl)
      ensures LeafSize(c, mem', lvl, page, x) ==
                if iova <= x < iova + BlockSize(c, lvl) then b else LeafSize(c, mem, lvl, page, x)
    {
      HitsBlock(c, lvl, iova, x);
      if !(iova <= x < iova + BlockSize(c, lvl)) {
        ReplacedSize(c, mem, mem', lvl, page, Index(c, lvl, iova), e, x);
      }
    }
  }

  /** A second change of the same range, or one after no change, is what counts. */
  lemma SizedCompose(c: Config, mem: Memory, mem1: Memory, mem2: Memory, lvl: nat, page: nat, iova: nat, n: nat,
                     size: nat, b: nat)
    requires ConfigOk(c) && lvl <= LAST_LEVEL && (n == 0 || n == size)
    requires Sized(c, mem, mem1, lvl, page, iova, n, 0) && Sized(c, mem1, mem2, lvl, page, iova, size, b)
    ensures Sized(c, mem, mem2, lvl, page, iova, size, b)
  {
    forall x: nat | x / Span(c, lvl) == iova / Span(c, lvl)
      ensures LeafSize(c, mem2, lvl, page, x) == if iova <= x < iova + size then b else LeafSize(c, mem, lvl, page, x)
    {
      assert LeafSize(c, mem1, lvl, page, x) == if iova <= x < iova + n then 0 else LeafSize(c, mem, lvl, page, x);
    }
  }

  // ----- what an operation does to the tables on the walks

  /** Within the span of the table, no walk outside [iova, iova + size) has lost a table. */
  ghost predicate Deeper(c: Config, mem: Memory, mem': Memory, lvl: nat, page: nat, iova: nat, size: nat)
    requires ConfigOk(c) && lvl <= LAST_LEVEL
  {
    forall x: nat {:trigger Reached(c, mem', lvl, page, x)} ::
      x / Span(c, lvl) == iova / Span(c, lvl) && !(iova <= x < iova + size) ==>
        Reached(c, mem', lvl, page, x) >= Reached(c, mem, lvl, page, x)
  }

  lemma ChildDeeper(c: Config, mem: Memory, mem': Memory, lvl: nat, page: nat, iova: nat, size: nat)
    requires ConfigOk(c) && lvl < LAST_LEVEL && Tree(c, mem, lvl, page)
    requires
      var k := Index(c, lvl, iova);
      var e := mem[page][k];
      && IsTable(e, lvl) && Replaced(c, mem, mem', lvl, page, k, e)
      && Deeper(c, mem, mem', lvl + 1, Deref(c, e), iova, size)
    ensures Deeper(c, mem, mem', lvl, page, iova, size)
  {
    var k := Index(c, lvl, iova);
    var e := mem[page][k];
    assert EntryOk(c, mem, lvl, page, e);
    SpanOfChild(c, lvl);
    forall x: nat | x / Span(c, lvl) == iova / Span(c, lvl) && !(iova <= x < iova + size)
      ensures Reached(c, mem', lvl, page, x) >= Reached(c, mem, lvl, page, x)
    {
      IndexIsBlock(c, lvl, x, iova);
      if Index(c, lvl, x) == k {
        WalkBelow(c, mem, lvl, page, e, x);
        WalkBelow(c, mem', lvl, page, e, x);
      } else {
        ReplacedSize(c, mem, mem', lvl, page, k, e, x);
      }
    }
  }

  lemma BlockDeeper(c: Config, mem: Memory, mem': Memory, lvl: nat, page: nat, iova: nat, e: Pte)
    requires ConfigOk(c) && lvl <= LAST_LEVEL && Tree(c, mem, lvl, page)
    requires Replaced(c, mem, mem', lvl, page, Index(c, lvl, iova), e) && iova % BlockSize(c, lvl) == 0
    ensures Deeper(c, mem, mem', lvl, page, iova, BlockSize(c, lvl))
  {
    forall x: nat | x / Span(c, lvl) == iova / Span(c, lvl) && !(iova <= x < iova + BlockSize(c, lvl))
      ensures Reached(c, mem', lvl, page, x) >= Reached(c, mem, lvl, page, x)
    {
      HitsBlock(c, lvl, iova, x);
      ReplacedSize(c, mem, mem', lvl, page, Index(c, lvl, iova), e, x);
    }
  }

  lemma DeeperCompose(c: Config, mem: Memory, mem1: Memory, mem2: Memory, lvl: nat, page: nat, iova: nat, n: nat,
                      size: nat)
    requires ConfigOk(c) && lvl <= LAST_LEVEL && n <= size
    requires Deeper(c, mem, mem1, lvl, page, iova, n) && Deeper(c, mem1, mem2, lvl, page, iova, size)
    ensures Deeper(c, mem, mem2, lvl, page, iova, size)
  {
    forall x: nat | x / Span(c, lvl) == iova / Span(c, lvl) && !(iova <= x < iova + size)
      ensures Reached(c, mem2, lvl, page, x) >= Reached(c, mem, lvl, page, x)
    {
      assert Reached(c, mem1, lvl, page, x) >= Reached(c, mem, lvl, page, x);
    }
  }
}
