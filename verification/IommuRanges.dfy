/**
 Mapping and unmapping of whole ranges (kernel/iommu/iommu.c): the range is cut into pieces of supported page sizes,
 and what was mapped is unmapped again when a piece fails.
 */
module IommuRanges {
  import opened Common
  import opened Arithmetic
  import opened Bits
  import opened PageSizes
  import opened LpaeFormat
  import opened LpaeWalk
  import opened LpaeTables

  // ----- one piece

  lemma SmallerDivides(shifts: seq<nat>, s: nat, u: nat)
    requires Supported(shifts, s) && Supported(shifts, u) && s <= u
    ensures s > 0 && u % s == 0
  {
    var j :| j in shifts && s == Two(j);
    var k :| k in shifts && u == Two(k);
    if k < j {
      TwoMonotone(k + 1, j);
    } else {
      TwoDivides(j, k);
    }
  }

  lemma GranuleIsSupported(c: Config, output: nat, shifts: seq<nat>)
    requires ConfigOk(c) && PageSizesOk(c, output, shifts)
    ensures shifts[0] in shifts && Two(shifts[0]) == Granule(c)
  {
    BlockIsTwo(c, LAST_LEVEL);
  }

  lemma SupportedIsWhole(c: Config, output: nat, shifts: seq<nat>, s: nat)
    requires ConfigOk(c) && PageSizesOk(c, output, shifts) && Supported(shifts, s)
    ensures s > 0 && s % Granule(c) == 0 && MaskAllows(shifts, s)
  {
    GranuleIsSupported(c, output, shifts);
    var k :| k in shifts && s == Two(k);
    BitAllowed(shifts, k);
    TwoDivides(shifts[0], k);
  }

  /** No supported size is larger that fits into the range at this address. */
  ghost predicate Largest(shifts: seq<nat>, merge: nat, size: nat, s: nat) {
    forall k :: k in shifts && Two(k) <= size && merge % Two(k) == 0 ==> Two(k) <= s
  }

  /** A range of whole pages always has a piece to begin with, so the code never gives up. */
  lemma PieceFits(c: Config, output: nat, shifts: seq<nat>, merge: nat, size: nat)
    requires ConfigOk(c) && PageSizesOk(c, output, shifts) && size > 0
    requires merge % Granule(c) == 0 && size % Granule(c) == 0
    ensures
      var s := PageSize(shifts, merge, size);
      && 0 < s <= size && Supported(shifts, s) && merge % s == 0 && s % Granule(c) == 0 && MaskAllows(shifts, s)
      && Largest(shifts, merge, size, s)
  {
    GranuleIsSupported(c, output, shifts);
    PageSizeIsLargest(shifts, merge, size);
    AtLeastOne(size, Granule(c));
    SupportedIsWhole(c, output, shifts, PageSize(shifts, merge, size));
  }

  lemma AtLeastOne(x: nat, d: nat)
    requires x > 0 && d > 0 && x % d == 0
    ensures x >= d
  {
    if x < d {
      SmallMod(x, d);
    }
  }

  lemma WholeSum(x: nat, y: nat, d: nat)
    requires d > 0 && x % d == 0 && y % d == 0
    ensures (x + y) % d == 0 && (x >= y ==> (x - y) % d == 0)
  {
    ModOfSum(x, y, d);
    if x >= y {
      ModOfSum(x - y, y, d);
    }
  }

  // ----- tiles

  /** The block of size s around x lies within [lo, hi). */
  ghost predicate Tile(shifts: seq<nat>, lo: nat, hi: nat, s: nat, x: nat) {
    s > 0 && Supported(shifts, s) && lo <= x - x % s && x - x % s + s <= hi
  }

  lemma TileStart(x: nat, s: nat)
    requires s > 0
    ensures (x - x % s) % s == 0 && x - x % s <= x < x - x % s + s
  {
    var q, r := Arithmetic.Split(x, s);
    DivUnique(q, 0, s);
  }

  /** Multiples of d are d apart. */
  lemma MultiplesApart(x: nat, y: nat, d: nat)
    requires d > 0 && x % d == 0 && y % d == 0 && x < y
    ensures x + d <= y
  {
    WholeSum(y, x, d);
    AtLeastOne(y - x, d);
  }

  /** The tile at the start of a range is no larger than the piece taken there. */
  lemma FirstTile(shifts: seq<nat>, lo: nat, hi: nat, leaf: nat, s: nat)
    requires lo < hi && Tile(shifts, lo, hi, leaf, lo) && Largest(shifts, lo, hi - lo, s)
    ensures leaf <= s
  {
    var k :| k in shifts && leaf == Two(k);
  }

  /** The other tiles begin where the piece ends, or later. */
  lemma LaterTile(shifts: seq<nat>, lo: nat, hi: nat, s: nat, leaf: nat, x: nat)
    requires 0 < s <= hi - lo && Supported(shifts, s) && lo % s == 0 && Largest(shifts, lo, hi - lo, s)
    requires lo + s <= x < hi && Tile(shifts, lo, hi, leaf, x)
    ensures Tile(shifts, lo + s, hi, leaf, x)
  {
    var b := x - x % leaf;
    TileStart(x, leaf);
    WholeSum(lo, s, s);
    if b < lo + s {
      if leaf <= s {
        SmallerDivides(shifts, leaf, s);
        DividesMultiple(lo + s, s, leaf);
        MultiplesApart(b, lo + s, leaf);
      } else {
        SmallerDivides(shifts, s, leaf);
        DividesMultiple(b, leaf, s);
        if lo < b {
          MultiplesApart(lo, b, s);
        }
      }
    }
  }

  lemma DividesMultiple(x: nat, a: nat, b: nat)
    requires a > 0 && b > 0 && x % a == 0 && a % b == 0
    ensures x % b == 0
  {
    var q, zero := Arithmetic.Split(a, b);
    MultipleOfMultiple(x, q, b);
  }

  // ----- sizes that are no blocks of the table

  /** A supported size that is no block of the table fits somewhere into the range. */
  ghost predicate Oversized(c: Config, shifts: seq<nat>, lo: nat, hi: nat)
    requires ConfigOk(c)
  {
    exists k, j: nat {:trigger Misfit(c, shifts, lo, hi, k, j)} :: Misfit(c, shifts, lo, hi, k, j)
  }

  ghost predicate Misfit(c: Config, shifts: seq<nat>, lo: nat, hi: nat, k: nat, j: nat)
    requires ConfigOk(c)
  {
    k in shifts && !IsBlockSize(c, c.start, Two(k)) && lo <= j && j + Two(k) <= hi && j % Two(k) == 0
  }

  lemma {:induction false} BlockOf(c: Config, lvl: nat, size: nat) returns (l: nat)
    requires ConfigOk(c) && IsBlockSize(c, lvl, size)
    ensures lvl <= l <= LAST_LEVEL && size == BlockSize(c, l)
    decreases LAST_LEVEL + 1 - lvl
  {
    if size == BlockSize(c, lvl) {
      l := lvl;
    } else {
      l := BlockOf(c, lvl + 1, size);
    }
  }

  lemma {:induction false} IsBlockOf(c: Config, lvl: nat, l: nat)
    requires ConfigOk(c) && lvl <= l <= LAST_LEVEL
    ensures IsBlockSize(c, lvl, BlockSize(c, l))
    decreases l - lvl
  {
    if lvl < l {
      IsBlockOf(c, lvl + 1, l);
    }
  }

  lemma {:induction false} ShiftsFall(c: Config, l: nat, m: nat)
    requires ConfigOk(c) && l <= m <= LAST_LEVEL
    ensures Shift(c, m) <= Shift(c, l)
    decreases m - l
  {
    if l < m {
      ShiftsFall(c, l + 1, m);
    }
  }

  /** Supported sizes up to that of a block are blocks. */
  lemma SmallerIsBlock(c: Config, output: nat, shifts: seq<nat>, k: nat, s: nat)
    requires ConfigOk(c) && PageSizesOk(c, output, shifts) && k in shifts
    requires IsBlockSize(c, c.start, s) && Two(k) <= s
    ensures IsBlockSize(c, c.start, Two(k))
  {
    var l := BlockOf(c, c.start, s);
    BlockIsTwo(c, l);
    var m := if k == Shift(c, 3) then 3 else if k == Shift(c, 2) then 2 else 1;
    BlockIsTwo(c, m);
    if m < l {
      ShiftsFall(c, m, l);
      TwoMonotone(Shift(c, l), k);
      assert Two(k) == s;
    } else {
      IsBlockOf(c, c.start, m);
    }
  }

  /** A piece that is a block does not reach past the start of a misfit. */
  lemma StopsAtMisfit(c: Config, output: nat, shifts: seq<nat>, lo: nat, hi: nat, s: nat, k: nat, j: nat)
    requires ConfigOk(c) && PageSizesOk(c, output, shifts) && Misfit(c, shifts, lo, hi, k, j)
    requires 0 < s <= hi - lo && Supported(shifts, s) && lo % s == 0 && Largest(shifts, lo, hi - lo, s)
    requires IsBlockSize(c, c.start, s)
    ensures Misfit(c, shifts, lo + s, hi, k, j)
  {
    if Two(k) <= s {
      SmallerIsBlock(c, output, shifts, k, s);
    } else {
      SmallerDivides(shifts, s, Two(k));
      DividesMultiple(j, Two(k), s);
      if lo < j {
        MultiplesApart(lo, j, s);
      }
    }
  }

  // ----- leaves

  lemma {:induction false} LeafTranslates(c: Config, mem: Memory, lvl: nat, page: nat, x: nat)
    requires ConfigOk(c) && lvl <= LAST_LEVEL
    ensures LeafSize(c, mem, lvl, page, x) > 0 <==> Walk(c, mem, lvl, page, x) != None
    decreases LAST_LEVEL - lvl
  {
    if page in mem && |mem[page]| == Entries(c, lvl) {
      var e := mem[page][Index(c, lvl, x)];
      if lvl < LAST_LEVEL {
        LeafTranslates(c, mem, lvl + 1, Deref(c, e), x);
      }
    }
  }

  /** The range is covered by pages and blocks of supported sizes that lie within it. */
  ghost predicate Tiled(c: Config, mem: Memory, pgd: nat, shifts: seq<nat>, lo: nat, hi: nat)
    requires ConfigOk(c)
  {
    forall x: nat {:trigger TileAt(c, mem, pgd, shifts, lo, hi, x)} ::
      lo <= x < hi ==> TileAt(c, mem, pgd, shifts, lo, hi, x)
  }

  ghost predicate TileAt(c: Config, mem: Memory, pgd: nat, shifts: seq<nat>, lo: nat, hi: nat, x: nat)
    requires ConfigOk(c)
  {
    Tile(shifts, lo, hi, Leaf(c, mem, pgd, x), x)
  }

  /** s is the piece taken at lo of a range that ends at hi. */
  ghost predicate Piece(shifts: seq<nat>, lo: nat, hi: nat, s: nat) {
    0 < s <= hi - lo && Supported(shifts, s) && lo % s == 0 && Largest(shifts, lo, hi - lo, s)
  }

  lemma TilesLeft(c: Config, mem: Memory, mem': Memory, pgd: nat, shifts: seq<nat>, lo: nat, hi: nat, s: nat)
    requires ConfigOk(c) && Piece(shifts, lo, hi, s)
    requires Tiled(c, mem, pgd, shifts, lo, hi) && Resized(c, mem, mem', pgd, lo, s, 0)
    ensures Tiled(c, mem', pgd, shifts, lo + s, hi)
  {
    var lo' := lo + s;
    forall x: nat | lo' <= x < hi ensures TileAt(c, mem', pgd, shifts, lo', hi, x) {
      assert TileAt(c, mem, pgd, shifts, lo, hi, x) && ResizedAt(c, mem, mem', pgd, lo, s, 0, x);
      LaterTile(shifts, lo, hi, s, Leaf(c, mem, pgd, x), x);
    }
  }

  lemma TileIsMapped(c: Config, mem: Memory, pgd: nat, shifts: seq<nat>, lo: nat, hi: nat, s: nat)
    requires ConfigOk(c) && Piece(shifts, lo, hi, s) && Tiled(c, mem, pgd, shifts, lo, hi)
    ensures 0 < Leaf(c, mem, pgd, lo) <= s && Translation(c, mem, pgd, lo) != None
  {
    var leaf := Leaf(c, mem, pgd, lo);
    assert TileAt(c, mem, pgd, shifts, lo, hi, lo);
    FirstTile(shifts, lo, hi, leaf, s);
    LeafTranslates(c, mem, c.start, pgd, lo);
  }

  lemma MisfitHere(c: Config, shifts: seq<nat>, lo: nat, hi: nat, s: nat)
    requires ConfigOk(c) && Piece(shifts, lo, hi, s) && !IsBlockSize(c, c.start, s)
    ensures Oversized(c, shifts, lo, hi)
  {
    var k :| k in shifts && s == Two(k);
    assert Misfit(c, shifts, lo, hi, k, lo);
  }

  /** Misfits stay ahead of a piece that is a block. */
  lemma MisfitsAhead(c: Config, output: nat, shifts: seq<nat>, lo: nat, hi: nat, s: nat)
    requires ConfigOk(c) && PageSizesOk(c, output, shifts) && Piece(shifts, lo, hi, s) && IsBlockSize(c, c.start, s)
    ensures Oversized(c, shifts, lo, hi) ==> Oversized(c, shifts, lo + s, hi)
  {
    if Oversized(c, shifts, lo, hi) {
      var k, j: nat :| Misfit(c, shifts, lo, hi, k, j);
      StopsAtMisfit(c, output, shifts, lo, hi, s, k, j);
    }
  }

  /** Why iommu_unmap stops: the piece is no block of the table, nothing is mapped there, or a split has no page. */
  ghost predicate Stops(c: Config, mem: Memory, pgd: nat, free: seq<nat>, iova: nat, s: nat)
    requires ConfigOk(c)
  {
    || !IsBlockSize(c, c.start, s)
    || Translation(c, mem, pgd, iova) == None
    || (free == [] && Leaf(c, mem, pgd, iova) > s)
  }

  /** One turn of iommu_unmap, with a piece of size s. */
  method UnmapPiece(t: PageTables, at: nat, end: nat) returns (m: nat, ghost s: nat)
    requires t.Valid() && at < end && at % Granule(t.c) == 0 && (end - at) % Granule(t.c) == 0
    modifies t
    ensures t.Valid() && AllPages(t.mem, t.free) == old(AllPages(t.mem, t.free))
    ensures Piece(t.shifts, at, end, s) && s % Granule(t.c) == 0 && (m == 0 || m == s)
    ensures Remapped(t.c, old(t.mem), t.mem, t.pgd, at, m, None)
    ensures m > 0 <==>
            at < Span(t.c, t.c.start) && Unmappable(t.c, old(t.mem), |old(t.free)|, t.c.start, t.pgd, at, s)
    ensures if m == 0 then Stops(t.c, old(t.mem), t.pgd, t.free, at, s) else IsBlockSize(t.c, t.c.start, s)
    ensures m > 0 && Leaf(t.c, old(t.mem), t.pgd, at) <= s ==> Resized(t.c, old(t.mem), t.mem, t.pgd, at, s, 0)
  {
    PieceFits(t.c, t.output, t.shifts, at, end - at);
    s := PageSize(t.shifts, at, end - at);
    m := t.Unmap(at, PageSize(t.shifts, at, end - at));
  }

  /** Where iommu_unmap stops in a tiled range. */
  lemma StopIsMisfit(c: Config, mem: Memory, pgd: nat, shifts: seq<nat>, free: seq<nat>, lo: nat, hi: nat, s: nat)
    requires ConfigOk(c) && Tiled(c, mem, pgd, shifts, lo, hi) && Piece(shifts, lo, hi, s)
    requires Stops(c, mem, pgd, free, lo, s)
    ensures Oversized(c, shifts, lo, hi)
  {
    TileIsMapped(c, mem, pgd, shifts, lo, hi, s);
    MisfitHere(c, shifts, lo, hi, s);
  }

  lemma NoRoom(c: Config, shifts: seq<nat>, lo: nat)
    requires ConfigOk(c)
    ensures !Oversized(c, shifts, lo, lo)
  {
  }

  lemma Wider(c: Config, shifts: seq<nat>, lo: nat, lo': nat, hi: nat)
    requires ConfigOk(c) && lo <= lo' && Oversized(c, shifts, lo', hi)
    ensures Oversized(c, shifts, lo, hi)
  {
    var k, j: nat :| Misfit(c, shifts, lo', hi, k, j);
    assert Misfit(c, shifts, lo, hi, k, j);
  }

  /** Two changes side by side are one. */
  lemma RemappedOn(c: Config, mem: Memory, mem1: Memory, mem2: Memory, pgd: nat, iova: nat, n: nat, at: nat, m: nat,
                   total: nat, v: Option<Xlat>, w: Option<Xlat>)
    requires ConfigOk(c) && Remapped(c, mem, mem1, pgd, iova, n, v) && Remapped(c, mem1, mem2, pgd, at, m, w)
    requires at == iova + n && total == n + m && (m > 0 ==> w == Shifted(v, n))
    ensures Remapped(c, mem, mem2, pgd, iova, total, v)
  {
    forall x: nat ensures RemappedAt(c, mem, mem2, pgd, iova, total, v, x) {
      assert RemappedAt(c, mem, mem1, pgd, iova, n, v, x);
      assert RemappedAt(c, mem1, mem2, pgd, at, m, w, x);
    }
  }

  /** What is left of a tiled range, and of the misfits in it. */
  ghost predicate TilesFrom(tiled: bool, c: Config, mem: Memory, pgd: nat, shifts: seq<nat>, iova: nat, end: nat,
                            at: nat)
    requires ConfigOk(c)
  {
    tiled ==>
      && Tiled(c, mem, pgd, shifts, at, end)
      && (Oversized(c, shifts, iova, end) ==> Oversized(c, shifts, at, end))
  }

  /** The invariant of the loop of iommu_unmap. */
  ghost predicate Unmapping(tiled: bool, c: Config, mem: Memory, mem': Memory, pgd: nat, shifts: seq<nat>, iova: nat,
                            size: nat, n: nat)
    requires ConfigOk(c)
  {
    && n <= size && n % Granule(c) == 0 && Remapped(c, mem, mem', pgd, iova, n, None)
    && TilesFrom(tiled, c, mem', pgd, shifts, iova, iova + size, iova + n)
  }

  /** The piece at lo is no block of the table, nothing is mapped there, or there is no page for a split. */
  ghost predicate StopsAt(c: Config, mem: Memory, pgd: nat, shifts: seq<nat>, free: seq<nat>, lo: nat, hi: nat)
    requires ConfigOk(c)
  {
    exists s :: Piece(shifts, lo, hi, s) && StopsWith(c, mem, pgd, free, lo, s)
  }

  ghost predicate StopsWith(c: Config, mem: Memory, pgd: nat, free: seq<nat>, iova: nat, s: nat)
    requires ConfigOk(c)
  {
    !IsBlockSize(c, c.start, s) || Translation(c, mem, pgd, iova) == None || free == []
  }

  /** What iommu_unmap ends with. */
  ghost predicate Unmapped(tiled: bool, c: Config, mem: Memory, mem': Memory, pgd: nat, shifts: seq<nat>,
                           free: seq<nat>, iova: nat, size: nat, n: nat)
    requires ConfigOk(c)
  {
    && n <= size && n % Granule(c) == 0 && Remapped(c, mem, mem', pgd, iova, n, None)
    && (n < size ==> StopsAt(c, mem, pgd, shifts, free, iova + n, iova + size))
    && (tiled ==> (n == size <==> !Oversized(c, shifts, iova, iova + size)))
  }

  lemma TilesMoreLeft(tiled: bool, c: Config, output: nat, mem1: Memory, mem2: Memory, pgd: nat, shifts: seq<nat>,
                      iova: nat, at: nat, end: nat, s: nat)
    requires ConfigOk(c) && PageSizesOk(c, output, shifts) && TilesFrom(tiled, c, mem1, pgd, shifts, iova, end, at)
    requires at < end && Piece(shifts, at, end, s) && IsBlockSize(c, c.start, s)
    requires Leaf(c, mem1, pgd, at) <= s ==> Resized(c, mem1, mem2, pgd, at, s, 0)
    ensures TilesFrom(tiled, c, mem2, pgd, shifts, iova, end, at + s)
  {
    if tiled {
      TileIsMapped(c, mem1, pgd, shifts, at, end, s);
      TilesLeft(c, mem1, mem2, pgd, shifts, at, end, s);
      MisfitsAhead(c, output, shifts, at, end, s);
    }
  }

  lemma UnmappedMore(tiled: bool, c: Config, output: nat, mem: Memory, mem1: Memory, mem2: Memory, pgd: nat,
                     shifts: seq<nat>, iova: nat, size: nat, n: nat, n': nat, at: nat, end: nat, s: nat)
    requires ConfigOk(c) && PageSizesOk(c, output, shifts)
    requires Unmapping(tiled, c, mem, mem1, pgd, shifts, iova, size, n) && n < size
    requires at == iova + n && end == iova + size && n' == n + s
    requires Piece(shifts, at, end, s) && s % Granule(c) == 0 && IsBlockSize(c, c.start, s)
    requires Remapped(c, mem1, mem2, pgd, at, s, None)
    requires Leaf(c, mem1, pgd, at) <= s ==> Resized(c, mem1, mem2, pgd, at, s, 0)
    ensures Unmapping(tiled, c, mem, mem2, pgd, shifts, iova, size, n')
  {
    RemappedOn(c, mem, mem1, mem2, pgd, iova, n, at, s, n', None, None);
    WholeSum(n, s, Granule(c));
    TilesMoreLeft(tiled, c, output, mem1, mem2, pgd, shifts, iova, at, end, s);
    assert at + s == iova + n';
  }

  lemma UnmapStuck(tiled: bool, c: Config, mem: Memory, mem1: Memory, mem2: Memory, pgd: nat, shifts: seq<nat>,
                   free: seq<nat>, iova: nat, size: nat, n: nat, at: nat, end: nat, s: nat)
    requires ConfigOk(c) && Unmapping(tiled, c, mem, mem1, pgd, shifts, iova, size, n) && n < size
    requires at == iova + n && end == iova + size
    requires Piece(shifts, at, end, s) && Stops(c, mem1, pgd, free, at, s)
    requires Remapped(c, mem1, mem2, pgd, at, 0, None)
    ensures Unmapped(tiled, c, mem, mem2, pgd, shifts, free, iova, size, n)
  {
    RemappedOn(c, mem, mem1, mem2, pgd, iova, n, at, 0, n, None, None);
    assert RemappedAt(c, mem, mem1, pgd, iova, n, None, at);
    assert Piece(shifts, at, end, s) && StopsWith(c, mem, pgd, free, at, s);
    if tiled {
      StopIsMisfit(c, mem1, pgd, shifts, free, at, end, s);
      Wider(c, shifts, iova, at, end);
    }
  }

  /** One turn of the loop of iommu_unmap, n bytes into the range and then n' bytes. */
  method UnmapTurn(t: PageTables, iova: nat, size: nat, n: nat, ghost mem: Memory, ghost tiled: bool) returns (n': nat)
    requires t.Valid() && iova % Granule(t.c) == 0 && size % Granule(t.c) == 0 && n < size
    requires Unmapping(tiled, t.c, mem, t.mem, t.pgd, t.shifts, iova, size, n)
    modifies t
    ensures t.Valid() && AllPages(t.mem, t.free) == old(AllPages(t.mem, t.free)) && n <= n' <= size
    ensures n' > n ==> Unmapping(tiled, t.c, mem, t.mem, t.pgd, t.shifts, iova, size, n')
    ensures n' == n ==> Unmapped(tiled, t.c, mem, t.mem, t.pgd, t.shifts, t.free, iova, size, n)
  {
    var at, end := iova + n, iova + size;
    WholeSum(iova, n, Granule(t.c));
    WholeSum(size, n, Granule(t.c));
    assert end - at == size - n;
    ghost var mem1: Memory := t.mem;
    var m;
    ghost var s;
    m, s := UnmapPiece(t, at, end);
    n' := n + m;
    if m == 0 {
      UnmapStuck(tiled, t.c, mem, mem1, t.mem, t.pgd, t.shifts, t.free, iova, size, n, at, end, s);
    } else {
      UnmappedMore(tiled, t.c, t.output, mem, mem1, t.mem, t.pgd, t.shifts, iova, size, n, n', at, end, m);
    }
  }

  lemma UnmappedAll(tiled: bool, c: Config, mem: Memory, mem': Memory, pgd: nat, shifts: seq<nat>, free: seq<nat>,
                    iova: nat, size: nat)
    requires ConfigOk(c) && Unmapping(tiled, c, mem, mem', pgd, shifts, iova, size, size)
    ensures Unmapped(tiled, c, mem, mem', pgd, shifts, free, iova, size, size)
  {
    NoRoom(c, shifts, iova + size);
  }

  /**
   iommu_unmap: the number of bytes unmapped.  It clears a first part of the range and nothing else.  It stops early
   only at a piece that is no block of the table, at an address that is not mapped, or when a split has no page.  Of a
   range that is tiled it clears everything, unless a supported size that is no block of the table fits into it.
   */
  method UnmapRange(t: PageTables, iova: nat, size: nat) returns (n: nat)
    requires t.Valid() && iova % Granule(t.c) == 0 && size % Granule(t.c) == 0
    modifies t
    ensures t.Valid() && AllPages(t.mem, t.free) == old(AllPages(t.mem, t.free))
    ensures Unmapped(Tiled(t.c, old(t.mem), t.pgd, t.shifts, iova, iova + size), t.c, old(t.mem), t.mem, t.pgd,
                     t.shifts, t.free, iova, size, n)
  {
    ghost var mem: Memory := t.mem;
    ghost var tiled := Tiled(t.c, t.mem, t.pgd, t.shifts, iova, iova + size);
    n := 0;
    while n < size
      invariant t.Valid() && AllPages(t.mem, t.free) == old(AllPages(t.mem, t.free)) && n <= size
      invariant Unmapping(tiled, t.c, mem, t.mem, t.pgd, t.shifts, iova, size, n)
      decreases size - n
    {
      var before := n;
      n := UnmapTurn(t, iova, size, n, mem, tiled);
      if n == before {
        return;
      }
    }
    UnmappedAll(tiled, t.c, mem, t.mem, t.pgd, t.shifts, t.free, iova, size);
  }

  // ----- mapping

  /** s is the piece taken at these addresses of a range with `left` bytes to go. */
  ghost predicate JointPiece(shifts: seq<nat>, iova: nat, paddr: nat, left: nat, s: nat) {
    && 0 < s <= left && Supported(shifts, s) && iova % s == 0 && paddr % s == 0
    && forall k :: k in shifts && Two(k) <= left && iova % Two(k) == 0 && paddr % Two(k) == 0 ==> Two(k) <= s
  }

  /** The tables and the number of free pages at some time. */
  datatype Snapshot = Snapshot(mem: Memory, pages: nat)

  /** How a piece of size s fails, in terms of what it finds. */
  ghost predicate Fails(c: Config, output: nat, found: Snapshot, pgd: nat, iova: nat, paddr: nat, s: nat, r: MapResult)
    requires ConfigOk(c)
  {
    && r != Mapped
    && r == if iova >= Span(c, c.start) || paddr >= output then OutOfRange
            else MapAnswer(c, found.mem, found.pages, c.start, pgd, iova, s)
  }

  ghost predicate FailsAt(c: Config, output: nat, found: Snapshot, pgd: nat, shifts: seq<nat>, iova: nat, paddr: nat,
                          left: nat, r: MapResult)
    requires ConfigOk(c)
  {
    exists s :: JointPiece(shifts, iova, paddr, left, s) && Fails(c, output, found, pgd, iova, paddr, s, r)
  }

  /** The size chosen divides both addresses, and is the largest that does. */
  lemma PieceAligned(c: Config, output: nat, shifts: seq<nat>, iova: nat, paddr: nat, left: nat)
    requires ConfigOk(c) && PageSizesOk(c, output, shifts) && left > 0 && left % Granule(c) == 0
    requires iova % Granule(c) == 0 && paddr % Granule(c) == 0
    ensures
      var s := PageSize(shifts, Or(iova, paddr), left);
      JointPiece(shifts, iova, paddr, left, s) && s % Granule(c) == 0 && MaskAllows(shifts, s)
  {
    GranuleIsSupported(c, output, shifts);
    OrMultiple(iova, paddr, shifts[0]);
    PieceFits(c, output, shifts, Or(iova, paddr), left);
    forall k | k in shifts
      ensures Or(iova, paddr) % Two(k) == 0 <==> iova % Two(k) == 0 && paddr % Two(k) == 0
    {
      OrMultiple(iova, paddr, k);
    }
  }

  /** One piece of iommu_map. */
  method MapPiece(t: PageTables, iova: nat, paddr: nat, left: nat, access: bool, prot: nat)
    returns (r: MapResult, s: nat)
    requires t.Valid() && left > 0 && left % Granule(t.c) == 0
    requires iova % Granule(t.c) == 0 && paddr % Granule(t.c) == 0
    modifies t
    ensures t.Valid() && AllPages(t.mem, t.free) == old(AllPages(t.mem, t.free))
    ensures JointPiece(t.shifts, iova, paddr, left, s) && s % Granule(t.c) == 0 && (!access ==> r == Mapped)
    ensures
      var n := if access && r == Mapped then s else 0;
      && Remapped(t.c, old(t.mem), t.mem, t.pgd, iova, n, Some(Xlat(paddr, prot)))
      && Resized(t.c, old(t.mem), t.mem, t.pgd, iova, n, s) && Deepened(t.c, old(t.mem), t.mem, t.pgd, iova, n)
    ensures r != Mapped ==> Fails(t.c, t.output, Snapshot(old(t.mem), |old(t.free)|), t.pgd, iova, paddr, s, r)
  {
    PieceAligned(t.c, t.output, t.shifts, iova, paddr, left);
    s := PageSize(t.shifts, Or(iova, paddr), left);
    r := t.Map(iova, paddr, s, access, prot);
  }

  lemma TilesGrow(c: Config, mem: Memory, mem': Memory, pgd: nat, shifts: seq<nat>, lo: nat, hi: nat, hi': nat, s: nat)
    requires ConfigOk(c) && lo <= hi && hi' == hi + s && Tiled(c, mem, pgd, shifts, lo, hi)
    requires s > 0 && Supported(shifts, s) && hi % s == 0 && Resized(c, mem, mem', pgd, hi, s, s)
    ensures Tiled(c, mem', pgd, shifts, lo, hi')
  {
    forall x: nat | lo <= x < hi' ensures TileAt(c, mem', pgd, shifts, lo, hi', x) {
      assert ResizedAt(c, mem, mem', pgd, hi, s, s, x);
      if x < hi {
        assert TileAt(c, mem, pgd, shifts, lo, hi, x);
      } else {
        AlignedBlock(x, hi, s);
      }
    }
  }

  /** Leaves outside the range are as they were. */
  ghost predicate LeavesKept(c: Config, mem: Memory, mem': Memory, pgd: nat, iova: nat, size: nat)
    requires ConfigOk(c)
  {
    forall x: nat {:trigger LeafKept(c, mem, mem', pgd, iova, size, x)} :: LeafKept(c, mem, mem', pgd, iova, size, x)
  }

  ghost predicate LeafKept(c: Config, mem: Memory, mem': Memory, pgd: nat, iova: nat, size: nat, x: nat)
    requires ConfigOk(c)
  {
    x < iova || iova + size <= x ==> Leaf(c, mem', pgd, x) == Leaf(c, mem, pgd, x)
  }

  lemma LeavesKeptOn(c: Config, mem: Memory, mem1: Memory, mem2: Memory, pgd: nat, iova: nat, n: nat, at: nat, s: nat,
                     total: nat, b: nat)
    requires ConfigOk(c) && LeavesKept(c, mem, mem1, pgd, iova, n) && Resized(c, mem1, mem2, pgd, at, s, b)
    requires at == iova + n && total == n + s
    ensures LeavesKept(c, mem, mem2, pgd, iova, total)
  {
    forall x: nat ensures LeafKept(c, mem, mem2, pgd, iova, total, x) {
      assert LeafKept(c, mem, mem1, pgd, iova, n, x) && ResizedAt(c, mem1, mem2, pgd, at, s, b, x);
    }
  }

  /** The invariant of the loop of iommu_map, for a protection that gives access. */
  ghost predicate Mapping(c: Config, mem: Memory, mem': Memory, pgd: nat, shifts: seq<nat>, iova: nat, v: Xlat,
                          size: nat, done: nat)
    requires ConfigOk(c)
  {
    && done <= size && done % Granule(c) == 0 && Remapped(c, mem, mem', pgd, iova, done, Some(v))
    && Tiled(c, mem', pgd, shifts, iova, iova + done) && LeavesKept(c, mem, mem', pgd, iova, done)
    && Deepened(c, mem, mem', pgd, iova, done)
  }

  lemma DeepenedOn(c: Config, mem: Memory, mem1: Memory, mem2: Memory, pgd: nat, iova: nat, n: nat, at: nat, s: nat,
                   total: nat)
    requires ConfigOk(c) && Deepened(c, mem, mem1, pgd, iova, n) && Deepened(c, mem1, mem2, pgd, at, s)
    requires at == iova + n && total == n + s
    ensures Deepened(c, mem, mem2, pgd, iova, total)
  {
    forall x: nat ensures DeepenedAt(c, mem, mem2, pgd, iova, total, x) {
      assert DeepenedAt(c, mem, mem1, pgd, iova, n, x) && DeepenedAt(c, mem1, mem2, pgd, at, s, x);
    }
  }

  lemma MappedMore(c: Config, mem: Memory, mem1: Memory, mem2: Memory, pgd: nat, shifts: seq<nat>, iova: nat, v: Xlat,
                   size: nat, done: nat, done': nat, at: nat, s: nat, w: Xlat)
    requires ConfigOk(c) && Mapping(c, mem, mem1, pgd, shifts, iova, v, size, done) && done' == done + s <= size
    requires at == iova + done && w == Xlat(v.paddr + done, v.prot)
    requires s > 0 && s % Granule(c) == 0 && Supported(shifts, s) && at % s == 0
    requires Remapped(c, mem1, mem2, pgd, at, s, Some(w)) && Resized(c, mem1, mem2, pgd, at, s, s)
    requires Deepened(c, mem1, mem2, pgd, at, s)
    ensures Mapping(c, mem, mem2, pgd, shifts, iova, v, size, done')
  {
    RemappedOn(c, mem, mem1, mem2, pgd, iova, done, at, s, done', Some(v), Some(w));
    TilesGrow(c, mem1, mem2, pgd, shifts, iova, at, iova + done', s);
    LeavesKeptOn(c, mem, mem1, mem2, pgd, iova, done, at, s, done', s);
    DeepenedOn(c, mem, mem1, mem2, pgd, iova, done, at, s, done');
    WholeSum(done, s, Granule(c));
  }

  lemma TilesStay(c: Config, mem: Memory, mem': Memory, pgd: nat, shifts: seq<nat>, lo: nat, hi: nat, at: nat, b: nat)
    requires ConfigOk(c) && Tiled(c, mem, pgd, shifts, lo, hi) && Resized(c, mem, mem', pgd, at, 0, b)
    ensures Tiled(c, mem', pgd, shifts, lo, hi)
  {
    forall x: nat | lo <= x < hi ensures TileAt(c, mem', pgd, shifts, lo, hi, x) {
      assert TileAt(c, mem, pgd, shifts, lo, hi, x) && ResizedAt(c, mem, mem', pgd, at, 0, b, x);
    }
  }

  lemma MapFailed(c: Config, mem: Memory, mem1: Memory, mem2: Memory, pgd: nat, shifts: seq<nat>, iova: nat, v: Xlat,
                  size: nat, done: nat, at: nat, s: nat, w: Option<Xlat>)
    requires ConfigOk(c) && Mapping(c, mem, mem1, pgd, shifts, iova, v, size, done) && at == iova + done
    requires Remapped(c, mem1, mem2, pgd, at, 0, w) && Resized(c, mem1, mem2, pgd, at, 0, s)
    requires Deepened(c, mem1, mem2, pgd, at, 0)
    ensures Mapping(c, mem, mem2, pgd, shifts, iova, v, size, done)
  {
    RemappedOn(c, mem, mem1, mem2, pgd, iova, done, at, 0, done, Some(v), w);
    LeavesKeptOn(c, mem, mem1, mem2, pgd, iova, done, at, 0, done, s);
    DeepenedOn(c, mem, mem1, mem2, pgd, iova, done, at, 0, done);
    TilesStay(c, mem1, mem2, pgd, shifts, iova, at, at, s);
  }

  lemma NothingYet(c: Config, mem: Memory, pgd: nat, shifts: seq<nat>, iova: nat, v: Xlat, size: nat)
    requires ConfigOk(c)
    ensures Mapping(c, mem, mem, pgd, shifts, iova, v, size, 0) && Remapped(c, mem, mem, pgd, iova, 0, Some(v))
  {
  }

  /** The invariant of the loop of iommu_map: without access, no piece changes anything. */
  ghost predicate Progress(access: bool, c: Config, mem: Memory, mem': Memory, pgd: nat, shifts: seq<nat>, iova: nat,
                           v: Xlat, size: nat, done: nat)
    requires ConfigOk(c)
  {
    && done <= size && done % Granule(c) == 0
    && if access then Mapping(c, mem, mem', pgd, shifts, iova, v, size, done)
       else Remapped(c, mem, mem', pgd, iova, 0, Some(v))
  }

  lemma NoAccess(c: Config, mem: Memory, mem1: Memory, mem2: Memory, pgd: nat, shifts: seq<nat>, iova: nat, v: Xlat,
                 size: nat, done: nat, done': nat, at: nat, s: nat, w: Option<Xlat>)
    requires ConfigOk(c) && Progress(false, c, mem, mem1, pgd, shifts, iova, v, size, done)
    requires done' == done + s <= size && s % Granule(c) == 0 && Remapped(c, mem1, mem2, pgd, at, 0, w)
    ensures Progress(false, c, mem, mem2, pgd, shifts, iova, v, size, done')
  {
    WholeSum(done, s, Granule(c));
    Nothing(c, mem1, mem2, pgd, at, iova, w, w);
    RemappedOn(c, mem, mem1, mem2, pgd, iova, 0, iova, 0, 0, Some(v), w);
  }

  /** What a piece finds, `done` bytes into a range that was begun with `was`. */
  ghost predicate Finds(c: Config, was: Snapshot, found: Snapshot, pgd: nat, shifts: seq<nat>, iova: nat, v: Xlat,
                        size: nat, done: nat)
    requires ConfigOk(c)
  {
    && Mapping(c, was.mem, found.mem, pgd, shifts, iova, v, size, done)
    && |found.mem| + found.pages == |was.mem| + was.pages
  }

  /** What the loop of iommu_map ends with. */
  ghost predicate Ended(access: bool, c: Config, output: nat, was: Snapshot, found: Snapshot, mem': Memory, pgd: nat,
                        shifts: seq<nat>, iova: nat, v: Xlat, size: nat, done: nat, held: MapResult, r: MapResult)
    requires ConfigOk(c)
  {
    && Progress(access, c, was.mem, mem', pgd, shifts, iova, v, size, done)
    && (size == 0 ==> r == held) && (size > 0 && (r == Mapped || !access) ==> r == Mapped && done == size)
    && (size > 0 && r != Mapped ==>
          && done < size && Finds(c, was, found, pgd, shifts, iova, v, size, done)
          && FailsAt(c, output, found, pgd, shifts, iova + done, v.paddr + done, size - done, r))
  }

  lemma TurnMapped(access: bool, c: Config, output: nat, was: Snapshot, found: Snapshot, mem2: Memory, pgd: nat,
                   shifts: seq<nat>, iova: nat, v: Xlat, size: nat, done: nat, done': nat, at: nat, to: nat, left: nat,
                   s: nat, w: Xlat, held: MapResult, r: MapResult)
    requires ConfigOk(c) && Progress(access, c, was.mem, found.mem, pgd, shifts, iova, v, size, done) && done < size
    requires access ==> Finds(c, was, found, pgd, shifts, iova, v, size, done)
    requires at == iova + done && to == v.paddr + done && left == size - done && w == Xlat(to, v.prot)
    requires JointPiece(shifts, at, to, left, s) && s % Granule(c) == 0
    requires done' == (if r == Mapped then done + s else done) && (!access ==> r == Mapped)
    requires
      var n := if access && r == Mapped then s else 0;
      && Remapped(c, found.mem, mem2, pgd, at, n, Some(w)) && Resized(c, found.mem, mem2, pgd, at, n, s)
      && Deepened(c, found.mem, mem2, pgd, at, n)
    requires r != Mapped ==> Fails(c, output, found, pgd, at, to, s, r)
    ensures r == Mapped ==> Progress(access, c, was.mem, mem2, pgd, shifts, iova, v, size, done')
    ensures r != Mapped ==> Ended(access, c, output, was, found, mem2, pgd, shifts, iova, v, size, done', held, r)
  {
    if !access {
      NoAccess(c, was.mem, found.mem, mem2, pgd, shifts, iova, v, size, done, done', at, s, Some(w));
    } else if r == Mapped {
      WholeSum(done, s, Granule(c));
      MappedMore(c, was.mem, found.mem, mem2, pgd, shifts, iova, v, size, done, done', at, s, w);
    } else {
      MapFailed(c, was.mem, found.mem, mem2, pgd, shifts, iova, v, size, done, at, s, Some(w));
    }
  }

  /** Pages only move between the tables and the pool. */
  lemma PagesCounted(c: Config, mem: Memory, free: seq<nat>, mem': Memory, free': seq<nat>)
    requires ConfigOk(c) && Pool(c, mem, free) && Pool(c, mem', free') && AllPages(mem, free) == AllPages(mem', free')
    ensures |mem| + |free| == |mem'| + |free'|
  {
    PoolCounted(c, mem, free);
    PoolCounted(c, mem', free');
  }

  lemma {:induction false} DistinctCounted(free: seq<nat>, pool: set<nat>)
    requires forall i, j :: 0 <= i < j < |free| ==> free[i] != free[j]
    requires forall p :: p in pool <==> p in free
    ensures |pool| == |free|
  {
    if free == [] {
      assert pool == {};
    } else {
      var p, rest := free[0], free[1..];
      assert free == [p] + rest && p !in rest;
      DistinctCounted(rest, pool - {p});
    }
  }

  lemma PoolCounted(c: Config, mem: Memory, free: seq<nat>)
    requires ConfigOk(c) && Pool(c, mem, free)
    ensures |AllPages(mem, free)| == |mem| + |free|
  {
    var pool := set p | p in free;
    DistinctCounted(free, pool);
    assert mem.Keys !! pool && |mem.Keys| == |mem|;
    assert AllPages(mem, free) == mem.Keys + pool;
  }

  /** One turn of the loop of iommu_map, `done` bytes into the range and then done' bytes. */
  method MapTurn(t: PageTables, iova: nat, paddr: nat, size: nat, access: bool, prot: nat, done: nat,
                 ghost was: Snapshot, ghost held: MapResult)
    returns (r: MapResult, done': nat, ghost found: Snapshot)
    requires t.Valid() && done < size
    requires iova % Granule(t.c) == 0 && paddr % Granule(t.c) == 0 && size % Granule(t.c) == 0
    requires Progress(access, t.c, was.mem, t.mem, t.pgd, t.shifts, iova, Xlat(paddr, prot), size, done)
    requires access ==>
               Finds(t.c, was, Snapshot(t.mem, |t.free|), t.pgd, t.shifts, iova, Xlat(paddr, prot), size, done)
    modifies t
    ensures t.Valid() && AllPages(t.mem, t.free) == old(AllPages(t.mem, t.free)) && (r == Mapped ==> done < done')
    ensures found == Snapshot(old(t.mem), |old(t.free)|) && (r != Mapped ==> done' == done)
    ensures r == Mapped ==>
              Progress(access, t.c, was.mem, t.mem, t.pgd, t.shifts, iova, Xlat(paddr, prot), size, done')
    ensures r != Mapped ==>
              Ended(access, t.c, t.output, was, found, t.mem, t.pgd, t.shifts, iova, Xlat(paddr, prot), size, done',
                    held, r)
  {
    var at, to, left := iova + done, paddr + done, size - done;
    WholeSum(iova, done, Granule(t.c));
    WholeSum(paddr, done, Granule(t.c));
    WholeSum(size, done, Granule(t.c));
    found := Snapshot(t.mem, |t.free|);
    var s;
    r, s := MapPiece(t, at, to, left, access, prot);
    done' := if r == Mapped then done + s else done;
    TurnMapped(access, t.c, t.output, was, found, t.mem, t.pgd, t.shifts, iova, Xlat(paddr, prot), size, done, done',
               at, to, left, s, Xlat(to, prot), held, r);
  }

  lemma LoopEnds(access: bool, c: Config, output: nat, was: Snapshot, found: Snapshot, mem': Memory, pgd: nat,
                 shifts: seq<nat>, iova: nat, v: Xlat, size: nat, held: MapResult, r: MapResult)
    requires ConfigOk(c) && Progress(access, c, was.mem, mem', pgd, shifts, iova, v, size, size)
    requires if size == 0 then r == held else r == Mapped
    ensures Ended(access, c, output, was, found, mem', pgd, shifts, iova, v, size, size, held, r)
  {
  }

  /** The loop of iommu_map.  The result starts as what its variable happens to hold. */
  method MapPieces(t: PageTables, iova: nat, paddr: nat, size: nat, access: bool, prot: nat, held: MapResult)
    returns (r: MapResult, done: nat, ghost found: Snapshot)
    requires t.Valid()
    requires iova % Granule(t.c) == 0 && paddr % Granule(t.c) == 0 && size % Granule(t.c) == 0
    modifies t
    ensures t.Valid() && AllPages(t.mem, t.free) == old(AllPages(t.mem, t.free))
    ensures done == 0 ==> found == Snapshot(old(t.mem), |old(t.free)|)
    ensures Ended(access, t.c, t.output, Snapshot(old(t.mem), |old(t.free)|), found, t.mem, t.pgd, t.shifts, iova,
                  Xlat(paddr, prot), size, done, held, r)
  {
    ghost var was, free := Snapshot(t.mem, |t.free|), t.free;
    NothingYet(t.c, t.mem, t.pgd, t.shifts, iova, Xlat(paddr, prot), size);
    r, done, found := held, 0, was;
    while done < size
      invariant t.Valid() && AllPages(t.mem, t.free) == old(AllPages(t.mem, t.free))
      invariant if done == 0 then r == held && t.mem == was.mem && t.free == free && found == was else r == Mapped
      invariant Progress(access, t.c, was.mem, t.mem, t.pgd, t.shifts, iova, Xlat(paddr, prot), size, done)
      decreases size - done
    {
      PagesCounted(t.c, was.mem, free, t.mem, t.free);
      r, done, found := MapTurn(t, iova, paddr, size, access, prot, done, was, held);
      if r != Mapped {
        return;
      }
    }
    LoopEnds(access, t.c, t.output, was, found, t.mem, t.pgd, t.shifts, iova, Xlat(paddr, prot), done, held, r);
  }

  /** After a failed iommu_map: what it had mapped is unmapped, in whole or in part, and the rest is as before. */
  ghost predicate RolledBack(c: Config, mem: Memory, mem': Memory, pgd: nat, iova: nat, v: Xlat, done: nat, undone: nat)
    requires ConfigOk(c)
  {
    forall x: nat {:trigger RolledBackAt(c, mem, mem', pgd, iova, v, done, undone, x)} ::
      RolledBackAt(c, mem, mem', pgd, iova, v, done, undone, x)
  }

  ghost predicate RolledBackAt(c: Config, mem: Memory, mem': Memory, pgd: nat, iova: nat, v: Xlat, done: nat,
                               undone: nat, x: nat)
    requires ConfigOk(c)
  {
    Translation(c, mem', pgd, x) ==
      if iova <= x < iova + undone then None
      else if iova <= x < iova + done then Some(Xlat(v.paddr + (x - iova), v.prot))
      else Translation(c, mem, pgd, x)
  }

  lemma RollsBack(c: Config, mem: Memory, mem1: Memory, mem2: Memory, pgd: nat, iova: nat, v: Xlat, done: nat,
                  undone: nat)
    requires ConfigOk(c) && undone <= done && Remapped(c, mem, mem1, pgd, iova, done, Some(v))
    requires Remapped(c, mem1, mem2, pgd, iova, undone, None)
    ensures RolledBack(c, mem, mem2, pgd, iova, v, done, undone)
  {
    forall x: nat ensures RolledBackAt(c, mem, mem2, pgd, iova, v, done, undone, x) {
      assert RemappedAt(c, mem, mem1, pgd, iova, done, Some(v), x);
      assert RemappedAt(c, mem1, mem2, pgd, iova, undone, None, x);
    }
  }

  /**
   What iommu_map ends with.  On success the translation is the old one with exactly the range mapped to consecutive
   addresses.  When a piece fails, the pieces before it are unmapped again, all of them unless a supported size that is
   no block of the table fits into what they cover, and everything else is as before.  The piece fails by what it finds:
   the tables of before with the pieces before it mapped, no walk to it shorter, and the pages that are left.
   */
  ghost predicate RangeMapped(access: bool, c: Config, output: nat, was: Snapshot, found: Snapshot, mem': Memory,
                              pgd: nat, shifts: seq<nat>, iova: nat, v: Xlat, size: nat, done: nat, undone: nat,
                              held: MapResult, r: MapResult)
    requires ConfigOk(c)
  {
    && (size == 0 ==> r == held) && (size > 0 && !access ==> r == Mapped)
    && (size == 0 || !access ==> Remapped(c, was.mem, mem', pgd, iova, 0, Some(v)))
    && (size > 0 && access && r == Mapped ==> Remapped(c, was.mem, mem', pgd, iova, size, Some(v)))
    && (size > 0 && access && r != Mapped ==>
          && undone <= done < size && RolledBack(c, was.mem, mem', pgd, iova, v, done, undone)
          && (undone == done <==> !Oversized(c, shifts, iova, iova + done))
          && Finds(c, was, found, pgd, shifts, iova, v, size, done)
          && FailsAt(c, output, found, pgd, shifts, iova + done, v.paddr + done, size - done, r))
  }

  lemma MapUndone(access: bool, c: Config, output: nat, was: Snapshot, found: Snapshot, mem1: Memory, mem2: Memory,
                  pgd: nat, shifts: seq<nat>, free: seq<nat>, iova: nat, v: Xlat, size: nat, done: nat, undone: nat,
                  held: MapResult, r: MapResult)
    requires ConfigOk(c) && r != Mapped
    requires Ended(access, c, output, was, found, mem1, pgd, shifts, iova, v, size, done, held, r)
    requires Unmapped(Tiled(c, mem1, pgd, shifts, iova, iova + done), c, mem1, mem2, pgd, shifts, free, iova, done,
                      undone)
    ensures RangeMapped(access, c, output, was, found, mem2, pgd, shifts, iova, v, size, done, undone, held, r)
  {
    if size == 0 {
      Nothing(c, mem1, mem2, pgd, iova, iova, None, Some(v));
      RemappedOn(c, was.mem, mem1, mem2, pgd, iova, 0, iova, 0, 0, Some(v), Some(v));
    } else {
      RollsBack(c, was.mem, mem1, mem2, pgd, iova, v, done, undone);
    }
  }

  /** iommu_map */
  method MapRange(t: PageTables, iova: nat, paddr: nat, size: nat, access: bool, prot: nat, held: MapResult)
    returns (r: MapResult, ghost done: nat, ghost undone: nat, ghost found: Snapshot)
    requires t.Valid()
    requires iova % Granule(t.c) == 0 && paddr % Granule(t.c) == 0 && size % Granule(t.c) == 0
    modifies t
    ensures t.Valid() && AllPages(t.mem, t.free) == old(AllPages(t.mem, t.free))
    ensures done == 0 ==> found == Snapshot(old(t.mem), |old(t.free)|)
    ensures RangeMapped(access, t.c, t.output, Snapshot(old(t.mem), |old(t.free)|), found, t.mem, t.pgd, t.shifts, iova,
                        Xlat(paddr, prot), size, done, undone, held, r)
  {
    ghost var was := Snapshot(t.mem, |t.free|);
    var covered;
    r, covered, found := MapPieces(t, iova, paddr, size, access, prot, held);
    done, undone := covered, 0;
    if r != Mapped {
      ghost var mem1: Memory := t.mem;
      var n := UnmapRange(t, iova, covered);
      undone := n;
      MapUndone(access, t.c, t.output, was, found, mem1, t.mem, t.pgd, t.shifts, t.free, iova, Xlat(paddr, prot), size,
                done, undone, held, r);
    }
  }

  /** Out of pages: nothing was mapped at the failing piece, and its walk lacked more tables than pages were left. */
  lemma OutOfPages(c: Config, output: nat, was: Snapshot, found: Snapshot, pgd: nat, shifts: seq<nat>, iova: nat,
                   v: Xlat, size: nat, done: nat, at: nat, to: nat, left: nat)
    returns (s: nat)
    requires ConfigOk(c) && Finds(c, was, found, pgd, shifts, iova, v, size, done) && at == iova + done
    requires FailsAt(c, output, found, pgd, shifts, at, to, left, NoMemory)
    ensures JointPiece(shifts, at, to, left, s) && at < Span(c, c.start) && Translation(c, was.mem, pgd, at) == None
    ensures Reached(c, was.mem, c.start, pgd, at) + found.pages < LevelOf(c, c.start, s)
  {
    s :| JointPiece(shifts, at, to, left, s) && Fails(c, output, found, pgd, at, to, s, NoMemory);
    assert RemappedAt(c, was.mem, found.mem, pgd, iova, done, Some(v), at);
    assert DeepenedAt(c, was.mem, found.mem, pgd, iova, done, at);
  }

  // ----- when the roll-back is complete, and what it restores

  /** No range ever holds a misfit if and only if all supported sizes are blocks of the table. */
  lemma NeverOversizedIff(c: Config, shifts: seq<nat>)
    requires ConfigOk(c)
    ensures (forall lo: nat, hi: nat :: !Oversized(c, shifts, lo, hi)) <==>
            (forall k :: k in shifts ==> IsBlockSize(c, c.start, Two(k)))
  {
    forall k | k in shifts && !IsBlockSize(c, c.start, Two(k)) ensures Oversized(c, shifts, 0, Two(k)) {
      SmallMod(0, Two(k));
      assert Misfit(c, shifts, 0, Two(k), k, 0);
    }
  }

  /** A table that starts at level 1 or above has blocks of all supported sizes. */
  lemma HighTables(c: Config, output: nat, shifts: seq<nat>)
    requires ConfigOk(c) && PageSizesOk(c, output, shifts) && c.start <= 1
    ensures forall k :: k in shifts ==> IsBlockSize(c, c.start, Two(k))
  {
    forall k | k in shifts ensures IsBlockSize(c, c.start, Two(k)) {
      var lvl := if k == Shift(c, 3) then 3 else if k == Shift(c, 2) then 2 else 1;
      BlockIsTwo(c, lvl);
      IsBlockOf(c, c.start, lvl);
    }
  }

  /** Addresses of 30 bits with pages of 4 KiB, 2 MiB and 1 GiB: the whole table is a misfit. */
  lemma ThirtyBits()
    ensures
      var c, shifts := Config(512, 2, 512), [12, 21, 30];
      && ConfigOk(c) && PageSizesOk(c, 0x100_0000_0000, shifts)
      && Span(c, 2) == Two(30) && Oversized(c, shifts, 0, Two(30))
  {
    var c, shifts := Config(512, 2, 512), [12, 21, 30];
    assert Shift(c, 3) == 12 && Shift(c, 2) == 21 && Shift(c, 1) == 30;
    BlockIsTwo(c, 3);
    BlockIsTwo(c, 2);
    BlockIsTwo(c, 1);
    SmallMod(0, Two(30));
    assert 30 in shifts && Misfit(c, shifts, 0, Two(30), 30, 0);
  }

  /** A failed iommu_map leaves the translation as it was if and only if nothing was mapped where its pieces went. */
  lemma FailureRestoresIff(c: Config, mem: Memory, mem': Memory, pgd: nat, iova: nat, v: Xlat, done: nat)
    requires ConfigOk(c) && RolledBack(c, mem, mem', pgd, iova, v, done, done)
    ensures (forall x: nat :: Translation(c, mem', pgd, x) == Translation(c, mem, pgd, x)) <==>
            (forall x: nat :: iova <= x < iova + done ==> Translation(c, mem, pgd, x) == None)
  {
    forall x: nat
      ensures Translation(c, mem', pgd, x) == if iova <= x < iova + done then None else Translation(c, mem, pgd, x)
    {
      assert RolledBackAt(c, mem, mem', pgd, iova, v, done, done, x);
    }
  }
}
