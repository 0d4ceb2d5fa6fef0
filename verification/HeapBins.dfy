/** The bins of free chunks and their bitmap (kernel/heap_dlmalloc.c). */
module HeapBins {
  import opened HeapFormat

  /** Chunks of one bin: each of its sizes, none twice, in order of size. */
  ghost predicate BinOk(list: seq<nat>, b: nat, free: map<nat, nat>) {
    && (forall i :: 0 <= i < |list| ==> list[i] in free && BinHash(free[list[i]]) == b)
    && (forall i, j :: 0 <= i < j < |list| ==> list[i] != list[j] && free[list[i]] <= free[list[j]])
  }

  /** p is a binned chunk that holds nb, and none that does is smaller. */
  ghost predicate Smallest(free: map<nat, nat>, nb: nat, p: nat) {
    p in free && free[p] >= nb && forall a :: a in free && free[a] >= nb ==> free[p] <= free[a]
  }

  /**
   The first stage grants the request: an exact one a chunk of its size or 8 more, any other one of
   its bin that is not too big.
   */
  ghost predicate Direct(c: Build, free: map<nat, nat>, nb: nat) {
    if nb < 504 then exists a :: a in free && (free[a] == nb || free[a] == nb + 8)
    else exists a :: a in free && BinHash(free[a]) == BinHash(nb) && nb <= free[a] < nb + c.head
  }

  ghost predicate LargeInBin(c: Build, free: map<nat, nat>, nb: nat) {
    exists a :: a in free && BinHash(free[a]) == BinHash(nb) && free[a] >= nb + c.head
  }

  ghost predicate SmallInBin(free: map<nat, nat>, nb: nat) {
    exists a :: a in free && BinHash(free[a]) == BinHash(nb) && free[a] < nb
  }

  function Inserted(list: seq<nat>, k: nat, p: nat): seq<nat>
    requires k <= |list|
  {
    list[..k] + [p] + list[k..]
  }

  function Removed(list: seq<nat>, k: nat): seq<nat>
    requires k < |list|
  {
    list[..k] + list[k + 1..]
  }

  /** k is where a chunk of the size goes: after the chunks that are not larger. */
  ghost predicate Position(list: seq<nat>, free: map<nat, nat>, size: nat, k: nat) {
    && k <= |list| && (forall i :: 0 <= i < |list| ==> list[i] in free)
    && (forall i :: 0 <= i < k ==> free[list[i]] <= size)
    && (forall i :: k <= i < |list| ==> size < free[list[i]])
  }

  lemma InsertedBin(list: seq<nat>, b: nat, free: map<nat, nat>, p: nat, size: nat, k: nat)
    requires BinOk(list, b, free) && p !in free && BinHash(size) == b && Position(list, free, size, k)
    ensures BinOk(Inserted(list, k, p), b, free[p := size])
  {
    var list' := Inserted(list, k, p);
    forall i | 0 <= i < |list'| ensures list'[i] == if i < k then list[i] else if i == k then p else list[i - 1] {
    }
  }

  lemma RemovedBin(list: seq<nat>, b: nat, free: map<nat, nat>, k: nat)
    requires BinOk(list, b, free) && k < |list|
    ensures BinOk(Removed(list, k), b, free - {list[k]})
    ensures forall a :: a in list && a != list[k] ==> a in Removed(list, k)
  {
    var list' := Removed(list, k);
    forall i | 0 <= i < |list'| ensures list'[i] == list[if i < k then i else i + 1] {
    }
    forall a | a in list && a != list[k] ensures a in list' {
      var i :| 0 <= i < |list| && list[i] == a;
      assert list'[if i < k then i else i - 1] == a;
    }
  }

  lemma OtherBin(list: seq<nat>, b: nat, free: map<nat, nat>, p: nat, size: nat)
    requires BinOk(list, b, free) && p !in free
    ensures BinOk(list, b, free[p := size])
  {
  }

  lemma OtherBinLess(list: seq<nat>, b: nat, free: map<nat, nat>, p: nat)
    requires BinOk(list, b, free) && p !in list
    ensures BinOk(list, b, free - {p})
  {
  }

  class Bins {
    const heap: nat
    var lists: seq<seq<nat>>
    var blocks: seq<bool>
    ghost var free: map<nat, nat>

    ghost predicate Valid()
      reads this
    {
      && |lists| == |blocks| == BinCount(heap)
      && (forall b :: 0 <= b < |lists| ==> BinOk(lists[b], b, free) && (blocks[b] <==> lists[b] != []))
      && (forall a :: a in free ==> free[a] % ALIGN == 0 && BinHash(free[a]) < |lists| && a in lists[BinHash(free[a])])
    }

    constructor (heap: nat)
      ensures Valid() && free == map[] && this.heap == heap
    {
      this.heap := heap;
      lists := seq(BinCount(heap), i => []);
      blocks := seq(BinCount(heap), i => false);
      free := map[];
    }

    /** Puts p into bin b at place k. */
    method Put(b: nat, k: nat, p: nat, ghost size: nat)
      requires Valid() && p !in free && size % ALIGN == 0 && BinHash(size) == b < |lists|
      requires Position(lists[b], free, size, k)
      modifies this
      ensures Valid() && free == old(free)[p := size]
    {
      InsertedBin(lists[b], b, free, p, size, k);
      forall i | 0 <= i < |lists| && i != b ensures BinOk(lists[i], i, free[p := size]) {
        OtherBin(lists[i], i, free, p, size);
      }
      lists := lists[b := Inserted(lists[b], k, p)];
      blocks := blocks[b := true];
      free := free[p := size];
    }

    /** heap_chunk_unlink */
    method Unlink(p: nat, b: nat)
      requires Valid() && p in free && b == BinHash(free[p])
      modifies this
      ensures Valid() && free == old(free) - {p}
    {
      var k :| 0 <= k < |lists[b]| && lists[b][k] == p;
      RemovedBin(lists[b], b, free, k);
      forall i | 0 <= i < |lists| && i != b ensures BinOk(lists[i], i, free - {p}) {
        OtherBinLess(lists[i], i, free, p);
      }
      lists := lists[b := Removed(lists[b], k)];
      if lists[b] == [] {
        blocks := blocks[b := false];
      }
      free := free - {p};
    }

    /** heap_chunk_link: at the end of an exact bin, before the first larger chunk of any other. */
    method Link(p: nat, size: nat, sizes: map<nat, nat>)
      requires Valid() && p !in free && size % ALIGN == 0 && size <= heap
      requires forall a :: a in free ==> a in sizes && sizes[a] == free[a]
      modifies this
      ensures Valid() && free == old(free)[p := size]
    {
      EverySizeHasABin(size, heap);
      if size < 512 {
        LinkExact(p, size);
      } else {
        var b := BinHash(size);
        var k := FindPlace(lists[b], size, sizes, b, free);
        Put(b, k, p, size);
      }
    }

    method LinkExact(p: nat, size: nat)
      requires Valid() && p !in free && size % ALIGN == 0 && size < 512 && BinHash(size) < |lists|
      modifies this
      ensures Valid() && free == old(free)[p := size]
    {
      var b := size / 8;
      EndOfExactBin(lists[b], b, free, size);
      Put(b, |lists[b]|, p, size);
    }

    /** find_next_set_bit on the bitmap. */
    method NextBlock(from: nat) returns (b: nat)
      requires Valid()
      ensures from <= b && (b <= |lists| || b == from) && (b < |lists| ==> lists[b] != [])
      ensures forall i :: from <= i < b && i < |lists| ==> lists[i] == []
      ensures b >= |lists| ==> forall i :: from <= i < |lists| ==> lists[i] == []
    {
      b := from;
      while b < |blocks| && !blocks[b]
        invariant from <= b && (b <= |blocks| || b == from)
        invariant forall i :: from <= i < b && i < |lists| ==> lists[i] == []
      {
        b := b + 1;
      }
    }

    lemma ExactHead(b: nat)
      requires Valid() && b < 64 && b < |lists| && lists[b] != []
      ensures lists[b][0] in free && BinHash(free[lists[b][0]]) == b && free[lists[b][0]] == 8 * b
    {
      InBin(lists[b], b, free, 0);
      ExactBinSize(free[lists[b][0]], 8 * b);
    }

    lemma ExactLeast(b: nat, nb: nat, a: nat)
      requires Valid() && nb % ALIGN == 0 && nb < 504 && a in free && free[a] >= nb
      requires b == nb / 8 || (b == nb / 8 + 1 && b < |lists| && lists[nb / 8] == [])
      ensures 8 * b <= free[a]
    {
      ExactHash(nb);
      NextMultiple(free[a], nb);
    }

    /** The first chunk of an exact bin, or of the next when that is empty, is a smallest that fits. */
    lemma ExactFirst(b: nat, nb: nat)
      requires Valid() && nb % ALIGN == 0 && nb < 504 && b < |lists| && lists[b] != []
      requires b == nb / 8 || (b == nb / 8 + 1 && lists[nb / 8] == [])
      ensures lists[b][0] in free && BinHash(free[lists[b][0]]) == b && free[lists[b][0]] == 8 * b
      ensures Smallest(free, nb, lists[b][0])
    {
      ExactHead(b);
      var p := lists[b][0];
      assert p in free && free[p] >= nb;
      forall a | a in free && free[a] >= nb ensures free[p] <= free[a] {
        ExactLeast(b, nb, a);
      }
    }

    lemma LaterThanExact(nb: nat, a: nat)
      requires Valid() && nb < 504 && nb / 8 + 1 < |lists| && lists[nb / 8] == [] && lists[nb / 8 + 1] == []
      requires a in free && free[a] >= nb
      ensures BinHash(free[a]) >= nb / 8 + 2
    {
      ExactHash(nb);
      BinsFollowSizes(nb, free[a]);
      assert a in lists[BinHash(free[a])];
    }

    /** With an exact bin and the next one empty, every chunk that fits is in a later bin. */
    lemma NoneExact(nb: nat)
      requires Valid() && nb < 504 && nb / 8 + 1 < |lists| && lists[nb / 8] == [] && lists[nb / 8 + 1] == []
      ensures forall a :: a in free && free[a] >= nb ==> BinHash(free[a]) >= nb / 8 + 2
    {
      forall a | a in free && free[a] >= nb ensures BinHash(free[a]) >= nb / 8 + 2 {
        LaterThanExact(nb, a);
      }
    }

    /** No chunk that fits is in a bin below that of the request. */
    lemma NoneBelow(nb: nat)
      requires Valid()
      ensures forall a :: a in free && free[a] >= nb ==> BinHash(free[a]) >= BinHash(nb)
    {
      forall a | a in free && free[a] >= nb ensures BinHash(free[a]) >= BinHash(nb) {
        BinsFollowSizes(nb, free[a]);
      }
    }

    /** When no chunk of bin b fits, the chunks that fit are in later bins. */
    lemma NoneInBin(b: nat, nb: nat)
      requires Valid() && b < |lists|
      requires forall i :: 0 <= i < |lists[b]| ==> lists[b][i] in free && free[lists[b][i]] < nb
      requires forall a :: a in free && free[a] >= nb ==> BinHash(free[a]) >= b
      ensures forall a :: a in free && free[a] >= nb ==> BinHash(free[a]) >= b + 1
    {
      forall a | a in free && free[a] >= nb ensures BinHash(free[a]) >= b + 1 {
        assert a in lists[BinHash(free[a])];
      }
    }

    /** With idx at or above the bin of the request: the first chunk from there on is too small if any is. */
    lemma SmallComesFirst(idx: nat, b: nat, nb: nat, a: nat)
      requires Valid() && BinHash(nb) <= idx <= b && forall i :: idx <= i < b && i < |lists| ==> lists[i] == []
      requires a in free && BinHash(free[a]) >= idx && free[a] < nb
      ensures b < |lists| && lists[b] != [] && lists[b][0] in free && free[lists[b][0]] < nb
    {
      BinsFollowSizes(free[a], nb);
      assert a in lists[idx];
      var i :| 0 <= i < |lists[idx]| && lists[idx][i] == a;
      InBin(lists[idx], idx, free, 0);
    }

    /** Past the last bin no chunk fits. */
    lemma NoneFits(b: nat, nb: nat)
      requires Valid() && b >= |lists| && forall a :: a in free && free[a] >= nb ==> BinHash(free[a]) >= b
      ensures forall a :: a in free ==> free[a] < nb
    {
      forall a | a in free ensures free[a] < nb {
        assert BinHash(free[a]) < |lists|;
      }
    }

    /** An exact request finds a chunk in its bin or the next exactly when there is one of its size or 8 more. */
    lemma ExactIsDirect(c: Build, nb: nat)
      requires Valid() && nb % ALIGN == 0 && nb < 504 && nb / 8 + 1 < |lists|
      ensures Direct(c, free, nb) <==> lists[nb / 8] != [] || lists[nb / 8 + 1] != []
    {
      if lists[nb / 8] != [] {
        ExactHead(nb / 8);
      }
      if lists[nb / 8 + 1] != [] {
        ExactHead(nb / 8 + 1);
      }
      if a :| a in free && (free[a] == nb || free[a] == nb + 8) {
        DirectIsExact(nb, a);
      }
    }

    lemma DirectIsExact(nb: nat, a: nat)
      requires Valid() && nb % ALIGN == 0 && nb < 504 && nb / 8 + 1 < |lists|
      requires a in free && (free[a] == nb || free[a] == nb + 8)
      ensures lists[nb / 8] != [] || lists[nb / 8 + 1] != []
    {
      ExactHash(nb);
      ExactHash(nb + 8);
      assert a in lists[BinHash(free[a])];
    }

    /** Any other request, with k the first chunk of its bin that holds it. */
    lemma FitIsDirect(c: Build, k: nat, nb: nat)
      requires Valid() && nb >= 504 && BinHash(nb) < |lists| && k <= |lists[BinHash(nb)]|
      requires forall i :: 0 <= i < k ==> free[lists[BinHash(nb)][i]] < nb
      requires k < |lists[BinHash(nb)]| ==> free[lists[BinHash(nb)][k]] >= nb
      ensures Direct(c, free, nb) <==> k < |lists[BinHash(nb)]| && free[lists[BinHash(nb)][k]] < nb + c.head
      ensures !Direct(c, free, nb) ==> (LargeInBin(c, free, nb) <==> k < |lists[BinHash(nb)]|)
    {
      var b := BinHash(nb);
      if k < |lists[b]| {
        InBin(lists[b], b, free, k);
        forall a | a in free && BinHash(free[a]) == b && free[a] >= nb ensures free[a] >= free[lists[b][k]] {
          assert a in lists[b];
          FirstIsLeast(lists[b], b, free, nb, k, a);
        }
      } else {
        forall a | a in free && BinHash(free[a]) == b ensures free[a] < nb {
          assert a in lists[b];
        }
      }
    }

    /** Empty bins are skipped. */
    lemma SkipEmpty(from: nat, b: nat, nb: nat)
      requires Valid() && forall i :: from <= i < b && i < |lists| ==> lists[i] == []
      requires forall a :: a in free && free[a] >= nb ==> BinHash(free[a]) >= from
      ensures forall a :: a in free && free[a] >= nb ==> BinHash(free[a]) >= b
    {
      forall a | a in free && free[a] >= nb ensures BinHash(free[a]) >= b {
        assert a in lists[BinHash(free[a])];
      }
    }

    /** The first bin from `from` on that holds anything; no chunk of nb or more is in a bin before it. */
    method NextHolding(from: nat, nb: nat) returns (b: nat)
      requires Valid() && forall a :: a in free && free[a] >= nb ==> BinHash(free[a]) >= from
      ensures from <= b && (b < |lists| ==> lists[b] != [])
      ensures forall i :: from <= i < b && i < |lists| ==> lists[i] == []
      ensures forall a :: a in free && free[a] >= nb ==> BinHash(free[a]) >= b
    {
      b := NextBlock(from);
      SkipEmpty(from, b, nb);
    }

    /** The first that fits in the lowest bin with one that fits is a smallest that fits. */
    lemma FirstIsSmallest(b: nat, k: nat, nb: nat)
      requires Valid() && b < |lists| && k < |lists[b]| && free[lists[b][k]] >= nb
      requires forall i :: 0 <= i < k ==> free[lists[b][i]] < nb
      requires forall a :: a in free && free[a] >= nb ==> BinHash(free[a]) >= b
      ensures Smallest(free, nb, lists[b][k])
    {
      forall a | a in free && free[a] >= nb ensures free[lists[b][k]] <= free[a] {
        assert a in lists[BinHash(free[a])];
        FirstIsLeast(lists[b], b, free, nb, k, a);
      }
    }
  }

  lemma FirstIsLeast(list: seq<nat>, b: nat, free: map<nat, nat>, nb: nat, k: nat, a: nat)
    requires BinOk(list, b, free) && k < |list| && free[list[k]] >= nb && forall i :: 0 <= i < k ==> free[list[i]] < nb
    requires a in free && free[a] >= nb && BinHash(free[a]) >= b && (BinHash(free[a]) == b ==> a in list)
    ensures free[list[k]] <= free[a]
  {
    var p, s := list[k], free[a];
    if s < free[p] {
      BinsFollowSizes(s, free[p]);
    }
  }

  /** The size test of a scan; `cast` when the head size is cast to heap_size_t. */
  predicate LeavesChunk(c: Build, cast: bool, victim: nat, nb: nat) {
    if cast then RestFits(c, victim, nb) else TooBig(c, victim, nb)
  }

  /**
   The first chunk of a bin that passes a test, by its place; the bin's length if none does.  It is
   the first that holds nb, or with the cast in a wide build the first chunk whatever its size.
   */
  method Scan(c: Build, cast: bool, list: seq<nat>, nb: nat, sizes: map<nat, nat>, ghost b: nat, ghost free: map<nat,
              nat>)
    returns (k: nat)
    requires BinOk(list, b, free) && forall a :: a in free ==> a in sizes && sizes[a] == free[a]
    requires BuildOk(c) && nb <= c.heap && forall a :: a in free ==> free[a] <= c.heap
    ensures k <= |list| && forall i :: 0 <= i < k ==> free[list[i]] < nb
    ensures if cast && Wide(c) then k == 0 else k < |list| ==> free[list[k]] >= nb
  {
    k := 0;
    while k < |list|
      invariant k <= |list| && (cast && Wide(c) ==> k == 0) && forall i :: 0 <= i < k ==> free[list[i]] < nb
    {
      var victim := sizes[list[k]];
      RestFitsIsExactIff(c, victim, nb);
      if LeavesChunk(c, cast, victim, nb) || Fits(victim, nb) {
        break;
      }
      k := k + 1;
    }
  }

  /** The walk of a bin that holds several sizes, to the first larger chunk. */
  method FindPlace(list: seq<nat>, size: nat, sizes: map<nat, nat>, ghost b: nat, ghost free: map<nat, nat>)
    returns (k: nat)
    requires BinOk(list, b, free) && forall a :: a in free ==> a in sizes && sizes[a] == free[a]
    ensures Position(list, free, size, k)
  {
    k := 0;
    while k < |list| && !(size < sizes[list[k]])
      invariant k <= |list| && forall i :: 0 <= i < k ==> free[list[i]] <= size
    {
      k := k + 1;
    }
  }

  lemma EndOfExactBin(list: seq<nat>, b: nat, free: map<nat, nat>, size: nat)
    requires BinOk(list, b, free) && size < 512 && size % ALIGN == 0 && b == size / 8
    requires forall i :: 0 <= i < |list| ==> free[list[i]] % ALIGN == 0
    ensures Position(list, free, size, |list|)
  {
    forall i | 0 <= i < |list| ensures free[list[i]] == size {
      assert BinHash(free[list[i]]) == b;
      ExactBinSize(free[list[i]], size);
    }
  }

  lemma InBin(list: seq<nat>, b: nat, free: map<nat, nat>, i: nat)
    requires BinOk(list, b, free) && i < |list|
    ensures list[i] in free && BinHash(free[list[i]]) == b
  {
  }

  lemma NextMultiple(x: nat, n: nat)
    requires x % ALIGN == 0 && n % ALIGN == 0
    ensures x == n || x < n || x >= n + ALIGN
  {
  }

  lemma ExactHash(size: nat)
    requires size < 512
    ensures BinHash(size) == size / 8
  {
  }

  lemma ExactBinSize(a: nat, size: nat)
    requires a % ALIGN == 0 && size % ALIGN == 0 && size < 512 && BinHash(a) == size / 8
    ensures a == size
  {
  }
}
