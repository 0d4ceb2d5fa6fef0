/**
 The boundary-tag heap (kernel/heap_dlmalloc.c): alloc and free over chunk headers, bins,
 the last remainder and the top chunk.  In builds of 64 KiB and more the test before splitting
 lets chunks smaller than the request through (HeapFormat.RestFitsIsExactIff); `Overruns` says
 when an allocation comes to split such a chunk.
 */
module Heap {
  import opened Common
  import opened Arithmetic
  import opened HeapFormat
  import opened HeapLayout
  import opened HeapTags
  import opened HeapBins
  import opened HeapState

  /** What __heap_alloc comes to; NoTop is the read of a top chunk that was never set. */
  datatype Outcome = Block(mem: nat) | NoMemory | Bug | NoTop

  ghost predicate AllSmall(free: map<nat, nat>, nb: nat) {
    forall a :: a in free ==> free[a] < nb
  }

  /** Free chunk p becomes a block: whole if there is no chunk's worth to spare or it is of an exact bin, or split. */
  ghost predicate FromFree(head: nat, used: map<nat, nat>, free: map<nat, nat>,
                           used': map<nat, nat>, free': map<nat, nat>, last': Option<nat>, p: nat, nb: nat) {
    && p in free && p !in used && nb <= free[p]
    && (|| (used' == used[p := free[p]] && free' == free - {p} && (free[p] < nb + head || free[p] == nb + 8))
        || SplitOff(head, used, free, used', free', last', p, nb))
  }

  /** A block is cut off the top, when no free chunk holds it. */
  ghost predicate FromTop(used: map<nat, nat>, free: map<nat, nat>,
                          used': map<nat, nat>, free': map<nat, nat>, last': Option<nat>, p: nat, nb: nat) {
    p !in used && p !in free && used' == used[p := nb] && free' == free && last' == None && AllSmall(free, nb)
  }

  /** What the first top chunk skips to be aligned. */
  function Correction(c: Build, brk: nat): nat {
    var misaligned := (brk + 2 * c.word) % ALIGN;
    if misaligned > 0 then ALIGN - misaligned else 0
  }

  lemma SmallestBefore(before: map<nat, nat>, after: map<nat, nat>, nb: nat, p: nat)
    requires Smallest(after, nb, p) && p in before && forall a :: a in before ==> a in after && after[a] == before[a]
    ensures Smallest(before, nb, p)
  {
  }

  /** While chunks merge: the free chunks left over are binned, but for the last remainder unless it has merged. */
  ghost predicate Merging(merged: bool, binned: map<nat, nat>, last: Option<nat>, rest: map<nat, nat>) {
    if merged then binned == rest else Binned(binned, last, rest)
  }

  class Allocator {
    const c: Build
    const start: nat
    const bins: Bins
    var brk: nat
    var words: Words
    var first: Option<nat>
    var last: Option<nat>
    ghost var base: nat
    ghost var chunks: seq<Chunk>

    /** The headers, bins and last remainder are those of the given chunks. */
    ghost predicate LaidOut(base: nat, chunks: seq<Chunk>)
      reads this, bins
    {
      match first
      case None => chunks == [] && last == None && bins.free == map[]
      case Some(f) => Consistent(c, start, brk, words, f, last, bins.free, base, chunks)
    }

    ghost predicate Valid()
      reads this, bins
    {
      && BuildOk(c) && bins.Valid() && bins.heap == c.heap
      && 0 < start <= brk <= start + c.heap && LaidOut(base, chunks)
    }

    /** Some chunks explain the heap. */
    ghost predicate Sound()
      reads this, bins
    {
      exists base: nat, chunks: seq<Chunk> :: LaidOut(base, chunks)
    }

    /** Chunk addresses and sizes of the blocks in use. */
    ghost function Blocks(): map<nat, nat>
      reads this
    {
      Sizes(base, chunks, true)
    }

    /** Every free chunk below the top, binned or not. */
    ghost function FreeChunks(): map<nat, nat>
      reads this
    {
      Sizes(base, chunks, false)
    }

    /** Size of the top chunk. */
    ghost function Top(): nat
      reads this
    {
      if first.Some? && first.value in words.size then words.size[first.value] else 0
    }

    /** The last remainder, or a chunk of the bins from idx on, is smaller than the request and will be split for it. */
    ghost predicate LastSmall(nb: nat)
      reads this
    {
      Wide(c) && last.Some? && last.value in words.size && words.size[last.value] < nb
    }

    ghost predicate BinsSmall(idx: nat, nb: nat)
      reads this, bins
    {
      Wide(c) && exists a :: a in bins.free && BinHash(bins.free[a]) >= idx && bins.free[a] < nb
    }

    /**
     An allocation of nb splits a chunk smaller than nb: in a wide build, when the first stage grants
     nothing, and the last remainder is too small, or there is none and the bin of the request
     holds both chunks that are too small and chunks that are too big.
     */
    ghost predicate Overruns(nb: nat)
      reads this, bins
    {
      && Wide(c) && !Direct(c, bins.free, nb)
      && (LastSmall(nb) || (last == None && nb >= 504 && SmallInBin(bins.free, nb) && LargeInBin(c, bins.free, nb)))
    }

    constructor (c: Build, start: nat)
      requires BuildOk(c) && start > 0
      ensures Valid() && Blocks() == FreeChunks() == map[] && first == None && brk == start && fresh(bins)
      ensures this.c == c && this.start == start
    {
      this.c, this.start, brk := c, start, start;
      bins := new Bins(c.heap);
      words := Words(map[], map[], map[]);
      first, last := None, None;
      base, chunks := 0, [];
    }

    /** heap_sbrk */
    method Sbrk(increment: nat) returns (r: Option<nat>)
      requires Valid()
      modifies this`brk
      ensures if brk == old(brk) then r == None || increment == 0
              else r == Some(old(brk)) && brk == old(brk) + increment
      ensures r == None <==> old(brk) + increment > start + c.heap
      ensures brk <= start + c.heap && (r != None ==> r == Some(old(brk)) && brk == old(brk) + increment)
    {
      if brk + increment > start + c.heap {
        return None;
      }
      r := Some(brk);
      brk := brk + increment;
    }

    lemma HeadersAgree()
      requires Valid()
      ensures forall a :: a in bins.free ==> a in words.size && words.size[a] == bins.free[a] && bins.free[a] <= c.heap
    {
      forall a | a in bins.free ensures a in words.size && words.size[a] == bins.free[a] && bins.free[a] <= c.heap {
        FreeSizes(c, start, brk, words, first.value, last, bins.free, base, chunks, a);
      }
    }

    /** A binned chunk is handed out whole. */
    method TakeBinned(p: nat, b: nat)
      requires Valid() && p in bins.free && b == BinHash(bins.free[p])
      modifies this, bins
      ensures Valid() && base == old(base) && brk == old(brk) && last == old(last) && first == old(first)
      ensures p in old(FreeChunks()) && old(FreeChunks())[p] == old(bins.free)[p]
      ensures FreeChunks() == old(FreeChunks()) - {p}
      ensures Blocks() == old(Blocks())[p := old(bins.free)[p]] && p !in old(Blocks())
    {
      HeadersAgree();
      var size := words.size[p];
      ghost var chunks' := BinnedTaken(c, start, brk, words, first.value, last, bins.free, base, chunks, p, size);
      bins.Unlink(p, b);
      words := SetUsedAt(words, p, size);
      chunks := chunks';
    }

    /** An exact request takes the first chunk of its bin or of the next. */
    method AllocExact(nb: nat) returns (found: bool, p: nat, idx: nat)
      requires Valid() && SizeOk(c.head, nb) && nb <= c.heap - c.word && nb < 504
      modifies this, bins
      ensures Valid() && base == old(base) && brk == old(brk) && (found <==> old(Direct(c, bins.free, nb)))
      ensures found ==> FromFree(c.head, old(Blocks()), old(FreeChunks()), Blocks(), FreeChunks(), last, p, nb)
      ensures found ==> Smallest(old(bins.free), nb, p)
      ensures !found ==> unchanged(this) && unchanged(bins) && idx > BinHash(nb)
      ensures !found ==> forall a :: a in bins.free && bins.free[a] >= nb ==> BinHash(bins.free[a]) >= idx
    {
      NextExactBin(c, nb);
      bins.ExactIsDirect(c, nb);
      idx := nb / 8;
      if bins.lists[idx] == [] {
        idx := idx + 1;
      }
      if bins.lists[idx] != [] {
        bins.ExactFirst(idx, nb);
        p := bins.lists[idx][0];
        TakeBinned(p, idx);
        return true, p, idx;
      }
      bins.NoneExact(nb);
      return false, 0, idx + 1;
    }

    /** Any other request takes a chunk of its bin that is not too big. */
    method AllocFit(nb: nat) returns (found: bool, p: nat, idx: nat)
      requires Valid() && SizeOk(c.head, nb) && 504 <= nb <= c.heap
      modifies this, bins
      ensures Valid() && base == old(base) && brk == old(brk) && (found <==> old(Direct(c, bins.free, nb)))
      ensures found ==> FromFree(c.head, old(Blocks()), old(FreeChunks()), Blocks(), FreeChunks(), last, p, nb)
      ensures found ==> Smallest(old(bins.free), nb, p)
      ensures !found ==> unchanged(this) && unchanged(bins) && idx >= BinHash(nb)
      ensures !found ==> (idx == BinHash(nb) <==> LargeInBin(c, bins.free, nb))
      ensures !found ==> forall a :: a in bins.free && bins.free[a] >= nb ==> BinHash(bins.free[a]) >= idx
    {
      EverySizeHasABin(nb, c.heap);
      bins.NoneBelow(nb);
      HeadersAgree();
      idx := BinHash(nb);
      var k := Scan(c, false, bins.lists[idx], nb, words.size, idx, bins.free);
      bins.FitIsDirect(c, k, nb);
      if k < |bins.lists[idx]| {
        p := bins.lists[idx][k];
        if TooBig(c, words.size[p], nb) {
          return false, 0, idx;
        }
        bins.FirstIsSmallest(idx, k, nb);
        TakeBinned(p, idx);
        return true, p, idx;
      }
      bins.NoneInBin(idx, nb);
      return false, 0, idx + 1;
    }

    /** A chunk that passed the test is split as the code does it; what is left becomes the last remainder. */
    method Carve(p: nat, size: nat, nb: nat, ghost split: seq<Chunk>)
      requires BuildOk(c) && first != None && size <= c.heap && nb <= c.heap && (size < nb ==> Wide(c))
      requires size >= nb ==>
                Consistent(c, start, brk, SplitWords(words, p, nb, size - nb), first.value, Some(p + nb), bins.free,
                           base, split)
      modifies this`words, this`last, this`chunks
      ensures last == Some(p + nb) && (size >= nb ==> LaidOut(base, split) && chunks == split)
      ensures size < nb ==> !Sound() && chunks == old(chunks)
    {
      if size >= nb {
        CarvedSplits(c, words, p, size, nb);
      }
      ghost var w := words;
      words := Carved(c, words, p, size, nb);
      last := Some(p + nb);
      if size >= nb {
        chunks := split;
      } else {
        forall b: nat, cs: seq<Chunk> ensures !LaidOut(b, cs) {
          CarvedOverruns(c, start, brk, w, first.value, bins.free, p, size, nb, b, cs);
        }
      }
    }

    /** Free chunk p, too small for nb, was split for it: no layout explains the heap. */
    twostate predicate Overran(p: int, nb: nat)
      reads this, bins
    {
      !Sound() && p >= 0 && p in old(FreeChunks()) && old(FreeChunks())[p] < nb && Blocks() == old(Blocks())
    }

    /** The last remainder is split again. */
    method SplitLast(p: nat, size: nat, nb: nat)
      requires Valid() && SizeOk(c.head, nb) && nb <= c.heap && last == Some(p) && p in words.size
      requires size == words.size[p] <= c.heap && (nb + c.head <= size || (Wide(c) && size < nb))
      modifies this`words, this`last, this`chunks
      ensures size >= nb ==>
                Valid() && SplitOff(c.head, old(Blocks()), old(FreeChunks()), Blocks(), FreeChunks(), last, p, nb)
      ensures size < nb ==> !Sound() && chunks == old(chunks)
    {
      ghost var split := chunks;
      if size >= nb {
        split := LastSplit(c, start, brk, words, first.value, p, bins.free, base, chunks, nb);
      }
      Carve(p, size, nb, split);
    }

    /** The last remainder is used up. */
    method TakeLast(p: nat, size: nat)
      requires Valid() && last == Some(p) && p in words.size && size == words.size[p]
      modifies this`words, this`last, this`chunks
      ensures Valid() && last == None && p !in old(Blocks())
      ensures Blocks() == old(Blocks())[p := size] && FreeChunks() == old(FreeChunks()) - {p}
    {
      ghost var taken := LastTaken(c, start, brk, words, first.value, p, bins.free, base, chunks);
      last := None;
      words := SetUsedAt(words, p, size);
      chunks := taken;
    }

    /** The last remainder is put into a bin. */
    method BinLast(p: nat, size: nat)
      requires Valid() && last == Some(p) && p in words.size && size == words.size[p] <= c.heap
      modifies this`last, bins
      ensures Valid() && last == None && p !in old(bins.free) && bins.free == old(bins.free)[p := size]
    {
      HeadersAgree();
      FreeSizes(c, start, brk, words, first.value, last, bins.free, base, chunks, p);
      LastBinned(c, start, brk, words, first.value, p, bins.free, base, chunks);
      last := None;
      bins.Link(p, size, words.size);
    }

    /** The last remainder is split again, used up, or put into a bin. */
    method AllocLast(nb: nat) returns (found: bool, p: nat)
      requires Valid() && SizeOk(c.head, nb) && nb <= c.heap
      modifies this, bins
      ensures old(LastSmall(nb)) ==> found && Overran(p, nb)
      ensures !old(LastSmall(nb)) ==> Valid()
      ensures base == old(base) && brk == old(brk) && first == old(first) && (found ==> old(last) == Some(p))
      ensures found && !old(LastSmall(nb)) ==>
                FromFree(c.head, old(Blocks()), old(FreeChunks()), Blocks(), FreeChunks(), last, p, nb)
                    && p !in old(bins.free)
      ensures !found ==> chunks == old(chunks) && words == old(words) && last == None
      ensures !found ==>
                forall a :: a in bins.free && bins.free[a] >= nb ==>
                    a in old(bins.free) && bins.free[a] == old(bins.free)[a]
      ensures !found ==> forall a :: a in old(bins.free) ==> a in bins.free && bins.free[a] == old(bins.free)[a]
      ensures !found && Wide(c) ==> old(last) == None && bins.free == old(bins.free)
    {
      if last == None {
        return false, 0;
      }
      p := last.value;
      FreeSizes(c, start, brk, words, first.value, last, bins.free, base, chunks, p);
      var size := words.size[p];
      RestFitsIsExactIff(c, size, nb);
      if RestFits(c, size, nb) {
        SplitLast(p, size, nb);
        return true, p;
      }
      if Fits(size, nb) {
        TakeLast(p, size);
        return true, p;
      }
      BinLast(p, size);
      return false, 0;
    }

    /** A binned chunk is split. */
    method SplitBinned(p: nat, b: nat, nb: nat)
      requires Valid() && SizeOk(c.head, nb) && nb <= c.heap && last == None && p in bins.free
      requires b == BinHash(bins.free[p])
      requires nb + c.head <= bins.free[p] || (Wide(c) && bins.free[p] < nb)
      modifies this, bins
      ensures base == old(base) && brk == old(brk) && p in old(FreeChunks())
      ensures old(FreeChunks())[p] == old(bins.free)[p]
      ensures old(bins.free)[p] >= nb ==>
                Valid() && SplitOff(c.head, old(Blocks()), old(FreeChunks()), Blocks(), FreeChunks(), last, p, nb)
      ensures old(bins.free)[p] < nb ==> Overran(p, nb)
    {
      ghost var f := first.value;
      FreeSizes(c, start, brk, words, f, last, bins.free, base, chunks, p);
      var size := words.size[p];
      ghost var split := chunks;
      if size >= nb {
        split := BinnedSplit(c, start, brk, words, f, bins.free, base, chunks, p, size, nb);
      }
      bins.Unlink(p, b);
      Carve(p, size, nb, split);
    }

    /** One bin is searched; a wide build takes its first chunk, whatever its size. */
    method ScanBin(b: nat, nb: nat) returns (found: bool, p: nat)
      requires BuildOk(c) && bins.Valid() && nb <= c.heap && b < |bins.lists| && bins.lists[b] != []
      requires forall a :: a in bins.free ==> a in words.size && words.size[a] == bins.free[a] && bins.free[a] <= c.heap
      requires forall a :: a in bins.free && bins.free[a] >= nb ==> BinHash(bins.free[a]) >= b
      ensures found ==>
                p in bins.free && b == BinHash(bins.free[p]) && (bins.free[p] >= nb ==> Smallest(bins.free, nb, p))
      ensures if Wide(c) then found && p == bins.lists[b][0] else found ==> bins.free[p] >= nb
      ensures !found ==> forall a :: a in bins.free && bins.free[a] >= nb ==> BinHash(bins.free[a]) >= b + 1
    {
      var k := Scan(c, true, bins.lists[b], nb, words.size, b, bins.free);
      if k < |bins.lists[b]| {
        p := bins.lists[b][k];
        InBin(bins.lists[b], b, bins.free, k);
        if bins.free[p] >= nb {
          bins.FirstIsSmallest(b, k, nb);
        }
        return true, p;
      }
      bins.NoneInBin(b, nb);
      return false, 0;
    }

    /** The bins from idx on are searched, bin by bin. */
    method SearchBins(nb: nat, idx: nat) returns (found: bool, b: nat, p: nat)
      requires BuildOk(c) && bins.Valid() && bins.heap == c.heap && nb <= c.heap && idx >= BinHash(nb)
      requires forall a :: a in bins.free ==> a in words.size && words.size[a] == bins.free[a] && bins.free[a] <= c.heap
      requires forall a :: a in bins.free && bins.free[a] >= nb ==> BinHash(bins.free[a]) >= idx
      ensures found ==>
                p in bins.free && b == BinHash(bins.free[p]) && (bins.free[p] >= nb ==> Smallest(bins.free, nb, p))
      ensures found && bins.free[p] < nb <==> BinsSmall(idx, nb)
      ensures !found ==> AllSmall(bins.free, nb)
    {
      b := bins.NextHolding(idx, nb);
      if BinsSmall(idx, nb) {
        ghost var a :| a in bins.free && BinHash(bins.free[a]) >= idx && bins.free[a] < nb;
        bins.SmallComesFirst(idx, b, nb, a);
      }
      while b < |bins.lists|
        invariant idx <= b && forall a :: a in bins.free && bins.free[a] >= nb ==> BinHash(bins.free[a]) >= b
        invariant b < |bins.lists| ==> bins.lists[b] != []
        invariant BinsSmall(idx, nb) ==>
                  b < |bins.lists| && bins.lists[b] != [] && bins.lists[b][0] in bins.free
                      && bins.free[bins.lists[b][0]] < nb
      {
        found, p := ScanBin(b, nb);
        if found {
          return;
        }
        b := bins.NextHolding(b + 1, nb);
      }
      bins.NoneFits(b, nb);
      return false, b, 0;
    }

    /** The bins from idx on are searched through the bitmap. */
    method FindBinned(nb: nat, idx: nat) returns (found: bool, b: nat, p: nat)
      requires Valid() && nb <= c.heap && idx >= BinHash(nb)
      requires forall a :: a in bins.free && bins.free[a] >= nb ==> BinHash(bins.free[a]) >= idx
      ensures found ==>
                p in bins.free && b == BinHash(bins.free[p]) && (bins.free[p] >= nb ==> Smallest(bins.free, nb, p))
      ensures found && bins.free[p] < nb <==> BinsSmall(idx, nb)
      ensures !found ==> AllSmall(bins.free, nb)
    {
      HeadersAgree();
      found, b, p := SearchBins(nb, idx);
    }

    /** The chunk found there is split or used up. */
    method AllocBinned(nb: nat, idx: nat) returns (found: bool, p: nat)
      requires Valid() && SizeOk(c.head, nb) && nb <= c.heap && last == None && idx >= BinHash(nb)
      requires forall a :: a in bins.free && bins.free[a] >= nb ==> BinHash(bins.free[a]) >= idx
      modifies this, bins
      ensures old(BinsSmall(idx, nb)) ==> found && Overran(p, nb)
      ensures !old(BinsSmall(idx, nb)) ==> Valid()
      ensures base == old(base) && brk == old(brk)
      ensures found && !old(BinsSmall(idx, nb)) ==>
                FromFree(c.head, old(Blocks()), old(FreeChunks()), Blocks(), FreeChunks(), last, p, nb)
                    && Smallest(old(bins.free), nb, p)
      ensures !found ==> unchanged(this) && bins.free == old(bins.free) && AllSmall(FreeChunks(), nb)
    {
      var b;
      found, b, p := FindBinned(nb, idx);
      if found {
        HeadersAgree();
        RestFitsIsExactIff(c, words.size[p], nb);
        if RestFits(c, words.size[p], nb) {
          SplitBinned(p, b, nb);
        } else {
          TakeBinned(p, b);
        }
      }
    }

    /** heap_extend_top with a top chunk: the new space borders it, so BUG_ON is never reached. */
    method GrowTopBy(more: nat)
      requires Valid() && first != None
      modifies this
      ensures Valid() && base == old(base) && chunks == old(chunks) && last == old(last) && first == old(first)
      ensures Top() == old(Top()) + (if old(brk) + more <= start + c.heap then more else 0)
      ensures brk <= old(brk) + more
    {
      ghost var brk0 := brk;
      var f := first.value;
      var end := Sbrk(more);
      if end == None {
        return;
      }
      assert end.value == f + words.size[f];
      TopGrown(c, start, brk0, words, f, last, bins.free, base, chunks, more);
      words := SetHead(words, f, words.size[f] + more);
    }

    /** heap_extend_top on a heap without a top chunk. */
    method PlaceTop(more: nat)
      requires Valid() && first == None && more >= c.head
      modifies this
      ensures Valid() && Blocks() == FreeChunks() == map[] && last == None
      ensures first == None <==> old(brk) + more + Correction(c, old(brk)) > start + c.heap
      ensures first != None ==> Top() == more
      ensures brk <= old(brk) + more + Correction(c, old(brk))
    {
      var end := Sbrk(more);
      if end == None {
        return;
      }
      var at := end.value;
      var correction := Correction(c, at);
      at := at + correction;
      end := Sbrk(correction);
      if end == None {
        return;
      }
      first := Some(at);
      var size := end.value + correction - at;
      FirstTop(c, start, brk, words, at, size);
      words := SetHead(words, at, size);
      base, chunks := at, [];
    }

    /** heap_extend_top */
    method ExtendTop(nb: nat)
      requires Valid()
      modifies this
      ensures Valid() && Blocks() == old(Blocks()) && FreeChunks() == old(FreeChunks()) && last == old(last)
      ensures old(first) != None ==> first == old(first) && base == old(base)
      ensures old(first) != None ==>
                Top() == old(Top()) + (if old(brk) + nb + c.head <= start + c.heap then nb + c.head else 0)
      ensures old(first) == None ==>
                && (first == None <==> old(brk) + nb + c.head + Correction(c, old(brk)) > start + c.heap)
                && (first != None ==> Top() == nb + c.head)
      ensures brk <= old(brk) + nb + c.head + ALIGN
    {
      if first == None {
        PlaceTop(nb + c.head);
      } else {
        GrowTopBy(nb + c.head);
      }
    }

    /** A block is cut off the top chunk. */
    method CutTop(nb: nat) returns (p: nat)
      requires Valid() && SizeOk(c.head, nb) && first != None && words.size[first.value] >= nb + c.head
      modifies this
      ensures Valid() && base == old(base) && brk == old(brk) && last == old(last) && FreeChunks() == old(FreeChunks())
      ensures p !in old(FreeChunks()) && p !in old(Blocks()) && Blocks() == old(Blocks())[p := nb]
    {
      p := first.value;
      ghost var cut := TopCut(c, start, brk, words, p, last, bins.free, base, chunks, nb);
      words := TopWords(words, p, nb, words.size[p] - nb);
      first := Some(p + nb);
      chunks := cut;
    }

    /** No top chunk, and no room for one with the block. */
    ghost predicate NoRoomForTop(nb: nat)
      reads this
    {
      first == None && brk + nb + c.head + Correction(c, brk) > start + c.heap
    }

    /** The top chunk does not hold the block, and cannot grow to. */
    ghost predicate TopExhausted(nb: nat)
      reads this
    {
      first != None && Top() < nb + c.head && brk + nb + c.head > start + c.heap
    }

    /** The top chunk grows if need be, and gives a block. */
    method AllocTop(nb: nat) returns (r: Outcome)
      requires Valid() && SizeOk(c.head, nb) && nb <= c.heap && last == None && AllSmall(FreeChunks(), nb)
      modifies this
      ensures Valid() && r != Bug && (old(first) != None ==> base == old(base)) && brk <= old(brk) + nb + c.head + ALIGN
      ensures r == NoTop <==> old(NoRoomForTop(nb))
      ensures r == NoMemory <==> old(TopExhausted(nb))
      ensures r.Block? ==> r.mem >= 2 * c.word
      ensures r.Block? ==>
                FromTop(old(Blocks()), old(FreeChunks()), Blocks(), FreeChunks(), last, r.mem - 2 * c.word, nb)
      ensures !r.Block? ==> Blocks() == old(Blocks()) && FreeChunks() == old(FreeChunks())
    {
      if first == None || !TooBig(c, words.size[first.value], nb) {
        ExtendTop(nb);
      }
      if first == None {
        return NoTop;
      }
      if !TooBig(c, words.size[first.value], nb) {
        return NoMemory;
      }
      var p := CutTop(nb);
      return Block(p + 2 * c.word);
    }

    /** The last remainder, then the bins from idx on. */
    method AllocSlow(nb: nat, idx: nat) returns (found: bool, p: nat)
      requires Valid() && SizeOk(c.head, nb) && nb <= c.heap && idx >= BinHash(nb)
      requires forall a :: a in bins.free && bins.free[a] >= nb ==> BinHash(bins.free[a]) >= idx
      modifies this, bins
      ensures old(SlowOverruns(idx, nb)) ==> found && Overran(p, nb)
      ensures !old(SlowOverruns(idx, nb)) ==> Valid()
      ensures base == old(base) && brk == old(brk)
      ensures found && !old(SlowOverruns(idx, nb)) ==>
                FromFree(c.head, old(Blocks()), old(FreeChunks()), Blocks(), FreeChunks(), last, p, nb)
      ensures found && !old(SlowOverruns(idx, nb)) && p in old(bins.free) ==> Smallest(old(bins.free), nb, p)
      ensures !found ==> chunks == old(chunks) && words == old(words) && first == old(first)
      ensures !found ==> last == None && AllSmall(FreeChunks(), nb)
    {
      found, p := AllocLast(nb);
      if !found {
        ghost var free := bins.free;
        found, p := AllocBinned(nb, idx);
        if found && !old(SlowOverruns(idx, nb)) && p in old(bins.free) {
          SmallestBefore(old(bins.free), free, nb, p);
        }
      }
    }

    ghost predicate SlowOverruns(idx: nat, nb: nat)
      reads this, bins
    {
      LastSmall(nb) || (last == None && BinsSmall(idx, nb))
    }

    /**
     Past the first stage: the bins from idx on hold a chunk that is too small only if idx is the
     bin of the request.
     */
    lemma SlowOverrunsIff(nb: nat, idx: nat)
      requires Valid() && !Direct(c, bins.free, nb) && idx >= BinHash(nb)
      requires if nb < 504 then idx > BinHash(nb) else idx == BinHash(nb) <==> LargeInBin(c, bins.free, nb)
      ensures SlowOverruns(idx, nb) <==> Overruns(nb)
    {
      if a :| a in bins.free && BinHash(bins.free[a]) >= idx && bins.free[a] < nb {
        BinsFollowSizes(bins.free[a], nb);
      }
    }

    /** The bins and the last remainder. */
    method AllocFree(nb: nat) returns (found: bool, p: nat)
      requires Valid() && SizeOk(c.head, nb) && nb <= c.heap - c.word
      modifies this, bins
      ensures old(Overruns(nb)) ==> found && Overran(p, nb)
      ensures !old(Overruns(nb)) ==> Valid()
      ensures base == old(base) && brk == old(brk)
      ensures found && !old(Overruns(nb)) ==>
                FromFree(c.head, old(Blocks()), old(FreeChunks()), Blocks(), FreeChunks(), last, p, nb)
      ensures found && !old(Overruns(nb)) && p in old(bins.free) ==> Smallest(old(bins.free), nb, p)
      ensures !found ==> chunks == old(chunks) && words == old(words) && first == old(first)
      ensures !found ==> last == None && AllSmall(FreeChunks(), nb)
    {
      var idx;
      if nb < 504 {
        found, p, idx := AllocExact(nb);
      } else {
        found, p, idx := AllocFit(nb);
      }
      if !found {
        SlowOverrunsIff(nb, idx);
        found, p := AllocSlow(nb, idx);
      }
    }

    /** What an allocation of nb that does not overrun comes to. */
    twostate predicate Allocated(nb: nat, r: Outcome)
      reads this, bins
    {
      && (r == NoTop <==> old(NoRoomForTop(nb)))
      && (r == NoMemory <==> old(TopExhausted(nb)) && AllSmall(old(FreeChunks()), nb))
      && (!r.Block? ==> Blocks() == old(Blocks()) && FreeChunks() == old(FreeChunks()))
      && (r.Block? ==>
            var p := r.mem - 2 * c.word;
            && p >= 0
            && (|| FromFree(c.head, old(Blocks()), old(FreeChunks()), Blocks(), FreeChunks(), last, p, nb)
                || FromTop(old(Blocks()), old(FreeChunks()), Blocks(), FreeChunks(), last, p, nb))
            && (p in old(bins.free) ==> Smallest(old(bins.free), nb, p)))
    }

    method AllocAny(nb: nat) returns (r: Outcome)
      requires Valid() && SizeOk(c.head, nb) && nb <= c.heap - c.word
      modifies this, bins
      ensures r != Bug && (old(chunks) != [] ==> base == old(base)) && brk <= old(brk) + nb + c.head + ALIGN
      ensures old(Overruns(nb)) ==> r.Block? && Overran(r.mem - 2 * c.word, nb)
      ensures !old(Overruns(nb)) ==> Valid() && Allocated(nb, r)
    {
      var found, p := AllocFree(nb);
      if found {
        return Block(p + 2 * c.word);
      }
      assert FreeChunks() == old(FreeChunks());
      r := AllocTop(nb);
    }

    /** __heap_alloc for a padded request. */
    method AllocPadded(nb: nat) returns (r: Outcome)
      requires Valid() && SizeOk(c.head, nb) && nb <= c.heap - c.word
      modifies this, bins
      ensures r != Bug && (old(chunks) != [] ==> base == old(base)) && brk <= old(brk) + nb + c.head + ALIGN
      ensures Valid() <==> !old(Overruns(nb))
      ensures Sound() <==> !old(Overruns(nb))
      ensures old(Overruns(nb)) ==> r.Block? && Overran(r.mem - 2 * c.word, nb)
      ensures !old(Overruns(nb)) ==> Allocated(nb, r)
    {
      r := AllocAny(nb);
      assert Valid() ==> LaidOut(base, chunks);
    }

    /**
     __heap_alloc: Bug exactly when no chunk for the request fits in a heap of this size.  Otherwise the heap keeps its
     invariant, or any layout at all, if and only if the allocation does not overrun; then what it comes to is
     `Allocated`.
     */
    method Alloc(bytes: nat) returns (r: Outcome)
      requires Valid() && bytes < SizeLimit(c)
      modifies this, bins
      ensures (r == Bug <==> !Grantable(c, bytes)) && (r == Bug <==> Refused(c, bytes))
      ensures r == Bug ==> unchanged(this) && unchanged(bins)
      ensures (old(chunks) != [] ==> base == old(base)) && brk <= old(brk) + RequestPad(c, bytes) + c.head + ALIGN
      ensures
        var nb := RequestPad(c, bytes);
        r != Bug ==>
        && ChunkFor(c, bytes, nb)
        && (Valid() <==> !old(Overruns(RequestPad(c, bytes))))
        && (Sound() <==> !old(Overruns(RequestPad(c, bytes))))
        && (old(Overruns(RequestPad(c, bytes))) ==> r.Block? && Overran(r.mem - 2 * c.word, nb))
        && (!old(Overruns(RequestPad(c, bytes))) ==> Allocated(nb, r))
    {
      var nb := RequestPad(c, bytes);
      RefusedIff(c, bytes);
      if nb < bytes || nb > c.heap - c.word {
        return Bug;
      }
      PadIsLeast(c, bytes, 0);
      r := AllocPadded(nb);
    }

    /** A free neighbour leaves its bin, or was the last remainder. */
    method Drop(q: nat, size: nat, islr: bool, ghost rest: map<nat, nat>) returns (islr': bool)
      requires bins.Valid() && Merging(islr, bins.free, last, rest) && q in rest && rest[q] == size
      modifies bins
      ensures bins.Valid() && Merging(islr', bins.free, last, rest - {q}) && (islr ==> islr')
      ensures islr' && !islr ==> last == Some(q)
    {
      if !islr && last == Some(q) {
        return true;
      }
      bins.Unlink(q, BinHash(size));
      return islr;
    }

    /** A free chunk before the block leaves its bin; `islr` when it was the last remainder. */
    method MergeBack(p: nat, ghost free: map<nat, nat>, ghost to: nat) returns (at: nat, islr: bool)
      requires bins.Valid() && Binned(bins.free, last, free) && BackTag(words, free, p, to)
      modifies bins
      ensures bins.Valid() && at == to && Merging(islr, bins.free, last, Without(free, at, p))
      ensures (islr ==> last == Some(at))
    {
      at, islr := p, false;
      if !words.prevUsed[p] {
        at := p - words.prevSize[p];
        islr := Drop(at, words.prevSize[p], false, free);
      }
    }

    /** A free chunk after the block leaves its bin, or hands its place as last remainder to the merged chunk. */
    method MergeForward(next: nat, at: nat, islr: bool, ghost free: map<nat, nat>, ghost to: nat)
      returns (end: nat, islr': bool)
      requires bins.Valid() && Merging(islr, bins.free, last, free) && FwdTag(words, free, next, to)
      requires (islr ==> last == Some(at))
      modifies this`last, bins
      ensures bins.Valid() && end == to && Merging(islr', bins.free, last, Without(free, next, end))
      ensures (islr' ==> last == Some(at))
      ensures old(last) == None ==> last == None
    {
      end, islr' := next, islr;
      if !words.prevUsed[next + words.size[next]] {
        end := next + words.size[next];
        islr' := Drop(next, words.size[next], islr, free);
        if islr' && !islr {
          last := Some(at);
        }
      }
    }

    method JoinTop(p: nat, size: nat, ghost free: map<nat, nat>, ghost to: nat, ghost lo: seq<Chunk>)
      requires bins.Valid() && Binned(bins.free, last, free) && BackTag(words, free, p, to) && to <= p
      requires first == Some(p + size) && p + size in words.size && Sizes(base, lo, false) == Without(free, to, p)
      modifies this, bins
      ensures bins.Valid() && Binned(bins.free, last, Sizes(base, lo, false)) && chunks == lo && first == Some(to)
      ensures words == SetHead(old(words), to, p + size + old(words).size[p + size] - to)
      ensures base == old(base) && brk == old(brk) && (old(last) == None ==> last == None)
    {
      var f := first.value;
      var at, islr := MergeBack(p, free, to);
      if islr {
        last := None;
      }
      words := SetHead(words, at, (p - at) + size + words.size[f]);
      first := Some(at);
      chunks := lo;
    }

    /** The block below the top chunk joins it, with a free chunk before it. */
    method FreeToTop(p: nat, size: nat, ghost low: seq<Chunk>, ghost d: Chunk)
      requires Valid() && chunks == low + [d] && d == Chunk(size, true) && p == After(base, low)
      requires first == Some(p + size)
      modifies this, bins
      ensures Valid() && Blocks() == old(Blocks()) - {p}
      ensures base == old(base) && brk == old(brk) && (old(last) == None ==> last == None)
    {
      ghost var f, w, last0, binned, was := first.value, words, last, bins.free, chunks;
      ghost var lo, to := TopPlan(c, start, brk, words, f, last, bins.free, base, low, d, p);
      JoinTop(p, size, FreeChunks(), to, lo);
      TopMerged(c, start, brk, w, f, last0, binned, base, was, to, last, bins.free, lo);
    }

    /** The merged chunk goes into its bin. */
    method LinkMerged(at: nat, size: nat, ghost rest: map<nat, nat>)
      requires bins.Valid() && bins.heap == c.heap && first != None && Heaped(words, c.head, chunks, base, first.value)
      requires Sizes(base, chunks, false) == rest[at := size] && at !in rest && Binned(bins.free, last, rest)
      requires SizeOk(c.head, size) && size <= c.heap
      modifies bins
      ensures bins.Valid() && Binned(bins.free, last, Sizes(base, chunks, false))
    {
      MergedBinned(bins.free, last, rest, at, size);
      BinnedHeaders(words, c.head, chunks, base, first.value, bins.free);
      bins.Link(at, size, words.size);
    }

    /** The tags of the merged chunk are written, and it goes into a bin unless it is the last remainder. */
    method PlaceMerged(next: nat, at: nat, end: nat, islr: bool, ghost chunks': seq<Chunk>, ghost rest: map<nat, nat>)
      requires bins.Valid() && bins.heap == c.heap && first != None && next in words.size && at <= end
      requires Heaped(FreeWords(SetHeadFree(words, next, words.size[next]), at, end - at), c.head, chunks', base,
                      first.value)
      requires Sizes(base, chunks', false) == rest[at := end - at] && at !in rest && SizeOk(c.head, end - at)
      requires end - at <= c.heap
      requires Merging(islr, bins.free, last, rest) && (islr ==> last == Some(at))
      modifies this`words, this`chunks, bins
      ensures bins.Valid() && chunks == chunks'
      ensures words == FreeWords(SetHeadFree(old(words), next, old(words).size[next]), at, end - at)
      ensures Binned(bins.free, last, Sizes(base, chunks, false))
    {
      words := FreeWords(SetHeadFree(words, next, words.size[next]), at, end - at);
      chunks := chunks';
      if islr {
        MergedBinned(bins.free, last, rest, at, end - at);
      } else {
        LinkMerged(at, end - at, rest);
      }
    }

    method MergeBoth(p: nat, next: nat, ghost free: map<nat, nat>, ghost from: nat, ghost to: nat)
      returns (at: nat, end: nat, islr: bool)
      requires bins.Valid() && Binned(bins.free, last, free)
      requires BackTag(words, free, p, from) && FwdTag(words, Without(free, from, p), next, to)
      modifies this`last, bins
      ensures bins.Valid() && at == from && end == to && (islr ==> last == Some(at))
      ensures (old(last) == None ==> last == None)
      ensures Merging(islr, bins.free, last, Without(Without(free, from, p), next, to))
    {
      at, islr := MergeBack(p, free, from);
      end, islr := MergeForward(next, at, islr, Without(free, from, p), to);
    }

    method Rejoin(p: nat, next: nat, ghost free: map<nat, nat>, ghost plan: seq<Chunk>, ghost from: nat, ghost to: nat,
                  ghost rest: map<nat, nat>)
      requires bins.Valid() && bins.heap == c.heap && first != None && Binned(bins.free, last, free)
      requires next in words.size && from <= to && SizeOk(c.head, to - from) && to - from <= c.heap
      requires BackTag(words, free, p, from) && FwdTag(words, Without(free, from, p), next, to)
      requires rest == Without(Without(free, from, p), next, to) && from !in rest
      requires Heaped(FreeWords(SetHeadFree(words, next, words.size[next]), from, to - from), c.head, plan, base,
                      first.value)
      requires Sizes(base, plan, false) == rest[from := to - from]
      modifies this`words, this`last, this`chunks, bins
      ensures bins.Valid() && chunks == plan && Binned(bins.free, last, Sizes(base, plan, false))
      ensures words == FreeWords(SetHeadFree(old(words), next, old(words).size[next]), from, to - from)
      ensures old(last) == None ==> last == None
    {
      var at, end, islr := MergeBoth(p, next, free, from, to);
      PlaceMerged(next, at, end, islr, plan, rest);
    }

    /** Any other block joins the free chunks around it. */
    method FreeInPlace(p: nat, next: nat, ghost plan: seq<Chunk>, ghost from: nat, ghost to: nat, ghost rest: map<nat,
                       nat>)
      requires Valid() && first != None && next in words.size && from <= to && SizeOk(c.head, to - from)
      requires to - from <= c.heap
      requires BackTag(words, FreeChunks(), p, from) && FwdTag(words, Without(FreeChunks(), from, p), next, to)
      requires rest == Without(Without(FreeChunks(), from, p), next, to) && from !in rest
      requires Heaped(FreeWords(SetHeadFree(words, next, words.size[next]), from, to - from), c.head, plan, base,
                      first.value)
      requires FreeWords(SetHeadFree(words, next, words.size[next]), from, to - from).size[first.value] ==
          words.size[first.value]
      requires Sizes(base, plan, true) == Blocks() - {p} && Sizes(base, plan, false) == rest[from := to - from]
      modifies this, bins
      ensures Valid() && Blocks() == old(Blocks()) - {p}
      ensures base == old(base) && brk == old(brk) && (old(last) == None ==> last == None)
    {
      ghost var f, w, last0, binned, was := first.value, words, last, bins.free, chunks;
      Rejoin(p, next, FreeChunks(), plan, from, to, rest);
      StillConsistent(c, start, brk, w, f, last0, binned, base, was, words, last, bins.free, plan);
    }

    /** __heap_free of a block in use. */
    method Free(mem: nat)
      requires Valid() && mem >= 2 * c.word && mem - 2 * c.word in Blocks()
      modifies this, bins
      ensures Valid() && Blocks() == old(Blocks()) - {mem - 2 * c.word}
      ensures base == old(base) && brk == old(brk) && (old(last) == None ==> last == None)
    {
      var p := mem - 2 * c.word;
      ghost var f := first.value;
      ghost var low, d, high := Locate(base, chunks, true, p);
      BlockTags(words, c.head, base, f, low, d, high, p);
      var size := words.size[p];
      if first == Some(p + size) {
        assert low + [d] + [] == low + [d];
        FreeToTop(p, size, low, d);
      } else {
        ghost var plan, from, to, rest := ReleasePlan(words, c.head, base, f, chunks, low, d, high, p, p + size);
        FreeInPlace(p, p + size, plan, from, to, rest);
      }
    }
  }

  // ----- runs

  datatype Call = Request(bytes: nat) | Release(k: nat)

  /** The blocks in use are those of the chunk addresses held. */
  ghost predicate Holds(blocks: map<nat, nat>, held: seq<nat>) {
    && (forall i :: 0 <= i < |held| ==> held[i] in blocks)
    && (forall i, j :: 0 <= i < j < |held| ==> held[i] != held[j])
    && (forall p :: p in blocks ==> p in held)
  }

  lemma HoldsOneMore(blocks: map<nat, nat>, blocks': map<nat, nat>, held: seq<nat>, p: nat)
    requires Holds(blocks, held) && p !in blocks && p in blocks' && blocks' == blocks[p := blocks'[p]]
    ensures Holds(blocks', held + [p])
  {
  }

  lemma HoldsOneLess(blocks: map<nat, nat>, held: seq<nat>, k: nat)
    requires Holds(blocks, held) && k < |held|
    ensures Holds(blocks - {held[k]}, held[..k] + held[k + 1..])
  {
    var rest := held[..k] + held[k + 1..];
    forall i | 0 <= i < |rest| ensures rest[i] == held[if i < k then i else i + 1] {
    }
    forall p | p in blocks && p != held[k] ensures p in rest {
      var i :| 0 <= i < |held| && held[i] == p;
      assert rest[if i < k then i else i - 1] == p;
    }
  }

  /** A request, in a build whose comparison before splitting is right. */
  method ReplayRequest(h: Allocator, bytes: nat, held: seq<nat>) returns (held': seq<nat>)
    requires h.Valid() && !Wide(h.c) && Holds(h.Blocks(), held) && bytes < SizeLimit(h.c)
    modifies h, h.bins
    ensures h.Valid() && Holds(h.Blocks(), held')
  {
    ghost var blocks := h.Blocks();
    var r := h.Alloc(bytes);
    held' := held;
    if r.Block? {
      HoldsOneMore(blocks, h.Blocks(), held, r.mem - 2 * h.c.word);
      held' := held + [r.mem - 2 * h.c.word];
    }
  }

  /**
   Any sequence of requests and releases keeps the heap, and the blocks in use are those handed out and not taken
   back, if the comparison before splitting is signed or the build below 64 KiB.
   */
  method Replay(h: Allocator, calls: seq<Call>) returns (held: seq<nat>)
    requires h.Valid() && !Wide(h.c) && h.Blocks() == map[]
    requires forall i :: 0 <= i < |calls| && calls[i].Request? ==> calls[i].bytes < SizeLimit(h.c)
    modifies h, h.bins
    ensures h.Valid() && Holds(h.Blocks(), held)
    ensures held == [] ==> h.chunks == [] && h.last == None && h.bins.free == map[]
  {
    held := [];
    for i := 0 to |calls|
      invariant h.Valid() && Holds(h.Blocks(), held)
    {
      match calls[i] {
        case Request(bytes) =>
          held := ReplayRequest(h, bytes, held);
        case Release(k) =>
          if k < |held| {
            HoldsOneLess(h.Blocks(), held, k);
            h.Free(held[k] + 2 * h.c.word);
            held := held[..k] + held[k + 1..];
          }
      }
    }
    if held == [] && h.first != None {
      assert h.Blocks() == map[];
      AllReleased(h.c, h.start, h.brk, h.words, h.first.value, h.last, h.bins.free, h.base, h.chunks);
    }
  }

  /**
   The first request on a heap of 256 bytes: it is let through, there is no room for it, and the top
   is read unset.
   */
  method UnsetTopIsRead() returns (h: Allocator, r: Outcome)
    ensures fresh(h) && BuildOk(h.c) && !Refused(h.c, 240) && r == NoTop
  {
    var c := Build(0x100, 2, 24, false);
    assert Two(8) == 0x100;
    h := new Allocator(c, 8);
    PadByRest(c, 240);
    assert RequestPad(c, 240) == 248;
    r := h.Alloc(240);
  }

  // ----- a run that overruns

  const ONE_MIB := Build(0x10_0000, 4, 24, false)

  lemma MebibyteBuild()
    ensures BuildOk(ONE_MIB) && Wide(ONE_MIB)
    ensures RequestPad(ONE_MIB, 200) == 208 && RequestPad(ONE_MIB, 100) == 104 && RequestPad(ONE_MIB, 150) == 160
  {
    assert Two(10) == 0x400;
    assert Two(20) == 0x10_0000;
    PadByRest(ONE_MIB, 200);
    PadByRest(ONE_MIB, 100);
    PadByRest(ONE_MIB, 150);
  }

  /** A block of 200 bytes on a new heap of 1 MiB. */
  method OneAllocation() returns (h: Allocator, a: nat)
    ensures fresh(h) && fresh(h.bins) && h.c == ONE_MIB && h.Valid() && h.last == None
    ensures h.base == a && h.Blocks() == map[a := 208] && h.FreeChunks() == map[] && h.chunks != [] && h.first != None
    ensures h.start == 0x1_0000 && h.brk <= h.start + 500
  {
    MebibyteBuild();
    h := new Allocator(ONE_MIB, 0x1_0000);
    var r := h.Alloc(200);
    a := r.mem - 8;
    OneBlock(h.base, h.chunks, a, 208);
  }

  /** A second one behind it. */
  method TwoAllocations() returns (h: Allocator, a: nat)
    ensures fresh(h) && fresh(h.bins) && h.c == ONE_MIB && h.Valid() && h.last == None
    ensures h.base == a && h.Blocks() == map[a := 208, a + 208 := 208] && h.FreeChunks() == map[]
  {
    h, a := OneAllocation();
    MebibyteBuild();
    var r := h.Alloc(200);
    ghost var b := r.mem - 8;
    TwoBlocks(h.words, h.c.head, h.base, h.first.value, h.chunks, b, 208, 208);
  }

  lemma OneBlock(base: nat, chunks: seq<Chunk>, q: nat, size: nat)
    requires Sizes(base, chunks, true) == map[q := size] && Sizes(base, chunks, false) == map[]
    ensures chunks != [] && base == q
  {
    assert q in Sizes(base, chunks, true);
    FirstIsUsed(base, chunks);
    assert base in Sizes(base, chunks, true);
  }

  /** The first is released. */
  method OneReleased() returns (h: Allocator, a: nat)
    ensures fresh(h) && fresh(h.bins) && h.c == ONE_MIB && h.Valid() && h.first != None
    ensures h.Blocks() == map[a + 208 := 208] && h.FreeChunks() == map[a := 208] && h.last == None
  {
    h, a := TwoAllocations();
    h.Free(a + 8);
    assert h.Blocks() == map[a + 208 := 208];
    assert a + 208 in h.Blocks();
    OneBlockBehind(h.words, h.c.head, h.base, h.first.value, h.chunks, a + 208, 208);
  }

  /** A chunk of 208 bytes is split for 104. */
  lemma SplitInHalf(used: map<nat, nat>, used': map<nat, nat>, free': map<nat, nat>, last': Option<nat>, p: nat, a: nat)
    requires || FromFree(24, used, map[a := 208], used', free', last', p, 104)
             || FromTop(used, map[a := 208], used', free', last', p, 104)
    ensures p == a && used' == used[a := 104] && free' == map[a + 104 := 104] && last' == Some(a + 104)
  {
    var free := map[a := 208];
    assert a in free;
  }

  /** 100 bytes are cut from it. */
  method CutHundred(h: Allocator, a: nat)
    requires h.c == ONE_MIB && h.Valid() && h.first != None && h.last == None && h.FreeChunks() == map[a := 208]
    modifies h, h.bins
    ensures h.Valid() && h.last == Some(a + 104)
    ensures h.Blocks() == old(h.Blocks())[a := 104] && h.FreeChunks() == map[a + 104 := 104]
  {
    MebibyteBuild();
    ghost var used, free := h.Blocks(), h.FreeChunks();
    assert a in free && free[a] == 208 && !AllSmall(free, 104);
    var r := h.Alloc(100);
    SplitInHalf(used, h.Blocks(), h.FreeChunks(), h.last, r.mem - 8, a);
  }

  /**
   150 bytes more: the block handed out reaches into the second one, which is in use, and no layout
   explains the heap.
   */
  method LargeBuildOverruns() returns (h: Allocator, r: Outcome, second: nat)
    ensures fresh(h) && !h.Valid() && !h.Sound() && second >= 8 && second - 8 in h.Blocks()
    ensures r.Block? && r.mem < second < r.mem + 150
  {
    var a;
    h, a := OneReleased();
    second := a + 208 + 8;
    assert second - 8 in h.Blocks();
    CutHundred(h, a);
    r := TooSmall(h, a + 104);
  }

  /** 150 bytes are asked for when the last remainder is of 104 and nothing else is free. */
  method TooSmall(h: Allocator, p: nat) returns (r: Outcome)
    requires h.c == ONE_MIB && h.Valid() && h.last == Some(p) && h.FreeChunks() == map[p := 104]
    modifies h, h.bins
    ensures !h.Valid() && !h.Sound() && r == Block(p + 8) && h.Blocks() == old(h.Blocks())
  {
    MebibyteBuild();
    assert p in h.FreeChunks();
    FreeHeader(h.words, h.c.head, h.chunks, h.base, h.first.value, p);
    assert h.bins.free == map[];
    assert h.Overruns(160);
    r := h.Alloc(150);
  }
}
