/** What holds of the whole heap between calls, and how each step of alloc and free keeps it. */
module HeapState {
  import opened Common
  import opened HeapFormat
  import opened HeapLayout
  import opened HeapTags

  /** Free chunks that are in bins: all but the last remainder. */
  ghost predicate Binned(binned: map<nat, nat>, last: Option<nat>, free: map<nat, nat>) {
    match last
    case None => binned == free
    case Some(p) => p in free && binned == free - {p}
  }

  /** A heap with a top chunk at `first`. */
  ghost predicate Consistent(c: Build, start: nat, brk: nat, w: Words, first: nat, last: Option<nat>,
                             binned: map<nat, nat>, base: nat, chunks: seq<Chunk>) {
    && Heaped(w, c.head, chunks, base, first) && w.size[first] >= c.head && first + w.size[first] == brk
    && 0 < start <= base && brk <= start + c.heap && (base + 2 * c.word) % ALIGN == 0
    && Binned(binned, last, Sizes(base, chunks, false))
  }

  /** Free chunks have the size their header says. */
  lemma FreeHeader(w: Words, head: nat, chunks: seq<Chunk>, base: nat, first: nat, p: nat)
    requires Heaped(w, head, chunks, base, first) && p in Sizes(base, chunks, false)
    ensures
      var size := Sizes(base, chunks, false)[p];
      p in w.size && w.size[p] == size && SizeOk(head, size) && base <= p && p + size < first
  {
    var low, d, high := Locate(base, chunks, false, p);
    AroundFree(w, head, low, d, high, base, first);
    SizesWithin(head, w, base, chunks, true, false);
  }

  lemma FreeSizes(c: Build, start: nat, brk: nat, w: Words, first: nat, last: Option<nat>, binned: map<nat, nat>,
                  base: nat, chunks: seq<Chunk>, p: nat)
    requires Consistent(c, start, brk, w, first, last, binned, base, chunks) && p in Sizes(base, chunks, false)
    ensures
      var size := Sizes(base, chunks, false)[p];
      && p in w.size && w.size[p] == size && SizeOk(c.head, size) && size <= c.heap && p + size < first
  {
    FreeHeader(w, c.head, chunks, base, first, p);
  }

  /** A binned chunk is taken whole. */
  lemma BinnedTaken(c: Build, start: nat, brk: nat, w: Words, first: nat, last: Option<nat>, binned: map<nat, nat>,
                    base: nat, chunks: seq<Chunk>, p: nat, size: nat)
    returns (chunks': seq<Chunk>)
    requires Consistent(c, start, brk, w, first, last, binned, base, chunks) && p in binned && binned[p] == size
    ensures Consistent(c, start, brk, SetUsedAt(w, p, size), first, last, binned - {p}, base, chunks')
    ensures Sizes(base, chunks', true) == Sizes(base, chunks, true)[p := size] && p !in Sizes(base, chunks, true)
    ensures Sizes(base, chunks', false) == Sizes(base, chunks, false) - {p}
  {
    var low, d, high := Locate(base, chunks, false, p);
    TakeWhole(w, c.head, low, d, high, base, first);
    chunks' := low + [Chunk(d.size, true)] + high;
  }

  /** The last remainder is taken whole. */
  lemma LastTaken(c: Build, start: nat, brk: nat, w: Words, first: nat, p: nat, binned: map<nat, nat>, base: nat,
                  chunks: seq<Chunk>)
    returns (chunks': seq<Chunk>)
    requires Consistent(c, start, brk, w, first, Some(p), binned, base, chunks) && p in w.size
    ensures Consistent(c, start, brk, SetUsedAt(w, p, w.size[p]), first, None, binned, base, chunks')
    ensures Sizes(base, chunks', true) == Sizes(base, chunks, true)[p := w.size[p]] && p !in Sizes(base, chunks, true)
    ensures Sizes(base, chunks', false) == Sizes(base, chunks, false) - {p}
  {
    FreeSizes(c, start, brk, w, first, Some(p), binned, base, chunks, p);
    var low, d, high := Locate(base, chunks, false, p);
    TakeWhole(w, c.head, low, d, high, base, first);
    chunks' := low + [Chunk(d.size, true)] + high;
  }

  /** The block is split off a free chunk, and what is left is the last remainder. */
  ghost predicate SplitOff(head: nat, used: map<nat, nat>, free: map<nat, nat>,
                           used': map<nat, nat>, free': map<nat, nat>, last': Option<nat>, p: nat, nb: nat) {
    && p in free && p !in used && nb <= free[p]
    && used' == used[p := nb] && free' == (free - {p})[p + nb := free[p] - nb]
    && last' == Some(p + nb) && nb + head <= free[p]
  }

  lemma FreeSplit(w: Words, head: nat, base: nat, chunks: seq<Chunk>, first: nat, p: nat, nb: nat)
    returns (chunks': seq<Chunk>)
    requires Heaped(w, head, chunks, base, first) && p in Sizes(base, chunks, false) && head > 0
    requires SizeOk(head, nb) && nb + head <= Sizes(base, chunks, false)[p]
    ensures
      var size := Sizes(base, chunks, false)[p];
      && Heaped(SplitWords(w, p, nb, size - nb), head, chunks', base, first)
      && SplitOff(head, Sizes(base, chunks, true), Sizes(base, chunks, false), Sizes(base, chunks', true),
                  Sizes(base, chunks', false), Some(p + nb), p, nb)
    ensures p + nb !in Sizes(base, chunks, false)
  {
    var low, d, high := Locate(base, chunks, false, p);
    FreeHeader(w, head, chunks, base, first, p);
    SplitFree(w, head, low, d, high, base, first, nb);
    chunks' := low + [Chunk(nb, true), Chunk(d.size - nb, false)] + high;
    NewRemainder(w, head, base, chunks, p, nb, d.size);
  }

  /** A binned chunk is split; the rest becomes the last remainder. */
  lemma BinnedSplit(c: Build, start: nat, brk: nat, w: Words, first: nat, binned: map<nat, nat>, base: nat,
                    chunks: seq<Chunk>, p: nat, size: nat, nb: nat)
    returns (chunks': seq<Chunk>)
    requires Consistent(c, start, brk, w, first, None, binned, base, chunks) && p in binned && binned[p] == size
    requires SizeOk(c.head, nb) && nb + c.head <= size && c.head > 0
    ensures Consistent(c, start, brk, SplitWords(w, p, nb, size - nb), first, Some(p + nb), binned - {p}, base, chunks')
    ensures SplitOff(c.head, Sizes(base, chunks, true), Sizes(base, chunks, false), Sizes(base, chunks', true),
                     Sizes(base, chunks', false), Some(p + nb), p, nb)
  {
    FreeSizes(c, start, brk, w, first, None, binned, base, chunks, p);
    chunks' := FreeSplit(w, c.head, base, chunks, first, p, nb);
  }

  /** The last remainder is split again. */
  lemma LastSplit(c: Build, start: nat, brk: nat, w: Words, first: nat, p: nat, binned: map<nat, nat>, base: nat,
                  chunks: seq<Chunk>, nb: nat)
    returns (chunks': seq<Chunk>)
    requires Consistent(c, start, brk, w, first, Some(p), binned, base, chunks) && p in w.size
    requires SizeOk(c.head, nb) && nb + c.head <= w.size[p] && c.head > 0
    ensures Consistent(c, start, brk, SplitWords(w, p, nb, w.size[p] - nb), first, Some(p + nb), binned, base, chunks')
    ensures SplitOff(c.head, Sizes(base, chunks, true), Sizes(base, chunks, false), Sizes(base, chunks', true),
                     Sizes(base, chunks', false), Some(p + nb), p, nb)
  {
    FreeSizes(c, start, brk, w, first, Some(p), binned, base, chunks, p);
    chunks' := FreeSplit(w, c.head, base, chunks, first, p, nb);
  }

  /** Inside a free chunk no other chunk begins. */
  lemma NewRemainder(w: Words, head: nat, base: nat, chunks: seq<Chunk>, p: nat, nb: nat, size: nat)
    requires Laid(w, head, chunks, base, true) && p in Sizes(base, chunks, false)
    requires Sizes(base, chunks, false)[p] == size && 0 < nb < size
    ensures p + nb !in Sizes(base, chunks, false)
  {
    var low, d, high := Locate(base, chunks, false, p);
    SizesParts(w, head, low, [d], high, base, false);
    OneChunk(p, d, true);
    LaidParts(w, head, low, [d], high, base);
    SizesWithin(head, w, base, low, true, false);
    SizesWithin(head, w, p + size, high, d.used, false);
  }

  /** The last remainder goes into a bin. */
  lemma LastBinned(c: Build, start: nat, brk: nat, w: Words, first: nat, p: nat, binned: map<nat, nat>, base: nat,
                   chunks: seq<Chunk>)
    requires Consistent(c, start, brk, w, first, Some(p), binned, base, chunks) && p in w.size
    ensures p !in binned && Consistent(c, start, brk, w, first, None, binned[p := w.size[p]], base, chunks)
  {
    FreeSizes(c, start, brk, w, first, Some(p), binned, base, chunks, p);
  }

  /** A block is cut off the top chunk. */
  lemma TopCut(c: Build, start: nat, brk: nat, w: Words, first: nat, last: Option<nat>, binned: map<nat, nat>,
               base: nat, chunks: seq<Chunk>, nb: nat)
    returns (chunks': seq<Chunk>)
    requires Consistent(c, start, brk, w, first, last, binned, base, chunks) && SizeOk(c.head, nb)
    requires nb + c.head <= w.size[first]
    ensures Consistent(c, start, brk, TopWords(w, first, nb, w.size[first] - nb), first + nb, last, binned, base,
                       chunks')
    ensures Sizes(base, chunks', true) == Sizes(base, chunks, true)[first := nb] && first !in Sizes(base, chunks, true)
    ensures Sizes(base, chunks', false) == Sizes(base, chunks, false) && first !in Sizes(base, chunks, false)
  {
    SplitTop(w, c.head, chunks, base, first, nb, w.size[first] - nb);
    SizesWithin(c.head, w, base, chunks, true, false);
    chunks' := chunks + [Chunk(nb, true)];
  }

  /** The top chunk grows with the break. */
  lemma TopGrown(c: Build, start: nat, brk: nat, w: Words, first: nat, last: Option<nat>, binned: map<nat, nat>,
                 base: nat, chunks: seq<Chunk>, more: nat)
    requires Consistent(c, start, brk, w, first, last, binned, base, chunks) && brk + more <= start + c.heap
    ensures Consistent(c, start, brk + more, SetHead(w, first, w.size[first] + more), first, last, binned, base, chunks)
  {
    GrowTop(w, c.head, chunks, base, first, w.size[first] + more);
  }

  /** The first top chunk of an empty heap. */
  lemma FirstTop(c: Build, start: nat, brk: nat, w: Words, first: nat, size: nat)
    requires 0 < start <= first && first + size == brk <= start + c.heap && size >= c.head
    requires (first + 2 * c.word) % ALIGN == 0
    ensures Consistent(c, start, brk, SetHead(w, first, size), first, None, map[], first, [])
  {
  }

  // ----- release

  /** The free chunk before a block, if the P bit says there is one, and the chunks before that. */
  lemma BackParts(w: Words, head: nat, low: seq<Chunk>, base: nat, p: nat)
    returns (lo: seq<Chunk>, back: seq<Chunk>, p': nat)
    requires Laid(w, head, low, base, true) && After(base, low) == p
    ensures low == lo + back && LastUsed(true, lo) && After(base, lo) == p' && After(p', back) == p
    ensures p' <= p && (p - p') % ALIGN == 0 && Sizes(p', back, true) == map[]
    ensures if LastUsed(true, low) then p' == p && Sizes(p', back, false) == map[]
            else p' < p && p in w.prevSize && w.prevSize[p] == p - p' && Sizes(p', back, false) == map[p' := p - p']
  {
    if LastUsed(true, low) {
      lo, back, p' := low, [], p;
    } else {
      BeforeFree(w, head, low, base, p);
      var f := low[|low| - 1];
      lo, back, p' := low[..|low| - 1], [f], p - f.size;
      OneChunk(p', f, true);
    }
  }

  /** The free chunk after a block, if there is one, and the chunks beyond it, once the next P bit is clear. */
  lemma FwdParts(w: Words, w1: Words, head: nat, high: seq<Chunk>, at: nat, first: nat)
    returns (fwd: seq<Chunk>, hi: seq<Chunk>, end: nat)
    requires high != [] && Laid(w, head, high, at, true) && After(at, high) == first && LastUsed(true, high)
    requires TopKept(w, w, first)
    requires w1 == SetHeadFree(w, at, high[0].size)
    ensures high == fwd + hi && hi != [] && Laid(w1, head, hi, end, false) && After(at, fwd) == end
    ensures end >= at && (end - at) % ALIGN == 0 && Sizes(at, fwd, true) == map[] && at < first && TopKept(w, w1, first)
    ensures if high[0].used then end == at && Sizes(at, fwd, false) == map[]
            else end == at + high[0].size && Sizes(at, fwd, false) == map[at := high[0].size]
  {
    AfterNext(w, head, high, at, first);
    AboveStartUsed(high, at, w, head);
    if high[0].used {
      fwd, hi, end := [], high, at;
      assert w1.size == w.size;
      FirstNowFree(w, w1, head, high, at);
    } else {
      fwd, hi, end := [high[0]], high[1..], at + high[0].size;
      LaidFrame(w, w1, head, hi, end, false);
      OneChunk(at, high[0], true);
    }
  }

  /** Any chunks around a block, taken together. */
  lemma Around(w: Words, head: nat, back: seq<Chunk>, d: Chunk, fwd: seq<Chunk>, p': nat, p: nat)
    requires Laid(w, head, back + [d] + fwd, p', true) && After(p', back) == p && d.used
    requires Sizes(p', back, true) == map[] && Sizes(p + d.size, fwd, true) == map[]
    ensures After(p', back + [d] + fwd) == After(p + d.size, fwd)
    ensures Sizes(p', back + [d] + fwd, true) == map[p := d.size]
    ensures Sizes(p', back + [d] + fwd, false) == Sizes(p', back, false) + Sizes(p + d.size, fwd, false)
  {
    OneChunk(p, d, true);
    LaidParts(w, head, back, [d], fwd, p');
    SizesParts(w, head, back, [d], fwd, p', true);
    SizesParts(w, head, back, [d], fwd, p', false);
  }

  /** The same chunks, grouped around the block. */
  lemma Regrouped(lo: seq<Chunk>, back: seq<Chunk>, d: Chunk, fwd: seq<Chunk>, hi: seq<Chunk>)
    ensures lo + (back + [d] + fwd) + hi == (lo + back) + [d] + (fwd + hi)
  {
  }

  /** Chunks in the middle that hold one block become one free chunk. */
  lemma MergedSizes(w: Words, w': Words, head: nat, lo: seq<Chunk>, mid: seq<Chunk>, hi: seq<Chunk>, base: nat,
                    p': nat, p: nat, size: nat, n: nat, free: map<nat, nat>)
    requires Laid(w, head, lo + mid + hi, base, true) && Laid(w', head, lo + [Chunk(size, false)] + hi, base, true)
    requires p' == After(base, lo) && After(p', mid) == p' + size && Sizes(p', mid, true) == map[p := n]
    requires Sizes(p', mid, false) == free
    ensures Sizes(base, lo + [Chunk(size, false)] + hi, true) == Sizes(base, lo + mid + hi, true) - {p}
    ensures Sizes(base, lo + [Chunk(size, false)] + hi, false) ==
        (Sizes(base, lo + mid + hi, false) - free.Keys)[p' := size]
  {
    OneChunk(p', Chunk(size, false), true);
    SizesReplaced(w, w', head, lo, mid, [Chunk(size, false)], hi, base, true);
    SizesReplaced(w, w', head, lo, mid, [Chunk(size, false)], hi, base, false);
  }

  /** A block between a free chunk or none and a free chunk or none becomes one free chunk with them. */
  lemma ReleasedBetween(w: Words, w1: Words, head: nat, lo: seq<Chunk>, back: seq<Chunk>, d: Chunk, fwd: seq<Chunk>,
                        hi: seq<Chunk>,
                        base: nat, p': nat, p: nat, first: nat, size: nat)
    requires Heaped(w, head, lo + (back + [d] + fwd) + hi, base, first) && d.used && hi != []
    requires p' == After(base, lo) && LastUsed(true, lo) && After(p', back) == p && After(p + d.size, fwd) == p' + size
    requires SizeOk(head, size)
    requires Sizes(p', back, true) == map[] && Sizes(p + d.size, fwd, true) == map[]
    requires SameWords(w, w1, base, p') && Laid(w1, head, hi, p' + size, false) && TopKept(w, w1, first)
    ensures Heaped(FreeWords(w1, p', size), head, lo + [Chunk(size, false)] + hi, base, first)
    ensures Sizes(base, lo + [Chunk(size, false)] + hi, true) == Sizes(base, lo + (back + [d] + fwd) + hi, true) - {p}
    ensures Sizes(base, lo + [Chunk(size, false)] + hi, false) ==
              (Sizes(base, lo + (back + [d] + fwd) + hi,
                     false) - (Sizes(p', back, false) + Sizes(p + d.size, fwd, false)).Keys)[p' := size]
  {
    var mid := back + [d] + fwd;
    LaidParts(w, head, lo, mid, hi, base);
    Around(w, head, back, d, fwd, p', p);
    MergeMid(w, w1, head, lo, mid, hi, base, p', first, size);
    MergedSizes(w, FreeWords(w1, p', size), head, lo, mid, hi, base, p', p, size, d.size,
                Sizes(p', back, false) + Sizes(p + d.size, fwd, false));
  }

  lemma NextHeaderOnly(w: Words, base: nat, p': nat, at: nat, size: nat)
    requires p' <= at
    ensures SameWords(w, SetHeadFree(w, at, size), base, p')
  {
  }

  /** The block, with a free chunk before it, joins the top chunk. */
  lemma ReleasedToTop(w: Words, head: nat, lo: seq<Chunk>, back: seq<Chunk>, d: Chunk, base: nat, p': nat, p: nat,
                      first: nat, size: nat)
    requires Heaped(w, head, lo + (back + [d]), base, first) && d.used
    requires p' == After(base, lo) && LastUsed(true, lo) && After(p', back) == p && Sizes(p', back, true) == map[]
    ensures Heaped(SetHead(w, p', size), head, lo, base, p')
    ensures Sizes(base, lo, true) == Sizes(base, lo + (back + [d]), true) - {p}
    ensures Sizes(base, lo, false) == Sizes(base, lo + (back + [d]), false) - Sizes(p', back, false).Keys
  {
    LaidConcat(w, head, lo, back + [d], base, true);
    assert back + [d] + [] == back + [d];
    Around(w, head, back, d, [], p', p);
    JoinTop(w, head, lo, back + [d], base, first, size);
  }

  /** The chunks around a block are chunks of the heap. */
  lemma NeighbourIsFree(w: Words, head: nat, lo: seq<Chunk>, mid: seq<Chunk>, hi: seq<Chunk>, base: nat, p: nat)
    requires Laid(w, head, lo + (mid + hi), base, true) && p == After(base, lo)
    ensures forall a :: a in Sizes(p, mid, false) ==>
        a in Sizes(base, lo + (mid + hi), false) && Sizes(base, lo + (mid + hi), false)[a] == Sizes(p, mid, false)[a]
  {
    assert lo + (mid + hi) == lo + mid + hi;
    SizesParts(w, head, lo, mid, hi, base, false);
  }

  /** What becomes of the heap when the block below the top is released. */
  lemma TopPlan(c: Build, start: nat, brk: nat, w: Words, first: nat, last: Option<nat>, binned: map<nat, nat>,
                base: nat,
                low: seq<Chunk>, d: Chunk, p: nat) returns (lo: seq<Chunk>, at: nat)
    requires Consistent(c, start, brk, w, first, last, binned, base, low + [d]) && d.used && p == After(base, low)
    requires p + d.size == first
    ensures p in w.size && p in w.prevUsed && w.size[p] == d.size && at <= p
    ensures BackTag(w, Sizes(base, low + [d], false), p, at)
    ensures Sizes(base, lo, false) == Without(Sizes(base, low + [d], false), at, p)
    ensures Heaped(SetHead(w, at, brk - at), c.head, lo, base, at)
    ensures Sizes(base, lo, true) == Sizes(base, low + [d], true) - {p}
  {
    assert low + [d] + [] == low + [d];
    AroundUsed(w, c.head, low, d, [], base, p, first);
    var back;
    lo, back, at := BackParts(w, c.head, low, base, p);
    assert lo + (back + [d]) == low + [d];
    NeighbourIsFree(w, c.head, lo, back, [d], base, at);
    ReleasedToTop(w, c.head, lo, back, d, base, at, p, first, brk - at);
  }

  lemma SumOfAligned(head: nat, a: nat, b: nat, d: nat)
    requires a % ALIGN == 0 && b % ALIGN == 0 && SizeOk(head, d)
    ensures SizeOk(head, a + d + b)
  {
  }

  lemma PlaceParts(w: Words, head: nat, base: nat, first: nat, low: seq<Chunk>, d: Chunk, high: seq<Chunk>, p: nat)
    returns (lo: seq<Chunk>, back: seq<Chunk>, fwd: seq<Chunk>, hi: seq<Chunk>, at: nat, end: nat)
    requires Heaped(w, head, low + [d] + high, base, first) && d.used && p == After(base, low) && high != []
    ensures lo + (back + [d] + fwd) + hi == low + [d] + high && at == After(base, lo) && at <= p && p + d.size <= end
    ensures LastUsed(true, lo) && After(at, back) == p && Sizes(at, back, true) == map[]
    ensures Sizes(p + d.size, fwd, true) == map[] && After(p + d.size, fwd) == end && SizeOk(head, end - at)
    ensures
      var w1 := SetHeadFree(w, p + d.size, high[0].size);
      hi != [] && SameWords(w, w1, base, at) && Laid(w1, head, hi, end, false) && TopKept(w, w1, first)
    ensures if LastUsed(true, low) then at == p && Sizes(at, back, false) == map[]
            else at < p && p in w.prevSize && w.prevSize[p] == p - at && Sizes(at, back, false) == map[at := p - at]
    ensures if high[0].used then end == p + d.size && Sizes(p + d.size, fwd, false) == map[]
            else end == p + d.size + high[0].size && Sizes(p + d.size, fwd, false) == map[p + d.size := high[0].size]
  {
    var next, w1 := p + d.size, SetHeadFree(w, p + d.size, high[0].size);
    AroundUsed(w, head, low, d, high, base, p, first);
    lo, back, at := BackParts(w, head, low, base, p);
    fwd, hi, end := FwdParts(w, w1, head, high, next, first);
    Regrouped(lo, back, d, fwd, hi);
    NextHeaderOnly(w, base, at, next, high[0].size);
    SumOfAligned(head, p - at, end - next, d.size);
  }

  /** What becomes of the heap when any other block is released. */
  lemma PlacePlan(w: Words, head: nat, base: nat, first: nat, low: seq<Chunk>, d: Chunk, high: seq<Chunk>, p: nat)
    returns (lo: seq<Chunk>, back: seq<Chunk>, fwd: seq<Chunk>, hi: seq<Chunk>, at: nat, end: nat)
    requires Heaped(w, head, low + [d] + high, base, first) && d.used && p == After(base, low) && high != []
    ensures lo + (back + [d] + fwd) + hi == low + [d] + high && at == After(base, lo) && at <= p && p + d.size <= end
    ensures LastUsed(true, lo) && After(at, back) == p && Sizes(at, back, true) == map[]
    ensures Sizes(p + d.size, fwd, true) == map[]
    ensures
      var free, w1 := Sizes(base, low + [d] + high, false), SetHeadFree(w, p + d.size, high[0].size);
      && Heaped(FreeWords(w1, at, end - at), head, lo + [Chunk(end - at, false)] + hi, base, first)
          && SizeOk(head, end - at)
      && Sizes(base, lo + [Chunk(end - at, false)] + hi, true) == Sizes(base, low + [d] + high, true) - {p}
      && Sizes(base, lo + [Chunk(end - at, false)] + hi, false) ==
          (free - (Sizes(at, back, false) + Sizes(p + d.size, fwd, false)).Keys)[at := end - at]
    ensures if LastUsed(true, low) then at == p && Sizes(at, back, false) == map[]
            else at < p && p in w.prevSize && w.prevSize[p] == p - at && Sizes(at, back, false) == map[at := p - at]
    ensures if high[0].used then end == p + d.size && Sizes(p + d.size, fwd, false) == map[]
            else end == p + d.size + high[0].size && Sizes(p + d.size, fwd, false) == map[p + d.size := high[0].size]
  {
    lo, back, fwd, hi, at, end := PlaceParts(w, head, base, first, low, d, high, p);
    var w1 := SetHeadFree(w, p + d.size, high[0].size);
    ReleasedBetween(w, w1, head, lo, back, d, fwd, hi, base, at, p, first, end - at);
  }

  /** The merged chunk is new among the free chunks that are left, and its neighbours were free. */
  lemma MergedFree(w: Words, head: nat, base: nat, lo: seq<Chunk>, back: seq<Chunk>, d: Chunk, fwd: seq<Chunk>,
                   hi: seq<Chunk>, at: nat, p: nat)
    requires Laid(w, head, lo + (back + [d] + fwd) + hi, base, true) && at == After(base, lo) && After(at, back) == p
    requires d.used
    requires LastUsed(true, lo) && Sizes(at, back, true) == map[] && Sizes(p + d.size, fwd, true) == map[]
    requires (at in Sizes(at, back, false) || at == p)
    ensures
      var free, a, b := Sizes(base, lo + (back + [d] + fwd) + hi, false), Sizes(at, back, false),
          Sizes(p + d.size, fwd, false);
      && (forall q :: q in a + b ==> q in free && free[q] == (a + b)[q]) && at !in free - (a + b).Keys
  {
    var mid := back + [d] + fwd;
    LaidParts(w, head, lo, mid, hi, base);
    Around(w, head, back, d, fwd, at, p);
    SizesParts(w, head, lo, mid, hi, base, false);
    SizesParts(w, head, lo, mid, hi, base, true);
    UsedOrFree(head, w, base, lo + mid + hi, true);
    assert p in Sizes(at, mid, true);
  }

  /** Where the free chunk before the block at p begins, by its tags; p if there is none. */
  ghost predicate BackTag(w: Words, free: map<nat, nat>, p: nat, at: nat) {
    && p in w.prevUsed
    && (if w.prevUsed[p] then at == p
        else p in w.prevSize && at + w.prevSize[p] == p && at < p && at in free && free[at] == w.prevSize[p])
  }

  /** Where the free chunk after the block ends, by its tags; where it would begin if there is none. */
  ghost predicate FwdTag(w: Words, free: map<nat, nat>, next: nat, end: nat) {
    && next in w.size && next + w.size[next] in w.prevUsed
    && (if w.prevUsed[next + w.size[next]] then end == next
        else end == next + w.size[next] && next < end && next in free && free[next] == w.size[next])
  }

  /** The free chunks without one that starts before p. */
  ghost function Without(free: map<nat, nat>, at: nat, p: nat): map<nat, nat> {
    if at < p then free - {at} else free
  }

  lemma TagsLeave(w: Words, free: map<nat, nat>, a: map<nat, nat>, b: map<nat, nat>, p: nat, next: nat, at: nat,
                  end: nat)
    requires p in w.prevUsed && next in w.size && w.size[next] > 0 && next + w.size[next] in w.prevUsed && p < next
    requires forall q :: q in a + b ==> q in free && free[q] == (a + b)[q]
    requires if w.prevUsed[p] then at == p && a == map[]
             else at < p && p in w.prevSize && w.prevSize[p] == p - at && a == map[at := p - at]
    requires if w.prevUsed[next + w.size[next]] then end == next && b == map[]
             else end == next + w.size[next] && b == map[next := w.size[next]]
    ensures BackTag(w, free, p, at) && FwdTag(w, Without(free, at, p), next, end)
    ensures free - (a + b).Keys == Without(Without(free, at, p), next, end)
  {
    if !w.prevUsed[p] {
      assert at in a + b;
    }
    if !w.prevUsed[next + w.size[next]] {
      assert next in a + b;
    }
  }

  /** The header words of the block at p and of the chunk after it. */
  lemma BlockTags(w: Words, head: nat, base: nat, first: nat, low: seq<Chunk>, d: Chunk, high: seq<Chunk>, p: nat)
    requires Heaped(w, head, low + [d] + high, base, first) && d.used && p == After(base, low)
    ensures p in w.size && w.size[p] == d.size && d.size > 0 && p in w.prevUsed && w.prevUsed[p] == LastUsed(true, low)
    ensures high == [] <==> p + d.size == first
    ensures high != [] ==>
              && p + d.size in w.size && w.size[p + d.size] == high[0].size && high[0].size > 0
              && p + d.size + high[0].size in w.prevUsed && w.prevUsed[p + d.size + high[0].size] == high[0].used
  {
    AroundUsed(w, head, low, d, high, base, p, first);
    if high != [] {
      AfterNext(w, head, high, p + d.size, first);
    }
  }

  /** What becomes of the heap when a block that does not border the top is released, in terms of the tags. */
  lemma ReleasePlan(w: Words, head: nat, base: nat, first: nat, chunks: seq<Chunk>, low: seq<Chunk>, d: Chunk,
                    high: seq<Chunk>, p: nat, next: nat)
    returns (chunks': seq<Chunk>, at: nat, end: nat, rest: map<nat, nat>)
    requires Heaped(w, head, chunks, base, first) && chunks == low + [d] + high && d.used && p == After(base, low)
    requires next == p + d.size && high != []
    ensures next in w.size && at <= p && next <= end && base <= at && end < first && SizeOk(head, end - at)
    ensures BackTag(w, Sizes(base, chunks, false), p, at)
    ensures FwdTag(w, Without(Sizes(base, chunks, false), at, p), next, end)
    ensures rest == Without(Without(Sizes(base, chunks, false), at, p), next, end) && at !in rest
    ensures
      var w' := FreeWords(SetHeadFree(w, next, w.size[next]), at, end - at);
      Heaped(w', head, chunks', base, first) && w'.size[first] == w.size[first]
    ensures Sizes(base, chunks', true) == Sizes(base, chunks, true) - {p}
    ensures Sizes(base, chunks', false) == rest[at := end - at]
  {
    var lo, back, fwd, hi;
    BlockTags(w, head, base, first, low, d, high, p);
    lo, back, fwd, hi, at, end := PlacePlan(w, head, base, first, low, d, high, p);
    var free, a, b := Sizes(base, chunks, false), Sizes(at, back, false), Sizes(next, fwd, false);
    MergedFree(w, head, base, lo, back, d, fwd, hi, at, p);
    TagsLeave(w, free, a, b, p, next, at, end);
    chunks', rest := lo + [Chunk(end - at, false)] + hi, free - (a + b).Keys;
    FreeHeader(FreeWords(SetHeadFree(w, next, w.size[next]), at, end - at), head, chunks', base, first, at);
  }

  /** New tags and chunks below the same top chunk. */
  lemma StillConsistent(c: Build, start: nat, brk: nat, w: Words, first: nat, last: Option<nat>,
                        binned: map<nat, nat>, base: nat, chunks: seq<Chunk>,
                        w': Words, last': Option<nat>, binned': map<nat, nat>, chunks': seq<Chunk>)
    requires Consistent(c, start, brk, w, first, last, binned, base, chunks)
    requires Heaped(w', c.head, chunks', base, first) && w'.size[first] == w.size[first]
    requires Binned(binned', last', Sizes(base, chunks', false))
    ensures Consistent(c, start, brk, w', first, last', binned', base, chunks')
  {
  }

  /** A block and what is free before it join the top chunk. */
  lemma TopMerged(c: Build, start: nat, brk: nat, w: Words, first: nat, last: Option<nat>,
                  binned: map<nat, nat>, base: nat, chunks: seq<Chunk>,
                  at: nat, last': Option<nat>, binned': map<nat, nat>, lo: seq<Chunk>)
    requires Consistent(c, start, brk, w, first, last, binned, base, chunks) && at <= first
    requires Heaped(SetHead(w, at, brk - at), c.head, lo, base, at) && Binned(binned', last', Sizes(base, lo, false))
    ensures Consistent(c, start, brk, SetHead(w, at, brk - at), at, last', binned', base, lo)
  {
  }

  /** The merged chunk joins the bins, or is the last remainder. */
  lemma MergedBinned(binned: map<nat, nat>, last: Option<nat>, rest: map<nat, nat>, at: nat, size: nat)
    requires at !in rest
    ensures Binned(binned, last, rest) ==> at !in binned && Binned(binned[at := size], last, rest[at := size])
    ensures binned == rest && last == Some(at) ==> Binned(binned, last, rest[at := size])
  {
  }

  lemma BinnedHeaders(w: Words, head: nat, chunks: seq<Chunk>, base: nat, first: nat, binned: map<nat, nat>)
    requires Heaped(w, head, chunks, base, first)
    requires forall a :: a in binned ==> a in Sizes(base, chunks, false) && Sizes(base, chunks, false)[a] == binned[a]
    ensures forall a :: a in binned ==> a in w.size && w.size[a] == binned[a]
  {
    forall a | a in binned ensures a in w.size && w.size[a] == binned[a] {
      FreeHeader(w, head, chunks, base, first, a);
    }
  }

  // ----- what the layout says about blocks

  lemma {:induction false} ChunksApart(w: Words, head: nat, at: nat, chunks: seq<Chunk>, prevUsed: bool, p: nat, q: nat)
    requires Laid(w, head, chunks, at, prevUsed) && p in Sizes(at, chunks, true) && q in Sizes(at, chunks, true)
    requires p < q
    ensures p + Sizes(at, chunks, true)[p] <= q
    decreases |chunks|
  {
    var rest, next := chunks[1..], at + chunks[0].size;
    SizesWithin(head, w, next, rest, chunks[0].used, true);
    if p != at {
      ChunksApart(w, head, next, rest, chunks[0].used, p, q);
    }
  }

  lemma {:induction false} ChunksAligned(w: Words, head: nat, at: nat, chunks: seq<Chunk>, prevUsed: bool, p: nat,
                                         k: nat)
    requires Laid(w, head, chunks, at, prevUsed) && p in Sizes(at, chunks, true) && (at + k) % ALIGN == 0
    ensures (p + k) % ALIGN == 0
    decreases |chunks|
  {
    if p != at {
      ChunksAligned(w, head, at + chunks[0].size, chunks[1..], chunks[0].used, p, k);
    }
  }

  /** The bytes a caller may use: from behind the header to the second word of the next chunk. */
  function Usable(c: Build, p: nat, size: nat): (nat, nat) {
    (p + 2 * c.word, p + size + c.word)
  }

  /** Blocks are aligned, inside the heap, and the bytes of one are not bytes of another. */
  lemma BlocksAreSeparate(c: Build, start: nat, brk: nat, w: Words, first: nat, last: Option<nat>,
                          binned: map<nat, nat>, base: nat, chunks: seq<Chunk>, p: nat, q: nat)
    requires Consistent(c, start, brk, w, first, last, binned, base, chunks) && c.word <= c.head
    requires p in Sizes(base, chunks, true) && q in Sizes(base, chunks, true) && p < q
    ensures
      var (a, b), (a', b') := Usable(c, p, Sizes(base, chunks, true)[p]), Usable(c, q, Sizes(base, chunks, true)[q]);
      a % ALIGN == 0 && start <= a && b <= a' && b' <= brk
  {
    ChunksApart(w, c.head, base, chunks, true, p, q);
    ChunksAligned(w, c.head, base, chunks, true, p, 2 * c.word);
    SizesWithin(c.head, w, base, chunks, true, true);
  }

  /** With no block in use the whole space is the top chunk again. */
  lemma AllReleased(c: Build, start: nat, brk: nat, w: Words, first: nat, last: Option<nat>, binned: map<nat, nat>,
                    base: nat, chunks: seq<Chunk>)
    requires Consistent(c, start, brk, w, first, last, binned, base, chunks) && Sizes(base, chunks, true) == map[]
    ensures chunks == [] && first == base && last == None && binned == map[]
  {
    if chunks != [] {
      LastIsBlock(w, c.head, base, chunks);
    }
  }

  lemma LastIsBlock(w: Words, head: nat, base: nat, chunks: seq<Chunk>)
    requires chunks != [] && Laid(w, head, chunks, base, true) && LastUsed(true, chunks)
    ensures exists p :: p in Sizes(base, chunks, true)
  {
    var init, d := chunks[..|chunks| - 1], chunks[|chunks| - 1];
    var p := After(base, init);
    assert chunks == init + [d];
    AfterConcat(base, true, init, [d]);
    OneChunk(p, d, LastUsed(true, init));
    SizesConcat(head, w, base, init, [d], true, true);
    assert p in Sizes(base, chunks, true);
  }

  // ----- the split as written

  /** The writes of a split: the block, the remainder, and its foot where the old chunk ends. */
  function Carved(c: Build, w: Words, p: nat, size: nat, nb: nat): Words {
    var left := Left(c, size, nb);
    var w' := SetHead(SetHead(w, p, nb), p + nb, left);
    w'.(prevSize := w'.prevSize[p + size := left])
  }

  lemma CarvedSplits(c: Build, w: Words, p: nat, size: nat, nb: nat)
    requires BuildOk(c) && nb <= size <= c.heap
    ensures Carved(c, w, p, size, nb) == SplitWords(w, p, nb, size - nb)
  {
    LeftWraps(c, size, nb);
  }

  /** A chunk smaller than the request: no layout fits the header that is written for what is left. */
  lemma CarvedOverruns(c: Build, start: nat, brk: nat, w: Words, first: nat, binned: map<nat, nat>, p: nat, size: nat,
                       nb: nat,
                       base: nat, chunks: seq<Chunk>)
    requires BuildOk(c) && c.heap > 0xFFFF && size < nb <= c.heap
    ensures !Consistent(c, start, brk, Carved(c, w, p, size, nb), first, Some(p + nb), binned, base, chunks)
  {
    var w' := Carved(c, w, p, size, nb);
    LeftWraps(c, size, nb);
    if p + nb in Sizes(base, chunks, false) && Heaped(w', c.head, chunks, base, first) {
      FreeHeader(w', c.head, chunks, base, first, p + nb);
    }
  }

  // ----- layouts that the blocks determine

  /** With one block, and base below it: the space before it is one free chunk, and nothing else is free. */
  lemma OneBlockBehind(w: Words, head: nat, base: nat, first: nat, chunks: seq<Chunk>, q: nat, size: nat)
    requires Heaped(w, head, chunks, base, first) && Sizes(base, chunks, true) == map[q := size] && base < q
    ensures Sizes(base, chunks, false) == map[base := q - base]
  {
    assert chunks != [];
    var rest := chunks[1..];
    assert q in Sizes(base, chunks, true) && base !in Sizes(base, chunks, true);
    assert !chunks[0].used;
    OneBlockFirst(w, head, base + chunks[0].size, rest, q, size);
  }

  lemma OneBlockFirst(w: Words, head: nat, at: nat, chunks: seq<Chunk>, q: nat, size: nat)
    requires Laid(w, head, chunks, at, false) && LastUsed(false, chunks) && Sizes(at, chunks, true) == map[q := size]
    ensures at == q && Sizes(at, chunks, false) == map[]
  {
    assert chunks != [] && chunks[0].used;
    assert at in Sizes(at, chunks, true);
    var rest := chunks[1..];
    SizesWithin(head, w, at + chunks[0].size, rest, true, true);
    var later := Sizes(at + chunks[0].size, rest, true);
    assert Sizes(at, chunks, true) == later[at := chunks[0].size];
    assert forall a :: a in later ==> a in Sizes(at, chunks, true) && a != at;
    if rest != [] {
      LastIsBlock(w, head, at + chunks[0].size, rest);
    }
  }

  lemma FirstIsUsed(at: nat, chunks: seq<Chunk>)
    requires chunks != [] && Sizes(at, chunks, false) == map[]
    ensures chunks[0].used
  {
    assert at !in Sizes(at, chunks, false);
  }

  /** Two blocks, nothing free, base at the first: the second follows it. */
  lemma TwoBlocks(w: Words, head: nat, base: nat, first: nat, chunks: seq<Chunk>, q: nat, size: nat, size': nat)
    requires Heaped(w, head, chunks, base, first) && Sizes(base, chunks, true) == map[base := size, q := size']
    requires q != base
    requires Sizes(base, chunks, false) == map[]
    ensures q == base + size
  {
    assert q in Sizes(base, chunks, true) && base in Sizes(base, chunks, true);
    var rest := chunks[1..];
    FirstIsUsed(base, chunks);
    assert Sizes(base, chunks, true)[base] == chunks[0].size;
    assert Sizes(base, chunks, true) == Sizes(base + size, rest, true)[base := size];
    SizesWithin(head, w, base + size, rest, true, true);
    assert q in Sizes(base + size, rest, true);
    FirstIsUsed(base + size, rest);
    assert base + size in Sizes(base + size, rest, true);
    assert base + size in Sizes(base, chunks, true);
  }
}
