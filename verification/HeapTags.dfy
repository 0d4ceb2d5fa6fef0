/** What each write of boundary tags in alloc and free does to the layout (kernel/heap_dlmalloc.c). */
module HeapTags {
  import opened HeapLayout

  /** The chunks lie from base to the top chunk, and the one below the top is in use. */
  ghost predicate Heaped(w: Words, head: nat, chunks: seq<Chunk>, base: nat, first: nat) {
    && Laid(w, head, chunks, base, true) && After(base, chunks) == first && LastUsed(true, chunks)
    && first in w.size && first in w.prevUsed && w.prevUsed[first]
  }

  /** heap_set_head: size and P bit. */
  function SetHead(w: Words, p: nat, size: nat): Words {
    w.(size := w.size[p := size], prevUsed := w.prevUsed[p := true])
  }

  /** __heap_set_head: size, P bit clear. */
  function SetHeadFree(w: Words, p: nat, size: nat): Words {
    w.(size := w.size[p := size], prevUsed := w.prevUsed[p := false])
  }

  /** heap_set_foot */
  function SetFoot(w: Words, p: nat, size: nat): Words {
    w.(prevSize := w.prevSize[p + size := size])
  }

  /** heap_set_inuse_at */
  function SetUsedAt(w: Words, p: nat, size: nat): Words {
    w.(prevUsed := w.prevUsed[p + size := true])
  }

  ghost predicate TopKept(w: Words, w': Words, first: nat) {
    first in w'.size && first in w'.prevUsed && w'.prevUsed[first]
  }

  /** The middle gives way to other chunks that end at the same place. */
  lemma HeapedReplaced(w: Words, w': Words, head: nat, low: seq<Chunk>, mid: seq<Chunk>, mid': seq<Chunk>,
                       high: seq<Chunk>,
                       base: nat, p: nat, q: nat, first: nat)
    requires Heaped(w, head, low + mid + high, base, first) && high != []
    requires p == After(base, low) && q == After(p, mid) == After(p, mid')
    requires SameWords(w, w', base, p) && Laid(w', head, mid', p, LastUsed(true, low))
    requires Laid(w', head, high, q, LastUsed(LastUsed(true, low), mid'))
    requires TopKept(w, w', first)
    ensures Heaped(w', head, low + mid' + high, base, first)
  {
    ReplaceMid(w, w', head, low, mid, mid', high, base);
  }

  // ----- a free chunk is taken whole

  lemma OneChunk(p: nat, c: Chunk, used: bool)
    ensures After(p, [c]) == p + c.size && LastUsed(used, [c]) == c.used
    ensures Sizes(p, [c], true) == (if c.used then map[p := c.size] else map[])
    ensures Sizes(p, [c], false) == (if c.used then map[] else map[p := c.size])
  {
    assert [c][1..] == [];
  }

  lemma TwoChunks(p: nat, c: Chunk, d: Chunk, used: bool)
    requires c.used != d.used && c.size > 0
    ensures After(p, [c, d]) == p + c.size + d.size && LastUsed(used, [c, d]) == d.used
    ensures Sizes(p, [c, d], c.used) == map[p := c.size] && Sizes(p, [c, d], d.used) == map[p + c.size := d.size]
  {
    assert [c, d][1..] == [d];
    OneChunk(p + c.size, d, c.used);
  }

  lemma AroundFree(w: Words, head: nat, low: seq<Chunk>, c: Chunk, high: seq<Chunk>, base: nat, first: nat)
    requires Heaped(w, head, low + [c] + high, base, first) && !c.used
    ensures
      var p := After(base, low);
      && LastUsed(true, low) && HeaderOk(w, p, c, true) && SizeOk(head, c.size)
      && high != [] && Laid(w, head, high, p + c.size, false) && high[0].used && p + c.size < first
      && After(p + c.size, high) == first && LastUsed(false, high)
  {
    var p := After(base, low);
    LaidParts(w, head, low, [c], high, base);
    OneChunk(p, c, LastUsed(true, low));
    AfterConcat(p + c.size + high[0].size, false, high[1..], []);
  }

  lemma TakeWholeLaid(w: Words, head: nat, low: seq<Chunk>, c: Chunk, high: seq<Chunk>, base: nat, first: nat)
    requires Heaped(w, head, low + [c] + high, base, first) && !c.used
    ensures Heaped(SetUsedAt(w, After(base, low), c.size), head, low + [Chunk(c.size, true)] + high, base, first)
  {
    var p, w' := After(base, low), SetUsedAt(w, After(base, low), c.size);
    var c' := Chunk(c.size, true);
    AroundFree(w, head, low, c, high, base, first);
    OneChunk(p, c, true);
    OneChunk(p, c', true);
    FirstNowUsed(w, w', head, high, p + c.size, false);
    ReplaceMid(w, w', head, low, [c], [c'], high, base);
  }

  /** A free chunk taken whole: one block more, one free chunk less, nothing else. */
  lemma TakeWhole(w: Words, head: nat, low: seq<Chunk>, c: Chunk, high: seq<Chunk>, base: nat, first: nat)
    requires Heaped(w, head, low + [c] + high, base, first) && !c.used
    ensures
      var p, w', chunks := After(base, low), SetUsedAt(w, After(base, low), c.size), low + [c] + high;
      var chunks' := low + [Chunk(c.size, true)] + high;
      && Heaped(w', head, chunks', base, first)
      && Sizes(base, chunks', true) == Sizes(base, chunks, true)[p := c.size] && p !in Sizes(base, chunks, true)
      && Sizes(base, chunks', false) == Sizes(base, chunks, false) - {p} && p in Sizes(base, chunks, false)
  {
    var p, w' := After(base, low), SetUsedAt(w, After(base, low), c.size);
    var c' := Chunk(c.size, true);
    TakeWholeLaid(w, head, low, c, high, base, first);
    OneChunk(p, c, true);
    OneChunk(p, c', true);
    SizesReplaced(w, w', head, low, [c], [c'], high, base, true);
    SizesReplaced(w, w', head, low, [c], [c'], high, base, false);
    UsedOrFree(head, w, base, low + [c] + high, true);
  }

  // ----- a free chunk is split

  /** The writes that split a free chunk at p: the block, then the remainder with its foot. */
  function SplitWords(w: Words, p: nat, nb: nat, rest: nat): Words {
    SetFoot(SetHead(SetHead(w, p, nb), p + nb, rest), p + nb, rest)
  }

  lemma SplitMid(w: Words, head: nat, p: nat, nb: nat, rest: nat)
    requires SizeOk(head, nb) && SizeOk(head, rest)
    ensures Laid(SplitWords(w, p, nb, rest), head, [Chunk(nb, true), Chunk(rest, false)], p, true)
  {
    var c, d := Chunk(nb, true), Chunk(rest, false);
    assert [c, d][1..] == [d] && [d][1..] == [];
    assert Laid(SplitWords(w, p, nb, rest), head, [d], p + nb, true);
  }

  lemma SplitKeepsOthers(w: Words, p: nat, nb: nat, rest: nat, base: nat, end: nat)
    requires nb > 0
    ensures SameWords(w, SplitWords(w, p, nb, rest), base, p)
    ensures rest > 0 ==> SameWords(w, SplitWords(w, p, nb, rest), p + nb + rest, end)
  {
  }

  lemma SplitKeepsTop(w: Words, p: nat, nb: nat, rest: nat, first: nat)
    requires TopKept(w, w, first) && p + nb + rest < first
    ensures TopKept(w, SplitWords(w, p, nb, rest), first)
  {
  }

  lemma SplitLaid(w: Words, head: nat, low: seq<Chunk>, c: Chunk, high: seq<Chunk>, base: nat, first: nat, nb: nat)
    requires Heaped(w, head, low + [c] + high, base, first) && !c.used && nb <= c.size
    requires SizeOk(head, nb) && SizeOk(head, c.size - nb)
    ensures Heaped(SplitWords(w, After(base, low), nb, c.size - nb), head,
                   low + [Chunk(nb, true), Chunk(c.size - nb, false)] + high, base, first)
  {
    var p, rest := After(base, low), c.size - nb;
    AroundFree(w, head, low, c, high, base, first);
    SplitMid(w, head, p, nb, rest);
    SplitKeepsOthers(w, p, nb, rest, base, first);
    SplitKeepsTop(w, p, nb, rest, first);
    SplitLaidBy(w, SplitWords(w, p, nb, rest), head, low, c, high, base, p, first, nb, rest);
  }

  lemma SplitLaidBy(w: Words, w': Words, head: nat, low: seq<Chunk>, c: Chunk, high: seq<Chunk>, base: nat, p: nat,
                    first: nat, nb: nat, rest: nat)
    requires Heaped(w, head, low + [c] + high, base, first) && !c.used && nb + rest == c.size && nb > 0 && high != []
    requires p == After(base, low) && LastUsed(true, low) && Laid(w, head, high, p + c.size, false)
    requires After(p + c.size, high) == first
    requires SameWords(w, w', base, p) && SameWords(w, w', p + c.size, first) && TopKept(w, w', first)
    requires Laid(w', head, [Chunk(nb, true), Chunk(rest, false)], p, true)
    ensures Heaped(w', head, low + [Chunk(nb, true), Chunk(rest, false)] + high, base, first)
  {
    var mid' := [Chunk(nb, true), Chunk(rest, false)];
    OneChunk(p, c, true);
    TwoChunks(p, mid'[0], mid'[1], true);
    LaidFrame(w, w', head, high, p + c.size, false);
    HeapedReplaced(w, w', head, low, [c], mid', high, base, p, p + c.size, first);
  }

  lemma OneMore(m: map<nat, nat>, m': map<nat, nat>, out: map<nat, nat>, k: nat, v: nat)
    requires m' == (m - out.Keys) + map[k := v]
    ensures m' == (m - out.Keys)[k := v] && (out == map[] ==> m' == m[k := v])
  {
  }

  lemma SplitSizes(w: Words, w': Words, head: nat, low: seq<Chunk>, c: Chunk, high: seq<Chunk>, base: nat, nb: nat)
    requires !c.used && 0 < nb <= c.size && Laid(w, head, low + [c] + high, base, true)
    requires Laid(w', head, low + [Chunk(nb, true), Chunk(c.size - nb, false)] + high, base, true)
    ensures
      var p, chunks, rest := After(base, low), low + [c] + high, c.size - nb;
      var chunks' := low + [Chunk(nb, true), Chunk(rest, false)] + high;
      && Sizes(base, chunks', true) == Sizes(base, chunks, true)[p := nb]
      && Sizes(base, chunks', false) == (Sizes(base, chunks, false) - {p})[p + nb := rest]
          && p in Sizes(base, chunks, false)
  {
    var p, rest := After(base, low), c.size - nb;
    var mid' := [Chunk(nb, true), Chunk(rest, false)];
    OneChunk(p, c, true);
    TwoChunks(p, mid'[0], mid'[1], true);
    SizesReplaced(w, w', head, low, [c], mid', high, base, true);
    SizesReplaced(w, w', head, low, [c], mid', high, base, false);
    OneMore(Sizes(base, low + [c] + high, true), Sizes(base, low + mid' + high, true), map[], p, nb);
    OneMore(Sizes(base, low + [c] + high, false), Sizes(base, low + mid' + high, false), map[p := c.size], p + nb,
            rest);
    assert map[p := c.size].Keys == {p};
  }

  /** A free chunk split: a block at its front, and what is left is the free chunk. */
  lemma SplitFree(w: Words, head: nat, low: seq<Chunk>, c: Chunk, high: seq<Chunk>, base: nat, first: nat, nb: nat)
    requires Heaped(w, head, low + [c] + high, base, first) && !c.used && nb <= c.size
    requires SizeOk(head, nb) && SizeOk(head, c.size - nb)
    ensures
      var p, chunks, rest := After(base, low), low + [c] + high, c.size - nb;
      var chunks' := low + [Chunk(nb, true), Chunk(rest, false)] + high;
      && Heaped(SplitWords(w, p, nb, rest), head, chunks', base, first)
      && Sizes(base, chunks', true) == Sizes(base, chunks, true)[p := nb] && p !in Sizes(base, chunks, true)
      && Sizes(base, chunks', false) == (Sizes(base, chunks, false) - {p})[p + nb := rest]
          && p in Sizes(base, chunks, false)
  {
    var w' := SplitWords(w, After(base, low), nb, c.size - nb);
    SplitLaid(w, head, low, c, high, base, first, nb);
    SplitSizes(w, w', head, low, c, high, base, nb);
    UsedOrFree(head, w, base, low + [c] + high, true);
  }

  // ----- the top chunk

  /** The writes that cut a block off the top chunk. */
  function TopWords(w: Words, first: nat, nb: nat, rest: nat): Words {
    SetHead(SetHead(w, first, nb), first + nb, rest)
  }

  lemma SplitTopLaid(w: Words, head: nat, chunks: seq<Chunk>, base: nat, first: nat, nb: nat, rest: nat)
    requires Heaped(w, head, chunks, base, first) && SizeOk(head, nb)
    ensures Heaped(TopWords(w, first, nb, rest), head, chunks + [Chunk(nb, true)], base, first + nb)
  {
    var w', c := TopWords(w, first, nb, rest), Chunk(nb, true);
    LaidFrame(w, w', head, chunks, base, true);
    LaidConcat(w', head, chunks, [c], base, true);
    AfterConcat(base, true, chunks, [c]);
    OneChunk(first, c, true);
    assert [c][1..] == [];
    assert Laid(w', head, [c], first, true);
  }

  /** A block cut off the top: one block more, the free chunks as before. */
  lemma SplitTop(w: Words, head: nat, chunks: seq<Chunk>, base: nat, first: nat, nb: nat, rest: nat)
    requires Heaped(w, head, chunks, base, first) && SizeOk(head, nb)
    ensures
      var chunks' := chunks + [Chunk(nb, true)];
      && Heaped(TopWords(w, first, nb, rest), head, chunks', base, first + nb)
      && Sizes(base, chunks', true) == Sizes(base, chunks, true)[first := nb] && first !in Sizes(base, chunks, true)
      && Sizes(base, chunks', false) == Sizes(base, chunks, false)
  {
    var w', c := TopWords(w, first, nb, rest), Chunk(nb, true);
    SplitTopLaid(w, head, chunks, base, first, nb, rest);
    SizesConcat(head, w', base, chunks, [c], true, true);
    SizesConcat(head, w', base, chunks, [c], true, false);
    OneChunk(first, c, true);
    SizesWithin(head, w, base, chunks, true, true);
  }

  /** More space at the end only changes the size of the top chunk. */
  lemma GrowTop(w: Words, head: nat, chunks: seq<Chunk>, base: nat, first: nat, size: nat)
    requires Heaped(w, head, chunks, base, first)
    ensures Heaped(SetHead(w, first, size), head, chunks, base, first)
  {
    LaidFrame(w, SetHead(w, first, size), head, chunks, base, true);
  }

  /** The chunks above `low`, all freed by now or free before, join the top. */
  lemma JoinTop(w: Words, head: nat, low: seq<Chunk>, mid: seq<Chunk>, base: nat, first: nat, size: nat)
    requires Heaped(w, head, low + mid, base, first) && LastUsed(true, low)
    ensures
      var p := After(base, low);
      && Heaped(SetHead(w, p, size), head, low, base, p)
      && Sizes(base, low, true) == Sizes(base, low + mid, true) - Sizes(p, mid, true).Keys
      && Sizes(base, low, false) == Sizes(base, low + mid, false) - Sizes(p, mid, false).Keys
  {
    var p := After(base, low);
    LaidConcat(w, head, low, mid, base, true);
    LaidFrame(w, SetHead(w, p, size), head, low, base, true);
    SizesConcat(head, w, base, low, mid, true, true);
    SizesConcat(head, w, base, low, mid, true, false);
  }

  // ----- a block becomes free

  lemma FirstNowFree(w: Words, w': Words, head: nat, chunks: seq<Chunk>, at: nat)
    requires chunks != [] && Laid(w, head, chunks, at, true) && chunks[0].used
    requires w'.size == w.size && w'.prevUsed == w.prevUsed[at := false]
    requires forall q :: q > at && q in w.prevSize ==> q in w'.prevSize && w'.prevSize[q] == w.prevSize[q]
    ensures Laid(w', head, chunks, at, false)
  {
    var c := chunks[0];
    AfterConcat(at + c.size, c.used, chunks[1..], []);
    LaidFrame(w, w', head, chunks[1..], at + c.size, c.used);
  }

  /** The writes that end a release: the merged free chunk at p with its foot. */
  function FreeWords(w: Words, p: nat, size: nat): Words {
    SetFoot(SetHead(w, p, size), p, size)
  }

  lemma FreeKeepsOthers(w: Words, p: nat, size: nat, base: nat, end: nat)
    requires size > 0
    ensures SameWords(w, FreeWords(w, p, size), base, p) && SameWords(w, FreeWords(w, p, size), p + size, end)
  {
  }

  lemma FreeMid(w: Words, head: nat, p: nat, size: nat)
    requires SizeOk(head, size)
    ensures Laid(FreeWords(w, p, size), head, [Chunk(size, false)], p, true)
  {
    assert [Chunk(size, false)][1..] == [];
  }

  lemma SameWordsTrans(w0: Words, w1: Words, w2: Words, at: nat, end: nat)
    requires SameWords(w0, w1, at, end) && SameWords(w1, w2, at, end)
    ensures SameWords(w0, w2, at, end)
  {
  }

  /**
   The chunks in the middle, with no free chunk before or after them, become one free
   chunk.  In `w` the header that follows already says so.
   */
  lemma MergeMid(w0: Words, w: Words, head: nat, low: seq<Chunk>, mid: seq<Chunk>, high: seq<Chunk>, base: nat,
                 p: nat, first: nat, size: nat)
    requires Heaped(w0, head, low + mid + high, base, first) && LastUsed(true, low) && high != []
    requires p == After(base, low) && After(p, mid) == p + size && SizeOk(head, size)
    requires SameWords(w0, w, base, p) && Laid(w, head, high, p + size, false) && TopKept(w0, w, first)
    ensures Heaped(FreeWords(w, p, size), head, low + [Chunk(size, false)] + high, base, first)
  {
    LaidParts(w0, head, low, mid, high, base);
    FreeMid(w, head, p, size);
    FreeKeepsOthers(w, p, size, base, first);
    AboveStart(high, p + size, w, head);
    var w', next := FreeWords(w, p, size), p + size;
    MergeMidBy(w0, w, w', head, low, mid, high, base, p, next, first, size);
  }

  lemma MergeMidBy(w0: Words, w: Words, w': Words, head: nat, low: seq<Chunk>, mid: seq<Chunk>, high: seq<Chunk>,
                   base: nat, p: nat, next: nat, first: nat, size: nat)
    requires Heaped(w0, head, low + mid + high, base, first) && LastUsed(true, low) && high != []
    requires p == After(base, low) && next == p + size && After(p, mid) == next && After(next, high) == first
    requires SameWords(w0, w, base, p) && SameWords(w, w', base, p) && TopKept(w0, w', first)
    requires Laid(w, head, high, next, false) && SameWords(w, w', next, first)
    requires Laid(w', head, [Chunk(size, false)], p, true)
    ensures Heaped(w', head, low + [Chunk(size, false)] + high, base, first)
  {
    OneChunk(p, Chunk(size, false), true);
    SameWordsTrans(w0, w, w', base, p);
    LaidFrame(w, w', head, high, next, false);
    HeapedReplaced(w0, w', head, low, mid, [Chunk(size, false)], high, base, p, next, first);
  }

  lemma AboveStart(high: seq<Chunk>, at: nat, w: Words, head: nat)
    requires high != [] && Laid(w, head, high, at, false)
    ensures After(at, high) > at
  {
    AfterConcat(at + high[0].size, true, high[1..], []);
  }

  // ----- the neighbours of a block

  lemma AroundUsed(w: Words, head: nat, low: seq<Chunk>, c: Chunk, high: seq<Chunk>, base: nat, p: nat, first: nat)
    requires Heaped(w, head, low + [c] + high, base, first) && c.used && p == After(base, low)
    ensures HeaderOk(w, p, c, LastUsed(true, low)) && SizeOk(head, c.size) && Laid(w, head, low, base, true)
    ensures Laid(w, head, high, p + c.size, true) && After(p + c.size, high) == first && LastUsed(true, high)
    ensures high == [] <==> p + c.size == first
  {
    LaidParts(w, head, low, [c], high, base);
    OneChunk(p, c, LastUsed(true, low));
    if high != [] {
      AboveStartUsed(high, p + c.size, w, head);
    }
  }

  lemma AboveStartUsed(high: seq<Chunk>, at: nat, w: Words, head: nat)
    requires high != [] && Laid(w, head, high, at, true)
    ensures After(at, high) > at
  {
    AfterConcat(at + high[0].size, true, high[1..], []);
  }

  /** The P bit after the next chunk says whether that chunk is in use. */
  lemma AfterNext(w: Words, head: nat, high: seq<Chunk>, at: nat, first: nat)
    requires high != [] && Laid(w, head, high, at, true) && After(at, high) == first && LastUsed(true, high)
    requires first in w.prevUsed && w.prevUsed[first]
    ensures at in w.size && w.size[at] == high[0].size && SizeOk(head, high[0].size)
    ensures at + high[0].size in w.prevUsed && w.prevUsed[at + high[0].size] == high[0].used
    ensures !high[0].used ==> high[1..] != []
    ensures Laid(w, head, high[1..], at + high[0].size, high[0].used) && After(at + high[0].size, high[1..]) == first
  {
  }

  /** A clear P bit leads to the free chunk before. */
  lemma BeforeFree(w: Words, head: nat, low: seq<Chunk>, base: nat, p: nat)
    requires Laid(w, head, low, base, true) && After(base, low) == p && !LastUsed(true, low)
    ensures low != []
    ensures
      var init, f := low[..|low| - 1], low[|low| - 1];
      && low == init + [f] && !f.used && LastUsed(true, init) && Laid(w, head, init, base, true)
      && p in w.prevSize && w.prevSize[p] == f.size && After(base, init) == p - f.size && SizeOk(head, f.size)
  {
    var init, f := low[..|low| - 1], low[|low| - 1];
    assert low == init + [f];
    LaidConcat(w, head, init, [f], base, true);
    AfterConcat(base, true, init, [f]);
    OneChunk(After(base, init), f, LastUsed(true, init));
  }
}
