/**
 The boundary tags of the heap (kernel/heap_dlmalloc.c): chunks that tile the space below
 the top chunk, with the size and the in-use bit of the chunk before in each header, and
 the size of a free chunk repeated where the next chunk begins.
 */
module HeapLayout {
  import opened HeapFormat

  /** The header words by chunk address: curr_size, its P bit, prev_size. */
  datatype Words = Words(size: map<nat, nat>, prevUsed: map<nat, bool>, prevSize: map<nat, nat>)

  datatype Chunk = Chunk(size: nat, used: bool)

  /** Where the chunks that start at `at` end, and whether the last one is in use. */
  ghost function After(at: nat, chunks: seq<Chunk>): nat
    decreases |chunks|
  {
    if chunks == [] then at else After(at + chunks[0].size, chunks[1..])
  }

  ghost function LastUsed(used: bool, chunks: seq<Chunk>): bool
    decreases |chunks|
  {
    if chunks == [] then used else LastUsed(chunks[0].used, chunks[1..])
  }

  predicate SizeOk(head: nat, size: nat) {
    size >= head && size > 0 && size % ALIGN == 0
  }

  /** The header of chunk c at `at`, after a chunk that is in use or not. */
  predicate HeaderOk(w: Words, at: nat, c: Chunk, prevUsed: bool) {
    && at in w.size && w.size[at] == c.size && at in w.prevUsed && w.prevUsed[at] == prevUsed
    && (!c.used ==> at + c.size in w.prevSize && w.prevSize[at + c.size] == c.size)
  }

  /** The chunks are laid out from `at` on; no two free chunks touch. */
  ghost predicate Laid(w: Words, head: nat, chunks: seq<Chunk>, at: nat, prevUsed: bool)
    decreases |chunks|
  {
    chunks == [] ||
    (var c := chunks[0];
     && SizeOk(head, c.size) && (prevUsed || c.used) && HeaderOk(w, at, c, prevUsed)
     && Laid(w, head, chunks[1..], at + c.size, c.used))
  }

  lemma {:induction false} AfterConcat(at: nat, used: bool, a: seq<Chunk>, b: seq<Chunk>)
    ensures After(at, a + b) == After(After(at, a), b) && LastUsed(used, a + b) == LastUsed(LastUsed(used, a), b)
    ensures After(at, a) >= at
    decreases |a|
  {
    if a == [] {
      assert a + b == b;
    } else {
      assert (a + b)[1..] == a[1..] + b;
      AfterConcat(at + a[0].size, a[0].used, a[1..], b);
    }
  }

  lemma {:induction false} LaidConcat(w: Words, head: nat, a: seq<Chunk>, b: seq<Chunk>, at: nat, prevUsed: bool)
    ensures Laid(w, head, a + b, at, prevUsed) <==>
              Laid(w, head, a, at, prevUsed) && Laid(w, head, b, After(at, a), LastUsed(prevUsed, a))
    decreases |a|
  {
    if a == [] {
      assert a + b == b;
    } else {
      assert (a + b)[1..] == a[1..] + b;
      LaidConcat(w, head, a[1..], b, at + a[0].size, a[0].used);
    }
  }

  /** The words that the chunks from `at` to `end` rest on are the same. */
  ghost predicate SameWords(w: Words, w': Words, at: nat, end: nat) {
    && (forall p :: at <= p < end && p in w.size ==> p in w'.size && w'.size[p] == w.size[p])
    && (forall p :: at <= p < end && p in w.prevUsed ==> p in w'.prevUsed && w'.prevUsed[p] == w.prevUsed[p])
    && (forall p :: at < p <= end && p in w.prevSize ==> p in w'.prevSize && w'.prevSize[p] == w.prevSize[p])
  }

  lemma {:induction false} LaidFrame(w: Words, w': Words, head: nat, chunks: seq<Chunk>, at: nat, prevUsed: bool)
    requires Laid(w, head, chunks, at, prevUsed) && SameWords(w, w', at, After(at, chunks))
    ensures Laid(w', head, chunks, at, prevUsed)
    decreases |chunks|
  {
    if chunks != [] {
      var c := chunks[0];
      AfterConcat(at + c.size, c.used, chunks[1..], []);
      LaidFrame(w, w', head, chunks[1..], at + c.size, c.used);
    }
  }

  /** Addresses and sizes of the chunks that are in use, or that are free. */
  ghost function Sizes(at: nat, chunks: seq<Chunk>, used: bool): map<nat, nat>
    decreases |chunks|
  {
    if chunks == [] then map[]
    else
      var rest := Sizes(at + chunks[0].size, chunks[1..], used);
      if chunks[0].used == used then rest[at := chunks[0].size] else rest
  }

  lemma {:induction false} SizesWithin(head: nat, w: Words, at: nat, chunks: seq<Chunk>, prevUsed: bool, used: bool)
    requires Laid(w, head, chunks, at, prevUsed)
    ensures forall p :: p in Sizes(at, chunks, used) ==>
              && at <= p && p + Sizes(at, chunks, used)[p] <= After(at, chunks)
              && SizeOk(head, Sizes(at, chunks, used)[p])
    decreases |chunks|
  {
    if chunks != [] {
      AfterConcat(at + chunks[0].size, used, chunks[1..], []);
      SizesWithin(head, w, at + chunks[0].size, chunks[1..], chunks[0].used, used);
    }
  }

  lemma SizesApart(head: nat, w: Words, at: nat, a: seq<Chunk>, b: seq<Chunk>, prevUsed: bool, used: bool)
    requires Laid(w, head, a + b, at, prevUsed)
    ensures Sizes(at, a, used).Keys !! Sizes(After(at, a), b, used).Keys
  {
    LaidConcat(w, head, a, b, at, prevUsed);
    SizesWithin(head, w, at, a, prevUsed, used);
    SizesWithin(head, w, After(at, a), b, LastUsed(prevUsed, a), used);
  }

  lemma {:induction false} SizesConcat(head: nat, w: Words, at: nat, a: seq<Chunk>, b: seq<Chunk>, prevUsed: bool,
                                       used: bool)
    requires Laid(w, head, a + b, at, prevUsed)
    ensures Sizes(at, a + b, used) == Sizes(at, a, used) + Sizes(After(at, a), b, used)
    ensures Sizes(at, a, used).Keys !! Sizes(After(at, a), b, used).Keys
    decreases |a|
  {
    SizesApart(head, w, at, a, b, prevUsed, used);
    if a == [] {
      assert a + b == b;
    } else {
      assert (a + b)[1..] == a[1..] + b;
      SizesConcat(head, w, at + a[0].size, a[1..], b, a[0].used, used);
    }
  }

  lemma {:induction false} UsedOrFree(head: nat, w: Words, at: nat, chunks: seq<Chunk>, prevUsed: bool)
    requires Laid(w, head, chunks, at, prevUsed)
    ensures Sizes(at, chunks, true).Keys !! Sizes(at, chunks, false).Keys
    decreases |chunks|
  {
    if chunks != [] {
      SizesWithin(head, w, at + chunks[0].size, chunks[1..], chunks[0].used, true);
      SizesWithin(head, w, at + chunks[0].size, chunks[1..], chunks[0].used, false);
      UsedOrFree(head, w, at + chunks[0].size, chunks[1..], chunks[0].used);
    }
  }

  /** The chunk at p splits the list. */
  lemma {:induction false} Locate(at: nat, chunks: seq<Chunk>, used: bool, p: nat)
    returns (low: seq<Chunk>, c: Chunk, high: seq<Chunk>)
    requires p in Sizes(at, chunks, used)
    ensures chunks == low + [c] + high && After(at, low) == p && c.used == used && c.size == Sizes(at, chunks, used)[p]
    decreases |chunks|
  {
    if chunks[0].used == used && p == at {
      low, c, high := [], chunks[0], chunks[1..];
    } else {
      low, c, high := Locate(at + chunks[0].size, chunks[1..], used, p);
      low := [chunks[0]] + low;
      assert chunks == [chunks[0]] + chunks[1..];
      assert low[1..] + [c] + high == chunks[1..];
    }
  }

  /** Only the P bit of the first header changes, to say that the chunk before is in use. */
  lemma FirstNowUsed(w: Words, w': Words, head: nat, chunks: seq<Chunk>, at: nat, prevUsed: bool)
    requires Laid(w, head, chunks, at, prevUsed) && at in w'.prevUsed && w'.prevUsed[at]
    requires at in w.size ==> at in w'.size && w'.size[at] == w.size[at]
    requires SameWords(w, w', at + 1, After(at, chunks))
    requires (at + 1 in w.prevSize ==> at + 1 in w'.prevSize && w'.prevSize[at + 1] == w.prevSize[at + 1])
    ensures Laid(w', head, chunks, at, true)
  {
    if chunks != [] {
      var c := chunks[0];
      AfterConcat(at + c.size, c.used, chunks[1..], []);
      LaidFrame(w, w', head, chunks[1..], at + c.size, c.used);
    }
  }

  lemma LaidParts(w: Words, head: nat, low: seq<Chunk>, mid: seq<Chunk>, high: seq<Chunk>, base: nat)
    ensures
      var p, u := After(base, low), LastUsed(true, low);
      && (Laid(w, head, low + mid + high, base, true) <==>
            Laid(w, head, low, base, true) && Laid(w, head, mid, p, u)
                && Laid(w, head, high, After(p, mid), LastUsed(u, mid)))
      && After(base, low + mid + high) == After(After(p, mid), high)
      && LastUsed(true, low + mid + high) == LastUsed(LastUsed(u, mid), high)
      && base <= p <= After(p, mid) <= After(base, low + mid + high)
  {
    LaidConcat(w, head, low + mid, high, base, true);
    LaidConcat(w, head, low, mid, base, true);
    AfterConcat(base, true, low + mid, high);
    AfterConcat(base, true, low, mid);
    AfterConcat(After(base, low), true, mid, []);
    AfterConcat(After(base, low + mid), true, high, []);
  }

  /** The chunks in the middle give way to others that end at the same place. */
  lemma ReplaceMid(w: Words, w': Words, head: nat, low: seq<Chunk>, mid: seq<Chunk>, mid': seq<Chunk>,
                   high: seq<Chunk>, base: nat)
    requires Laid(w, head, low + mid + high, base, true)
    requires After(After(base, low), mid') == After(After(base, low), mid)
    requires SameWords(w, w', base, After(base, low)) && Laid(w', head, mid', After(base, low), LastUsed(true, low))
    requires Laid(w', head, high, After(After(base, low), mid), LastUsed(LastUsed(true, low), mid'))
    ensures Laid(w', head, low + mid' + high, base, true)
    ensures After(base, low + mid' + high) == After(base, low + mid + high)
    ensures high != [] ==> LastUsed(true, low + mid' + high) == LastUsed(true, low + mid + high)
  {
    LaidParts(w, head, low, mid, high, base);
    LaidParts(w', head, low, mid', high, base);
    LaidFrame(w, w', head, low, base, true);
    HighIgnoresBefore(high, LastUsed(LastUsed(true, low), mid), LastUsed(LastUsed(true, low), mid'));
  }

  lemma HighIgnoresBefore(high: seq<Chunk>, a: bool, b: bool)
    ensures high != [] ==> LastUsed(a, high) == LastUsed(b, high)
  {
  }

  lemma SizesParts(w: Words, head: nat, low: seq<Chunk>, mid: seq<Chunk>, high: seq<Chunk>, base: nat, used: bool)
    requires Laid(w, head, low + mid + high, base, true)
    ensures
      var p := After(base, low);
      var a, b, c := Sizes(base, low, used), Sizes(p, mid, used), Sizes(After(p, mid), high, used);
      Sizes(base, low + mid + high, used) == a + b + c && a.Keys !! b.Keys && (a.Keys + b.Keys) !! c.Keys
  {
    LaidConcat(w, head, low + mid, high, base, true);
    SizesConcat(head, w, base, low + mid, high, true, used);
    SizesConcat(head, w, base, low, mid, true, used);
    AfterConcat(base, true, low, mid);
  }

  lemma MapsReplaced(a: map<nat, nat>, b: map<nat, nat>, b': map<nat, nat>, c: map<nat, nat>)
    requires a.Keys !! b.Keys && (a.Keys + b.Keys) !! c.Keys && a.Keys !! b'.Keys && (a.Keys + b'.Keys) !! c.Keys
    ensures a + b' + c == (a + b + c - b.Keys) + b' && b.Keys <= (a + b + c).Keys
  {
  }

  /** The sizes change only by those of the middle. */
  lemma SizesReplaced(w: Words, w': Words, head: nat, low: seq<Chunk>, mid: seq<Chunk>, mid': seq<Chunk>,
                      high: seq<Chunk>, base: nat, used: bool)
    requires Laid(w, head, low + mid + high, base, true) && Laid(w', head, low + mid' + high, base, true)
    requires After(After(base, low), mid') == After(After(base, low), mid)
    ensures
      var p := After(base, low);
      && Sizes(base, low + mid' + high, used) ==
           (Sizes(base, low + mid + high, used) - Sizes(p, mid, used).Keys) + Sizes(p, mid', used)
      && Sizes(p, mid, used).Keys <= Sizes(base, low + mid + high, used).Keys
  {
    SizesParts(w, head, low, mid, high, base, used);
    SizesParts(w', head, low, mid', high, base, used);
    var p := After(base, low);
    MapsReplaced(Sizes(base, low, used), Sizes(p, mid, used), Sizes(p, mid', used),
                 Sizes(After(p, mid), high, used));
  }
}
