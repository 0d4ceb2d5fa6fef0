/**
 The valid bitmap of the SMMUv3 command queue and the loop that sets and polls it
 a word at a time (drivers/iommu/arm_smmuv3.c).  The map is kept as its bits; an
 atomic xor with GENMASK(h, l) of a word flips bits l..h of that word.
 */
module ValidMap {
  import opened QueuePointers

  const BITS_PER_LONG: nat := 64

  /** A ring of whole words, as the probe enforces. */
  predicate RingSize(size: nat) {
    size > 0 && size % BITS_PER_LONG == 0
  }

  /** How far slot i lies ahead of position s on the ring. */
  function Offset(size: nat, s: nat, i: nat): (d: nat)
    requires size > 0 && i < size
    ensures d < size
  {
    if i >= s % size then i - s % size else i + size - s % size
  }

  /** The slots of the positions [s, e), flipped. */
  function Flip(bits: seq<bool>, s: nat, e: nat): (r: seq<bool>)
    requires |bits| > 0
    ensures |r| == |bits|
  {
    seq(|bits|, i requires 0 <= i < |bits| => if Offset(|bits|, s, i) < e - s then !bits[i] else bits[i])
  }

  /** The valid bit of a position is the inverse of its wrap bit. */
  predicate Polarity(size: nat, x: nat)
    requires size > 0
  {
    !Wrp(size, x)
  }

  ghost predicate AllValid(bits: seq<bool>, s: nat, e: nat)
    requires |bits| > 0
  {
    forall x: nat {:trigger Polarity(|bits|, x)} :: s <= x < e ==> bits[x % |bits|] == Polarity(|bits|, x)
  }

  // ----- positions and slots

  lemma OffsetOfPosition(size: nat, s: nat, x: nat)
    requires size > 0 && s <= x < s + size
    ensures Offset(size, s, x % size) == x - s
  {
    Advance(size, s, x - s);
  }

  lemma PositionOfOffset(size: nat, s: nat, i: nat)
    requires size > 0 && i < size
    ensures (s + Offset(size, s, i)) % size == i
  {
    Advance(size, s, Offset(size, s, i));
  }

  /** A slot flips exactly when one of the positions falls on it. */
  lemma FlipAt(bits: seq<bool>, s: nat, e: nat, x: nat)
    requires |bits| > 0 && s <= e <= s + |bits| && s <= x < s + |bits|
    ensures Flip(bits, s, e)[x % |bits|] == if x < e then !bits[x % |bits|] else bits[x % |bits|]
  {
    OffsetOfPosition(|bits|, s, x);
  }

  lemma FlipSplits(bits: seq<bool>, s: nat, m: nat, e: nat)
    requires |bits| > 0 && s <= m <= e <= s + |bits|
    ensures Flip(Flip(bits, s, m), m, e) == Flip(bits, s, e)
  {
    var size := |bits|;
    forall i | 0 <= i < size ensures Flip(Flip(bits, s, m), m, e)[i] == Flip(bits, s, e)[i] {
      var x := s + Offset(size, s, i);
      PositionOfOffset(size, s, i);
      if m <= x {
        OffsetOfPosition(size, m, x);
      } else {
        Advance(size, x, size);
        assert (x + size) % size == x % size == i;
        OffsetOfPosition(size, m, x + size);
      }
    }
  }

  // ----- one turn of the loop

  /** Up to where the turn at pointer `prod` goes within its word. */
  function Limit(size: nat, prod: nat, eprod: nat): nat
    requires RingSize(size)
  {
    var sidx, eidx := Idx(size, prod), Idx(size, eprod);
    if sidx / BITS_PER_LONG == eidx / BITS_PER_LONG && sidx % BITS_PER_LONG < eidx % BITS_PER_LONG
    then eidx % BITS_PER_LONG else BITS_PER_LONG
  }

  /** The position after the turn at p: the end of the range or of the word, whichever comes first. */
  function TurnEnd(size: nat, p: nat, e: nat): nat
    requires RingSize(size)
  {
    var rest := BITS_PER_LONG - p % size % BITS_PER_LONG;
    if e - p < rest then e else p + rest
  }

  lemma WordOfSum(a: nat, r: nat)
    requires r < BITS_PER_LONG
    ensures (a * BITS_PER_LONG + r) / BITS_PER_LONG == a && (a * BITS_PER_LONG + r) % BITS_PER_LONG == r
  {
  }

  lemma LimitIsTurnEnd(size: nat, p: nat, e: nat)
    requires RingSize(size) && p < e <= p + size
    ensures
      var prod, eprod := Word(size, p), Word(size, e);
      p + Limit(size, prod, eprod) - Idx(size, prod) % BITS_PER_LONG == TurnEnd(size, p, e)
    ensures p < TurnEnd(size, p, e) <= e
  {
    WordFields(size, p);
    WordFields(size, e);
    Advance(size, p, e - p);
    var i := p % size;
    var w, b := i / BITS_PER_LONG, i % BITS_PER_LONG;
    var words := size / BITS_PER_LONG;
    assert size == words * BITS_PER_LONG && i == w * BITS_PER_LONG + b && w < words;
    if i + (e - p) < size {
      if b + (e - p) < BITS_PER_LONG {
        WordOfSum(w, b + (e - p));
      }
    }
  }

  /** A turn stays inside the ring, so all its positions share the wrap bit of its first. */
  lemma TurnInsideRing(size: nat, p: nat, e: nat, x: nat)
    requires RingSize(size) && p <= x < TurnEnd(size, p, e) && p < e
    ensures x % size == p % size + (x - p)
    ensures Wrp(size, x) == Wrp(size, p)
    ensures x % size / BITS_PER_LONG == p % size / BITS_PER_LONG
  {
    var i := p % size;
    var w, b := i / BITS_PER_LONG, i % BITS_PER_LONG;
    var words := size / BITS_PER_LONG;
    assert size == words * BITS_PER_LONG && i == w * BITS_PER_LONG + b && w < words;
    assert i + (x - p) == w * BITS_PER_LONG + (b + (x - p)) && b + (x - p) < BITS_PER_LONG;
    assert (w + 1) * BITS_PER_LONG <= words * BITS_PER_LONG;
    WordOfSum(w, b + (x - p));
    Advance(size, p, x - p);
  }

  // ----- the loop

  /** Flipping bits [lo, hi) of one word, when they are the slots of a turn, flips the turn's positions. */
  lemma TurnIsFlip(before: seq<bool>, after: seq<bool>, p: nat, e: nat)
    requires RingSize(|before|) && |after| == |before| && p < e <= p + |before|
    requires
      var lo, n := p % |before|, TurnEnd(|before|, p, e) - p;
      forall i :: 0 <= i < |before| ==> after[i] == if lo <= i < lo + n then !before[i] else before[i]
    ensures after == Flip(before, p, TurnEnd(|before|, p, e))
  {
    var size := |before|;
    var p' := TurnEnd(size, p, e);
    LimitIsTurnEnd(size, p, e);
    TurnInsideRing(size, p, e, p' - 1);
    assert p % size + (p' - p) <= size;
  }

  /** Marks [s, e) as valid: one atomic xor per word. */
  method SetValidMap(bits: array<bool>, sprod: nat, eprod: nat, ghost s: nat, ghost e: nat)
    requires RingSize(bits.Length) && s <= e <= s + bits.Length
    requires sprod == Word(bits.Length, s) && eprod == Word(bits.Length, e)
    modifies bits
    ensures bits[..] == Flip(old(bits[..]), s, e)
  {
    var size := bits.Length;
    ghost var start := bits[..];
    var prod := sprod;
    ghost var p := s;
    assert bits[..] == Flip(start, s, s);
    while prod != eprod
      invariant s <= p <= e && prod == Word(size, p)
      invariant bits[..] == Flip(start, s, p)
      decreases e - p
    {
      ghost var before := bits[..];
      LimitIsTurnEnd(size, p, e);
      WordFields(size, p);
      var word := Idx(size, prod) / BITS_PER_LONG;
      var lo := Idx(size, prod) % BITS_PER_LONG;
      var hi := Limit(size, prod, eprod);
      TurnInsideRing(size, p, e, TurnEnd(size, p, e) - 1);
      forall i | lo <= i < hi {
        bits[word * BITS_PER_LONG + i] := !bits[word * BITS_PER_LONG + i];
      }
      assert forall i :: 0 <= i < size ==>
               bits[i] == if word * BITS_PER_LONG + lo <= i < word * BITS_PER_LONG + hi then !before[i]
                          else before[i] by {
        forall i | 0 <= i < size
          ensures bits[i] == if word * BITS_PER_LONG + lo <= i < word * BITS_PER_LONG + hi then !before[i]
                             else before[i]
        {
          var j := i - word * BITS_PER_LONG;
          assert i == word * BITS_PER_LONG + j;
        }
      }
      TurnIsFlip(before, bits[..], p, e);
      FlipSplits(start, s, p, TurnEnd(size, p, e));
      IncIsExact(size, p, hi - lo);
      prod := Inc(size, prod, hi - lo);
      p := TurnEnd(size, p, e);
    }
    WordsEqualIffPositions(size, p, e);
  }

  /** The word test of the poll: the masked bits all equal the inverse of the wrap bit. */
  predicate WordValid(bits: seq<bool>, lo: nat, hi: nat, wrapped: bool)
    requires hi <= |bits|
  {
    forall i :: lo <= i < hi ==> bits[i] == !wrapped
  }

  lemma WordValidIsTurnValid(bits: seq<bool>, p: nat, e: nat)
    requires RingSize(|bits|) && p < e <= p + |bits|
    requires p % |bits| + TurnEnd(|bits|, p, e) - p <= |bits|
    ensures
      WordValid(bits, p % |bits|, p % |bits| + TurnEnd(|bits|, p, e) - p, Wrp(|bits|, p)) <==>
      AllValid(bits, p, TurnEnd(|bits|, p, e))
  {
    var size, p' := |bits|, TurnEnd(|bits|, p, e);
    forall x: nat | p <= x < p' ensures x % size == p % size + (x - p) && Polarity(size, x) == !Wrp(size, p) {
      TurnInsideRing(size, p, e, x);
    }
    if AllValid(bits, p, p') {
      forall i | p % size <= i < p % size + p' - p ensures bits[i] == !Wrp(size, p) {
        var x := p + (i - p % size);
        assert x % size == i && Polarity(size, x) == !Wrp(size, p);
      }
    }
  }

  /** Polls [s, e): true exactly when every slot carries the mark of its own lap. */
  method PollValidMap(bits: array<bool>, sprod: nat, eprod: nat, ghost s: nat, ghost e: nat) returns (valid: bool)
    requires RingSize(bits.Length) && s <= e <= s + bits.Length
    requires sprod == Word(bits.Length, s) && eprod == Word(bits.Length, e)
    ensures valid <==> AllValid(bits[..], s, e)
  {
    var size := bits.Length;
    var prod := sprod;
    ghost var p := s;
    while prod != eprod
      invariant s <= p <= e && prod == Word(size, p)
      invariant AllValid(bits[..], s, p)
      decreases e - p
    {
      LimitIsTurnEnd(size, p, e);
      WordFields(size, p);
      var lo := Idx(size, prod);
      var n := Limit(size, prod, eprod) - Idx(size, prod) % BITS_PER_LONG;
      TurnInsideRing(size, p, e, TurnEnd(size, p, e) - 1);
      WordValidIsTurnValid(bits[..], p, e);
      if !WordValid(bits[..], lo, lo + n, Wrp(size, prod)) {
        return false;
      }
      IncIsExact(size, p, n);
      prod := Inc(size, prod, n);
      p := TurnEnd(size, p, e);
    }
    WordsEqualIffPositions(size, p, e);
    return true;
  }

  /** After any number of laps: marking a range makes exactly it valid, if it was marked in the lap before. */
  lemma MarkedOncePerLap(bits: seq<bool>, s: nat, e: nat, x: nat)
    requires |bits| > 0 && |bits| <= s <= e <= s + |bits| && s <= x < e
    requires bits[x % |bits|] == Polarity(|bits|, x - |bits|)
    ensures bits[x % |bits|] != Polarity(|bits|, x)
    ensures Flip(bits, s, e)[x % |bits|] == Polarity(|bits|, x)
  {
    Advance(|bits|, x - |bits|, |bits|);
    FlipAt(bits, s, e, x);
  }
}
