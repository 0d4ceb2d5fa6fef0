/**
 The arithmetic of the boundary-tag heap (kernel/heap_dlmalloc.c, include/target/heap.h):
 request padding, bin numbers, and the comparisons on sizes as their C types make them.
 */
module HeapFormat {
  import opened Arithmetic
  import opened Bits

  /** HEAP_ALIGN_SIZE */
  const ALIGN := 8

  /**
   CONFIG_HEAP_SIZE, HEAP_SIZE_SIZE and HEAP_HEAD_SIZE of a build.  The source casts the head size
   to heap_size_t before it splits a chunk; `signed` stands for the cast to heap_offset_t
   that it makes everywhere else.
   */
  datatype Build = Build(heap: nat, word: nat, head: nat, signed: bool)

  /** The heap size is in the range of kernel/Kconfig, and a power of two as the size mask needs. */
  ghost predicate BuildOk(c: Build) {
    && 0x100 <= c.heap <= 0x2000_0000 && IsPowerOfTwo(c.heap)
    && c.word == (if c.heap > 0xFFFF then 4 else 2)
    && 2 * c.word <= c.head <= 32
  }

  function AlignUp(n: nat): nat {
    (n + ALIGN - 1) / ALIGN * ALIGN
  }

  /** heap_request_pad: offsets are masked with the heap size less one, the size is taken modulo its type. */
  function RequestPad(c: Build, bytes: nat): nat
    requires c.heap > 0
  {
    if And(bytes + c.word + ALIGN - 1, c.heap - 1) < And(c.head + ALIGN - 1, c.heap - 1)
    then AlignUp(c.head)
    else AlignUp(bytes + c.word) % SizeLimit(c)
  }

  /** One more than the largest heap_size_t. */
  function SizeLimit(c: Build): (n: nat)
    ensures n > 0
  {
    if c.word == 2 then 0x1_0000 else 0x1_0000_0000
  }

  /** The check that follows the padding. */
  ghost predicate Refused(c: Build, bytes: nat)
    requires c.heap > 0
  {
    RequestPad(c, bytes) < bytes || RequestPad(c, bytes) > c.heap - c.word
  }

  lemma AlignUpIsLeast(n: nat, m: nat)
    ensures n <= AlignUp(n) < n + ALIGN && AlignUp(n) % ALIGN == 0
    ensures m % ALIGN == 0 && m >= n ==> m >= AlignUp(n)
  {
  }

  lemma SmallMod(x: nat, m: nat)
    requires m > 0
    ensures x < m ==> x % m == x
    ensures m <= x < 2 * m ==> x % m == x - m
  {
    if x < m {
      DivUnique(0, x, m);
    } else if x < 2 * m {
      DivUnique(1, x - m, m);
    }
  }

  /** With a power of two the masked offsets are rests by the heap size. */
  lemma PadByRest(c: Build, bytes: nat)
    requires BuildOk(c)
    ensures RequestPad(c, bytes) ==
              if (bytes + c.word + ALIGN - 1) % c.heap < (c.head + ALIGN - 1) % c.heap then AlignUp(c.head)
              else AlignUp(bytes + c.word) % SizeLimit(c)
  {
    var k: nat :| c.heap == Two(k);
    OnesMask(bytes + c.word + ALIGN - 1, k);
    OnesMask(c.head + ALIGN - 1, k);
  }

  /** A request so large that its offset or its size wraps is refused. */
  lemma PadCases(c: Build, bytes: nat)
    requires BuildOk(c) && bytes < SizeLimit(c) && !Refused(c, bytes)
    ensures RequestPad(c, bytes) == if bytes + c.word < c.head then AlignUp(c.head) else AlignUp(bytes + c.word)
  {
    AlignUpIsLeast(c.head, 0);
    AlignUpIsLeast(bytes + c.word, 0);
    SmallMod(AlignUp(bytes + c.word), SizeLimit(c));
    PadByRest(c, bytes);
    SmallMod(bytes + c.word + ALIGN - 1, c.heap);
    SmallMod(c.head + ALIGN - 1, c.heap);
  }

  /** Every request that is let through gets the least chunk size that holds it. */
  lemma PadIsLeast(c: Build, bytes: nat, m: nat)
    requires BuildOk(c) && bytes < SizeLimit(c) && !Refused(c, bytes)
    ensures
      var nb := RequestPad(c, bytes);
      && nb % ALIGN == 0 && nb >= bytes + c.word && nb >= c.head
      && (m % ALIGN == 0 && m >= bytes + c.word && m >= c.head ==> m >= nb)
  {
    PadCases(c, bytes);
    AlignUpIsLeast(c.head, m);
    AlignUpIsLeast(bytes + c.word, m);
  }

  /** A chunk of size m holds a request. */
  predicate ChunkFor(c: Build, bytes: nat, m: nat) {
    m % ALIGN == 0 && bytes + c.word <= m && c.head <= m
  }

  /** Some chunk that holds the request fits in the heap. */
  ghost predicate Grantable(c: Build, bytes: nat) {
    exists m: nat :: ChunkFor(c, bytes, m) && m + c.word <= c.heap
  }

  /** The check refuses exactly the requests that no heap of this size could grant. */
  lemma RefusedIff(c: Build, bytes: nat)
    requires BuildOk(c) && bytes < SizeLimit(c)
    ensures Refused(c, bytes) <==> !Grantable(c, bytes)
  {
    if !Refused(c, bytes) {
      PadIsLeast(c, bytes, 0);
      assert ChunkFor(c, bytes, RequestPad(c, bytes));
    } else if Grantable(c, bytes) {
      var m: nat :| ChunkFor(c, bytes, m) && m + c.word <= c.heap;
      FittingIsLetThrough(c, bytes, m);
    }
  }

  lemma HeapIsAligned(heap: nat)
    requires IsPowerOfTwo(heap) && heap >= 256
    ensures heap % ALIGN == 0
  {
    var k: nat :| heap == Two(k);
    assert Two(7) == 128;
    if k < 8 {
      TwoMonotone(k, 7);
    } else {
      assert Two(k) == 2 * Two(k - 1) && Two(k - 1) == 2 * Two(k - 2) && Two(k - 2) == 2 * Two(k - 3);
    }
  }

  lemma FittingIsLetThrough(c: Build, bytes: nat, m: nat)
    requires BuildOk(c) && bytes < SizeLimit(c) && ChunkFor(c, bytes, m) && m + c.word <= c.heap
    ensures !Refused(c, bytes)
  {
    HeapIsAligned(c.heap);
    AlignUpIsLeast(c.head, m);
    AlignUpIsLeast(bytes + c.word, m);
    assert m <= c.heap - ALIGN;
    PadByRest(c, bytes);
    SmallMod(bytes + c.word + ALIGN - 1, c.heap);
    SmallMod(c.head + ALIGN - 1, c.heap);
    SmallMod(AlignUp(bytes + c.word), SizeLimit(c));
  }

  /** A build whose heap size need not be a power of two. */
  ghost predicate AnySize(c: Build) {
    && 0x100 <= c.heap <= 0x2000_0000 && c.word == (if c.heap > 0xFFFF then 4 else 2) && 2 * c.word <= c.head <= 32
  }

  /**
   For every heap size: a request that is let through gets a chunk that does not hold it if and only if it is within a
   word of the smallest chunk and its masked offset comes out below that of a header.
   */
  lemma PadsWrongIff(c: Build, bytes: nat)
    requires AnySize(c) && bytes < SizeLimit(c) && !Refused(c, bytes)
    ensures RequestPad(c, bytes) < bytes + c.word <==>
              && AlignUp(c.head) < bytes + c.word && bytes <= AlignUp(c.head)
              && And(bytes + c.word + ALIGN - 1, c.heap - 1) < And(c.head + ALIGN - 1, c.heap - 1)
  {
    AlignUpIsLeast(c.head, 0);
    AlignUpIsLeast(bytes + c.word, 0);
    SmallMod(AlignUp(bytes + c.word), SizeLimit(c));
  }

  /**
   For every heap size: where the masked offset comes out below that of a header, everything larger than the smallest
   chunk is refused, though the heap may have room for it; elsewhere exactly what no such heap could grant.
   */
  lemma RefusesWrongIff(c: Build, bytes: nat)
    requires AnySize(c) && bytes < SizeLimit(c)
    ensures Refused(c, bytes) <==>
              if And(bytes + c.word + ALIGN - 1, c.heap - 1) < And(c.head + ALIGN - 1, c.heap - 1)
              then bytes > AlignUp(c.head) else !Grantable(c, bytes)
  {
    var least := if bytes + c.word < c.head then AlignUp(c.head) else AlignUp(bytes + c.word);
    AlignUpIsLeast(c.head, least);
    AlignUpIsLeast(bytes + c.word, least);
    SmallMod(AlignUp(bytes + c.word), SizeLimit(c));
    assert ChunkFor(c, bytes, least);
    forall m: nat | ChunkFor(c, bytes, m) ensures least <= m {
      AlignUpIsLeast(c.head, m);
      AlignUpIsLeast(bytes + c.word, m);
    }
  }

  /** 23 bytes on a heap of 288: the block handed out has room for 22. */
  lemma OddHeapPadsWrong()
    ensures
      var c := Build(288, 2, 24, false);
      AnySize(c) && !Refused(c, 23) && RequestPad(c, 23) == 24 < 23 + c.word
  {
    MaskOf288();
  }

  lemma MaskOf288()
    ensures And(32, 287) == 0 && And(31, 287) == 31
  {
    FiveOnes(32, 8);
    FiveOnes(31, 8);
    assert And(1, 8) == 0 && And(0, 8) == 0;
  }

  // ----- bins

  /** heap_bin_hash */
  function BinHash(sz: nat): nat {
    if sz / 512 == 0 then sz / 8
    else if sz / 512 <= 4 then sz / 64 + 56
    else if sz / 512 <= 20 then sz / 512 + 91
    else if sz / 512 <= 84 then sz / 4096 + 110
    else if sz / 512 <= 340 then sz / 32768 + 119
    else if sz / 512 <= 1364 then sz / 262144 + 124
    else 126
  }

  /** NR_HEAP_BINS */
  function BinCount(heap: nat): nat {
    (if heap < 512 then heap / 8
     else if heap < 64 * 40 then heap / 64 + 56
     else if heap < 512 * 21 then heap / 512 + 91
     else if heap < 4096 * 10 then heap / 4096 + 110
     else if heap < 32768 * 5 then heap / 32768 + 119
     else if heap < 262144 * 2 then heap / 262144 + 124
     else 126) + 1
  }

  /** Larger chunks never go to lower bins. */
  lemma BinsFollowSizes(a: nat, b: nat)
    requires a <= b
    ensures BinHash(a) <= BinHash(b)
  {
  }

  /** Every chunk of the heap has a bin, whatever the heap size; the bin number fits its 8-bit type. */
  lemma EverySizeHasABin(sz: nat, heap: nat)
    requires sz <= heap
    ensures BinHash(sz) < BinCount(heap) <= 0x100
  {
    BinsFollowSizes(sz, heap);
    assert BinHash(heap) < BinCount(heap);
  }

  /** The bin after the one of an exact request is a bin of the build as well. */
  lemma NextExactBin(c: Build, nb: nat)
    requires BuildOk(c) && nb % ALIGN == 0 && nb <= c.heap - c.word && nb < 504
    ensures nb / 8 + 1 < BinCount(c.heap) && BinHash(nb) == nb / 8 && BinHash(nb + 8) == nb / 8 + 1
  {
    HeapIsAligned(c.heap);
  }

  // ----- the comparisons on what is left of a chunk

  /** The size written for what is left of a chunk, a heap_size_t. */
  function Left(c: Build, victim: nat, nb: nat): nat {
    (victim - nb) % SizeLimit(c)
  }

  /** The head size is compared as a 32-bit unsigned number: 16-bit sizes would be promoted to int. */
  predicate Wide(c: Build) {
    !c.signed && c.heap > 0xFFFF
  }

  /** The test before splitting. */
  predicate RestFits(c: Build, victim: nat, nb: nat) {
    if Wide(c) then Left(c, victim, nb) >= c.head else victim - nb >= c.head
  }

  /** The test where the head size is cast to heap_offset_t. */
  predicate TooBig(c: Build, victim: nat, nb: nat) {
    victim - nb >= c.head
  }

  predicate Fits(victim: nat, nb: nat) {
    victim - nb >= 0
  }

  lemma LeftWraps(c: Build, victim: nat, nb: nat)
    requires BuildOk(c) && victim <= c.heap && nb <= c.heap
    ensures victim >= nb ==> Left(c, victim, nb) == victim - nb
    ensures victim < nb && c.heap > 0xFFFF ==> Left(c, victim, nb) > c.heap
  {
    var d := victim - nb;
    if c.heap > 0xFFFF {
      assert -0x1_0000_0000 < d < 0 ==> d % 0x1_0000_0000 == d + 0x1_0000_0000;
    } else {
      SmallMod(if victim >= nb then d else 0, SizeLimit(c));
    }
  }

  /** In a build of 64 KiB or more, a chunk smaller than the request passes the test before splitting. */
  lemma RestFitsIsExactIff(c: Build, victim: nat, nb: nat)
    requires BuildOk(c) && victim <= c.heap && nb <= c.heap
    ensures RestFits(c, victim, nb) <==> victim >= nb + c.head || (Wide(c) && victim < nb)
    ensures (RestFits(c, victim, nb) <==> victim - nb >= c.head) <==> !Wide(c) || victim >= nb
  {
    LeftWraps(c, victim, nb);
  }
}
