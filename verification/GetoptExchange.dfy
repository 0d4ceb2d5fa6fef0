/** The block exchange of getopt's argument permutation (lib/getopt.c). */
module GetoptExchange {

  /** Where the element at k comes from when the segments [b, m) and [m, t) are exchanged. */
  function Origin(b: nat, m: nat, t: nat, k: nat): int {
    if b <= k < b + (t - m) then k - b + m else if b + (t - m) <= k < t then k - (t - m) else k
  }

  function Exchanged<T>(s: seq<T>, b: nat, m: nat, t: nat): (r: seq<T>)
    requires b <= m <= t <= |s|
    ensures |r| == |s|
  {
    seq(|s|, k requires 0 <= k < |s| => s[Origin(b, m, t, k)])
  }

  /** The two segments are in the other order, each as it was, and everything else is in place. */
  lemma ExchangedIsRotation<T>(s: seq<T>, b: nat, m: nat, t: nat)
    requires b <= m <= t <= |s|
    ensures Exchanged(s, b, m, t) == s[..b] + s[m..t] + s[b..m] + s[t..]
  {
    var r := s[..b] + s[m..t] + s[b..m] + s[t..];
    forall k | 0 <= k < |s| ensures r[k] == s[Origin(b, m, t, k)] {
    }
  }

  /** Exchanging back restores the arguments. */
  lemma ExchangeBack<T>(s: seq<T>, b: nat, m: nat, t: nat)
    requires b <= m <= t <= |s|
    ensures Exchanged(Exchanged(s, b, m, t), b, b + (t - m), t) == s
  {
  }

  /** Where the element at k comes from when the first len of the elements at p and at q are swapped. */
  function Source(p: nat, q: nat, len: nat, k: nat): int {
    if p <= k < p + len then k - p + q else if q <= k < q + len then k - q + p else k
  }

  function Swapped<T>(s: seq<T>, p: nat, q: nat, len: nat): (r: seq<T>)
    requires p + len <= q && q + len <= |s|
    ensures |r| == |s|
  {
    seq(|s|, k requires 0 <= k < |s| => s[Source(p, q, len, k)])
  }

  /** With the lower segment the shorter, swapping it to the top leaves the exchange of the rest. */
  lemma SwapLower<T>(s: seq<T>, b: nat, m: nat, t: nat, len: nat)
    requires b <= m <= t <= |s| && t - m > m - b == len
    ensures Exchanged(Swapped(s, b, t - len, len), b, m, t - len) == Exchanged(s, b, m, t)
  {
  }

  /** With the upper segment not longer, swapping it to the bottom leaves the exchange of the rest. */
  lemma SwapUpper<T>(s: seq<T>, b: nat, m: nat, t: nat, len: nat)
    requires b <= m <= t <= |s| && len == t - m <= m - b
    ensures Exchanged(Swapped(s, b, m, len), b + len, m, t) == Exchanged(s, b, m, t)
  {
  }

  method SwapBlocks<T>(a: array<T>, p: nat, q: nat, len: nat)
    requires p + len <= q && q + len <= a.Length
    modifies a
    ensures a[..] == Swapped(old(a[..]), p, q, len)
  {
    ghost var s := a[..];
    var i := 0;
    while i < len
      invariant i <= len
      invariant forall k :: 0 <= k < a.Length ==> 0 <= Source(p, q, i, k) < a.Length && a[k] == s[Source(p, q, i, k)]
    {
      a[p + i], a[q + i] := a[q + i], a[p + i];
      i := i + 1;
    }
    assert a[..] == Swapped(s, p, q, len);
  }

  lemma NothingLeft<T>(s: seq<T>, b: nat, m: nat, t: nat)
    requires b <= m <= t <= |s| && (m == b || t == m)
    ensures Exchanged(s, b, m, t) == s
  {
  }

  /** The shorter lower segment is swapped with the end of the upper one. */
  method LowerTurn<T>(a: array<T>, bottom: nat, middle: nat, top: nat) returns (top': nat)
    requires bottom < middle < top <= a.Length && top - middle > middle - bottom
    modifies a
    ensures top' == top - (middle - bottom)
    ensures Exchanged(a[..], bottom, middle, top') == Exchanged(old(a[..]), bottom, middle, top)
  {
    ghost var s := a[..];
    var len := middle - bottom;
    top' := top - len;
    SwapBlocks(a, bottom, top', len);
    SwapLower(s, bottom, middle, top, len);
  }

  /** The upper segment, when not longer, is swapped with the start of the lower one. */
  method UpperTurn<T>(a: array<T>, bottom: nat, middle: nat, top: nat) returns (bottom': nat)
    requires bottom < middle < top <= a.Length && top - middle <= middle - bottom
    modifies a
    ensures bottom' == bottom + (top - middle)
    ensures Exchanged(a[..], bottom', middle, top) == Exchanged(old(a[..]), bottom, middle, top)
  {
    ghost var s := a[..];
    var len := top - middle;
    bottom' := bottom + len;
    SwapBlocks(a, bottom, middle, len);
    SwapUpper(s, bottom, middle, top, len);
  }

  /** The loop of exchange. */
  method ExchangeSegments<T>(a: array<T>, first: nat, last: nat, optind: nat)
    requires first <= last <= optind <= a.Length
    modifies a
    ensures a[..] == Exchanged(old(a[..]), first, last, optind)
  {
    var bottom: nat, middle: nat, top: nat := first, last, optind;
    while top > middle && middle > bottom
      invariant bottom <= middle <= top <= a.Length
      invariant Exchanged(a[..], bottom, middle, top) == Exchanged(old(a[..]), first, last, optind)
      decreases top - bottom
    {
      if top - middle > middle - bottom {
        top := LowerTurn(a, bottom, middle, top);
      } else {
        bottom := UpperTurn(a, bottom, middle, top);
      }
    }
    NothingLeft(a[..], bottom, middle, top);
  }

  /** getopt's record of the non-options seen so far: they lie in [first, last), before optind. */
  class Options<T> {
    const argv: array<T>
    var first: nat
    var last: nat
    var optind: nat

    ghost predicate Valid()
      reads this
    {
      first <= last <= optind <= argv.Length
    }

    constructor (argv: array<T>)
      ensures Valid() && this.argv == argv && first == last == optind == 0
    {
      this.argv := argv;
      first, last, optind := 0, 0, 0;
    }

    /** exchange: the options come before the non-options, each kind in its order. */
    method Exchange()
      requires Valid()
      modifies this, argv
      ensures Valid() && optind == old(optind) && first == old(first + (optind - last)) && last == optind
      ensures argv[..] == Exchanged(old(argv[..]), old(first), old(last), old(optind))
    {
      ExchangeSegments(argv, first, last, optind);
      first := first + (optind - last);
      last := optind;
    }
  }
}
