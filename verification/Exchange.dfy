// The block swap of the argument scanner, in place.
module Exchange {

  /** `a` with its blocks [i, j) and [j, k) swapped. */
  function Swapped<T>(a: seq<T>, i: nat, j: nat, k: nat): (s: seq<T>)
    requires i <= j <= k <= |a|
    ensures |s| == |a|
  {
    a[..i] + a[j..k] + a[i..j] + a[k..]
  }

  /** `a` with the equally long blocks at `i` and `j` exchanged. */
  function BlocksSwapped<T>(a: seq<T>, i: nat, j: nat, len: nat): (s: seq<T>)
    requires i + len <= j && j + len <= |a|
    ensures |s| == |a|
  {
    a[..i] + a[j..j + len] + a[i + len..j] + a[i..i + len] + a[j + len..]
  }

  /** Swapping the short lower block with the far end of the upper one leaves a smaller swap to do,
      with the same final result. */
  lemma LowerBlockPlaced<T>(a: seq<T>, i: nat, j: nat, k: nat)
    requires i <= j <= k <= |a|
    requires j - i <= k - j
    ensures Swapped(BlocksSwapped(a, i, k - (j - i), j - i), i, j, k - (j - i)) == Swapped(a, i, j, k)
  {
    var m := k - (j - i);
    var b := BlocksSwapped(a, i, m, j - i);
    assert b[..i] == a[..i];
    assert b[j..m] == a[j..m];
    assert b[i..j] == a[m..k];
    assert b[m..] == a[i..j] + a[k..];
    assert a[..i] + a[j..m] + a[m..k] == a[..i] + a[j..k];
    hide BlocksSwapped;
  }

  /** The same for a short upper block swapped with the near end of the lower one. */
  lemma UpperBlockPlaced<T>(a: seq<T>, i: nat, j: nat, k: nat)
    requires i <= j <= k <= |a|
    requires k - j <= j - i
    ensures Swapped(BlocksSwapped(a, i, j, k - j), i + (k - j), j, k) == Swapped(a, i, j, k)
  {
    var m := i + (k - j);
    var b := BlocksSwapped(a, i, j, k - j);
    assert b[..m] == a[..i] + a[j..k];
    assert b[j..k] == a[i..m];
    assert b[m..j] == a[m..j];
    assert b[k..] == a[k..];
    assert a[i..m] + a[m..j] == a[i..j];
  }

  lemma SwappedEmptyBlock<T>(a: seq<T>, i: nat, j: nat, k: nat)
    requires i <= j <= k <= |a|
    requires i == j || j == k
    ensures Swapped(a, i, j, k) == a
  {
  }

  lemma FivePieces<T>(b: seq<T>, i: nat, j: nat, k: nat, l: nat)
    requires i <= j <= k <= l <= |b|
    ensures b == b[..i] + b[i..j] + b[j..k] + b[k..l] + b[l..]
  {
    assert b[..i] + b[i..j] == b[..j];
    assert b[..j] + b[j..k] == b[..k];
    assert b[..k] + b[k..l] == b[..l];
  }

  lemma BlocksSwappedByElement<T>(a: seq<T>, b: seq<T>, i: nat, j: nat, len: nat)
    requires i + len <= j && j + len <= |a| == |b|
    requires forall m :: i <= m < i + len ==> b[m] == a[m + (j - i)]
    requires forall m :: j <= m < j + len ==> b[m] == a[m - (j - i)]
    requires forall m :: 0 <= m < i || i + len <= m < j || j + len <= m < |a| ==> b[m] == a[m]
    ensures b == BlocksSwapped(a, i, j, len)
  {
    assert b[..i] == a[..i];
    assert b[i..i + len] == a[j..j + len];
    assert b[i + len..j] == a[i + len..j];
    assert b[j..j + len] == a[i..i + len];
    assert b[j + len..] == a[j + len..];
    FivePieces(b, i, i + len, j, j + len);
  }

  /** One pass of an inner loop. */
  method SwapBlocks<T>(a: array<T>, i: nat, j: nat, len: nat)
    requires i + len <= j && j + len <= a.Length
    modifies a
    ensures a[..] == BlocksSwapped(old(a[..]), i, j, len)
  {
    var n := 0;
    while n < len
      invariant 0 <= n <= len
      invariant forall m :: i <= m < i + n ==> a[m] == old(a[m + (j - i)])
      invariant forall m :: j <= m < j + n ==> a[m] == old(a[m - (j - i)])
      invariant forall m :: 0 <= m < i || i + n <= m < j || j + n <= m < a.Length ==> a[m] == old(a[m])
    {
      a[i + n], a[j + n] := a[j + n], a[i + n];
      n := n + 1;
    }
    BlocksSwappedByElement(old(a[..]), a[..], i, j, len);
  }

  /** The lower block is the shorter: it goes to the far end, and a smaller exchange is left below it. */
  method PlaceLower<T>(argv: array<T>, bottom: nat, middle: nat, top: nat)
    requires bottom <= middle <= top <= argv.Length
    requires middle - bottom <= top - middle
    modifies argv
    ensures Swapped(argv[..], bottom, middle, top - (middle - bottom)) == Swapped(old(argv[..]), bottom, middle, top)
  {
    hide Swapped, BlocksSwapped;
    ghost var before := argv[..];
    var len := middle - bottom;
    SwapBlocks(argv, bottom, top - len, len);
    assert argv[..] == BlocksSwapped(before, bottom, top - len, len);
    LowerBlockPlaced(before, bottom, middle, top);
  }

  /** The upper block is not the longer: it goes to the front, and a smaller exchange is left above it. */
  method PlaceUpper<T>(argv: array<T>, bottom: nat, middle: nat, top: nat)
    requires bottom <= middle <= top <= argv.Length
    requires top - middle <= middle - bottom
    modifies argv
    ensures Swapped(argv[..], bottom + (top - middle), middle, top) == Swapped(old(argv[..]), bottom, middle, top)
  {
    hide Swapped, BlocksSwapped;
    UpperBlockPlaced(argv[..], bottom, middle, top);
    SwapBlocks(argv, bottom, middle, top - middle);
  }

  /** Swap the adjacent blocks [first, last) and [last, end) of `argv`, always moving the shorter one
      into its final place. */
  method SwapAdjacent<T>(argv: array<T>, first: nat, last: nat, end: nat)
    requires first <= last <= end <= argv.Length
    modifies argv
    ensures argv[..] == Swapped(old(argv[..]), first, last, end)
  {
    hide Swapped;
    var bottom, middle, top := first, last, end;
    while top > middle && middle > bottom
      invariant 0 <= bottom <= middle <= top <= argv.Length
      invariant Swapped(argv[..], bottom, middle, top) == Swapped(old(argv[..]), first, last, end)
      decreases top - bottom
    {
      if top - middle > middle - bottom {
        PlaceLower(argv, bottom, middle, top);
        top := top - (middle - bottom);
      } else {
        PlaceUpper(argv, bottom, middle, top);
        bottom := bottom + (top - middle);
      }
    }
    SwappedEmptyBlock(argv[..], bottom, middle, top);
  }
}
