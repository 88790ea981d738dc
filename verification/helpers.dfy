/** Batching helper of lib/utils/helpers.ts. */
module Helpers {

  function Min(a: int, b: int): int
  {
    if a <= b then a else b
  }

  /** Concatenation of a sequence of chunks. */
  function Flatten<T>(xss: seq<seq<T>>): seq<T>
  {
    if |xss| == 0 then [] else xss[0] + Flatten(xss[1..])
  }

  /**
   * The chunks pushed by the loop of `chunkArray` from offset `i` on: the
   * slice `[i, i + size)`, clamped to the end, then the chunks from
   * `i + size`. The loop only advances when `size > 0`.
   */
  function ChunkFrom<T>(xs: seq<T>, size: int, i: nat): (chunks: seq<seq<T>>)
    requires size > 0 || i >= |xs|
    ensures i >= |xs| ==> chunks == []
    ensures i < |xs| ==> Flatten(chunks) == xs[i..]
    decreases |xs| - i
  {
    if i >= |xs| then []
    else
      var rest := ChunkFrom(xs, size, i + size);
      assert i + size < |xs| ==> xs[i..] == xs[i .. i + size] + xs[i + size ..];
      [xs[i .. Min(i + size, |xs|)]] + rest
  }

  /** Chunk `k` from offset `i` is the slice starting `k` chunks further on. */
  lemma {:induction false} ChunkFromAt<T>(xs: seq<T>, size: int, i: nat, k: nat)
    requires size > 0 && k < |ChunkFrom(xs, size, i)|
    ensures i + k * size < |xs|
    ensures ChunkFrom(xs, size, i)[k] == xs[i + k * size .. Min(i + (k + 1) * size, |xs|)]
    decreases k
  {
    MulSucc(k, size);
    if k > 0 {
      MulSucc(k - 1, size);
      ChunkFromAt(xs, size, i + size, k - 1);
      assert ChunkFrom(xs, size, i)[k] == ChunkFrom(xs, size, i + size)[k - 1];
    }
  }

  lemma ChunkFromShape<T>(xs: seq<T>, size: int, i: nat)
    requires size > 0
    ensures var chunks := ChunkFrom(xs, size, i);
      forall k :: 0 <= k < |chunks| ==>
        i + k * size < |xs| && chunks[k] == xs[i + k * size .. Min(i + (k + 1) * size, |xs|)]
  {
    forall k | 0 <= k < |ChunkFrom(xs, size, i)|
      ensures i + k * size < |xs| && ChunkFrom(xs, size, i)[k] == xs[i + k * size .. Min(i + (k + 1) * size, |xs|)]
    {
      ChunkFromAt(xs, size, i, k);
    }
  }

  lemma {:induction false} ChunkFromCount<T>(xs: seq<T>, size: int, i: nat)
    requires size > 0 && i < |xs|
    ensures var n := |ChunkFrom(xs, size, i)|;
      (n - 1) * size < |xs| - i <= n * size
    decreases |xs| - i
  {
    if i + size < |xs| {
      ChunkFromCount(xs, size, i + size);
      var m := |ChunkFrom(xs, size, i + size)|;
      assert (m + 1 - 1) * size == m * size;
      assert (m + 1) * size == m * size + size;
      assert (m - 1) * size == m * size - size;
    }
  }

  /**
   * `chunkArray(xs, size)`: consecutive slices of `size` elements, the
   * last one possibly shorter. The loop terminates only when `size > 0`
   * or the input is empty.
   */
  function ChunkArray<T>(xs: seq<T>, size: int): (chunks: seq<seq<T>>)
    requires size > 0 || |xs| == 0
    ensures Flatten(chunks) == xs
    ensures |chunks| == 0 <==> |xs| == 0
    ensures forall k :: 0 <= k < |chunks| ==>
      k * size < |xs| && chunks[k] == xs[k * size .. Min((k + 1) * size, |xs|)]
  {
    if |xs| == 0 then []
    else
      ChunkFromShape(xs, size, 0);
      ChunkFrom(xs, size, 0)
  }

  /** The number of chunks is the ceiling of `|xs| / size`. */
  lemma ChunkArrayCount<T>(xs: seq<T>, size: int)
    requires size > 0
    ensures var n := |ChunkArray(xs, size)|;
      (n - 1) * size < |xs| <= n * size || (|xs| == 0 && n == 0)
    ensures |ChunkArray(xs, size)| == (|xs| + size - 1) / size
  {
    var n := |ChunkArray(xs, size)|;
    if |xs| > 0 {
      ChunkFromCount(xs, size, 0);
      CeilingUnique(|xs|, size, n);
    }
  }

  /** `q` is the ceiling of `m / d` when `(q - 1) * d < m <= q * d`. */
  lemma CeilingUnique(m: nat, d: int, q: int)
    requires d > 0 && (q - 1) * d < m <= q * d
    ensures q == (m + d - 1) / d
  {
    assert q * d == (q - 1) * d + d;
    assert (q + 1) * d == q * d + d;
    FloorUnique(m + d - 1, d, q);
  }

  /**
   * Every chunk is non-empty and at most `size` long, and every chunk but
   * the last is exactly `size` long.
   */
  lemma ChunkArrayShape<T>(xs: seq<T>, size: int)
    requires size > 0
    ensures var chunks := ChunkArray(xs, size);
      forall k :: 0 <= k < |chunks| ==> 0 < |chunks[k]| <= size
    ensures var chunks := ChunkArray(xs, size);
      forall k :: 0 <= k < |chunks| - 1 ==> |chunks[k]| == size
  {
    var chunks := ChunkArray(xs, size);
    forall k | 0 <= k < |chunks|
      ensures 0 < |chunks[k]| <= size
      ensures k < |chunks| - 1 ==> |chunks[k]| == size
    {
      assert (k + 1) * size == k * size + size;
      if k < |chunks| - 1 {
        assert (k + 1) * size < |xs|;
      }
    }
  }

  lemma MulSucc(k: int, d: int)
    ensures (k + 1) * d == k * d + d
  {
  }

  lemma MulNonNegative(x: int, d: int)
    requires d > 0 && x >= 0
    ensures x * d >= 0
  {
  }

  /** The multiple of `d` at or just below `i`. */
  lemma FloorBelow(i: int, d: int)
    requires d > 0 && i >= 0
    ensures 0 <= (i / d) * d <= i < (i / d) * d + d
  {
    assert i == (i / d) * d + i % d;
    MulNonNegative(i / d, d);
  }

  /** `k` is the floor of `i / d` when `k * d <= i < (k + 1) * d`. */
  lemma FloorUnique(i: int, d: int, k: int)
    requires d > 0 && k * d <= i < (k + 1) * d
    ensures k == i / d
  {
    var c := i / d;
    var r := i % d;
    assert i == c * d + r && 0 <= r < d;
    assert (c - k - 1) * d == c * d - k * d - d;
    assert (k - c - 1) * d == k * d - c * d - d;
    if c - k - 1 >= 0 { MulNonNegative(c - k - 1, d); }
    if k - c - 1 >= 0 { MulNonNegative(k - c - 1, d); }
  }

  /** The quotient of `0 <= i < n * d` by `d` is a chunk index below `n`. */
  lemma QuotientInRange(i: int, d: int, n: int)
    requires d > 0 && 0 <= i < n * d
    ensures 0 <= i / d < n
    ensures (i / d) * d <= i < (i / d) * d + d
  {
    var k := i / d;
    assert i == k * d + i % d;
    assert (k + 1) * d == k * d + d;
    if -k - 1 >= 0 { MulNonNegative(-k - 1, d); }
    assert (k - n) * d == k * d - n * d;
    if k - n >= 0 { MulNonNegative(k - n, d); }
  }

  /**
   * Position `i` of the input is position `i - k * size` of chunk
   * `k = i / size`: the chunks cover the input.
   */
  lemma ChunkOfIndex<T>(xs: seq<T>, size: int, i: int)
    requires size > 0 && 0 <= i < |xs|
    ensures var chunks := ChunkArray(xs, size); var k := i / size;
      0 <= k < |chunks| && k * size <= i < k * size + |chunks[k]| && chunks[k][i - k * size] == xs[i]
  {
    var chunks := ChunkArray(xs, size);
    ChunkArrayCount(xs, size);
    QuotientInRange(i, size, |chunks|);
    var k := i / size;
    MulSucc(k, size);
    assert chunks[k] == xs[k * size .. Min((k + 1) * size, |xs|)];
  }

  /** No other chunk covers position `i`: the chunks' index ranges are disjoint. */
  lemma ChunkIndexUnique<T>(xs: seq<T>, size: int, i: int)
    requires size > 0 && 0 <= i < |xs|
    ensures var chunks := ChunkArray(xs, size);
      forall k :: 0 <= k < |chunks| && k * size <= i < k * size + |chunks[k]| ==> k == i / size
  {
    var chunks := ChunkArray(xs, size);
    ChunkArrayShape(xs, size);
    forall k | 0 <= k < |chunks| && k * size <= i < k * size + |chunks[k]|
      ensures k == i / size
    {
      MulSucc(k, size);
      FloorUnique(i, size, k);
    }
  }
}
