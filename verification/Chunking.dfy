/** A list cut into consecutive chunks of k, as the relay pool and the batch receiver do. */
module Chunking {
  import opened Radix
  import opened Wrappers

  lemma DivBounds(n: nat, k: nat)
    requires k > 0
    ensures n / k * k <= n < n / k * k + k
  {
  }

  /** How many chunks of k cover n. */
  function ChunkCount(n: nat, k: nat): (c: nat)
    requires k > 0
    ensures n <= c * k < n + k
  {
    DivBounds(n + k - 1, k);
    (n + k - 1) / k
  }

  lemma Starts(n: nat, k: nat, i: nat)
    requires k > 0 && i < ChunkCount(n, k)
    ensures i * k < n
  {
    MulMono(i + 1, ChunkCount(n, k), k);
    assert (i + 1) * k == i * k + k;
  }

  function Chunks<T>(xs: seq<T>, k: nat): (r: seq<seq<T>>)
    requires k > 0
    ensures |r| == ChunkCount(|xs|, k)
  {
    seq(ChunkCount(|xs|, k), i requires 0 <= i < ChunkCount(|xs|, k) =>
      Starts(|xs|, k, i); xs[i * k..Min(i * k + k, |xs|)])
  }

  function Flatten<T>(xs: seq<seq<T>>): seq<T> {
    if xs == [] then [] else Flatten(xs[..|xs| - 1]) + xs[|xs| - 1]
  }

  lemma FlattenSnoc<T>(xs: seq<seq<T>>, x: seq<T>)
    ensures Flatten(xs + [x]) == Flatten(xs) + x
  {
    assert (xs + [x])[..|xs|] == xs;
  }

  lemma {:induction false} FlattenChunks<T>(xs: seq<T>, k: nat, i: nat)
    requires k > 0 && i <= ChunkCount(|xs|, k)
    ensures 0 <= i * k && Flatten(Chunks(xs, k)[..i]) == xs[..Min(i * k, |xs|)]
  {
    var chunks := Chunks(xs, k);
    if i != 0 {
      FlattenChunks(xs, k, i - 1);
      Starts(|xs|, k, i - 1);
      var lo, hi := (i - 1) * k, Min(i * k, |xs|);
      assert i * k == lo + k;
      assert chunks[i - 1] == xs[lo..hi];
      FlattenSnoc(chunks[..i - 1], chunks[i - 1]);
      assert chunks[..i] == chunks[..i - 1] + [chunks[i - 1]];
      assert xs[..hi] == xs[..lo] + xs[lo..hi];
    }
  }

  lemma AllChunks<T>(xs: seq<T>, k: nat)
    requires k > 0
    ensures Flatten(Chunks(xs, k)) == xs
  {
    var c := ChunkCount(|xs|, k);
    FlattenChunks(xs, k, c);
    assert Chunks(xs, k)[..c] == Chunks(xs, k);
    assert xs[..Min(c * k, |xs|)] == xs;
  }

  lemma ChunkLength<T>(xs: seq<T>, k: nat, i: nat)
    requires k > 0 && i < |Chunks(xs, k)|
    ensures 0 < |Chunks(xs, k)[i]| <= k
  {
    Starts(|xs|, k, i);
  }

  /** The chunks concatenate back to the list, and none is empty or longer than k. */
  lemma ChunksPartition<T>(xs: seq<T>, k: nat)
    requires k > 0
    ensures Flatten(Chunks(xs, k)) == xs
    ensures forall i :: 0 <= i < |Chunks(xs, k)| ==> 0 < |Chunks(xs, k)[i]| <= k
  {
    AllChunks(xs, k);
    forall i | 0 <= i < |Chunks(xs, k)| ensures 0 < |Chunks(xs, k)[i]| <= k {
      ChunkLength(xs, k, i);
    }
  }

  /** Element j is in chunk j / k. */
  lemma ChunkOf<T>(xs: seq<T>, k: nat, j: nat)
    requires k > 0 && j < |xs|
    ensures j / k < |Chunks(xs, k)| && xs[j] in Chunks(xs, k)[j / k]
  {
    var i := j / k;
    DivBounds(j, k);
    if i >= ChunkCount(|xs|, k) {
      MulMono(ChunkCount(|xs|, k), i, k);
    }
    Starts(|xs|, k, i);
    assert Chunks(xs, k)[i][j - i * k] == xs[j];
  }

  lemma SameQuotient(i: nat, l: nat, q: nat, r: nat, k: nat)
    requires l < k && r < k && i * k + l == q * k + r
    ensures i == q
  {
    assert (q + 1) * k == q * k + k && (i + 1) * k == i * k + k;
    if q < i {
      MulMono(q + 1, i, k);
    } else if q > i {
      MulMono(i + 1, q, k);
    }
  }

  lemma ChunkAt<T>(xs: seq<T>, k: nat, i: nat, l: nat)
    requires k > 0 && i < |Chunks(xs, k)| && l < |Chunks(xs, k)[i]|
    ensures l < k && i * k + l < |xs| && Chunks(xs, k)[i][l] == xs[i * k + l]
  {
    Starts(|xs|, k, i);
  }
}
