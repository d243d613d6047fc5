/** Byte strings and hash functions. A hash function is a parameter of everything that uses one:
    any total table from byte strings to 32-byte strings. Results that need collision resistance ask
    for it only on the finitely many strings they hash, which a real hash function can satisfy. */
module Hashing {
  type Byte = b: int | 0 <= b < 256

  type Bytes = seq<Byte>

  ghost predicate Digests(h: imap<Bytes, Bytes>) {
    && (forall x: Bytes :: x in h)
    && (forall x: Bytes :: x in h ==> |h[x]| == 32)
  }

  type Hash = h: imap<Bytes, Bytes> | Digests(h) ghost witness ConstantHash()

  ghost function ConstantHash(): (h: imap<Bytes, Bytes>)
    ensures Digests(h)
  {
    imap x: Bytes | |x| >= 0 :: Zeros(32)
  }

  function Zeros(n: nat): (z: Bytes)
    ensures |z| == n
  {
    seq(n, _ => 0)
  }

  /** No two of these strings have the same digest. */
  ghost predicate CollisionFree(h: Hash, inputs: set<Bytes>) {
    forall x, y :: x in inputs && y in inputs && h[x] == h[y] ==> x == y
  }

  /** Two concatenations whose right parts have the same length: the parts agree. */
  lemma SplitRight<T>(a: seq<T>, b: seq<T>, c: seq<T>, d: seq<T>)
    requires a + b == c + d && |b| == |d|
    ensures a == c && b == d
  {
    assert (a + b)[..|a|] == a && (a + b)[|a|..] == b;
    assert (c + d)[..|c|] == c && (c + d)[|c|..] == d;
  }
}
