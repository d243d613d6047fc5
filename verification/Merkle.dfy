/** SSZ Merkleization (devnet/light-client/pubkeys_hash.py) and the generalized-index branch fold
    that checks a sync committee against a state root (devnet/light-client/verify_pubkeys_hash.py). */
module Merkle {
  import opened Radix
  import opened Hashing

  const ZERO_CHUNK: Bytes := Zeros(32)

  predicate Chunks(cs: seq<Bytes>) {
    forall i :: 0 <= i < |cs| ==> |cs[i]| == 32
  }

  // ----- the recursive tree

  datatype Tree = Leaf(chunk: Bytes) | Fork(left: Tree, right: Tree)

  function Root(h: Hash, t: Tree): Bytes {
    match t
    case Leaf(chunk) => chunk
    case Fork(l, r) => h[Root(h, l) + Root(h, r)]
  }

  /** All leaves of the tree are 32-byte chunks at depth d. */
  predicate Perfect(t: Tree, d: nat) {
    match t
    case Leaf(chunk) => d == 0 && |chunk| == 32
    case Fork(l, r) => d > 0 && Perfect(l, d - 1) && Perfect(r, d - 1)
  }

  lemma {:induction false} RootLength(h: Hash, t: Tree, d: nat)
    requires Perfect(t, d)
    ensures |Root(h, t)| == 32
  {
    if t.Leaf? {}
  }

  /** The perfect tree over the 2^d leaves from position `at` on. */
  function Build(leaves: seq<Bytes>, d: nat, at: nat): Tree
    requires at + Pow2(d) <= |leaves|
  {
    if d == 0 then Leaf(leaves[at]) else Fork(Build(leaves, d - 1, at), Build(leaves, d - 1, at + Pow2(d - 1)))
  }

  lemma {:induction false} BuildPerfect(leaves: seq<Bytes>, d: nat, at: nat)
    requires at + Pow2(d) <= |leaves| && Chunks(leaves)
    ensures Perfect(Build(leaves, d, at), d)
    decreases d
  {
    if d > 0 {
      BuildPerfect(leaves, d - 1, at);
      BuildPerfect(leaves, d - 1, at + Pow2(d - 1));
    }
  }

  /** The least depth, from d on, whose width holds n leaves. */
  function DepthFrom(n: nat, d: nat): (r: nat)
    requires d == 0 || Pow2(d - 1) < n
    ensures r >= d && n <= Pow2(r) && (r == 0 || Pow2(r - 1) < n)
    decreases n - Pow2(d)
  {
    if n <= Pow2(d) then d else DepthFrom(n, d + 1)
  }

  function Depth(n: nat): (r: nat)
    ensures n <= Pow2(r) && (r == 0 || Pow2(r - 1) < n)
  {
    DepthFrom(n, 0)
  }

  lemma {:induction false} Pow2Mono(a: nat, b: nat)
    requires a <= b
    ensures Pow2(a) <= Pow2(b)
    decreases b
  {
    if a < b {
      Pow2Mono(a, b - 1);
    }
  }

  lemma DepthUnique(n: nat, r: nat)
    requires n <= Pow2(r) && (r == 0 || Pow2(r - 1) < n)
    ensures Depth(n) == r
  {
    if Depth(n) < r {
      Pow2Mono(Depth(n), r - 1);
    } else if Depth(n) > r {
      Pow2Mono(r, Depth(n) - 1);
    }
  }

  function Padded(chunks: seq<Bytes>, n: nat): (r: seq<Bytes>)
    requires |chunks| <= n
    ensures |r| == n
  {
    chunks + seq(n - |chunks|, _ => ZERO_CHUNK)
  }

  /** The tree over the chunks, padded with zero chunks to the least power of two. */
  function MerkleTree(chunks: seq<Bytes>): Tree {
    Build(Padded(chunks, Pow2(Depth(|chunks|))), Depth(|chunks|), 0)
  }

  /** The Merkle root of a list of chunks. */
  function MerkleRoot(h: Hash, chunks: seq<Bytes>): Bytes {
    Root(h, MerkleTree(chunks))
  }

  // ----- the layer-by-layer builder

  /** One layer up: neighbours hashed together. */
  function NextLayer(h: Hash, layer: seq<Bytes>): (r: seq<Bytes>)
    requires |layer| % 2 == 0
    ensures |r| == |layer| / 2
    ensures forall i :: 0 <= i < |r| ==> r[i] == h[layer[2 * i] + layer[2 * i + 1]]
  {
    seq(|layer| / 2, i requires 0 <= i < |layer| / 2 => h[layer[2 * i] + layer[2 * i + 1]])
  }

  lemma {:induction false} LayerKeepsRoots(h: Hash, layer: seq<Bytes>, d: nat, at: nat)
    requires |layer| % 2 == 0 && 2 * at + Pow2(d + 1) <= |layer|
    ensures Root(h, Build(NextLayer(h, layer), d, at)) == Root(h, Build(layer, d + 1, 2 * at))
    decreases d
  {
    if d == 0 {
      assert Build(layer, 0, 2 * at) == Leaf(layer[2 * at]) && Build(layer, 0, 2 * at + 1) == Leaf(layer[2 * at + 1]);
    } else {
      LayerKeepsRoots(h, layer, d - 1, at);
      LayerKeepsRoots(h, layer, d - 1, at + Pow2(d - 1));
    }
  }

  method Merkleize(h: Hash, chunks: seq<Bytes>) returns (root: Bytes)
    ensures root == MerkleRoot(h, chunks)
  {
    if |chunks| == 0 {
      assert Padded(chunks, 1) == [ZERO_CHUNK];
      return ZERO_CHUNK;
    }
    var width := 1;
    ghost var d: nat := 0;
    while width < |chunks|
      invariant width == Pow2(d) && (d == 0 || Pow2(d - 1) < |chunks|)
      decreases |chunks| - width
    {
      width, d := width * 2, d + 1;
    }
    DepthUnique(|chunks|, d);
    root := Collapse(h, Padded(chunks, width), d);
  }

  /** The second loop: hash layers until one node is left. */
  method Collapse(h: Hash, leaves: seq<Bytes>, ghost depth: nat) returns (root: Bytes)
    requires |leaves| == Pow2(depth)
    ensures root == Root(h, Build(leaves, depth, 0))
  {
    var layer := leaves;
    ghost var d: nat := depth;
    while |layer| > 1
      invariant |layer| == Pow2(d) && Root(h, Build(layer, d, 0)) == Root(h, Build(leaves, depth, 0))
      decreases d
    {
      LayerKeepsRoots(h, layer, d - 1, 0);
      layer, d := NextLayer(h, layer), d - 1;
    }
    return layer[0];
  }

  /** Padding with zero chunks, up to the width of the tree, does not change the root. */
  lemma PaddingInvisible(h: Hash, chunks: seq<Bytes>, n: nat)
    requires |chunks| <= n <= Pow2(Depth(|chunks|))
    ensures MerkleRoot(h, Padded(chunks, n)) == MerkleRoot(h, chunks)
  {
    DepthUnique(n, Depth(|chunks|));
    assert Padded(Padded(chunks, n), Pow2(Depth(n))) == Padded(chunks, Pow2(Depth(|chunks|)));
  }

  // ----- branches

  /** A node and its sibling, concatenated; the sibling goes first if the node is a right child. */
  function Pair(node: Bytes, right: bool, sibling: Bytes): Bytes {
    if right then sibling + node else node + sibling
  }

  /** The generalized-index fold: `idx % 2` says on which side the sibling stands. */
  function Fold(h: Hash, node: Bytes, idx: nat, branch: seq<Bytes>): Bytes
    decreases |branch|
  {
    if branch == [] then node else Fold(h, h[Pair(node, idx % 2 == 1, branch[0])], idx / 2, branch[1..])
  }

  /** Bit k of an index. */
  predicate Bit(idx: nat, k: nat) {
    idx / Pow2(k) % 2 == 1
  }

  /** The subtree that an index's bit leads into, and the other one. */
  function Toward(t: Tree, right: bool): Tree
    requires t.Fork?
  {
    if right then t.right else t.left
  }

  /** The leaf an index leads to, its high bits first, and the siblings met, leaf level first. */
  function LeafAt(t: Tree, d: nat, idx: nat): Bytes
    requires Perfect(t, d)
  {
    if d == 0 then t.chunk else LeafAt(Toward(t, Bit(idx, d - 1)), d - 1, idx)
  }

  function Branch(h: Hash, t: Tree, d: nat, idx: nat): (b: seq<Bytes>)
    requires Perfect(t, d)
    ensures |b| == d
  {
    if d == 0 then []
    else
      var right := Bit(idx, d - 1);
      Branch(h, Toward(t, right), d - 1, idx) + [Root(h, Toward(t, !right))]
  }

  /** The last sibling is used last, on the side given by bit |branch| of the index. */
  lemma {:induction false} FoldSnoc(h: Hash, node: Bytes, idx: nat, branch: seq<Bytes>, last: Bytes)
    ensures Fold(h, node, idx, branch + [last]) == h[Pair(Fold(h, node, idx, branch), Bit(idx, |branch|), last)]
    decreases |branch|
  {
    if branch == [] {
      assert branch + [last] == [last];
    } else {
      assert (branch + [last])[1..] == branch[1..] + [last];
      FoldSnoc(h, h[Pair(node, idx % 2 == 1, branch[0])], idx / 2, branch[1..], last);
      DivTwice(idx, 2, Pow2(|branch| - 1));
    }
  }

  /** In a list's tree, the leaf an index leads to is the one at the position in its low bits. */
  lemma {:induction false} LeafPosition(leaves: seq<Bytes>, d: nat, at: nat, idx: nat, p: nat)
    requires at + Pow2(d) <= |leaves| && Chunks(leaves) && p == idx % Pow2(d) && p < Pow2(d)
    ensures Perfect(Build(leaves, d, at), d) && LeafAt(Build(leaves, d, at), d, idx) == leaves[at + p]
    decreases d
  {
    BuildPerfect(leaves, d, at);
    if d > 0 {
      var q := Halves(idx, d, p);
      LeafPosition(leaves, d - 1, if Bit(idx, d - 1) then at + Pow2(d - 1) else at, idx, q);
    }
  }

  lemma Halves(idx: nat, d: nat, p: nat) returns (q: nat)
    requires d > 0 && p == idx % Pow2(d)
    ensures q == idx % Pow2(d - 1) && q < Pow2(d - 1)
    ensures p == if Bit(idx, d - 1) then Pow2(d - 1) + q else q
  {
    SplitMod(idx, d - 1, 1);
    assert Pow2(1) == 2;
    DivMod(idx, Pow2(d - 1));
    q := idx % Pow2(d - 1);
  }

  /** A leaf and its true siblings fold to the root. */
  lemma {:induction false} BranchFolds(h: Hash, t: Tree, d: nat, idx: nat)
    requires Perfect(t, d)
    ensures Fold(h, LeafAt(t, d, idx), idx, Branch(h, t, d, idx)) == Root(h, t)
    decreases d
  {
    if d > 0 {
      var right := Bit(idx, d - 1);
      var here, sibling := Toward(t, right), Root(h, Toward(t, !right));
      BranchFolds(h, here, d - 1, idx);
      FoldSnoc(h, LeafAt(t, d, idx), idx, Branch(h, here, d - 1, idx), sibling);
    }
  }

  /** Completeness: in the tree over 2^d chunks, the chunk at position p and its siblings fold to the
      root at generalized index 2^d + p. */
  lemma BranchComplete(h: Hash, d: nat, leaves: seq<Bytes>, p: nat)
    requires |leaves| == Pow2(d) && Chunks(leaves) && p < Pow2(d)
    ensures Perfect(Build(leaves, d, 0), d)
    ensures var t := Build(leaves, d, 0);
            Fold(h, leaves[p], Pow2(d) + p, Branch(h, t, d, Pow2(d) + p)) == Root(h, t)
  {
    ModUnique(Pow2(d) + p, 1, p, Pow2(d));
    LeafPosition(leaves, d, 0, Pow2(d) + p, p);
    BranchFolds(h, Build(leaves, d, 0), d, Pow2(d) + p);
  }

  // ----- soundness, for a hash without collisions among the strings involved

  /** Every string hashed in computing the root is in s. */
  ghost predicate TreeHashed(h: Hash, t: Tree, s: set<Bytes>) {
    t.Fork? ==> TreeHashed(h, t.left, s) && TreeHashed(h, t.right, s) && Root(h, t.left) + Root(h, t.right) in s
  }

  /** Every string hashed in folding the branch is in s. */
  ghost predicate FoldHashed(h: Hash, node: Bytes, idx: nat, branch: seq<Bytes>, s: set<Bytes>)
    decreases |branch|
  {
    branch != [] ==>
      && FoldHashed(h, node, idx, branch[..|branch| - 1], s)
      && Pair(Fold(h, node, idx, branch[..|branch| - 1]), Bit(idx, |branch| - 1), branch[|branch| - 1]) in s
  }

  lemma {:induction false} FoldLength(h: Hash, node: Bytes, idx: nat, branch: seq<Bytes>)
    requires |node| == 32
    ensures |Fold(h, node, idx, branch)| == 32
    decreases |branch|
  {
    if branch != [] {
      FoldLength(h, h[Pair(node, idx % 2 == 1, branch[0])], idx / 2, branch[1..]);
    }
  }

  /** Equal digests of two pairs of 32-byte strings: the pairs agree. */
  lemma PairSplit(h: Hash, s: set<Bytes>, node: Bytes, right: bool, sibling: Bytes, l: Bytes, r: Bytes)
    requires |node| == |l| == |r| == 32 && h[Pair(node, right, sibling)] == h[l + r]
    requires CollisionFree(h, s) && Pair(node, right, sibling) in s && l + r in s
    ensures node == (if right then r else l) && sibling == (if right then l else r)
  {
    var p := Pair(node, right, sibling);
    assert p == l + r;
    assert |p| == 64;
    SplitRight(if right then sibling else node, if right then node else sibling, l, r);
  }

  /** One level: the fold of all but the last sibling is the child the index leads into, and the last sibling
      is the other child. */
  lemma FoldTop(h: Hash, t: Tree, d: nat, node: Bytes, idx: nat, branch: seq<Bytes>, s: set<Bytes>)
    requires d > 0 && Perfect(t, d) && |node| == 32 && |branch| == d && Fold(h, node, idx, branch) == Root(h, t)
    requires CollisionFree(h, s) && TreeHashed(h, t, s) && FoldHashed(h, node, idx, branch, s)
    ensures var right := Bit(idx, d - 1);
            && Fold(h, node, idx, branch[..d - 1]) == Root(h, Toward(t, right))
            && branch[d - 1] == Root(h, Toward(t, !right))
            && FoldHashed(h, node, idx, branch[..d - 1], s) && TreeHashed(h, Toward(t, right), s)
  {
    var init, last, right := branch[..d - 1], branch[d - 1], Bit(idx, d - 1);
    assert branch == init + [last];
    FoldSnoc(h, node, idx, init, last);
    FoldLength(h, node, idx, init);
    RootLength(h, t.left, d - 1);
    RootLength(h, t.right, d - 1);
    PairSplit(h, s, Fold(h, node, idx, init), right, last, Root(h, t.left), Root(h, t.right));
  }

  lemma BranchTop(h: Hash, t: Tree, d: nat, idx: nat, branch: seq<Bytes>)
    requires d > 0 && Perfect(t, d) && |branch| == d
    requires branch[..d - 1] == Branch(h, Toward(t, Bit(idx, d - 1)), d - 1, idx)
    requires branch[d - 1] == Root(h, Toward(t, !Bit(idx, d - 1)))
    ensures branch == Branch(h, t, d, idx)
  {
    assert branch == branch[..d - 1] + [branch[d - 1]];
  }

  /** Soundness: a 32-byte node and a branch that fold to the root of a perfect tree are the leaf the
      index leads to and its siblings. */
  lemma {:induction false} FoldSound(h: Hash, t: Tree, d: nat, node: Bytes, idx: nat, branch: seq<Bytes>, s: set<Bytes>)
    requires Perfect(t, d) && |node| == 32 && |branch| == d && Fold(h, node, idx, branch) == Root(h, t)
    requires CollisionFree(h, s) && TreeHashed(h, t, s) && FoldHashed(h, node, idx, branch, s)
    ensures node == LeafAt(t, d, idx) && branch == Branch(h, t, d, idx)
    decreases d
  {
    if d > 0 {
      FoldTop(h, t, d, node, idx, branch, s);
      FoldSound(h, Toward(t, Bit(idx, d - 1)), d - 1, node, idx, branch[..d - 1], s);
      BranchTop(h, t, d, idx, branch);
    }
  }

  /** At whatever generalized index of depth d a 32-byte node and a branch fold to the root of the tree
      over 2^d chunks, the node is the chunk at that position, and the branch its siblings. */
  lemma BranchSound(h: Hash, d: nat, leaves: seq<Bytes>, node: Bytes, gindex: nat, branch: seq<Bytes>, s: set<Bytes>)
    requires |leaves| == Pow2(d) && Chunks(leaves) && |node| == 32 && |branch| == d
    requires Pow2(d) <= gindex < Pow2(d + 1)
    requires Fold(h, node, gindex, branch) == Root(h, Build(leaves, d, 0))
    requires CollisionFree(h, s) && TreeHashed(h, Build(leaves, d, 0), s) && FoldHashed(h, node, gindex, branch, s)
    ensures Perfect(Build(leaves, d, 0), d)
    ensures node == leaves[gindex - Pow2(d)] && branch == Branch(h, Build(leaves, d, 0), d, gindex)
  {
    ModUnique(gindex, 1, gindex - Pow2(d), Pow2(d));
    LeafPosition(leaves, d, 0, gindex, gindex - Pow2(d));
    FoldSound(h, Build(leaves, d, 0), d, node, gindex, branch, s);
  }

  /** Perfect trees of the same depth with the same root are the same tree. */
  lemma {:induction false} RootInjective(h: Hash, t: Tree, u: Tree, d: nat, s: set<Bytes>)
    requires Perfect(t, d) && Perfect(u, d) && Root(h, t) == Root(h, u)
    requires CollisionFree(h, s) && TreeHashed(h, t, s) && TreeHashed(h, u, s)
    ensures t == u
    decreases d
  {
    if d > 0 {
      RootLength(h, t.left, d - 1);
      RootLength(h, u.left, d - 1);
      RootLength(h, u.right, d - 1);
      PairSplit(h, s, Root(h, t.left), false, Root(h, t.right), Root(h, u.left), Root(h, u.right));
      RootInjective(h, t.left, u.left, d - 1, s);
      RootInjective(h, t.right, u.right, d - 1, s);
    }
  }

  /** Chunk lists of the same length with the same Merkle root are equal. */
  lemma MerkleRootInjective(h: Hash, a: seq<Bytes>, b: seq<Bytes>, s: set<Bytes>)
    requires |a| == |b| && Chunks(a) && Chunks(b) && MerkleRoot(h, a) == MerkleRoot(h, b)
    requires CollisionFree(h, s) && TreeHashed(h, MerkleTree(a), s) && TreeHashed(h, MerkleTree(b), s)
    ensures a == b
  {
    var d := Depth(|a|);
    var pa, pb := Padded(a, Pow2(d)), Padded(b, Pow2(d));
    BuildPerfect(pa, d, 0);
    BuildPerfect(pb, d, 0);
    RootInjective(h, MerkleTree(a), MerkleTree(b), d, s);
    forall i | 0 <= i < |a| ensures a[i] == b[i] {
      ModUnique(i, 0, i, Pow2(d));
      LeafPosition(pa, d, 0, i, i);
      LeafPosition(pb, d, 0, i, i);
      assert a[i] == pa[i] && b[i] == pb[i];
    }
  }
}
