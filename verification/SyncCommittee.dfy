/** The sync committee's hash tree root (devnet/light-client/pubkeys_hash.py) and the script that
    checks it against a finalized state root (devnet/light-client/verify_pubkeys_hash.py). */
module SyncCommittee {
  import opened Radix
  import opened Hashing
  import opened Merkle

  datatype Committee = Committee(pubkeys: seq<Bytes>, aggregate: Bytes)

  datatype Verdict = Match(gindex: nat) | NoMatch | BadKey

  /** Every key is 48 bytes long, as `pubkey_root` asserts. */
  predicate Keys(c: Committee) {
    |c.aggregate| == 48 && forall i :: 0 <= i < |c.pubkeys| ==> |c.pubkeys[i]| == 48
  }

  /** A 48-byte key as two 32-byte chunks, the second zero-padded. */
  function KeyChunks(pk: Bytes): seq<Bytes>
    requires |pk| == 48
  {
    [pk[..32], pk[32..] + Zeros(16)]
  }

  function PubkeyRoot(h: Hash, pk: Bytes): Bytes
    requires |pk| == 48
  {
    MerkleRoot(h, KeyChunks(pk))
  }

  function KeyRoots(h: Hash, c: Committee): (r: seq<Bytes>)
    requires Keys(c)
    ensures |r| == |c.pubkeys|
  {
    seq(|c.pubkeys|, i requires 0 <= i < |c.pubkeys| => PubkeyRoot(h, c.pubkeys[i]))
  }

  /** The two chunks of the SyncCommittee container. */
  function Fields(h: Hash, c: Committee): seq<Bytes>
    requires Keys(c)
  {
    [MerkleRoot(h, KeyRoots(h, c)), PubkeyRoot(h, c.aggregate)]
  }

  /** The container's hash tree root: the leaf the state's branch starts from. */
  function TreeRoot(h: Hash, c: Committee): Bytes
    requires Keys(c)
  {
    MerkleRoot(h, Fields(h, c))
  }

  // ----- the same in bytes

  /** A key's 48 bytes and sixteen zeros after them, hashed. */
  function KeyHash(h: Hash, pk: Bytes): Bytes
    requires |pk| == 48
  {
    h[pk[..32] + (pk[32..] + Zeros(16))]
  }

  /** The keys' hashes in order, and zero chunks after them, 2^d in all. */
  function KeyLeaves(h: Hash, c: Committee, d: nat): (r: seq<Bytes>)
    requires Keys(c)
    ensures |r| == Pow2(d)
  {
    seq(Pow2(d), i requires 0 <= i < Pow2(d) =>
      if i < |c.pubkeys| then KeyHash(h, c.pubkeys[i]) else Zeros(32))
  }

  /** The leaf of the state tree: the root of the perfect tree over the keys, then the aggregate key. */
  function CommitteeLeaf(h: Hash, c: Committee, d: nat): Bytes
    requires Keys(c)
  {
    h[Root(h, Build(KeyLeaves(h, c, d), d, 0)) + KeyHash(h, c.aggregate)]
  }

  lemma RootOfTwo(h: Hash, a: Bytes, b: Bytes)
    ensures MerkleRoot(h, [a, b]) == h[a + b]
  {
    assert Pow2(0) == 1 && Pow2(1) == 2;
    var two := [a, b];
    DepthUnique(|two|, 1);
    assert Padded(two, Pow2(1)) == two;
    assert Build(two, 0, 0) == Leaf(a) && Build(two, 0, 1) == Leaf(b);
    assert MerkleTree(two) == Build(two, 1, 0) == Fork(Leaf(a), Leaf(b));
    assert Root(h, Leaf(a)) == a && Root(h, Leaf(b)) == b;
  }

  lemma PubkeyRootIs(h: Hash, pk: Bytes)
    requires |pk| == 48
    ensures PubkeyRoot(h, pk) == KeyHash(h, pk)
  {
    RootOfTwo(h, pk[..32], pk[32..] + Zeros(16));
  }

  lemma LeavesAre(h: Hash, c: Committee, d: nat)
    requires Keys(c) && |c.pubkeys| <= Pow2(d)
    ensures Padded(KeyRoots(h, c), Pow2(d)) == KeyLeaves(h, c, d)
  {
    forall i | 0 <= i < |c.pubkeys| ensures KeyRoots(h, c)[i] == KeyHash(h, c.pubkeys[i]) {
      PubkeyRootIs(h, c.pubkeys[i]);
    }
  }

  /** What the container's root is in bytes, for a committee of any size; d is the depth whose width just holds it. */
  lemma TreeRootIs(h: Hash, c: Committee, d: nat)
    requires Keys(c) && |c.pubkeys| <= Pow2(d) && (d == 0 || Pow2(d - 1) < |c.pubkeys|)
    ensures TreeRoot(h, c) == CommitteeLeaf(h, c, d)
  {
    DepthUnique(|c.pubkeys|, d);
    LeavesAre(h, c, d);
    PubkeyRootIs(h, c.aggregate);
    RootOfTwo(h, MerkleRoot(h, KeyRoots(h, c)), PubkeyRoot(h, c.aggregate));
  }

  method ComputePubkeyRoot(h: Hash, pk: Bytes) returns (ok: bool, root: Bytes)
    ensures ok <==> |pk| == 48
    ensures ok ==> root == PubkeyRoot(h, pk) && root == h[pk[..32] + (pk[32..] + Zeros(16))]
  {
    if |pk| != 48 { return false, []; }
    var padded := pk + Zeros(64 - 48);
    assert padded[0..32] == pk[..32] && padded[32..64] == pk[32..] + Zeros(16);
    root := Merkleize(h, [padded[0..32], padded[32..64]]);
    PubkeyRootIs(h, pk);
    ok := true;
  }

  method ComputeTreeRoot(h: Hash, c: Committee) returns (ok: bool, root: Bytes)
    ensures ok <==> Keys(c)
    ensures ok ==> root == TreeRoot(h, c)
    ensures ok ==> root == CommitteeLeaf(h, c, Depth(|c.pubkeys|))
  {
    var roots: seq<Bytes> := [];
    for i := 0 to |c.pubkeys|
      invariant |roots| == i
      invariant forall k :: 0 <= k < i ==> |c.pubkeys[k]| == 48 && roots[k] == PubkeyRoot(h, c.pubkeys[k])
    {
      var okKey, key := ComputePubkeyRoot(h, c.pubkeys[i]);
      if !okKey { return false, []; }
      roots := roots + [key];
    }
    var pubkeysRoot := Merkleize(h, roots);
    var okAgg, aggRoot := ComputePubkeyRoot(h, c.aggregate);
    if !okAgg { return false, []; }
    assert roots == KeyRoots(h, c);
    root := Merkleize(h, [pubkeysRoot, aggRoot]);
    TreeRootIs(h, c, Depth(|c.pubkeys|));
    ok := true;
  }

  /** The whole check: the reported index is the least one of the branch's depth at which the
      committee folds to the state root, and there is none if none is reported. */
  method Verify(h: Hash, c: Committee, branch: seq<Bytes>, stateRoot: Bytes) returns (v: Verdict)
    ensures v.BadKey? <==> !Keys(c)
    ensures v.Match? ==>
      && Pow2(|branch|) <= v.gindex < Pow2(|branch| + 1)
      && Fold(h, TreeRoot(h, c), v.gindex, branch) == stateRoot
      && forall g :: Pow2(|branch|) <= g < v.gindex ==> Fold(h, TreeRoot(h, c), g, branch) != stateRoot
    ensures v.NoMatch? ==>
      forall g :: Pow2(|branch|) <= g < Pow2(|branch| + 1) ==> Fold(h, TreeRoot(h, c), g, branch) != stateRoot
  {
    var ok, leaf := ComputeTreeRoot(h, c);
    if !ok { return BadKey; }
    for gindex := Pow2(|branch|) to Pow2(|branch| + 1)
      invariant forall g :: Pow2(|branch|) <= g < gindex ==> Fold(h, leaf, g, branch) != stateRoot
    {
      var node, idx := leaf, gindex;
      for k := 0 to |branch|
        invariant idx >= 0
        invariant Fold(h, node, idx, branch[k..]) == Fold(h, leaf, gindex, branch)
      {
        var sibling := branch[k];
        assert branch[k..][0] == sibling && branch[k..][1..] == branch[k + 1..];
        node := if idx % 2 == 1 then h[sibling + node] else h[node + sibling];
        idx := idx / 2;
      }
      assert branch[|branch|..] == [];
      if node == stateRoot { return Match(gindex); }
    }
    return NoMatch;
  }

  // ----- what a match establishes

  /** Every string hashed in computing the committee's root is in s. */
  ghost predicate CommitteeHashed(h: Hash, c: Committee, s: set<Bytes>)
    requires Keys(c)
  {
    && (forall i :: 0 <= i < |c.pubkeys| ==> TreeHashed(h, MerkleTree(KeyChunks(c.pubkeys[i])), s))
    && TreeHashed(h, MerkleTree(KeyChunks(c.aggregate)), s)
    && TreeHashed(h, MerkleTree(KeyRoots(h, c)), s)
    && TreeHashed(h, MerkleTree(Fields(h, c)), s)
  }

  lemma MerkleRootLength(h: Hash, chunks: seq<Bytes>)
    requires Chunks(chunks)
    ensures |MerkleRoot(h, chunks)| == 32
  {
    var d := Depth(|chunks|);
    BuildPerfect(Padded(chunks, Pow2(d)), d, 0);
    RootLength(h, MerkleTree(chunks), d);
  }

  lemma KeyDetermined(h: Hash, a: Bytes, b: Bytes, s: set<Bytes>)
    requires |a| == |b| == 48 && PubkeyRoot(h, a) == PubkeyRoot(h, b) && CollisionFree(h, s)
    requires TreeHashed(h, MerkleTree(KeyChunks(a)), s) && TreeHashed(h, MerkleTree(KeyChunks(b)), s)
    ensures a == b
  {
    MerkleRootInjective(h, KeyChunks(a), KeyChunks(b), s);
    SplitRight(a[32..], Zeros(16), b[32..], Zeros(16));
    assert KeyChunks(a)[0] == a[..32] && KeyChunks(b)[0] == b[..32];
    assert KeyChunks(a)[1] == a[32..] + Zeros(16) && KeyChunks(b)[1] == b[32..] + Zeros(16);
    assert a == a[..32] + a[32..] && b == b[..32] + b[32..];
  }

  /** The root determines every key of a committee of known size. */
  lemma CommitteeDetermined(h: Hash, a: Committee, b: Committee, s: set<Bytes>)
    requires Keys(a) && Keys(b) && |a.pubkeys| == |b.pubkeys| && TreeRoot(h, a) == TreeRoot(h, b)
    requires CollisionFree(h, s) && CommitteeHashed(h, a, s) && CommitteeHashed(h, b, s)
    ensures a == b
  {
    RootsAreChunks(h, a);
    RootsAreChunks(h, b);
    MerkleRootInjective(h, Fields(h, a), Fields(h, b), s);
    assert Fields(h, a)[0] == Fields(h, b)[0] && Fields(h, a)[1] == Fields(h, b)[1];
    MerkleRootInjective(h, KeyRoots(h, a), KeyRoots(h, b), s);
    forall i | 0 <= i < |a.pubkeys| ensures a.pubkeys[i] == b.pubkeys[i] {
      assert KeyRoots(h, a)[i] == KeyRoots(h, b)[i];
      KeyDetermined(h, a.pubkeys[i], b.pubkeys[i], s);
    }
    KeyDetermined(h, a.aggregate, b.aggregate, s);
  }

  lemma RootsAreChunks(h: Hash, c: Committee)
    requires Keys(c)
    ensures Chunks(KeyRoots(h, c)) && Chunks(Fields(h, c)) && |TreeRoot(h, c)| == 32
  {
    forall i | 0 <= i < |c.pubkeys| ensures |KeyRoots(h, c)[i]| == 32 {
      MerkleRootLength(h, KeyChunks(c.pubkeys[i]));
    }
    MerkleRootLength(h, KeyChunks(c.aggregate));
    MerkleRootLength(h, KeyRoots(h, c));
    MerkleRootLength(h, Fields(h, c));
  }

  lemma MatchedLeaf(h: Hash, c: Committee, branch: seq<Bytes>, g: nat, leaves: seq<Bytes>, s: set<Bytes>)
    requires Keys(c) && |leaves| == Pow2(|branch|) && Chunks(leaves) && Pow2(|branch|) <= g < Pow2(|branch| + 1)
    requires Fold(h, TreeRoot(h, c), g, branch) == Root(h, Build(leaves, |branch|, 0))
    requires CollisionFree(h, s)
    requires TreeHashed(h, Build(leaves, |branch|, 0), s) && FoldHashed(h, TreeRoot(h, c), g, branch, s)
    ensures leaves[g - Pow2(|branch|)] == TreeRoot(h, c)
  {
    RootsAreChunks(h, c);
    BranchSound(h, |branch|, leaves, TreeRoot(h, c), g, branch, s);
  }

  /** A match pins the committee down: if the state root is the root of a tree whose leaf at the
      reported position is the root of a committee of the same size, that is the committee checked. */
  lemma MatchIdentifiesCommittee(h: Hash, c: Committee, branch: seq<Bytes>, g: nat, leaves: seq<Bytes>,
      actual: Committee, s: set<Bytes>)
    requires Keys(c) && Keys(actual) && |c.pubkeys| == |actual.pubkeys|
    requires |leaves| == Pow2(|branch|) && Chunks(leaves) && Pow2(|branch|) <= g < Pow2(|branch| + 1)
    requires leaves[g - Pow2(|branch|)] == TreeRoot(h, actual)
    requires Fold(h, TreeRoot(h, c), g, branch) == Root(h, Build(leaves, |branch|, 0))
    requires CollisionFree(h, s) && CommitteeHashed(h, c, s) && CommitteeHashed(h, actual, s)
    requires TreeHashed(h, Build(leaves, |branch|, 0), s) && FoldHashed(h, TreeRoot(h, c), g, branch, s)
    ensures c == actual
  {
    MatchedLeaf(h, c, branch, g, leaves, s);
    CommitteeDetermined(h, c, actual, s);
  }

  /** And the check never misses: given the true siblings of the committee's leaf, one of the indices
      it tries folds to the state root. */
  lemma TrueBranchMatches(h: Hash, c: Committee, leaves: seq<Bytes>, d: nat, p: nat)
    requires Keys(c) && |leaves| == Pow2(d) && Chunks(leaves) && p < Pow2(d) && leaves[p] == TreeRoot(h, c)
    ensures Perfect(Build(leaves, d, 0), d)
    ensures var t, g := Build(leaves, d, 0), Pow2(d) + p;
            Pow2(d) <= g < Pow2(d + 1) && Fold(h, TreeRoot(h, c), g, Branch(h, t, d, g)) == Root(h, t)
  {
    BranchComplete(h, d, leaves, p);
  }
}
