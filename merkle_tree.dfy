/**
 * Completeness of VerifyProof: for any binary Merkle tree, the branch of
 * sibling hashes read off the path from a leaf to the root, with the leaf's
 * generalized index, verifies against the tree's root.
 */
module MerkleTrees {
  import opened BoundedInts
  import opened Wrappers
  import opened Merkle

  /** A binary Merkle tree; a node's hash is the hash of its children's hashes, left first. */
  datatype Tree = Leaf(value: Value) | Node(left: Tree, right: Tree)

  function RootHash(hash: Hasher, t: Tree): Value
  {
    match t
    case Leaf(v) => v
    case Node(l, r) => hash(RootHash(hash, l) + RootHash(hash, r))
  }

  /**
   * A path to a leaf, read from the leaf upwards: `path[0]` is the step just
   * above the leaf and the last element is the step below the root; `true`
   * means "right child".
   */
  ghost predicate IsLeafPath(t: Tree, path: seq<bool>)
    decreases t
  {
    match t
    case Leaf(_) => path == []
    case Node(l, r) =>
      path != [] && IsLeafPath(if path[|path| - 1] then r else l, path[..|path| - 1])
  }

  function LeafAt(t: Tree, path: seq<bool>): Value
    requires IsLeafPath(t, path)
    decreases t
  {
    match t
    case Leaf(v) => v
    case Node(l, r) => LeafAt(if path[|path| - 1] then r else l, path[..|path| - 1])
  }

  /** The siblings met on the way from the leaf to the root, lowest first. */
  function BranchFor(hash: Hasher, t: Tree, path: seq<bool>): Values
    requires IsLeafPath(t, path)
    decreases t
  {
    match t
    case Leaf(_) => []
    case Node(l, r) =>
      var right := path[|path| - 1];
      BranchFor(hash, if right then r else l, path[..|path| - 1]) + [RootHash(hash, if right then l else r)]
  }

  /** The generalized index of the leaf at `path`: a 1 bit for the root, then one bit per step. */
  function GeneralizedIndex(path: seq<bool>): nat
  {
    if path == [] then 1 else 2 * GeneralizedIndex(path[1..]) + (if path[0] then 1 else 0)
  }

  /** The low bits of `index` spell `path`, lowest bit first. */
  ghost predicate LowBits(index: nat, path: seq<bool>)
  {
    path == [] || (index % 2 == (if path[0] then 1 else 0) && LowBits(index / 2, path[1..]))
  }

  function Pow2(k: nat): nat
  {
    if k == 0 then 1 else 2 * Pow2(k - 1)
  }

  /** Appending a sibling on top adds one Combine at the ancestor that far up. */
  lemma {:induction false} FoldSnoc(hash: Hasher, index: nat, branch: Values, sibling: Value, value: Value)
    ensures Fold(hash, index, branch + [sibling], value) ==
      Combine(hash, Ancestor(index, |branch|), sibling, Fold(hash, index, branch, value))
    decreases |branch|
  {
    if branch == [] {
      assert [sibling][1..] == [];
    } else {
      assert (branch + [sibling])[1..] == branch[1..] + [sibling];
      FoldSnoc(hash, index / 2, branch[1..], sibling, Combine(hash, index, branch[0], value));
    }
  }

  /** Low bits spelling `path + [top]` spell `path`, and the ancestor |path| levels up has parity `top`. */
  lemma {:induction false} LowBitsSnoc(index: nat, path: seq<bool>, top: bool)
    requires LowBits(index, path + [top])
    ensures LowBits(index, path)
    ensures Ancestor(index, |path|) % 2 == (if top then 1 else 0)
    decreases |path|
  {
    if path != [] {
      assert (path + [top])[1..] == path[1..] + [top];
      LowBitsSnoc(index / 2, path[1..], top);
    }
  }

  /** Folding the branch of a leaf onto it, at any index whose low bits spell its path, gives the root hash. */
  lemma {:induction false} FoldReachesRoot(hash: Hasher, t: Tree, path: seq<bool>, index: nat)
    requires IsLeafPath(t, path) && LowBits(index, path)
    ensures |BranchFor(hash, t, path)| == |path|
    ensures Fold(hash, index, BranchFor(hash, t, path), LeafAt(t, path)) == RootHash(hash, t)
    decreases t
  {
    match t
    case Leaf(_) =>
    case Node(l, r) =>
      var below, top := path[..|path| - 1], path[|path| - 1];
      var child, sibling := if top then r else l, if top then l else r;
      assert path == below + [top];
      LowBitsSnoc(index, below, top);
      FoldReachesRoot(hash, child, below, index);
      FoldSnoc(hash, index, BranchFor(hash, child, below), RootHash(hash, sibling), LeafAt(child, below));
  }

  /** The generalized index of a path is a node at the depth of the path, and its low bits spell the path. */
  lemma {:induction false} IndexOfPath(path: seq<bool>)
    ensures GeneralizedIndex(path) >= 1
    ensures Depth(GeneralizedIndex(path)) == |path|
    ensures LowBits(GeneralizedIndex(path), path)
    ensures GeneralizedIndex(path) < Pow2(|path| + 1)
  {
    if path != [] {
      IndexOfPath(path[1..]);
      var g := GeneralizedIndex(path);
      assert g / 2 == GeneralizedIndex(path[1..]);
    }
  }

  lemma {:induction false} Pow2Grows(j: nat, k: nat)
    requires j <= k
    ensures Pow2(j) <= Pow2(k)
    decreases k
  {
    if j < k {
      Pow2Grows(j, k - 1);
    }
  }

  lemma {:induction false} Pow2Sum(j: nat, k: nat)
    ensures Pow2(j + k) == Pow2(j) * Pow2(k)
    decreases j
  {
    if j > 0 {
      Pow2Sum(j - 1, k);
    }
  }

  /** 2^64 is the uint64 range. */
  lemma Pow2Of64()
    ensures Pow2(64) == UINT64_LIMIT
  {
    assert Pow2(4) == 16;
    Pow2Sum(4, 4);
    Pow2Sum(8, 8);
    Pow2Sum(16, 16);
    Pow2Sum(32, 32);
  }

  /**
   * The branch read off any tree of depth below 64 verifies for its leaf at
   * that leaf's generalized index against the tree's root, and against any
   * other root it is a root mismatch.
   */
  lemma BranchVerifies(hash: Hasher, t: Tree, path: seq<bool>, root: Value)
    requires IsLeafPath(t, path) && |path| < 64
    ensures GeneralizedIndex(path) < UINT64_LIMIT
    ensures ProofOutcome(hash, root, GeneralizedIndex(path), BranchFor(hash, t, path), LeafAt(t, path)) ==
      if root == RootHash(hash, t) then None else Some(RootMismatch)
  {
    IndexOfPath(path);
    Pow2Grows(|path| + 1, 64);
    Pow2Of64();
    var index := GeneralizedIndex(path);
    FoldReachesRoot(hash, t, path, index);
    ProofOutcomeCharacterized(hash, root, index, BranchFor(hash, t, path), LeafAt(t, path));
  }
}
