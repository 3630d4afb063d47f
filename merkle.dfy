/**
 * Verification of a Merkle inclusion proof addressed by a generalized tree
 * index (heap numbering: 1 is the root, 2i and 2i+1 are the children of i).
 *
 * SHA-256 is not modelled: every operation takes the hash as a parameter, a
 * total function from bytes to 32-byte values, so every property below
 * holds for any such hash.
 */
module Merkle {
  import opened BoundedInts
  import opened Wrappers

  /** A 32-byte leaf, inner node or root (Go's `Value` and `common.Hash`). */
  type Value = s: seq<byte> | |s| == 32 witness seq(32, _ => 0)

  /** Sibling hashes, read from the leaf upwards (Go's `Values`). */
  type Values = seq<Value>

  /** A 32-byte-output hash function, standing for SHA-256. */
  type Hasher = seq<byte> -> Value

  /** The three ways a proof is rejected (the three error strings of VerifyProof). */
  datatype ProofError =
    | ExtraBranchItems    // "branch has extra items"
    | MissingBranchItems  // "branch is missing items"
    | RootMismatch        // "root mismatch"

  /**
   * The parent of the node at `index` whose sibling is `sibling`: a node with
   * an even index is a left child, so it is hashed first.
   */
  function Combine(hash: Hasher, index: nat, sibling: Value, value: Value): Value
  {
    if index % 2 == 0 then hash(value + sibling) else hash(sibling + value)
  }

  /** Where the walk up the branch ends: it ran past the root, or it stopped at a node. */
  datatype Ascent = Overrun | Reached(index: uint64, value: Value)

  /**
   * The walk VerifyProof performs: one Combine and one halving of the index
   * per sibling, stopping as soon as the index reaches 0.
   */
  function Climb(hash: Hasher, index: uint64, branch: Values, value: Value): Ascent
    decreases |branch|
  {
    if branch == [] then
      Reached(index, value)
    else
      var parent := Combine(hash, index, branch[0], value);
      if index / 2 == 0 then Overrun else Climb(hash, index / 2, branch[1..], parent)
  }

  /** The verdict of VerifyProof: `None` is success (Go's `nil` error). */
  function ProofOutcome(hash: Hasher, root: Value, index: uint64, branch: Values, leaf: Value): Option<ProofError>
  {
    match Climb(hash, index, branch, leaf)
    case Overrun => Some(ExtraBranchItems)
    case Reached(top, value) =>
      if top != 1 then Some(MissingBranchItems)
      else if value != root then Some(RootMismatch)
      else None
  }

  /** The depth of the node with generalized index `index`: floor(log2(index)). */
  function Depth(index: nat): nat
    requires index >= 1
  {
    if index == 1 then 0 else 1 + Depth(index / 2)
  }

  /** The ancestor `k` levels above the node `index`. */
  function Ancestor(index: nat, k: nat): nat
  {
    if k == 0 then index else Ancestor(index / 2, k - 1)
  }

  /** The value obtained by hashing the whole branch onto `value`, with no index checks. */
  function Fold(hash: Hasher, index: nat, branch: Values, value: Value): Value
    decreases |branch|
  {
    if branch == [] then value else Fold(hash, index / 2, branch[1..], Combine(hash, index, branch[0], value))
  }

  /**
   * Verifies that `leaf` sits at generalized index `index` of the tree whose
   * root is `root`, given the sibling hashes `branch` from the leaf upwards.
   */
  method VerifyProof(hash: Hasher, root: Value, index: uint64, branch: Values, leaf: Value)
    returns (err: Option<ProofError>)
    ensures err == ProofOutcome(hash, root, index, branch, leaf)
  {
    var value := leaf;
    var idx := index;
    for i := 0 to |branch|
      invariant Climb(hash, index, branch, leaf) == Climb(hash, idx, branch[i..], value)
    {
      var sibling := branch[i];
      var left: seq<byte>, right: seq<byte>;
      if idx % 2 == 0 {
        left, right := value, sibling;
      } else {
        left, right := sibling, value;
      }
      value := hash(left + right);
      idx := idx / 2;
      if idx == 0 {
        return Some(ExtraBranchItems);
      }
    }
    if idx != 1 {
      return Some(MissingBranchItems);
    }
    if value != root {
      return Some(RootMismatch);
    }
    return None;
  }

  /** A walk no longer than the leaf's depth stops at the ancestor that far up, holding the fold. */
  lemma {:induction false} ClimbWithinDepth(hash: Hasher, index: uint64, branch: Values, value: Value)
    requires index >= 1 && |branch| <= Depth(index)
    ensures Climb(hash, index, branch, value).Reached?
    ensures Climb(hash, index, branch, value).index >= 1
    ensures Depth(Climb(hash, index, branch, value).index) + |branch| == Depth(index)
    ensures Climb(hash, index, branch, value).value == Fold(hash, index, branch, value)
    decreases |branch|
  {
    if branch != [] {
      ClimbWithinDepth(hash, index / 2, branch[1..], Combine(hash, index, branch[0], value));
    }
  }

  /** A walk longer than the leaf's depth runs past the root. */
  lemma {:induction false} ClimbPastRoot(hash: Hasher, index: uint64, branch: Values, value: Value)
    requires index >= 1 && |branch| > Depth(index)
    ensures Climb(hash, index, branch, value) == Overrun
    decreases |branch|
  {
    if index != 1 {
      ClimbPastRoot(hash, index / 2, branch[1..], Combine(hash, index, branch[0], value));
    }
  }

  /**
   * Reference behaviour of VerifyProof: index 0 never verifies; otherwise a
   * branch longer than the depth has extra items, a shorter one is missing
   * items, and one of the right length succeeds exactly when its fold is the root.
   */
  lemma ProofOutcomeCharacterized(hash: Hasher, root: Value, index: uint64, branch: Values, leaf: Value)
    ensures ProofOutcome(hash, root, index, branch, leaf) ==
      if index == 0 then
        (if branch == [] then Some(MissingBranchItems) else Some(ExtraBranchItems))
      else if |branch| > Depth(index) then Some(ExtraBranchItems)
      else if |branch| < Depth(index) then Some(MissingBranchItems)
      else if Fold(hash, index, branch, leaf) != root then Some(RootMismatch)
      else None
  {
    if index >= 1 {
      if |branch| > Depth(index) {
        ClimbPastRoot(hash, index, branch, leaf);
      } else {
        ClimbWithinDepth(hash, index, branch, leaf);
      }
    }
  }

  /** Success exactly when the index is a node, the branch reaches the root, and the fold is the root. */
  lemma VerifiesIff(hash: Hasher, root: Value, index: uint64, branch: Values, leaf: Value)
    ensures ProofOutcome(hash, root, index, branch, leaf) == None <==>
      index >= 1 && |branch| == Depth(index) && Fold(hash, index, branch, leaf) == root
  {
    ProofOutcomeCharacterized(hash, root, index, branch, leaf);
  }

  /** Once the walk has run past the root, siblings after that point are never looked at. */
  lemma {:induction false} OverrunIgnoresRest(hash: Hasher, index: uint64, branch: Values, rest: Values, value: Value)
    requires Climb(hash, index, branch, value) == Overrun
    ensures Climb(hash, index, branch + rest, value) == Overrun
    decreases |branch|
  {
    assert branch != [];
    assert (branch + rest)[0] == branch[0];
    if index / 2 != 0 {
      assert (branch + rest)[1..] == branch[1..] + rest;
      OverrunIgnoresRest(hash, index / 2, branch[1..], rest, Combine(hash, index, branch[0], value));
    }
  }

  /** A proof rejected for extra items stays rejected for extra items whatever follows it and whatever the root. */
  lemma ExtraItemsIgnoreRest(hash: Hasher, root: Value, otherRoot: Value, index: uint64, branch: Values, rest: Values, leaf: Value)
    requires ProofOutcome(hash, root, index, branch, leaf) == Some(ExtraBranchItems)
    ensures ProofOutcome(hash, otherRoot, index, branch + rest, leaf) == Some(ExtraBranchItems)
  {
    OverrunIgnoresRest(hash, index, branch, rest, leaf);
  }

  /**
   * Length sensitivity: dropping the top sibling of a valid proof leaves it
   * missing items, appending any sibling gives it extra items, and any
   * other root is a root mismatch.
   */
  lemma ValidProofIsTight(hash: Hasher, root: Value, index: uint64, branch: Values, leaf: Value, extra: Value, otherRoot: Value)
    requires ProofOutcome(hash, root, index, branch, leaf) == None
    ensures branch != [] ==> ProofOutcome(hash, root, index, branch[..|branch| - 1], leaf) == Some(MissingBranchItems)
    ensures ProofOutcome(hash, root, index, branch + [extra], leaf) == Some(ExtraBranchItems)
    ensures otherRoot != root ==> ProofOutcome(hash, otherRoot, index, branch, leaf) == Some(RootMismatch)
  {
    ProofOutcomeCharacterized(hash, root, index, branch, leaf);
    ProofOutcomeCharacterized(hash, root, index, branch + [extra], leaf);
    ProofOutcomeCharacterized(hash, otherRoot, index, branch, leaf);
    if branch != [] {
      ProofOutcomeCharacterized(hash, root, index, branch[..|branch| - 1], leaf);
    }
  }

  /** At the root itself (index 1): an empty branch verifies iff the leaf is the root; any sibling is extra. */
  lemma RootIndex(hash: Hasher, root: Value, branch: Values, leaf: Value)
    ensures ProofOutcome(hash, root, 1, [], leaf) == (if leaf == root then None else Some(RootMismatch))
    ensures branch != [] ==> ProofOutcome(hash, root, 1, branch, leaf) == Some(ExtraBranchItems)
  {
  }

  /** Index 0 names no node: an empty branch is missing items, a non-empty one has extra items. */
  lemma ZeroIndex(hash: Hasher, root: Value, branch: Values, leaf: Value)
    ensures ProofOutcome(hash, root, 0, branch, leaf) ==
      if branch == [] then Some(MissingBranchItems) else Some(ExtraBranchItems)
  {
  }

  /** Parity picks the side: the left child (index 2) is hashed first, the right child (index 3) second. */
  lemma ChildrenOfRoot(hash: Hasher, root: Value, sibling: Value, leaf: Value)
    ensures ProofOutcome(hash, root, 2, [sibling], leaf) == None <==> root == hash(leaf + sibling)
    ensures ProofOutcome(hash, root, 3, [sibling], leaf) == None <==> root == hash(sibling + leaf)
  {
    assert [sibling][1..] == [];
    assert Climb(hash, 2, [sibling], leaf) == Reached(1, Combine(hash, 2, sibling, leaf));
    assert Combine(hash, 2, sibling, leaf) == hash(leaf + sibling);
    assert Climb(hash, 3, [sibling], leaf) == Reached(1, Combine(hash, 3, sibling, leaf));
    assert Combine(hash, 3, sibling, leaf) == hash(sibling + leaf);
  }
}
