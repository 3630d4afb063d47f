# Merkle proof verifier and virtual monotonic counter, in Dafny

This project models the two primitives of the monotonic-counter repository and proves properties of them.

- **Merkle inclusion proofs** (`merkle/merkle.go`). `Merkle.VerifyProof` is the loop of Go's `VerifyProof`. It walks a generalized tree index: 1 is the root, and `2i` and `2i+1` are the children of `i`. Each step combines the running value with the next sibling, either left or right depending on the index's parity, and then halves the index. The method returns `None` (Go's `nil`) or one of three `ProofError` constructors: `ExtraBranchItems`, `MissingBranchItems` and `RootMismatch`. It is proved equal to the recursive function `ProofOutcome`. `ProofOutcomeCharacterized` then gives an independent description: index 0 never verifies, and otherwise the branch length is compared with `Depth(index)` (that is, floor(log2(index))) and the fold of the hash over the branch is compared with the root. Module `MerkleTrees` proves completeness: for any binary tree and any leaf of depth below 64, the branch read off the path from a leaf to the root verifies at that leaf's generalized index.
- **Virtual monotonic counters** (`counter/counter.go`). `Counters.VirtualMonotonicCounter` is a class whose `counters` field maps a `uint64` id to a heap `Counter` object. `IncrementCounter` updates that object in place, just as Go does through the stored `*Counter`. Each method is proved against one function on the abstract state (`Create`, `Read`, `Increment`, `Destroy`, over a map from id to `CounterState`). The lemmas about those functions state the service's promises: the certificates, the nonce echo, the id invariant, isolation between counters, the not-found answers and how a counter's value evolves over any sequence of calls.

SHA-256 enters only as a parameter `hash: Hasher`, a total function from bytes to 32-byte `Value`s. So every Merkle property holds for every hash function with 32-byte output. The random id source `generateCounterID` enters as the `counterId` argument of `CreateNewCounter`.

Where the code does less than its names promise (a *monotonic* counter, a *unique* id), the model follows the code:
- `CreateNewCounter` does not check whether the drawn id is already live; an existing counter under that id is replaced by a new one at 0 (`CreateOverwrites`). The model also allows a destroyed id to be created again.
- Go's `Value++` on a `uint64` wraps from 2^64 - 1 to 0, and `Bump` models that wrap explicitly. `IncrementIsMonotonic` proves that this wrap is the only way an increment can lower a counter.

## Model

| member | source | states |
|---|---|---|
| `Merkle.VerifyProof` | merkle/merkle.go:25-50 | the loop (combine by parity, halve the index, stop with extra items at index 0, then check the index is 1 and the value is the root) returns exactly `ProofOutcome` |
| `Merkle.ProofOutcomeCharacterized` | merkle/merkle.go:27-49 | index 0: missing items when the branch is empty, extra items otherwise; else extra items when the branch is longer than floor(log2(index)), missing items when it is shorter, root mismatch when the fold differs from the root, success otherwise |
| `Merkle.VerifiesIff` | merkle/merkle.go:29-49 | success if and only if index >= 1, the branch length is floor(log2(index)), and folding the hash over the branch from the leaf gives the root |
| `Merkle.ClimbWithinDepth` | merkle/merkle.go:29-42 | a branch no longer than the leaf's depth is consumed without reaching index 0; the walk ends at a node exactly that many levels up, holding the fold of the branch |
| `Merkle.ClimbPastRoot` | merkle/merkle.go:39-41 | a branch longer than the leaf's depth drives the index to 0, so the walk stops with extra items |
| `Merkle.OverrunIgnoresRest` | merkle/merkle.go:39-41 | once the index has reached 0, appending siblings does not change the walk's outcome |
| `Merkle.ExtraItemsIgnoreRest` | merkle/merkle.go:39-41 | a proof rejected for extra items is rejected for extra items whatever siblings follow and whatever the root: the loop returns before consuming the rest |
| `Merkle.ValidProofIsTight` | merkle/merkle.go:39-48 | for a valid proof: dropping its top sibling gives missing items, appending any sibling gives extra items, and any other root gives root mismatch |
| `Merkle.RootIndex` | merkle/merkle.go:29-49 | at index 1 an empty branch succeeds exactly when the leaf is the root (otherwise root mismatch), and a non-empty branch has extra items |
| `Merkle.ZeroIndex` | merkle/merkle.go:39-45 | at index 0 an empty branch is missing items and a non-empty branch has extra items |
| `Merkle.ChildrenOfRoot` | merkle/merkle.go:31-38 | with one sibling, the even index 2 verifies exactly when root = H(leaf ++ sibling), and the odd index 3 exactly when root = H(sibling ++ leaf) |
| `MerkleTrees.FoldReachesRoot` | merkle/merkle.go:31-38 | folding a leaf's sibling branch onto the leaf, at any index whose low bits spell the leaf's path, yields the tree's root hash |
| `MerkleTrees.IndexOfPath` | merkle/merkle.go:39-43 | the generalized index of a leaf path is at least 1, has depth equal to the path length, and its bits spell the path |
| `MerkleTrees.BranchVerifies` | merkle/merkle.go:27-49 | for any tree of depth below 64, the branch of any leaf verifies at that leaf's generalized index against the tree's root; against any other root the result is root mismatch |
| `Counters.Create` | counter/counter.go:28-33 | the certificate is {id, 0, nonce}; afterwards id maps to Counter{id, 0} and every other key is unchanged |
| `Counters.Read` | counter/counter.go:36-42 | a certificate exactly when the id is live, carrying the stored counter's id and value and the caller's nonce |
| `Counters.Increment` | counter/counter.go:45-52 | on a live id: the value is bumped with uint64 wrap-around and certified with the nonce, and the key set and other entries are unchanged; on an absent id: `None` |
| `Counters.Destroy` | counter/counter.go:55-62 | on a live id: that key alone is removed and the certificate is {id, 0, nonce}; on an absent id: `None` |
| `Counters.CertificateNamesCall` | counter/counter.go:28-62 | under the id invariant, every call keeps the invariant, and every certificate names the called id and echoes its nonce; the answer is `None` exactly for read, increment and destroy of an id that is not live |
| `Counters.RunKeepsIds` | counter/counter.go:30-31 | every stored counter carries the id it is stored under, after any sequence of calls |
| `Counters.ValueCountsIncrements` | counter/counter.go:45-52 | a counter that no call creates or destroys stays live, and its value grows by exactly the number of increments addressed to it, modulo 2^64 |
| `Counters.IncrementIsMonotonic` | counter/counter.go:50 | an increment raises the value exactly when it is below 2^64 - 1; at 2^64 - 1 it wraps to 0 |
| `Counters.CreateOverwrites` | counter/counter.go:31 | creating an id that is already live resets it to a counter at 0 |
| `Counters.Isolation` | counter/counter.go:28-62 | a call on one id leaves the presence and the counter of every other id unchanged |
| `Counters.Lifecycle` | counter/counter.go:28-62 | create gives {X,0,5}; read gives {X,0,7}; increments give {X,1,9} and then {X,2,11}; destroy gives {X,0,1}; a read afterwards is `None` |
| `Counters.DemoDriver` | counter/counter.go:78-93 | the driver's create, read, increment and destroy, all with nonce 123, give {x,0,123}, {x,0,123}, {x,1,123} and {x,0,123}, and leave the service empty |
| `Counters.NotFoundIsNotZero` | counter/counter.go:36-62 | on an id that is not live, read, increment and destroy answer `None` and change nothing, whereas a created counter reads as a certificate with value 0 |
| `Counters.Counter.constructor` | counter/counter.go:9-13 | a counter object holds the given id and value |
| `Counters.VirtualMonotonicCounter.constructor` | counter/counter.go:76 | a service starts with no counters, and with the id invariant |
| `Counters.VirtualMonotonicCounter.CreateNewCounter` | counter/counter.go:28-33 | keeps the id invariant, stores a fresh counter object under the id, and its new state and certificate are those of `Create` |
| `Counters.VirtualMonotonicCounter.ReadCounter` | counter/counter.go:36-42 | changes nothing and answers `Read` of the current state |
| `Counters.VirtualMonotonicCounter.IncrementCounter` | counter/counter.go:45-52 | updates only the stored counter objects (the map is unchanged), keeps the id invariant, and its new state and certificate are those of `Increment` |
| `Counters.VirtualMonotonicCounter.DestroyCounter` | counter/counter.go:55-62 | keeps the id invariant, and its new state and certificate are those of `Destroy` |

## Left out

- `generateCounterID` (counter/counter.go:65-72) draws eight bytes from `crypto/rand` and panics if it fails. Entropy cannot be modelled, so the id is an argument of `CreateNewCounter`.
- `main` (counter/counter.go:74-95) is a driver that only prints. `Counters.DemoDriver` states the certificates its calls produce; `Counters.Lifecycle` states a longer lifecycle, with a second increment and a read after the destroy.
- The zero value `VirtualMonotonicCounter{}` has a nil `Counters` map, and `CreateNewCounter` on it panics at counter/counter.go:31 (assignment to an entry in a nil map). This is not modelled: the model's service always starts from the empty map that counter/counter.go:76 makes.
- SHA-256 and the `hash.Hash` calls (`New`, `Reset`, `Write`, `Sum`) come from a foreign library. They are replaced by the `hash` parameter. Go's reuse of the value buffer in `hasher.Sum(value[:0])` becomes a reassignment of an immutable 32-byte sequence; the caller's leaf is a value and cannot change.
- `Value.UnmarshalJSON` (merkle/merkle.go:21-23) and `common/hexutil/hexutil.go` are JSON and hex decoding over `encoding/json` and `reflect`, and are not part of this model.
- Tamper sensitivity for the leaf and the siblings would need the hash to be collision-resistant, which no total function parameter guarantees. Only a changed root is covered (`Merkle.ValidProofIsTight`, `MerkleTrees.BranchVerifies`).
- Concurrency: the Go map has no locking, and the model is single-threaded.
