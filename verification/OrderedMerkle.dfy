/**
 * Binary Merkle trees over ordered lists in which an odd last node is paired with itself: Bitcoin's
 * txid tree with mutation detection (crates/usdd-bitcoin-bmm/src/block.rs) and the protocol's own
 * leaf proofs (crates/usdd-core/src/merkle.rs).
 */
module OrderedMerkle {
  import opened Machine
  import opened Digests

  /** The hash of an inner node. */
  type NodeHash<!T> = (T, T) -> T

  /** Free hash terms, for which equal nodes have equal children. */
  function PairHash(): NodeHash<Digest> {
    (left: Digest, right: Digest) => Pair(left, right)
  }

  /** Bitcoin's node hash: double SHA-256 of the two hashes in a row. */
  function Concatenated(sha: HashFunction): NodeHash<Hash> {
    (left: Hash, right: Hash) => sha(left + right)
  }

  // ----- the level-by-level reference -----

  function PairUp<T>(node: NodeHash<T>, level: seq<T>): (next: seq<T>)
    ensures |next| == (|level| + 1) / 2
    decreases |level|
  {
    if level == [] then []
    else if |level| == 1 then [node(level[0], level[0])]
    else [node(level[0], level[1])] + PairUp(node, level[2..])
  }

  function Root<T>(node: NodeHash<T>, level: seq<T>): T
    requires level != []
    decreases |level|
  {
    if |level| == 1 then level[0] else Root(node, PairUp(node, level))
  }

  /** Two equal hashes are paired with each other somewhere in this level. */
  predicate HasTwins<T(==)>(level: seq<T>) {
    exists i :: 0 <= i < |level| / 2 && level[2 * i] == level[2 * i + 1]
  }

  predicate Mutated<T(==)>(node: NodeHash<T>, level: seq<T>)
    decreases |level|
  {
    |level| > 1 && (HasTwins(level) || Mutated(node, PairUp(node, level)))
  }

  function Depth(n: nat): nat {
    if n <= 1 then 0 else 1 + Depth((n + 1) / 2)
  }

  /** The partner of `i` in its level; the last node of an odd level is its own. */
  function Partner(n: nat, i: nat): (j: nat)
    requires i < n
    ensures j < n
  {
    if i % 2 == 1 then i - 1 else if i + 1 < n then i + 1 else n - 1
  }

  lemma {:induction false} PairUpAt<T>(node: NodeHash<T>, level: seq<T>, j: nat)
    requires j < |PairUp(node, level)|
    ensures PairUp(node, level)[j] == node(level[2 * j], if 2 * j + 1 < |level| then level[2 * j + 1] else level[2 * j])
    decreases j
  {
    if j > 0 {
      PairUpAt(node, level[2..], j - 1);
    }
  }

  // ----- mutation detection makes the root binding -----

  /** Two different pairs of children with the same node hash. */
  datatype Collision<T> = Collision(a: T, b: T, c: T, d: T)

  ghost predicate Collides<T(!new)>(node: NodeHash<T>, x: Collision<T>) {
    (x.a != x.c || x.b != x.d) && node(x.a, x.b) == node(x.c, x.d)
  }

  /** Levels without twins that differ, under equal next levels, show a collision. */
  lemma {:induction false} DifferentLevelsCollide<T(!new)>(node: NodeHash<T>, a: seq<T>, b: seq<T>) returns (x: Collision<T>)
    requires PairUp(node, a) == PairUp(node, b) && a != b && !HasTwins(a) && !HasTwins(b)
    ensures Collides(node, x)
  {
    var i := FirstDifference(a, b);
    var j := i / 2;
    PairUpAt(node, a, j);
    PairUpAt(node, b, j);
    x := Collision(a[2 * j], if 2 * j + 1 < |a| then a[2 * j + 1] else a[2 * j],
                   b[2 * j], if 2 * j + 1 < |b| then b[2 * j + 1] else b[2 * j]);
    assert 2 * j + 1 < |a| ==> a[2 * j] != a[2 * j + 1];
    assert 2 * j + 1 < |b| ==> b[2 * j] != b[2 * j + 1];
    assert i == 2 * j || i == 2 * j + 1;
  }

  /** A position where the lists differ, or where only one of them still has an element. */
  lemma {:induction false} FirstDifference<T(!new)>(a: seq<T>, b: seq<T>) returns (i: nat)
    requires a != b && (|a| + 1) / 2 == (|b| + 1) / 2
    ensures i < |a| || i < |b|
    ensures i < |a| && i < |b| ==> a[i] != b[i]
  {
    if |a| != |b| {
      i := if |a| < |b| then |a| else |b|;
    } else {
      i :| 0 <= i < |a| && a[i] != b[i];
    }
  }

  lemma {:induction false} EqualRootsCollide<T(!new)>(node: NodeHash<T>, a: seq<T>, b: seq<T>) returns (x: Collision<T>)
    requires a != [] && b != [] && a != b && Depth(|a|) == Depth(|b|)
    requires Root(node, a) == Root(node, b) && !Mutated(node, a) && !Mutated(node, b)
    ensures Collides(node, x)
    decreases |a|
  {
    var up, up' := PairUp(node, a), PairUp(node, b);
    if up != up' {
      x := EqualRootsCollide(node, up, up');
    } else {
      x := DifferentLevelsCollide(node, a, b);
    }
  }

  /** The level `n` steps up. */
  function Above<T>(node: NodeHash<T>, level: seq<T>, n: nat): (above: seq<T>)
    ensures level != [] ==> above != []
    decreases n
  {
    if n == 0 then level else PairUp(node, Above(node, level, n - 1))
  }

  lemma {:induction false} AboveNext<T>(node: NodeHash<T>, level: seq<T>, n: nat)
    ensures Above(node, level, n + 1) == PairUp(node, Above(node, level, n))
  {
  }

  lemma {:induction false} AboveShift<T>(node: NodeHash<T>, level: seq<T>, n: nat)
    ensures Above(node, PairUp(node, level), n) == Above(node, level, n + 1)
    decreases n
  {
    if n > 0 {
      AboveShift(node, level, n - 1);
    }
  }

  lemma {:induction false} TopIsRoot<T>(node: NodeHash<T>, level: seq<T>)
    requires level != []
    ensures Above(node, level, Depth(|level|)) == [Root(node, level)]
    decreases |level|
  {
    if |level| > 1 {
      TopIsRoot(node, PairUp(node, level));
      AboveShift(node, level, Depth(|level|) - 1);
    }
  }

  /** Trees with the same root agree on their first node at every distance from it, or collide. */
  lemma {:induction false} SpinesMeet<T(!new)>(node: NodeHash<T>, a: seq<T>, b: seq<T>, k: nat) returns (x: Option<Collision<T>>)
    requires a != [] && b != [] && Root(node, a) == Root(node, b)
    requires k <= Depth(|a|) && k <= Depth(|b|)
    ensures x.Some? ==> Collides(node, x.value)
    ensures x.None? ==> Above(node, a, Depth(|a|) - k)[0] == Above(node, b, Depth(|b|) - k)[0]
    decreases k
  {
    if k == 0 {
      TopIsRoot(node, a);
      TopIsRoot(node, b);
      x := None;
    } else {
      var n, m := Depth(|a|) - k, Depth(|b|) - k;
      var a', b' := Above(node, a, n), Above(node, b, m);
      AboveNext(node, a, n);
      AboveNext(node, b, m);
      x := SpinesMeet(node, a, b, k - 1);
      if x.None? && a'[0] != b'[0] {
        x := FirstPairsCollide(node, a', b');
      }
    }
  }

  lemma {:induction false} FirstPairsCollide<T(!new)>(node: NodeHash<T>, a: seq<T>, b: seq<T>) returns (x: Option<Collision<T>>)
    requires a != [] && b != [] && a[0] != b[0] && PairUp(node, a)[0] == PairUp(node, b)[0]
    ensures x.Some? && Collides(node, x.value)
  {
    PairUpAt(node, a, 0);
    PairUpAt(node, b, 0);
    x := Some(Collision(a[0], if |a| > 1 then a[1] else a[0], b[0], if |b| > 1 then b[1] else b[0]));
  }

  /** A list of fewer levels with the same root has a node hash as its first leaf, or collides. */
  lemma {:induction false} ShallowLeafIsNode<T(!new)>(node: NodeHash<T>, a: seq<T>, b: seq<T>)
    returns (x: Option<Collision<T>>, left: T, right: T)
    requires a != [] && b != [] && Root(node, a) == Root(node, b) && Depth(|a|) < Depth(|b|)
    ensures x.Some? ==> Collides(node, x.value)
    ensures x.None? ==> a[0] == node(left, right)
  {
    x := SpinesMeet(node, a, b, Depth(|a|));
    var below := Above(node, b, Depth(|b|) - Depth(|a|) - 1);
    PairUpAt(node, below, 0);
    left, right := below[0], if |below| > 1 then below[1] else below[0];
  }

  /** Two unmutated lists of txids with the same root are the same list, when equal node hashes have
      equal children and no txid is a node hash. */
  lemma {:induction false} UnmutatedRootIsUnique(a: seq<Digest>, b: seq<Digest>)
    requires a != [] && b != []
    requires !a[0].Pair? && !b[0].Pair?
    requires Root(PairHash(), a) == Root(PairHash(), b) && !Mutated(PairHash(), a) && !Mutated(PairHash(), b)
    ensures a == b
  {
    if Depth(|a|) < Depth(|b|) {
      var x, left, right := ShallowLeafIsNode(PairHash(), a, b);
      assert false;
    } else if Depth(|b|) < Depth(|a|) {
      var x, left, right := ShallowLeafIsNode(PairHash(), b, a);
      assert false;
    } else if a != b {
      var x := EqualRootsCollide(PairHash(), a, b);
      assert false;
    }
  }

  /** The flag is what excludes the classic ambiguity: repeating the last txid of an odd list keeps
      the root, and is always flagged. */
  lemma {:induction false} RepeatedTailIsFlagged<T>(node: NodeHash<T>, a: seq<T>)
    requires |a| > 1 && |a| % 2 == 1
    ensures Root(node, a + [a[|a| - 1]]) == Root(node, a)
    ensures Mutated(node, a + [a[|a| - 1]])
  {
    var longer := a + [a[|a| - 1]];
    assert PairUp(node, longer) == PairUp(node, a) by {
      forall j | 0 <= j < |PairUp(node, a)|
        ensures PairUp(node, longer)[j] == PairUp(node, a)[j]
      {
        PairUpAt(node, a, j);
        PairUpAt(node, longer, j);
      }
    }
    var i := |a| / 2;
    assert longer[2 * i] == longer[2 * i + 1];
  }

  /** `merkle_root_and_mutation`: each pass overwrites the front of the vector with the next level. */
  method MerkleRootAndMutation<T(==)>(node: NodeHash<T>, txids: seq<T>) returns (root: T, mutated: bool)
    requires txids != []
    ensures root == Root(node, txids)
    ensures mutated <==> Mutated(node, txids)
  {
    var hashes := txids;
    mutated := false;
    while |hashes| > 1
      invariant hashes != []
      invariant Root(node, hashes) == Root(node, txids)
      invariant mutated || Mutated(node, hashes) <==> Mutated(node, txids)
      decreases |hashes|
    {
      var twins := FindTwins(hashes);
      mutated := mutated || twins;
      hashes := Collapse(node, hashes);
    }
    root := hashes[0];
  }

  /** One pass: duplicate an odd tail, overwrite hash `index` with the pair at 2*index, truncate. */
  method Collapse<T>(node: NodeHash<T>, level: seq<T>) returns (hashes: seq<T>)
    requires level != []
    ensures hashes == PairUp(node, level)
  {
    hashes := level;
    if |hashes| % 2 != 0 {
      hashes := hashes + [hashes[|hashes| - 1]];
    }
    ghost var even := hashes;
    var nextLength := |hashes| / 2;
    for index := 0 to nextLength
      invariant |hashes| == |even|
      invariant forall k :: 0 <= k < index ==> hashes[k] == PairUp(node, level)[k]
      invariant forall k :: index <= k < |even| ==> hashes[k] == even[k]
    {
      PairUpAt(node, level, index);
      hashes := hashes[index := node(hashes[2 * index], hashes[2 * index + 1])];
    }
    hashes := hashes[..nextLength];
  }

  method FindTwins<T(==)>(level: seq<T>) returns (found: bool)
    ensures found <==> HasTwins(level)
  {
    found := false;
    for i := 0 to |level| / 2
      invariant found <==> exists k :: 0 <= k < i && level[2 * k] == level[2 * k + 1]
    {
      found := found || level[2 * i] == level[2 * i + 1];
    }
  }

  // ----- leaf proofs -----

  function Path<T>(node: NodeHash<T>, level: seq<T>, i: nat): (siblings: seq<T>)
    requires i < |level|
    ensures |siblings| == Depth(|level|)
    decreases |level|
  {
    if |level| == 1 then [] else [level[Partner(|level|, i)]] + Path(node, PairUp(node, level), i / 2)
  }

  function Climb<T>(node: NodeHash<T>, siblings: seq<T>, hash: T, index: nat): T
    decreases |siblings|
  {
    if siblings == [] then hash
    else
      Climb(node, siblings[1..], if index % 2 == 0 then node(hash, siblings[0]) else node(siblings[0], hash), index / 2)
  }

  lemma {:induction false} DepthIsBitLength(n: nat)
    requires n > 0
    ensures Depth(n) == BitLength(n - 1)
  {
    if n > 1 {
      DepthIsBitLength((n + 1) / 2);
      assert (n - 1) / 2 == (n + 1) / 2 - 1;
    }
  }

  lemma {:induction false} PathSplit<T>(node: NodeHash<T>, level: seq<T>, i: nat, siblings: seq<T>)
    requires i < |level| && |level| > 1 && siblings != []
    ensures siblings == Path(node, level, i)
       <==> siblings[0] == level[Partner(|level|, i)] && siblings[1..] == Path(node, PairUp(node, level), i / 2)
  {
    assert siblings == [siblings[0]] + siblings[1..];
    assert Path(node, level, i)[1..] == Path(node, PairUp(node, level), i / 2);
  }

  /** Equal node hashes have equal children. */
  ghost predicate Injective<T(!new)>(node: NodeHash<T>) {
    forall a, b, c, d :: node(a, b) == node(c, d) ==> a == c && b == d
  }

  lemma {:induction false} PairHashInjective()
    ensures Injective(PairHash())
  {
  }

  /** With the true leaf count, siblings of the right depth reach the root exactly when they are the
      path of the true leaf. */
  lemma {:induction false} ProofIffLeaf<T(!new)>(node: NodeHash<T>, level: seq<T>, siblings: seq<T>, leaf: T, i: nat)
    requires Injective(node) && i < |level| && |siblings| == Depth(|level|)
    ensures Climb(node, siblings, leaf, i) == Root(node, level) <==> leaf == level[i] && siblings == Path(node, level, i)
    decreases |level|
  {
    if |level| > 1 {
      var parent := if i % 2 == 0 then node(leaf, siblings[0]) else node(siblings[0], leaf);
      PairUpAt(node, level, i / 2);
      assert parent == PairUp(node, level)[i / 2] <==> leaf == level[i] && siblings[0] == level[Partner(|level|, i)];
      ProofIffLeaf(node, PairUp(node, level), siblings[1..], parent, i / 2);
      PathSplit(node, level, i, siblings);
    }
  }

  /** The path of a leaf reaches the root, whatever the node hash. */
  lemma {:induction false} PathReachesRoot<T>(node: NodeHash<T>, level: seq<T>, i: nat)
    requires i < |level|
    ensures Climb(node, Path(node, level, i), level[i], i) == Root(node, level)
    decreases |level|
  {
    if |level| > 1 {
      PairUpAt(node, level, i / 2);
      PathSplit(node, level, i, Path(node, level, i));
      PathReachesRoot(node, PairUp(node, level), i / 2);
    }
  }

  datatype MerkleError = EmptyTree | IndexOutOfRange | MalformedProof

  datatype MerkleProof<T> = MerkleProof(leafIndex: u64, leafCount: u64, siblings: seq<T>)

  lemma {:induction false} PathStep<T>(node: NodeHash<T>, done: seq<T>, level: seq<T>, position: nat)
    requires position < |level| && |level| > 1
    ensures done + Path(node, level, position)
         == done + [level[Partner(|level|, position)]] + Path(node, PairUp(node, level), position / 2)
  {
    var here, above := [level[Partner(|level|, position)]], Path(node, PairUp(node, level), position / 2);
    assert Path(node, level, position) == here + above;
    assert done + (here + above) == done + here + above;
  }

  method NextLevel<T>(node: NodeHash<T>, level: seq<T>) returns (next: seq<T>)
    ensures next == PairUp(node, level)
  {
    next := [];
    var i := 0;
    while i < |level|
      invariant 0 <= i <= |level| + 1 && i % 2 == 0 && |next| == i / 2
      invariant forall k :: 0 <= k < |next| ==> next[k] == PairUp(node, level)[k]
    {
      var left := level[i];
      var right := if i + 1 < |level| then level[i + 1] else left;
      PairUpAt(node, level, i / 2);
      next := next + [node(left, right)];
      i := i + 2;
    }
  }

  method MerkleRoot<T>(node: NodeHash<T>, leaves: seq<T>, emptyRoot: T) returns (root: T)
    ensures root == if leaves == [] then emptyRoot else Root(node, leaves)
  {
    if leaves == [] {
      return emptyRoot;
    }
    var level := leaves;
    while |level| > 1
      invariant level != [] && Root(node, level) == Root(node, leaves)
      decreases |level|
    {
      level := NextLevel(node, level);
    }
    return level[0];
  }

  /** The prover answers for every index of the list, with the path of exactly that leaf. */
  method ProveLeaf<T>(node: NodeHash<T>, leaves: seq<T>, index: nat) returns (r: Result<MerkleProof<T>, MerkleError>)
    requires |leaves| <= U64_MAX
    ensures r == if leaves == [] then Err(EmptyTree) else if index >= |leaves| then Err(IndexOutOfRange)
                 else Ok(MerkleProof(index, |leaves|, Path(node, leaves, index)))
  {
    if leaves == [] {
      return Err(EmptyTree);
    }
    if index >= |leaves| {
      return Err(IndexOutOfRange);
    }
    var level := leaves;
    var position: nat := index;
    var siblings: seq<T> := [];
    while |level| > 1
      invariant position < |level|
      invariant siblings + Path(node, level, position) == Path(node, leaves, index)
      decreases |level|
    {
      var sibling := if position % 2 == 0 then Min(position + 1, |level| - 1) else position - 1;
      PathStep(node, siblings, level, position);
      siblings := siblings + [level[sibling]];
      level := NextLevel(node, level);
      position := position / 2;
    }
    assert siblings == siblings + Path(node, level, position);
    return Ok(MerkleProof(index, |leaves|, siblings));
  }

  method VerifyProof<T(==)>(node: NodeHash<T>, p: MerkleProof<T>, leaf: T, expectedRoot: T) returns (r: Result<bool, MerkleError>)
    ensures r == if p.leafIndex >= p.leafCount || |p.siblings| != Depth(p.leafCount) then Err(MalformedProof)
                 else Ok(Climb(node, p.siblings, leaf, p.leafIndex) == expectedRoot)
  {
    if p.leafCount == 0 || p.leafIndex >= p.leafCount {
      return Err(MalformedProof);
    }
    var expectedDepth := if p.leafCount <= 1 then 0 else BitLength(p.leafCount - 1);
    DepthIsBitLength(p.leafCount);
    if |p.siblings| != expectedDepth {
      return Err(MalformedProof);
    }
    var hash := leaf;
    var index: nat := p.leafIndex;
    for i := 0 to |p.siblings|
      invariant Climb(node, p.siblings[i..], hash, index) == Climb(node, p.siblings, leaf, p.leafIndex)
    {
      var sibling := p.siblings[i];
      assert p.siblings[i..][1..] == p.siblings[i + 1..];
      hash := if index % 2 == 0 then node(hash, sibling) else node(sibling, hash);
      index := index / 2;
    }
    return Ok(hash == expectedRoot);
  }

  /** On hash terms no hypothesis is left: a well-formed proof with the true leaf count verifies exactly
      when it is the prover's own proof of the leaf at its index. */
  lemma {:induction false} PairProofIffLeaf(leaves: seq<Digest>, p: MerkleProof<Digest>, leaf: Digest)
    requires p.leafCount == |leaves| && p.leafIndex < p.leafCount && |p.siblings| == Depth(p.leafCount)
    ensures Climb(PairHash(), p.siblings, leaf, p.leafIndex) == Root(PairHash(), leaves)
       <==> leaf == leaves[p.leafIndex] && p == MerkleProof(p.leafIndex, |leaves|, Path(PairHash(), leaves, p.leafIndex))
  {
    PairHashInjective();
    ProofIffLeaf(PairHash(), leaves, p.siblings, leaf, p.leafIndex);
  }

  /** The full prove-and-verify round trip, as the prover and verifier methods compute it. */
  method RoundTrip<T(==)>(node: NodeHash<T>, leaves: seq<T>, index: nat) returns (r: Result<bool, MerkleError>)
    requires index < |leaves| <= U64_MAX
    ensures r == Ok(true)
  {
    var proof := ProveLeaf(node, leaves, index);
    PathReachesRoot(node, leaves, index);
    r := VerifyProof(node, proof.value, leaves[index], Root(node, leaves));
  }
}
