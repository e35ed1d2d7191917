/** The depth-64 append-only burn accumulator (crates/usdd-core/src/burn_accumulator.rs). */
module BurnTree {
  import opened Machine
  import opened Digests

  const DEPTH: nat := 64

  // ----- the reference tree -----

  /** Node `k` of height `h` of the perfect tree whose unused leaves are empty. */
  function At(leaves: seq<Digest>, h: nat, k: nat): Digest {
    if h == 0 then
      if k < |leaves| then leaves[k] else BurnEmpty
    else
      BurnNode(At(leaves, h - 1, 2 * k), At(leaves, h - 1, 2 * k + 1))
  }

  function Root(leaves: seq<Digest>): Digest {
    At(leaves, DEPTH, 0)
  }

  function EmptyAt(h: nat): Digest {
    if h == 0 then BurnEmpty else BurnNode(EmptyAt(h - 1), EmptyAt(h - 1))
  }

  /** The ancestor of position `k`, `d` levels up. */
  function Up(k: nat, d: nat): nat {
    if d == 0 then k else Up(k / 2, d - 1)
  }

  function Sibling(k: nat): nat {
    if k % 2 == 0 then k + 1 else k - 1
  }

  /** The true siblings on the way from node (h, k) up `d` levels, bottom first. */
  function PathSiblings(leaves: seq<Digest>, h: nat, k: nat, d: nat): (s: seq<Digest>)
    ensures |s| == d
    decreases d, leaves, h, k
  {
    if d == 0 then [] else [At(leaves, h, Sibling(k))] + PathSiblings(leaves, h + 1, k / 2, d - 1)
  }

  /** Hash `node` upward past the given siblings, turning by the low bit of `k`. */
  function Fold(siblings: seq<Digest>, node: Digest, k: nat): Digest {
    if siblings == [] then node
    else
      var parent := if k % 2 == 0 then BurnNode(node, siblings[0]) else BurnNode(siblings[0], node);
      Fold(siblings[1..], parent, k / 2)
  }

  // ----- positions -----

  lemma {:induction false} UpStep(k: nat, d: nat)
    ensures Up(k, d + 1) == Up(k, d) / 2
  {
    if d > 0 {
      UpStep(k / 2, d - 1);
    }
  }

  lemma {:induction false} ShiftIsUp(k: nat, d: nat)
    ensures k / Pow2(d) == Up(k, d)
  {
    if d > 0 {
      ShiftIsUp(k, d - 1);
      UpStep(k, d - 1);
      DivDiv(k, Pow2(d - 1), 2);
    }
  }

  lemma {:induction false} UpTop(k: nat)
    requires k < U64_LIMIT
    ensures Up(k, DEPTH) == 0
  {
    ShiftIsUp(k, DEPTH);
    Pow2Words();
    DivUnique(k, U64_LIMIT, 0, k);
  }

  // ----- proofs against the reference tree -----

  /** The true siblings prove the true node. */
  lemma {:induction false} PathComplete(leaves: seq<Digest>, h: nat, k: nat, d: nat)
    ensures Fold(PathSiblings(leaves, h, k, d), At(leaves, h, k), k) == At(leaves, h + d, Up(k, d))
    decreases d
  {
    if d > 0 {
      PathComplete(leaves, h + 1, k / 2, d - 1);
      var s := PathSiblings(leaves, h, k, d);
      assert s[1..] == PathSiblings(leaves, h + 1, k / 2, d - 1);
    }
  }

  /** Any siblings that lead to a true node are the true siblings, and what they prove is true. */
  lemma {:induction false} PathBinding(leaves: seq<Digest>, h: nat, k: nat, siblings: seq<Digest>, node: Digest)
    requires Fold(siblings, node, k) == At(leaves, h + |siblings|, Up(k, |siblings|))
    ensures node == At(leaves, h, k)
    ensures siblings == PathSiblings(leaves, h, k, |siblings|)
    decreases |siblings|
  {
    if siblings != [] {
      var parent := if k % 2 == 0 then BurnNode(node, siblings[0]) else BurnNode(siblings[0], node);
      PathBinding(leaves, h + 1, k / 2, siblings[1..], parent);
      assert siblings == [siblings[0]] + siblings[1..];
    }
  }

  /** Two lists that agree except at position `k` have equal nodes off the path of `k`. */
  lemma {:induction false} AtOffPath(a: seq<Digest>, b: seq<Digest>, k: nat, h: nat, j: nat)
    requires forall i: nat :: i != k ==> At(a, 0, i) == At(b, 0, i)
    requires j != Up(k, h)
    ensures At(a, h, j) == At(b, h, j)
  {
    if h > 0 {
      UpStep(k, h - 1);
      AtOffPath(a, b, k, h - 1, 2 * j);
      AtOffPath(a, b, k, h - 1, 2 * j + 1);
    }
  }

  lemma {:induction false} SiblingsOffPath(a: seq<Digest>, b: seq<Digest>, k: nat, h: nat, d: nat)
    requires forall i: nat :: i != k ==> At(a, 0, i) == At(b, 0, i)
    ensures PathSiblings(a, h, Up(k, h), d) == PathSiblings(b, h, Up(k, h), d)
    decreases d
  {
    if d > 0 {
      UpStep(k, h);
      AtOffPath(a, b, k, h, Sibling(Up(k, h)));
      SiblingsOffPath(a, b, k, h + 1, d - 1);
    }
  }

  // ----- main results on roots and branches -----

  /** A 64-sibling branch verifies under the root of a list exactly when it carries the padded
      entry at its index together with the true siblings. */
  lemma {:induction false} BranchIffEntry(leaves: seq<Digest>, leaf: Digest, index: u64, branch: seq<Digest>)
    requires |branch| == DEPTH
    ensures Fold(branch, leaf, index) == Root(leaves)
       <==> leaf == At(leaves, 0, index) && branch == PathSiblings(leaves, 0, index, DEPTH)
  {
    UpTop(index);
    PathComplete(leaves, 0, index, DEPTH);
    if Fold(branch, leaf, index) == Root(leaves) {
      PathBinding(leaves, 0, index, branch, leaf);
    }
  }

  /** Checking that slot |leaves| is empty, then hashing a new leaf along the same branch,
      gives the root of the list with that leaf appended, whoever supplied the branch. */
  lemma {:induction false} AppendByBranch(leaves: seq<Digest>, leaf: Digest, branch: seq<Digest>)
    requires |leaves| <= U64_MAX
    requires |branch| == DEPTH
    requires Fold(branch, BurnEmpty, |leaves|) == Root(leaves)
    ensures Fold(branch, leaf, |leaves|) == Root(leaves + [leaf])
  {
    var k := |leaves|;
    assert forall i: nat :: i != k ==> At(leaves, 0, i) == At(leaves + [leaf], 0, i);
    BranchIffEntry(leaves, BurnEmpty, k, branch);
    SiblingsOffPath(leaves, leaves + [leaf], k, 0, DEPTH);
    assert At(leaves + [leaf], 0, k) == leaf;
    BranchIffEntry(leaves + [leaf], leaf, k, branch);
  }

  lemma {:induction false} EqualRootsEqualEntries(a: seq<Digest>, b: seq<Digest>, i: u64)
    requires Root(a) == Root(b)
    ensures At(a, 0, i) == At(b, 0, i)
  {
    var branch := PathSiblings(a, 0, i, DEPTH);
    BranchIffEntry(a, At(a, 0, i), i, branch);
    BranchIffEntry(b, At(a, 0, i), i, branch);
  }

  /** The root determines the list, length included, as long as no leaf is the empty one. */
  lemma {:induction false} RootInjective(a: seq<Digest>, b: seq<Digest>)
    requires BurnEmpty !in a && BurnEmpty !in b
    requires |a| <= U64_LIMIT && |b| <= U64_LIMIT
    requires Root(a) == Root(b)
    ensures a == b
  {
    if |a| != |b| {
      EqualRootsEqualEntries(a, b, if |a| < |b| then |a| else |b|);
      assert false;
    }
    forall i | 0 <= i < |a|
      ensures a[i] == b[i]
    {
      EqualRootsEqualEntries(a, b, i);
    }
  }

  // ----- the layered computation -----

  function LayerLength(n: nat, h: nat): nat {
    if h == 0 then n else (LayerLength(n, h - 1) + 1) / 2
  }

  ghost predicate IsLayer(leaves: seq<Digest>, layer: seq<Digest>, h: nat) {
    && |layer| == LayerLength(|leaves|, h)
    && forall k :: 0 <= k < |layer| ==> layer[k] == At(leaves, h, k)
  }

  /** Past the end of a layer there are only perfect empty subtrees. */
  lemma {:induction false} PaddingIsEmpty(leaves: seq<Digest>, h: nat, k: nat)
    requires k >= LayerLength(|leaves|, h)
    ensures At(leaves, h, k) == EmptyAt(h)
  {
    if h > 0 {
      PaddingIsEmpty(leaves, h - 1, 2 * k);
      PaddingIsEmpty(leaves, h - 1, 2 * k + 1);
    }
  }

  lemma {:induction false} LayerShrinks(n: nat, h: nat)
    requires 0 < n <= U64_LIMIT && h <= DEPTH
    ensures 0 < LayerLength(n, h) <= Pow2(DEPTH - h)
  {
    if h == 0 {
      Pow2Words();
    } else {
      LayerShrinks(n, h - 1);
    }
  }

  datatype BurnError = WrongDepth(height: nat) | TooManyLeaves | IndexOutOfRange

  method EmptyRoot(height: nat) returns (r: Result<Digest, BurnError>)
    ensures r == if height > DEPTH then Err(WrongDepth(height)) else Ok(EmptyAt(height))
  {
    if height > DEPTH {
      return Err(WrongDepth(height));
    }
    var value := BurnEmpty;
    for i := 0 to height
      invariant value == EmptyAt(i)
    {
      value := BurnNode(value, value);
    }
    return Ok(value);
  }

  /** Pair up one layer, completing an odd tail with the empty subtree of its height. */
  method NextLayer(layer: seq<Digest>, height: nat, ghost leaves: seq<Digest>) returns (next: seq<Digest>)
    requires height < DEPTH
    requires IsLayer(leaves, layer, height)
    ensures IsLayer(leaves, next, height + 1)
  {
    next := [];
    var i := 0;
    while i < |layer|
      invariant 0 <= i <= |layer| + 1 && i % 2 == 0
      invariant |next| == i / 2
      invariant forall k :: 0 <= k < |next| ==> next[k] == At(leaves, height + 1, k)
    {
      var right;
      if i + 1 < |layer| {
        right := layer[i + 1];
      } else {
        var empty := EmptyRoot(height);
        right := empty.value;
        PaddingIsEmpty(leaves, height, i + 1);
      }
      assert At(leaves, height + 1, i / 2) == BurnNode(layer[i], right);
      next := next + [BurnNode(layer[i], right)];
      i := i + 2;
    }
  }

  method RootForLeaves(leaves: seq<Digest>) returns (root: Digest)
    requires |leaves| <= U64_LIMIT
    ensures root == Root(leaves)
  {
    if |leaves| == 0 {
      var empty := EmptyRoot(DEPTH);
      EmptyListRoot(leaves);
      return empty.value;
    }
    var layer := leaves;
    for height := 0 to DEPTH
      invariant IsLayer(leaves, layer, height)
    {
      layer := NextLayer(layer, height, leaves);
    }
    LayerShrinks(|leaves|, DEPTH);
    return layer[0];
  }

  lemma {:induction false} EmptyLayers(h: nat)
    ensures LayerLength(0, h) == 0
  {
    if h > 0 {
      EmptyLayers(h - 1);
    }
  }

  lemma {:induction false} EmptyListRoot(leaves: seq<Digest>)
    requires leaves == []
    ensures Root(leaves) == EmptyAt(DEPTH)
  {
    EmptyLayers(DEPTH);
    PaddingIsEmpty(leaves, DEPTH, 0);
  }

  /** `BurnProof::compute_root`, reading bit `level` of the index at each level. */
  method ComputeRoot(branch: seq<Digest>, leaf: Digest, index: u64) returns (node: Digest)
    requires |branch| == DEPTH
    ensures node == Fold(branch, leaf, index)
  {
    node := leaf;
    for level := 0 to DEPTH
      invariant Fold(branch[level..], node, Up(index, level)) == Fold(branch, leaf, index)
    {
      var sibling := branch[level];
      ShiftIsUp(index, level);
      UpStep(index, level);
      if (index / Pow2(level)) % 2 == 0 {
        node := BurnNode(node, sibling);
      } else {
        node := BurnNode(sibling, node);
      }
      assert branch[level..][1..] == branch[level + 1..];
    }
  }

  method Verify(branch: seq<Digest>, root: Digest, leaf: Digest, index: u64) returns (ok: bool)
    requires |branch| == DEPTH
    ensures ok <==> Fold(branch, leaf, index) == root
  {
    var computed := ComputeRoot(branch, leaf, index);
    return computed == root;
  }

  class BurnAccumulator {
    var leaves: seq<Digest>

    ghost predicate Valid()
      reads this
    {
      |leaves| <= U64_LIMIT
    }

    constructor ()
      ensures Valid() && leaves == []
    {
      leaves := [];
    }

    method Append(leaf: Digest) returns (r: Result<u64, BurnError>)
      requires Valid()
      modifies this
      ensures Valid()
      ensures r == if old(|leaves|) > U64_MAX then Err(TooManyLeaves) else Ok(old(|leaves|))
      ensures leaves == if r.Ok? then old(leaves) + [leaf] else old(leaves)
    {
      if |leaves| > U64_MAX {
        return Err(TooManyLeaves);
      }
      var index: u64 := |leaves|;
      leaves := leaves + [leaf];
      return Ok(index);
    }

    method ComputedRoot() returns (root: Digest)
      requires Valid()
      ensures root == Root(leaves)
    {
      root := RootForLeaves(leaves);
    }

    /** The branch built from collapsing layers is the true sibling path, so it verifies. */
    method Proof(index: u64) returns (r: Result<seq<Digest>, BurnError>)
      requires Valid()
      ensures r.Ok? <==> index < |leaves|
      ensures r.Err? ==> r.error == IndexOutOfRange
      ensures r.Ok? ==> r.value == PathSiblings(leaves, 0, index, DEPTH)
      ensures r.Ok? ==> Fold(r.value, leaves[index], index) == Root(leaves)
    {
      if index >= |leaves| {
        return Err(IndexOutOfRange);
      }
      var layer := leaves;
      var position: nat := index;
      var siblings: seq<Digest> := [];
      for height := 0 to DEPTH
        invariant position == Up(index, height)
        invariant IsLayer(leaves, layer, height) && position < |layer|
        invariant |siblings| == height
        invariant siblings + PathSiblings(leaves, height, position, DEPTH - height)
               == PathSiblings(leaves, 0, index, DEPTH)
      {
        var siblingPosition := Sibling(position);
        var sibling;
        var empty := EmptyRoot(height);
        if siblingPosition < |layer| {
          sibling := layer[siblingPosition];
        } else {
          sibling := empty.value;
          PaddingIsEmpty(leaves, height, siblingPosition);
        }
        assert siblings + PathSiblings(leaves, height, position, DEPTH - height)
            == siblings + [sibling] + PathSiblings(leaves, height + 1, position / 2, DEPTH - height - 1);
        siblings := siblings + [sibling];
        if |layer| > 1 {
          layer := NextLayer(layer, height, leaves);
        } else {
          PaddingIsEmpty(leaves, height, 1);
          assert At(leaves, height + 1, 0) == BurnNode(layer[0], empty.value);
          layer := layer[0 := BurnNode(layer[0], empty.value)];
        }
        UpStep(index, height);
        position := position / 2;
      }
      BranchIffEntry(leaves, leaves[index], index, siblings);
      return Ok(siblings);
    }
  }
}
