/** The Merkle tree over transaction hashes: layers, proofs and their verification. */
module Merkle {
  import opened Bytes

  type Layer = seq<Hash>

  /** The two hashes in ascending order, as they are fed to the hash function. */
  function Join(a: Hash, b: Hash): (r: Bytes)
    ensures |r| == 64
  {
    if Less(b, a) then b + a else a + b
  }

  function PairHash(sha3: Bytes -> Hash, a: Hash, b: Hash): Hash {
    sha3(Join(a, b))
  }

  /** The layer above: neighbours are hashed together, a last node without neighbour is kept. */
  function NewLayer(sha3: Bytes -> Hash, layer: Layer): (r: Layer)
    ensures |r| == (|layer| + 1) / 2
  {
    seq((|layer| + 1) / 2, k requires 0 <= k < (|layer| + 1) / 2 =>
      if 2 * k + 1 < |layer| then PairHash(sha3, layer[2 * k], layer[2 * k + 1]) else layer[2 * k])
  }

  /** Every layer but the last is above one node wide and has its `NewLayer` on top. */
  ghost predicate IsTree(sha3: Bytes -> Hash, tree: seq<Layer>) {
    && |tree| > 0
    && |tree[|tree| - 1]| <= 1
    && forall t :: 0 <= t < |tree| - 1 ==> |tree[t]| > 1 && tree[t + 1] == NewLayer(sha3, tree[t])
  }

  function Root(sha3: Bytes -> Hash, layer: Layer): Hash
    decreases |layer|
  {
    if |layer| == 0 then ZERO_HASH
    else if |layer| == 1 then layer[0]
    else Root(sha3, NewLayer(sha3, layer))
  }

  function Leaves(sha3: Bytes -> Hash, items: seq<Hash>): (r: Layer)
    ensures |r| == |items|
  {
    seq(|items|, k requires 0 <= k < |items| => sha3(items[k]))
  }

  function Sibling(pos: nat): nat {
    if pos % 2 == 0 then pos + 1 else pos - 1
  }

  /** The siblings on the way up; `None` where the source reads past the end of a layer. */
  function Proof(sha3: Bytes -> Hash, layer: Layer, pos: nat): Option<seq<Hash>>
    decreases |layer|
  {
    if |layer| == 1 then Some([])
    else if Sibling(pos) >= |layer| then None
    else
      match Proof(sha3, NewLayer(sha3, layer), pos / 2)
      case None => None
      case Some(rest) => Some([layer[Sibling(pos)]] + rest)
  }

  /** Folding a proof onto a leaf. */
  function Climb(sha3: Bytes -> Hash, leaf: Hash, proof: seq<Hash>): Hash
    decreases |proof|
  {
    if proof == [] then leaf else Climb(sha3, PairHash(sha3, leaf, proof[0]), proof[1..])
  }

  // ---------------------------------------------------------------- completeness

  lemma JoinSymmetric(a: Hash, b: Hash)
    ensures Join(a, b) == Join(b, a)
  {
    LessTotal(a, b);
  }

  lemma JoinInjective(a: Hash, b: Hash, c: Hash, d: Hash)
    requires Join(a, b) == Join(c, d)
    ensures (a == c && b == d) || (a == d && b == c)
  {
    assert Join(a, b)[..32] == Join(c, d)[..32];
    assert Join(a, b)[32..] == Join(c, d)[32..];
  }

  /** Two hashes are fed to the hash function the smaller one first, as numbers. */
  lemma SmallerFirst(a: Hash, b: Hash)
    ensures var first, second := Join(a, b)[..32], Join(a, b)[32..];
            && FromBigEndian(first) <= FromBigEndian(second)
            && ((first == a && second == b) || (first == b && second == a))
  {
    hide Less, FromBigEndian;
    OrderIsNumeric(a, b);
    OrderIsNumeric(b, a);
  }

  /** Position `pos` has a sibling in every layer of a tree over `n` leaves. */
  predicate Paired(n: nat, pos: nat)
    decreases n
  {
    n == 1 || (Sibling(pos) < n && Paired((n + 1) / 2, pos / 2))
  }

  /** A proof can be read exactly when every node on the path has a sibling. */
  lemma {:induction false} ProofDefined(sha3: Bytes -> Hash, layer: Layer, pos: nat)
    ensures Proof(sha3, layer, pos).Some? <==> Paired(|layer|, pos)
    decreases |layer|
  {
    if |layer| != 1 && Sibling(pos) < |layer| {
      ProofDefined(sha3, NewLayer(sha3, layer), pos / 2);
    }
  }

  lemma ParentHash(sha3: Bytes -> Hash, layer: Layer, pos: nat)
    requires pos < |layer| && Sibling(pos) < |layer|
    ensures NewLayer(sha3, layer)[pos / 2] == PairHash(sha3, layer[pos], layer[Sibling(pos)])
  {
    JoinSymmetric(layer[pos], layer[Sibling(pos)]);
    if pos % 2 == 0 {
      assert 2 * (pos / 2) == pos;
    } else {
      assert 2 * (pos / 2) == pos - 1;
    }
  }

  /** Every proof that can be read verifies the leaf it was made for. */
  lemma {:induction false} ProofVerifies(sha3: Bytes -> Hash, layer: Layer, pos: nat)
    requires pos < |layer| && Paired(|layer|, pos)
    ensures Proof(sha3, layer, pos).Some?
    ensures Climb(sha3, layer[pos], Proof(sha3, layer, pos).value) == Root(sha3, layer)
    decreases |layer|
  {
    if |layer| != 1 {
      var up := NewLayer(sha3, layer);
      ProofVerifies(sha3, up, pos / 2);
      ParentHash(sha3, layer, pos);
      var rest := Proof(sha3, up, pos / 2).value;
      assert ([layer[Sibling(pos)]] + rest)[1..] == rest;
    }
  }

  function Pow2(k: nat): (p: nat)
    ensures p > 0
  {
    if k == 0 then 1 else 2 * Pow2(k - 1)
  }

  /** In a tree over a power of two of leaves every position is paired. */
  lemma {:induction false} PowerOfTwoPaired(k: nat, pos: nat)
    requires pos < Pow2(k)
    ensures Paired(Pow2(k), pos)
    decreases k
  {
    if k != 0 {
      PowerOfTwoPaired(k - 1, pos / 2);
    }
  }

  /** With an odd number of leaves above one, the last leaf has no proof. */
  lemma OddLastUnpaired(n: nat)
    requires n > 1 && n % 2 == 1
    ensures !Paired(n, n - 1)
  {
  }

  // ---------------------------------------------------------------- soundness

  /** Everything hashed while the tree was built is among `inputs`. */
  ghost predicate TreeInputsIn(tree: seq<Layer>, inputs: set<Bytes>) {
    forall t, k :: 0 <= t < |tree| - 1 && 0 <= k && 2 * k + 1 < |tree[t]| ==>
      Join(tree[t][2 * k], tree[t][2 * k + 1]) in inputs
  }

  /** Everything hashed while the proof is verified is among `inputs`. */
  ghost predicate ProofInputsIn(sha3: Bytes -> Hash, leaf: Hash, proof: seq<Hash>, inputs: set<Bytes>)
    decreases |proof|
  {
    proof == [] || (Join(leaf, proof[0]) in inputs
                    && ProofInputsIn(sha3, PairHash(sha3, leaf, proof[0]), proof[1..], inputs))
  }

  ghost predicate CollisionFree(sha3: Bytes -> Hash, inputs: set<Bytes>) {
    forall x, y :: x in inputs && y in inputs && sha3(x) == sha3(y) ==> x == y
  }

  /** Every layer is twice as wide as the one above it: the number of leaves is a power of two. */
  ghost predicate FullTree(tree: seq<Layer>) {
    |tree| > 0 && |tree[|tree| - 1]| == 1 && forall t :: 0 <= t < |tree| - 1 ==> |tree[t]| == 2 * |tree[t + 1]|
  }

  /**
   * In a full tree, a proof as long as the tree is deep that verifies is for a node of the tree,
   * as long as no two of the byte strings hashed on either side collide.
   */
  lemma {:induction false} VerifiedIsLeaf(
      sha3: Bytes -> Hash, tree: seq<Layer>, t: nat, leaf: Hash, proof: seq<Hash>, inputs: set<Bytes>)
    requires IsTree(sha3, tree) && FullTree(tree) && t < |tree| && |proof| == |tree| - 1 - t
    requires CollisionFree(sha3, inputs) && TreeInputsIn(tree, inputs) && ProofInputsIn(sha3, leaf, proof, inputs)
    requires Climb(sha3, leaf, proof) == tree[|tree| - 1][0]
    ensures leaf in tree[t]
    decreases |proof|
  {
    if proof == [] {
      assert tree[t][0] == leaf;
    } else {
      hide CollisionFree, TreeInputsIn, IsTree, FullTree, PairHash, Join;
      VerifiedIsLeaf(sha3, tree, t + 1, PairHash(sha3, leaf, proof[0]), proof[1..], inputs);
      ChildOfNode(sha3, tree, t, leaf, proof[0], inputs);
    }
  }

  /** Whatever hashes to a node of the next layer is a pair of neighbours of this one. */
  lemma ChildOfNode(sha3: Bytes -> Hash, tree: seq<Layer>, t: nat, leaf: Hash, other: Hash, inputs: set<Bytes>)
    requires IsTree(sha3, tree) && FullTree(tree) && t + 1 < |tree| && PairHash(sha3, leaf, other) in tree[t + 1]
    requires CollisionFree(sha3, inputs) && TreeInputsIn(tree, inputs) && Join(leaf, other) in inputs
    ensures leaf in tree[t]
  {
    hide Join;
    var j :| 0 <= j < |tree[t + 1]| && tree[t + 1][j] == PairHash(sha3, leaf, other);
    var left, right := tree[t][2 * j], tree[t][2 * j + 1];
    assert tree[t + 1][j] == PairHash(sha3, left, right);
    assert Join(left, right) in inputs;
    JoinInjective(left, right, leaf, other);
  }

  // ---------------------------------------------------------------- the source's loops

  method BuildLayer(sha3: Bytes -> Hash, layer: Layer) returns (ret: Layer)
    ensures ret == NewLayer(sha3, layer)
  {
    ret := [];
    var i := 0;
    while i < |layer|
      invariant i == 2 * |ret| && i <= |layer| + 1
      invariant forall k :: 0 <= k < |ret| ==> ret[k] == NewLayer(sha3, layer)[k]
    {
      ret := ret + [if i + 1 < |layer| then PairHash(sha3, layer[i], layer[i + 1]) else layer[i]];
      i := i + 2;
    }
  }

  /** The constructor: hash the leaves, then add layers until one is a root. */
  method BuildTree(sha3: Bytes -> Hash, items: seq<Hash>) returns (tree: seq<Layer>)
    ensures IsTree(sha3, tree) && tree[0] == Leaves(sha3, items)
  {
    var base: Layer := [];
    for i := 0 to |items|
      invariant base == Leaves(sha3, items)[..i]
    {
      base := base + [sha3(items[i])];
    }
    tree := [base];
    while |tree[|tree| - 1]| > 1
      invariant |tree| > 0 && tree[0] == Leaves(sha3, items)
      invariant forall t :: 0 <= t < |tree| - 1 ==> |tree[t]| > 1 && tree[t + 1] == NewLayer(sha3, tree[t])
      decreases |tree[|tree| - 1]|
    {
      var next := BuildLayer(sha3, tree[|tree| - 1]);
      tree := tree + [next];
    }
  }

  /** The root is the same seen from every layer. */
  lemma {:induction false} RootOfTree(sha3: Bytes -> Hash, tree: seq<Layer>, t: nat)
    requires IsTree(sha3, tree) && t < |tree|
    ensures Root(sha3, tree[t]) == if tree[|tree| - 1] == [] then ZERO_HASH else tree[|tree| - 1][0]
    decreases |tree| - t
  {
    if t < |tree| - 1 {
      RootOfTree(sha3, tree, t + 1);
    }
  }

  /** A tree over a power of two of leaves is full, and as deep as the exponent says. */
  lemma {:induction false} PowerOfTwoFull(sha3: Bytes -> Hash, tree: seq<Layer>, k: nat)
    requires IsTree(sha3, tree) && |tree[0]| == Pow2(k)
    ensures FullTree(tree) && |tree| == k + 1
    decreases k
  {
    if k == 0 {
      assert |tree| == 1;
    } else {
      hide NewLayer;
      var rest := tree[1..];
      HalfWide(sha3, tree, k);
      PowerOfTwoFull(sha3, rest, k - 1);
      forall t | 0 <= t < |tree| - 1
        ensures |tree[t]| == 2 * |tree[t + 1]|
      {
        if t > 0 {
          assert tree[t] == rest[t - 1] && tree[t + 1] == rest[t];
        }
      }
    }
  }

  /** Over an even number of leaves the next layer is half as wide. */
  lemma HalfWide(sha3: Bytes -> Hash, tree: seq<Layer>, k: nat)
    requires IsTree(sha3, tree) && k > 0 && |tree[0]| == Pow2(k)
    ensures |tree| > 1 && |tree[1]| == Pow2(k - 1)
  {
  }

  /** Over a power of two of leaves, whatever a proof as long as the exponent verifies is one of the leaves. */
  lemma PowerOfTwoVerified(
      sha3: Bytes -> Hash, tree: seq<Layer>, k: nat, leaf: Hash, proof: seq<Hash>, inputs: set<Bytes>)
    requires IsTree(sha3, tree) && |tree[0]| == Pow2(k) && |proof| == k
    requires CollisionFree(sha3, inputs) && TreeInputsIn(tree, inputs) && ProofInputsIn(sha3, leaf, proof, inputs)
    requires Climb(sha3, leaf, proof) == Root(sha3, tree[0])
    ensures leaf in tree[0]
  {
    hide CollisionFree, TreeInputsIn, ProofInputsIn, Climb, Root;
    PowerOfTwoFull(sha3, tree, k);
    RootOfTree(sha3, tree, 0);
    VerifiedIsLeaf(sha3, tree, 0, leaf, proof, inputs);
  }

  method GetRoot(sha3: Bytes -> Hash, tree: seq<Layer>) returns (root: Hash)
    requires IsTree(sha3, tree)
    ensures root == Root(sha3, tree[0])
  {
    var top := tree[|tree| - 1];
    root := if |top| == 0 then ZERO_HASH else top[0];
    RootOfTree(sha3, tree, 0);
  }

  lemma SiblingParent(pos: nat)
    ensures Sibling(pos) / 2 == pos / 2
  {
  }

  lemma ProofStep(sha3: Bytes -> Hash, layer: Layer, pos: nat, front: seq<Hash>)
    requires |layer| != 1 && Sibling(pos) < |layer|
    ensures Prepend(front, Proof(sha3, layer, pos))
         == Prepend(front + [layer[Sibling(pos)]], Proof(sha3, NewLayer(sha3, layer), pos / 2))
  {
    var rest := Proof(sha3, NewLayer(sha3, layer), pos / 2);
    if rest.Some? {
      assert front + ([layer[Sibling(pos)]] + rest.value) == (front + [layer[Sibling(pos)]]) + rest.value;
    }
  }

  /** Reading a proof off the layers; an index past the leaves gives the empty proof. */
  method GetProof(sha3: Bytes -> Hash, tree: seq<Layer>, leafIndex: nat) returns (proof: Option<seq<Hash>>)
    requires IsTree(sha3, tree)
    ensures 0 < |tree[0]| <= leafIndex ==> proof == Some([])
    ensures leafIndex < |tree[0]| || tree[0] == [] ==> proof == Proof(sha3, tree[0], leafIndex)
  {
    if |tree[0]| > 0 && leafIndex > |tree[0]| - 1 {
      return Some([]);
    }
    hide IsTree, Proof, NewLayer, Sibling, Prepend;
    var pos: nat := leafIndex;
    var ret: seq<Hash> := [];
    var t: nat := 0;
    PrependEmpty(Proof(sha3, tree[0], leafIndex));
    while |tree[t]| != 1
      invariant t < |tree|
      invariant Prepend(ret, Proof(sha3, tree[t], pos)) == Proof(sha3, tree[0], leafIndex)
      decreases |tree| - t
    {
      var sibling := Sibling(pos);
      if sibling >= |tree[t]| {
        UnreadableProof(sha3, tree[t], pos, ret);
        return None;
      }
      NextLayer(sha3, tree, t);
      ProofStep(sha3, tree[t], pos, ret);
      SiblingParent(pos);
      ret := ret + [tree[t][sibling]];
      pos := sibling / 2;
      t := t + 1;
    }
    proof := Some(ret);
    FinishedProof(sha3, tree[t], pos, ret);
  }

  lemma NextLayer(sha3: Bytes -> Hash, tree: seq<Layer>, t: nat)
    requires IsTree(sha3, tree) && t < |tree| && |tree[t]| > 1
    ensures t + 1 < |tree| && tree[t + 1] == NewLayer(sha3, tree[t])
  {
  }

  lemma UnreadableProof(sha3: Bytes -> Hash, layer: Layer, pos: nat, front: seq<Hash>)
    requires |layer| != 1 && Sibling(pos) >= |layer|
    ensures Prepend(front, Proof(sha3, layer, pos)) == None
  {
  }

  lemma FinishedProof(sha3: Bytes -> Hash, layer: Layer, pos: nat, front: seq<Hash>)
    requires |layer| == 1
    ensures Prepend(front, Proof(sha3, layer, pos)) == Some(front)
  {
    assert front + [] == front;
  }

  method Verify(sha3: Bytes -> Hash, proof: seq<Hash>, leaf: Hash, root: Hash) returns (ok: bool)
    ensures ok <==> Climb(sha3, leaf, proof) == root
  {
    var computed := leaf;
    for i := 0 to |proof|
      invariant Climb(sha3, leaf, proof) == Climb(sha3, computed, proof[i..])
    {
      assert proof[i..][1..] == proof[i + 1..];
      computed := PairHash(sha3, computed, proof[i]);
    }
    ok := computed == root;
  }
}
