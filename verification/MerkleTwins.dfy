/** What a Merkle root binds: the leaves up to swapping siblings, because siblings are hashed in sorted order. */
module MerkleTwins {
  import opened Bytes
  import opened Merkle

  /** The tree behind a root; a leaf is an item that is hashed once. */
  datatype Tree = Leaf(item: Hash) | Node(left: Tree, right: Tree)

  function TreeHash(sha3: Bytes -> Hash, t: Tree): Hash {
    match t
    case Leaf(item) => sha3(item)
    case Node(left, right) => PairHash(sha3, TreeHash(sha3, left), TreeHash(sha3, right))
  }

  /** Neighbours become siblings, a last tree without neighbour moves up as it is. */
  function PairUp(ts: seq<Tree>): (r: seq<Tree>)
    ensures |r| == (|ts| + 1) / 2
  {
    seq((|ts| + 1) / 2, k requires 0 <= k < (|ts| + 1) / 2 =>
      if 2 * k + 1 < |ts| then Node(ts[2 * k], ts[2 * k + 1]) else ts[2 * k])
  }

  function Grow(ts: seq<Tree>): Tree
    requires ts != []
    decreases |ts|
  {
    if |ts| == 1 then ts[0] else Grow(PairUp(ts))
  }

  function LeavesOf(items: seq<Hash>): (r: seq<Tree>)
    ensures |r| == |items|
  {
    seq(|items|, k requires 0 <= k < |items| => Leaf(items[k]))
  }

  function TreeOf(items: seq<Hash>): Tree
    requires items != []
  {
    Grow(LeavesOf(items))
  }

  function Hashes(sha3: Bytes -> Hash, ts: seq<Tree>): (r: Layer)
    ensures |r| == |ts|
  {
    seq(|ts|, k requires 0 <= k < |ts| => TreeHash(sha3, ts[k]))
  }

  lemma PairedHashes(sha3: Bytes -> Hash, ts: seq<Tree>)
    ensures NewLayer(sha3, Hashes(sha3, ts)) == Hashes(sha3, PairUp(ts))
  {
    var a, b := NewLayer(sha3, Hashes(sha3, ts)), Hashes(sha3, PairUp(ts));
    forall k | 0 <= k < |a|
      ensures a[k] == b[k]
    {
      if 2 * k + 1 < |ts| {
        assert PairUp(ts)[k] == Node(ts[2 * k], ts[2 * k + 1]);
      }
    }
  }

  lemma {:induction false} RootOfGrown(sha3: Bytes -> Hash, ts: seq<Tree>)
    requires ts != []
    ensures Root(sha3, Hashes(sha3, ts)) == TreeHash(sha3, Grow(ts))
    decreases |ts|
  {
    if |ts| > 1 {
      PairedHashes(sha3, ts);
      RootOfGrown(sha3, PairUp(ts));
    }
  }

  /** The layered root is the hash of the tree. */
  lemma RootIsTreeHash(sha3: Bytes -> Hash, items: seq<Hash>)
    requires items != []
    ensures Root(sha3, Leaves(sha3, items)) == TreeHash(sha3, TreeOf(items))
  {
    assert Leaves(sha3, items) == Hashes(sha3, LeavesOf(items));
    RootOfGrown(sha3, LeavesOf(items));
  }

  // ---------------------------------------------------------------- twins

  /** The same tree up to swapping siblings, at any node. */
  predicate Twins(t: Tree, u: Tree) {
    match (t, u)
    case (Leaf(x), Leaf(y)) => x == y
    case (Node(a, b), Node(c, d)) => (Twins(a, c) && Twins(b, d)) || (Twins(a, d) && Twins(b, c))
    case _ => false
  }

  /** Everything hashed in the tree is among `inputs`. */
  ghost predicate InputsIn(sha3: Bytes -> Hash, t: Tree, inputs: set<Bytes>) {
    match t
    case Leaf(item) => item in inputs
    case Node(left, right) =>
      && Join(TreeHash(sha3, left), TreeHash(sha3, right)) in inputs
      && InputsIn(sha3, left, inputs) && InputsIn(sha3, right, inputs)
  }

  lemma {:induction false} TwinsHashAlike(sha3: Bytes -> Hash, t: Tree, u: Tree)
    requires Twins(t, u)
    ensures TreeHash(sha3, t) == TreeHash(sha3, u)
  {
    if t.Node? {
      if Twins(t.left, u.left) && Twins(t.right, u.right) {
        TwinsHashAlike(sha3, t.left, u.left);
        TwinsHashAlike(sha3, t.right, u.right);
      } else {
        TwinsHashAlike(sha3, t.left, u.right);
        TwinsHashAlike(sha3, t.right, u.left);
        JoinSymmetric(TreeHash(sha3, t.left), TreeHash(sha3, t.right));
      }
    }
  }

  /** What was hashed last tells leaves and nodes apart, because their inputs have different lengths. */
  function TopInput(sha3: Bytes -> Hash, t: Tree): (r: Bytes)
    ensures |r| == if t.Leaf? then 32 else 64
    ensures sha3(r) == TreeHash(sha3, t)
  {
    match t
    case Leaf(item) => item
    case Node(left, right) => Join(TreeHash(sha3, left), TreeHash(sha3, right))
  }

  lemma {:induction false} HashAlikeTwins(sha3: Bytes -> Hash, t: Tree, u: Tree, inputs: set<Bytes>)
    requires CollisionFree(sha3, inputs) && InputsIn(sha3, t, inputs) && InputsIn(sha3, u, inputs)
    requires TreeHash(sha3, t) == TreeHash(sha3, u)
    ensures Twins(t, u)
  {
    assert TopInput(sha3, t) == TopInput(sha3, u);
    if t.Node? {
      JoinInjective(TreeHash(sha3, t.left), TreeHash(sha3, t.right), TreeHash(sha3, u.left), TreeHash(sha3, u.right));
      if TreeHash(sha3, t.left) == TreeHash(sha3, u.left) && TreeHash(sha3, t.right) == TreeHash(sha3, u.right) {
        HashAlikeTwins(sha3, t.left, u.left, inputs);
        HashAlikeTwins(sha3, t.right, u.right, inputs);
      } else {
        HashAlikeTwins(sha3, t.left, u.right, inputs);
        HashAlikeTwins(sha3, t.right, u.left, inputs);
      }
    }
  }

  /** Equal roots, exactly: the trees over the items are the same up to swapping siblings. */
  lemma RootsEqualExactly(sha3: Bytes -> Hash, items: seq<Hash>, others: seq<Hash>, inputs: set<Bytes>)
    requires items != [] && others != [] && CollisionFree(sha3, inputs)
    requires InputsIn(sha3, TreeOf(items), inputs) && InputsIn(sha3, TreeOf(others), inputs)
    ensures Root(sha3, Leaves(sha3, items)) == Root(sha3, Leaves(sha3, others))
       <==> Twins(TreeOf(items), TreeOf(others))
  {
    hide TreeOf, Root, Leaves, InputsIn, CollisionFree;
    RootIsTreeHash(sha3, items);
    RootIsTreeHash(sha3, others);
    if Twins(TreeOf(items), TreeOf(others)) {
      TwinsHashAlike(sha3, TreeOf(items), TreeOf(others));
    } else if TreeHash(sha3, TreeOf(items)) == TreeHash(sha3, TreeOf(others)) {
      HashAlikeTwins(sha3, TreeOf(items), TreeOf(others), inputs);
    }
  }

  // ---------------------------------------------------------------- swapping the first two

  function SwapFirst<T>(s: seq<T>): (r: seq<T>)
    requires |s| >= 2
    ensures |r| == |s|
  {
    [s[1], s[0]] + s[2..]
  }

  /** Swapping the first two items never changes the root, whatever the hash function. */
  lemma SwapKeepsRoot(sha3: Bytes -> Hash, items: seq<Hash>)
    requires |items| >= 2
    ensures Root(sha3, Leaves(sha3, SwapFirst(items))) == Root(sha3, Leaves(sha3, items))
  {
    var a, b := Leaves(sha3, items), Leaves(sha3, SwapFirst(items));
    forall k | 0 <= k < |NewLayer(sha3, a)|
      ensures NewLayer(sha3, a)[k] == NewLayer(sha3, b)[k]
    {
      if k == 0 {
        JoinSymmetric(a[0], a[1]);
      } else {
        assert a[2 * k] == b[2 * k] && (2 * k + 1 < |a| ==> a[2 * k + 1] == b[2 * k + 1]);
      }
    }
    assert NewLayer(sha3, a) == NewLayer(sha3, b);
  }
}
