/** The Merkle tree of a block: duplicate-last pair hashing, and its level-by-level flat array. */
module MerkleTree {
  import opened Bytes

  /** How many nodes the tree over n leaves has at height k. */
  function Width(n: nat, k: nat): nat {
    if k == 0 then n else (Width(n, k - 1) + 1) / 2
  }

  /** The height of the root: how often n has to be halved, rounding up, to reach one. */
  function Height(n: nat): nat {
    if n <= 1 then 0 else 1 + Height((n + 1) / 2)
  }

  /** The hash at height k and position pos; a node without a right sibling is paired with itself. */
  function Node(hash: Bytes -> Bytes, leaves: seq<Bytes>, k: nat, pos: nat): Bytes
    requires pos < Width(|leaves|, k)
  {
    if k == 0 then leaves[pos]
    else
      var left := Node(hash, leaves, k - 1, 2 * pos);
      var right := if 2 * pos + 1 < Width(|leaves|, k - 1) then Node(hash, leaves, k - 1, 2 * pos + 1) else left;
      hash(left + right)
  }

  function Root(hash: Bytes -> Bytes, leaves: seq<Bytes>): Bytes
    requires leaves != []
  {
    WidthAtHeight(|leaves|);
    Node(hash, leaves, Height(|leaves|), 0)
  }

  lemma {:induction false} WidthHalved(n: nat, k: nat)
    ensures Width((n + 1) / 2, k) == Width(n, k + 1)
  {
    if k > 0 { WidthHalved(n, k - 1); }
  }

  lemma {:induction false} WidthAtHeight(n: nat)
    ensures Width(n, Height(n)) == if n == 0 then 0 else 1
    ensures forall k :: 0 <= k < Height(n) ==> Width(n, k) > 1
  {
    if n > 1 {
      var half := (n + 1) / 2;
      WidthAtHeight(half);
      WidthHalved(n, Height(half));
      forall k | 0 <= k < Height(n) ensures Width(n, k) > 1 {
        if k > 0 { WidthHalved(n, k - 1); }
      }
    }
  }

  /** Where level k starts in the flat array. */
  function Offset(n: nat, k: nat): nat {
    if k == 0 then 0 else Offset(n, k - 1) + Width(n, k - 1)
  }

  /** Levels 0 to k, one after the other, nothing else. */
  ghost predicate LaidOut(hash: Bytes -> Bytes, leaves: seq<Bytes>, k: nat, tree: seq<Bytes>) {
    && |tree| == Offset(|leaves|, k + 1)
    && forall l, i :: 0 <= l <= k && 0 <= i < Width(|leaves|, l) ==> HasNode(hash, leaves, l, i, tree)
  }

  ghost predicate HasNode(hash: Bytes -> Bytes, leaves: seq<Bytes>, l: nat, i: nat, tree: seq<Bytes>)
    requires i < Width(|leaves|, l)
  {
    Offset(|leaves|, l) + i < |tree| && tree[Offset(|leaves|, l) + i] == Node(hash, leaves, l, i)
  }

  const NULL_HASH: Bytes := seq(32, _ => 0)

  /** Block.prototype.getMerkleTree; txHashes are the transaction hashes. */
  method GetMerkleTree(hash: Bytes -> Bytes, txHashes: seq<Bytes>) returns (tree: seq<Bytes>)
    ensures txHashes == [] ==> tree == [NULL_HASH]
    ensures txHashes != [] ==> LaidOut(hash, txHashes, Height(|txHashes|), tree)
    ensures txHashes != [] ==> tree != [] && tree[|tree| - 1] == Root(hash, txHashes)
  {
    tree := if txHashes == [] then [NULL_HASH] else txHashes;
    var j, size := 0, |txHashes|;
    ghost var n, k := |txHashes|, 0;
    while size > 1
      invariant size == Width(n, k) && j == Offset(n, k)
      invariant n == 0 ==> tree == [NULL_HASH] && k == 0
      invariant n > 0 ==> size >= 1 && Height(size) + k == Height(n) && LaidOut(hash, txHashes, k, tree)
      decreases size
    {
      tree := PushLevel(hash, txHashes, tree, j, size, k);
      j := j + size;
      size := (size + 1) / 2;
      k := k + 1;
    }
    if n > 0 {
      assert Height(size) == 0;
      WidthAtHeight(n);
      assert HasNode(hash, txHashes, k, 0, tree);
    }
  }

  /** The inner loop: the next level is pushed pair by pair. */
  method PushLevel(hash: Bytes -> Bytes, txHashes: seq<Bytes>, tree0: seq<Bytes>, j: nat, size: nat, ghost k: nat)
    returns (tree: seq<Bytes>)
    requires LaidOut(hash, txHashes, k, tree0) && size == Width(|txHashes|, k) && j == Offset(|txHashes|, k)
    ensures LaidOut(hash, txHashes, k + 1, tree)
  {
    hide Node, Width, Offset;
    LevelStep(|txHashes|, k);
    tree := tree0;
    ghost var level: seq<Bytes> := [];
    var i := 0;
    while i < size
      invariant i % 2 == 0 && i <= size + 1 && |level| == i / 2
      invariant tree == tree0 + level && LevelPrefix(hash, txHashes, k + 1, level)
    {
      var i2 := if i + 1 < size - 1 then i + 1 else size - 1;
      assert HasNode(hash, txHashes, k, i, tree0) && HasNode(hash, txHashes, k, i2, tree0);
      assert tree[j + i] == tree0[j + i] && tree[j + i2] == tree0[j + i2];
      NodePair(hash, txHashes, k, i);
      var pair := tree[j + i] + tree[j + i2];
      tree := tree + [hash(pair)];
      level := level + [hash(pair)];
      i := i + 2;
    }
    NextLevel(hash, txHashes, k, tree0, level);
  }

  lemma LevelStep(n: nat, k: nat)
    ensures Offset(n, k + 1) == Offset(n, k) + Width(n, k) && Width(n, k + 1) == (Width(n, k) + 1) / 2
  {
  }

  /** The first nodes of level k, in order. */
  ghost predicate LevelPrefix(hash: Bytes -> Bytes, leaves: seq<Bytes>, k: nat, level: seq<Bytes>) {
    |level| <= Width(|leaves|, k) && forall p :: 0 <= p < |level| ==> level[p] == Node(hash, leaves, k, p)
  }

  lemma NodePair(hash: Bytes -> Bytes, leaves: seq<Bytes>, k: nat, i: nat)
    requires i % 2 == 0 && i < Width(|leaves|, k)
    ensures var size := Width(|leaves|, k);
            i / 2 < Width(|leaves|, k + 1) &&
            Node(hash, leaves, k + 1, i / 2) ==
            hash(Node(hash, leaves, k, i) +
                 if i + 1 < size then Node(hash, leaves, k, i + 1) else Node(hash, leaves, k, i))
  {
    assert 2 * (i / 2) == i;
  }

  lemma NextLevel(hash: Bytes -> Bytes, leaves: seq<Bytes>, k: nat, tree0: seq<Bytes>, level: seq<Bytes>)
    requires LaidOut(hash, leaves, k, tree0)
    requires LevelPrefix(hash, leaves, k + 1, level) && |level| == Width(|leaves|, k + 1)
    ensures LaidOut(hash, leaves, k + 1, tree0 + level)
  {
    hide Node, Width;
    var tree := tree0 + level;
    forall l, i | 0 <= l <= k + 1 && 0 <= i < Width(|leaves|, l) ensures HasNode(hash, leaves, l, i, tree) {
      if l <= k {
        assert HasNode(hash, leaves, l, i, tree0);
      } else {
        assert level[i] == Node(hash, leaves, k + 1, i);
      }
    }
  }

  // ---------- the root, level by level ----------

  /** The level above: neighbours joined and hashed, a last one without a neighbour joined with itself. */
  function Pairs(hash: Bytes -> Bytes, leaves: seq<Bytes>): (up: seq<Bytes>)
    ensures |up| == (|leaves| + 1) / 2
  {
    seq((|leaves| + 1) / 2, i requires 0 <= i < (|leaves| + 1) / 2 =>
      hash(leaves[2 * i] + if 2 * i + 1 < |leaves| then leaves[2 * i + 1] else leaves[2 * i]))
  }

  lemma {:induction false} NodesOfPairs(hash: Bytes -> Bytes, leaves: seq<Bytes>, k: nat, pos: nat)
    requires pos < Width(|leaves|, k + 1)
    ensures pos < Width(|Pairs(hash, leaves)|, k)
    ensures Node(hash, leaves, k + 1, pos) == Node(hash, Pairs(hash, leaves), k, pos)
    decreases k
  {
    hide Node, Width;
    var up := Pairs(hash, leaves);
    WidthOfLeaves(|leaves|);
    WidthOfLeaves(|up|);
    WidthHalved(|leaves|, k);
    NodeIs(hash, leaves, k + 1, pos);
    NodeIs(hash, up, k, pos);
    if k == 0 {
      NodeIs(hash, leaves, 0, 2 * pos);
      if 2 * pos + 1 < |leaves| { NodeIs(hash, leaves, 0, 2 * pos + 1); }
    } else {
      WidthHalved(|leaves|, k - 1);
      NodesOfPairs(hash, leaves, k - 1, 2 * pos);
      if 2 * pos + 1 < Width(|leaves|, k) { NodesOfPairs(hash, leaves, k - 1, 2 * pos + 1); }
    }
  }

  lemma WidthOfLeaves(n: nat)
    ensures Width(n, 0) == n
  {
  }

  lemma NodeIs(hash: Bytes -> Bytes, leaves: seq<Bytes>, k: nat, pos: nat)
    requires pos < Width(|leaves|, k)
    ensures if k == 0 then Node(hash, leaves, k, pos) == leaves[pos]
            else 2 * pos < Width(|leaves|, k - 1) &&
                 Node(hash, leaves, k, pos) ==
                 hash(Node(hash, leaves, k - 1, 2 * pos) +
                      if 2 * pos + 1 < Width(|leaves|, k - 1) then Node(hash, leaves, k - 1, 2 * pos + 1)
                      else Node(hash, leaves, k - 1, 2 * pos))
  {
  }

  /** The root of one leaf is the leaf, and the root of several is the root of their pairs. */
  lemma RootOfPairs(hash: Bytes -> Bytes, leaves: seq<Bytes>)
    requires leaves != []
    ensures Root(hash, leaves) == if |leaves| == 1 then leaves[0] else Root(hash, Pairs(hash, leaves))
  {
    hide Node, Pairs, Width;
    WidthAtHeight(|leaves|);
    if |leaves| == 1 {
      NodeIs(hash, leaves, 0, 0);
    } else {
      NodesOfPairs(hash, leaves, Height(|leaves|) - 1, 0);
    }
  }
}
