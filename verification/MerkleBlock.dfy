/** The merkle block object: its recursive traversal over shared counters, and the questions asked of it. */
module MerkleBlock {
  import opened Bytes
  import opened Script
  import opened ScriptNum
  import opened MerkleTree
  import opened PartialTree
  import opened PartialTreeBuilder

  // ---------- the answers, as functions of the proof ----------

  /** The first height, from h on, at which the 32-bit width is at most one. */
  function HeightFrom(n: nat, h: nat): (r: nat)
    requires h <= 31
    ensures h <= r <= 31
    decreases 31 - h
  {
    if CalcTreeWidth(n, h) <= 1 || h == 31 then h else HeightFrom(n, h + 1)
  }

  function TreeHeight(n: nat): nat { HeightFrom(n, 0) }

  /** The top call of a traversal that was asked for the matches: it does not hash its children. */
  function TraverseForTxs(hash: Bytes -> Bytes, p: Proof, depth: nat, pos: nat, bits: nat, used: nat,
                          txs: seq<Bytes>): Visit {
    var v := Traverse(hash, p, depth, pos, bits, used, txs);
    if !Descends(p, depth, bits) then v
    else
      var l := Traverse(hash, p, depth - 1, 2 * pos, bits + 1, used, txs);
      var r := if l.res.Exception? || !HasRight(p, depth, pos) then l
               else Traverse(hash, p, depth - 1, 2 * pos + 1, l.bits, l.used, l.txs);
      r.(res := if r.res.Exception? then Exception else Matches(r.txs))
  }

  /** The checks that come before any traversal. */
  predicate Plausible(p: Proof) { |p.hashes| <= p.n && |p.hashes| <= 8 * |p.flags| }

  function Whole(hash: Bytes -> Bytes, p: Proof): Visit {
    Traverse(hash, p, TreeHeight(p.n), 0, 0, 0, [])
  }

  /** validMerkleTree; None stands for an exception. */
  function Valid(hash: Bytes -> Bytes, p: Proof, root: Bytes): Option<bool> {
    if !Plausible(p) then Some(false)
    else
      var v := Whole(hash, p);
      if v.res.Exception? then None
      else if v.used != |p.hashes| then Some(false)
      else if v.res.Hash? then Some(v.res.h == root)
      else None
  }

  /** filterdTxsHash: the list, or an exception, or what the source leaves to happen when there is no hash at all. */
  function Filtered(hash: Bytes -> Bytes, p: Proof): Outcome {
    if !Plausible(p) then Exception
    else if |p.hashes| == 1 then Matches([])
    else
      var v := TraverseForTxs(hash, p, TreeHeight(p.n), 0, 0, 0, []);
      if v.res.Exception? || v.used != |p.hashes| then Exception else v.res
  }

  /** hasTransaction; None stands for an exception. */
  function HasTransaction(hash: Bytes -> Bytes, p: Proof, tx: Bytes): Option<bool> {
    var v := Whole(hash, p);
    if v.res.Exception? then None else Some(tx in v.txs)
  }

  // ---------- the object ----------

  class TraversalOpts {
    var flagBitsUsed: nat
    var hashesUsed: nat
    var txs: seq<Bytes>

    constructor ()
      ensures flagBitsUsed == 0 && hashesUsed == 0 && txs == []
    {
      flagBitsUsed, hashesUsed, txs := 0, 0, [];
    }
  }

  class MerkleBlock {
    const hash: Bytes -> Bytes
    const numTransactions: nat
    const hashes: seq<Bytes>
    const flags: seq<Byte>
    const merkleRoot: Bytes

    function TheProof(): Proof { Proof(numTransactions, hashes, flags) }

    method CalcTreeHeight() returns (height: nat)
      ensures height == TreeHeight(numTransactions)
    {
      hide CalcTreeWidth;
      height := 0;
      while CalcTreeWidth(numTransactions, height) > 1
        invariant height <= 31 && TreeHeight(numTransactions) == HeightFrom(numTransactions, height)
        decreases 31 - height
      {
        WidthAt31(numTransactions);
        height := height + 1;
      }
    }

    /** Returns what the call returns, with Exception for an exception; the counters and the list are left in opts. */
    method TraverseMerkleTree(depth: nat, pos: nat, opts: TraversalOpts, checkForTxs: bool) returns (r: Outcome)
      modifies opts
      ensures var bits, used, txs := old(opts.flagBitsUsed), old(opts.hashesUsed), old(opts.txs);
              var v := if checkForTxs then TraverseForTxs(hash, TheProof(), depth, pos, bits, used, txs)
                       else Traverse(hash, TheProof(), depth, pos, bits, used, txs);
              r == v.res && opts.flagBitsUsed == v.bits && opts.hashesUsed == v.used && opts.txs == v.txs
      decreases depth
    {
      hide CalcTreeWidth, Traverse, FlagBit;
      ghost var p, bits, used, txs := TheProof(), opts.flagBitsUsed, opts.hashesUsed, opts.txs;
      if Descends(p, depth, bits) {
        Descent(hash, p, depth, pos, bits, used, txs);
      } else {
        NoDescent(hash, p, depth, pos, bits, used, txs);
      }
      if opts.flagBitsUsed > |flags| * 8 { return Null; }
      var isParentOfMatch := FlagBit(flags, opts.flagBitsUsed);
      opts.flagBitsUsed := opts.flagBitsUsed + 1;
      if depth == 0 || !isParentOfMatch {
        if opts.hashesUsed >= |hashes| { return Null; }
        var h := hashes[opts.hashesUsed];
        opts.hashesUsed := opts.hashesUsed + 1;
        if depth == 0 && isParentOfMatch { opts.txs := opts.txs + [h]; }
        return Hash(h);
      }
      var left := TraverseMerkleTree(depth - 1, pos * 2, opts, false);
      if left.Exception? { return Exception; }
      var right := left;
      if pos * 2 + 1 < CalcTreeWidth(numTransactions, depth - 1) {
        right := TraverseMerkleTree(depth - 1, pos * 2 + 1, opts, false);
        if right.Exception? { return Exception; }
      }
      if checkForTxs { return Matches(opts.txs); }
      return Join(hash, left, right);
    }

    method ValidMerkleTree() returns (r: Option<bool>)
      ensures r == Valid(hash, TheProof(), merkleRoot)
    {
      hide Traverse;
      if |hashes| > numTransactions { return Some(false); }
      if |flags| * 8 < |hashes| { return Some(false); }
      var height := CalcTreeHeight();
      var opts := new TraversalOpts();
      var root := TraverseMerkleTree(height, 0, opts, false);
      if root.Exception? { return None; }
      if opts.hashesUsed != |hashes| { return Some(false); }
      if !root.Hash? { return None; }
      return Some(root.h == merkleRoot);
    }

    method FilterdTxsHash() returns (r: Outcome)
      ensures r == Filtered(hash, TheProof())
    {
      hide Traverse, TraverseForTxs;
      if |hashes| > numTransactions { return Exception; }
      if |flags| * 8 < |hashes| { return Exception; }
      if |hashes| == 1 { return Matches([]); }
      var height := CalcTreeHeight();
      var opts := new TraversalOpts();
      var txs := TraverseMerkleTree(height, 0, opts, true);
      if txs.Exception? || opts.hashesUsed != |hashes| { return Exception; }
      return txs;
    }

    method HasTx(tx: Bytes) returns (r: Option<bool>)
      ensures r == HasTransaction(hash, TheProof(), tx)
    {
      hide Traverse;
      var height := CalcTreeHeight();
      var opts := new TraversalOpts();
      var result := TraverseMerkleTree(height, 0, opts, false);
      if result.Exception? { return None; }
      return Some(tx in opts.txs);
    }
  }

  lemma WidthAt31(n: nat)
    ensures CalcTreeWidth(n, 31) <= 1
  {
    hide Pow2;
    Pow31();
  }

  lemma Pow31()
    ensures Pow2(31) == 0x8000_0000
  {
    hide Pow2;
    Pow30();
    Pow2Doubles(30);
  }

  lemma Pow2Doubles(k: nat)
    ensures Pow2(k + 1) == 2 * Pow2(k)
  {
  }

  // ---------- soundness and completeness of the object's answers ----------

  /** Up to 2^30 transactions the 32-bit search finds the height of the tree. */
  lemma HeightIsTrue(n: nat)
    requires n <= 0x4000_0000
    ensures TreeHeight(n) == Height(n) <= 30
  {
    HeightAtMost30(n);
    HeightFound(n, 0);
  }

  lemma HeightAtMost30(n: nat)
    requires n <= 0x4000_0000
    ensures Height(n) <= 30
  {
    hide Width;
    WidthAtHeight(n);
    ExistsIff(n, 30, 1);
    Pow30();
    assert First(30, 1) == 0x4000_0000;
  }

  lemma {:induction false} HeightFound(n: nat, h: nat)
    requires n <= 0x4000_0000 && h <= Height(n) <= 30
    ensures HeightFrom(n, h) == Height(n)
    decreases 31 - h
  {
    hide CalcTreeWidth, Width;
    WidthAtHeight(n);
    WidthsAgree(n, h);
    if h < Height(n) { HeightFound(n, h + 1); }
  }

  /** Every string hashed in building the block's tree and in traversing the proof. */
  ghost function HashedStrings(hash: Bytes -> Bytes, p: Proof, leaves: seq<Bytes>): set<Bytes>
    requires leaves != []
  {
    WidthAtHeight(|leaves|);
    TreePairs(hash, leaves, Height(|leaves|), 0) + ProofPairs(hash, p, TreeHeight(p.n), 0, 0, 0)
  }

  /**
   * A proof that is accepted against a block's root is part of that block: unless two of the strings hashed
   * here collide, every hash of the proof is the node of the block's tree where the traversal placed it, and
   * the matches are transactions of the block, in order.
   */
  lemma ValidProofIsSound(hash: Bytes -> Bytes, p: Proof, leaves: seq<Bytes>) returns (at: seq<nat>)
    requires 1 <= |leaves| == p.n <= 0x4000_0000
    requires HashIs32(hash) && Hashes32(leaves) && Hashes32(p.hashes) &&
             NoCollision(hash, HashedStrings(hash, p, leaves))
    requires Valid(hash, p, Root(hash, leaves)) == Some(true)
    ensures var places := Places(hash, p, TreeHeight(p.n), 0, 0, 0);
            |places| == |p.hashes| && Placed(hash, p, leaves, 0, places)
    ensures Positions(leaves, Whole(hash, p).txs, at, 0, p.n)
  {
    hide Traverse, Places, ProofPairs, TreePairs, Positions, Placed, Node, Width;
    HeightIsTrue(p.n);
    WidthAtHeight(p.n);
    var k := Height(p.n);
    at := Sound(hash, p, leaves, k, 0, 0, 0, HashedStrings(hash, p, leaves));
    InsideBlock(leaves, Whole(hash, p).txs, at, (0 + 1) * Pow2(k));
  }

  lemma InsideBlock(leaves: seq<Bytes>, txs: seq<Bytes>, at: seq<nat>, hi: nat)
    requires Positions(leaves, txs, at, 0, hi)
    ensures Positions(leaves, txs, at, 0, |leaves|)
  {
  }

  /**
   * A proof is accepted exactly if it has no more hashes than transactions and than flag bits, the traversal uses
   * all of them, and it comes to the block's root.
   */
  lemma ValidIff(hash: Bytes -> Bytes, p: Proof, root: Bytes)
    ensures Valid(hash, p, root) == Some(true) <==>
            && |p.hashes| <= p.n && |p.hashes| <= 8 * |p.flags|
            && Traverse(hash, p, TreeHeight(p.n), 0, 0, 0, []).used == |p.hashes|
            && Traverse(hash, p, TreeHeight(p.n), 0, 0, 0, []).res == Hash(root)
  {
    hide Traverse;
  }

  /** The proof that BIP 37 prescribes for the matched transactions of a block. */
  function ProofFor(hash: Bytes -> Bytes, leaves: seq<Bytes>, matches: seq<bool>): Proof
    requires 1 <= |leaves| == |matches|
  {
    WidthAtHeight(|leaves|);
    var b := Build(hash, leaves, matches, Height(|leaves|), 0);
    Proof(|leaves|, b.hashes, Pack(b.bits))
  }

  lemma PackedHolds(bits: seq<bool>)
    ensures Holds(Pack(bits), 0, bits)
  {
    hide FlagBit;
    forall i | 0 <= i < |bits| ensures FlagBit(Pack(bits), 0 + i) == bits[i] {
      PackedFlag(bits, i);
    }
  }

  /** How the whole traversal of a prescribed proof goes. */
  lemma ProofForTraverses(hash: Bytes -> Bytes, leaves: seq<Bytes>, matches: seq<bool>)
    requires 1 <= |leaves| == |matches| <= 0x4000_0000
    ensures var p := ProofFor(hash, leaves, matches);
            && Plausible(p) && p.hashes != []
            && Whole(hash, p).res == Hash(Root(hash, leaves)) && Whole(hash, p).used == |p.hashes|
            && Whole(hash, p).txs == Select(leaves, matches)
  {
    hide Traverse, Build, Pack, MatchedBelow, Select, Node, Width, Holds;
    var n := |leaves|;
    HeightIsTrue(n);
    WidthAtHeight(n);
    var k := Height(n);
    var p, b := ProofFor(hash, leaves, matches), Build(hash, leaves, matches, k, 0);
    PackedHolds(b.bits);
    BuiltSizes(hash, leaves, matches, k, 0);
    LastInBlock(n, k);
    assert HoldsHashes(p.hashes, 0, b.hashes);
    Complete(hash, p, leaves, matches, k, 0, 0, 0);
    MatchedInBlock(leaves, matches);
  }

  lemma LastInBlock(n: nat, k: nat)
    ensures Last(n, k, 0) <= n && First(k, 0) == 0
  {
  }

  /** Every matching set has an accepted proof, and hasTransaction on it finds exactly the matched transactions. */
  lemma ProofForIsValid(hash: Bytes -> Bytes, leaves: seq<Bytes>, matches: seq<bool>, tx: Bytes)
    requires 1 <= |leaves| == |matches| <= 0x4000_0000
    ensures var p := ProofFor(hash, leaves, matches);
            && Valid(hash, p, Root(hash, leaves)) == Some(true)
            && HasTransaction(hash, p, tx) == Some(tx in Select(leaves, matches))
  {
    hide Whole, Root, Select, ProofFor;
    ProofForTraverses(hash, leaves, matches);
  }

  /** The list of matches is exact, except for a block of one transaction that matches. */
  lemma PrescribedListIff(hash: Bytes -> Bytes, leaves: seq<Bytes>, matches: seq<bool>)
    requires 1 <= |leaves| == |matches| <= 0x4000_0000
    ensures Filtered(hash, ProofFor(hash, leaves, matches)) == Matches(Select(leaves, matches)) <==>
            !(|leaves| == 1 && matches[0])
  {
    hide Traverse, TraverseForTxs, Build, Pack, Select, Node, Width;
    ProofForTraverses(hash, leaves, matches);
    var p := ProofFor(hash, leaves, matches);
    OneHashIff(hash, leaves, matches);
    if |p.hashes| > 1 { ForTxsAgrees(hash, p, TreeHeight(p.n)); }
  }

  /** For an accepted proof of several hashes, filterdTxsHash and hasTransaction speak of the same matches. */
  lemma FilteredOfValid(hash: Bytes -> Bytes, p: Proof, root: Bytes, tx: Bytes)
    requires Valid(hash, p, root) == Some(true) && |p.hashes| >= 2
    ensures Filtered(hash, p) == Matches(Whole(hash, p).txs)
    ensures HasTransaction(hash, p, tx) == Some(tx in Filtered(hash, p).txs)
  {
    hide Traverse, TraverseForTxs;
    ForTxsAgrees(hash, p, TreeHeight(p.n));
  }

  /**
   * For every accepted proof, whoever made it, filterdTxsHash lists the matches of the traversal, except
   * for a tree that is a single leaf whose flag bit is set.
   */
  lemma FilteredIsExactIff(hash: Bytes -> Bytes, p: Proof, root: Bytes)
    requires Valid(hash, p, root) == Some(true)
    ensures Filtered(hash, p) == Matches(Whole(hash, p).txs) <==> !(TreeHeight(p.n) == 0 && FlagBit(p.flags, 0))
    ensures p.n < 0x8000_0000 ==> (TreeHeight(p.n) == 0 <==> p.n == 1)
  {
    hide Traverse, TraverseForTxs, FlagBit, CalcTreeWidth;
    var k := TreeHeight(p.n);
    HashUsesOne(hash, p, k, 0, 0, 0, []);
    HeightZeroIff(p.n);
    if k == 0 {
      NoDescent(hash, p, 0, 0, 0, 0, []);
    } else if FlagBit(p.flags, 0) {
      TwoChildren(p.n);
      Descent(hash, p, k, 0, 0, 0, []);
      var l := Traverse(hash, p, k - 1, 0, 1, 0, []);
      HashUsesOne(hash, p, k - 1, 0, 1, 0, []);
      HashUsesOne(hash, p, k - 1, 1, l.bits, l.used, l.txs);
    } else {
      NoDescent(hash, p, k, 0, 0, 0, []);
    }
    if |p.hashes| >= 2 { FilteredOfValid(hash, p, root, []); }
  }

  /** Whoever returns a hash has read at least one. */
  lemma {:induction false} HashUsesOne(hash: Bytes -> Bytes, p: Proof, depth: nat, pos: nat, bits: nat, used: nat,
                                       txs: seq<Bytes>)
    ensures var v := Traverse(hash, p, depth, pos, bits, used, txs); v.used >= used && (v.res.Hash? ==> v.used > used)
    decreases depth
  {
    hide FlagBit, CalcTreeWidth, Traverse;
    if Descends(p, depth, bits) {
      Descent(hash, p, depth, pos, bits, used, txs);
      HashUsesOne(hash, p, depth - 1, 2 * pos, bits + 1, used, txs);
      var l := Traverse(hash, p, depth - 1, 2 * pos, bits + 1, used, txs);
      HashUsesOne(hash, p, depth - 1, 2 * pos + 1, l.bits, l.used, l.txs);
    } else {
      NoDescent(hash, p, depth, pos, bits, used, txs);
    }
  }

  lemma HeightZeroIff(n: nat)
    ensures 0 < n < 0x8000_0000 ==> (TreeHeight(n) == 0 <==> n == 1)
  {
    hide CalcTreeWidth;
    if n < 0x8000_0000 { WidthOfLeaves(n); }
  }

  lemma WidthOfLeaves(n: nat)
    requires n < 0x8000_0000
    ensures CalcTreeWidth(n, 0) == n
  {
    assert Pow2(0) == 1 && OneShl(0) == 1;
    assert (n + 0x8000_0000) % 0x1_0000_0000 == n + 0x8000_0000;
  }

  /** Below the top there are two nodes: the top is the first height with one. */
  lemma TwoChildren(n: nat)
    requires TreeHeight(n) > 0
    ensures CalcTreeWidth(n, TreeHeight(n) - 1) > 1
  {
    WideBelow(n, 0);
  }

  lemma {:induction false} WideBelow(n: nat, h: nat)
    requires h <= 31 && HeightFrom(n, h) > h
    ensures CalcTreeWidth(n, HeightFrom(n, h) - 1) > 1
    decreases 31 - h
  {
    hide CalcTreeWidth;
    if h + 1 <= 31 && HeightFrom(n, h + 1) > h + 1 { WideBelow(n, h + 1); }
  }

  /** A single hash means that nothing matches, or that there is only one transaction. */
  lemma OneHashIff(hash: Bytes -> Bytes, leaves: seq<Bytes>, matches: seq<bool>)
    requires 1 <= |leaves| == |matches|
    ensures |ProofFor(hash, leaves, matches).hashes| == 1 ==>
            (Select(leaves, matches) == [] <==> !(|leaves| == 1 && matches[0]))
    ensures |leaves| == 1 ==> |ProofFor(hash, leaves, matches).hashes| == 1
  {
    hide Select, Pack, Node, Build;
    var n, k := |leaves|, Height(|leaves|);
    WidthAtHeight(n);
    MatchedInBlock(leaves, matches);
    if n == 1 {
      OneTransaction(hash, leaves, matches);
    } else if AnyMatch(matches, k, 0) {
      assert Width(n, k - 1) > 1;
      BuildDescends(hash, leaves, matches, k, 0);
      BuiltSizes(hash, leaves, matches, k - 1, 0);
      BuiltSizes(hash, leaves, matches, k - 1, 1);
    } else {
      NothingMatched(leaves, matches, k, 0);
    }
  }

  lemma OneTransaction(hash: Bytes -> Bytes, leaves: seq<Bytes>, matches: seq<bool>)
    requires 1 == |leaves| == |matches|
    ensures |ProofFor(hash, leaves, matches).hashes| == 1
    ensures Select(leaves, matches) == [] <==> !matches[0]
  {
    hide Pack;
  }

  /** Asking for the matches runs the same traversal, up to the last hash. */
  lemma ForTxsAgrees(hash: Bytes -> Bytes, p: Proof, depth: nat)
    requires Traverse(hash, p, depth, 0, 0, 0, []).res.Hash? && Traverse(hash, p, depth, 0, 0, 0, []).used > 1
    ensures var v := Traverse(hash, p, depth, 0, 0, 0, []);
            TraverseForTxs(hash, p, depth, 0, 0, 0, []) == v.(res := Matches(v.txs))
  {
    hide Traverse, FlagBit, CalcTreeWidth;
    if Descends(p, depth, 0) {
      Descent(hash, p, depth, 0, 0, 0, []);
    } else {
      NoDescent(hash, p, depth, 0, 0, 0, []);
    }
  }

  /** A list of matches is only given for a plausible proof whose hashes are all used, or for a single hash. */
  lemma FilteredUsesAll(hash: Bytes -> Bytes, p: Proof)
    requires Filtered(hash, p).Matches?
    ensures |p.hashes| <= p.n && |p.hashes| <= 8 * |p.flags|
    ensures |p.hashes| == 1 || Traverse(hash, p, TreeHeight(p.n), 0, 0, 0, []).used == |p.hashes|
    ensures |p.hashes| == 1 ==> Filtered(hash, p).txs == []
  {
    hide Traverse, Descends, HasRight;
    var k := TreeHeight(p.n);
    if Descends(p, k, 0) {
      DescendsDeeper(p, k, 0);
      Descent(hash, p, k, 0, 0, 0, []);
    }
  }

  /** Past its flag bytes a traversal still reads one bit, as zero, and then stops. */
  lemma OneBitPastTheEnd(hash: Bytes -> Bytes, p: Proof, depth: nat, pos: nat, used: nat, txs: seq<Bytes>)
    ensures var v := Traverse(hash, p, depth, pos, 8 * |p.flags|, used, txs);
            if used < |p.hashes| then v == Visit(Hash(p.hashes[used]), 8 * |p.flags| + 1, used + 1, txs)
            else v.res == Null
    ensures Traverse(hash, p, depth, pos, 8 * |p.flags| + 1, used, txs).res == Null
  {
  }
}
