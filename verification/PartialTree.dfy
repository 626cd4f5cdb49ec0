/** The bit-and-hash parser of partial Merkle trees (BIP 37), as a function, with its soundness and completeness. */
module PartialTree {
  import opened Bytes
  import opened ScriptNum
  import opened Bitfield
  import opened MerkleTree

  // ---------- 32-bit widths ----------

  /** 1 << h */
  function OneShl(h: nat): int {
    if h % 32 == 31 then -0x8000_0000 else Pow2(h % 32)
  }

  /** _calcTreeWidth: (n + (1 << h) - 1) >> h on 32-bit integers. */
  function CalcTreeWidth(n: nat, h: nat): int {
    ToInt32(n + OneShl(h) - 1) / Pow2(h % 32)
  }

  lemma Halves(x: nat, p: nat, q: nat, r: nat)
    requires r < p && x == p * q + r
    ensures (x + p) / (2 * p) == (q + 1) / 2
  {
    var a, b := (q + 1) / 2, (q + 1) % 2;
    Distribute(p, q, a, b);
    Remainder(p, b, r);
    Quotient(x + p, 2 * p, a, p * b + r);
  }

  lemma Distribute(p: nat, q: nat, a: nat, b: nat)
    requires q + 1 == 2 * a + b
    ensures p * q + p == (2 * p) * a + p * b
  {
    assert p * (2 * a + b) == p * (2 * a) + p * b;
    MulAssociative(p, 2, a);
  }

  lemma Remainder(p: nat, b: nat, r: nat)
    requires b < 2 && r < p
    ensures 0 <= p * b + r < 2 * p
  {
  }

  /** Halving level by level is dividing by the power of two, rounding up. */
  lemma {:induction false} WidthIsCeil(n: nat, k: nat)
    ensures Width(n, k) == (n + Pow2(k) - 1) / Pow2(k)
  {
    if k > 0 {
      WidthIsCeil(n, k - 1);
      CeilStep(n, Pow2(k - 1), Width(n, k - 1));
    }
  }

  lemma CeilStep(n: nat, p: nat, w: nat)
    requires p > 0 && w == (n + p - 1) / p
    ensures (w + 1) / 2 == (n + 2 * p - 1) / (2 * p)
  {
    var x := n + p - 1;
    Halves(x, p, w, x % p);
  }

  lemma {:induction false} Pow2UpTo30(h: nat)
    requires h <= 30
    ensures Pow2(h) <= 0x4000_0000
    decreases 30 - h
  {
    if h == 30 { Pow30(); } else { Pow2UpTo30(h + 1); }
  }

  /** The 32-bit width is the width of the tree for every height that matters exactly up to 2^30 leaves. */
  lemma WidthsAgreeIff(n: nat)
    ensures (forall h :: 0 <= h <= 30 ==> CalcTreeWidth(n, h) == Width(n, h)) <==> n <= 0x4000_0000
  {
    hide Pow2, Width;
    if n <= 0x4000_0000 {
      forall h | 0 <= h <= 30 ensures CalcTreeWidth(n, h) == Width(n, h) {
        WidthsAgree(n, h);
      }
    } else {
      Pow30();
      WidthIsCeil(n, 30);
      assert CalcTreeWidth(n, 30) < 2 <= Width(n, 30);
    }
  }

  lemma Pow30()
    ensures Pow2(30) == 0x4000_0000
  {
    assert Pow2(10) == 0x400 && Pow2(20) == 0x10_0000;
  }

  lemma WidthsAgree(n: nat, h: nat)
    requires n <= 0x4000_0000 && h <= 30
    ensures CalcTreeWidth(n, h) == Width(n, h)
  {
    hide Pow2, Width;
    Pow2UpTo30(h);
    WidthIsCeil(n, h);
  }

  // ---------- the parser ----------

  /** What a merkle block carries besides its header. */
  datatype Proof = Proof(n: nat, hashes: seq<Bytes>, flags: seq<Byte>)

  /** What one call hands back: null, a hash, the list of matches, or nothing because it threw. */
  datatype Outcome = Null | Hash(h: Bytes) | Matches(txs: seq<Bytes>) | Exception

  datatype Visit = Visit(res: Outcome, bits: nat, used: nat, txs: seq<Bytes>)

  /** (flags[i >> 3] >>> (i & 7)) & 1, where a byte past the end counts as zero. */
  predicate FlagBit(flags: seq<Byte>, i: nat) {
    i / 8 < |flags| && Bit(flags[i / 8], i % 8)
  }

  /** One call of _traverseMerkleTree. Hashing a null child throws. */
  function Traverse(hash: Bytes -> Bytes, p: Proof, depth: nat, pos: nat, bits: nat, used: nat, txs: seq<Bytes>): Visit
    decreases depth
  {
    if bits > 8 * |p.flags| then Visit(Null, bits, used, txs)
    else if depth == 0 || !FlagBit(p.flags, bits) then Leaf(p, depth, bits, used, txs)
    else
      var l := Traverse(hash, p, depth - 1, 2 * pos, bits + 1, used, txs);
      var r := if l.res.Exception? || 2 * pos + 1 >= CalcTreeWidth(p.n, depth - 1) then l
               else Traverse(hash, p, depth - 1, 2 * pos + 1, l.bits, l.used, l.txs);
      r.(res := Join(hash, l.res, r.res))
  }

  /** A call that reads a hash of the proof. */
  function Leaf(p: Proof, depth: nat, bits: nat, used: nat, txs: seq<Bytes>): Visit {
    if used >= |p.hashes| then Visit(Null, bits + 1, used, txs)
    else
      var h := p.hashes[used];
      Visit(Hash(h), bits + 1, used + 1, if depth == 0 && FlagBit(p.flags, bits) then txs + [h] else txs)
  }

  function Join(hash: Bytes -> Bytes, l: Outcome, r: Outcome): Outcome {
    if l.Hash? && r.Hash? then Hash(hash(l.h + r.h)) else Exception
  }

  // ---------- soundness ----------

  ghost predicate Hashes32(s: seq<Bytes>) { forall i :: 0 <= i < |s| ==> |s[i]| == 32 }

  ghost predicate HashIs32(hash: Bytes -> Bytes) { forall x :: |hash(x)| == 32 }

  /** The strings hashed below a node of the real tree. */
  ghost function TreePairs(hash: Bytes -> Bytes, leaves: seq<Bytes>, k: nat, pos: nat): set<Bytes>
    requires pos < Width(|leaves|, k)
  {
    if k == 0 then {}
    else
      var left := Node(hash, leaves, k - 1, 2 * pos);
      if 2 * pos + 1 < Width(|leaves|, k - 1) then
        {left + Node(hash, leaves, k - 1, 2 * pos + 1)} + TreePairs(hash, leaves, k - 1, 2 * pos) +
        TreePairs(hash, leaves, k - 1, 2 * pos + 1)
      else {left + left} + TreePairs(hash, leaves, k - 1, 2 * pos)
  }

  /** The strings hashed by a call and the calls below it. */
  ghost function ProofPairs(hash: Bytes -> Bytes, p: Proof, depth: nat, pos: nat, bits: nat, used: nat): set<Bytes>
    decreases depth
  {
    if bits > 8 * |p.flags| || depth == 0 || !FlagBit(p.flags, bits) then {}
    else
      var l := Traverse(hash, p, depth - 1, 2 * pos, bits + 1, used, []);
      var below := ProofPairs(hash, p, depth - 1, 2 * pos, bits + 1, used);
      if 2 * pos + 1 < CalcTreeWidth(p.n, depth - 1) then
        var r := Traverse(hash, p, depth - 1, 2 * pos + 1, l.bits, l.used, []);
        (if l.res.Hash? && r.res.Hash? then {l.res.h + r.res.h} else {}) + below +
        ProofPairs(hash, p, depth - 1, 2 * pos + 1, l.bits, l.used)
      else (if l.res.Hash? then {l.res.h + l.res.h} else {}) + below
  }

  /** Where in the tree each consumed hash was placed, in the order of consumption. */
  ghost function Places(hash: Bytes -> Bytes, p: Proof, depth: nat, pos: nat, bits: nat, used: nat): seq<(nat, nat)>
    decreases depth
  {
    if bits > 8 * |p.flags| then []
    else if depth == 0 || !FlagBit(p.flags, bits) then if used >= |p.hashes| then [] else [(depth, pos)]
    else
      var l := Traverse(hash, p, depth - 1, 2 * pos, bits + 1, used, []);
      Places(hash, p, depth - 1, 2 * pos, bits + 1, used) +
      if 2 * pos + 1 < CalcTreeWidth(p.n, depth - 1) then Places(hash, p, depth - 1, 2 * pos + 1, l.bits, l.used)
        else []
  }

  /** The matches are leaves at increasing positions from lo on, below hi. */
  ghost predicate Positions(leaves: seq<Bytes>, txs: seq<Bytes>, at: seq<nat>, lo: nat, hi: nat) {
    && |txs| == |at|
    && (forall j :: 0 <= j < |at| ==> lo <= at[j] < hi && at[j] < |leaves| && txs[j] == leaves[at[j]])
    && (forall i, j :: 0 <= i < j < |at| ==> at[i] < at[j])
  }

  /** From the hash numbered `used` on, every consumed hash is the node it was placed at. */
  ghost predicate Placed(hash: Bytes -> Bytes, p: Proof, leaves: seq<Bytes>, used: nat, places: seq<(nat, nat)>) {
    forall j :: 0 <= j < |places| ==> IsNode(hash, p, leaves, used + j, places[j])
  }

  ghost predicate IsNode(hash: Bytes -> Bytes, p: Proof, leaves: seq<Bytes>, i: nat, at: (nat, nat)) {
    i < |p.hashes| && at.1 < Width(|leaves|, at.0) && p.hashes[i] == Node(hash, leaves, at.0, at.1)
  }

  /** A call that descends. */
  predicate Descends(p: Proof, depth: nat, bits: nat) {
    bits <= 8 * |p.flags| && depth > 0 && FlagBit(p.flags, bits)
  }

  predicate HasRight(p: Proof, depth: nat, pos: nat)
    requires depth > 0
  {
    2 * pos + 1 < CalcTreeWidth(p.n, depth - 1)
  }

  lemma Descent(hash: Bytes -> Bytes, p: Proof, depth: nat, pos: nat, bits: nat, used: nat, txs: seq<Bytes>)
    requires Descends(p, depth, bits)
    ensures var l := Traverse(hash, p, depth - 1, 2 * pos, bits + 1, used, txs);
            var r := Traverse(hash, p, depth - 1, 2 * pos + 1, l.bits, l.used, l.txs);
            var v := Traverse(hash, p, depth, pos, bits, used, txs);
            if l.res.Exception? || !HasRight(p, depth, pos) then v == l.(res := Join(hash, l.res, l.res))
            else v == r.(res := Join(hash, l.res, r.res))
  {
  }

  lemma NoDescent(hash: Bytes -> Bytes, p: Proof, depth: nat, pos: nat, bits: nat, used: nat, txs: seq<Bytes>)
    requires !Descends(p, depth, bits)
    ensures Traverse(hash, p, depth, pos, bits, used, txs) ==
            if bits > 8 * |p.flags| then Visit(Null, bits, used, txs) else Leaf(p, depth, bits, used, txs)
  {
  }

  /** The list that is passed in is only ever appended to. */
  lemma {:induction false} OnlyAppends(hash: Bytes -> Bytes, p: Proof, depth: nat, pos: nat, bits: nat, used: nat,
                                       txs: seq<Bytes>)
    ensures var v := Traverse(hash, p, depth, pos, bits, used, []);
            Traverse(hash, p, depth, pos, bits, used, txs) == v.(txs := txs + v.txs)
    decreases depth
  {
    hide Traverse, FlagBit, Descends, HasRight, CalcTreeWidth;
    if !Descends(p, depth, bits) {
      NoDescent(hash, p, depth, pos, bits, used, txs);
      NoDescent(hash, p, depth, pos, bits, used, []);
      assert txs + [] == txs;
    } else {
      DescendsDeeper(p, depth, bits);
      Descent(hash, p, depth, pos, bits, used, txs);
      Descent(hash, p, depth, pos, bits, used, []);
      OnlyAppends(hash, p, depth - 1, 2 * pos, bits + 1, used, txs);
      var l := Traverse(hash, p, depth - 1, 2 * pos, bits + 1, used, []);
      OnlyAppends(hash, p, depth - 1, 2 * pos + 1, l.bits, l.used, l.txs);
      OnlyAppends(hash, p, depth - 1, 2 * pos + 1, l.bits, l.used, txs + l.txs);
      var r := Traverse(hash, p, depth - 1, 2 * pos + 1, l.bits, l.used, []);
      assert txs + (l.txs + r.txs) == (txs + l.txs) + r.txs;
    }
  }

  lemma DescendsDeeper(p: Proof, depth: nat, bits: nat)
    requires Descends(p, depth, bits)
    ensures depth > 0
  {
  }

  lemma {:induction false} ResultIs32(hash: Bytes -> Bytes, p: Proof, depth: nat, pos: nat, bits: nat, used: nat)
    requires HashIs32(hash) && Hashes32(p.hashes)
    ensures var v := Traverse(hash, p, depth, pos, bits, used, []); v.res.Hash? ==> |v.res.h| == 32
  {
  }

  lemma NodeIs32(hash: Bytes -> Bytes, leaves: seq<Bytes>, k: nat, pos: nat)
    requires HashIs32(hash) && Hashes32(leaves) && pos < Width(|leaves|, k)
    ensures |Node(hash, leaves, k, pos)| == 32
  {
  }

  lemma SplitPair(a: Bytes, b: Bytes, c: Bytes, d: Bytes)
    requires |a| == |c| && a + b == c + d
    ensures a == c && b == d
  {
    assert (a + b)[..|a|] == a && (c + d)[..|a|] == c;
    assert (a + b)[|a|..] == b && (c + d)[|a|..] == d;
  }

  lemma RightExists(p: Proof, depth: nat, pos: nat)
    requires p.n <= 0x4000_0000 && 0 < depth <= 30
    ensures HasRight(p, depth, pos) <==> 2 * pos + 1 < Width(p.n, depth - 1)
  {
    hide CalcTreeWidth, Width;
    WidthsAgree(p.n, depth - 1);
  }

  /** The two calls below a descending one; the right one is the left one again when there is no right child. */
  ghost function LeftOf(hash: Bytes -> Bytes, p: Proof, depth: nat, pos: nat, bits: nat, used: nat): Visit
    requires depth > 0
  {
    Traverse(hash, p, depth - 1, 2 * pos, bits + 1, used, [])
  }

  ghost function RightOf(hash: Bytes -> Bytes, p: Proof, depth: nat, pos: nat, bits: nat, used: nat): Visit
    requires depth > 0
  {
    var l := LeftOf(hash, p, depth, pos, bits, used);
    Traverse(hash, p, depth - 1, 2 * pos + 1, l.bits, l.used, [])
  }

  /** What a descending call that ends with a hash has found out about its children. */
  lemma HashedDescent(hash: Bytes -> Bytes, p: Proof, depth: nat, pos: nat, bits: nat, used: nat)
    requires Descends(p, depth, bits) && depth > 0 && Traverse(hash, p, depth, pos, bits, used, []).res.Hash?
    ensures var v, l, r := Traverse(hash, p, depth, pos, bits, used, []), LeftOf(hash, p, depth, pos, bits, used),
                           RightOf(hash, p, depth, pos, bits, used);
            l.res.Hash? &&
            if HasRight(p, depth, pos) then
              r.res.Hash? && v == Visit(Hash(hash(l.res.h + r.res.h)), r.bits, r.used, l.txs + r.txs)
            else v == l.(res := Hash(hash(l.res.h + l.res.h)))
  {
    hide Traverse, Descends, HasRight;
    Descent(hash, p, depth, pos, bits, used, []);
    var l := LeftOf(hash, p, depth, pos, bits, used);
    OnlyAppends(hash, p, depth - 1, 2 * pos + 1, l.bits, l.used, l.txs);
  }

  lemma PairsBelow(hash: Bytes -> Bytes, p: Proof, depth: nat, pos: nat, bits: nat, used: nat)
    requires Descends(p, depth, bits) && depth > 0 && Traverse(hash, p, depth, pos, bits, used, []).res.Hash?
    ensures var l, r := LeftOf(hash, p, depth, pos, bits, used), RightOf(hash, p, depth, pos, bits, used);
            var all := ProofPairs(hash, p, depth, pos, bits, used);
            && l.res.Hash? && ProofPairs(hash, p, depth - 1, 2 * pos, bits + 1, used) <= all
            && (if HasRight(p, depth, pos) then
                  r.res.Hash? && l.res.h + r.res.h in all &&
                  ProofPairs(hash, p, depth - 1, 2 * pos + 1, l.bits, l.used) <= all
                else l.res.h + l.res.h in all)
  {
    hide Traverse, FlagBit, CalcTreeWidth;
    HashedDescent(hash, p, depth, pos, bits, used);
  }

  lemma PlacesBelow(hash: Bytes -> Bytes, p: Proof, depth: nat, pos: nat, bits: nat, used: nat)
    requires Descends(p, depth, bits) && depth > 0
    ensures var l := LeftOf(hash, p, depth, pos, bits, used);
            Places(hash, p, depth, pos, bits, used) ==
            Places(hash, p, depth - 1, 2 * pos, bits + 1, used) +
            if HasRight(p, depth, pos) then Places(hash, p, depth - 1, 2 * pos + 1, l.bits, l.used) else []
  {
    hide Traverse, FlagBit, CalcTreeWidth;
  }

  lemma TreePairsBelow(hash: Bytes -> Bytes, leaves: seq<Bytes>, k: nat, pos: nat)
    requires k > 0 && pos < Width(|leaves|, k)
    ensures 2 * pos < Width(|leaves|, k - 1)
    ensures var all, left := TreePairs(hash, leaves, k, pos), Node(hash, leaves, k - 1, 2 * pos);
            && TreePairs(hash, leaves, k - 1, 2 * pos) <= all
            && if 2 * pos + 1 < Width(|leaves|, k - 1) then
                 var right := Node(hash, leaves, k - 1, 2 * pos + 1);
                 left + right in all && TreePairs(hash, leaves, k - 1, 2 * pos + 1) <= all &&
                 Node(hash, leaves, k, pos) == hash(left + right)
               else left + left in all && Node(hash, leaves, k, pos) == hash(left + left)
  {
  }

  /** A node that is right has right children. */
  lemma ChildrenAreRight(hash: Bytes -> Bytes, p: Proof, leaves: seq<Bytes>, depth: nat, pos: nat, bits: nat, used: nat,
                         hashed: set<Bytes>)
    requires |leaves| == p.n <= 0x4000_0000 && depth <= 30 && pos < Width(p.n, depth)
    requires HashIs32(hash) && Hashes32(leaves) && Hashes32(p.hashes) && NoCollision(hash, hashed)
    requires TreePairs(hash, leaves, depth, pos) <= hashed && ProofPairs(hash, p, depth, pos, bits, used) <= hashed
    requires Traverse(hash, p, depth, pos, bits, used, []).res == Hash(Node(hash, leaves, depth, pos))
    requires Descends(p, depth, bits) && depth > 0
    ensures 2 * pos < Width(|leaves|, depth - 1)
    ensures LeftOf(hash, p, depth, pos, bits, used).res == Hash(Node(hash, leaves, depth - 1, 2 * pos))
    ensures 2 * pos + 1 < Width(|leaves|, depth - 1) ==>
            RightOf(hash, p, depth, pos, bits, used).res == Hash(Node(hash, leaves, depth - 1, 2 * pos + 1))
  {
    hide Traverse, Descends, HasRight, TreePairs, ProofPairs, Node, Width, HashIs32;
    HashedDescent(hash, p, depth, pos, bits, used);
    PairsBelow(hash, p, depth, pos, bits, used);
    TreePairsBelow(hash, leaves, depth, pos);
    RightExists(p, depth, pos);
    var l, r := LeftOf(hash, p, depth, pos, bits, used), RightOf(hash, p, depth, pos, bits, used);
    ResultIs32(hash, p, depth - 1, 2 * pos, bits + 1, used);
    NodeIs32(hash, leaves, depth - 1, 2 * pos);
    var left := Node(hash, leaves, depth - 1, 2 * pos);
    if HasRight(p, depth, pos) {
      SplitPair(l.res.h, r.res.h, left, Node(hash, leaves, depth - 1, 2 * pos + 1));
    } else {
      SplitPair(l.res.h, l.res.h, left, left);
    }
  }

  lemma JoinPositions(leaves: seq<Bytes>, a: seq<Bytes>, i: seq<nat>, b: seq<Bytes>, j: seq<nat>, lo: nat, mid: nat,
                      hi: nat)
    requires Positions(leaves, a, i, lo, mid) && Positions(leaves, b, j, mid, hi) && lo <= mid <= hi
    ensures Positions(leaves, a + b, i + j, lo, hi)
  {
  }

  lemma Halfway(pos: nat, depth: nat)
    requires depth > 0
    ensures var half, whole := Pow2(depth - 1), Pow2(depth);
            && (2 * pos) * half == pos * whole && (2 * pos + 2) * half == (pos + 1) * whole
            && (2 * pos) * half <= (2 * pos + 1) * half <= (2 * pos + 2) * half
  {
    var half := Pow2(depth - 1);
    MulAssociative(pos, 2, half);
    MulAssociative(pos + 1, 2, half);
    MulMonotone(half, 2 * pos, 2 * pos + 1);
    MulMonotone(half, 2 * pos + 1, 2 * pos + 2);
  }

  lemma JoinPlaced(hash: Bytes -> Bytes, p: Proof, leaves: seq<Bytes>, used: nat, a: seq<(nat, nat)>,
                   b: seq<(nat, nat)>)
    requires Placed(hash, p, leaves, used, a) && Placed(hash, p, leaves, used + |a|, b)
    ensures Placed(hash, p, leaves, used, a + b)
  {
    hide IsNode;
    forall j | 0 <= j < |a + b| ensures IsNode(hash, p, leaves, used + j, (a + b)[j]) {
      if j >= |a| { assert IsNode(hash, p, leaves, used + |a| + (j - |a|), b[j - |a|]); }
    }
  }

  /** A call that reads a hash, and reads the right one. */
  lemma LeafIsSound(hash: Bytes -> Bytes, p: Proof, leaves: seq<Bytes>, depth: nat, pos: nat, bits: nat, used: nat)
    returns (at: seq<nat>)
    requires |leaves| == p.n && pos < Width(p.n, depth) && !Descends(p, depth, bits)
    requires Traverse(hash, p, depth, pos, bits, used, []).res == Hash(Node(hash, leaves, depth, pos))
    ensures var v, places := Traverse(hash, p, depth, pos, bits, used, []), Places(hash, p, depth, pos, bits, used);
            && Positions(leaves, v.txs, at, pos * Pow2(depth), (pos + 1) * Pow2(depth))
            && |places| == v.used - used && Placed(hash, p, leaves, used, places)
  {
    NoDescent(hash, p, depth, pos, bits, used, []);
    at := if depth == 0 && FlagBit(p.flags, bits) then [pos] else [];
  }

  /**
   * If a call ends with the hash of the real node, every hash it consumed is the real node where it was
   * placed, and its matches are leaves below that node, in order.
   */
  lemma {:induction false} Sound(hash: Bytes -> Bytes, p: Proof, leaves: seq<Bytes>, depth: nat, pos: nat, bits: nat,
                                 used: nat,
                                 hashed: set<Bytes>)
    returns (at: seq<nat>)
    requires |leaves| == p.n <= 0x4000_0000 && depth <= 30 && pos < Width(p.n, depth)
    requires HashIs32(hash) && Hashes32(leaves) && Hashes32(p.hashes) && NoCollision(hash, hashed)
    requires TreePairs(hash, leaves, depth, pos) <= hashed && ProofPairs(hash, p, depth, pos, bits, used) <= hashed
    requires Traverse(hash, p, depth, pos, bits, used, []).res == Hash(Node(hash, leaves, depth, pos))
    ensures var v, places := Traverse(hash, p, depth, pos, bits, used, []), Places(hash, p, depth, pos, bits, used);
            && Positions(leaves, v.txs, at, pos * Pow2(depth), (pos + 1) * Pow2(depth))
            && |places| == v.used - used && Placed(hash, p, leaves, used, places)
    decreases depth
  {
    hide Traverse, Descends, HasRight, TreePairs, ProofPairs, Places, Node, Width, Pow2, Positions, Placed, HashIs32,
      NoCollision;
    if !Descends(p, depth, bits) {
      at := LeafIsSound(hash, p, leaves, depth, pos, bits, used);
    } else {
      DescendsDeeper(p, depth, bits);
      ChildrenAreRight(hash, p, leaves, depth, pos, bits, used, hashed);
      PairsBelow(hash, p, depth, pos, bits, used);
      TreePairsBelow(hash, leaves, depth, pos);
      PlacesBelow(hash, p, depth, pos, bits, used);
      HashedDescent(hash, p, depth, pos, bits, used);
      RightExists(p, depth, pos);
      Halfway(pos, depth);
      var half := Pow2(depth - 1);
      var l := LeftOf(hash, p, depth, pos, bits, used);
      at := Sound(hash, p, leaves, depth - 1, 2 * pos, bits + 1, used, hashed);
      if HasRight(p, depth, pos) {
        var r := RightOf(hash, p, depth, pos, bits, used);
        var at' := Sound(hash, p, leaves, depth - 1, 2 * pos + 1, l.bits, l.used, hashed);
        JoinPositions(leaves, l.txs, at, r.txs, at', (2 * pos) * half, (2 * pos + 1) * half, (2 * pos + 2) * half);
        JoinPlaced(hash, p, leaves, used, Places(hash, p, depth - 1, 2 * pos, bits + 1, used),
                   Places(hash, p, depth - 1, 2 * pos + 1, l.bits, l.used));
        at := at + at';
      } else {
        NoneFurther(leaves, l.txs, at, (2 * pos) * half, (2 * pos + 1) * half, (2 * pos + 2) * half);
        var left := Places(hash, p, depth - 1, 2 * pos, bits + 1, used);
        assert left + [] == left;
      }
    }
  }

  lemma NoneFurther(leaves: seq<Bytes>, a: seq<Bytes>, i: seq<nat>, lo: nat, mid: nat, hi: nat)
    requires Positions(leaves, a, i, lo, mid) && mid <= hi
    ensures Positions(leaves, a, i, lo, hi)
  {
  }

  // ---------- the order of the flag bits ----------

  lemma {:induction false} ShrIsDivision(n: nat, i: nat)
    ensures Shr(n, i) == n / Pow2(i)
  {
    hide Pow2;
    if i > 0 {
      ShrIsDivision(n / 2, i - 1);
      DivisionByTwice(n, Pow2(i - 1));
      Doubles(i - 1);
    } else {
      NoShift();
    }
  }

  lemma NoShift()
    ensures Pow2(0) == 1
  {
  }

  lemma Doubles(i: nat)
    ensures Pow2(i + 1) == 2 * Pow2(i)
  {
  }

  lemma DivisionByTwice(n: nat, p: nat)
    requires p > 0
    ensures (n / 2) / p == n / (2 * p)
  {
    var q, r := (n / 2) / p, (n / 2) % p;
    assert n / 2 == p * q + r && n == 2 * (n / 2) + n % 2;
    MulAssociative(2, p, q);
    Quotient(n, 2 * p, q, 2 * r + n % 2);
  }

  /** The flag bits are those of the flag bytes read as one little-endian number, the lowest bit first. */
  lemma {:induction false} FlagBitIs(flags: seq<Byte>, i: nat)
    ensures FlagBit(flags, i) <==> (LittleEndian(flags) / Pow2(i)) % 2 == 1
    decreases |flags|
  {
    hide Bit, Pow2;
    ShrIsDivision(LittleEndian(flags), i);
    BitOfBytes(flags, i);
    BitIs(LittleEndian(flags), i);
  }

  lemma BitIs(n: nat, i: nat)
    ensures Bit(n, i) <==> Shr(n, i) % 2 == 1
  {
  }

  lemma {:induction false} BitOfBytes(flags: seq<Byte>, i: nat)
    ensures FlagBit(flags, i) <==> Bit(LittleEndian(flags), i)
    decreases |flags|
  {
    hide Bit;
    if flags == [] {
      NoBits(i);
    } else {
      BitOfByte(flags[0], LittleEndian(flags[1..]), i);
      if i >= 8 {
        BitOfBytes(flags[1..], i - 8);
        assert (i - 8) / 8 == i / 8 - 1 && (i - 8) % 8 == i % 8;
      }
    }
  }

  lemma {:induction false} NoBits(i: nat)
    ensures !Bit(0, i)
  {
    if i > 0 { NoBits(i - 1); }
  }

  lemma BitOfByte(b: Byte, rest: nat, i: nat)
    ensures Bit(b + 256 * rest, i) <==> if i < 8 then Bit(b, i) else Bit(rest, i - 8)
  {
    hide Shr;
    assert Pow2(8) == 256 by { assert Pow2(4) == 16; }
    ShrAdds(b, rest, 8, i);
  }

  /** Below bit k there is the low part, from there on the high part. */
  lemma {:induction false} ShrAdds(low: nat, high: nat, k: nat, i: nat)
    requires low < Pow2(k)
    ensures Bit(low + Pow2(k) * high, i) <==> if i < k then Bit(low, i) else Bit(high, i - k)
    decreases k
  {
    hide Bit, Pow2;
    if k > 0 {
      Doubles(k - 1);
      HalfOfSum(low, Pow2(k - 1), high);
      NextBit(low, i);
      NextBit(low + Pow2(k) * high, i);
      if i > 0 { ShrAdds(low / 2, high, k - 1, i - 1); }
    } else {
      NoShift();
    }
  }

  lemma HalfOfSum(low: nat, p: nat, high: nat)
    ensures (low + 2 * p * high) / 2 == low / 2 + p * high && (low + 2 * p * high) % 2 == low % 2
  {
    MulAssociative(2, p, high);
  }

  lemma NextBit(v: nat, i: nat)
    ensures Bit(v, i) <==> if i == 0 then v % 2 == 1 else Bit(v / 2, i - 1)
  {
  }
}
