/** Merkle paths of the escrow: every input key has one, and without a hash collision only they do. */
module EscrowPaths {
  import opened Bytes
  import opened ScriptNum
  import opened Script
  import opened Escrow
  import opened EscrowRun
  import opened EscrowTheorems

  // ---------- completeness ----------

  lemma {:induction false} PairUpAt(env: Env, level: seq<Bytes>, j: nat)
    requires j < (|level| + 1) / 2
    ensures PairUp(env, level)[j] ==
            env.hash160(if 2 * j + 1 < |level| then level[2 * j] + level[2 * j + 1] else level[2 * j])
  {
    if j > 0 { PairUpAt(env, level[2..], j - 1); }
  }

  predicate Hashes(level: seq<Bytes>) { forall i :: 0 <= i < |level| ==> |level[i]| == 20 }

  lemma PairUpHashes(env: Env, level: seq<Bytes>)
    requires HashIs20(env)
    ensures Hashes(PairUp(env, level))
  {
    PairUpLengths(env, level);
  }

  /** A flag is exactly TRUE or FALSE, a sibling is a hash. */
  predicate WellShaped(flags: seq<Bytes>, siblings: seq<Bytes>) {
    (forall i :: 0 <= i < |flags| ==> flags[i] == TRUE || flags[i] == FALSE) && Hashes(siblings)
  }

  /** A path of n well-shaped steps from h to the root over a level. */
  predicate LeadsToRoot(ctx: Context, h: Bytes, flags: seq<Bytes>, siblings: seq<Bytes>, level: seq<Bytes>, n: nat) {
    && |flags| == |siblings| == n && level != [] && WellShaped(flags, siblings)
    && Fold(ctx, h, flags, siblings) == Some(MerkleRoot(ctx.env, level))
  }

  /** From every position of a level there is a path to the root. */
  lemma {:induction false} FindPath(ctx: Context, level: seq<Bytes>, i: nat, n: nat)
    returns (flags: seq<Bytes>, siblings: seq<Bytes>)
    requires |level| == Pow2(n) && i < |level| && HashIs20(ctx.env) && Hashes(level)
    ensures LeadsToRoot(ctx, level[i], flags, siblings, level, n)
    decreases n
  {
    hide LeadsToRoot, PairUp, Hashes, Pow2;
    if n == 0 {
      Halved(0);
      flags, siblings := [], [];
      AtRoot(ctx, level);
    } else {
      Halved(n);
      var up := PairUp(ctx.env, level);
      PairUpHashes(ctx.env, level);
      flags, siblings := FindPath(ctx, up, i / 2, n - 1);
      flags, siblings := ExtendPath(ctx, level, i, n, flags, siblings);
    }
  }

  lemma AtRoot(ctx: Context, level: seq<Bytes>)
    requires |level| == 1
    ensures LeadsToRoot(ctx, level[0], [], [], level, 0)
  {
  }

  lemma ExtendPath(ctx: Context, level: seq<Bytes>, i: nat, n: nat, flags': seq<Bytes>, siblings': seq<Bytes>)
    returns (flags: seq<Bytes>, siblings: seq<Bytes>)
    requires n > 0 && |level| >= 2 && |level| % 2 == 0 && i < |level| && Hashes(level)
    requires LeadsToRoot(ctx, PairUp(ctx.env, level)[i / 2], flags', siblings', PairUp(ctx.env, level), n - 1)
    ensures LeadsToRoot(ctx, level[i], flags, siblings, level, n)
  {
    hide PairUp, Climb, Fold, MerkleRoot, Hashes, WellShaped, Bool;
    var left := i % 2 == 0;
    var sibling := if left then level[i + 1] else level[i - 1];
    flags, siblings := [Bool(left)] + flags', siblings' + [sibling];
    PairUpAt(ctx.env, level, i / 2);
    ExtendShape(level, i, flags', siblings', left);
    ClimbBool(ctx, level[i], left, sibling);
    FoldStep(ctx, level[i], flags', siblings', Bool(left), sibling);
    RootStep(ctx.env, level);
  }

  lemma Halved(n: nat)
    ensures if n == 0 then Pow2(n) == 1 else Pow2(n) == 2 * Pow2(n - 1)
  {
  }

  lemma ExtendShape(level: seq<Bytes>, i: nat, flags: seq<Bytes>, siblings: seq<Bytes>, left: bool)
    requires i < |level| && |level| % 2 == 0 && Hashes(level) && WellShaped(flags, siblings) && left == (i % 2 == 0)
    ensures var sibling := if left then level[i + 1] else level[i - 1];
            |level[i]| == 20 && |sibling| == 20 && WellShaped([Bool(left)] + flags, siblings + [sibling])
  {
  }

  lemma FoldStep(ctx: Context, h: Bytes, flags: seq<Bytes>, siblings: seq<Bytes>, flag: Bytes, sibling: Bytes)
    requires |flags| == |siblings|
    ensures Fold(ctx, h, [flag] + flags, siblings + [sibling]) ==
            match Climb(ctx, h, flag, sibling)
            case None => None
            case Some(up) => Fold(ctx, up, flags, siblings)
  {
    hide Climb;
    assert ([flag] + flags)[1..] == flags && (siblings + [sibling])[..|siblings|] == siblings;
  }

  lemma RootStep(env: Env, level: seq<Bytes>)
    requires |level| >= 2
    ensures MerkleRoot(env, level) == MerkleRoot(env, PairUp(env, level))
  {
  }

  lemma ClimbBool(ctx: Context, h: Bytes, left: bool, sibling: Bytes)
    requires |h| == |sibling| == 20
    ensures Climb(ctx, h, Bool(left), sibling) == Some(ctx.env.hash160(if left then h + sibling else sibling + h))
  {
    assert Encode(1) == [1];
    DecodeEncode(1);
  }

  lemma KeyIsLeaf(keys: seq<Bytes>, key: Bytes)
    requires keys != []
    ensures key in LeafValues(keys) <==> key in keys || (key == [] && |keys| < Pow2(CeilLog2(|keys|)))
  {
    CeilLog2Least(|keys|);
    hide SortKeys, Pow2, CeilLog2;
    InSorted(keys, key);
    InPadded(SortKeys(keys), Pow2(CeilLog2(|keys|)) - |keys|, key);
  }

  lemma InSorted(keys: seq<Bytes>, key: Bytes)
    ensures key in SortKeys(keys) <==> key in keys
  {
    hide SortKeys;
    var sorted := SortKeys(keys);
    assert key in sorted <==> key in multiset(sorted);
    assert key in keys <==> key in multiset(keys);
  }

  lemma InPadded(sorted: seq<Bytes>, n: nat, key: Bytes)
    ensures key in sorted + seq(n, _ => []) <==> key in sorted || (key == [] && n > 0)
  {
    var pad: seq<Bytes> := seq(n, _ => []);
    if n > 0 { assert pad[0] == []; }
    assert key in pad <==> key == [] && n > 0;
  }

  /** Every input key has a path, and with it and two good signatures the script accepts. */
  lemma EveryInputKeyCanSpend(ctx: Context, keys: seq<Bytes>, key: Bytes,
                              sig2: Bytes, msg2: Bytes, sig1: Bytes, msg1: Bytes)
    returns (w: Spend)
    requires 1 <= |keys| <= MAX_KEYS && HashIs20(ctx.env) && key in keys
    requires msg1 != msg2 && Signed(ctx, sig1, msg1, key) && Signed(ctx, sig2, msg2, key)
    ensures w.Fits(keys) && WellShaped(w.flags, w.siblings)
    ensures w == Spend(sig2, msg2, sig1, msg1, key, w.siblings, w.flags) && Accepted(ctx, keys, w)
  {
    KeyIsLeaf(keys, key);
    var values, n := LeafValues(keys), CeilLog2(|keys|);
    var i :| 0 <= i < |values| && values[i] == key;
    var leaves := HashAll(ctx.env, values);
    var flags, siblings := FindPath(ctx, leaves, i, n);
    w := Spend(sig2, msg2, sig1, msg1, key, siblings, flags);
  }

  // ---------- soundness ----------

  /** The pairs hashed while folding a path. */
  function PathPairs(ctx: Context, h: Bytes, flags: seq<Bytes>, siblings: seq<Bytes>): set<Bytes>
    requires |flags| == |siblings|
    decreases |flags|
  {
    if flags == [] then {}
    else
      var n := |flags|;
      var pair := if Truthy(flags[0]) then h + siblings[n - 1] else siblings[n - 1] + h;
      {pair} + PathPairs(ctx, ctx.env.hash160(pair), flags[1..], siblings[..n - 1])
  }

  /** The pairs hashed while building the tree over a level. */
  function TreePairs(env: Env, level: seq<Bytes>, n: nat): set<Bytes>
    requires |level| == Pow2(n)
    decreases n
  {
    if n == 0 then {}
    else
      assert |level| == 2 * Pow2(n - 1);
      (set j | 0 <= j < |level| / 2 :: level[2 * j] + level[2 * j + 1]) + TreePairs(env, PairUp(env, level), n - 1)
  }

  lemma {:induction false} PathEndsAtLeaf(ctx: Context, h: Bytes, flags: seq<Bytes>, siblings: seq<Bytes>,
                                          level: seq<Bytes>,
                                          n: nat, hashed: set<Bytes>)
    requires |flags| == |siblings| == n && |level| == Pow2(n) && HashIs20(ctx.env) && Hashes(level) && |h| == 20
    requires Fold(ctx, h, flags, siblings) == Some(MerkleRoot(ctx.env, level))
    requires PathPairs(ctx, h, flags, siblings) <= hashed && TreePairs(ctx.env, level, n) <= hashed
    requires NoCollision(ctx.env.hash160, hashed)
    ensures h in level
    decreases n
  {
    hide PairUp, Fold, MerkleRoot, TreePairs, PathPairs, Hashes, Pow2, Truthy, NoCollision;
    if n == 0 {
      LeafIsRoot(ctx, h, flags, siblings, level);
    } else {
      var sibling := siblings[n - 1];
      var pair := if Truthy(flags[0]) then h + sibling else sibling + h;
      Halved(n);
      var up, top := PairUp(ctx.env, level), ctx.env.hash160(pair);
      FirstClimb(ctx, h, flags, siblings, level, n);
      PairUpHashes(ctx.env, level);
      PathEndsAtLeaf(ctx, top, flags[1..], siblings[..n - 1], up, n - 1, hashed);
      var j :| 0 <= j < |up| && up[j] == top;
      SameChildren(ctx, level, n, j, h, sibling, pair, hashed);
    }
  }

  lemma LeafIsRoot(ctx: Context, h: Bytes, flags: seq<Bytes>, siblings: seq<Bytes>, level: seq<Bytes>)
    requires |flags| == |siblings| == 0 && |level| == Pow2(0)
    requires Fold(ctx, h, flags, siblings) == Some(MerkleRoot(ctx.env, level))
    ensures h in level
  {
    assert level[0] == h;
  }

  lemma FirstClimb(ctx: Context, h: Bytes, flags: seq<Bytes>, siblings: seq<Bytes>, level: seq<Bytes>, n: nat)
    requires |flags| == |siblings| == n > 0 && |level| == Pow2(n) && |level| >= 2
    requires Fold(ctx, h, flags, siblings) == Some(MerkleRoot(ctx.env, level))
    ensures var sibling := siblings[n - 1];
            var pair := if Truthy(flags[0]) then h + sibling else sibling + h;
            && Fold(ctx, ctx.env.hash160(pair), flags[1..], siblings[..n - 1]) ==
               Some(MerkleRoot(ctx.env, PairUp(ctx.env, level)))
            && PathPairs(ctx, h, flags, siblings) ==
               {pair} + PathPairs(ctx, ctx.env.hash160(pair), flags[1..], siblings[..n - 1])
            && |PairUp(ctx.env, level)| == Pow2(n - 1)
            && TreePairs(ctx.env, PairUp(ctx.env, level), n - 1) <= TreePairs(ctx.env, level, n)
  {
    hide Truthy, PairUp;
    Halved(n);
    RootStep(ctx.env, level);
  }

  /** The pair that was hashed is the pair of siblings j in the level, so h is one of them. */
  lemma SameChildren(ctx: Context, level: seq<Bytes>, n: nat, j: nat, h: Bytes, sibling: Bytes, pair: Bytes,
                     hashed: set<Bytes>)
    requires n > 0 && |level| == Pow2(n) && Hashes(level) && |h| == 20 && 2 * j + 1 < |level|
    requires pair == h + sibling || pair == sibling + h
    requires PairUp(ctx.env, level)[j] == ctx.env.hash160(pair)
    requires pair in hashed && TreePairs(ctx.env, level, n) <= hashed && NoCollision(ctx.env.hash160, hashed)
    ensures h in level
  {
    hide PairUp;
    Halved(n);
    PairUpAt(ctx.env, level, j);
    var node := level[2 * j] + level[2 * j + 1];
    assert node in TreePairs(ctx.env, level, n);
    assert node == pair;
    HalvesAgree(h, sibling, level[2 * j], level[2 * j + 1]);
    HalvesAgree(sibling, h, level[2 * j], level[2 * j + 1]);
  }

  lemma HalvesAgree(a: Bytes, b: Bytes, c: Bytes, d: Bytes)
    requires |c| == |d| == 20 && (|a| == 20 || |b| == 20)
    ensures a + b == c + d ==> a == c && b == d
  {
    if a + b == c + d {
      assert |a| == 20;
      assert (a + b)[..20] == a && (a + b)[20..] == b && (c + d)[..20] == c && (c + d)[20..] == d;
    }
  }

  /** Everything hashed in building the root and in checking one key against it. */
  function HashedStrings(ctx: Context, keys: seq<Bytes>, w: Spend): set<Bytes>
    requires keys != [] && w.Fits(keys)
  {
    PathPairs(ctx, ctx.env.hash160(w.key), w.flags, w.siblings) +
    TreePairs(ctx.env, HashAll(ctx.env, LeafValues(keys)), CeilLog2(|keys|)) +
    (set v | v in LeafValues(keys)) + {w.key}
  }

  /**
   * Only input keys can spend: unless two of the strings hashed here collide, an accepted key is
   * an input key, or the empty string when the tree has padding leaves.
   */
  lemma OnlyInputKeysCanSpend(ctx: Context, keys: seq<Bytes>, w: Spend)
    requires 1 <= |keys| <= MAX_KEYS && HashIs20(ctx.env) && w.Fits(keys) && Accepted(ctx, keys, w)
    requires NoCollision(ctx.env.hash160, HashedStrings(ctx, keys, w))
    ensures w.key in keys || (w.key == [] && |keys| < Pow2(CeilLog2(|keys|)))
  {
    hide LeafValues, HashAll, PathPairs, TreePairs, Fold, CeilLog2, Pow2, NoCollision;
    var values := LeafValues(keys);
    var leaves, h := HashAll(ctx.env, values), ctx.env.hash160(w.key);
    LeavesAreHashes(ctx.env, values);
    RootUnfold(ctx.env, keys);
    PathEndsAtLeaf(ctx, h, w.flags, w.siblings, leaves, CeilLog2(|keys|), HashedStrings(ctx, keys, w));
    var i :| 0 <= i < |leaves| && leaves[i] == h;
    SamePreimage(ctx.env, values, i, w.key, HashedStrings(ctx, keys, w));
    KeyIsLeaf(keys, w.key);
  }

  lemma LeavesAreHashes(env: Env, values: seq<Bytes>)
    requires HashIs20(env)
    ensures Hashes(HashAll(env, values))
  {
  }

  lemma RootUnfold(env: Env, keys: seq<Bytes>)
    requires keys != []
    ensures RootOfKeys(env, keys) == MerkleRoot(env, HashAll(env, LeafValues(keys)))
  {
  }

  lemma SamePreimage(env: Env, values: seq<Bytes>, i: nat, key: Bytes, hashed: set<Bytes>)
    requires i < |values| && HashAll(env, values)[i] == env.hash160(key)
    requires NoCollision(env.hash160, hashed) && (set v | v in values) <= hashed && key in hashed
    ensures key in values
  {
    assert values[i] in values;
  }
}
