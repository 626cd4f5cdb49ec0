/** The zero-confirmation escrow: its Merkle root and the redeem script that checks it. */
module Escrow {
  import opened Bytes
  import opened ScriptNum
  import opened Opcode
  import opened Script
  import opened Conditionals

  // ---------- the Merkle root of the input public keys ----------

  /** Math.ceil(Math.log2(n)) */
  function CeilLog2(n: nat): nat
    requires n >= 1
  {
    if n == 1 then 0 else 1 + CeilLog2((n + 1) / 2)
  }

  lemma {:induction false} CeilLog2Least(n: nat)
    requires n >= 1
    ensures n <= Pow2(CeilLog2(n))
    ensures n > 1 ==> Pow2(CeilLog2(n) - 1) < n
  {
    if n > 1 {
      var m := (n + 1) / 2;
      CeilLog2Least(m);
      if m == 1 { assert n == 2 && CeilLog2(2) == 1 + CeilLog2(1); assert Pow2(0) == 1; }
    }
  }

  /** One level up: neighbours concatenated and hashed, a leftover hashed alone. */
  function PairUp(env: Env, level: seq<Bytes>): (up: seq<Bytes>)
    ensures |up| == (|level| + 1) / 2
  {
    if level == [] then []
    else if |level| == 1 then [env.hash160(level[0])]
    else [env.hash160(level[0] + level[1])] + PairUp(env, level[2..])
  }

  function MerkleRoot(env: Env, level: seq<Bytes>): Bytes
    requires level != []
    decreases |level|
  {
    if |level| == 1 then level[0] else MerkleRoot(env, PairUp(env, level))
  }

  /** The order of the keys' hex strings. */
  predicate LexLess(a: Bytes, b: Bytes) {
    if b == [] then false
    else if a == [] then true
    else a[0] < b[0] || (a[0] == b[0] && LexLess(a[1..], b[1..]))
  }

  function Insert(k: Bytes, sorted: seq<Bytes>): (r: seq<Bytes>)
    ensures |r| == |sorted| + 1 && multiset(r) == multiset(sorted) + multiset{k}
  {
    if sorted == [] || LexLess(k, sorted[0]) then
      assert [k] + sorted == [k] + sorted;
      [k] + sorted
    else
      assert sorted == [sorted[0]] + sorted[1..];
      [sorted[0]] + Insert(k, sorted[1..])
  }

  function SortKeys(keys: seq<Bytes>): (r: seq<Bytes>)
    ensures |r| == |keys| && multiset(r) == multiset(keys)
  {
    if keys == [] then []
    else
      assert keys == [keys[0]] + keys[1..];
      Insert(keys[0], SortKeys(keys[1..]))
  }

  /** The leaf preimages: the sorted keys, then empty strings up to a power of two. */
  function LeafValues(keys: seq<Bytes>): (r: seq<Bytes>)
    requires keys != []
    ensures |r| == Pow2(CeilLog2(|keys|))
  {
    CeilLog2Least(|keys|);
    SortKeys(keys) + seq(Pow2(CeilLog2(|keys|)) - |keys|, _ => [])
  }

  function HashAll(env: Env, values: seq<Bytes>): (r: seq<Bytes>)
    ensures |r| == |values|
  {
    seq(|values|, i requires 0 <= i < |values| => env.hash160(values[i]))
  }

  function RootOfKeys(env: Env, keys: seq<Bytes>): Bytes
    requires keys != []
  {
    CeilLog2Least(|keys|);
    MerkleRoot(env, HashAll(env, LeafValues(keys)))
  }

  /** sha256ripemd160 returns 20 bytes. */
  ghost predicate HashIs20(env: Env) { forall b :: |env.hash160(b)| == 20 }

  // ---------- the redeem script ----------

  function Op(op: int): Chunk { Chunk(op, None, 0) }

  /** Script.add of a buffer short enough for a direct push. */
  function Data(b: Bytes): Chunk { Chunk(|b|, Some(b), |b|) }

  function Repeat(cs: seq<Chunk>, n: nat): seq<Chunk> {
    if n == 0 then [] else cs + Repeat(cs, n - 1)
  }

  const LEVEL: seq<Chunk> := [Op(OP_FROMALTSTACK), Op(OP_IF), Op(OP_SWAP), Op(OP_ENDIF), Op(OP_CAT), Op(OP_HASH160)]

  /** For one input key: the key on top must hash to it. */
  function SingleKey(env: Env, key: Bytes): seq<Chunk> {
    [Op(OP_DUP), Op(OP_HASH160), Data(env.hash160(key)), Op(OP_EQUALVERIFY)]
  }

  function HashKey(levels: nat): seq<Chunk> { [Op(OP_1 - 1 + levels), Op(OP_PICK), Op(OP_HASH160)] }

  function MatchRoot(root: Bytes): seq<Chunk> { [Data(root), Op(OP_EQUALVERIFY)] }

  /** generateInputPublicKeyValidationOperations */
  function ValidateKey(env: Env, keys: seq<Bytes>): seq<Chunk>
    requires keys != []
  {
    if |keys| == 1 then SingleKey(env, keys[0])
    else
      var levels := CeilLog2(|keys|);
      Repeat([Op(OP_TOALTSTACK)], levels) + HashKey(levels) + Repeat(LEVEL, levels) + MatchRoot(RootOfKeys(env, keys))
  }

  /** The head of the redeem script, up to ELSE; the branch taken by the reclaim key is one CHECKSIG. */
  function CheckReclaimKey(env: Env, reclaimKey: Bytes): seq<Chunk> {
    [Op(OP_DUP), Op(OP_HASH160), Data(env.hash160(reclaimKey)), Op(OP_EQUAL), Op(OP_IF), Op(OP_CHECKSIG), Op(OP_ELSE)]
  }

  const ENSURE_UNIQUE: seq<Chunk> := [Op(OP_OVER), Op(OP_4), Op(OP_PICK), Op(OP_EQUAL), Op(OP_NOT), Op(OP_VERIFY)]

  const ENSURE_SIGNED: seq<Chunk> :=
    [Op(OP_DUP), Op(OP_TOALTSTACK), Op(OP_CHECKDATASIGVERIFY), Op(OP_FROMALTSTACK), Op(OP_CHECKDATASIG), Op(OP_ENDIF)]

  /** generateRedeemScriptOperations, each operation added to a script. */
  function RedeemScript(env: Env, keys: seq<Bytes>, reclaimKey: Bytes): seq<Chunk>
    requires keys != []
  {
    CheckReclaimKey(env, reclaimKey) + ValidateKey(env, keys) + ENSURE_UNIQUE + ENSURE_SIGNED
  }

  // ---------- the same script as a block structure ----------

  function Straight(cs: seq<Chunk>, rest: Prog): Prog {
    if cs == [] then rest else Single(cs[0], Straight(cs[1..], rest))
  }

  function Levels(n: nat, rest: Prog): Prog {
    if n == 0 then rest
    else Level(Levels(n - 1, rest))
  }

  const SIGNED: seq<Chunk> :=
    [Op(OP_DUP), Op(OP_TOALTSTACK), Op(OP_CHECKDATASIGVERIFY), Op(OP_FROMALTSTACK), Op(OP_CHECKDATASIG)]

  function ValidateKeyProg(env: Env, keys: seq<Bytes>, rest: Prog): Prog
    requires keys != []
  {
    if |keys| == 1 then Straight(SingleKey(env, keys[0]), rest)
    else
      var levels := CeilLog2(|keys|);
      Straight(Repeat([Op(OP_TOALTSTACK)], levels),
        Straight(HashKey(levels), Levels(levels, Straight(MatchRoot(RootOfKeys(env, keys)), rest))))
  }

  function SpendProg(env: Env, keys: seq<Bytes>): Prog
    requires keys != []
  {
    ValidateKeyProg(env, keys, Straight(ENSURE_UNIQUE, Straight(SIGNED, Nil)))
  }

  function CompareReclaim(env: Env, reclaimKey: Bytes): seq<Chunk> {
    [Op(OP_DUP), Op(OP_HASH160), Data(env.hash160(reclaimKey)), Op(OP_EQUAL)]
  }

  function Branches(spend: Prog): Prog {
    Block(Op(OP_IF), Alternate(Single(Op(OP_CHECKSIG), Nil), Op(OP_ELSE), Last(spend)), Op(OP_ENDIF), Nil)
  }

  function RedeemProg(env: Env, keys: seq<Bytes>, reclaimKey: Bytes): Prog
    requires keys != []
  {
    Straight(CompareReclaim(env, reclaimKey), Branches(SpendProg(env, keys)))
  }

  predicate Ordinary(c: Chunk) { !IsIf(c) && !IsElse(c) && !IsEndIf(c) }

  predicate AllOrdinary(cs: seq<Chunk>) { forall i :: 0 <= i < |cs| ==> Ordinary(cs[i]) }

  lemma ListsOrdinary(env: Env, key: Bytes, root: Bytes, levels: nat)
    requires HashIs20(env) && |root| == 20 && levels <= 16
    ensures AllOrdinary(CompareReclaim(env, key)) && AllOrdinary(ENSURE_UNIQUE) && AllOrdinary(SIGNED)
    ensures AllOrdinary(SingleKey(env, key)) && AllOrdinary(HashKey(levels)) && AllOrdinary(MatchRoot(root))
  {
  }

  lemma {:induction false} FlattenStraight(cs: seq<Chunk>, rest: Prog)
    requires WellFormed(rest) && AllOrdinary(cs)
    ensures Flatten(Straight(cs, rest)) == cs + Flatten(rest) && WellFormed(Straight(cs, rest))
  {
    if cs != [] { FlattenStraight(cs[1..], rest); }
  }

  lemma Six<T>(a: T, b: T, c: T, d: T, e: T, f: T, t: seq<T>)
    ensures [a] + ([b] + [c] + [d] + ([e] + ([f] + t))) == [a, b, c, d, e, f] + t
  {
  }

  lemma {:induction false} FlattenLevels(n: nat, rest: Prog)
    requires WellFormed(rest)
    ensures Flatten(Levels(n, rest)) == Repeat(LEVEL, n) + Flatten(rest) && WellFormed(Levels(n, rest))
  {
    hide Flatten, Level, WellFormed;
    if n > 0 {
      FlattenLevels(n - 1, rest);
      FlattenLevel(Levels(n - 1, rest));
      assert LEVEL + (Repeat(LEVEL, n - 1) + Flatten(rest)) == LEVEL + Repeat(LEVEL, n - 1) + Flatten(rest);
    }
  }

  function Level(rest: Prog): Prog {
    Single(Op(OP_FROMALTSTACK),
      Block(Op(OP_IF), Last(Single(Op(OP_SWAP), Nil)), Op(OP_ENDIF), Single(Op(OP_CAT), Single(Op(OP_HASH160), rest))))
  }

  lemma FlattenLevel(rest: Prog)
    requires WellFormed(rest)
    ensures Flatten(Level(rest)) == LEVEL + Flatten(rest) && WellFormed(Level(rest))
  {
    var swap := Single(Op(OP_SWAP), Nil);
    assert FlattenSegments(Last(swap)) == [Op(OP_SWAP)] by { assert Flatten(swap) == [Op(OP_SWAP)] + Flatten(Nil); }
    var hash := Single(Op(OP_HASH160), rest);
    var cat := Single(Op(OP_CAT), hash);
    var block := Block(Op(OP_IF), Last(swap), Op(OP_ENDIF), cat);
    assert Flatten(cat) == [Op(OP_CAT)] + ([Op(OP_HASH160)] + Flatten(rest)) by {
      assert Flatten(hash) == [Op(OP_HASH160)] + Flatten(rest);
    }
    assert WellFormed(hash);
    assert WellFormed(cat);
    assert WellFormedSegments(Last(swap)) by { assert WellFormed(Nil) && WellFormed(swap); }
    assert WellFormed(block);
    assert Flatten(block) == [Op(OP_IF)] + [Op(OP_SWAP)] + [Op(OP_ENDIF)] + Flatten(cat);
    Six(Op(OP_FROMALTSTACK), Op(OP_IF), Op(OP_SWAP), Op(OP_ENDIF), Op(OP_CAT), Op(OP_HASH160), Flatten(rest));
  }

  lemma {:induction false} RepeatOrdinary(c: Chunk, n: nat)
    requires Ordinary(c)
    ensures AllOrdinary(Repeat([c], n))
    ensures |Repeat([c], n)| == n
  {
    if n > 0 {
      RepeatOrdinary(c, n - 1);
      var r := Repeat([c], n - 1);
      assert Repeat([c], n) == [c] + r;
      forall i | 0 <= i < n ensures Ordinary(([c] + r)[i]) {
        if i > 0 { assert Ordinary(r[i - 1]); }
      }
    }
  }

  /** The compiler's flat output has that block structure. */
  lemma RedeemScriptStructure(env: Env, keys: seq<Bytes>, reclaimKey: Bytes)
    requires keys != [] && HashIs20(env) && CeilLog2(|keys|) <= 16
    ensures Parse(RedeemScript(env, keys, reclaimKey)) == Some(RedeemProg(env, keys, reclaimKey))
  {
    hide Flatten, Straight, AllOrdinary, CheckReclaimKey, CompareReclaim, ValidateKey, SpendProg, Branches;
    var spend := SpendProg(env, keys);
    SpendStructure(env, keys);
    BranchesStructure(spend);
    var head := CompareReclaim(env, reclaimKey);
    ListsOrdinary(env, reclaimKey, env.hash160(reclaimKey), 0);
    FlattenStraight(head, Branches(spend));
    SourceLists(env, reclaimKey);
    Regroup(head, BRANCH, ValidateKey(env, keys), ENSURE_UNIQUE, SIGNED, [Op(OP_ENDIF)]);
    ParseIff(RedeemScript(env, keys, reclaimKey), RedeemProg(env, keys, reclaimKey));
  }

  const BRANCH: seq<Chunk> := [Op(OP_IF), Op(OP_CHECKSIG), Op(OP_ELSE)]

  lemma SourceLists(env: Env, reclaimKey: Bytes)
    ensures CheckReclaimKey(env, reclaimKey) == CompareReclaim(env, reclaimKey) + BRANCH
    ensures ENSURE_SIGNED == SIGNED + [Op(OP_ENDIF)]
  {
  }

  lemma Regroup<T>(a: seq<T>, b: seq<T>, c: seq<T>, d: seq<T>, e: seq<T>, f: seq<T>)
    ensures a + (b + (c + (d + e)) + f) == (a + b) + c + d + (e + f)
  {
  }

  lemma BranchesStructure(spend: Prog)
    requires WellFormed(spend)
    ensures WellFormed(Branches(spend))
    ensures Flatten(Branches(spend)) == BRANCH + Flatten(spend) + [Op(OP_ENDIF)]
  {
    hide Flatten, FlattenSegments, WellFormed, WellFormedSegments;
    var check := Single(Op(OP_CHECKSIG), Nil);
    var segments := Alternate(check, Op(OP_ELSE), Last(spend));
    OneChunk(OP_CHECKSIG);
    TwoSegments(check, spend);
    OneBlock(segments);
    assert Flatten(check) == [Op(OP_CHECKSIG)];
  }

  lemma OneChunk(op: int)
    requires op != OP_IF && op != OP_NOTIF && op != OP_ELSE && op != OP_ENDIF
    ensures WellFormed(Single(Op(op), Nil)) && Flatten(Single(Op(op), Nil)) == [Op(op)]
  {
    assert Flatten(Nil) == [];
  }

  lemma TwoSegments(p: Prog, q: Prog)
    requires WellFormed(p) && WellFormed(q)
    ensures WellFormedSegments(Alternate(p, Op(OP_ELSE), Last(q)))
    ensures FlattenSegments(Alternate(p, Op(OP_ELSE), Last(q))) == Flatten(p) + [Op(OP_ELSE)] + Flatten(q)
  {
    hide Flatten, WellFormed;
    assert FlattenSegments(Last(q)) == Flatten(q) && WellFormedSegments(Last(q));
  }

  lemma OneBlock(segments: Segments)
    requires WellFormedSegments(segments)
    ensures var p := Block(Op(OP_IF), segments, Op(OP_ENDIF), Nil);
            WellFormed(p) && Flatten(p) == [Op(OP_IF)] + FlattenSegments(segments) + [Op(OP_ENDIF)]
  {
    hide FlattenSegments, WellFormedSegments;
    assert WellFormed(Nil) && Flatten(Nil) == [];
  }

  lemma SpendStructure(env: Env, keys: seq<Bytes>)
    requires keys != [] && HashIs20(env) && CeilLog2(|keys|) <= 16
    ensures WellFormed(SpendProg(env, keys))
    ensures Flatten(SpendProg(env, keys)) == ValidateKey(env, keys) + (ENSURE_UNIQUE + SIGNED)
  {
    hide AllOrdinary, ValidateKey, ValidateKeyProg, Straight;
    ListsOrdinary(env, [], env.hash160([]), 0);
    FlattenStraight(SIGNED, Nil);
    FlattenStraight(ENSURE_UNIQUE, Straight(SIGNED, Nil));
    ValidateKeyStructure(env, keys, Straight(ENSURE_UNIQUE, Straight(SIGNED, Nil)));
    assert SIGNED + [] == SIGNED;
  }

  lemma ValidateKeyStructure(env: Env, keys: seq<Bytes>, rest: Prog)
    requires keys != [] && HashIs20(env) && CeilLog2(|keys|) <= 16 && WellFormed(rest)
    ensures Flatten(ValidateKeyProg(env, keys, rest)) == ValidateKey(env, keys) + Flatten(rest)
    ensures WellFormed(ValidateKeyProg(env, keys, rest))
  {
    hide AllOrdinary, Straight, Levels, Flatten, SingleKey, HashKey, MatchRoot, Repeat;
    if |keys| == 1 {
      ListsOrdinary(env, keys[0], env.hash160(keys[0]), 0);
      FlattenStraight(SingleKey(env, keys[0]), rest);
    } else {
      var n, root := CeilLog2(|keys|), RootOfKeys(env, keys);
      RootIsHash(env, keys);
      ListsOrdinary(env, [], root, n);
      var p3 := Straight(MatchRoot(root), rest);
      FlattenStraight(MatchRoot(root), rest);
      var p2 := Levels(n, p3);
      FlattenLevels(n, p3);
      var p1 := Straight(HashKey(n), p2);
      FlattenStraight(HashKey(n), p2);
      RepeatOrdinary(Op(OP_TOALTSTACK), n);
      FlattenStraight(Repeat([Op(OP_TOALTSTACK)], n), p1);
      Regroup5(Repeat([Op(OP_TOALTSTACK)], n), HashKey(n), Repeat(LEVEL, n), MatchRoot(root), Flatten(rest));
    }
  }

  lemma Regroup5<T>(a: seq<T>, b: seq<T>, c: seq<T>, d: seq<T>, e: seq<T>)
    ensures a + (b + (c + (d + e))) == a + b + c + d + e
  {
  }

  lemma {:induction false} RootLength(env: Env, level: seq<Bytes>)
    requires level != [] && HashIs20(env) && forall i :: 0 <= i < |level| ==> |level[i]| == 20
    ensures |MerkleRoot(env, level)| == 20
    decreases |level|
  {
    if |level| > 1 {
      PairUpLengths(env, level);
      RootLength(env, PairUp(env, level));
    }
  }

  lemma {:induction false} PairUpLengths(env: Env, level: seq<Bytes>)
    requires HashIs20(env)
    ensures forall i :: 0 <= i < |PairUp(env, level)| ==> |PairUp(env, level)[i]| == 20
  {
    if |level| > 1 { PairUpLengths(env, level[2..]); }
  }

  lemma RootIsHash(env: Env, keys: seq<Bytes>)
    requires keys != [] && HashIs20(env)
    ensures |RootOfKeys(env, keys)| == 20
  {
    CeilLog2Least(|keys|);
    RootLength(env, HashAll(env, LeafValues(keys)));
  }
}
