/** The escrow script on any stack at all: how many items it takes, and that it accepts nothing but a spend. */
module EscrowStack {
  import opened Bytes
  import opened ScriptNum
  import opened Opcode
  import opened Script
  import opened Machine
  import opened OpcodeCases
  import opened Conditionals
  import opened Escrow
  import opened EscrowTheorems

  // ---------- how an operation changes the height of the stack ----------

  predicate IsKnown(c: Chunk) {
    c.Chunk? &&
    if c.data.Some? then IsPush(c.op)
    else
      c.op in {OP_DUP, OP_OVER, OP_SWAP, OP_PICK, OP_HASH160, OP_EQUAL, OP_EQUALVERIFY, OP_CAT, OP_NOT, OP_VERIFY,
               OP_TOALTSTACK, OP_FROMALTSTACK, OP_CHECKDATASIG, OP_CHECKDATASIGVERIFY} ||
      OP_1 <= c.op <= OP_16
  }

  function Effect(c: Chunk): int
    requires c.Chunk?
  {
    if c.data.Some? || c.op == OP_DUP || c.op == OP_OVER || c.op == OP_FROMALTSTACK || OP_1 <= c.op <= OP_16 then 1
    else if c.op == OP_EQUAL || c.op == OP_CAT || c.op == OP_VERIFY || c.op == OP_TOALTSTACK then -1
    else if c.op == OP_EQUALVERIFY || c.op == OP_CHECKDATASIG then -2
    else if c.op == OP_CHECKDATASIGVERIFY then -3
    else 0
  }

  lemma OnStackEffect(ctx: Context, c: Chunk, st: seq<Bytes>)
    requires IsKnown(c) && c.data.None? && OnStack(ctx, c.op, st).Ok?
    requires c.op != OP_TOALTSTACK && c.op != OP_FROMALTSTACK && !IsCheck(c.op)
    ensures |OnStack(ctx, c.op, st).value| == |st| + Effect(c)
  {
    hide OnStack, UnaryItems, HashOf, Truthy, Encode, IsShuffle, Arity, Picture;
    if c.op == OP_DUP || c.op == OP_OVER || c.op == OP_SWAP || c.op == OP_PICK {
      MoveEffect(ctx, c, st);
    } else if c.op == OP_HASH160 {
      HashCases(ctx, c.op, st);
    } else if c.op == OP_EQUAL || c.op == OP_EQUALVERIFY {
      EqualCases(ctx, c.op, st);
    } else if c.op == OP_CAT {
      CatCases(ctx, st);
    } else if c.op == OP_NOT {
      OnStackUnary(ctx, c.op, st);
      UnaryCases(ctx.flags, c.op, st);
    } else if c.op == OP_VERIFY {
      VerifyCases(ctx, st);
    } else {
      ConstantCases(ctx, c.op, st);
    }
  }

  lemma MoveEffect(ctx: Context, c: Chunk, st: seq<Bytes>)
    requires c.Chunk? && c.data.None? && (c.op == OP_DUP || c.op == OP_OVER || c.op == OP_SWAP || c.op == OP_PICK)
    requires OnStack(ctx, c.op, st).Ok?
    ensures |OnStack(ctx, c.op, st).value| == |st| + Effect(c)
  {
    hide OnStack, ReadNumber, Shuffle, PickOrRoll;
    if c.op == OP_PICK {
      PickRollCases(ctx, c.op, st);
      PickHeight(Drop(st, 1), ReadNumber(Top(st, 1), ctx.flags.minimalData, 4).value);
    } else {
      ShuffleCases(ctx, c.op, st);
      ShuffleHeight(c.op, st);
    }
  }

  lemma PickHeight(st: seq<Bytes>, n: int)
    ensures PickOrRoll(OP_PICK, st, n).Ok? ==> |PickOrRoll(OP_PICK, st, n).value| == |st| + 1
  {
  }

  lemma ShuffleHeight(op: int, st: seq<Bytes>)
    requires op == OP_DUP || op == OP_OVER || op == OP_SWAP
    ensures Shuffle(op, st).Ok? ==> |Shuffle(op, st).value| == |st| + if op == OP_SWAP then 0 else 1
  {
    hide Picture;
    PictureHeight(op, st);
  }

  lemma PictureHeight(op: int, st: seq<Bytes>)
    requires op == OP_DUP || op == OP_OVER || op == OP_SWAP
    ensures IsShuffle(op) && Arity(op) == if op == OP_DUP then 1 else 2
    ensures var n := Arity(op);
            |st| >= n ==> |Picture(op, st[|st| - n..])| == n + if op == OP_SWAP then 0 else 1
  {
  }

  lemma ExecuteEffect(ctx: Context, c: Chunk, s: Core)
    requires IsKnown(c) && c.data.None? && Execute(ctx, c.op, s).Ok?
    ensures |Execute(ctx, c.op, s).value.stack| == |s.stack| + Effect(c)
  {
    hide Execute, OnStack;
    ExecuteCases(ctx, c.op, s);
    if c.op == OP_CHECKDATASIG || c.op == OP_CHECKDATASIGVERIFY {
      CheckCases(ctx, c.op, s);
    } else if c.op != OP_TOALTSTACK && c.op != OP_FROMALTSTACK {
      OnStackEffect(ctx, c, s.stack);
    }
  }

  lemma SingleEffect(ctx: Context, c: Chunk, s: Core)
    requires IsKnown(c) && RunSingle(ctx, c, s, true).Ok?
    ensures |RunSingle(ctx, c, s, true).value.stack| == |s.stack| + Effect(c)
  {
    hide Execute, IsKnown, MinimalPush;
    KnownKinds(c);
    var s1 := Fetch(ctx, c, s).value;
    if c.data.None? { ExecuteEffect(ctx, c, s1); }
  }

  lemma KnownKinds(c: Chunk)
    requires IsKnown(c)
    ensures c.Chunk? && !IsConditional(c.op) && (IsPush(c.op) <==> c.data.Some?)
  {
  }

  // ---------- how a program changes it ----------

  /** Whenever the program succeeds, the stack is d items higher. */
  ghost predicate Net(ctx: Context, p: Prog, d: int) {
    forall s: Core :: Run(ctx, p, s, true).Ok? ==> |Run(ctx, p, s, true).value.stack| == |s.stack| + d
  }

  lemma NetNil(ctx: Context)
    ensures Net(ctx, Nil, 0)
  {
  }

  lemma NetSingle(ctx: Context, c: Chunk, rest: Prog, d: int)
    requires IsKnown(c) && Net(ctx, rest, d)
    ensures Net(ctx, Single(c, rest), Effect(c) + d)
  {
    hide RunSingle, IsKnown, Effect;
    KnownKinds(c);
    forall s: Core | Run(ctx, Single(c, rest), s, true).Ok?
      ensures |Run(ctx, Single(c, rest), s, true).value.stack| == |s.stack| + (Effect(c) + d)
    {
      SingleEffect(ctx, c, s);
      assert Run(ctx, rest, RunSingle(ctx, c, s, true).value, true).Ok?;
    }
  }

  predicate AllKnown(cs: seq<Chunk>) { forall i :: 0 <= i < |cs| ==> IsKnown(cs[i]) }

  function Sum(cs: seq<Chunk>): int
    requires AllKnown(cs)
  {
    if cs == [] then 0
    else
      assert AllKnown(cs[1..]);
      KnownKinds(cs[0]);
      Effect(cs[0]) + Sum(cs[1..])
  }

  lemma {:induction false} NetStraight(ctx: Context, cs: seq<Chunk>, rest: Prog, d: int)
    requires AllKnown(cs) && Net(ctx, rest, d)
    ensures Net(ctx, Straight(cs, rest), Sum(cs) + d)
  {
    hide Net, IsKnown, Effect;
    if cs != [] {
      NetStraight(ctx, cs[1..], rest, d);
      NetSingle(ctx, cs[0], Straight(cs[1..], rest), Sum(cs[1..]) + d);
    }
  }

  /** The block of one level pops its flag and leaves the stack as high as it found it. */
  lemma SwapBlockEffect(ctx: Context, s: Core)
    requires RunBlock(ctx, Op(OP_IF), Last(Single(Op(OP_SWAP), Nil)), Op(OP_ENDIF), s, true).Ok?
    ensures var r := RunBlock(ctx, Op(OP_IF), Last(Single(Op(OP_SWAP), Nil)), Op(OP_ENDIF), s, true).value;
            |r.stack| == |s.stack| - 1
  {
    hide RunSingle, Truthy;
    var swap := Single(Op(OP_SWAP), Nil);
    var entered := Enter(ctx, Op(OP_IF), s, true).value;
    var s1, cond := entered.0, entered.1;
    assert RunSegments(ctx, Last(swap), s1, true, cond) == Run(ctx, swap, s1, cond);
    assert Run(ctx, swap, s1, cond) == RunSingle(ctx, Op(OP_SWAP), s1, cond) by {
      var r := RunSingle(ctx, Op(OP_SWAP), s1, cond);
      if r.Ok? { assert Run(ctx, Nil, r.value, cond) == r; }
    }
    if cond { SingleEffect(ctx, Op(OP_SWAP), s1); } else { SkippedSingle(ctx, Op(OP_SWAP), s1); }
  }

  lemma SkippedSingle(ctx: Context, c: Chunk, s: Core)
    requires RunSingle(ctx, c, s, false).Ok?
    ensures RunSingle(ctx, c, s, false).value.stack == s.stack
  {
  }

  lemma NetLevel(ctx: Context, rest: Prog, d: int)
    requires Net(ctx, rest, d)
    ensures Net(ctx, Level(rest), d - 1)
  {
    hide RunBlock, Net;
    var hash := Single(Op(OP_HASH160), rest);
    var cat := Single(Op(OP_CAT), hash);
    NetSingle(ctx, Op(OP_HASH160), rest, d);
    NetSingle(ctx, Op(OP_CAT), hash, d);
    var block := Block(Op(OP_IF), Last(Single(Op(OP_SWAP), Nil)), Op(OP_ENDIF), cat);
    NetBlock(ctx, cat, d - 1);
    NetSingle(ctx, Op(OP_FROMALTSTACK), block, d - 2);
  }

  lemma NetBlock(ctx: Context, rest: Prog, d: int)
    requires Net(ctx, rest, d)
    ensures Net(ctx, Block(Op(OP_IF), Last(Single(Op(OP_SWAP), Nil)), Op(OP_ENDIF), rest), d - 1)
  {
    hide RunBlock;
    var segs := Last(Single(Op(OP_SWAP), Nil));
    var p := Block(Op(OP_IF), segs, Op(OP_ENDIF), rest);
    forall s: Core | Run(ctx, p, s, true).Ok? ensures |Run(ctx, p, s, true).value.stack| == |s.stack| + (d - 1) {
      SwapBlockEffect(ctx, s);
      assert Run(ctx, rest, RunBlock(ctx, Op(OP_IF), segs, Op(OP_ENDIF), s, true).value, true).Ok?;
    }
  }

  lemma {:induction false} NetLevels(ctx: Context, n: nat, rest: Prog, d: int)
    requires Net(ctx, rest, d)
    ensures Net(ctx, Levels(n, rest), d - n)
  {
    hide Net, Level;
    if n > 0 {
      NetLevels(ctx, n - 1, rest, d);
      NetLevel(ctx, Levels(n - 1, rest), d - (n - 1));
    }
  }

  lemma {:induction false} ToAltKnown(n: nat)
    ensures AllKnown(Repeat([Op(OP_TOALTSTACK)], n)) && Sum(Repeat([Op(OP_TOALTSTACK)], n)) == 0 - n
  {
    if n > 0 {
      ToAltKnown(n - 1);
      SumHead(Repeat([Op(OP_TOALTSTACK)], n), Repeat([Op(OP_TOALTSTACK)], n - 1));
    }
  }

  // ---------- the whole script ----------

  lemma SumHead(cs: seq<Chunk>, rest: seq<Chunk>)
    requires cs != [] && IsKnown(cs[0]) && AllKnown(rest) && cs[1..] == rest
    ensures AllKnown(cs) && cs[0].Chunk? && Sum(cs) == Effect(cs[0]) + Sum(rest)
  {
    hide IsKnown, Effect;
    KnownKinds(cs[0]);
    forall i | 0 <= i < |cs| ensures IsKnown(cs[i]) {
      if i > 0 { assert cs[i] == rest[i - 1]; }
    }
    assert cs[1..] == rest;
  }

  lemma SumNone()
    ensures AllKnown([]) && Sum([]) == 0
  {
  }

  lemma FixedSums(env: Env, key: Bytes, root: Bytes, n: nat)
    requires HashIs20(env) && |root| == 20 && 1 <= n <= 16
    ensures AllKnown(SingleKey(env, key)) && Sum(SingleKey(env, key)) == 0
    ensures AllKnown(HashKey(n)) && Sum(HashKey(n)) == 1
    ensures AllKnown(MatchRoot(root)) && Sum(MatchRoot(root)) == -1
  {
    hide Sum, AllKnown;
    SumNone();
    var equal, hash := Op(OP_EQUALVERIFY), Op(OP_HASH160);
    var data := Data(env.hash160(key));
    SumHead([equal], []);
    SumHead([data, equal], [equal]);
    SumHead([hash, data, equal], [data, equal]);
    SumHead(SingleKey(env, key), [hash, data, equal]);
    SumHead([hash], []);
    SumHead([Op(OP_PICK), hash], [hash]);
    SumHead(HashKey(n), [Op(OP_PICK), hash]);
    SumHead(MatchRoot(root), [equal]);
  }

  lemma UniqueSum()
    ensures AllKnown(ENSURE_UNIQUE) && Sum(ENSURE_UNIQUE) == 0
  {
    hide Sum, AllKnown;
    SumNone();
    var tail2, tail4 := [Op(OP_NOT), Op(OP_VERIFY)], [Op(OP_PICK), Op(OP_EQUAL), Op(OP_NOT), Op(OP_VERIFY)];
    SumHead([Op(OP_VERIFY)], []);
    SumHead(tail2, [Op(OP_VERIFY)]);
    SumHead([Op(OP_EQUAL)] + tail2, tail2);
    SumHead(tail4, [Op(OP_EQUAL)] + tail2);
    SumHead([Op(OP_4)] + tail4, tail4);
    SumHead(ENSURE_UNIQUE, [Op(OP_4)] + tail4);
  }

  lemma SignedSum()
    ensures AllKnown(SIGNED) && Sum(SIGNED) == -4
  {
    hide Sum, AllKnown;
    SumNone();
    var tail2 := [Op(OP_FROMALTSTACK), Op(OP_CHECKDATASIG)];
    var tail3 := [Op(OP_CHECKDATASIGVERIFY)] + tail2;
    SumHead([Op(OP_CHECKDATASIG)], []);
    SumHead(tail2, [Op(OP_CHECKDATASIG)]);
    SumHead(tail3, tail2);
    SumHead([Op(OP_TOALTSTACK)] + tail3, tail3);
    SumHead(SIGNED, [Op(OP_TOALTSTACK)] + tail3);
  }

  /** The program for input keys takes two items for each level of the tree, and leaves one of the other five. */
  lemma NetSpend(ctx: Context, keys: seq<Bytes>)
    requires 1 <= |keys| <= MAX_KEYS && HashIs20(ctx.env)
    ensures Net(ctx, SpendProg(ctx.env, keys), 0 - 4 - 2 * CeilLog2(|keys|))
  {
    hide Net, Straight, AllKnown, Sum, SingleKey, HashKey, MatchRoot, Levels, RootOfKeys;
    LevelsAtMost16(keys);
    var n: int := CeilLog2(|keys|);
    var signed := Straight(SIGNED, Nil);
    var unique := Straight(ENSURE_UNIQUE, signed);
    FixedSums(ctx.env, keys[0], ctx.env.hash160([]), 1);
    UniqueSum();
    SignedSum();
    NetNil(ctx);
    NetStraight(ctx, SIGNED, Nil, 0);
    NetStraight(ctx, ENSURE_UNIQUE, signed, -4);
    if |keys| == 1 {
      NetStraight(ctx, SingleKey(ctx.env, keys[0]), unique, -4);
    } else {
      var root := RootOfKeys(ctx.env, keys);
      RootIsHash(ctx.env, keys);
      FixedSums(ctx.env, keys[0], root, n);
      NetStraight(ctx, MatchRoot(root), unique, -4);
      var levels := Levels(n, Straight(MatchRoot(root), unique));
      NetLevels(ctx, n, Straight(MatchRoot(root), unique), -5);
      NetStraight(ctx, HashKey(n), levels, 0 - 5 - n);
      ToAltKnown(n);
      NetStraight(ctx, Repeat([Op(OP_TOALTSTACK)], n), Straight(HashKey(n), levels), 0 - 4 - n);
    }
  }

  /** The stack of a spend, read back. */
  function SpendOf(st: seq<Bytes>, n: nat): (w: Spend)
    requires |st| == 5 + 2 * n
    ensures w.Items() == st && |w.siblings| == |w.flags| == n
  {
    Spend(st[0], st[1], st[2], st[3], st[4], st[5..5 + n], st[5 + n..])
  }

  /** These are the items of a spend that is accepted. */
  ghost predicate IsSpend(ctx: Context, keys: seq<Bytes>, st: seq<Bytes>)
    requires keys != []
  {
    exists w: Spend :: w.Items() == st && w.Fits(keys) && Accepted(ctx, keys, w)
  }

  /** Only a stack of the right height can end as one item. */
  lemma HeightOfAccepted(env: Env, flags: Flags, keys: seq<Bytes>, reclaimKey: Bytes, st: seq<Bytes>, size: nat)
    requires 1 <= |keys| <= MAX_KEYS && HashIs20(env) && size <= 10000 && st != []
    requires env.hash160(Top(st, 1)) != env.hash160(reclaimKey)
    requires Evaluate(Context(RedeemScript(env, keys, reclaimKey), flags, env), st, size) == Some([TRUE])
    ensures |st| == 5 + 2 * CeilLog2(|keys|)
  {
    hide Run, SpendProg, RedeemScript, Net, CeilLog2, Evaluate;
    var ctx := Context(RedeemScript(env, keys, reclaimKey), flags, env);
    EvaluatesSpend(env, flags, keys, reclaimKey, st, size);
    NetSpend(ctx, keys);
    NetOf(ctx, SpendProg(env, keys), 0 - 4 - 2 * CeilLog2(|keys|), Core(st, [], 7, 0, 6));
  }

  lemma NetOf(ctx: Context, p: Prog, d: int, s: Core)
    requires Net(ctx, p, d)
    ensures Run(ctx, p, s, true).Ok? ==> |Run(ctx, p, s, true).value.stack| == |s.stack| + d
  {
  }

  /**
   * Escrow compiler correctness on every stack whose top item is not the reclaim key: evaluation leaves
   * exactly TRUE iff the stack holds the items of a spend that is accepted.
   */
  lemma EscrowScriptOnAnyStack(env: Env, flags: Flags, keys: seq<Bytes>, reclaimKey: Bytes, st: seq<Bytes>, size: nat)
    requires 1 <= |keys| <= MAX_KEYS && HashIs20(env) && size <= 10000 && st != []
    requires env.hash160(Top(st, 1)) != env.hash160(reclaimKey)
    ensures var ctx := Context(RedeemScript(env, keys, reclaimKey), flags, env);
            Evaluate(ctx, st, size) == Some([TRUE]) <==> IsSpend(ctx, keys, st)
  {
    hide RedeemScript, Accepted, Evaluate, CeilLog2;
    var ctx := Context(RedeemScript(env, keys, reclaimKey), flags, env);
    if Evaluate(ctx, st, size) == Some([TRUE]) {
      HeightOfAccepted(env, flags, keys, reclaimKey, st, size);
      var w := SpendOf(st, CeilLog2(|keys|));
      EscrowScriptCorrect(env, flags, keys, reclaimKey, w, size);
    }
    if w: Spend :| w.Items() == st && w.Fits(keys) && Accepted(ctx, keys, w) {
      EscrowScriptCorrect(env, flags, keys, reclaimKey, w, size);
    }
  }
}
