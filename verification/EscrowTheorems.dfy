/** What the generated escrow script accepts, and who can satisfy it. */
module EscrowTheorems {
  import opened Bytes
  import opened ScriptNum
  import opened Opcode
  import opened Script
  import opened Machine
  import opened Conditionals
  import opened Escrow
  import opened EscrowRun

  /** The items an input key's owner leaves on the stack, deepest first. */
  datatype Spend = Spend(sig2: Bytes, msg2: Bytes, sig1: Bytes, msg1: Bytes, key: Bytes,
                         siblings: seq<Bytes>, flags: seq<Bytes>)
  {
    function Items(): seq<Bytes> { [sig2, msg2, sig1, msg1, key] + siblings + flags }

    predicate Fits(keys: seq<Bytes>)
      requires keys != []
    {
      |siblings| == |flags| == CeilLog2(|keys|)
    }
  }

  /** The path leads from the key to the root, the messages differ, both signatures are the key's. */
  predicate Accepted(ctx: Context, keys: seq<Bytes>, w: Spend)
    requires keys != [] && w.Fits(keys)
  {
    && Fold(ctx, ctx.env.hash160(w.key), w.flags, w.siblings) == Some(RootOfKeys(ctx.env, keys))
    && w.msg1 != w.msg2
    && Signed(ctx, w.sig1, w.msg1, w.key) && Signed(ctx, w.sig2, w.msg2, w.key)
  }

  /** Opcodes counted while the key is validated. */
  function KeyOps(n: nat): nat
    requires n >= 1
  {
    if n == 1 then 3 else 7 * CeilLog2(n) + 3
  }

  lemma {:induction false} CeilLog2Bound(n: nat, k: nat)
    requires 1 <= n <= Pow2(k)
    ensures CeilLog2(n) <= k
    ensures n >= 2 ==> CeilLog2(n) >= 1
    decreases k
  {
    if n > 1 {
      assert k > 0 && (n + 1) / 2 <= Pow2(k - 1);
      CeilLog2Bound((n + 1) / 2, k - 1);
    }
  }

  const MAX_KEYS := 65536

  lemma LevelsAtMost16(keys: seq<Bytes>)
    requires 1 <= |keys| <= MAX_KEYS
    ensures CeilLog2(|keys|) <= 16 && (|keys| >= 2 ==> CeilLog2(|keys|) >= 1)
  {
    assert Pow2(8) == 256;
    assert Pow2(16) == 65536;
    CeilLog2Bound(|keys|, 16);
  }

  lemma SingleRoot(env: Env, keys: seq<Bytes>)
    requires |keys| == 1
    ensures RootOfKeys(env, keys) == env.hash160(keys[0])
  {
    assert CeilLog2(1) == 0 && Pow2(0) == 1;
    assert keys[1..] == [] && SortKeys([]) == [];
    assert SortKeys(keys) == Insert(keys[0], []) == [keys[0]];
    assert LeafValues(keys) == [keys[0]];
  }

  /** DUP HASH160 <hash> EQUALVERIFY */
  lemma SingleKeyRuns(ctx: Context, key0: Bytes, rest: Prog, s: Core, st: seq<Bytes>, key: Bytes)
    requires HashIs20(ctx.env) && s.stack == st + [key] && Room(s, 3)
    ensures if ctx.env.hash160(key) == ctx.env.hash160(key0)
            then Run(ctx, Straight(SingleKey(ctx.env, key0), rest), s, true) ==
                 Run(ctx, rest, s.(pc := s.pc + 4, ops := s.ops + 3), true)
            else Run(ctx, Straight(SingleKey(ctx.env, key0), rest), s, true).Fail?
  {
    hide Run, Straight, OnOne, OnTwo, Picture, IsShuffle, Arity;
    var h, h0 := ctx.env.hash160(key), ctx.env.hash160(key0);
    var p3 := Single(Op(OP_EQUALVERIFY), rest);
    var p2 := Single(Data(h0), p3);
    var p1 := Single(Op(OP_HASH160), p2);
    Straight4(Op(OP_DUP), Op(OP_HASH160), Data(h0), Op(OP_EQUALVERIFY), rest);
    OverPicture(key, key);
    HashResult(ctx, s.stack, key);
    EqualVerifyResult(ctx, s.stack, h, h0);
    var s1 := Shuffling(ctx, OP_DUP, p1, s, st, [key]);
    assert s1.stack == s.stack + [key];
    var s2 := One(ctx, OP_HASH160, p2, s1, s.stack, key, s.stack + [h]);
    var s3 := PushData(ctx, h0, p3, s2);
    assert s3.stack == s.stack + [h, h0];
    var s4 := Two(ctx, OP_EQUALVERIFY, rest, s3, s.stack, h, h0);
  }

  /** The key check: it passes exactly on a path to the root, and leaves the key on top. */
  lemma ValidateKeyRuns(ctx: Context, keys: seq<Bytes>, rest: Prog, s: Core, st: seq<Bytes>, w: Spend) returns (t: Core)
    requires 1 <= |keys| <= MAX_KEYS && HashIs20(ctx.env) && w.Fits(keys)
    requires s.stack == st + [w.key] + w.siblings + w.flags && Room(s, KeyOps(|keys|))
    ensures var r := Run(ctx, ValidateKeyProg(ctx.env, keys, rest), s, true);
            if Fold(ctx, ctx.env.hash160(w.key), w.flags, w.siblings) == Some(RootOfKeys(ctx.env, keys))
            then r == Run(ctx, rest, t, true) &&
                 t == s.(pc := t.pc, ops := s.ops + KeyOps(|keys|), stack := st + [w.key])
            else r.Fail?
  {
    hide Run, Straight, Levels, Fold, RootOfKeys, SingleKey, MatchRoot, HashKey;
    LevelsAtMost16(keys);
    var n, h, root := CeilLog2(|keys|), ctx.env.hash160(w.key), RootOfKeys(ctx.env, keys);
    if |keys| == 1 {
      SingleRoot(ctx.env, keys);
      EmptyFold(ctx, h, w);
      assert s.stack == st + [w.key];
      t := s.(pc := s.pc + 4, ops := s.ops + 3);
      SingleKeyRuns(ctx, keys[0], rest, s, st, w.key);
    } else {
      RootIsHash(ctx.env, keys);
      t := s.(pc := s.pc + 7 * n + 5, ops := s.ops + 7 * n + 3, stack := st + [w.key]);
      var p3 := Straight(MatchRoot(root), rest);
      var p2 := Levels(n, p3);
      var p1 := Straight(HashKey(n), p2);
      FlagsToAlt(ctx, n, p1, s, st + [w.key] + w.siblings, w.flags);
      var s1 := s.(pc := s.pc + n, ops := s.ops + n, stack := st + [w.key] + w.siblings,
                   alt := s.alt + Reversed(w.flags));
      HashKeyRuns(ctx, n, p2, s1, st, w.key, w.siblings);
      var s2 := s1.(pc := s1.pc + 3, ops := s1.ops + 2, stack := s1.stack + [h]);
      LevelsRun(ctx, n, p3, s2, st + [w.key], h, s.alt, w.flags, w.siblings);
      match Fold(ctx, h, w.flags, w.siblings)
      case None =>
      case Some(top) =>
        var s3 := s2.(pc := s2.pc + 6 * n, ops := s2.ops + 6 * n, stack := st + [w.key] + [top], alt := s.alt);
        MatchRootRuns(ctx, root, rest, s3, st + [w.key], top);
    }
  }

  lemma EmptyFold(ctx: Context, h: Bytes, w: Spend)
    requires w.flags == [] && w.siblings == []
    ensures Fold(ctx, h, w.flags, w.siblings) == Some(h)
  {
  }

  /** The branch for input keys: TRUE on the stack exactly when everything checks. */
  lemma SpendRuns(ctx: Context, keys: seq<Bytes>, s: Core, w: Spend)
    requires 1 <= |keys| <= MAX_KEYS && HashIs20(ctx.env) && w.Fits(keys)
    requires s.stack == w.Items() && Room(s, KeyOps(|keys|) + 10)
    ensures var r := Run(ctx, SpendProg(ctx.env, keys), s, true);
            if Accepted(ctx, keys, w)
            then r.Ok? && r.value.stack == [TRUE] && r.value.alt == s.alt && r.value.ops == s.ops + KeyOps(|keys|) + 10
            else r.Fail? || (r.value.stack == [FALSE] && r.value.alt == s.alt &&
                             r.value.ops == s.ops + KeyOps(|keys|) + 10)
  {
    hide Run, Straight, ValidateKeyProg, Fold, RootOfKeys, Signed, KeyOps;
    var st := [w.sig2, w.msg2, w.sig1, w.msg1];
    assert s.stack == st + [w.key] + w.siblings + w.flags;
    var p2 := Straight(SIGNED, Nil);
    var p1 := Straight(ENSURE_UNIQUE, p2);
    var s1 := ValidateKeyRuns(ctx, keys, p1, s, st, w);
    if Fold(ctx, ctx.env.hash160(w.key), w.flags, w.siblings) == Some(RootOfKeys(ctx.env, keys)) {
      assert s1.stack == [] + [w.sig2, w.msg2, w.sig1, w.msg1, w.key];
      UniqueRuns(ctx, p2, s1, [], w.sig2, w.msg2, w.sig1, w.msg1, w.key);
      if w.msg1 != w.msg2 {
        var s2 := s1.(pc := s1.pc + 6, ops := s1.ops + 5);
        SignedRuns(ctx, s2, [], w.sig2, w.msg2, w.sig1, w.msg1, w.key);
        assert [] + [TRUE] == [TRUE] && [] + [FALSE] == [FALSE];
      }
    }
  }

  // ---------- the whole script ----------

  /** DUP HASH160 <reclaim hash> EQUAL: whether the top item is the reclaim key. */
  lemma CompareRuns(ctx: Context, reclaimKey: Bytes, rest: Prog, s: Core, st: seq<Bytes>, x: Bytes) returns (t: Core)
    requires HashIs20(ctx.env) && s.stack == st + [x] && Room(s, 3)
    ensures t == s.(pc := s.pc + 4, ops := s.ops + 3,
                    stack := s.stack + [Bool(ctx.env.hash160(x) == ctx.env.hash160(reclaimKey))])
    ensures Run(ctx, Straight(CompareReclaim(ctx.env, reclaimKey), rest), s, true) == Run(ctx, rest, t, true)
  {
    hide Run, Straight, OnOne, OnTwo, Picture, IsShuffle, Arity, Bool;
    var h, h0 := ctx.env.hash160(x), ctx.env.hash160(reclaimKey);
    var p3 := Single(Op(OP_EQUAL), rest);
    var p2 := Single(Data(h0), p3);
    var p1 := Single(Op(OP_HASH160), p2);
    Straight4(Op(OP_DUP), Op(OP_HASH160), Data(h0), Op(OP_EQUAL), rest);
    OverPicture(x, x);
    HashResult(ctx, s.stack, x);
    EqualVerifyResult(ctx, s.stack, h, h0);
    var s1 := Shuffling(ctx, OP_DUP, p1, s, st, [x]);
    assert s1.stack == s.stack + [x];
    var s2 := One(ctx, OP_HASH160, p2, s1, s.stack, x, s.stack + [h]);
    var s3 := PushData(ctx, h0, p3, s2);
    assert s3.stack == s.stack + [h, h0];
    t := Two(ctx, OP_EQUAL, rest, s3, s.stack, h, h0);
  }

  lemma EnterBool(ctx: Context, s: Core, st: seq<Bytes>, b: bool)
    requires s.stack == st + [Bool(b)] && Room(s, 1)
    ensures Enter(ctx, Op(OP_IF), s, true) == Ok((s.(pc := s.pc + 1, ops := s.ops + 1, stack := st), b))
  {
    hide Execute;
    FetchCounted(ctx, OP_IF, s);
    assert Drop(s.stack, 1) == st;
    assert Encode(1) == [1];
    DecodeEncode(1);
  }

  /** The ELSE branch: CHECKSIG is skipped, the input-key program runs. */
  lemma ElseBranchRuns(ctx: Context, spend: Prog, s: Core, st: seq<Bytes>)
    requires s.stack == st + [Bool(false)] && Room(s, 3)
    ensures var t := s.(pc := s.pc + 3, ops := s.ops + 3, stack := st);
            var r := Run(ctx, spend, t, true);
            Run(ctx, Branches(spend), s, true) == if r.Fail? then r else Fetch(ctx, Op(OP_ENDIF), r.value)
  {
    hide Execute, Fetch;
    EnterBool(ctx, s, st, false);
    var s1 := s.(pc := s.pc + 1, ops := s.ops + 1, stack := st);
    FetchCounted(ctx, OP_CHECKSIG, s1);
    var s2 := s1.(pc := s1.pc + 1, ops := s1.ops + 1);
    var check := Single(Op(OP_CHECKSIG), Nil);
    assert Run(ctx, check, s1, false) == Ok(s2) by {
      assert RunSingle(ctx, Op(OP_CHECKSIG), s1, false) == Ok(s2);
      assert Run(ctx, Nil, s2, false) == Ok(s2);
    }
    FetchCounted(ctx, OP_ELSE, s2);
    var t := s2.(pc := s2.pc + 1, ops := s2.ops + 1);
    var segs := Alternate(check, Op(OP_ELSE), Last(spend));
    assert RunSegments(ctx, Last(spend), t, true, true) == Run(ctx, spend, t, true);
    assert RunSegments(ctx, segs, s1, true, false) == Run(ctx, spend, t, true);
    RunBlockThenNil(ctx, segs, s, s1, false);
  }

  lemma RunBlockThenNil(ctx: Context, segs: Segments, s: Core, s1: Core, cond: bool)
    requires Enter(ctx, Op(OP_IF), s, true) == Ok((s1, cond))
    ensures var r := RunSegments(ctx, segs, s1, true, cond);
            Run(ctx, Block(Op(OP_IF), segs, Op(OP_ENDIF), Nil), s, true) ==
            if r.Fail? then r else Fetch(ctx, Op(OP_ENDIF), r.value)
  {
    hide Enter, Fetch, RunSegments;
    var b := RunBlock(ctx, Op(OP_IF), segs, Op(OP_ENDIF), s, true);
    if b.Ok? { RunNil(ctx, b.value); }
  }

  lemma KeyOpsBound(keys: seq<Bytes>)
    requires 1 <= |keys| <= MAX_KEYS
    ensures KeyOps(|keys|) <= 115
  {
    LevelsAtMost16(keys);
  }

  /** The bytes a script of direct pushes and plain opcodes serializes to. */
  function SerializedLength(cs: seq<Chunk>): nat {
    if cs == [] then 0
    else 1 + (if cs[0].data.Some? then |cs[0].data.value| else 0) + SerializedLength(cs[1..])
  }

  /** The bytes of such a script: each opcode, and after it the data that it pushes. */
  function Serialized(cs: seq<Chunk>): Bytes
    requires forall i :: 0 <= i < |cs| ==> cs[i].Chunk? && 0 <= cs[i].op < 256
  {
    if cs == [] then []
    else [cs[0].op] + (if cs[0].data.Some? then cs[0].data.value else []) + Serialized(cs[1..])
  }

  lemma {:induction false} SerializedLengthIs(cs: seq<Chunk>)
    requires forall i :: 0 <= i < |cs| ==> cs[i].Chunk? && 0 <= cs[i].op < 256
    ensures SerializedLength(cs) == |Serialized(cs)|
  {
    if cs != [] { SerializedLengthIs(cs[1..]); }
  }

  /** What evaluation makes of the run of a branch that ENDIF closes. */
  function Closed(ctx: Context, r: Result<Core>): Option<seq<Bytes>> {
    if r.Fail? || Fetch(ctx, Op(OP_ENDIF), r.value).Fail? || |r.value.stack| + |r.value.alt| > MAX_STACK then None
    else Some(r.value.stack)
  }

  /** Unless the reclaim key is on top, evaluation runs the program for input keys on the stack it was given. */
  lemma EvaluatesSpend(env: Env, flags: Flags, keys: seq<Bytes>, reclaimKey: Bytes, st: seq<Bytes>, size: nat)
    requires 1 <= |keys| <= MAX_KEYS && HashIs20(env) && size <= 10000 && st != []
    requires env.hash160(Top(st, 1)) != env.hash160(reclaimKey)
    ensures var ctx := Context(RedeemScript(env, keys, reclaimKey), flags, env);
            Evaluate(ctx, st, size) == Closed(ctx, Run(ctx, SpendProg(env, keys), Core(st, [], 7, 0, 6), true))
  {
    hide Run, Straight, Branches, SpendProg, RedeemScript, Parse, Evaluate, RedeemProg;
    var ctx := Context(RedeemScript(env, keys, reclaimKey), flags, env);
    LevelsAtMost16(keys);
    RedeemScriptStructure(env, keys, reclaimKey);
    EvaluateIsStructured(ctx, st, size);
    RedeemProgIs(env, keys, reclaimKey);
    var s, spend, last := Start(st).core, SpendProg(env, keys), |st| - 1;
    assert st == st[..last] + [st[last]];
    var s1 := CompareRuns(ctx, reclaimKey, Branches(spend), s, st[..last], st[last]);
    ElseBranchRuns(ctx, spend, s1, st);
  }

  lemma RedeemProgIs(env: Env, keys: seq<Bytes>, reclaimKey: Bytes)
    requires keys != []
    ensures RedeemProg(env, keys, reclaimKey) ==
            Straight(CompareReclaim(env, reclaimKey), Branches(SpendProg(env, keys)))
  {
  }

  /**
   * Escrow compiler correctness. Give the generated script the items of a spend whose top item is
   * not the reclaim key: evaluation leaves exactly TRUE iff the path leads from the key to the
   * generated root, the two messages differ and both data signatures are valid.
   */
  lemma EscrowScriptCorrect(env: Env, flags: Flags, keys: seq<Bytes>, reclaimKey: Bytes, w: Spend, size: nat)
    requires 1 <= |keys| <= MAX_KEYS && HashIs20(env) && w.Fits(keys) && size <= 10000
    requires env.hash160(Top(w.Items(), 1)) != env.hash160(reclaimKey)
    ensures var ctx := Context(RedeemScript(env, keys, reclaimKey), flags, env);
            Evaluate(ctx, w.Items(), size) == Some([TRUE]) <==> Accepted(ctx, keys, w)
  {
    hide Run, SpendProg, RedeemScript, Accepted, KeyOps, MerkleRoot, Fold, Evaluate;
    var ctx := Context(RedeemScript(env, keys, reclaimKey), flags, env);
    KeyOpsBound(keys);
    EvaluatesSpend(env, flags, keys, reclaimKey, w.Items(), size);
    SpendRuns(ctx, keys, Core(w.Items(), [], 7, 0, 6), w);
  }

  // ---------- limits: the script is short enough, and its skipped half can be skipped ----------

  /** A chunk that is admissible anywhere, at most 21 bytes long, and writes nothing in place. */
  predicate Small(c: Chunk) {
    && c.Chunk? && 0 <= c.op < 256 && (c.data.Some? ==> |c.data.value| <= 20)
    && !(c.op == OP_INVERT || c.op == OP_2MUL || c.op == OP_2DIV || c.op == OP_LSHIFT || c.op == OP_RSHIFT ||
         c.op == OP_MUL || c.op == OP_VERIF || c.op == OP_VERNOTIF)
    && !IsInPlace(c.op)
  }

  predicate AllSmall(cs: seq<Chunk>) { forall i :: 0 <= i < |cs| ==> Small(cs[i]) }

  lemma {:induction false} SmallLength(cs: seq<Chunk>)
    requires AllSmall(cs)
    ensures SerializedLength(cs) <= 21 * |cs| && CountedIn(cs) <= |cs|
  {
    if cs != [] { SmallLength(cs[1..]); }
  }

  lemma {:induction false} RepeatSmall(cs: seq<Chunk>, n: nat)
    requires AllSmall(cs)
    ensures AllSmall(Repeat(cs, n)) && |Repeat(cs, n)| == n * |cs|
  {
    if n > 0 {
      RepeatSmall(cs, n - 1);
      assert n * |cs| == |cs| + (n - 1) * |cs|;
    }
  }

  lemma PartsSmall(env: Env, keys: seq<Bytes>, reclaimKey: Bytes)
    requires 1 <= |keys| <= MAX_KEYS && HashIs20(env)
    ensures AllSmall(ValidateKey(env, keys)) && |ValidateKey(env, keys)| <= 117
    ensures AllSmall(CheckReclaimKey(env, reclaimKey)) && AllSmall(ENSURE_UNIQUE) && AllSmall(ENSURE_SIGNED) &&
            AllSmall(SIGNED)
  {
    hide AllSmall, ValidateKey, CheckReclaimKey, SingleKey;
    FixedPartsSmall(env, reclaimKey);
    FixedPartsSmall(env, keys[0]);
    if |keys| > 1 { ManyKeysSmall(env, keys); } else { OneKey(env, keys); }
  }

  lemma OneKey(env: Env, keys: seq<Bytes>)
    requires |keys| == 1
    ensures ValidateKey(env, keys) == SingleKey(env, keys[0])
  {
    hide SingleKey;
  }

  lemma ManyKeysSmall(env: Env, keys: seq<Bytes>)
    requires 1 < |keys| <= MAX_KEYS && HashIs20(env)
    ensures AllSmall(ValidateKey(env, keys)) && |ValidateKey(env, keys)| <= 117
  {
    hide RootOfKeys, CeilLog2, Repeat, HashKey, MatchRoot, Small, HashIs20;
    LevelsAtMost16(keys);
    var n := CeilLog2(|keys|);
    RootIsHash(env, keys);
    LevelPartsSmall(n, RootOfKeys(env, keys));
    RepeatSmall([Op(OP_TOALTSTACK)], n);
    RepeatSmall(LEVEL, n);
  }

  lemma FixedPartsSmall(env: Env, key: Bytes)
    requires HashIs20(env)
    ensures AllSmall(CheckReclaimKey(env, key)) && AllSmall(ENSURE_UNIQUE) && AllSmall(ENSURE_SIGNED) &&
            AllSmall(SIGNED)
    ensures AllSmall(SingleKey(env, key)) && |SingleKey(env, key)| == 4
  {
  }

  lemma LevelPartsSmall(n: nat, root: Bytes)
    requires n <= 16 && |root| == 20
    ensures AllSmall(HashKey(n)) && |HashKey(n)| == 3 && AllSmall(MatchRoot(root)) && |MatchRoot(root)| == 2
    ensures AllSmall(LEVEL) && |LEVEL| == 6 && AllSmall([Op(OP_TOALTSTACK)])
  {
  }

  lemma RedeemScriptSmall(env: Env, keys: seq<Bytes>, reclaimKey: Bytes)
    requires 1 <= |keys| <= MAX_KEYS && HashIs20(env)
    ensures var script := RedeemScript(env, keys, reclaimKey);
            forall i :: 0 <= i < |script| ==> script[i].Chunk? && 0 <= script[i].op < 256
  {
    hide ValidateKey, CheckReclaimKey;
    PartsSmall(env, keys, reclaimKey);
    var a := CheckReclaimKey(env, reclaimKey) + ValidateKey(env, keys);
    assert AllSmall(a);
    assert AllSmall(a + ENSURE_UNIQUE);
    assert AllSmall(RedeemScript(env, keys, reclaimKey));
  }

  /** The script is far below the 10000-byte limit. */
  lemma RedeemScriptLength(env: Env, keys: seq<Bytes>, reclaimKey: Bytes)
    requires 1 <= |keys| <= MAX_KEYS && HashIs20(env)
    ensures var script := RedeemScript(env, keys, reclaimKey);
            && (forall i :: 0 <= i < |script| ==> script[i].Chunk? && 0 <= script[i].op < 256)
            && |Serialized(script)| == SerializedLength(script) <= 2856
  {
    PartsSmall(env, keys, reclaimKey);
    RedeemScriptSmall(env, keys, reclaimKey);
    SerializedLengthIs(RedeemScript(env, keys, reclaimKey));
    hide ValidateKey, CheckReclaimKey, Small;
    var a := CheckReclaimKey(env, reclaimKey) + ValidateKey(env, keys);
    assert AllSmall(a);
    assert AllSmall(a + ENSURE_UNIQUE);
    assert |CheckReclaimKey(env, reclaimKey)| == 7 by { SourceLists(env, reclaimKey); CompareLength(env, reclaimKey); }
    SmallLength(RedeemScript(env, keys, reclaimKey));
  }

  /** No opcode of the script writes into an operand, so its runs do not depend on which buffers are shared. */
  lemma RedeemScriptNeverWrites(env: Env, keys: seq<Bytes>, reclaimKey: Bytes)
    requires 1 <= |keys| <= MAX_KEYS && HashIs20(env)
    ensures forall c :: c in RedeemScript(env, keys, reclaimKey) ==> c.Chunk? && !IsInPlace(c.op)
  {
    PartsSmall(env, keys, reclaimKey);
    hide ValidateKey, CheckReclaimKey, Small;
    var a := CheckReclaimKey(env, reclaimKey) + ValidateKey(env, keys);
    assert AllSmall(a);
    assert AllSmall(a + ENSURE_UNIQUE);
    SmallWritesNothing(RedeemScript(env, keys, reclaimKey));
  }

  lemma SmallWritesNothing(cs: seq<Chunk>)
    requires AllSmall(cs)
    ensures forall c :: c in cs ==> c.Chunk? && !IsInPlace(c.op)
  {
  }

  lemma CompareLength(env: Env, reclaimKey: Bytes)
    ensures |CompareReclaim(env, reclaimKey)| == 4
  {
  }

  lemma SpendCanBeSkipped(ctx: Context, keys: seq<Bytes>, s: Core)
    requires 1 <= |keys| <= MAX_KEYS && HashIs20(ctx.env) && s.ops <= 60
    ensures var spend := SpendProg(ctx.env, keys);
            var r := Run(ctx, spend, s, false);
            r.Ok? && r.value.stack == s.stack && r.value.alt == s.alt && r.value.ops <= s.ops + 128
  {
    var env, spend := ctx.env, SpendProg(ctx.env, keys);
    LevelsAtMost16(keys);
    PartsSmall(env, keys, []);
    SpendStructure(env, keys);
    var cs := ValidateKey(env, keys) + (ENSURE_UNIQUE + SIGNED);
    hide ValidateKey, Run, SpendProg;
    assert AllSmall(cs);
    SmallLength(cs);
    forall i | 0 <= i < |cs| ensures Admissible(ctx, cs[i]) { assert Small(cs[i]); }
    assert CanSkip(ctx, s, cs);
    SkippedIsInert(ctx, spend, s);
  }

  /** The IF branch: one CHECKSIG, the input-key program skipped. */
  lemma IfBranchRuns(ctx: Context, keys: seq<Bytes>, s: Core, st: seq<Bytes>)
    requires 1 <= |keys| <= MAX_KEYS && HashIs20(ctx.env)
    requires s.stack == st + [Bool(true)] && s.ops <= 10 && s.codeSep == 0
    ensures var r, c := Run(ctx, Branches(SpendProg(ctx.env, keys)), s, true), CheckSig(ctx, s.(stack := st), false);
            if c.Fail? then r.Fail? else r.Ok? && r.value.stack == c.value && r.value.alt == s.alt
  {
    var spend := SpendProg(ctx.env, keys);
    var c := CheckSig(ctx, s.(stack := st), false);
    EnterBool(ctx, s, st, true);
    var s1 := s.(pc := s.pc + 1, ops := s.ops + 1, stack := st);
    CheckSigRuns(ctx, s1, c);
    hide Fetch, CheckSig, SpendProg, Enter, Execute;
    var segs := Alternate(Single(Op(OP_CHECKSIG), Nil), Op(OP_ELSE), Last(spend));
    RunBlockThenNil(ctx, segs, s, s1, true);
    if c.Ok? {
      var s2 := After(s1, c.value, s1.alt);
      FetchCounted(ctx, OP_ELSE, s2);
      var s3 := s2.(pc := s2.pc + 1, ops := s2.ops + 1);
      SpendCanBeSkipped(ctx, keys, s3);
      var r := Run(ctx, spend, s3, false);
      assert RunSegments(ctx, Last(spend), s3, true, false) == r;
      assert RunSegments(ctx, segs, s1, true, true) == r;
      FetchCounted(ctx, OP_ENDIF, r.value);
    }
  }

  lemma CheckSigRuns(ctx: Context, s: Core, c: Result<seq<Bytes>>)
    requires Room(s, 1) && c == CheckSig(ctx, s, false)
    ensures var r := Run(ctx, Single(Op(OP_CHECKSIG), Nil), s, true);
            if c.Fail? then r.Fail? else r == Ok(After(s, c.value, s.alt))
  {
    hide CheckSig;
    assert CheckSig(ctx, s.(pc := s.pc + 1, ops := s.ops + 1), false) == c by { SameCheckSig(ctx, s); }
    if c.Fail? {
      Failing(ctx, OP_CHECKSIG, Nil, s);
    } else {
      Counting(ctx, OP_CHECKSIG, Nil, s, After(s, c.value, s.alt));
      RunNil(ctx, After(s, c.value, s.alt));
    }
  }

  lemma SameCheckSig(ctx: Context, s: Core)
    ensures CheckSig(ctx, s.(pc := s.pc + 1, ops := s.ops + 1), false) == CheckSig(ctx, s, false)
  {
  }

  /** The reclaim branch: a key with the reclaim hash needs one valid transaction signature, no more. */
  lemma ReclaimCorrect(env: Env, flags: Flags, keys: seq<Bytes>, reclaimKey: Bytes, sig: Bytes, key: Bytes, size: nat)
    requires 1 <= |keys| <= MAX_KEYS && HashIs20(env) && size <= 10000
    requires env.hash160(key) == env.hash160(reclaimKey)
    ensures var ctx := Context(RedeemScript(env, keys, reclaimKey), flags, env);
            Evaluate(ctx, [sig, key], size) == Some([TRUE]) <==>
            env.txSigEncoded(sig) && env.pubkeyEncoded(key) && env.txSigValid(sig, key, ctx.script, [sig])
  {
    var ctx := Context(RedeemScript(env, keys, reclaimKey), flags, env);
    LevelsAtMost16(keys);
    RedeemScriptStructure(env, keys, reclaimKey);
    EvaluateIsStructured(ctx, [sig, key], size);
    hide Run, Straight, Branches, SpendProg, RedeemScript, MerkleRoot;
    var st := [sig, key];
    var s := Start(st).core;
    var s1 := CompareRuns(ctx, reclaimKey, Branches(SpendProg(env, keys)), s, [sig], key);
    IfBranchRuns(ctx, keys, s1, st);
    assert ctx.script[0..] == ctx.script;
    assert Drop(st, 2) == [] && [] + [TRUE] == [TRUE] && [] + [FALSE] == [FALSE];
  }
}
