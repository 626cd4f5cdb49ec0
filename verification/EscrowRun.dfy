/** Running the escrow script: what the machine accepts, and which keys have a way to spend. */
module EscrowRun {
  import opened Bytes
  import opened ScriptNum
  import opened Opcode
  import opened Script
  import opened Machine
  import opened Conditionals
  import opened Escrow

  // ---------- one operation at a time ----------

  /** An opcode that counts, in a live branch with room for it. */
  lemma Counting(ctx: Context, op: int, rest: Prog, s: Core, t: Core)
    requires OP_16 < op && !IsConditional(op) && !IsDisabled(op, ctx.flags) && s.ops < MAX_OPS
    requires Execute(ctx, op, s.(pc := s.pc + 1, ops := s.ops + 1)) == Ok(t)
    ensures Run(ctx, Single(Op(op), rest), s, true) == Run(ctx, rest, t, true)
  {
    hide Execute, IsDisabled;
    assert Fetch(ctx, Op(op), s) == Ok(s.(pc := s.pc + 1, ops := s.ops + 1));
  }

  lemma Failing(ctx: Context, op: int, rest: Prog, s: Core)
    requires OP_16 < op && !IsConditional(op) && !IsDisabled(op, ctx.flags) && s.ops < MAX_OPS
    requires Execute(ctx, op, s.(pc := s.pc + 1, ops := s.ops + 1)).Fail?
    ensures Run(ctx, Single(Op(op), rest), s, true).Fail?
  {
    hide Execute, IsDisabled;
    assert Fetch(ctx, Op(op), s) == Ok(s.(pc := s.pc + 1, ops := s.ops + 1));
  }

  /** The state after a counted opcode that leaves these stacks. */
  function After(s: Core, stack: seq<Bytes>, alt: seq<Bytes>): Core {
    s.(pc := s.pc + 1, ops := s.ops + 1, stack := stack, alt := alt)
  }

  predicate Room(s: Core, n: nat) { s.ops + n <= MAX_OPS }

  lemma Shuffling(ctx: Context, op: int, rest: Prog, s: Core, st: seq<Bytes>, x: seq<Bytes>) returns (t: Core)
    requires IsShuffle(op) && s.stack == st + x && |x| == Arity(op) && Room(s, 1)
    ensures t == After(s, st + Picture(op, x), s.alt)
    ensures Run(ctx, Single(Op(op), rest), s, true) == Run(ctx, rest, t, true)
  {
    hide Execute, Picture, IsShuffle, Arity, Shuffle, Run;
    t := After(s, st + Picture(op, x), s.alt);
    ShuffleOver(op, st, x);
    ShuffleOnStack(ctx, op, s.(pc := s.pc + 1, ops := s.ops + 1));
    Counting(ctx, op, rest, s, t);
  }

  lemma ShuffleOver(op: int, st: seq<Bytes>, x: seq<Bytes>)
    requires IsShuffle(op) && |x| == Arity(op)
    ensures Shuffle(op, st + x) == Ok(st + Picture(op, x))
  {
    hide IsShuffle, Picture, Arity;
    assert (st + x)[|st|..] == x && (st + x)[..|st|] == st;
  }

  lemma ShuffleOnStack(ctx: Context, op: int, s: Core)
    requires IsShuffle(op) && Shuffle(op, s.stack).Ok?
    ensures Execute(ctx, op, s) == Ok(s.(stack := Shuffle(op, s.stack).value))
    ensures OP_16 < op && !IsConditional(op) && !IsDisabled(op, ctx.flags)
  {
    hide Shuffle;
  }

  /** Opcodes on one item. */
  lemma One(ctx: Context, op: int, rest: Prog, s: Core, st: seq<Bytes>, x: Bytes, r: seq<Bytes>) returns (t: Core)
    requires op == OP_HASH160 || op == OP_NOT || op == OP_VERIFY
    requires s.stack == st + [x] && Room(s, 1) && OnOne(ctx, op, st, x) == Ok(r)
    ensures t == After(s, r, s.alt)
    ensures Run(ctx, Single(Op(op), rest), s, true) == Run(ctx, rest, t, true)
  {
    hide OnOne, Execute, Run;
    t := After(s, r, s.alt);
    OneOnStack(ctx, op, s.(pc := s.pc + 1, ops := s.ops + 1), st, x);
    Counting(ctx, op, rest, s, t);
  }

  lemma OneOnStack(ctx: Context, op: int, s: Core, st: seq<Bytes>, x: Bytes)
    requires op == OP_HASH160 || op == OP_NOT || op == OP_VERIFY
    requires s.stack == st + [x] && OnOne(ctx, op, st, x).Ok?
    ensures Execute(ctx, op, s) == Ok(s.(stack := OnOne(ctx, op, st, x).value))
  {
    hide OnOne;
    assert Drop(s.stack, 1) == st && Top(s.stack, 1) == x;
    assert OnStack(ctx, op, s.stack) == OnOne(ctx, op, st, x);
  }

  /** Opcodes on two items, whatever comes of them. */
  lemma Two(ctx: Context, op: int, rest: Prog, s: Core, st: seq<Bytes>, x: Bytes, y: Bytes) returns (t: Core)
    requires op == OP_EQUAL || op == OP_EQUALVERIFY || op == OP_CAT || op == OP_PICK
    requires s.stack == st + [x, y] && Room(s, 1)
    ensures var r := OnTwo(ctx, op, st, x, y);
            if r.Fail? then Run(ctx, Single(Op(op), rest), s, true).Fail?
            else t == After(s, r.value, s.alt) && Run(ctx, Single(Op(op), rest), s, true) == Run(ctx, rest, t, true)
  {
    hide OnTwo, Execute, Run;
    var r := OnTwo(ctx, op, st, x, y);
    TwoOnStack(ctx, op, s.(pc := s.pc + 1, ops := s.ops + 1), st, x, y);
    if r.Fail? {
      t := s;
      Failing(ctx, op, rest, s);
    } else {
      t := After(s, r.value, s.alt);
      Counting(ctx, op, rest, s, t);
    }
  }

  lemma TwoOnStack(ctx: Context, op: int, s: Core, st: seq<Bytes>, x: Bytes, y: Bytes)
    requires op == OP_EQUAL || op == OP_EQUALVERIFY || op == OP_CAT || op == OP_PICK
    requires s.stack == st + [x, y]
    ensures var r := OnTwo(ctx, op, st, x, y);
            if r.Fail? then Execute(ctx, op, s).Fail? else Execute(ctx, op, s) == Ok(s.(stack := r.value))
  {
    hide OnTwo;
    assert Drop(s.stack, 2) == st && Top(s.stack, 2) == x && Top(s.stack, 1) == y;
    assert OnStack(ctx, op, s.stack) == OnTwo(ctx, op, st, x, y);
  }

  lemma ToAlt(ctx: Context, rest: Prog, s: Core, st: seq<Bytes>, x: Bytes) returns (t: Core)
    requires s.stack == st + [x] && Room(s, 1)
    ensures t == After(s, st, s.alt + [x])
    ensures Run(ctx, Single(Op(OP_TOALTSTACK), rest), s, true) == Run(ctx, rest, t, true)
  {
    t := After(s, st, s.alt + [x]);
    assert Drop(s.stack, 1) == st;
    Counting(ctx, OP_TOALTSTACK, rest, s, t);
  }

  lemma FromAlt(ctx: Context, rest: Prog, s: Core, alt: seq<Bytes>, x: Bytes) returns (t: Core)
    requires s.alt == alt + [x] && Room(s, 1)
    ensures t == After(s, s.stack + [x], alt)
    ensures Run(ctx, Single(Op(OP_FROMALTSTACK), rest), s, true) == Run(ctx, rest, t, true)
  {
    t := After(s, s.stack + [x], alt);
    assert Drop(s.alt, 1) == alt;
    Counting(ctx, OP_FROMALTSTACK, rest, s, t);
  }

  /** Pushes do not count. */
  lemma SmallInt(ctx: Context, n: nat, rest: Prog, s: Core) returns (t: Core)
    requires 1 <= n <= 16
    ensures t == s.(pc := s.pc + 1, stack := s.stack + [[n]])
    ensures Run(ctx, Single(Op(OP_1 - 1 + n), rest), s, true) == Run(ctx, rest, t, true)
  {
    hide Execute, IsDisabled;
    t := s.(pc := s.pc + 1, stack := s.stack + [[n]]);
    SmallIntExecutes(ctx, n, s.(pc := s.pc + 1));
  }

  lemma SmallIntExecutes(ctx: Context, n: nat, s: Core)
    requires 1 <= n <= 16
    ensures Execute(ctx, OP_1 - 1 + n, s) == Ok(s.(stack := s.stack + [[n]]))
    ensures !IsDisabled(OP_1 - 1 + n, ctx.flags)
  {
    assert Encode(n) == [n];
    assert OnStack(ctx, OP_1 - 1 + n, s.stack) == Ok(s.stack + [[n]]);
  }

  lemma PushData(ctx: Context, b: Bytes, rest: Prog, s: Core) returns (t: Core)
    requires |b| == 20
    ensures t == s.(pc := s.pc + 1, stack := s.stack + [b])
    ensures Run(ctx, Single(Data(b), rest), s, true) == Run(ctx, rest, t, true)
  {
    t := s.(pc := s.pc + 1, stack := s.stack + [b]);
    hide Execute, IsDisabled;
    assert Fetch(ctx, Data(b), s) == Ok(s.(pc := s.pc + 1));
  }

  lemma DataSig(ctx: Context, verify: bool, rest: Prog, s: Core, st: seq<Bytes>, sig: Bytes, msg: Bytes, key: Bytes)
    returns (t: Core)
    requires s.stack == st + [sig, msg, key] && Room(s, 1)
    ensures var op, r := if verify then OP_CHECKDATASIGVERIFY else OP_CHECKDATASIG, CheckDataSig(ctx, s.stack, verify);
            if r.Fail? then Run(ctx, Single(Op(op), rest), s, true).Fail?
            else t == After(s, r.value, s.alt) && Run(ctx, Single(Op(op), rest), s, true) == Run(ctx, rest, t, true)
  {
    hide CheckDataSig;
    var op, r := if verify then OP_CHECKDATASIGVERIFY else OP_CHECKDATASIG, CheckDataSig(ctx, s.stack, verify);
    if r.Fail? {
      t := s;
      Failing(ctx, op, rest, s);
    } else {
      t := After(s, r.value, s.alt);
      Counting(ctx, op, rest, s, t);
    }
  }

  /** A signature the script accepts: well encoded and valid. */
  predicate Signed(ctx: Context, sig: Bytes, msg: Bytes, key: Bytes) {
    ctx.env.dataSigEncoded(sig) && ctx.env.pubkeyEncoded(key) && ctx.env.dataSigValid(sig, msg, key)
  }

  lemma CheckDataSigResult(ctx: Context, st: seq<Bytes>, sig: Bytes, msg: Bytes, key: Bytes, verify: bool)
    ensures var r := CheckDataSig(ctx, st + [sig, msg, key], verify);
            if Signed(ctx, sig, msg, key) then r == Ok(if verify then st else st + [TRUE])
            else r.Fail? || (!verify && r == Ok(st + [FALSE]))
  {
    assert Drop(st + [sig, msg, key], 3) == st;
  }

  // ---------- climbing the Merkle path ----------

  /** One level: the flag says whether the hash so far is the left child. */
  function Climb(ctx: Context, h: Bytes, flag: Bytes, sibling: Bytes): Option<Bytes> {
    var pair := if Truthy(flag) then h + sibling else sibling + h;
    if ctx.flags.minimalIf && flag != [] && flag != [1] then None
    else if |pair| > MAX_SCRIPT_ELEMENT_SIZE then None
    else Some(ctx.env.hash160(pair))
  }

  /** The whole path: flags first to last, siblings last to first. */
  function Fold(ctx: Context, h: Bytes, flags: seq<Bytes>, siblings: seq<Bytes>): Option<Bytes>
    requires |flags| == |siblings|
    decreases |flags|
  {
    if flags == [] then Some(h)
    else
      var n := |flags|;
      match Climb(ctx, h, flags[0], siblings[n - 1])
      case None => None
      case Some(up) => Fold(ctx, up, flags[1..], siblings[..n - 1])
  }

  function SwapBlock(s: Core, ctx: Context): Result<Core> {
    RunBlock(ctx, Op(OP_IF), Last(Single(Op(OP_SWAP), Nil)), Op(OP_ENDIF), s, true)
  }

  lemma FetchCounted(ctx: Context, op: int, s: Core)
    requires OP_16 < op && !IsDisabled(op, ctx.flags) && Room(s, 1)
    ensures Fetch(ctx, Op(op), s) == Ok(s.(pc := s.pc + 1, ops := s.ops + 1))
  {
  }

  /** IF SWAP ENDIF: the two items below the flag change places when the flag is true. */
  lemma SwapBlockRuns(ctx: Context, s: Core, st: seq<Bytes>, x: Bytes, y: Bytes, flag: Bytes)
    requires s.stack == st + [x, y] + [flag] && Room(s, 3)
    ensures SwapBlock(s, ctx) ==
            if ctx.flags.minimalIf && flag != [] && flag != [1] then Fail(MinimalIf)
            else Ok(s.(pc := s.pc + 3, ops := s.ops + 3, stack := st + if Truthy(flag) then [y, x] else [x, y]))
  {
    hide Execute, Truthy;
    FetchCounted(ctx, OP_IF, s);
    var s1 := s.(pc := s.pc + 1, ops := s.ops + 1);
    assert Drop(s.stack, 1) == st + [x, y];
    var entered := Enter(ctx, Op(OP_IF), s, true);
    assert entered == if ctx.flags.minimalIf && flag != [] && flag != [1] then Fail(MinimalIf)
                      else Ok((s1.(stack := st + [x, y]), Truthy(flag)));
    if entered.Ok? {
      var s2 := entered.value.0;
      FetchCounted(ctx, OP_SWAP, s2);
      var s3 := s2.(pc := s.pc + 2, ops := s.ops + 2);
      if Truthy(flag) {
        var t := Shuffling(ctx, OP_SWAP, Nil, s2, st, [x, y]);
        FetchCounted(ctx, OP_ENDIF, t);
      } else {
        assert RunSingle(ctx, Op(OP_SWAP), s2, false) == Ok(s3);
        assert Run(ctx, Single(Op(OP_SWAP), Nil), s2, false) == Run(ctx, Nil, s3, false);
        FetchCounted(ctx, OP_ENDIF, s3);
      }
    }
  }

  lemma LevelRuns(ctx: Context, rest: Prog, s: Core, st: seq<Bytes>, sibling: Bytes, h: Bytes, alt: seq<Bytes>,
                  flag: Bytes)
    requires s.stack == st + [sibling, h] && s.alt == alt + [flag] && Room(s, 6)
    ensures match Climb(ctx, h, flag, sibling)
            case None => Run(ctx, Level(rest), s, true).Fail?
            case Some(up) => Run(ctx, Level(rest), s, true) ==
                             Run(ctx, rest, s.(pc := s.pc + 6, ops := s.ops + 6, stack := st + [up], alt := alt), true)
  {
    var p := Block(Op(OP_IF), Last(Single(Op(OP_SWAP), Nil)), Op(OP_ENDIF),
                   Single(Op(OP_CAT), Single(Op(OP_HASH160), rest)));
    var x, y := if Truthy(flag) then h else sibling, if Truthy(flag) then sibling else h;
    CatAndHash(ctx, st, x, y);
    hide Truthy, Execute, Enter, Fetch, RunSegments, RunSingle, RunBlock, OnOne, OnTwo;
    var s1 := FromAlt(ctx, p, s, alt, flag);
    SwapBlockRuns(ctx, s1, st, sibling, h, flag);
    if SwapBlock(s1, ctx).Ok? {
      var s2 := SwapBlock(s1, ctx).value;
      var s3 := Two(ctx, OP_CAT, Single(Op(OP_HASH160), rest), s2, st, x, y);
      if |x| + |y| <= MAX_SCRIPT_ELEMENT_SIZE {
        var s4 := One(ctx, OP_HASH160, rest, s3, st, x + y, st + [ctx.env.hash160(x + y)]);
      }
    }
  }

  lemma CatAndHash(ctx: Context, st: seq<Bytes>, x: Bytes, y: Bytes)
    ensures OnTwo(ctx, OP_CAT, st, x, y) ==
            if |x| + |y| > MAX_SCRIPT_ELEMENT_SIZE then Fail(PushSize) else Ok(st + [x + y])
    ensures OnOne(ctx, OP_HASH160, st, x + y) == Ok(st + [ctx.env.hash160(x + y)])
  {
  }

  // ---------- the phases of the script ----------

  lemma StraightCons(c: Chunk, cs: seq<Chunk>, rest: Prog)
    ensures Straight([c] + cs, rest) == Single(c, Straight(cs, rest))
  {
    assert ([c] + cs)[1..] == cs;
  }

  lemma Straight2(a: Chunk, b: Chunk, rest: Prog)
    ensures Straight([a, b], rest) == Single(a, Single(b, rest))
  {
    StraightCons(a, [b], rest);
    StraightCons(b, [], rest);
    assert [a] + [b] == [a, b] && [b] + [] == [b];
  }

  lemma Straight3(a: Chunk, b: Chunk, c: Chunk, rest: Prog)
    ensures Straight([a, b, c], rest) == Single(a, Single(b, Single(c, rest)))
  {
    StraightCons(a, [b, c], rest);
    Straight2(b, c, rest);
    assert [a] + [b, c] == [a, b, c];
  }

  lemma Straight4(a: Chunk, b: Chunk, c: Chunk, d: Chunk, rest: Prog)
    ensures Straight([a, b, c, d], rest) == Single(a, Single(b, Single(c, Single(d, rest))))
  {
    StraightCons(a, [b, c, d], rest);
    Straight3(b, c, d, rest);
    assert [a] + [b, c, d] == [a, b, c, d];
  }

  lemma Straight5(a: Chunk, b: Chunk, c: Chunk, d: Chunk, e: Chunk, rest: Prog)
    ensures Straight([a, b, c, d, e], rest) == Single(a, Single(b, Single(c, Single(d, Single(e, rest)))))
  {
    StraightCons(a, [b, c, d, e], rest);
    Straight4(b, c, d, e, rest);
    assert [a] + [b, c, d, e] == [a, b, c, d, e];
  }

  lemma Straight6(a: Chunk, b: Chunk, c: Chunk, d: Chunk, e: Chunk, f: Chunk, rest: Prog)
    ensures Straight([a, b, c, d, e, f], rest) == Single(a, Single(b, Single(c, Single(d, Single(e, Single(f, rest))))))
  {
    StraightCons(a, [b, c, d, e, f], rest);
    Straight5(b, c, d, e, f, rest);
    assert [a] + [b, c, d, e, f] == [a, b, c, d, e, f];
  }

  /** The flags move to the other stack, last one first. */
  lemma {:induction false} FlagsToAlt(ctx: Context, n: nat, rest: Prog, s: Core, st: seq<Bytes>, flags: seq<Bytes>)
    requires |flags| == n && s.stack == st + flags && Room(s, n)
    ensures Run(ctx, Straight(Repeat([Op(OP_TOALTSTACK)], n), rest), s, true) ==
            Run(ctx, rest, s.(pc := s.pc + n, ops := s.ops + n, stack := st, alt := s.alt + Reversed(flags)), true)
  {
    hide Run;
    if n == 0 {
      assert st + flags == st && s.alt + Reversed(flags) == s.alt;
    } else {
      var init, last := flags[..n - 1], flags[n - 1];
      var more := Straight(Repeat([Op(OP_TOALTSTACK)], n - 1), rest);
      StraightCons(Op(OP_TOALTSTACK), Repeat([Op(OP_TOALTSTACK)], n - 1), rest);
      assert st + flags == (st + init) + [last];
      var t := ToAlt(ctx, more, s, st + init, last);
      FlagsToAlt(ctx, n - 1, rest, t, st, init);
      assert s.alt + Reversed(flags) == (s.alt + [last]) + Reversed(init);
    }
  }

  lemma HashResult(ctx: Context, st: seq<Bytes>, x: Bytes)
    ensures OnOne(ctx, OP_HASH160, st, x) == Ok(st + [ctx.env.hash160(x)])
  {
  }

  lemma PickResult(ctx: Context, st: seq<Bytes>, x: Bytes, n: nat)
    requires 1 <= n <= 16 && n <= |st|
    ensures OnTwo(ctx, OP_PICK, st, x, [n]) == Ok(st + [x] + [st[|st| - n]])
  {
    assert Encode(n) == [n];
    DecodeEncode(n);
    assert (st + [x])[|st + [x]| - n - 1] == st[|st| - n];
  }

  /** OP_n PICK HASH160: the hash of the key under n siblings. */
  lemma HashKeyRuns(ctx: Context, n: nat, rest: Prog, s: Core, st: seq<Bytes>, key: Bytes, siblings: seq<Bytes>)
    requires 1 <= n <= 16 && |siblings| == n && s.stack == st + [key] + siblings && Room(s, 2)
    ensures Run(ctx, Straight(HashKey(n), rest), s, true) ==
            Run(ctx, rest, s.(pc := s.pc + 3, ops := s.ops + 2, stack := s.stack + [ctx.env.hash160(key)]), true)
  {
    hide OnOne, OnTwo, Run, Straight;
    var last := |s.stack| - 1;
    var below, x := s.stack[..last], s.stack[last];
    PickResult(ctx, below, x, n);
    assert below[|below| - n] == key;
    HashResult(ctx, s.stack, key);
    Straight3(Op(OP_1 - 1 + n), Op(OP_PICK), Op(OP_HASH160), rest);
    var p2 := Single(Op(OP_HASH160), rest);
    var p1 := Single(Op(OP_PICK), p2);
    var s1 := SmallInt(ctx, n, p1, s);
    assert s1.stack == below + [x, [n]];
    var s2 := Two(ctx, OP_PICK, p2, s1, below, x, [n]);
    assert s2.stack == s.stack + [key];
    var s3 := One(ctx, OP_HASH160, rest, s2, s.stack, key, s.stack + [ctx.env.hash160(key)]);
  }

  lemma {:induction false} LevelsRun(ctx: Context, n: nat, rest: Prog, s: Core, st: seq<Bytes>, h: Bytes,
                                     alt: seq<Bytes>, flags: seq<Bytes>, siblings: seq<Bytes>)
    requires |flags| == |siblings| == n && s.stack == st + siblings + [h] && s.alt == alt + Reversed(flags) &&
             Room(s, 6 * n)
    ensures match Fold(ctx, h, flags, siblings)
            case None => Run(ctx, Levels(n, rest), s, true).Fail?
            case Some(root) => Run(ctx, Levels(n, rest), s, true) ==
                               Run(ctx, rest, s.(pc := s.pc + 6 * n, ops := s.ops + 6 * n, stack := st + [root],
                                                 alt := alt), true)
    decreases n
  {
    hide Climb, Level, Run;
    if n == 0 {
      assert st + siblings + [h] == st + [h] && alt + Reversed(flags) == alt;
    } else {
      var sib, below := siblings[n - 1], siblings[..n - 1];
      assert s.stack == (st + below) + [sib, h];
      assert s.alt == (alt + Reversed(flags[1..])) + [flags[0]];
      LevelRuns(ctx, Levels(n - 1, rest), s, st + below, sib, h, alt + Reversed(flags[1..]), flags[0]);
      match Climb(ctx, h, flags[0], sib)
      case None =>
      case Some(up) =>
        var t := s.(pc := s.pc + 6, ops := s.ops + 6, stack := st + below + [up], alt := alt + Reversed(flags[1..]));
        LevelsRun(ctx, n - 1, rest, t, st, up, alt, flags[1..], below);
    }
  }

  lemma EqualVerifyResult(ctx: Context, st: seq<Bytes>, x: Bytes, y: Bytes)
    ensures OnTwo(ctx, OP_EQUALVERIFY, st, x, y) == if x == y then Ok(st) else Fail(EqualVerify)
    ensures OnTwo(ctx, OP_EQUAL, st, x, y) == Ok(st + [Bool(x == y)])
  {
  }

  lemma MatchRootRuns(ctx: Context, root: Bytes, rest: Prog, s: Core, st: seq<Bytes>, h: Bytes)
    requires |root| == 20 && s.stack == st + [h] && Room(s, 1)
    ensures if h == root
            then Run(ctx, Straight(MatchRoot(root), rest), s, true) ==
                 Run(ctx, rest, s.(pc := s.pc + 2, ops := s.ops + 1, stack := st), true)
            else Run(ctx, Straight(MatchRoot(root), rest), s, true).Fail?
  {
    hide OnTwo, Run, Straight;
    EqualVerifyResult(ctx, st, h, root);
    Straight2(Data(root), Op(OP_EQUALVERIFY), rest);
    var s1 := PushData(ctx, root, Single(Op(OP_EQUALVERIFY), rest), s);
    assert s1.stack == st + [h, root];
    var s2 := Two(ctx, OP_EQUALVERIFY, rest, s1, st, h, root);
  }

  lemma NotVerifyResult(ctx: Context, st: seq<Bytes>, b: bool)
    ensures OnOne(ctx, OP_NOT, st, Bool(b)) == Ok(st + [Bool(!b)])
    ensures b ==> OnOne(ctx, OP_VERIFY, st, Bool(b)) == Ok(st)
    ensures !b ==> OnOne(ctx, OP_VERIFY, st, Bool(b)).Fail?
  {
    assert Encode(0) == [] && Encode(1) == [1];
    DecodeEncode(0);
    DecodeEncode(1);
  }

  lemma OverPicture(x: Bytes, y: Bytes)
    ensures IsShuffle(OP_OVER) && Arity(OP_OVER) == 2 && Picture(OP_OVER, [x, y]) == [x, y, x]
    ensures IsShuffle(OP_DUP) && Arity(OP_DUP) == 1 && Picture(OP_DUP, [x]) == [x, x]
  {
  }

  lemma VerifyFails(ctx: Context, rest: Prog, s: Core, st: seq<Bytes>, x: Bytes)
    requires s.stack == st + [x] && Room(s, 1) && OnOne(ctx, OP_VERIFY, st, x).Fail?
    ensures Run(ctx, Single(Op(OP_VERIFY), rest), s, true).Fail?
  {
    hide OnOne;
    assert Drop(s.stack, 1) == st;
    assert OnStack(ctx, OP_VERIFY, s.stack) == OnOne(ctx, OP_VERIFY, st, x);
    Failing(ctx, OP_VERIFY, rest, s);
  }

  /** OVER OP_4 PICK EQUAL NOT VERIFY: the two signed messages differ. */
  lemma UniqueRuns(ctx: Context, rest: Prog, s: Core, b: seq<Bytes>, sig2: Bytes, msg2: Bytes, sig1: Bytes,
                   msg1: Bytes, key: Bytes)
    requires s.stack == b + [sig2, msg2, sig1, msg1, key] && Room(s, 5)
    ensures if msg1 != msg2
            then Run(ctx, Straight(ENSURE_UNIQUE, rest), s, true) ==
                 Run(ctx, rest, s.(pc := s.pc + 6, ops := s.ops + 5), true)
            else Run(ctx, Straight(ENSURE_UNIQUE, rest), s, true).Fail?
  {
    hide OnOne, OnTwo, Run, Straight, Picture, Bool, IsShuffle, Arity;
    var st := s.stack;
    PickResult(ctx, st, msg1, 4);
    EqualVerifyResult(ctx, st, msg1, msg2);
    NotVerifyResult(ctx, st, msg1 == msg2);
    NotVerifyResult(ctx, st, msg1 != msg2);
    OverPicture(msg1, key);
    var p5 := Single(Op(OP_VERIFY), rest);
    var p4 := Single(Op(OP_NOT), p5);
    var p3 := Single(Op(OP_EQUAL), p4);
    var p2 := Single(Op(OP_PICK), p3);
    var p1 := Single(Op(OP_4), p2);
    Straight6(Op(OP_OVER), Op(OP_4), Op(OP_PICK), Op(OP_EQUAL), Op(OP_NOT), Op(OP_VERIFY), rest);
    assert st == (b + [sig2, msg2, sig1]) + [msg1, key];
    var s1 := Shuffling(ctx, OP_OVER, p1, s, b + [sig2, msg2, sig1], [msg1, key]);
    assert s1.stack == st + [msg1];
    var s2 := SmallInt(ctx, 4, p2, s1);
    assert s2.stack == st + [msg1, [4]];
    var s3 := Two(ctx, OP_PICK, p3, s2, st, msg1, [4]);
    assert s3.stack == st + [msg1, msg2];
    var s4 := Two(ctx, OP_EQUAL, p4, s3, st, msg1, msg2);
    var s5 := One(ctx, OP_NOT, p5, s4, st, Bool(msg1 == msg2), st + [Bool(msg1 != msg2)]);
    if msg1 != msg2 {
      var s6 := One(ctx, OP_VERIFY, rest, s5, st, Bool(true), st);
    } else {
      VerifyFails(ctx, rest, s5, st, Bool(false));
    }
  }

  lemma RunNil(ctx: Context, s: Core)
    ensures Run(ctx, Nil, s, true) == Ok(s)
  {
  }

  /** DUP TOALTSTACK CHECKDATASIGVERIFY FROMALTSTACK CHECKDATASIG: both signatures, one key. */
  lemma SignedRuns(ctx: Context, s: Core, b: seq<Bytes>, sig2: Bytes, msg2: Bytes, sig1: Bytes, msg1: Bytes, key: Bytes)
    requires s.stack == b + [sig2, msg2, sig1, msg1, key] && Room(s, 5)
    ensures var r := Run(ctx, Straight(SIGNED, Nil), s, true);
            if Signed(ctx, sig1, msg1, key) && Signed(ctx, sig2, msg2, key)
            then r == Ok(s.(pc := s.pc + 5, ops := s.ops + 5, stack := b + [TRUE]))
            else r.Fail? || r == Ok(s.(pc := s.pc + 5, ops := s.ops + 5, stack := b + [FALSE]))
  {
    hide Run, Straight, Picture, CheckDataSig, Signed, IsShuffle, Arity;
    CheckDataSigResult(ctx, b + [sig2, msg2], sig1, msg1, key, true);
    CheckDataSigResult(ctx, b, sig2, msg2, key, false);
    OverPicture(key, key);
    var p4 := Single(Op(OP_CHECKDATASIG), Nil);
    var p3 := Single(Op(OP_FROMALTSTACK), p4);
    var p2 := Single(Op(OP_CHECKDATASIGVERIFY), p3);
    var p1 := Single(Op(OP_TOALTSTACK), p2);
    Straight5(Op(OP_DUP), Op(OP_TOALTSTACK), Op(OP_CHECKDATASIGVERIFY), Op(OP_FROMALTSTACK), Op(OP_CHECKDATASIG), Nil);
    assert s.stack == (b + [sig2, msg2, sig1, msg1]) + [key];
    var s1 := Shuffling(ctx, OP_DUP, p1, s, b + [sig2, msg2, sig1, msg1], [key]);
    assert s1.stack == s.stack + [key];
    var s2 := ToAlt(ctx, p2, s1, s.stack, key);
    assert s2.stack == (b + [sig2, msg2]) + [sig1, msg1, key];
    var s3 := DataSig(ctx, true, p3, s2, b + [sig2, msg2], sig1, msg1, key);
    if Signed(ctx, sig1, msg1, key) {
      var s4 := FromAlt(ctx, p4, s3, s.alt, key);
      assert s4.stack == b + [sig2, msg2, key];
      var s5 := DataSig(ctx, false, Nil, s4, b, sig2, msg2, key);
      RunNil(ctx, s5);
    }
  }
}
