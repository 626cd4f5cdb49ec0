/** The limits of every run, and what counts as a minimal push. */
module RunLimits {
  import opened Bytes
  import opened ScriptNum
  import opened Opcode
  import opened Script
  import opened Machine
  import Multisig

  // ---------- limits of a whole evaluation ----------

  /** How many opcodes above OP_16 a list of chunks has. */
  function OpsIn(cs: seq<Chunk>): nat {
    if cs == [] then 0 else (if cs[0].Chunk? && cs[0].op > 96 then 1 else 0) + OpsIn(cs[1..])
  }

  /** A chunk that may stand in a script at all, even where it is skipped. */
  predicate Allowed(flags: Flags, c: Chunk) {
    && c.Chunk? && (c.data.Some? ==> |c.data.value| <= 520)
    && c.op !in {OP_VERIF, OP_VERNOTIF, OP_INVERT, OP_2MUL, OP_2DIV, OP_LSHIFT, OP_RSHIFT}
    && (c.op == OP_MUL ==> flags.integers64)
  }

  lemma MultisigOps(ctx: Context, st: seq<Bytes>, ops: nat, code: seq<Chunk>)
    requires Multisig.CheckMultisig(ctx, st, ops, code).Ok?
    ensures ops + Multisig.CheckMultisig(ctx, st, ops, code).value.keys <= 201
  {
    hide Multisig.Check;
  }

  lemma PlainOps(ctx: Context, c: Chunk, s: Core)
    requires c.Chunk? && s.ops <= 201 && Plain(ctx, c, s).Ok?
    ensures s.ops <= Plain(ctx, c, s).value.ops <= 201
  {
    hide OnStack, CheckSig, CheckDataSig, Multisig.CheckMultisig, Subscript;
    if c.op == OP_CHECKMULTISIG || c.op == OP_CHECKMULTISIGVERIFY {
      if Multisig.CheckMultisig(ctx, s.stack, s.ops, Subscript(ctx, s)).Ok? {
        MultisigOps(ctx, s.stack, s.ops, Subscript(ctx, s));
      }
    }
  }

  lemma ConditionalOps(ctx: Context, op: int, s: Core, vf: seq<bool>)
    requires IsConditional(op) && Conditional(ctx, op, s, vf).Ok?
    ensures Conditional(ctx, op, s, vf).value.core.ops == s.ops && op != OP_VERIF && op != OP_VERNOTIF
  {
  }

  /** One step over a chunk: it is an allowed one, and the op counter has room for it. */
  lemma StepLimits(ctx: Context, s: State)
    requires s.core.pc < |ctx.script| && s.core.ops <= 201 && Step(ctx, s).Ok?
    ensures var c, t := ctx.script[s.core.pc], Step(ctx, s).value;
            Allowed(ctx.flags, c) && s.core.ops + OpsIn([c]) <= t.core.ops <= 201
  {
    hide Plain, Conditional;
    var c := ctx.script[s.core.pc];
    var core := Fetch(ctx, c, s.core).value;
    if IsConditional(c.op) {
      ConditionalOps(ctx, c.op, core, s.vfExec);
    } else if Executing(s.vfExec) {
      PlainOps(ctx, c, core);
    }
  }

  lemma {:induction false} OpsConcat(a: seq<Chunk>, b: seq<Chunk>)
    ensures OpsIn(a + b) == OpsIn(a) + OpsIn(b)
  {
    if a == [] { assert a + b == b; } else {
      OpsConcat(a[1..], b);
      assert (a + b)[1..] == a[1..] + b;
    }
  }

  lemma {:induction false} RunHasLimits(ctx: Context, s: State)
    requires s.core.pc <= |ctx.script| && s.core.ops <= 201 && RunTo(ctx, s, |ctx.script|).Ok?
    ensures forall i :: s.core.pc <= i < |ctx.script| ==> Allowed(ctx.flags, ctx.script[i])
    ensures s.core.ops + OpsIn(ctx.script[s.core.pc..]) <= RunTo(ctx, s, |ctx.script|).value.core.ops <= 201
    decreases |ctx.script| - s.core.pc
  {
    hide Step, Allowed, OpsIn;
    if s.core.pc < |ctx.script| {
      StepLimits(ctx, s);
      StepAdvances(ctx, s);
      RunHasLimits(ctx, Step(ctx, s).value);
      var c := ctx.script[s.core.pc];
      OpsConcat([c], ctx.script[s.core.pc + 1..]);
      assert ctx.script[s.core.pc..] == [c] + ctx.script[s.core.pc + 1..];
    } else {
      assert ctx.script[s.core.pc..] == [];
      NoOps();
    }
  }

  lemma NoOps()
    ensures OpsIn([]) == 0
  {
  }

  /**
   * Whatever evaluates keeps the limits everywhere, in branches that are skipped too: no chunk of the script is
   * too long, disabled or misplaced, no more than 201 of them are opcodes above OP_16, and the result is no
   * deeper than 1000.
   */
  lemma EvaluateHasLimits(ctx: Context, stack: seq<Bytes>, size: nat)
    requires Evaluate(ctx, stack, size).Some?
    ensures size <= 10000 && |Evaluate(ctx, stack, size).value| <= 1000
    ensures forall i :: 0 <= i < |ctx.script| ==> Allowed(ctx.flags, ctx.script[i])
    ensures OpsIn(ctx.script) <= 201
  {
    hide RunTo, Allowed;
    RunHasLimits(ctx, Start(stack));
    assert ctx.script[0..] == ctx.script;
  }

  // ---------- the limits are met exactly ----------

  /** Reading a chunk fails for nothing but these limits, and only moves on and counts. */
  lemma FetchIff(ctx: Context, c: Chunk, s: Core)
    ensures Fetch(ctx, c, s).Ok? <==>
            && c.Chunk? && (c.data.Some? ==> |c.data.value| <= 520)
            && c.op !in {OP_INVERT, OP_2MUL, OP_2DIV, OP_LSHIFT, OP_RSHIFT} && (c.op == OP_MUL ==> ctx.flags.integers64)
            && (c.op > 96 ==> s.ops <= 200)
    ensures Fetch(ctx, c, s).Ok? ==>
              Fetch(ctx, c, s).value == s.(pc := s.pc + 1, ops := if c.op > 96 then s.ops + 1 else s.ops)
  {
  }

  /** Numbers that are no opcode of this machine fail wherever they are run. */
  lemma NoSuchOpcode(ctx: Context, op: int, s: Core)
    requires op in {OP_RESERVED, OP_VER, OP_RESERVED1, OP_RESERVED2} || op > OP_REVERSEBYTES
    ensures Execute(ctx, op, s).Fail?
  {
  }

  /** Opcodes that do nothing, the upgradable ones unless they are discouraged. */
  lemma DoNothing(ctx: Context, op: int, s: Core)
    requires op in {OP_NOP, OP_NOP1, OP_NOP4, OP_NOP5, OP_NOP6, OP_NOP7, OP_NOP8, OP_NOP9, OP_NOP10}
    ensures if op == OP_NOP || !ctx.flags.discourageNops then Execute(ctx, op, s) == Ok(s)
            else Execute(ctx, op, s).Fail?
  {
  }

  function Nops(n: nat): (cs: seq<Chunk>)
    ensures |cs| == n
  {
    seq(n, _ => Chunk(OP_NOP, None, 0))
  }

  lemma {:induction false} NopsRun(ctx: Context, s: Core)
    requires s.pc <= |ctx.script| && ctx.script == Nops(|ctx.script|)
    requires s.ops + (|ctx.script| - s.pc) <= 201
    ensures RunTo(ctx, State(s, []), |ctx.script|) ==
            Ok(State(s.(pc := |ctx.script|, ops := s.ops + (|ctx.script| - s.pc)), []))
    decreases |ctx.script| - s.pc
  {
    hide Step;
    if s.pc < |ctx.script| {
      NopStep(ctx, s);
      NopsRun(ctx, s.(pc := s.pc + 1, ops := s.ops + 1));
    }
  }

  lemma NopStep(ctx: Context, s: Core)
    requires s.pc < |ctx.script| && ctx.script[s.pc] == Chunk(OP_NOP, None, 0) && s.ops < 201
    ensures Step(ctx, State(s, [])) == Ok(State(s.(pc := s.pc + 1, ops := s.ops + 1), []))
  {
  }

  lemma {:induction false} NopsCount(n: nat)
    ensures OpsIn(Nops(n)) == n
  {
    if n > 0 {
      NopsCount(n - 1);
      assert Nops(n)[1..] == Nops(n - 1);
    }
  }

  /** n opcodes that do nothing evaluate exactly up to n = 201, and a stack of 1000 items at most. */
  lemma NopsEvaluateIff(ctx: Context, stack: seq<Bytes>, n: nat)
    requires ctx.script == Nops(n)
    ensures Evaluate(ctx, stack, n) == if n <= 201 && |stack| <= 1000 then Some(stack) else None
  {
    hide RunTo;
    if n <= 201 {
      NopsRun(ctx, Start(stack).core);
    } else if Evaluate(ctx, stack, n).Some? {
      EvaluateHasLimits(ctx, stack, n);
      NopsCount(n);
    }
  }

  // ---------- pushes ----------

  /** The forms in which a script holds a push of d: its length as the opcode, or one, two or four bytes of length. */
  predicate Pushes(op: int, d: Bytes) {
    (0 <= op <= 75 && op == |d|) || (op == OP_PUSHDATA1 && |d| <= 0xff) || (op == OP_PUSHDATA2 && |d| <= 0xffff) ||
    (op == OP_PUSHDATA4 && |d| <= 0xffff_ffff)
  }

  /** The bytes that such a push takes. */
  function PushLength(op: int, d: Bytes): nat {
    |d| + if op <= 75 then 1 else if op == OP_PUSHDATA1 then 2 else if op == OP_PUSHDATA2 then 3 else 5
  }

  /** A number that has an opcode of its own. */
  ghost predicate HasOpcode(d: Bytes) { exists n: int :: (n == -1 || 1 <= n <= 16) && d == Encode(n) }

  lemma OwnOpcodes(d: Bytes)
    ensures HasOpcode(d) <==> |d| == 1 && (1 <= d[0] <= 16 || d[0] == 0x81)
  {
    assert Encode(-1) == [0x81];
    forall n | 1 <= n <= 16 ensures Encode(n) == [n] { }
    if |d| == 1 && 1 <= d[0] <= 16 { assert d == Encode(d[0]); }
    if |d| == 1 && d[0] == 0x81 { assert d == Encode(-1); }
  }

  /** A push that the minimal-data rule lets pass is the shortest one of its data, and every shortest one passes. */
  lemma MinimalPushIff(op: int, d: Bytes)
    requires Pushes(op, d) && |d| <= 0xffff
    ensures MinimalPush(Chunk(op, Some(d), |d|)) <==>
            !HasOpcode(d) && forall other: int :: Pushes(other, d) ==> PushLength(op, d) <= PushLength(other, d)
  {
    OwnOpcodes(d);
    var best := if |d| <= 75 then |d| else if |d| <= 0xff then OP_PUSHDATA1 else OP_PUSHDATA2;
    assert Pushes(best, d);
  }

  /** A script of one push leaves the data, up to 520 bytes, or an empty item when there is none. */
  lemma OnePushEvaluates(ctx: Context, stack: seq<Bytes>, op: int, data: Option<Bytes>, length: int, size: nat)
    requires ctx.script == [Chunk(op, data, length)] && 0 <= op <= 78
    requires ctx.flags.minimalData ==> MinimalPush(ctx.script[0])
    ensures var d := if data.Some? then data.value else [];
            Evaluate(ctx, stack, size) ==
            if size <= 10000 && |d| <= 520 && (data.Some? ==> length == |d|) && |stack| < 1000 then Some(stack + [d])
            else None
  {
    hide MinimalPush;
    OneChunk(ctx, Start(stack));
  }

  lemma OneChunk(ctx: Context, s: State)
    requires |ctx.script| == 1 && s.core.pc == 0
    ensures RunTo(ctx, s, 1) == Step(ctx, s)
  {
    hide Step;
    StepAdvances(ctx, s);
  }
}
