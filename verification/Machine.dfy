/**
 * One step of the script machine on values. The conditional stack is kept apart from the rest of
 * the state, because only IF, NOTIF, ELSE and ENDIF touch it.
 */
module Machine {
  import opened Bytes
  import opened ScriptNum
  import opened Opcode
  import opened Script
  import Multisig

  datatype Core = Core(stack: seq<Bytes>, alt: seq<Bytes>, pc: nat, codeSep: nat, ops: nat)

  datatype State = State(core: Core, vfExec: seq<bool>)

  // ---------- the part of step that every chunk goes through ----------

  predicate Counted(c: Chunk) { c.Chunk? && c.op > OP_16 }

  /** Reads the chunk: pc moves on, the op counter rises, the static limits are enforced. */
  function Fetch(ctx: Context, c: Chunk, s: Core): Result<Core> {
    var ops := if Counted(c) then s.ops + 1 else s.ops;
    if c.Undefined? then Fail(UndefinedOpcode)
    else if c.data.Some? && |c.data.value| > MAX_SCRIPT_ELEMENT_SIZE then Fail(PushSize)
    else if Counted(c) && ops > MAX_OPS then Fail(OpCount)
    else if IsDisabled(c.op, ctx.flags) then Fail(DisabledOpcode)
    else Ok(s.(pc := s.pc + 1, ops := ops))
  }

  predicate IsPush(op: int) { 0 <= op <= OP_PUSHDATA4 }

  function Push(ctx: Context, c: Chunk, s: Core): Result<Core>
    requires c.Chunk?
  {
    if ctx.flags.minimalData && !MinimalPush(c) then Fail(MinimalData)
    else if c.data.None? then Ok(s.(stack := s.stack + [FALSE]))
    else if c.len != |c.data.value| then Fail(Thrown)
    else Ok(s.(stack := s.stack + [c.data.value]))
  }

  // ---------- opcodes that only rearrange the stack ----------

  predicate IsShuffle(op: int) {
    OP_2DROP <= op <= OP_2SWAP || op == OP_DROP || op == OP_DUP || op == OP_NIP || op == OP_OVER ||
    op == OP_ROT || op == OP_SWAP || op == OP_TUCK
  }

  /** How many items an opcode takes off the top. */
  function Arity(op: int): nat
    requires IsShuffle(op)
  {
    if op == OP_DROP || op == OP_DUP then 1
    else if op == OP_3DUP || op == OP_ROT then 3
    else if op == OP_2OVER || op == OP_2SWAP then 4
    else if op == OP_2ROT then 6
    else 2
  }

  /** The stack picture: what replaces the items x, deepest first. */
  function Picture<T>(op: int, x: seq<T>): (r: seq<T>)
    requires IsShuffle(op) && |x| == Arity(op)
    ensures forall i :: 0 <= i < |r| ==> r[i] in x
  {
    if op == OP_2DROP || op == OP_DROP then []
    else if op == OP_2DUP then [x[0], x[1], x[0], x[1]]
    else if op == OP_3DUP then [x[0], x[1], x[2], x[0], x[1], x[2]]
    else if op == OP_2OVER then [x[0], x[1], x[2], x[3], x[0], x[1]]
    else if op == OP_2ROT then [x[2], x[3], x[4], x[5], x[0], x[1]]
    else if op == OP_2SWAP then [x[2], x[3], x[0], x[1]]
    else if op == OP_DUP then [x[0], x[0]]
    else if op == OP_NIP then [x[1]]
    else if op == OP_OVER then [x[0], x[1], x[0]]
    else if op == OP_ROT then [x[1], x[2], x[0]]
    else if op == OP_SWAP then [x[1], x[0]]
    else [x[1], x[0], x[1]]
  }

  function Shuffle<T>(op: int, st: seq<T>): Result<seq<T>>
    requires IsShuffle(op)
  {
    var n := Arity(op);
    if |st| < n then Fail(InvalidStackOperation)
    else Ok(Drop(st, n) + Picture(op, st[|st| - n..]))
  }

  // ---------- opcodes that copy or move an item chosen by a number ----------

  /** OP_PICK and OP_ROLL, the count n already read and popped. */
  function PickOrRoll<T>(op: int, st: seq<T>, n: int): Result<seq<T>> {
    if n < 0 || n >= |st| then Fail(InvalidStackOperation)
    else
      var i := |st| - n - 1;
      Ok((if op == OP_ROLL then st[..i] + st[i + 1..] else st) + [st[i]])
  }

  // ---------- bitwise, numeric, hash and byte-string opcodes ----------

  function BitOp(op: int, x: Byte, y: Byte): Byte {
    (if op == OP_AND then (x as bv8) & (y as bv8)
     else if op == OP_OR then (x as bv8) | (y as bv8)
     else (x as bv8) ^ (y as bv8)) as int
  }

  function Bitwise(op: int, a: Bytes, b: Bytes): (r: Bytes)
    requires |a| == |b|
    ensures |r| == |a|
  {
    seq(|a|, i requires 0 <= i < |a| => BitOp(op, a[i], b[i]))
  }

  predicate IsUnary(op: int) {
    op == OP_1ADD || op == OP_1SUB || op == OP_NEGATE || op == OP_ABS || op == OP_NOT || op == OP_0NOTEQUAL
  }

  function FromChecked(c: Checked): Result<int> {
    if c.Value? then Ok(c.n) else Fail(Thrown)
  }

  function Num(b: bool): int { if b then 1 else 0 }

  function Unary(op: int, n: int, maxSize: nat): Result<int>
    requires IsUnary(op)
  {
    if op == OP_1ADD then FromChecked(SafeAdd(n, 1, maxSize))
    else if op == OP_1SUB then FromChecked(SafeSub(n, 1, maxSize))
    else if op == OP_NEGATE then Ok(-n)
    else if op == OP_ABS then Ok(Abs(n))
    else if op == OP_NOT then Ok(Num(n == 0))
    else Ok(Num(n != 0))
  }

  predicate IsBinary(op: int) {
    OP_ADD <= op <= OP_MOD || OP_BOOLAND <= op <= OP_MAX
  }

  function Binary(op: int, a: int, b: int, maxSize: nat): Result<int>
    requires IsBinary(op)
  {
    if op == OP_ADD then FromChecked(SafeAdd(a, b, maxSize))
    else if op == OP_SUB then FromChecked(SafeSub(a, b, maxSize))
    else if op == OP_MUL then FromChecked(SafeMul(a, b, maxSize))
    else if op == OP_DIV then if b == 0 then Fail(DivByZero) else Ok(TruncDiv(a, b))
    else if op == OP_MOD then if b == 0 then Fail(DivByZero) else Ok(TruncMod(a, b))
    else if op == OP_BOOLAND then Ok(Num(a != 0 && b != 0))
    else if op == OP_BOOLOR then Ok(Num(a != 0 || b != 0))
    else if op == OP_NUMEQUAL || op == OP_NUMEQUALVERIFY then Ok(Num(a == b))
    else if op == OP_NUMNOTEQUAL then Ok(Num(a != b))
    else if op == OP_LESSTHAN then Ok(Num(a < b))
    else if op == OP_GREATERTHAN then Ok(Num(a > b))
    else if op == OP_LESSTHANOREQUAL then Ok(Num(a <= b))
    else if op == OP_GREATERTHANOREQUAL then Ok(Num(a >= b))
    else if op == OP_MIN then Ok(if a < b then a else b)
    else Ok(if a > b then a else b)
  }

  predicate IsHash(op: int) { OP_RIPEMD160 <= op <= OP_HASH256 }

  function HashOf(op: int, env: Env, b: Bytes): Bytes
    requires IsHash(op)
  {
    if op == OP_RIPEMD160 then env.ripemd160(b)
    else if op == OP_SHA1 then env.sha1(b)
    else if op == OP_SHA256 then env.sha256(b)
    else if op == OP_HASH160 then env.hash160(b)
    else env.hash256(b)
  }

  /** OP_NUM2BIN: the number widened to exactly `size` bytes, the sign in the new top byte. */
  function NumToBin(x: Bytes, size: int): Result<Bytes> {
    var raw := Encode(Decode(x));
    if size > MAX_SCRIPT_ELEMENT_SIZE then Fail(PushSize)
    else if |raw| > size then Fail(ImpossibleEncoding)
    else if |raw| == size then Ok(raw)
    else Ok(Widen(raw, size))
  }

  function Widen(raw: Bytes, size: nat): (r: Bytes)
    requires |raw| < size
    ensures |r| == size
  {
    if raw == [] then seq(size, _ => 0)
    else
      var last := raw[|raw| - 1];
      raw[..|raw| - 1] + [last % 128] + seq(size - |raw| - 1, _ => 0) + [if last >= 128 then 128 else 0]
  }

  /** OP_BIN2NUM */
  function BinToNum(x: Bytes, maxSize: nat): Result<Bytes> {
    var n := Encode(Decode(x));
    if |n| > maxSize then Fail(InvalidNumberRange) else Ok(n)
  }

  /** The verdict of a check, pushed, or consumed on the spot by the -VERIFY form of the opcode. */
  function Conclude(st: seq<Bytes>, ok: bool, verify: bool, e: Error): Result<seq<Bytes>> {
    if !verify then Ok(st + [Bool(ok)])
    else if ok then Ok(st)
    else Fail(e)
  }

  // ---------- one executed opcode ----------

  predicate IsSmallInt(op: int) { op == OP_1NEGATE || OP_1 <= op <= OP_16 }

  predicate IsNop(op: int) { op == OP_NOP1 || OP_NOP4 <= op <= OP_NOP10 }

  predicate IsInPlace(op: int) {
    op == OP_AND || op == OP_OR || op == OP_XOR || op == OP_NUM2BIN || op == OP_BIN2NUM
  }

  /** AND, OR, XOR, NUM2BIN and BIN2NUM, as values. */
  function InPlace(ctx: Context, op: int, st: seq<Bytes>): Result<seq<Bytes>>
    requires IsInPlace(op)
  {
    if op == OP_BIN2NUM then
      if |st| < 1 then Fail(InvalidStackOperation)
      else
        var n :- BinToNum(Top(st, 1), ctx.flags.MaxIntegerSize());
        Ok(Drop(st, 1) + [n])
    else if |st| < 2 then Fail(InvalidStackOperation)
    else if op == OP_NUM2BIN then
      var size :- ReadNumber(Top(st, 1), ctx.flags.minimalData, 4);
      var n :- NumToBin(Top(st, 2), size);
      Ok(Drop(st, 2) + [n])
    else if |Top(st, 2)| != |Top(st, 1)| then Fail(InvalidOperandSize)
    else Ok(Drop(st, 2) + [Bitwise(op, Top(st, 2), Top(st, 1))])
  }

  /** Opcodes whose whole effect is on the main stack. */
  function OnStack(ctx: Context, op: int, st: seq<Bytes>): Result<seq<Bytes>> {
    var minimal, max := ctx.flags.minimalData, ctx.flags.MaxIntegerSize();
    if IsSmallInt(op) then Ok(st + [Encode(op - (OP_1 - 1))])
    else if op == OP_NOP then Ok(st)
    else if op == OP_NOP2 then CheckLockTime(ctx, st)
    else if op == OP_NOP3 then CheckSequence(ctx, st)
    else if IsNop(op) then
      if ctx.flags.discourageNops then Fail(DiscourageUpgradableNops) else Ok(st)
    else if op == OP_RETURN then Fail(OpReturn)
    else if IsShuffle(op) then Shuffle(op, st)
    else if op == OP_DEPTH then Ok(st + [Encode(|st|)])
    else if IsInPlace(op) then InPlace(ctx, op, st)
    else if IsUnary(op) || IsHash(op) || op == OP_VERIFY || op == OP_IFDUP || op == OP_SIZE ||
            op == OP_REVERSEBYTES then
      if |st| < 1 then Fail(InvalidStackOperation) else OnOne(ctx, op, Drop(st, 1), Top(st, 1))
    else if IsBinary(op) || op == OP_PICK || op == OP_ROLL || op == OP_EQUAL || op == OP_EQUALVERIFY ||
            op == OP_CAT || op == OP_SPLIT then
      if |st| < 2 then Fail(InvalidStackOperation) else OnTwo(ctx, op, Drop(st, 2), Top(st, 2), Top(st, 1))
    else if op == OP_WITHIN then
      if |st| < 3 then Fail(InvalidStackOperation)
      else
        var x :- ReadNumber(Top(st, 3), minimal, max);
        var lo :- ReadNumber(Top(st, 2), minimal, max);
        var hi :- ReadNumber(Top(st, 1), minimal, max);
        Ok(Drop(st, 3) + [Bool(lo <= x < hi)])
    else Fail(BadOpcode)
  }

  function OnOne(ctx: Context, op: int, rest: seq<Bytes>, x: Bytes): Result<seq<Bytes>>
    requires IsUnary(op) || IsHash(op) || op == OP_VERIFY || op == OP_IFDUP || op == OP_SIZE || op == OP_REVERSEBYTES
  {
    if op == OP_VERIFY then if Truthy(x) then Ok(rest) else Fail(VerifyFailed)
    else if op == OP_IFDUP then Ok(rest + if Truthy(x) then [x, x] else [x])
    else if op == OP_SIZE then Ok(rest + [x, Encode(|x|)])
    else if op == OP_REVERSEBYTES then Ok(rest + [Reversed(x)])
    else if IsHash(op) then Ok(rest + [HashOf(op, ctx.env, x)])
    else
      var n :- ReadNumber(x, ctx.flags.minimalData, ctx.flags.MaxIntegerSize());
      var r :- Unary(op, n, ctx.flags.MaxIntegerSize());
      Ok(rest + [Encode(r)])
  }

  function OnTwo(ctx: Context, op: int, rest: seq<Bytes>, x: Bytes, y: Bytes): Result<seq<Bytes>>
    requires IsBinary(op) || op == OP_PICK || op == OP_ROLL || op == OP_EQUAL || op == OP_EQUALVERIFY ||
             op == OP_CAT || op == OP_SPLIT
  {
    var minimal, max := ctx.flags.minimalData, ctx.flags.MaxIntegerSize();
    if op == OP_PICK || op == OP_ROLL then
      var n :- ReadNumber(y, minimal, 4);
      PickOrRoll(op, rest + [x], n)
    else if op == OP_EQUAL || op == OP_EQUALVERIFY then
      Conclude(rest, x == y, op == OP_EQUALVERIFY, EqualVerify)
    else if op == OP_CAT then
      if |x| + |y| > MAX_SCRIPT_ELEMENT_SIZE then Fail(PushSize) else Ok(rest + [x + y])
    else if op == OP_SPLIT then
      var n :- ReadNumber(y, minimal, 4);
      if n < 0 || n > |x| then Fail(InvalidSplitRange) else Ok(rest + [x[..n], x[n..]])
    else
      var a :- ReadNumber(x, minimal, max);
      var b :- ReadNumber(y, minimal, max);
      var r :- Binary(op, a, b, max);
      if op == OP_NUMEQUALVERIFY then Conclude(rest, r != 0, true, NumEqualVerify)
      else Ok(rest + [Encode(r)])
  }

  /** OP_CHECKLOCKTIMEVERIFY: a NOP until enabled. */
  function CheckLockTime(ctx: Context, st: seq<Bytes>): Result<seq<Bytes>> {
    if !ctx.flags.checkLockTime then
      if ctx.flags.discourageNops then Fail(DiscourageUpgradableNops) else Ok(st)
    else if |st| < 1 then Fail(InvalidStackOperation)
    else
      var n :- ReadNumber(Top(st, 1), ctx.flags.minimalData, 5);
      if n < 0 then Fail(NegativeLocktime)
      else if !ctx.env.lockTimeReached(n) then Fail(UnsatisfiedLocktime)
      else Ok(st)
  }

  /**
   * OP_CHECKSEQUENCEVERIFY. Once enabled it passes only operands with the disable bit 31 set:
   * for any other operand checkSequence returns false or throws on a name that is not declared.
   */
  function CheckSequence(ctx: Context, st: seq<Bytes>): Result<seq<Bytes>> {
    if !ctx.flags.checkSequence then
      if ctx.flags.discourageNops then Fail(DiscourageUpgradableNops) else Ok(st)
    else if |st| < 1 then Fail(InvalidStackOperation)
    else
      var n :- ReadNumber(Top(st, 1), ctx.flags.minimalData, 5);
      if n < 0 then Fail(NegativeLocktime)
      else if (n / 0x8000_0000) % 2 == 1 then Ok(st)
      else Fail(UnsatisfiedLocktime)
  }

  function Subscript(ctx: Context, s: Core): seq<Chunk> {
    if s.codeSep <= |ctx.script| then ctx.script[s.codeSep..] else []
  }

  function CheckSig(ctx: Context, s: Core, verify: bool): Result<seq<Bytes>> {
    if |s.stack| < 2 then Fail(InvalidStackOperation)
    else
      var sig, key := Top(s.stack, 2), Top(s.stack, 1);
      if !ctx.env.txSigEncoded(sig) || !ctx.env.pubkeyEncoded(key) then Fail(Encoding)
      else
        var ok := ctx.env.txSigValid(sig, key, Subscript(ctx, s), [sig]);
        if !ok && ctx.flags.nullFail && |sig| > 0 then Fail(NullFail)
        else Conclude(Drop(s.stack, 2), ok, verify, CheckSigVerify)
  }

  function CheckDataSig(ctx: Context, st: seq<Bytes>, verify: bool): Result<seq<Bytes>> {
    if |st| < 3 then Fail(InvalidStackOperation)
    else
      var sig, msg, key := Top(st, 3), Top(st, 2), Top(st, 1);
      if !ctx.env.dataSigEncoded(sig) || !ctx.env.pubkeyEncoded(key) then Fail(Encoding)
      else
        var ok := ctx.env.dataSigValid(sig, msg, key);
        if !ok && ctx.flags.nullFail && |sig| > 0 then Fail(NullFail)
        else Conclude(Drop(st, 3), ok, verify, CheckDataSigVerify)
  }

  /** Any opcode other than a push or a conditional, run in an executing branch. */
  function Execute(ctx: Context, op: int, s: Core): Result<Core> {
    if op == OP_TOALTSTACK then
      if |s.stack| < 1 then Fail(InvalidStackOperation)
      else Ok(s.(stack := Drop(s.stack, 1), alt := s.alt + [Top(s.stack, 1)]))
    else if op == OP_FROMALTSTACK then
      if |s.alt| < 1 then Fail(InvalidAltstackOperation)
      else Ok(s.(stack := s.stack + [Top(s.alt, 1)], alt := Drop(s.alt, 1)))
    else if op == OP_CODESEPARATOR then Ok(s.(codeSep := s.pc))
    else if op == OP_CHECKSIG || op == OP_CHECKSIGVERIFY then
      var st :- CheckSig(ctx, s, op == OP_CHECKSIGVERIFY);
      Ok(s.(stack := st))
    else if op == OP_CHECKDATASIG || op == OP_CHECKDATASIGVERIFY then
      var st :- CheckDataSig(ctx, s.stack, op == OP_CHECKDATASIGVERIFY);
      Ok(s.(stack := st))
    else if op == OP_CHECKMULTISIG || op == OP_CHECKMULTISIGVERIFY then
      var r :- Multisig.CheckMultisig(ctx, s.stack, s.ops, Subscript(ctx, s));
      var st :- Conclude(r.rest, r.ok, op == OP_CHECKMULTISIGVERIFY, CheckMultiSigVerify);
      Ok(s.(stack := st, ops := s.ops + r.keys))
    else
      var st :- OnStack(ctx, op, s.stack);
      Ok(s.(stack := st))
  }

  // ---------- conditionals and the whole step ----------

  predicate Executing(vf: seq<bool>) { false !in vf }

  predicate IsConditional(op: int) { OP_IF <= op <= OP_ENDIF }

  /** OP_IF and OP_NOTIF in an executing branch: the branch condition, popped. */
  function Condition(ctx: Context, op: int, s: Core): Result<(Core, bool)> {
    if |s.stack| < 1 then Fail(UnbalancedConditional)
    else
      var x := Top(s.stack, 1);
      if ctx.flags.minimalIf && (|x| > 1 || (|x| == 1 && x[0] != 1)) then Fail(MinimalIf)
      else Ok((s.(stack := Drop(s.stack, 1)), if op == OP_NOTIF then !Truthy(x) else Truthy(x)))
  }

  /** A conditional opcode, which runs in skipped branches too. */
  function Conditional(ctx: Context, op: int, s: Core, vf: seq<bool>): Result<State>
    requires IsConditional(op)
  {
    if op == OP_IF || op == OP_NOTIF then
      if Executing(vf) then
        var r :- Condition(ctx, op, s);
        Ok(State(r.0, vf + [r.1]))
      else Ok(State(s, vf + [false]))
    else if op == OP_ELSE then
      if vf == [] then Fail(UnbalancedConditional)
      else Ok(State(s, Drop(vf, 1) + [!Top(vf, 1)]))
    else if op == OP_ENDIF then
      if vf == [] then Fail(UnbalancedConditional)
      else Ok(State(s, Drop(vf, 1)))
    else Fail(BadOpcode)
  }

  /** What an unconditional chunk does in an executing branch, after Fetch. */
  function Plain(ctx: Context, c: Chunk, s: Core): Result<Core>
    requires c.Chunk?
  {
    if IsPush(c.op) then Push(ctx, c, s) else Execute(ctx, c.op, s)
  }

  function Step(ctx: Context, s: State): Result<State>
    requires s.core.pc < |ctx.script|
  {
    var c := ctx.script[s.core.pc];
    var core :- Fetch(ctx, c, s.core);
    if IsConditional(c.op) then Conditional(ctx, c.op, core, s.vfExec)
    else if Executing(s.vfExec) then
      var core' :- Plain(ctx, c, core);
      Ok(State(core', s.vfExec))
    else Ok(State(core, s.vfExec))
  }

  /** Steps until pc reaches end. */
  function RunTo(ctx: Context, s: State, end: nat): Result<State>
    requires s.core.pc <= end <= |ctx.script|
    decreases end - s.core.pc
  {
    if s.core.pc == end then Ok(s)
    else
      var s' :- Step(ctx, s);
      StepAdvances(ctx, s);
      RunTo(ctx, s', end)
  }

  lemma StepAdvances(ctx: Context, s: State)
    requires s.core.pc < |ctx.script|
    ensures Step(ctx, s).Ok? ==> Step(ctx, s).value.core.pc == s.core.pc + 1
  {
  }

  function Start(stack: seq<Bytes>): State {
    State(Core(stack, [], 0, 0, 0), [])
  }

  /** Interpreter.prototype.evaluate from a fresh machine; scriptSize is the serialized length. */
  function Evaluate(ctx: Context, stack: seq<Bytes>, scriptSize: nat): Option<seq<Bytes>> {
    if scriptSize > 10000 then None
    else
      match RunTo(ctx, Start(stack), |ctx.script|)
      case Fail(_) => None
      case Ok(s) =>
        if |s.core.stack| + |s.core.alt| > MAX_STACK || s.vfExec != [] then None
        else Some(s.core.stack)
  }
}
