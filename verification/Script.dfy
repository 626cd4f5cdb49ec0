/** Scripts as chunk sequences, the evaluation flags, and the world a script is evaluated in. */
module Script {
  import opened Bytes
  import opened ScriptNum
  import opened Opcode

  /** A parsed script element. Undefined is a chunk without an opcode number. */
  datatype Chunk = Undefined(data: Option<Bytes>) | Chunk(op: int, data: Option<Bytes>, len: int)

  datatype Option<+T> = None | Some(value: T)

  datatype Error =
    | UndefinedOpcode | PushSize | OpCount | DisabledOpcode | MinimalData | Thrown | BadOpcode
    | DiscourageUpgradableNops | InvalidStackOperation | InvalidAltstackOperation
    | NegativeLocktime | UnsatisfiedLocktime | UnbalancedConditional | MinimalIf | VerifyFailed | OpReturn
    | InvalidOperandSize | EqualVerify | DivByZero | NumEqualVerify | Encoding | NullFail
    | CheckSigVerify | CheckDataSigVerify | CheckMultiSigVerify | PubkeyCount | SigCount | SigNullDummy
    | InvalidSplitRange | ImpossibleEncoding | InvalidNumberRange

  datatype Result<+T> = Ok(value: T) | Fail(error: Error) {
    predicate IsFailure() { Fail? }
    function PropagateFailure<U>(): Result<U> requires Fail? { Fail(error) }
    function Extract(): T requires Ok? { value }
  }

  /** The SCRIPT_* bits that step reads. */
  datatype Flags = Flags(
    minimalData: bool, integers64: bool, minimalIf: bool, nullFail: bool, nullDummy: bool,
    discourageNops: bool, checkLockTime: bool, checkSequence: bool, schnorrMultisig: bool)
  {
    function MaxIntegerSize(): nat { if integers64 then 8 else 4 }
  }

  /** One attempted signature check: the code threw, or came to a verdict. */
  datatype Trial = Threw | Verdict(ok: bool)

  /** Everything step calls into: hashes, encoding rules, signature checks, the transaction's lock time. */
  datatype Env = Env(
    ripemd160: Bytes -> Bytes, sha1: Bytes -> Bytes, sha256: Bytes -> Bytes,
    hash160: Bytes -> Bytes, hash256: Bytes -> Bytes,
    txSigEncoded: Bytes -> bool, dataSigEncoded: Bytes -> bool, pubkeyEncoded: Bytes -> bool,
    // signature, key, script from the last code separator, signatures deleted from that script
    txSigValid: (Bytes, Bytes, seq<Chunk>, seq<Bytes>) -> bool,
    schnorrTxSig: (Bytes, Bytes, seq<Chunk>) -> Trial,
    dataSigValid: (Bytes, Bytes, Bytes) -> bool,
    lockTimeReached: int -> bool)

  datatype Context = Context(script: seq<Chunk>, flags: Flags, env: Env)

  const MAX_SCRIPT_ELEMENT_SIZE := 520
  const MAX_OPS := 201
  const MAX_STACK := 1000

  const TRUE: Bytes := [1]
  const FALSE: Bytes := []

  function Bool(b: bool): Bytes { if b then TRUE else FALSE }

  predicate Truthy(b: Bytes) { Decode(b) != 0 }

  /** BN.fromScriptNumBuffer, which throws on long or, when asked to, on non-minimal input. */
  function ReadNumber(b: Bytes, requireMinimal: bool, maxSize: nat): Result<int> {
    if |b| > maxSize || (requireMinimal && !Minimal(b)) then Fail(Thrown)
    else Ok(Decode(b))
  }

  /** Script.prototype.checkMinimalPush */
  predicate MinimalPush(c: Chunk)
    requires c.Chunk?
  {
    c.data.None? ||
    var d := c.data.value;
    if d == [] then c.op == OP_0
    else if |d| == 1 && (1 <= d[0] <= 16 || d[0] == 0x81) then false
    else if |d| <= 75 then c.op == |d|
    else if |d| <= 255 then c.op == OP_PUSHDATA1
    else if |d| <= 65535 then c.op == OP_PUSHDATA2
    else true
  }

  predicate IsDisabled(op: int, flags: Flags) {
    op == OP_INVERT || op == OP_2MUL || op == OP_2DIV || op == OP_LSHIFT || op == OP_RSHIFT ||
    (op == OP_MUL && !flags.integers64)
  }

  /** The i-th item from the top, counted from 1. */
  function Top<T>(st: seq<T>, i: int): T
    requires 1 <= i <= |st|
  {
    st[|st| - i]
  }

  function Drop<T>(st: seq<T>, n: int): (r: seq<T>)
    requires 0 <= n <= |st|
    ensures |r| == |st| - n
  {
    st[..|st| - n]
  }
}
