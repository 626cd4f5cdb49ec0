/** What the opcodes that write in place leave behind in the memory of the operand they write. */
module Overwriting {
  import opened Bytes
  import opened ScriptNum
  import opened NumBuffers
  import opened Opcode
  import opened Machine
  import opened Widening

  predicate IsBitwise(op: int) { op == OP_AND || op == OP_OR || op == OP_XOR }

  /** How many operands an in-place opcode has; the deepest is the one it writes. */
  function Taken(op: int): nat { if op == OP_BIN2NUM then 1 else 2 }

  /**
   * The first n bytes that the bitwise loop writes over x. If y lies in the same memory, lag bytes
   * below x, the loop comes to read bytes that it has already written.
   */
  function RunOver(op: int, x: Bytes, y: Bytes, lag: nat, n: nat): (w: Bytes)
    requires n <= |x| == |y|
    ensures |w| == n
  {
    if n == 0 then []
    else
      var w := RunOver(op, x, y, lag, n - 1);
      w + [BitOp(op, x[n - 1], if 0 < lag < n then w[n - 1 - lag] else y[n - 1])]
  }

  /** How far b starts below a, when both are views of one memory. */
  function Lag(same: bool, a: nat, b: nat): nat { if same && b < a then a - b else 0 }

  /** Without such an overlap the loop computes the bitwise operation. */
  lemma {:induction false} RunOverIsBitwise(op: int, x: Bytes, y: Bytes, lag: nat, n: nat)
    requires n <= |x| == |y| && (lag == 0 || lag >= n)
    ensures RunOver(op, x, y, lag, n) == Bitwise(op, x, y)[..n]
  {
    hide BitOp;
    if n > 0 { RunOverIsBitwise(op, x, y, lag, n - 1); }
  }

  /** OP_NUM2BIN: a sign copied downwards stays there only if nothing is padded. */
  function AfterResize(x: Bytes, size: int): (r: Bytes)
    ensures |r| == |x|
  {
    if |Encode(Decode(x))| >= size then Tidied(x) else if Minimal(x) then Unsigned(x) else x
  }

  /** The bytes of the written operand x after the opcode; y is the item above it. */
  function LeftBehind(op: int, x: Bytes, y: Bytes, lag: nat): (r: Bytes)
    ensures |r| == |x|
  {
    if op == OP_BIN2NUM then Tidied(x)
    else if op == OP_NUM2BIN then AfterResize(x, Decode(y))
    else if |x| == |y| then RunOver(op, x, y, lag, |x|)
    else x
  }

  /** Where the canonical encoding is found in the tidied operand. */
  lemma TidyReads(x: Bytes)
    ensures var raw := Encode(Decode(x));
            if Minimal(x) then raw == x == Tidied(x)
            else if Decode(x) == 0 then raw == []
            else |raw| <= |x| && Tidied(x)[..|raw|] == raw
  {
    hide Encode, Decode, Minimal, Tidied;
    if Minimal(x) {
      EncodeDecode(x);
      TidiedIff(x);
    } else if Decode(x) == 0 {
      EncodeZero();
    } else {
      SignGoesBack(x);
    }
  }

  /** The number opcodes return a buffer of their own: for a padded number, and for zero written at length. */
  predicate CopiesNumber(x: Bytes, size: int) {
    |Encode(Decode(x))| < size || (!Minimal(x) && Decode(x) == 0)
  }

  /** OP_NUM2BIN to a larger size keeps its operand exactly when that is not a canonical negative number. */
  lemma WideningKeepsIff(x: Bytes, size: int)
    requires |Encode(Decode(x))| < size
    ensures AfterResize(x, size) == x <==> !Minimal(x) || Decode(x) >= 0
    ensures Decode(AfterResize(x, size)) == if Minimal(x) then Abs(Decode(x)) else Decode(x)
  {
    UnsignedDecode(x);
    if Minimal(x) { UnsignedKeepsIff(x); }
  }

  lemma UnsignedKeepsIff(x: Bytes)
    requires Minimal(x)
    ensures Unsigned(x) == x <==> Decode(x) >= 0
  {
    hide Decode;
    UnsignedDecode(x);
    NegativeTop(x);
  }

  lemma NegativeTop(x: Bytes)
    requires Minimal(x)
    ensures Decode(x) < 0 <==> x != [] && x[|x| - 1] >= 128
  {
    if x != [] {
      ZerosValue(x[..|x| - 1] + [x[|x| - 1] % 128]);
      var m := x[..|x| - 1] + [x[|x| - 1] % 128];
      if x[|x| - 1] % 128 == 0 { assert m[|x| - 2] == x[|x| - 2]; } else { assert m[|x| - 1] != 0; }
    }
  }
}
