/** What the arithmetic opcodes leave on the stack, in terms of the integers that their operands stand for. */
module NumberOpcodes {
  import opened Bytes
  import opened ScriptNum
  import opened Opcode
  import opened Script
  import opened Machine

  /** The opcode succeeded, and put one item on st: the minimal encoding of v. */
  predicate Leaves(r: Result<seq<Bytes>>, st: seq<Bytes>, v: int) {
    r.Ok? && |r.value| == |st| + 1 && r.value[..|st|] == st && Minimal(r.value[|st|]) && Decode(r.value[|st|]) == v
  }

  predicate LeavesTruth(r: Result<seq<Bytes>>, st: seq<Bytes>, b: bool) { Leaves(r, st, if b then 1 else 0) }

  /** What passes for a number: at most four bytes, or eight with 64-bit integers, and minimal when that is asked. */
  predicate Operand(flags: Flags, x: Bytes) {
    |x| <= (if flags.integers64 then 8 else 4) && (flags.minimalData ==> Minimal(x))
  }

  predicate Fits64(v: int) { -0x7fff_ffff_ffff_ffff <= v <= 0x7fff_ffff_ffff_ffff }

  // ---------- from the bytes to the operation ----------

  lemma EncodedLeaves(st: seq<Bytes>, v: int)
    ensures Leaves(Ok(st + [Encode(v)]), st, v)
  {
    hide Encode, Decode, Minimal;
    DecodeEncode(v);
    assert (st + [Encode(v)])[..|st|] == st;
  }

  lemma OperandReads(flags: Flags, x: Bytes)
    ensures ReadNumber(x, flags.minimalData, flags.MaxIntegerSize()) ==
            if Operand(flags, x) then Ok(Decode(x)) else Fail(Thrown)
  {
    hide Decode, Minimal;
  }

  lemma BinaryLeaves(ctx: Context, op: int, st: seq<Bytes>, x: Bytes, y: Bytes)
    requires IsBinary(op) && op != OP_NUMEQUALVERIFY && Operand(ctx.flags, x) && Operand(ctx.flags, y)
    ensures var v := Binary(op, Decode(x), Decode(y), ctx.flags.MaxIntegerSize());
            if v.Ok? then Leaves(OnStack(ctx, op, st + [x, y]), st, v.value) else OnStack(ctx, op, st + [x, y]).Fail?
  {
    hide Binary, Encode, Decode, Minimal, Operand, Leaves, ReadNumber;
    TwoOperands(ctx, op, st, x, y);
    OperandReads(ctx.flags, x);
    OperandReads(ctx.flags, y);
    var v := Binary(op, Decode(x), Decode(y), ctx.flags.MaxIntegerSize());
    if v.Ok? { EncodedLeaves(st, v.value); }
  }

  lemma TwoOperands(ctx: Context, op: int, st: seq<Bytes>, x: Bytes, y: Bytes)
    requires IsBinary(op)
    ensures OnStack(ctx, op, st + [x, y]) == OnTwo(ctx, op, st, x, y)
  {
    hide OnTwo;
    assert Drop(st + [x, y], 2) == st;
  }

  lemma UnaryLeaves(ctx: Context, op: int, st: seq<Bytes>, x: Bytes)
    requires IsUnary(op) && Operand(ctx.flags, x)
    ensures var v := Unary(op, Decode(x), ctx.flags.MaxIntegerSize());
            if v.Ok? then Leaves(OnStack(ctx, op, st + [x]), st, v.value) else OnStack(ctx, op, st + [x]).Fail?
  {
    hide Unary, Encode, Decode, Minimal, Operand, Leaves, ReadNumber;
    OneOperand(ctx, op, st, x);
    OperandReads(ctx.flags, x);
    var v := Unary(op, Decode(x), ctx.flags.MaxIntegerSize());
    if v.Ok? { EncodedLeaves(st, v.value); }
  }

  lemma OneOperand(ctx: Context, op: int, st: seq<Bytes>, x: Bytes)
    requires IsUnary(op)
    ensures OnStack(ctx, op, st + [x]) == OnOne(ctx, op, st, x)
  {
    hide OnOne;
    assert Drop(st + [x], 1) == st;
  }

  /** The overflow check lets through exactly what 64 bits hold, whether the operands had four bytes or eight. */
  lemma OverflowIff(flags: Flags, x: Bytes, y: Bytes, v: int)
    requires Operand(flags, x) && Operand(flags, y)
    ensures CheckedResult(Decode(x), Decode(y), v, flags.MaxIntegerSize()) == if Fits64(v) then Value(v) else Overflow
  {
    hide Encode, Decode, Minimal, GetSize, Pow256;
    var k := flags.MaxIntegerSize();
    Pow256Seven();
    DecodedMagnitude(x, k);
    DecodedMagnitude(y, k);
    EncodedLength(Decode(x), k);
    EncodedLength(Decode(y), k);
    EncodedLength(v, 8);
    SizeIsEncodedLength(Decode(x), k);
    SizeIsEncodedLength(Decode(y), k);
    SizeIsEncodedLength(v, 8);
  }

  // ---------- the laws ----------

  /** Nothing is calculated with an operand that is not a number. */
  lemma OnlyNumbers(ctx: Context, op: int, st: seq<Bytes>, x: Bytes, y: Bytes)
    requires !Operand(ctx.flags, x) || !Operand(ctx.flags, y)
    ensures IsBinary(op) ==> OnStack(ctx, op, st + [x, y]).Fail?
    ensures IsUnary(op) && !Operand(ctx.flags, y) ==> OnStack(ctx, op, st + [x, y]).Fail?
  {
    hide Binary, Unary, Decode, Minimal, Operand, ReadNumber;
    OperandReads(ctx.flags, x);
    OperandReads(ctx.flags, y);
    if IsBinary(op) { TwoOperands(ctx, op, st, x, y); }
    if IsUnary(op) {
      OneOperand(ctx, op, st + [x], y);
      assert st + [x, y] == st + [x] + [y];
    }
  }

  /** Sums, differences and products are exact as long as they fit 64 bits, and refused otherwise. */
  lemma SumDifferenceProduct(ctx: Context, st: seq<Bytes>, x: Bytes, y: Bytes)
    requires Operand(ctx.flags, x) && Operand(ctx.flags, y)
    ensures var r, v := OnStack(ctx, OP_ADD, st + [x, y]), Decode(x) + Decode(y);
            if Fits64(v) then Leaves(r, st, v) else r.Fail?
    ensures var r, v := OnStack(ctx, OP_SUB, st + [x, y]), Decode(x) - Decode(y);
            if Fits64(v) then Leaves(r, st, v) else r.Fail?
    ensures var r, v := OnStack(ctx, OP_MUL, st + [x, y]), Decode(x) * Decode(y);
            if Fits64(v) then Leaves(r, st, v) else r.Fail?
  {
    hide OnStack, Decode, Operand, Leaves, CheckedResult, Fits64;
    BinaryLeaves(ctx, OP_ADD, st, x, y);
    BinaryLeaves(ctx, OP_SUB, st, x, y);
    BinaryLeaves(ctx, OP_MUL, st, x, y);
    OverflowIff(ctx.flags, x, y, Decode(x) + Decode(y));
    OverflowIff(ctx.flags, x, y, Decode(x) - Decode(y));
    OverflowIff(ctx.flags, x, y, Decode(x) * Decode(y));
  }

  lemma Increments(ctx: Context, st: seq<Bytes>, x: Bytes)
    requires Operand(ctx.flags, x)
    ensures var r, v := OnStack(ctx, OP_1ADD, st + [x]), Decode(x) + 1; if Fits64(v) then Leaves(r, st, v) else r.Fail?
    ensures var r, v := OnStack(ctx, OP_1SUB, st + [x]), Decode(x) - 1; if Fits64(v) then Leaves(r, st, v) else r.Fail?
  {
    hide OnStack, Operand, Leaves, CheckedResult, Fits64, Decode;
    UnaryLeaves(ctx, OP_1ADD, st, x);
    UnaryLeaves(ctx, OP_1SUB, st, x);
    OneIsOperand(ctx.flags);
    OverflowIff(ctx.flags, x, [1], Decode(x) + 1);
    OverflowIff(ctx.flags, x, [1], Decode(x) - 1);
  }

  lemma OneIsOperand(flags: Flags)
    ensures Operand(flags, [1]) && Decode([1]) == 1
  {
  }

  /** Division truncates toward zero: q and r are the quotient and the remainder that takes the sign of the dividend. */
  lemma QuotientRemainder(ctx: Context, st: seq<Bytes>, x: Bytes, y: Bytes) returns (q: int, r: int)
    requires Operand(ctx.flags, x) && Operand(ctx.flags, y)
    ensures Decode(y) == 0 ==> OnStack(ctx, OP_DIV, st + [x, y]).Fail? && OnStack(ctx, OP_MOD, st + [x, y]).Fail?
    ensures Decode(y) != 0 ==>
              Leaves(OnStack(ctx, OP_DIV, st + [x, y]), st, q) && Leaves(OnStack(ctx, OP_MOD, st + [x, y]), st, r)
    ensures Decode(y) != 0 ==>
              Decode(x) == q * Decode(y) + r && Abs(r) < Abs(Decode(y)) && (r == 0 || (r < 0 <==> Decode(x) < 0))
  {
    hide OnStack, Decode, Operand, Leaves, TruncDiv, TruncMod;
    q, r := 0, 0;
    BinaryLeaves(ctx, OP_DIV, st, x, y);
    BinaryLeaves(ctx, OP_MOD, st, x, y);
    if Decode(y) != 0 {
      TruncatedDivision(Decode(x), Decode(y));
      TruncatedRemainder(Decode(x), Decode(y));
      q, r := TruncDiv(Decode(x), Decode(y)), TruncMod(Decode(x), Decode(y));
    }
  }

  /** Comparisons leave 1 or 0. */
  lemma Comparisons(ctx: Context, st: seq<Bytes>, x: Bytes, y: Bytes)
    requires Operand(ctx.flags, x) && Operand(ctx.flags, y)
    ensures LeavesTruth(OnStack(ctx, OP_NUMEQUAL, st + [x, y]), st, Decode(x) == Decode(y))
    ensures LeavesTruth(OnStack(ctx, OP_NUMNOTEQUAL, st + [x, y]), st, Decode(x) != Decode(y))
    ensures LeavesTruth(OnStack(ctx, OP_LESSTHAN, st + [x, y]), st, Decode(x) < Decode(y))
    ensures LeavesTruth(OnStack(ctx, OP_GREATERTHAN, st + [x, y]), st, Decode(x) > Decode(y))
    ensures LeavesTruth(OnStack(ctx, OP_LESSTHANOREQUAL, st + [x, y]), st, Decode(x) <= Decode(y))
    ensures LeavesTruth(OnStack(ctx, OP_GREATERTHANOREQUAL, st + [x, y]), st, Decode(x) >= Decode(y))
  {
    hide OnStack, Decode, Operand, Leaves;
    BinaryLeaves(ctx, OP_NUMEQUAL, st, x, y);
    BinaryLeaves(ctx, OP_NUMNOTEQUAL, st, x, y);
    BinaryLeaves(ctx, OP_LESSTHAN, st, x, y);
    BinaryLeaves(ctx, OP_GREATERTHAN, st, x, y);
    BinaryLeaves(ctx, OP_LESSTHANOREQUAL, st, x, y);
    BinaryLeaves(ctx, OP_GREATERTHANOREQUAL, st, x, y);
  }

  /** The smaller and the larger operand, and the two truth functions. */
  lemma ExtremesAndTruth(ctx: Context, st: seq<Bytes>, x: Bytes, y: Bytes) returns (low: int, high: int)
    requires Operand(ctx.flags, x) && Operand(ctx.flags, y)
    ensures Leaves(OnStack(ctx, OP_MIN, st + [x, y]), st, low) && Leaves(OnStack(ctx, OP_MAX, st + [x, y]), st, high)
    ensures low <= high && {low, high} == {Decode(x), Decode(y)}
    ensures LeavesTruth(OnStack(ctx, OP_BOOLAND, st + [x, y]), st, Decode(x) != 0 && Decode(y) != 0)
    ensures LeavesTruth(OnStack(ctx, OP_BOOLOR, st + [x, y]), st, Decode(x) != 0 || Decode(y) != 0)
  {
    hide OnStack, Decode, Operand, Leaves;
    BinaryLeaves(ctx, OP_MIN, st, x, y);
    BinaryLeaves(ctx, OP_MAX, st, x, y);
    BinaryLeaves(ctx, OP_BOOLAND, st, x, y);
    BinaryLeaves(ctx, OP_BOOLOR, st, x, y);
    var a, b := Decode(x), Decode(y);
    low, high := if a < b then a else b, if a > b then a else b;
  }

  lemma SignsAndZero(ctx: Context, st: seq<Bytes>, x: Bytes)
    requires Operand(ctx.flags, x)
    ensures Leaves(OnStack(ctx, OP_NEGATE, st + [x]), st, 0 - Decode(x))
    ensures Leaves(OnStack(ctx, OP_ABS, st + [x]), st, if Decode(x) < 0 then 0 - Decode(x) else Decode(x))
    ensures LeavesTruth(OnStack(ctx, OP_NOT, st + [x]), st, Decode(x) == 0)
    ensures LeavesTruth(OnStack(ctx, OP_0NOTEQUAL, st + [x]), st, Decode(x) != 0)
  {
    hide OnStack, Decode, Operand, Leaves;
    UnaryLeaves(ctx, OP_NEGATE, st, x);
    UnaryLeaves(ctx, OP_ABS, st, x);
    UnaryLeaves(ctx, OP_NOT, st, x);
    UnaryLeaves(ctx, OP_0NOTEQUAL, st, x);
  }

  /** OP_WITHIN: the lower bound belongs to the interval, the upper one does not. */
  lemma WithinLeaves(ctx: Context, st: seq<Bytes>, x: Bytes, low: Bytes, high: Bytes)
    requires Operand(ctx.flags, x) && Operand(ctx.flags, low) && Operand(ctx.flags, high)
    ensures LeavesTruth(OnStack(ctx, OP_WITHIN, st + [x, low, high]), st, Decode(low) <= Decode(x) < Decode(high))
  {
    hide Decode, Operand, ReadNumber, Minimal, Leaves;
    OperandReads(ctx.flags, x);
    OperandReads(ctx.flags, low);
    OperandReads(ctx.flags, high);
    assert Drop(st + [x, low, high], 3) == st;
    var b := Decode(low) <= Decode(x) < Decode(high);
    assert Encode(1) == [1] && Encode(0) == [];
    EncodedLeaves(st, if b then 1 else 0);
  }

  /** The numbers that have opcodes of their own, and the ones that measure. */
  lemma Constants(ctx: Context, st: seq<Bytes>, x: Bytes, n: int)
    requires 1 <= n <= 16
    ensures Leaves(OnStack(ctx, OP_1NEGATE, st), st, -1)
    ensures Leaves(OnStack(ctx, OP_1 + n - 1, st), st, n)
    ensures Leaves(OnStack(ctx, OP_DEPTH, st), st, |st|)
    ensures Leaves(OnStack(ctx, OP_SIZE, st + [x]), st + [x], |x|)
  {
    hide Decode, Leaves, Minimal, Encode;
    EncodedLeaves(st, -1);
    EncodedLeaves(st, |st|);
    EncodedLeaves(st + [x], |x|);
    assert Drop(st + [x], 1) + [x, Encode(|x|)] == st + [x] + [Encode(|x|)];
    EncodedLeaves(st, n);
  }
}
