/**
 * The interpreter as the object the source has: stacks of buffers that may share memory, fields
 * that step reassigns, loops over counters. Every method is proved against the value machine.
 */
module Interpreter {
  import opened Bytes
  import opened ScriptNum
  import opened NumBuffers
  import opened Opcode
  import opened Script
  import opened Machine
  import opened Bitfield
  import opened Widening
  import opened Overwriting
  import opened SharedMachine
  import opened SharingLaws
  import opened SharingRuns
  import opened StepShapes
  import opened Views
  import opened BufferShapes
  import opened Naming
  import opened OpcodeCases
  import Multisig

  class Interpreter {
    var stack: seq<Buf>
    var altstack: seq<Buf>
    var vfExec: seq<bool>
    var pc: nat
    var pbegincodehash: nat
    var nOpCount: nat
    const chunks: seq<BufChunk>
    const flags: Flags
    const env: Env
    /** Interpreter.true and Interpreter.false: two buffers that all results share. */
    const trueBuf: Buf
    const falseBuf: Buf

    ghost function Memory(): set<array<Byte>>
      reads `stack, `altstack
    {
      Mems(stack) + Mems(altstack) + ChunkMems(chunks) + {trueBuf.mem, falseBuf.mem}
    }

    /** Every view lies inside its memory. */
    ghost predicate Valid()
      reads `stack, `altstack
    {
      && AllValid(stack) && AllValid(altstack) && ChunksValid(chunks)
      && trueBuf.Valid() && falseBuf.Valid() && falseBuf.Len() == 0
    }

    /** Interpreter.true still holds the byte 1. */
    ghost predicate Intact()
      reads trueBuf.mem
    {
      trueBuf.Valid() && trueBuf.Data() == TRUE
    }

    ghost function V(): (r: seq<Bytes>)
      requires Valid()
      reads `stack, `altstack, Memory()
      ensures |r| == |stack|
    {
      DataOf(stack)
    }

    ghost function Ctx(): Context
      requires Valid()
      reads `stack, `altstack, Memory()
    {
      Context(ScriptData(chunks), flags, env)
    }

    // ---------- moving buffers ----------

    method PushBuf(b: Buf)
      requires Valid() && b.Valid()
      modifies this`stack
      ensures Valid() && stack == old(stack) + [b] && V() == old(V()) + [b.Data()]
      ensures Memory() <= old(Memory()) + {b.mem} && Alt() == old(Alt()) && Ctx() == old(Ctx())
    {
      hide ScriptData;
      stack := stack + [b];
    }

    method PushNew(d: Bytes)
      requires Valid()
      modifies this`stack
      ensures forall m :: m in Memory() ==> m in old(Memory()) || fresh(m)
      ensures Valid() && V() == old(V()) + [d]
      ensures OneMade(old(stack), stack) && |stack| == |old(stack)| + 1 && fresh(Top(stack, 1).mem)
    {
      var b := FromBytes(d);
      PushBuf(b);
    }

    method Pop()
      requires Valid() && |stack| >= 1
      modifies this`stack
      ensures Memory() <= old(Memory())
      ensures Valid() && stack == Drop(old(stack), 1) && V() == Drop(old(V()), 1)
      ensures Alt() == old(Alt()) && Ctx() == old(Ctx())
    {
      hide ScriptData;
      stack := stack[..|stack| - 1];
    }

    /** stacktop(-i) */
    function StackTop(i: nat): (b: Buf)
      requires Valid() && 1 <= i <= |stack|
      reads `stack, `altstack, Memory()
      ensures b.Valid() && b.Data() == Top(V(), i)
    {
      stack[|stack| - i]
    }

    lemma ItemInMemory()
      requires Valid() && |stack| >= 1
      ensures Top(stack, 1).mem in Memory() && StackTop(1) == Top(stack, 1)
    {
    }

    method TopIsTrue() returns (b: bool)
      requires Valid() && |stack| >= 1
      ensures Valid() && V() == old(V()) && Alt() == old(Alt()) && Ctx() == old(Ctx()) && b == Truthy(Top(V(), 1))
    {
      hide Decode, ScriptData;
      b := CastToBool(stack[|stack| - 1]);
    }

    /** Interpreter.true or Interpreter.false on the stack; the -VERIFY forms take it off again or fail. */
    method PushVerdict(ok: bool, verify: bool, ghost e: Error) returns (r: bool)
      requires Valid()
      modifies this`stack
      ensures forall m :: m in Memory() ==> m in old(Memory()) || fresh(m)
      ensures Valid() && r == Conclude(old(V()), ok, verify, e).Ok?
      ensures r ==> stack == if verify then old(stack) else old(stack) + [if ok then trueBuf else falseBuf]
      ensures r && Intact() ==> V() == Conclude(old(V()), ok, verify, e).value
    {
      PushBuf(if ok then trueBuf else falseBuf);
      assert falseBuf.Data() == FALSE;
      if verify {
        if !ok { return false; }
        Pop();
      }
      return true;
    }

    /** BN.fromScriptNumBuffer(stacktop(-i)) */
    method NumberAt(i: nat, max: nat) returns (r: Option<int>)
      requires Valid() && 1 <= i <= |stack|
      ensures Valid() && V() == old(V()) && ScriptCode() == old(ScriptCode()) && Ctx() == old(Ctx())
      ensures r == Optional(ReadNumber(Top(V(), i), flags.minimalData, max))
    {
      hide ReadNumber, V, DataOf;
      r := ReadItem(i, max);
    }

    method ReadItem(i: nat, max: nat) returns (r: Option<int>)
      requires Valid() && 1 <= i <= |stack|
      ensures V() == old(V()) && r == Optional(ReadNumber(Top(V(), i), flags.minimalData, max))
    {
      hide ReadNumber, ScriptData;
      r := FromScriptNumBuffer(stack[|stack| - i], flags.minimalData, max);
    }

    // ---------- stack opcodes ----------

    /** The stack opcodes, as pushes, pops and splices that never look inside a buffer. */
    method ShuffleItems(op: int) returns (ok: bool)
      requires IsShuffle(op)
      modifies this`stack
      ensures Agrees(Shuffle(op, old(stack)), ok, stack)
      ensures !ok ==> stack == old(stack)
    {
      hide Picture, Arity, IsShuffle;
      ArityCases(op);
      if |stack| < Arity(op) { return false; }
      if op == OP_DROP || op == OP_2DROP || op == OP_NIP {
        DropItems(op);
      } else if op == OP_DUP || op == OP_2DUP || op == OP_3DUP {
        DupItems(op);
      } else if op == OP_SWAP || op == OP_ROT {
        SwapItems(op);
      } else if op == OP_2ROT {
        TwoRot();
      } else if op == OP_2SWAP {
        TwoSwap();
      } else if op == OP_2OVER {
        TwoOver();
      } else if op == OP_OVER {
        Over();
      } else {
        Tuck();
      }
      return true;
    }

    method DropItems(op: int)
      requires op == OP_DROP || op == OP_2DROP || op == OP_NIP
      requires |stack| >= Arity(op)
      modifies this`stack
      ensures stack == Drop(old(stack), Arity(op)) + Picture(op, old(stack)[|old(stack)| - Arity(op)..])
    {
      var n := |stack|;
      if op == OP_DROP {
        stack := stack[..n - 1];
      } else if op == OP_2DROP {
        stack := stack[..n - 1];
        stack := stack[..n - 2];
      } else {
        stack := stack[..n - 2] + stack[n - 1..];
      }
    }

    method DupItems(op: int)
      requires op == OP_DUP || op == OP_2DUP || op == OP_3DUP
      requires |stack| >= Arity(op)
      modifies this`stack
      ensures stack == Drop(old(stack), Arity(op)) + Picture(op, old(stack)[|old(stack)| - Arity(op)..])
    {
      var n := |stack|;
      if op == OP_DUP {
        stack := stack + [stack[n - 1]];
      } else if op == OP_2DUP {
        stack := stack + [stack[n - 2]] + [stack[n - 1]];
      } else {
        stack := stack + [stack[n - 3]] + [stack[n - 2]] + [stack[n - 1]];
      }
    }

    method Over()
      requires |stack| >= 2
      modifies this`stack
      ensures stack == Drop(old(stack), 2) + Picture(OP_OVER, old(stack)[|old(stack)| - 2..])
    {
      stack := stack + [stack[|stack| - 2]];
    }

    method TwoOver()
      requires |stack| >= 4
      modifies this`stack
      ensures stack == Drop(old(stack), 4) + Picture(OP_2OVER, old(stack)[|old(stack)| - 4..])
    {
      var n := |stack|;
      stack := stack + [stack[n - 4]] + [stack[n - 3]];
    }

    method Tuck()
      requires |stack| >= 2
      modifies this`stack
      ensures stack == Drop(old(stack), 2) + Picture(OP_TUCK, old(stack)[|old(stack)| - 2..])
    {
      var n := |stack|;
      stack := stack[..n - 2] + [stack[n - 1]] + stack[n - 2..];
    }

    method SwapItems(op: int)
      requires op == OP_SWAP || op == OP_ROT
      requires |stack| >= Arity(op)
      modifies this`stack
      ensures stack == Drop(old(stack), Arity(op)) + Picture(op, old(stack)[|old(stack)| - Arity(op)..])
    {
      var n := |stack|;
      if op == OP_ROT {
        var x1, x2, x3 := stack[n - 3], stack[n - 2], stack[n - 1];
        stack := stack[n - 3 := x2];
        stack := stack[n - 2 := x3];
        stack := stack[n - 1 := x1];
      } else {
        var x1, x2 := stack[n - 2], stack[n - 1];
        stack := stack[n - 2 := x2];
        stack := stack[n - 1 := x1];
      }
    }

    method TwoRot()
      requires |stack| >= 6
      modifies this`stack
      ensures stack == Drop(old(stack), 6) + Picture(OP_2ROT, old(stack)[|old(stack)| - 6..])
    {
      var n := |stack|;
      var spliced := stack[n - 6..n - 4];
      stack := stack[..n - 6] + stack[n - 4..];
      stack := stack + [spliced[0]] + [spliced[1]];
    }

    method TwoSwap()
      requires |stack| >= 4
      modifies this`stack
      ensures stack == Drop(old(stack), 4) + Picture(OP_2SWAP, old(stack)[|old(stack)| - 4..])
    {
      var n := |stack|;
      var spliced := stack[n - 4..n - 2];
      stack := stack[..n - 4] + stack[n - 2..];
      stack := stack + [spliced[0]] + [spliced[1]];
    }

    method ShuffleStack(op: int) returns (ok: bool)
      requires Valid() && IsShuffle(op)
      modifies this`stack
      ensures forall m :: m in Memory() ==> m in old(Memory()) || fresh(m)
      ensures Valid() && Agrees(Shuffle(op, old(V())), ok, V()) && (ok ==> Shuffle(op, old(stack)) == Ok(stack))
    {
      hide Shuffle, IsShuffle;
      ghost var st, v := stack, V();
      ok := ShuffleItems(op);
      assert AllValid(st) && DataOf(st) == v;
      if ok { ShuffleData(op, st, stack); ShuffleMems(op, st, stack); } else { ShuffleFits(op, st); }
    }

    method PickRoll(op: int) returns (ok: bool)
      requires Valid() && (op == OP_PICK || op == OP_ROLL) && |stack| >= 2
      modifies this`stack
      ensures forall m :: m in Memory() ==> m in old(Memory()) || fresh(m)
      ensures Valid()
      ensures var n := ReadNumber(Top(old(V()), 1), flags.minimalData, 4);
              if n.Fail? then !ok
              else Agrees(PickOrRoll(op, Drop(old(V()), 1), n.value), ok, V()) &&
                   (ok ==> PickOrRoll(op, Drop(old(stack), 1), n.value) == Ok(stack))
    {
      hide ReadNumber, PickOrRoll;
      var r := NumberAt(1, 4);
      if r.None? { return false; }
      Pop();
      ghost var st, v := stack, V();
      ok := MoveUp(op, r.value);
      assert AllValid(st) && DataOf(st) == v;
      if ok { MoveData(op, st, r.value, stack); MoveMems(op, st, r.value, stack); } else { MoveFits(op, st, r.value); }
      assert Valid();
      assert v == Drop(old(V()), 1);
      assert Agrees(PickOrRoll(op, v, r.value), ok, V());
      assert ReadNumber(Top(old(V()), 1), flags.minimalData, 4) == Ok(r.value);
    }

    method MoveUp(op: int, n: int) returns (ok: bool)
      requires op == OP_PICK || op == OP_ROLL
      modifies this`stack
      ensures Agrees(PickOrRoll(op, old(stack), n), ok, stack)
      ensures !ok ==> stack == old(stack)
    {
      if n < 0 || n >= |stack| { return false; }
      var buf := stack[|stack| - n - 1];
      if op == OP_ROLL {
        stack := stack[..|stack| - n - 1] + stack[|stack| - n..];
      }
      stack := stack + [buf];
      return true;
    }

    // ---------- opcodes that compute a new item ----------

    method Hash(op: int) returns (ok: bool)
      requires Valid() && IsHash(op)
      modifies this`stack
      ensures forall m :: m in Memory() ==> m in old(Memory()) || fresh(m)
      ensures Valid()
      ensures if |old(stack)| < 1 then !ok
              else ok && V() == Drop(old(V()), 1) + [HashOf(op, env, Top(old(V()), 1))]
      ensures ok ==> OneMade(old(stack), stack) && fresh(Top(stack, 1).mem)
    {
      hide HashOf, Memory, Valid, V, OneMade;
      if |stack| < 1 { return false; }
      var h := HashOf(op, env, StackTop(1).Data());
      Pop();
      PushNew(h);
      OneMadeBelow(old(stack), 1, stack);
      return true;
    }

    method ReverseTop() returns (ok: bool)
      requires Valid()
      modifies this`stack
      ensures forall m :: m in Memory() ==> m in old(Memory()) || fresh(m)
      ensures Valid()
      ensures if |old(stack)| < 1 then !ok
              else ok && V() == Drop(old(V()), 1) + [Reversed(Top(old(V()), 1))]
      ensures ok ==> OneMade(old(stack), stack) && fresh(Top(stack, 1).mem)
    {
      hide Reversed, Memory, Valid, V, OneMade;
      if |stack| < 1 { return false; }
      var reversed := Reversed(StackTop(1).Data());
      Pop();
      PushNew(reversed);
      OneMadeBelow(old(stack), 1, stack);
      return true;
    }

    method OneNumber(op: int) returns (ok: bool)
      requires Valid() && IsUnary(op)
      modifies this`stack
      ensures forall m :: m in Memory() ==> m in old(Memory()) || fresh(m)
      ensures Valid()
      ensures Replaces(old(V()), 1, UnaryItems(flags, op, old(V())), ok, V())
      ensures ok ==> OneMade(old(stack), stack) && fresh(Top(stack, 1).mem)
    {
      hide UnaryOf, Encode, Memory, Valid, V, OneMade, UnaryItems;
      UnaryCases(flags, op, V());
      if |stack| < 1 { return false; }
      var r := UnaryAt(op);
      if r.None? { return false; }
      Pop();
      PushNumber(r.value);
      ReplacedBy(old(V()), 1, UnaryItems(flags, op, old(V())), Encode(r.value), V());
      OneMadeBelow(old(stack), 1, stack);
      return true;
    }

    method UnaryAt(op: int) returns (r: Option<int>)
      requires Valid() && IsUnary(op) && |stack| >= 1
      ensures Valid() && V() == old(V())
      ensures r == Optional(UnaryOf(flags, op, Top(V(), 1)))
    {
      hide ReadNumber, Unary;
      var max := flags.MaxIntegerSize();
      var bn := NumberAt(1, max);
      if bn.None? { return None; }
      return Optional(Unary(op, bn.value, max));
    }

    /** bn.toScriptNumBuffer() on the stack. */
    method PushNumber(n: int)
      requires Valid()
      modifies this`stack
      ensures forall m :: m in Memory() ==> m in old(Memory()) || fresh(m)
      ensures Valid() && V() == old(V()) + [Encode(n)]
      ensures OneMade(old(stack), stack) && |stack| == |old(stack)| + 1 && fresh(Top(stack, 1).mem)
    {
      var b := ToSM(n, true);
      PushBuf(b);
    }

    method TwoNumbers(op: int) returns (ok: bool)
      requires Valid() && IsBinary(op)
      modifies this`stack
      ensures forall m :: m in Memory() ==> m in old(Memory()) || fresh(m)
      ensures Valid()
      ensures Replaces(old(V()), 2, BinaryItems(flags, op, old(V())), ok, V())
      ensures ok ==> OneMade(old(stack), stack) && fresh(Top(stack, 1).mem)
    {
      hide BinaryOf, Encode, Memory, Valid, V, OneMade, BinaryItems;
      BinaryCases(flags, op, V());
      if |stack| < 2 { return false; }
      var r := BinaryAt(op);
      if r.None? { return false; }
      Pop();
      Pop();
      assert V() == Drop(old(V()), 2) && stack == Drop(old(stack), 2);
      PushNumber(r.value);
      ReplacedBy(old(V()), 2, BinaryItems(flags, op, old(V())), Encode(r.value), V());
      OneMadeBelow(old(stack), 2, stack);
      return true;
    }

    /** if castToBool(stacktop(-1)) then pop, else fail */
    method VerifyTop() returns (ok: bool)
      requires Valid()
      modifies this`stack
      ensures forall m :: m in Memory() ==> m in old(Memory()) || fresh(m)
      ensures Valid()
      ensures Replaces(old(V()), 1, if old(V()) == [] || !Truthy(Top(old(V()), 1)) then None else Some([]), ok, V())
      ensures ok ==> |old(stack)| >= 1 && stack == Drop(old(stack), 1)
    {
      hide Memory, Valid, V, Truthy;
      if |stack| < 1 { return false; }
      ok := TopIsTrue();
      if ok { Pop(); }
    }

    method BinaryAt(op: int) returns (r: Option<int>)
      requires Valid() && IsBinary(op) && |stack| >= 2
      ensures Valid() && V() == old(V())
      ensures r == Optional(BinaryOf(flags, op, Top(V(), 2), Top(V(), 1)))
    {
      hide ReadNumber, Binary;
      var max := flags.MaxIntegerSize();
      var bn1 := NumberAt(2, max);
      if bn1.None? { return None; }
      var bn2 := NumberAt(1, max);
      if bn2.None? { return None; }
      return Optional(Binary(op, bn1.value, bn2.value, max));
    }

    method Within() returns (ok: bool)
      requires Valid()
      modifies this`stack
      ensures forall m :: m in Memory() ==> m in old(Memory()) || fresh(m)
      ensures Valid() && ok == OnStack(old(Ctx()), OP_WITHIN, old(V())).Ok?
      ensures ok ==> stack == Judged(old(stack), OnStack(old(Ctx()), OP_WITHIN, old(V())).value, false, trueBuf,
                                     falseBuf)
    {
      hide Memory, Valid, V, Judged, OnStack, ReadNumber;
      WithinCases(Ctx(), V());
      if |stack| < 3 { return false; }
      var max := flags.MaxIntegerSize();
      var bn1 := NumberAt(3, max);
      if bn1.None? { return false; }
      var bn2 := NumberAt(2, max);
      if bn2.None? { return false; }
      var bn3 := NumberAt(1, max);
      if bn3.None? { return false; }
      Pop();
      Pop();
      Pop();
      assert V() == Drop(old(V()), 3) && stack == Drop(old(stack), 3);
      ok := PushVerdict(bn2.value <= bn1.value < bn3.value, false, BadOpcode);
      JudgedIs(old(stack), Drop(old(V()), 3), bn2.value <= bn1.value < bn3.value, false);
    }

    method Equal(op: int) returns (ok: bool)
      requires Valid() && (op == OP_EQUAL || op == OP_EQUALVERIFY)
      modifies this`stack
      ensures forall m :: m in Memory() ==> m in old(Memory()) || fresh(m)
      ensures Valid() && ok == OnStack(old(Ctx()), op, old(V())).Ok?
      ensures ok ==> stack == Judged(old(stack), OnStack(old(Ctx()), op, old(V())).value, op == OP_EQUALVERIFY,
                                     trueBuf, falseBuf)
    {
      hide Memory, Valid, V, Judged, OnStack, Conclude;
      EqualCases(Ctx(), op, V());
      if |stack| < 2 { return false; }
      var buf1 := StackTop(2);
      var buf2 := StackTop(1);
      var same := buf1.Data() == buf2.Data();
      Pop();
      Pop();
      assert V() == Drop(old(V()), 2) && stack == Drop(old(stack), 2);
      ok := PushVerdict(same, op == OP_EQUALVERIFY, EqualVerify);
      JudgedIs(old(stack), Drop(old(V()), 2), same, op == OP_EQUALVERIFY);
      ConcludeIs(Drop(old(V()), 2), same, op == OP_EQUALVERIFY, EqualVerify);
    }

    lemma JudgedIs(items: seq<Buf>, rest: seq<Bytes>, verdict: bool, verify: bool)
      requires |rest| <= |items|
      ensures Judged(items, rest + if verify then [] else [Bool(verdict)], verify, trueBuf, falseBuf) ==
              items[..|rest|] + if verify then [] else [if verdict then trueBuf else falseBuf]
    {
    }

    lemma DropThree<T>(s: seq<T>)
      requires |s| >= 3
      ensures Drop(Drop(Drop(s, 1), 1), 1) == Drop(s, 3)
    {
    }

    lemma DropIs<T>(s: seq<T>, n: nat)
      requires n <= |s|
      ensures Drop(s, n) == s[..|s| - n]
    {
    }

    lemma JudgedBy(items: seq<Buf>, rest: seq<Bytes>, verdict: bool, verify: bool, e: Error)
      requires |rest| <= |items|
      ensures var r := Conclude(rest, verdict, verify, e);
              r.Ok? ==>
                Judged(items, r.value, verify, trueBuf, falseBuf) ==
                items[..|rest|] + if verify then [] else [if verdict then trueBuf else falseBuf]
    {
      ConcludeIs(rest, verdict, verify, e);
      JudgedIs(items, rest, verdict, verify);
    }

    method Cat() returns (ok: bool)
      requires Valid()
      modifies this`stack
      ensures forall m :: m in Memory() ==> m in old(Memory()) || fresh(m)
      ensures Valid() && Agrees(OnStack(old(Ctx()), OP_CAT, old(V())), ok, V())
      ensures ok ==> OneMade(old(stack), stack) && fresh(Top(stack, 1).mem)
    {
      hide Memory, Valid, V, OnStack;
      CatCases(Ctx(), V());
      if |stack| < 2 { return false; }
      var buf1 := StackTop(2);
      var buf2 := StackTop(1);
      if buf1.Len() + buf2.Len() > MAX_SCRIPT_ELEMENT_SIZE { return false; }
      var joined := buf1.Data() + buf2.Data();
      Pop();
      Pop();
      PushNew(joined);
      assert V() == Drop(old(V()), 2) + [joined];
      return true;
    }

    method Split() returns (ok: bool)
      requires Valid()
      modifies this`stack
      ensures forall m :: m in Memory() ==> m in old(Memory()) || fresh(m)
      ensures Valid() && Agrees(OnStack(old(Ctx()), OP_SPLIT, old(V())), ok, V())
      ensures ok ==> |V()| >= 2 && HalvesMade(old(stack), stack, Top(V(), 2), Top(V(), 1)) && fresh(Top(stack, 1).mem)
      ensures ok ==> Top(stack, 1).mem[..] == Top(V(), 2) + Top(V(), 1)
    {
      hide Memory, Valid, V, OnStack, ReadNumber;
      SplitCases(Ctx(), V());
      if |stack| < 2 { return false; }
      var position := NumberAt(1, 4);
      if position.None? { return false; }
      var n := position.value;
      var buf1 := StackTop(2);
      if n < 0 || n > buf1.Len() { return false; }
      var data := buf1.Data();
      Pop();
      Pop();
      PushHalves(data, n);
      assert V() == Drop(old(V()), 2) + [data[..n], data[n..]];
      assert data == data[..n] + data[n..];
      return true;
    }

    /** One copy, and two views of it that share its memory. */
    method PushHalves(data: Bytes, n: nat)
      requires Valid() && n <= |data|
      modifies this`stack
      ensures forall m :: m in Memory() ==> m in old(Memory()) || fresh(m)
      ensures Valid() && V() == old(V()) + [data[..n]] + [data[n..]]
      ensures |stack| == |old(stack)| + 2 && Drop(stack, 2) == old(stack) && fresh(Top(stack, 1).mem)
      ensures Top(stack, 1).mem[..] == data && Top(stack, 2) == Buf(Top(stack, 1).mem, 0, n)
      ensures Top(stack, 1) == Buf(Top(stack, 1).mem, n, |data|)
    {
      var n1 := FromBytes(data);
      var left, right := n1.Prefix(n), Buf(n1.mem, n1.lo + n, n1.hi);
      assert right.Data() == n1.Data()[n..];
      PushBuf(left);
      PushBuf(right);
    }

    /** OP_1NEGATE to OP_16, OP_DEPTH, OP_SIZE: a number pushed on top. */
    method PushConstant(op: int) returns (ok: bool)
      requires Valid() && (IsSmallInt(op) || op == OP_DEPTH || op == OP_SIZE)
      modifies this`stack
      ensures forall m :: m in Memory() ==> m in old(Memory()) || fresh(m)
      ensures Valid() && Agrees(OnStack(old(Ctx()), op, old(V())), ok, V())
      ensures ok ==> OneMade(old(stack), stack) && fresh(Top(stack, 1).mem)
    {
      hide Valid, V, OnStack, Encode;
      ConstantCases(Ctx(), op, V());
      if op == OP_SIZE {
        if |stack| < 1 { return false; }
        var buf := StackTop(1);
        PushNumber(buf.Len());
      } else if op == OP_DEPTH {
        PushNumber(|stack|);
      } else {
        PushNumber(op - (OP_1 - 1));
      }
      return true;
    }

    method IfDup() returns (ok: bool)
      requires Valid()
      modifies this`stack
      ensures forall m :: m in Memory() ==> m in old(Memory()) || fresh(m)
      ensures Valid() && Agrees(OnStack(old(Ctx()), OP_IFDUP, old(V())), ok, V())
      ensures ok ==> |old(stack)| >= 1
      ensures ok ==> stack == if |V()| > |old(V())| then old(stack) + [Top(old(stack), 1)] else old(stack)
    {
      hide Memory, Valid, V, Ctx, OnStack, Truthy;
      IfDupCases(Ctx(), V());
      if |stack| < 1 { return false; }
      var fValue := TopIsTrue();
      if fValue {
        ItemInMemory();
        PushBuf(StackTop(1));
      }
      return true;
    }

    // ---------- opcodes that write into an operand's memory ----------

    /** OP_AND, OP_OR and OP_XOR: the deeper operand is overwritten where it lies. */
    method BitwiseInPlace(op: int) returns (ok: bool)
      requires Valid() && IsBitwise(op)
      modifies this`stack, WrittenBy(op)
      ensures Valid() && ok == InPlace(old(Ctx()), op, old(V())).Ok?
      ensures ok ==> |old(stack)| >= 2 && stack == Drop(old(stack), 1)
      ensures ok ==> Rewritten(op, old(stack), old(V()), old(Top(stack, 2).mem[..]))
    {
      hide Bitwise, V, RunOver, SameOutside;
      if |stack| < 2 { return false; }
      var buf1, buf2 := StackTop(2), StackTop(1);
      ghost var m := buf1.mem[..];
      if buf1.Len() != buf2.Len() { return false; }
      OverwriteBits(op, buf1, buf2);
      SlicesOfOverwrite(m, buf1.mem[..], buf1.lo, buf1.hi);
      stack := stack[..|stack| - 1];
      return true;
    }

    /** The memory of the written operand is as it was, but for the bytes that the opcode leaves there. */
    ghost predicate Rewritten(op: int, items: seq<Buf>, st: seq<Bytes>, m: Bytes)
      requires IsInPlace(op) && |items| == |st| >= Taken(op)
      reads Top(items, Taken(op)).mem
    {
      var t, y := Top(items, Taken(op)), Top(items, 1);
      var w := LeftBehind(op, Top(st, Taken(op)), Top(st, 1), Lag(t.mem == y.mem, t.lo, y.lo));
      t.lo + |w| <= |m| && t.mem[..] == Overwrite(m, t.lo, w)
    }

    /** A number opcode's result on top, and below it what was there before. */
    ghost predicate NumberLeft(op: int, items: seq<Buf>, st: seq<Bytes>, r: seq<Bytes>)
      reads `stack, Mems(stack)
    {
      && |items| == |st| >= Taken(op) && |r| == |stack| == |st| - Taken(op) + 1
      && Drop(stack, 1) == Drop(items, Taken(op)) && Top(stack, 1).Valid() && Top(stack, 1).mem in Mems(stack)
      && Top(stack, 1).Data() == Top(r, 1) && FromNumber(Top(stack, 1), Top(st, Taken(op)), Top(items, Taken(op)))
    }

    method SetTop(b: Buf)
      requires Valid() && |stack| >= 1 && b.Valid()
      modifies this`stack
      ensures Valid() && |stack| == |old(stack)| && Drop(stack, 1) == Drop(old(stack), 1) && Top(stack, 1) == b
      ensures b.mem in Mems(stack)
    {
      stack := stack[|stack| - 1 := b];
      assert stack[|stack| - 1] == b;
    }

    method NumToBinInPlace() returns (ok: bool)
      requires Valid()
      modifies this`stack, WrittenBy(OP_NUM2BIN)
      ensures Valid() && ok == InPlace(old(Ctx()), OP_NUM2BIN, old(V())).Ok?
      ensures ok ==> NumberLeft(OP_NUM2BIN, old(stack), old(V()), InPlace(old(Ctx()), OP_NUM2BIN, old(V())).value)
      ensures ok && CopiesNumber(Top(old(V()), 2), Top(stack, 1).Len()) ==> fresh(Top(stack, 1).mem)
      ensures ok ==> Rewritten(OP_NUM2BIN, old(stack), old(V()), old(Top(stack, 2).mem[..]))
    {
      hide InPlace, V, Resized, SameOutside, ReadNumber, Minimal, Decode, Encode, AfterResize, FromNumber, CopiesNumber,
        Overwrite;
      NumToBinCases(Ctx(), V());
      if |stack| >= 2 { NumberIsDecoded(StackTop(1).Data(), flags.minimalData, 4); }
      if |stack| < 2 { return false; }
      var n := NumberAt(1, 4);
      if n.None? || n.value > MAX_SCRIPT_ELEMENT_SIZE { return false; }
      var buf := StackTop(2);
      ghost var m := buf.mem[..];
      stack := stack[..|stack| - 1];
      var rawnum := Resize(buf, n.value);
      if rawnum.None? { return false; }
      SlicesOfOverwrite(m, buf.mem[..], buf.lo, buf.hi);
      SetTop(rawnum.value);
      return true;
    }

    method BinToNumInPlace() returns (ok: bool)
      requires Valid()
      modifies this`stack, WrittenBy(OP_BIN2NUM)
      ensures Valid() && ok == InPlace(old(Ctx()), OP_BIN2NUM, old(V())).Ok?
      ensures ok ==> NumberLeft(OP_BIN2NUM, old(stack), old(V()), InPlace(old(Ctx()), OP_BIN2NUM, old(V())).value)
      ensures ok && CopiesNumber(Top(old(V()), 1), Top(stack, 1).Len()) ==> fresh(Top(stack, 1).mem)
      ensures ok ==> Rewritten(OP_BIN2NUM, old(stack), old(V()), old(Top(stack, 1).mem[..]))
    {
      hide InPlace, V, Encode, Decode, SameOutside, Tidied, Minimal, Overwrite;
      BinToNumCases(Ctx(), V());
      if |stack| < 1 { return false; }
      var buf1 := StackTop(1);
      ghost var m := buf1.mem[..];
      var buf2 := MinimallyEncode(buf1);
      SlicesOfOverwrite(m, buf1.mem[..], buf1.lo, buf1.hi);
      SetTop(buf2);
      if !IsMinimallyEncoded(buf2, flags.MaxIntegerSize()) { return false; }
      return true;
    }

    /** The memory that an in-place opcode may write. */
    ghost function WrittenBy(op: int): set<array<Byte>>
      reads `stack
    {
      var k := Taken(op);
      if IsInPlace(op) && |stack| >= k then {Top(stack, k).mem} else {}
    }

    /** The stack holds the buffers that the opcode leaves, and what it puts into new memory is there. */
    ghost predicate Leaves(op: int, st: seq<Bytes>, r: seq<Bytes>, items: seq<Buf>)
      reads `stack, `altstack, Mems(stack)
    {
      && Moved(op, None, st, r, items, altstack, stack, trueBuf, falseBuf)
      && (MakesMemory(op, st, r) ==>
            |stack| > 0 && Top(stack, 1).mem in Mems(stack) && Top(stack, 1).mem[..] == MadeBytes(op, r))
    }

    /** An opcode that writes in place does to the buffers what SharedMachine says, whoever else holds them. */
    method RunInPlace(op: int) returns (ok: bool)
      requires Valid() && IsInPlace(op)
      modifies this`stack, WrittenBy(op)
      ensures ok ==> forall m :: m in Memory() ==> m in old(Memory()) || fresh(m)
      ensures Valid() && ok == InPlace(old(Ctx()), op, old(V())).Ok?
      ensures ok ==>
                |old(stack)| >= Taken(op) && Rewritten(op, old(stack), old(V()), old(Top(stack, Taken(op)).mem[..]))
      ensures ok ==> var st, r := old(V()), InPlace(old(Ctx()), op, old(V())).value;
                Leaves(op, st, r, old(stack)) && (MakesMemory(op, st, r) ==> fresh(Top(stack, 1).mem))
    {
      hide InPlace, V, Ctx, Rewritten, Moved, FromNumber, CopiesNumber, IsFresh, ScriptData;
      InPlaceShape(Ctx(), op, V());
      InPlaceKinds(op);
      ghost var st, r, items := V(), InPlace(Ctx(), op, V()), stack;
      if |stack| >= Taken(op) { DropMems(stack, Taken(op)); DropMems(stack, 1); }
      if op == OP_NUM2BIN {
        ok := NumToBinInPlace();
      } else if op == OP_BIN2NUM {
        ok := BinToNumInPlace();
      } else {
        ok := BitwiseInPlace(op);
      }
      if ok {
        LastMem(stack);
        if IsBitwise(op) {
          BitsMove(op, st, r.value, items, altstack, stack, trueBuf, falseBuf);
        } else {
          NumberMoves(op, st, r.value, items, altstack, stack, trueBuf, falseBuf);
          WholeNumber(op, st, r.value, items);
          NumberMem(Top(stack, 1), Top(st, Taken(op)), Top(items, Taken(op)));
        }
      }
    }

    lemma WholeNumber(op: int, st: seq<Bytes>, r: seq<Bytes>, items: seq<Buf>)
      requires (op == OP_NUM2BIN || op == OP_BIN2NUM) && NumberLeft(op, items, st, r)
      ensures MakesMemory(op, st, r) ==>
                CopiesNumber(Top(st, Taken(op)), Top(stack, 1).Len()) && Top(stack, 1).mem[..] == MadeBytes(op, r)
    {
      hide CopiesNumber, IsFresh;
      NumberKinds(op);
    }

    ghost function Alt(): (r: seq<Bytes>)
      requires Valid()
      reads `stack, `altstack, Memory()
      ensures |r| == |altstack|
    {
      DataOf(altstack)
    }

    // ---------- signature checks ----------

    /** The chunks from the last code separator on. */
    function ScriptCode(): seq<Chunk>
      requires Valid()
      reads `stack, `altstack, `pbegincodehash, Memory()
    {
      if pbegincodehash <= |chunks| then ScriptData(chunks)[pbegincodehash..] else []
    }

    ghost function TheCore(): Core
      requires Valid()
      reads this, Memory()
    {
      Core(V(), Alt(), pc, pbegincodehash, nOpCount)
    }

    method CheckSignature(verify: bool) returns (ok: bool)
      requires Valid()
      modifies this`stack
      ensures forall m :: m in Memory() ==> m in old(Memory()) || fresh(m)
      ensures Valid() && ok == CheckSig(old(Ctx()), old(TheCore()), verify).Ok?
      ensures ok ==> stack == Judged(old(stack), CheckSig(old(Ctx()), old(TheCore()), verify).value, verify, trueBuf,
                                     falseBuf)
    {
      hide Memory, Valid, V, Judged, Alt, Conclude;
      if |stack| < 2 { return false; }
      var bufSig, bufPubkey := StackTop(2).Data(), StackTop(1).Data();
      if !env.txSigEncoded(bufSig) || !env.pubkeyEncoded(bufPubkey) { return false; }
      var fSuccess := env.txSigValid(bufSig, bufPubkey, ScriptCode(), [bufSig]);
      if !fSuccess && flags.nullFail && |bufSig| > 0 { return false; }
      Pop();
      Pop();
      assert V() == Drop(old(V()), 2) && stack == Drop(old(stack), 2);
      JudgedBy(old(stack), V(), fSuccess, verify, CheckSigVerify);
      ok := PushVerdict(fSuccess, verify, CheckSigVerify);
    }

    method CheckDataSignature(verify: bool) returns (ok: bool)
      requires Valid()
      modifies this`stack
      ensures forall m :: m in Memory() ==> m in old(Memory()) || fresh(m)
      ensures Valid() && ok == CheckDataSig(old(Ctx()), old(V()), verify).Ok?
      ensures ok ==> stack == Judged(old(stack), CheckDataSig(old(Ctx()), old(V()), verify).value, verify, trueBuf,
                                     falseBuf)
    {
      hide Memory, Valid, V, Ctx, ScriptCode, Judged, Conclude, Drop;
      CtxParts();
      ghost var v, items := V(), stack;
      if |stack| < 3 { return false; }
      var bufSig, bufMessage, bufPubkey := StackTop(3).Data(), StackTop(2).Data(), StackTop(1).Data();
      if !env.dataSigEncoded(bufSig) || !env.pubkeyEncoded(bufPubkey) { return false; }
      var fSuccess := env.dataSigValid(bufSig, bufMessage, bufPubkey);
      if !fSuccess && flags.nullFail && |bufSig| > 0 { return false; }
      Pop();
      Pop();
      Pop();
      DropThree(v);
      DropThree(items);
      DropIs(items, 3);
      JudgedBy(items, V(), fSuccess, verify, CheckDataSigVerify);
      ok := PushVerdict(fSuccess, verify, CheckDataSigVerify);
    }

    /** The signatures on the stack, in the order in which they are deleted from the script code. */
    method Signatures(nKeysCount: nat, nSigsCount: nat) returns (r: seq<Bytes>)
      requires Valid() && |stack| >= nKeysCount + nSigsCount + 3
      ensures Valid() && V() == old(V()) && ScriptCode() == old(ScriptCode()) && Ctx() == old(Ctx())
      ensures r == TopDown(V(), nKeysCount + 3, nSigsCount)
    {
      hide Valid, V, Ctx, ScriptCode;
      ghost var sigs := TopDown(V(), nKeysCount + 3, nSigsCount);
      r := [];
      for k := 0 to nSigsCount
        invariant r == sigs[..k]
      {
        r := r + [StackTop(nKeysCount + 3 + k).Data()];
      }
      assert r == sigs;
    }

    /** The sig/key loop: signatures and keys are read from the top down. */
    method MatchSignatures(nKeysCount: nat, nSigsCount: nat) returns (r: Trial)
      requires Valid() && nSigsCount <= nKeysCount && |stack| >= nKeysCount + nSigsCount + 3
      ensures Valid() && V() == old(V()) && ScriptCode() == old(ScriptCode()) && Ctx() == old(Ctx())
      ensures var sigs, keys := TopDown(V(), nKeysCount + 3, nSigsCount), TopDown(V(), 2, nKeysCount);
              r == Multisig.Match(Multisig.LegacyChecker(env, ScriptCode(), sigs), sigs, keys)
    {
      hide Valid, V, Ctx, ScriptCode, TopDown, Multisig.Match, Multisig.LegacyChecker;
      ghost var sigs, keys := TopDown(V(), nKeysCount + 3, nSigsCount), TopDown(V(), 2, nKeysCount);
      var deleted := Signatures(nKeysCount, nSigsCount);
      var subscript := ScriptCode();
      ghost var c := Multisig.LegacyChecker(env, subscript, sigs);
      var fSuccess, nSigsRemaining, nKeysRemaining := true, nSigsCount, nKeysCount;
      WholeTail(sigs);
      WholeTail(keys);
      while fSuccess && nSigsRemaining > 0
        invariant Valid() && V() == old(V()) && ScriptCode() == subscript && Ctx() == old(Ctx())
        invariant 0 <= nSigsRemaining <= nSigsCount && 0 <= nKeysRemaining <= nKeysCount
        invariant fSuccess ==> nSigsRemaining <= nKeysRemaining
        invariant Multisig.Match(c, sigs, keys) ==
                  if fSuccess then Multisig.Match(c, sigs[nSigsCount - nSigsRemaining..],
                                                  keys[nKeysCount - nKeysRemaining..])
                  else Verdict(false)
        decreases nKeysRemaining
      {
        ghost var i, j := nSigsCount - nSigsRemaining, nKeysCount - nKeysRemaining;
        MatchStep(env, subscript, sigs, keys, i, j);
        var bufSig := StackTop(nKeysCount + 3 + (nSigsCount - nSigsRemaining)).Data();
        if |bufSig| == 65 { return Threw; }
        var bufPubkey := StackTop(2 + (nKeysCount - nKeysRemaining)).Data();
        assert bufSig == sigs[i] && bufPubkey == keys[j] && deleted == sigs;
        if !env.txSigEncoded(bufSig) || !env.pubkeyEncoded(bufPubkey) { return Threw; }
        var fOk := env.txSigValid(bufSig, bufPubkey, subscript, deleted);
        if fOk { nSigsRemaining := nSigsRemaining - 1; }
        nKeysRemaining := nKeysRemaining - 1;
        if nSigsRemaining > nKeysRemaining {
          fSuccess := false;
          MatchFails(c, sigs, keys, nSigsCount - nSigsRemaining, nKeysCount - nKeysRemaining);
        }
      }
      if fSuccess { MatchEnds(c, sigs, keys[nKeysCount - nKeysRemaining..]); }
      return Verdict(fSuccess);
    }

    /** The search for the next key: it stops at a set bit, or at the first position that is no key. */
    method NextSetBit(bits: nat, start: nat, nKeysCount: nat) returns (iKey: nat)
      requires Valid()
      ensures Valid() && V() == old(V()) && ScriptCode() == old(ScriptCode()) && Ctx() == old(Ctx())
      ensures iKey == Multisig.NextKey(bits, start, nKeysCount)
    {
      hide Bit, Valid, V, Ctx, ScriptCode;
      iKey := start;
      while !Bit(bits, iKey)
        invariant start <= iKey && Multisig.NextKey(bits, start, nKeysCount) == Multisig.NextKey(bits, iKey, nKeysCount)
        decreases nKeysCount - iKey
      {
        if iKey >= nKeysCount { break; }
        iKey := iKey + 1;
      }
    }

    /** One signature under one key; past the keys lies their count, and past that there is nothing to read. */
    method CheckPair(nKeysCount: nat, nSigsCount: nat, iKey: nat, iSig: nat) returns (r: Trial)
      requires Valid() && |stack| >= nKeysCount + nSigsCount + 3 && iSig < nSigsCount
      ensures Valid() && V() == old(V()) && ScriptCode() == old(ScriptCode()) && Ctx() == old(Ctx())
      ensures r == if iKey > nKeysCount then Threw
                   else env.schnorrTxSig(Reversed(TopDown(V(), nKeysCount + 3, nSigsCount))[iSig],
                                         (Reversed(TopDown(V(), 2, nKeysCount)) + [Top(V(), 1)])[iKey], ScriptCode())
    {
      hide Valid, V, Ctx, ScriptCode;
      if iKey > nKeysCount { return Threw; }
      var bufSig := StackTop(nKeysCount + 2 + nSigsCount - iSig).Data();
      var bufPubkey := StackTop(nKeysCount + 1 - iKey).Data();
      return env.schnorrTxSig(bufSig, bufPubkey, ScriptCode());
    }

    /** DecodeBitfield(stacktop(-i), size) */
    method ReadBitfield(i: nat, size: nat) returns (bits: Option<nat>)
      requires Valid() && 1 <= i <= |stack| && size <= 20
      ensures Valid() && V() == old(V()) && ScriptCode() == old(ScriptCode()) && Ctx() == old(Ctx())
      ensures bits == Multisig.DecodeBitfield(Top(V(), i), size)
    {
      hide ScriptData, Multisig.DecodeBitfield;
      bits := Multisig.DecodeBits(stack[|stack| - i].Data(), size);
    }

    /** The Schnorr branch: the dummy's bits, lowest first, name the key of each signature, deepest first. */
    method MatchByBitfield(nKeysCount: nat, nSigsCount: nat) returns (r: Trial)
      requires Valid() && nSigsCount <= nKeysCount <= 20 && |stack| >= nKeysCount + nSigsCount + 3
      ensures Valid() && V() == old(V()) && ScriptCode() == old(ScriptCode()) && Ctx() == old(Ctx())
      ensures var sigs, keys := Reversed(TopDown(V(), nKeysCount + 3, nSigsCount)),
              Reversed(TopDown(V(), 2, nKeysCount));
              var dummy := Top(V(), nKeysCount + nSigsCount + 3);
              r == Multisig.SchnorrMode(Multisig.SchnorrChecker(env, ScriptCode()), dummy, sigs, keys, Top(V(), 1))
    {
      hide Valid, V, Ctx, ScriptCode, CountBits, Multisig.DecodeBitfield, Multisig.NextKey, Multisig.SchnorrLoop, Bit,
        Shr, Reversed, TopDown;
      ghost var v := V();
      ghost var sigs, keys := Reversed(TopDown(v, nKeysCount + 3, nSigsCount)), Reversed(TopDown(v, 2, nKeysCount));
      var bitfield := ReadBitfield(nKeysCount + nSigsCount + 3, nKeysCount);
      if bitfield.None? { return Threw; }
      var bits := bitfield.value;
      var subscript := ScriptCode();
      ghost var check := Multisig.SchnorrChecker(env, subscript);
      var fSuccess := CountBits(bits) == nSigsCount;
      ghost var spec := Multisig.SchnorrLoop(check, bits, sigs, keys + [Top(v, 1)], nKeysCount, 0, 0, fSuccess);
      var iSig, iKey := 0, 0;
      while iSig < nSigsCount
        invariant 0 <= iSig <= nSigsCount && iKey >= 0 && Valid() && V() == v && ScriptCode() == subscript &&
                  Ctx() == old(Ctx())
        invariant spec == Multisig.SchnorrLoop(check, bits, sigs, keys + [Top(v, 1)], nKeysCount, iSig, iKey, fSuccess)
      {
        SchnorrLoopStep(env, subscript, bits, sigs, keys + [Top(v, 1)], nKeysCount, iSig, iKey, fSuccess);
        if Shr(bits, iKey) == 0 { fSuccess := false; }
        iKey := NextSetBit(bits, iKey, nKeysCount);
        if iKey >= nKeysCount { fSuccess := false; }
        var valid := CheckPair(nKeysCount, nSigsCount, iKey, iSig);
        if valid.Threw? { return Threw; }
        if !valid.ok { fSuccess := false; }
        iSig, iKey := iSig + 1, iKey + 1;
      }
      SchnorrLoopEnd(check, bits, sigs, keys + [Top(v, 1)], nKeysCount, iKey, fSuccess);
      if Shr(bits, iKey) != 0 { fSuccess := false; }
      return Verdict(fSuccess);
    }

    /** Pops everything but the dummy. A failed check may not have a signature that is not empty. */
    method CleanUp(nKeysCount: nat, nSigsCount: nat, fSuccess: bool) returns (ok: bool)
      requires Valid() && |stack| >= nKeysCount + nSigsCount + 3
      modifies this`stack
      ensures forall m :: m in Memory() ==> m in old(Memory()) || fresh(m)
      ensures Valid()
      ensures var sigs := TopDown(old(V()), nKeysCount + 3, nSigsCount);
              if !fSuccess && flags.nullFail && (exists j :: 0 <= j < |sigs| && sigs[j] != []) then !ok
              else ok && V() == Drop(old(V()), nKeysCount + nSigsCount + 2) &&
                   stack == Drop(old(stack), nKeysCount + nSigsCount + 2)
    {
      hide Memory, Valid, V;
      ghost var v := V();
      ghost var sigs := TopDown(v, nKeysCount + 3, nSigsCount);
      var i, ikey2 := nKeysCount + nSigsCount + 3, nKeysCount + 2;
      ghost var popped := 0;
      while i > 1
        invariant popped == nKeysCount + nSigsCount + 3 - i && 1 <= i
        invariant Valid() && |stack| == |v| - popped && stack == old(stack)[..|stack|] && V() == v[..|v| - popped] &&
                  Memory() <= old(Memory())
        invariant ikey2 == if popped <= nKeysCount + 2 then nKeysCount + 2 - popped else 0
        invariant !fSuccess && flags.nullFail ==> forall j :: 0 <= j < popped - (nKeysCount + 2) ==> sigs[j] == []
      {
        i := i - 1;
        if !fSuccess && flags.nullFail && ikey2 == 0 && StackTop(1).Len() > 0 {
          assert sigs[popped - (nKeysCount + 2)] != [];
          return false;
        }
        if ikey2 > 0 { ikey2 := ikey2 - 1; }
        Pop();
        popped := popped + 1;
      }
      return true;
    }

    /** The two counts, with every check on them and on the stack's depth. */
    method ReadCounts() returns (ok: bool, nKeysCount: nat, nSigsCount: nat)
      requires Valid()
      modifies this`nOpCount
      ensures Valid() && V() == old(V()) && ScriptCode() == old(ScriptCode()) && Ctx() == old(Ctx())
      ensures ok == Multisig.ReadLayout(old(Ctx()), V(), old(nOpCount)).Ok?
      ensures ok ==> LaidOut(V(), nKeysCount, nSigsCount) && nOpCount == old(nOpCount) + nKeysCount
      ensures ok ==> Multisig.ReadLayout(old(Ctx()), V(), old(nOpCount)).value == LayoutAt(V(), nKeysCount, nSigsCount)
    {
      hide Valid, V, Ctx, ScriptCode, Multisig.ReadLayout, ReadNumber, LayoutAt;
      CtxParts();
      nKeysCount, nSigsCount := 0, 0;
      LayoutCases(Ctx(), V(), nOpCount);
      if |stack| < 1 { return false, 0, 0; }
      var n := NumberAt(1, 4);
      if n.None? || n.value < 0 || n.value > 20 { return false, 0, 0; }
      nKeysCount := n.value;
      CountOps(nKeysCount);
      if nOpCount > MAX_OPS || |stack| < nKeysCount + 2 { return false, 0, 0; }
      var m := NumberAt(nKeysCount + 2, 4);
      if m.None? || m.value < 0 || m.value > nKeysCount { return false, 0, 0; }
      nSigsCount := m.value;
      ok := |stack| >= nKeysCount + nSigsCount + 3;
    }

    method CountOps(n: nat)
      requires Valid()
      modifies this`nOpCount
      ensures Valid() && V() == old(V()) && ScriptCode() == old(ScriptCode()) && Ctx() == old(Ctx())
      ensures nOpCount == old(nOpCount) + n
    {
      nOpCount := nOpCount + n;
    }

    lemma CtxParts()
      requires Valid()
      ensures Ctx().flags == flags && Ctx().env == env && |Ctx().script| == |chunks|
      ensures ScriptCode() == if pbegincodehash <= |chunks| then Ctx().script[pbegincodehash..] else []
    {
    }

    /** OP_CHECKMULTISIG and OP_CHECKMULTISIGVERIFY. */
    method CheckMultisignature(verify: bool) returns (ok: bool)
      requires Valid()
      modifies this`stack, this`nOpCount
      ensures forall m :: m in Memory() ==> m in old(Memory()) || fresh(m)
      ensures Valid()
      ensures ok ==> var spec := Multisig.CheckMultisig(old(Ctx()), old(V()), old(nOpCount), old(ScriptCode()));
                spec.Ok? && nOpCount == old(nOpCount) + spec.value.keys && (verify ==> spec.value.ok) &&
                stack == Judged(old(stack), spec.value.rest + if verify then [] else [Bool(spec.value.ok)], verify,
                                trueBuf, falseBuf)
      ensures !ok ==> var spec := Multisig.CheckMultisig(old(Ctx()), old(V()), old(nOpCount), old(ScriptCode()));
                spec.Fail? || (verify && !spec.value.ok)
    {
      hide Memory, Valid, V, Ctx, ScriptCode, Multisig.CheckMultisig, Multisig.ReadLayout, Multisig.Check, LayoutAt,
        LaidOut, Judged, Conclude;
      CtxParts();
      ghost var v := V();
      var fine, nKeysCount, nSigsCount := ReadCounts();
      MultisigCases(old(Ctx()), v, old(nOpCount), ScriptCode(), nKeysCount, nSigsCount);
      if !fine { return false; }
      var verdict := Decide(nKeysCount, nSigsCount);
      if verdict.Threw? { return false; }
      ok := TakeOperands(nKeysCount, nSigsCount, verdict.ok);
      if !ok { return false; }
      ConcludeCases(V(), verdict.ok, verify);
      JudgedIs(old(stack), V(), verdict.ok, verify);
      ok := PushVerdict(verdict.ok, verify, CheckMultiSigVerify);
    }

    method Decide(nKeysCount: nat, nSigsCount: nat) returns (r: Trial)
      requires Valid() && LaidOut(V(), nKeysCount, nSigsCount)
      ensures Valid() && V() == old(V()) && ScriptCode() == old(ScriptCode()) && Ctx() == old(Ctx())
      ensures r == Multisig.Check(Ctx(), LayoutAt(V(), nKeysCount, nSigsCount), ScriptCode())
    {
      hide Valid, V, Ctx, ScriptCode, TopDown, Reversed, Multisig.SchnorrMode, Multisig.Match;
      CtxParts();
      DoubleReverse(TopDown(V(), nKeysCount + 3, nSigsCount));
      DoubleReverse(TopDown(V(), 2, nKeysCount));
      if flags.schnorrMultisig && StackTop(nKeysCount + nSigsCount + 3).Len() != 0 {
        r := MatchByBitfield(nKeysCount, nSigsCount);
      } else {
        r := MatchSignatures(nKeysCount, nSigsCount);
      }
    }

    /** The clean-up, and then the extra item below the signatures. */
    method TakeOperands(nKeysCount: nat, nSigsCount: nat, fSuccess: bool) returns (ok: bool)
      requires Valid() && LaidOut(V(), nKeysCount, nSigsCount)
      modifies this`stack
      ensures forall m :: m in Memory() ==> m in old(Memory()) || fresh(m)
      ensures Valid()
      ensures var l := LayoutAt(old(V()), nKeysCount, nSigsCount);
              if (!fSuccess && flags.nullFail && exists j :: 0 <= j < |l.sigs| && l.sigs[j] != []) ||
                 (flags.nullDummy && l.dummy != []) then !ok
              else ok && V() == l.rest && stack == Drop(old(stack), nKeysCount + nSigsCount + 3)
    {
      hide Memory, Valid, V, TopDown, Reversed;
      ReversedEmpty(TopDown(V(), nKeysCount + 3, nSigsCount));
      ok := CleanUp(nKeysCount, nSigsCount, fSuccess);
      if !ok { return false; }
      if |stack| < 1 { return false; }
      if flags.nullDummy && StackTop(1).Len() > 0 { return false; }
      Pop();
      assert V() == Drop(old(V()), nKeysCount + nSigsCount + 3);
    }

    // ---------- one opcode, and one step ----------

    method Nop(op: int) returns (ok: bool)
      requires Valid() && (op == OP_NOP || op == OP_NOP2 || op == OP_NOP3 || IsNop(op))
      ensures Valid() && Agrees(OnStack(old(Ctx()), op, old(V())), ok, V())
    {
      hide Valid, V, Ctx, ScriptCode, ReadNumber, OnStack;
      CtxParts();
      NopCases(Ctx(), op, V());
      if op == OP_NOP { return true; }
      var enabled := if op == OP_NOP2 then flags.checkLockTime else op == OP_NOP3 && flags.checkSequence;
      if !enabled { return !flags.discourageNops; }
      if |stack| < 1 { return false; }
      var n := NumberAt(1, 5);
      if n.None? || n.value < 0 { return false; }
      return if op == OP_NOP2 then env.lockTimeReached(n.value) else DisableBit(n.value);
    }

    lemma MadeLeaves(op: int, st: seq<Bytes>, r: seq<Bytes>, items: seq<Buf>)
      requires Valid() && IsFresh(op) && |items| == |st| && OneMade(items, stack) && V() == r
      ensures Leaves(op, st, r, items)
    {
      hide IsFresh, IsVerdict, OneMade, Moved;
      MakerKinds(op);
      MadeWhole(items);
      MadeMoves(op, st, r, items, altstack, stack, trueBuf, falseBuf);
    }

    lemma MadeWhole(items: seq<Buf>)
      requires Valid() && OneMade(items, stack)
      ensures |V()| == |stack| > 0 && Top(stack, 1).mem in Mems(stack) && Top(stack, 1).mem[..] == Top(V(), 1)
      ensures Top(stack, 1).Len() == |Top(V(), 1)|
    {
    }

    lemma VerdictLeaves(op: int, st: seq<Bytes>, r: seq<Bytes>, items: seq<Buf>)
      requires IsVerdict(op) && |items| == |st| && |r| > 0 && stack == Judged(items, r, false, trueBuf, falseBuf)
      ensures Leaves(op, st, r, items) && !MakesMemory(op, st, r)
    {
      hide IsFresh, IsVerdict, Moved, Judged;
      MakerKinds(op);
      VerdictsMakeNothing(op);
      VerdictMoves(op, st, r, items, altstack, stack, trueBuf, falseBuf);
    }

    lemma DropLeaves(op: int, st: seq<Bytes>, r: seq<Bytes>, items: seq<Buf>)
      requires IsDrop(op) && |items| == |st| && stack == Kept(items, |r|)
      ensures Leaves(op, st, r, items) && !MakesMemory(op, st, r)
    {
      hide IsFresh, IsVerdict, IsShuffle, Moved, Kept;
      DropMoves(op, st, r, items, altstack, stack, trueBuf, falseBuf);
    }

    method Arithmetic(op: int) returns (ok: bool)
      requires Valid() && (IsUnary(op) || IsBinary(op) || op == OP_WITHIN)
      modifies this`stack
      ensures forall m :: m in Memory() ==> m in old(Memory()) || fresh(m)
      ensures Valid() && ok == OnStack(old(Ctx()), op, old(V())).Ok?
      ensures ok ==> var st, r := old(V()), OnStack(old(Ctx()), op, old(V())).value;
                Leaves(op, st, r, old(stack)) && (MakesMemory(op, st, r) ==> fresh(Top(stack, 1).mem))
    {
      hide Memory, Valid, V, Ctx, OnStack, UnaryItems, BinaryItems, Leaves, MakesMemory, OneMade, Judged;
      CtxParts();
      ghost var st, r, items := V(), OnStack(Ctx(), op, V()), stack;
      if op == OP_WITHIN {
        WithinCases(Ctx(), V());
        ok := Within();
        if ok { VerdictLeaves(op, st, r.value, items); }
      } else if IsUnary(op) {
        OnStackUnary(Ctx(), op, V());
        ok := OneNumber(op);
        if ok { MadeLeaves(op, st, r.value, items); }
      } else {
        ok := OnTwoNumbers(op);
      }
    }

    /** The binary opcodes; OP_NUMEQUALVERIFY consumes its result. */
    method OnTwoNumbers(op: int) returns (ok: bool)
      requires Valid() && IsBinary(op)
      modifies this`stack
      ensures forall m :: m in Memory() ==> m in old(Memory()) || fresh(m)
      ensures Valid() && ok == OnStack(old(Ctx()), op, old(V())).Ok?
      ensures ok ==> var st, r := old(V()), OnStack(old(Ctx()), op, old(V())).value;
                Leaves(op, st, r, old(stack)) && (MakesMemory(op, st, r) ==> fresh(Top(stack, 1).mem))
    {
      hide Memory, Valid, V, Ctx, OnStack, BinaryItems, Leaves, MakesMemory, OneMade;
      CtxParts();
      ghost var st, r, items := V(), OnStack(Ctx(), op, V()), stack;
      OnStackBinary(Ctx(), op, V());
      ok := TwoNumbers(op);
      if ok && op == OP_NUMEQUALVERIFY {
        TwoTaken(items, stack);
        OneMore(Drop(st, 2), V());
        ok := VerifyTop();
        if ok { DropLeaves(op, st, r.value, items); }
      } else if ok {
        MadeLeaves(op, st, r.value, items);
      }
    }

    lemma TwoTaken(items: seq<Buf>, now: seq<Buf>)
      requires OneMade(items, now)
      ensures Drop(now, 1) == Kept(items, |now| - 1)
    {
    }

    method Rearrange(op: int) returns (ok: bool)
      requires Valid() && (IsShuffle(op) || op == OP_PICK || op == OP_ROLL || op == OP_IFDUP || op == OP_VERIFY)
      modifies this`stack
      ensures forall m :: m in Memory() ==> m in old(Memory()) || fresh(m)
      ensures Valid() && ok == OnStack(old(Ctx()), op, old(V())).Ok?
      ensures ok ==> var st, r := old(V()), OnStack(old(Ctx()), op, old(V())).value;
                Leaves(op, st, r, old(stack)) && !MakesMemory(op, st, r)
    {
      hide Memory, Valid, V, Ctx, OnStack, Shuffle, PickOrRoll, ReadNumber, Truthy, IsShuffle, Moved, MakesMemory;
      CtxParts();
      ghost var st, r, items := V(), OnStack(Ctx(), op, V()), stack;
      RearrangersMakeNothing(op, st, if r.Ok? then r.value else []);
      if op == OP_IFDUP {
        IfDupCases(Ctx(), V());
        ok := IfDup();
        if ok { IfDupMoves(st, r.value, items, altstack, stack, trueBuf, falseBuf); }
      } else if op == OP_VERIFY {
        VerifyCases(Ctx(), V());
        ok := VerifyTop();
        if ok { DropLeaves(op, st, r.value, items); }
      } else if op == OP_PICK || op == OP_ROLL {
        PickRollCases(Ctx(), op, V());
        if |stack| < 2 { return false; }
        NumberIsDecoded(Top(V(), 1), flags.minimalData, 4);
        ok := PickRoll(op);
        if ok { PickMoves(op, st, r.value, items, altstack, stack, trueBuf, falseBuf); }
      } else {
        ShuffleCases(Ctx(), op, V());
        ok := ShuffleStack(op);
        if ok { ShuffleMoves(op, st, r.value, items, altstack, stack, trueBuf, falseBuf); }
      }
    }

    lemma RearrangersMakeNothing(op: int, st: seq<Bytes>, r: seq<Bytes>)
      requires IsShuffle(op) || op == OP_PICK || op == OP_ROLL || op == OP_IFDUP || op == OP_VERIFY
      ensures !MakesMemory(op, st, r) && (op == OP_VERIFY ==> IsDrop(op))
    {
    }

    method ByteString(op: int) returns (ok: bool)
      requires Valid() && IsByteString(op)
      modifies this`stack
      ensures forall m :: m in Memory() ==> m in old(Memory()) || fresh(m)
      ensures Valid() && ok == OnStack(old(Ctx()), op, old(V())).Ok?
      ensures ok ==> var st, r := old(V()), OnStack(old(Ctx()), op, old(V())).value;
                Leaves(op, st, r, old(stack)) && (MakesMemory(op, st, r) ==> fresh(Top(stack, 1).mem))
    {
      hide Memory, Valid, V, Ctx, OnStack, HashOf, Reversed, Leaves, MakesMemory, OneMade, HalvesMade;
      CtxParts();
      ghost var st, r, items := V(), OnStack(Ctx(), op, V()), stack;
      if op == OP_EQUAL || op == OP_EQUALVERIFY {
        EqualCases(Ctx(), op, V());
        ok := Equal(op);
        if ok && op == OP_EQUAL { VerdictLeaves(op, st, r.value, items); }
        if ok && op == OP_EQUALVERIFY { DropLeaves(op, st, r.value, items); }
      } else if op == OP_CAT {
        ok := Cat();
        if ok { MadeLeaves(op, st, r.value, items); }
      } else if op == OP_SPLIT {
        ok := Split();
        if ok { HalvesLeave(st, r.value, items); }
      } else if op == OP_REVERSEBYTES {
        HashCases(Ctx(), op, V());
        ok := ReverseTop();
        if ok { MadeLeaves(op, st, r.value, items); }
      } else {
        HashCases(Ctx(), op, V());
        ok := Hash(op);
        if ok { MadeLeaves(op, st, r.value, items); }
      }
    }

    lemma HalvesLeave(st: seq<Bytes>, r: seq<Bytes>, items: seq<Buf>)
      requires Valid() && |items| == |st| && V() == r && |r| >= 2 && HalvesMade(items, stack, Top(r, 2), Top(r, 1))
      requires Top(stack, 1).mem[..] == Top(r, 2) + Top(r, 1)
      ensures Leaves(OP_SPLIT, st, r, items)
    {
      hide Moved;
      HalvesMove(st, r, items, altstack, stack, trueBuf, falseBuf);
    }

    /** The opcodes whose effect is on the main stack, and on the memory of the operand they write. */
    method RunOnStack(op: int) returns (ok: bool)
      requires Valid()
      modifies this`stack, WrittenBy(op)
      ensures ok ==> forall m :: m in Memory() ==> m in old(Memory()) || fresh(m)
      ensures Valid() && ok == OnStack(old(Ctx()), op, old(V())).Ok?
      ensures ok ==> var st, r := old(V()), OnStack(old(Ctx()), op, old(V())).value;
                Leaves(op, st, r, old(stack)) && (MakesMemory(op, st, r) ==> fresh(Top(stack, 1).mem))
      ensures ok && IsInPlace(op) ==>
                |old(stack)| >= Taken(op) && Rewritten(op, old(stack), old(V()), old(Top(stack, Taken(op)).mem[..]))
    {
      hide Memory, Valid, V, Ctx, OnStack, InPlace, Leaves, MakesMemory, Rewritten, DataOf, ScriptData, OneMade;
      OnStackGroups(Ctx(), op, V());
      ghost var st, r, items := V(), OnStack(Ctx(), op, V()), stack;
      if IsInPlace(op) {
        ok := RunInPlace(op);
      } else if IsUnary(op) || IsBinary(op) || op == OP_WITHIN {
        ok := Arithmetic(op);
      } else if IsByteString(op) {
        ok := ByteString(op);
      } else if IsShuffle(op) || op == OP_PICK || op == OP_ROLL || op == OP_IFDUP || op == OP_VERIFY {
        ok := Rearrange(op);
      } else if IsSmallInt(op) || op == OP_DEPTH || op == OP_SIZE {
        ok := PushConstant(op);
        if ok { MadeLeaves(op, st, r.value, items); }
      } else if op == OP_NOP || op == OP_NOP2 || op == OP_NOP3 || IsNop(op) {
        NopCases(Ctx(), op, V());
        ok := Nop(op);
        if ok { NopLeaves(op, st, r.value); }
      } else {
        ok := false;
      }
    }

    lemma NopLeaves(op: int, st: seq<Bytes>, r: seq<Bytes>)
      requires (op == OP_NOP || op == OP_NOP2 || op == OP_NOP3 || IsNop(op)) && |st| == |stack| && r == st
      ensures Leaves(op, st, r, stack) && !MakesMemory(op, st, r)
    {
      assert Kept(stack, |r|) == stack;
      DropLeaves(op, st, r, stack);
    }

    // ---------- any opcode ----------

    /** The stacks hold the buffers that the step leaves, and what it puts into new memory is there. */
    ghost predicate StepLeaves(op: int, data: Option<Buf>, st: seq<Bytes>, r: seq<Bytes>, items: seq<Buf>,
                               alt: seq<Buf>)
      reads `stack, `altstack, Mems(stack)
    {
      && Moved(op, data, st, r, items, alt, stack, trueBuf, falseBuf) && altstack == NextAlt(op, items, alt)
      && (MakesMemory(op, st, r) ==>
            |stack| > 0 && Top(stack, 1).mem in Mems(stack) && Top(stack, 1).mem[..] == MadeBytes(op, r))
    }

    /** What becomes of the fields that are not stacks. */
    ghost predicate FieldsAre(s: Core)
      reads `pc, `pbegincodehash, `nOpCount
    {
      pc == s.pc && pbegincodehash == s.codeSep && nOpCount == s.ops
    }

    /** Any opcode but a push or a conditional, in an executing branch. */
    method ExecuteOp(op: int) returns (ok: bool)
      requires Valid() && !IsPush(op) && !IsConditional(op)
      modifies this`stack, this`altstack, this`pbegincodehash, this`nOpCount, WrittenBy(op)
      ensures ok ==> Valid() && forall m :: m in Memory() ==> m in old(Memory()) || fresh(m)
      ensures ok == Execute(old(Ctx()), op, old(TheCore())).Ok?
      ensures ok ==> var r := Execute(old(Ctx()), op, old(TheCore())).value;
                && FieldsAre(r) && StepLeaves(op, None, old(V()), r.stack, old(stack), old(altstack))
                && (MakesMemory(op, old(V()), r.stack) ==> fresh(Top(stack, 1).mem))
      ensures ok && IsInPlace(op) ==>
                |old(stack)| >= Taken(op) && Rewritten(op, old(stack), old(V()), old(Top(stack, Taken(op)).mem[..]))
    {
      hide OnStack, Execute, V, Ctx, Alt, Memory, DataOf, ScriptData, Moved, MakesMemory, Rewritten, Leaves, StepLeaves;
      ExecuteCases(Ctx(), op, TheCore());
      ghost var st, items, alt := V(), stack, altstack;
      ghost var r := Execute(Ctx(), op, TheCore());
      if op == OP_TOALTSTACK {
        ok := ToAltStack();
        if ok { ToAltLeaves(st, r.value.stack, items, alt); }
      } else if op == OP_FROMALTSTACK {
        ok := FromAltStack();
        if ok { FromAltLeaves(st, r.value.stack, items, alt); }
      } else if op == OP_CODESEPARATOR {
        pbegincodehash := pc;
        ok := true;
        SeparatorLeaves(st);
      } else if IsCheck(op) {
        ok := ExecuteCheck(op);
      } else {
        ok := RunOnStack(op);
        if ok { OnStackLeaves(op, st, r.value.stack, items); }
      }
    }

    lemma OnStackLeaves(op: int, st: seq<Bytes>, r: seq<Bytes>, items: seq<Buf>)
      requires Leaves(op, st, r, items) && op != OP_TOALTSTACK && op != OP_FROMALTSTACK
      ensures StepLeaves(op, None, st, r, items, altstack)
    {
      hide Moved, MakesMemory;
    }

    lemma ToAltLeaves(st: seq<Bytes>, r: seq<Bytes>, items: seq<Buf>, alt: seq<Buf>)
      requires |items| == |st| >= 1 && |r| == |st| - 1 && stack == Drop(items, 1) && altstack == alt + [Top(items, 1)]
      ensures StepLeaves(OP_TOALTSTACK, None, st, r, items, alt) && !MakesMemory(OP_TOALTSTACK, st, r)
    {
      DropMoves(OP_TOALTSTACK, st, r, items, alt, stack, trueBuf, falseBuf);
    }

    lemma FromAltLeaves(st: seq<Bytes>, r: seq<Bytes>, items: seq<Buf>, alt: seq<Buf>)
      requires |items| == |st| && |alt| >= 1 && stack == items + [Top(alt, 1)] && altstack == Drop(alt, 1)
      ensures StepLeaves(OP_FROMALTSTACK, None, st, r, items, alt) && !MakesMemory(OP_FROMALTSTACK, st, r)
    {
      FromAltMoves(st, r, items, alt, stack, trueBuf, falseBuf);
    }

    lemma SeparatorLeaves(st: seq<Bytes>)
      requires |st| == |stack|
      ensures StepLeaves(OP_CODESEPARATOR, None, st, st, stack, altstack) && !MakesMemory(OP_CODESEPARATOR, st, st)
    {
      assert Kept(stack, |stack|) == stack;
      DropMoves(OP_CODESEPARATOR, st, st, stack, altstack, stack, trueBuf, falseBuf);
    }

    method ExecuteCheck(op: int) returns (ok: bool)
      requires Valid() && IsCheck(op)
      modifies this`stack, this`nOpCount
      ensures Valid() && forall m :: m in Memory() ==> m in old(Memory()) || fresh(m)
      ensures ok == Execute(old(Ctx()), op, old(TheCore())).Ok?
      ensures ok ==> var r := Execute(old(Ctx()), op, old(TheCore())).value;
                && FieldsAre(r) && StepLeaves(op, None, old(V()), r.stack, old(stack), old(altstack))
                && !MakesMemory(op, old(V()), r.stack)
    {
      hide Execute, Memory, Valid, V, Ctx, Alt, CheckSig, CheckDataSig, Multisig.CheckMultisig, MakesMemory,
        StepLeaves, Judged;
      ghost var st, items, core := V(), stack, TheCore();
      ghost var r := Execute(Ctx(), op, core);
      if op == OP_CHECKSIG || op == OP_CHECKSIGVERIFY {
        CheckCases(Ctx(), op, core);
        ok := CheckSignature(op == OP_CHECKSIGVERIFY);
      } else if op == OP_CHECKDATASIG || op == OP_CHECKDATASIGVERIFY {
        CheckCases(Ctx(), op, core);
        ok := CheckDataSignature(op == OP_CHECKDATASIGVERIFY);
      } else {
        ExecuteMultisig(Ctx(), op, core);
        CtxParts();
        ok := CheckMultisignature(op == OP_CHECKMULTISIGVERIFY);
      }
      if ok { CheckLeaves(op, st, r.value.stack, items); }
    }

    lemma CheckLeaves(op: int, st: seq<Bytes>, r: seq<Bytes>, items: seq<Buf>)
      requires IsCheck(op) && |items| == |st| && stack == Judged(items, r, IsVerifyCheck(op), trueBuf, falseBuf)
      requires IsVerifyCheck(op) || |r| > 0
      ensures StepLeaves(op, None, st, r, items, altstack) && !MakesMemory(op, st, r)
    {
      hide Leaves, StepLeaves, MakesMemory;
      if IsVerifyCheck(op) { DropLeaves(op, st, r, items); } else { VerdictLeaves(op, st, r, items); }
      OnStackLeaves(op, st, r, items);
    }

    method ToAltStack() returns (ok: bool)
      requires Valid()
      modifies this`stack, this`altstack
      ensures Valid() && Memory() <= old(Memory())
      ensures if |old(stack)| < 1 then !ok
              else ok && stack == Drop(old(stack), 1) && altstack == old(altstack) + [Top(old(stack), 1)]
    {
      if |stack| < 1 { return false; }
      var buf := stack[|stack| - 1];
      stack := stack[..|stack| - 1];
      altstack := altstack + [buf];
      return true;
    }

    method FromAltStack() returns (ok: bool)
      requires Valid()
      modifies this`stack, this`altstack
      ensures Valid() && Memory() <= old(Memory())
      ensures if |old(altstack)| < 1 then !ok
              else ok && stack == old(stack) + [Top(old(altstack), 1)] && altstack == Drop(old(altstack), 1)
    {
      if |altstack| < 1 { return false; }
      var buf := altstack[|altstack| - 1];
      altstack := altstack[..|altstack| - 1];
      stack := stack + [buf];
      return true;
    }

    // ---------- one step ----------

    ghost function TheState(): State
      requires Valid()
      reads this, Memory()
    {
      State(TheCore(), vfExec)
    }

    /** The head of step: pc and the op counter move, the static limits are checked. */
    method FetchChunk() returns (ok: bool)
      requires Valid() && pc < |chunks|
      modifies this`pc, this`nOpCount
      ensures Valid() && Ctx() == old(Ctx()) && Memory() == old(Memory())
      ensures ok ==> chunks[old(pc)].BufChunk? && pc == old(pc) + 1
      ensures Agrees(Fetch(old(Ctx()), old(Ctx()).script[old(pc)], old(TheCore())), ok, TheCore())
    {
      hide DataOf, ScriptData, IsDisabled, Mems;
      ChunkAt(pc);
      var chunk := chunks[pc];
      pc := pc + 1;
      if chunk.NoOpcode? { return false; }
      if chunk.data.Some? && chunk.data.value.Len() > MAX_SCRIPT_ELEMENT_SIZE { return false; }
      if chunk.op > OP_16 {
        nOpCount := nOpCount + 1;
        if nOpCount > MAX_OPS { return false; }
      }
      return !IsDisabled(chunk.op, flags);
    }

    method PushChunk(chunk: BufChunk) returns (ok: bool)
      requires Valid() && chunk in chunks && chunk.BufChunk?
      modifies this`stack
      ensures Valid() && Ctx() == old(Ctx()) && Alt() == old(Alt()) && Memory() <= old(Memory())
      ensures Agrees(Push(old(Ctx()), old(ChunkData(chunk)), old(TheCore())), ok, TheCore())
      ensures ok ==> stack == old(stack) + [if chunk.data.Some? then chunk.data.value else falseBuf]
    {
      hide ScriptData, DataOf, V, Alt, Ctx, Memory, MinimalPush;
      CtxFlags();
      if flags.minimalData && !MinimalPush(ChunkData(chunk)) { return false; }
      if chunk.data.None? {
        PushBuf(falseBuf);
      } else if chunk.len != chunk.data.value.Len() {
        return false;
      } else {
        PushBuf(chunk.data.value);
      }
      return true;
    }

    lemma CtxFlags()
      requires Valid()
      ensures Ctx().flags == flags && Ctx().env == env
      ensures forall c :: c in chunks && c.data.Some? ==> c.data.value.mem in Memory()
      ensures falseBuf.mem in Memory() && falseBuf.Data() == FALSE
    {
    }

    method SetFlags(vf: seq<bool>)
      requires Valid()
      modifies this`vfExec
      ensures vfExec == vf && Valid() && TheCore() == old(TheCore()) && Ctx() == old(Ctx()) && Memory() == old(Memory())
    {
      vfExec := vf;
    }

    method ConditionalOp(op: int) returns (ok: bool)
      requires Valid() && IsConditional(op)
      modifies this`stack, this`vfExec
      ensures Valid() && Ctx() == old(Ctx()) && Memory() <= old(Memory())
      ensures Agrees(Conditional(old(Ctx()), op, old(TheCore()), old(vfExec)), ok, TheState())
      ensures |stack| <= |old(stack)| && stack == old(stack)[..|stack|]
    {
      hide Valid, TheCore, Ctx, Memory, Condition;
      if op == OP_IF || op == OP_NOTIF {
        var fValue := false;
        if false !in vfExec {
          var r := BranchValue(op);
          if r.None? { return false; }
          fValue := r.value;
        }
        SetFlags(vfExec + [fValue]);
        return true;
      } else if op == OP_ELSE {
        if |vfExec| == 0 { return false; }
        SetFlags(vfExec[|vfExec| - 1 := !vfExec[|vfExec| - 1]]);
        assert vfExec == Drop(old(vfExec), 1) + [!Top(old(vfExec), 1)];
        return true;
      } else if op == OP_ENDIF {
        if |vfExec| == 0 { return false; }
        SetFlags(vfExec[..|vfExec| - 1]);
        return true;
      } else {
        return false;
      }
    }

    method BranchValue(op: int) returns (r: Option<bool>)
      requires Valid() && (op == OP_IF || op == OP_NOTIF)
      modifies this`stack
      ensures Valid() && Ctx() == old(Ctx()) && Memory() <= old(Memory())
      ensures var spec := Condition(old(Ctx()), op, old(TheCore()));
              if r.None? then spec.Fail? else spec == Ok((TheCore(), r.value))
      ensures |stack| <= |old(stack)| && stack == old(stack)[..|stack|]
    {
      hide Valid, V, Alt, Ctx, Memory, Truthy;
      CtxFlags();
      if |stack| < 1 { return None; }
      var buf := StackTop(1);
      if flags.minimalIf && (buf.Len() > 1 || (buf.Len() == 1 && buf.mem[buf.lo] != 1)) { return None; }
      var fValue := TopIsTrue();
      if op == OP_NOTIF { fValue := !fValue; }
      Pop();
      return Some(fValue);
    }

    /** The chunk at pc writes in place, in an executing branch. */
    ghost predicate InPlaceNext()
      reads `pc, `vfExec
    {
      pc < |chunks| && chunks[pc].BufChunk? && IsInPlace(chunks[pc].op) && Executing(vfExec)
    }

    ghost function NextWrites(): set<array<Byte>>
      reads `pc, `vfExec, `stack
    {
      if InPlaceNext() then WrittenBy(chunks[pc].op) else {}
    }

    /** What a chunk does once it has been fetched: run, a conditional, or skipped. */
    ghost predicate ChunkLeaves(c: BufChunk, ran: bool, st: seq<Bytes>, s: State, items: seq<Buf>, alt: seq<Buf>)
      requires c.BufChunk?
      reads this, Mems(stack)
    {
      && FieldsAre(s.core) && vfExec == s.vfExec
      && (if ran then StepLeaves(c.op, c.data, st, s.core.stack, items, alt)
          else stack == Kept(items, |s.core.stack|) && altstack == alt)
    }

    method RunChunk(chunk: BufChunk) returns (ok: bool)
      requires Valid() && chunk in chunks && chunk.BufChunk?
      modifies this`stack, this`altstack, this`vfExec, this`pbegincodehash, this`nOpCount
      modifies if Executing(vfExec) then WrittenBy(chunk.op) else {}
      ensures ok ==> Valid() && forall m :: m in Memory() ==> m in old(Memory()) || fresh(m)
      ensures ok == AfterFetch(old(Ctx()), old(ChunkData(chunk)), old(TheCore()), old(vfExec)).Ok?
      ensures ok ==> var s, ran := AfterFetch(old(Ctx()), old(ChunkData(chunk)), old(TheCore()), old(vfExec)).value,
                                   Executing(old(vfExec)) && !IsConditional(chunk.op);
                && ChunkLeaves(chunk, ran, old(V()), s, old(stack), old(altstack))
                && (ran && MakesMemory(chunk.op, old(V()), s.core.stack) ==> fresh(Top(stack, 1).mem))
      ensures ok && Executing(old(vfExec)) && IsInPlace(chunk.op) ==>
                |old(stack)| >= Taken(chunk.op) &&
                Rewritten(chunk.op, old(stack), old(V()), old(Top(stack, Taken(chunk.op)).mem[..]))
    {
      hide Execute, Conditional, Push, DataOf, ScriptData, V, Ctx, Alt, Memory, Moved, MakesMemory, Rewritten,
        StepLeaves;
      ghost var st, items, alt, core := V(), stack, altstack, TheCore();
      var fExec := false !in vfExec;
      if fExec && 0 <= chunk.op <= OP_PUSHDATA4 {
        ghost var r := Push(Ctx(), ChunkData(chunk), core);
        PushKinds(chunk.op);
        ok := PushChunk(chunk);
        if ok { PushLeaves(chunk, st, r.value.stack, items); }
      } else if IsConditional(chunk.op) {
        ok := ConditionalOp(chunk.op);
        if ok { KeptIs(items, stack); }
      } else if fExec {
        ok := ExecuteOp(chunk.op);
        if ok { DataUnused(chunk, st, Execute(old(Ctx()), chunk.op, core).value.stack, items, alt); }
      } else {
        ok := true;
        KeptIs(items, stack);
      }
    }

    lemma KeptIs(items: seq<Buf>, now: seq<Buf>)
      requires |now| <= |items| && now == items[..|now|]
      ensures now == Kept(items, |now|)
    {
    }

    lemma PushLeaves(chunk: BufChunk, st: seq<Bytes>, r: seq<Bytes>, items: seq<Buf>)
      requires chunk.BufChunk? && IsPush(chunk.op) && |items| == |st| && |r| == |stack|
      requires stack == items + [if chunk.data.Some? then chunk.data.value else falseBuf]
      ensures StepLeaves(chunk.op, chunk.data, st, r, items, altstack) && !MakesMemory(chunk.op, st, r)
    {
      hide Moved;
      PushMoves(chunk.op, chunk.data, st, r, items, altstack, stack, trueBuf, falseBuf);
    }

    lemma DataUnused(chunk: BufChunk, st: seq<Bytes>, r: seq<Bytes>, items: seq<Buf>, alt: seq<Buf>)
      requires chunk.BufChunk? && !IsPush(chunk.op) && StepLeaves(chunk.op, None, st, r, items, alt)
      ensures StepLeaves(chunk.op, chunk.data, st, r, items, alt)
    {
      hide NextItems, NextAlt, MakesMemory, IsFresh, IsVerdict;
    }

    /** Interpreter.prototype.step, told on the buffers. */
    method TakeStep() returns (ok: bool)
      requires Valid() && pc < |chunks|
      modifies this, NextWrites()
      ensures ok ==> Valid() && forall m :: m in Memory() ==> m in old(Memory()) || fresh(m)
      ensures ok == Step(old(Ctx()), old(TheState())).Ok?
      ensures ok ==> var s, c, ran := Step(old(Ctx()), old(TheState())).value, chunks[old(pc)],
                                      Executing(old(vfExec)) && !IsConditional(chunks[old(pc)].op);
                && ChunkLeaves(c, ran, old(V()), s, old(stack), old(altstack))
                && (ran && MakesMemory(c.op, old(V()), s.core.stack) ==> fresh(Top(stack, 1).mem))
      ensures ok && old(InPlaceNext()) ==>
                var op := chunks[old(pc)].op;
                |old(stack)| >= Taken(op) && Rewritten(op, old(stack), old(V()), old(Top(stack, Taken(op)).mem[..]))
    {
      hide Fetch, Step, AfterFetch, DataOf, ScriptData, ChunkData, MakesMemory, Rewritten, ChunkLeaves, NextWrites;
      StepIs(Ctx(), TheState());
      var chunk := chunks[pc];
      ChunkAt(pc);
      NextWrite(chunk);
      ok := FetchChunk();
      if ok { ok := RunChunk(chunk); }
    }

    lemma ChunkAt(i: nat)
      requires Valid() && i < |chunks|
      ensures chunks[i].data.Some? ==> chunks[i].data.value.Valid()
      ensures Ctx().script[i] == ChunkData(chunks[i]) && chunks[i] in chunks
      ensures chunks[i].BufChunk? <==> ChunkData(chunks[i]).Chunk?
    {
    }

    lemma NextWrite(chunk: BufChunk)
      requires pc < |chunks| && chunk == chunks[pc]
      ensures NextWrites() == if chunk.BufChunk? && Executing(vfExec) then WrittenBy(chunk.op) else {}
    {
    }

    // ---------- the object and the machine on shared memory ----------

    ghost function TheFixed(): (f: Fixed)
      ensures |f.script| == |chunks|
    {
      Fixed(NameScript(map[], chunks), flags, env, NameOf(map[], trueBuf), NameOf(map[], falseBuf))
    }

    ghost predicate FixedNames(names: Names) {
      forall m :: m in ChunkMems(chunks) + {trueBuf.mem, falseBuf.mem} ==> m in names && names[m] == Given(m)
    }

    /** h is a picture of the interpreter, under these names. */
    ghost predicate Depicts(names: Names, h: Shared)
      reads this, names.Keys
    {
      && Valid() && Memory() <= names.Keys && Faithful(names, h.heap) && NotYetMade(h.heap, pc) && FixedNames(names)
      && h.stack == NameAll(names, stack) && h.alt == NameAll(names, altstack)
      && h.pc == pc && h.codeSep == pbegincodehash && h.ops == nOpCount && h.vfExec == vfExec
    }

    lemma FixedNamed(names: Names)
      requires FixedNames(names)
      ensures TheFixed() == Fixed(NameScript(names, chunks), flags, env, NameOf(names, trueBuf),
                                  NameOf(names, falseBuf))
    {
      forall i | 0 <= i < |chunks| ensures NameChunk(names, chunks[i]) == NameChunk(map[], chunks[i]) {
        if chunks[i].data.Some? { assert chunks[i].data.value in DataBufs(chunks[i]); }
      }
    }

    /** What is read off the picture is what the interpreter holds. */
    lemma DepictsReads(names: Names, h: Shared)
      requires Depicts(names, h)
      ensures CtxOf(TheFixed(), h.heap) == Ctx() && StateOf(h) == TheState() && WellFormed(TheFixed(), h)
      ensures SharingLaws.Intact(TheFixed(), h) <==> Intact()
    {
      hide Faithful, InHeap, Read, NameOf, DataOf, ScriptData, NameScript, NameAll;
      FixedNamed(names);
      NamedReadAll(names, h.heap, stack);
      NamedReadAll(names, h.heap, altstack);
      NamedReadScript(names, h.heap, chunks);
      NamedReads(names, h.heap, trueBuf);
      NamedReads(names, h.heap, falseBuf);
      NamedBounds(names, falseBuf);
    }

    lemma NamedBounds(names: Names, b: Buf)
      ensures NameOf(names, b).lo == b.lo && NameOf(names, b).hi == b.hi
    {
    }

    /** The picture before a step, of the stacks that were there then. */
    ghost predicate Pictured(names: Names, h: Shared, items: seq<Buf>, alt: seq<Buf>) {
      && (forall a, b :: a in names && b in names && names[a] == names[b] ==> a == b)
      && (forall a :: a in names ==> names[a] in h.heap) && NotYetMade(h.heap, h.pc) && FixedNames(names)
      && Mems(items) + Mems(alt) <= names.Keys && AllInHeap(h.heap, h.stack)
      && h.stack == NameAll(names, items) && h.alt == NameAll(names, alt) && h.pc < |chunks|
    }

    lemma RanDepicts(names: Names, h: Shared, s: State, items: seq<Buf>, alt: seq<Buf>)
      requires Valid() && Pictured(names, h, items, alt) && chunks[h.pc].BufChunk?
      requires ChunkLeaves(chunks[h.pc], true, ReadAll(h.heap, h.stack), s, items, alt) && s.core.pc == h.pc + 1
      requires MemoryIs(names, h.heap, chunks[h.pc].op, items)
      requires MakesMemory(chunks[h.pc].op, ReadAll(h.heap, h.stack), s.core.stack) ==>
                 |stack| > 0 && Top(stack, 1).mem !in names
      ensures var c, st, r, f, mem := chunks[h.pc], ReadAll(h.heap, h.stack), s.core.stack, TheFixed(), Made(h.pc);
              var names' := if MakesMemory(c.op, st, r) then names[MemOnTop(stack, falseBuf) := mem] else names;
              Depicts(names', Shared(HeapAfter(h.heap, c.op, h.stack, r, mem),
                                     NextItems(c.op, st, r, h.stack, h.alt,
                                               NewViews(f, f.script[h.pc], st, r, h.stack, mem)),
                                     NextAlt(c.op, h.stack, h.alt), s.core.pc, s.core.codeSep, s.core.ops, s.vfExec))
    {
      hide Moved, NextItems, NextAlt, NewViews, HeapAfter, ReadAll, MakesMemory, MadeBytes, Mems, NameAll, LeftInView,
        Faithful;
      var c, st, r, f, mem := chunks[h.pc], ReadAll(h.heap, h.stack), s.core.stack, TheFixed(), Made(h.pc);
      var m := MemOnTop(stack, falseBuf);
      var made := MakesMemory(c.op, st, r);
      var names' := if made then names[m := mem] else names;
      NewNamesFixed(names, m, mem);
      FixedNamed(names');
      if made {
        NewNameUnused(names, m, mem, items);
        NewNameUnused(names, m, mem, alt);
      }
      NameMoved(names', f, c, st, r, items, alt, stack, trueBuf, falseBuf, mem);
      NameAltMoved(names', c.op, items, alt);
      StepMems(c, st, r, items, alt);
      HeapAfterHolds(h, c.op, r, mem);
      FaithfulAfter(names, h.heap, c.op, items, r, mem, m);
    }

    lemma NewNamesFixed(names: Names, m: array<Byte>, mem: Mem)
      requires FixedNames(names)
      ensures m !in names ==> FixedNames(names[m := mem])
    {
    }

    lemma StepMems(c: BufChunk, st: seq<Bytes>, r: seq<Bytes>, items: seq<Buf>, alt: seq<Buf>)
      requires c.BufChunk? && StepLeaves(c.op, c.data, st, r, items, alt) && c in chunks
      ensures Memory() <= Mems(items) + Mems(alt) + ChunkMems(chunks) + {trueBuf.mem, falseBuf.mem} +
                          (if MakesMemory(c.op, st, r) then {MemOnTop(stack, falseBuf)} else {})
    {
      hide Moved, MakesMemory;
      MovedMems(c.op, c.data, st, r, items, alt, stack, trueBuf, falseBuf);
      if c.data.Some? { assert c.data.value in DataBufs(c) && c.data.value.mem in ChunkMems(chunks); }
      if |items| >= 1 { DropMems(items, 1); }
      if |alt| >= 1 { DropMems(alt, 1); }
    }

    lemma QuietDepicts(names: Names, h: Shared, s: State, items: seq<Buf>, alt: seq<Buf>)
      requires Valid() && Pictured(names, h, items, alt) && Faithful(names, h.heap) && chunks[h.pc].BufChunk?
      requires ChunkLeaves(chunks[h.pc], false, ReadAll(h.heap, h.stack), s, items, alt) && s.core.pc == h.pc + 1
      ensures Depicts(names, h.(stack := Kept(h.stack, |s.core.stack|), pc := s.core.pc, codeSep := s.core.codeSep,
                                ops := s.core.ops, vfExec := s.vfExec))
    {
      hide Kept, ReadAll, NameAll, Faithful;
      NameKept(names, items, |s.core.stack|);
      KeptMems(items, |s.core.stack|);
    }

    lemma KeptMems(items: seq<Buf>, n: int)
      ensures Mems(Kept(items, n)) <= Mems(items)
    {
    }

    /** Under faithful names, an operand that was rewritten in place is what SharedMachine writes. */
    lemma RewrittenIs(names: Names, h: Shared, op: int, items: seq<Buf>, st: seq<Bytes>, a: array<Byte>)
      requires IsInPlace(op) && |items| == |st| >= Taken(op) && h.stack == NameAll(names, items) &&
               st == ReadAll(h.heap, h.stack)
      requires AllInHeap(h.heap, h.stack) && Mems(items) <= names.Keys
      requires forall a, b :: a in names && b in names && names[a] == names[b] ==> a == b
      requires a == Top(items, Taken(op)).mem && a in names && names[a] in h.heap
      requires Rewritten(op, items, st, h.heap[names[a]])
      ensures a[..] == NewBytes(names, h.heap, op, items, a)
    {
      hide LeftBehind, ReadAll;
      var t, y := Top(items, Taken(op)), Top(items, 1);
      NamedMap(names, items);
      assert t.mem in Mems(items) && y.mem in Mems(items);
      assert Top(h.stack, Taken(op)) == NameOf(names, t) && Top(h.stack, 1) == NameOf(names, y);
    }

    lemma DepictsPictured(names: Names, h: Shared)
      requires Depicts(names, h) && pc < |chunks|
      ensures Pictured(names, h, stack, altstack) && |h.stack| == |stack| && ReadAll(h.heap, h.stack) == V()
      ensures CtxOf(TheFixed(), h.heap) == Ctx() && StateOf(h) == TheState()
      ensures forall a :: a in names ==> names[a] in h.heap && h.heap[names[a]] == a[..]
    {
      DepictsReads(names, h);
    }

    /** What the step does to the memory that has names. */
    method StepMemory(ghost names: Names, ghost h: Shared) returns (ok: bool)
      requires Depicts(names, h) && pc < |chunks|
      modifies this, NextWrites()
      ensures ok == Step(old(Ctx()), old(TheState())).Ok?
      ensures ok ==> Valid() && forall m :: m in Memory() ==> m in old(Memory()) || fresh(m)
      ensures ok ==> var s, c, ran := Step(old(Ctx()), old(TheState())).value, chunks[old(pc)],
                                      Executing(old(vfExec)) && !IsConditional(chunks[old(pc)].op);
                && ChunkLeaves(c, ran, old(V()), s, old(stack), old(altstack))
                && (ran && MakesMemory(c.op, old(V()), s.core.stack) ==> |stack| > 0 && Top(stack, 1).mem !in names)
                && (if ran then MemoryIs(names, h.heap, c.op, old(stack)) else Faithful(names, h.heap))
    {
      hide Step, Rewritten, StepLeaves, MakesMemory, ReadAll, NameAll, DataOf, ScriptData, TheFixed, StateOf, CtxOf,
        AllInHeap,
        MemoryIs, Mems, Memory, V, Alt, Ctx;
      DepictsPictured(names, h);
      StepShared(h);
      CtxParts();
      ghost var items, c := stack, chunks[pc];
      ghost var ran := c.BufChunk? && Executing(vfExec) && !IsConditional(c.op);
      ghost var s := Step(Ctx(), TheState());
      ok := TakeStep();
      if ok && ran {
        StepLeavesTop(c, ReadAll(h.heap, h.stack), s.value.core.stack, items, old(altstack));
        MemoryFollows(names, h, c.op, items);
      }
    }

    lemma MemoryFollows(names: Names, h: Shared, op: int, items: seq<Buf>)
      requires h.stack == NameAll(names, items) && |h.stack| == |items| && AllInHeap(h.heap, h.stack) &&
               Mems(items) <= names.Keys
      requires forall a, b :: a in names && b in names && names[a] == names[b] ==> a == b
      requires forall a :: a in names ==> names[a] in h.heap
      requires forall a :: a in names && !(IsInPlace(op) && |items| >= Taken(op) && a == Top(items, Taken(op)).mem) ==>
                 a[..] == h.heap[names[a]]
      requires IsInPlace(op) && |items| >= Taken(op) && Top(items, Taken(op)).mem in names ==>
                 Rewritten(op, items, ReadAll(h.heap, h.stack), h.heap[names[Top(items, Taken(op)).mem]])
      ensures MemoryIs(names, h.heap, op, items)
    {
      hide NewBytes, Rewritten, ReadAll, NameAll, AllInHeap;
      forall a | a in names && names[a] in h.heap ensures a[..] == NewBytes(names, h.heap, op, items, a) {
        if IsInPlace(op) && |items| >= Taken(op) && a == Top(items, Taken(op)).mem {
          RewrittenIs(names, h, op, items, ReadAll(h.heap, h.stack), a);
        } else {
          NotWritten(names, h.heap, op, items, a);
        }
      }
    }

    lemma StepLeavesTop(c: BufChunk, st: seq<Bytes>, r: seq<Bytes>, items: seq<Buf>, alt: seq<Buf>)
      requires c.BufChunk? && StepLeaves(c.op, c.data, st, r, items, alt)
      ensures MakesMemory(c.op, st, r) ==> |stack| > 0
    {
    }

    /** Interpreter.prototype.step: one step of the machine on shared memory, whatever buffers share it. */
    method StepOnce(ghost names: Names, ghost h: Shared) returns (ok: bool, ghost names': Names)
      requires Depicts(names, h) && pc < |chunks|
      modifies this, NextWrites()
      ensures ok == SharedStep(TheFixed(), h).Ok?
      ensures ok ==> Depicts(names', SharedStep(TheFixed(), h).value) && pc == old(pc) + 1
      ensures ok ==> forall m :: m in Memory() ==> m in old(Memory()) || fresh(m)
    {
      hide Step, ChunkLeaves, MakesMemory, ReadAll, NameAll, DataOf, ScriptData, TheFixed, NewViews, NextItems,
        NextAlt, HeapAfter,
        StateOf, CtxOf, Depicts, Pictured, MemoryIs, Faithful, SharedStep, NextWrites, Memory;
      DepictsPictured(names, h);
      DepictsFields(names, h);
      StepAdvances(Ctx(), TheState());
      StepShared(h);
      ghost var items, alt, c := stack, altstack, chunks[pc];
      ghost var s := Step(Ctx(), TheState());
      ok := StepMemory(names, h);
      names' := names;
      if ok {
        if Executing(h.vfExec) && !IsConditional(c.op) {
          if MakesMemory(c.op, ReadAll(h.heap, h.stack), s.value.core.stack) {
            names' := names[MemOnTop(stack, falseBuf) := Made(h.pc)];
          }
          RanDepicts(names, h, s.value, items, alt);
        } else {
          QuietDepicts(names, h, s.value, items, alt);
        }
        DepictsFields(names', SharedStep(TheFixed(), h).value);
      }
    }

    lemma DepictsFields(names: Names, h: Shared)
      requires Depicts(names, h)
      ensures Valid() && h.pc == pc && h.vfExec == vfExec && |h.stack| == |stack| && |h.alt| == |altstack|
    {
    }

    /** The step on shared memory, told by the chunk. */
    lemma StepShared(h: Shared)
      requires h.pc < |chunks|
      ensures var f, c, s := TheFixed(), chunks[h.pc], Step(CtxOf(TheFixed(), h.heap), StateOf(h));
              var st := ReadAll(h.heap, h.stack);
              && |f.script| == |chunks| && f.script[h.pc] == NameChunk(map[], c) && (s.Ok? ==> c.BufChunk?)
              && SharedStep(f, h).Ok? == s.Ok?
              && (s.Ok? ==>
                    var r, mem := s.value.core.stack, Made(h.pc);
                    SharedStep(f, h).value ==
                    if Executing(h.vfExec) && !IsConditional(c.op) then
                      Shared(HeapAfter(h.heap, c.op, h.stack, r, mem),
                             NextItems(c.op, st, r, h.stack, h.alt, NewViews(f, f.script[h.pc], st, r, h.stack, mem)),
                             NextAlt(c.op, h.stack, h.alt), s.value.core.pc, s.value.core.codeSep, s.value.core.ops,
                               s.value.vfExec)
                    else
                      h.(stack := Kept(h.stack, |r|), pc := s.value.core.pc, codeSep := s.value.core.codeSep,
                         ops := s.value.core.ops, vfExec := s.value.vfExec))
    {
      hide ReadAll, NewViews, NextItems, NextAlt, HeapAfter, Kept, Step;
      var f, c := TheFixed(), chunks[h.pc];
      assert CtxOf(f, h.heap).script[h.pc] == ReadChunk(h.heap, f.script[h.pc]);
      StepIs(CtxOf(f, h.heap), StateOf(h));
    }

    // ---------- a whole script ----------

    ghost function TheShared(): Shared
      requires Valid()
      reads this, Memory()
    {
      Shared(map m | m in Memory() :: Given(m) := m[..], NameAll(map[], stack), NameAll(map[], altstack), pc,
             pbegincodehash, nOpCount,
             vfExec)
    }

    /** At first every array goes by its own name. */
    ghost function FirstNames(): Names
      reads `stack, `altstack
    {
      map m | m in Memory() :: Given(m)
    }

    lemma FirstPicture()
      requires Valid()
      ensures Depicts(FirstNames(), TheShared())
    {
      FirstNamed(stack);
      FirstNamed(altstack);
    }

    lemma FirstNamed(bs: seq<Buf>)
      ensures NameAll(map[], bs) == NameAll(FirstNames(), bs)
    {
    }

    /**
     * Interpreter.prototype.evaluate. scriptSize is the serialized length of the script. Whatever buffers
     * are shared, the run is the one of the machine on shared memory. If it disturbs no live view, it is
     * also the one of the machine on values.
     */
    method EvaluateScript(scriptSize: nat) returns (ok: bool)
      requires Valid() && pc <= |chunks|
      modifies this, Memory()
      ensures var run := SharedRun(TheFixed(), old(TheShared()), |chunks|);
              && ok == (scriptSize <= 10000 && run.Ok? && run.value.vfExec == [] &&
                        |run.value.stack| + |run.value.alt| <= MAX_STACK)
              && (ok ==> Valid() && TheState() == StateOf(run.value) && Ctx() == CtxOf(TheFixed(), run.value.heap))
      ensures old(Intact()) && RunHarmless(TheFixed(), old(TheShared())) ==>
              var run := RunTo(old(Ctx()), old(TheState()), |chunks|);
              && ok == (scriptSize <= 10000 && run.Ok? && run.value.vfExec == [] &&
                        |run.value.core.stack| + |run.value.core.alt| <= MAX_STACK)
              && (ok ==> TheState() == run.value && Ctx() == old(Ctx()))
    {
      hide SharedStep, SharedRun, Depicts, TheShared, TheFixed, StateOf, CtxOf, RunHarmless, Ctx, TheState, WellFormed,
        RunTo, Memory, NextWrites;
      ghost var f, first := TheFixed(), TheShared();
      ghost var names, h := FirstNames(), first;
      FirstPicture();
      DepictsFields(names, h);
      DepictsReads(names, h);
      if Intact() && RunHarmless(f, first) { HarmlessRun(f, first); }
      if scriptSize > 10000 { return false; }
      while pc < |chunks|
        invariant pc <= |chunks| && h.pc == pc && Depicts(names, h) && Valid()
        invariant forall m :: m in Memory() ==> m in old(Memory()) || fresh(m)
        invariant SharedRun(f, first, |chunks|) == SharedRun(f, h, |chunks|)
        decreases |chunks| - pc
      {
        WrittenIsHeld();
        SharedRunOnce(f, h, |chunks|);
        var fSuccess;
        fSuccess, names := StepOnce(names, h);
        if !fSuccess { return false; }
        h := SharedStep(f, h).value;
        DepictsFields(names, h);
      }
      SharedRunEnds(f, h);
      DepictsFields(names, h);
      DepictsReads(names, h);
      if |stack| + |altstack| > MAX_STACK { return false; }
      return |vfExec| == 0;
    }

    /** A script without in-place opcodes disturbs nothing, whatever buffers are shared. */
    lemma NoWritesHere()
      requires Valid() && pc <= |chunks| && forall c :: c in ScriptData(chunks) && c.Chunk? ==> !IsInPlace(c.op)
      ensures RunHarmless(TheFixed(), TheShared())
    {
      hide RunHarmless, IsInPlace;
      ScriptOps(chunks);
      var f := TheFixed();
      forall c | c in f.script && c.BufChunk? ensures !IsInPlace(c.op) {
        var i :| 0 <= i < |f.script| && f.script[i] == c;
        assert chunks[i] in chunks && c == NameChunk(map[], chunks[i]);
      }
      NoWritesNoHarm(f, TheShared());
    }

    lemma WrittenIsHeld()
      requires Valid()
      ensures NextWrites() <= Memory()
    {
    }

    // ---------- what a shared operand does ----------

    lemma RewrittenData(op: int, items: seq<Buf>, st: seq<Bytes>, m: Bytes)
      requires IsInPlace(op) && |items| == |st| >= Taken(op) && Rewritten(op, items, st, m)
      requires Top(items, Taken(op)).Valid() && Top(items, Taken(op)).Len() == |Top(st, Taken(op))|
      ensures var t, y := Top(items, Taken(op)), Top(items, 1);
              t.Data() == LeftBehind(op, Top(st, Taken(op)), Top(st, 1), Lag(t.mem == y.mem, t.lo, y.lo))
    {
      hide LeftBehind;
    }

    /** A mask and OP_AND: the buffer on top is masked where it lies. */
    method MaskTop(mask: Bytes)
      requires Valid() && |stack| >= 1 && |mask| == |Top(V(), 1)|
      modifies this`stack, Top(stack, 1).mem
      ensures Valid() && stack == old(stack) && Top(stack, 1).Data() == Bitwise(OP_AND, Top(old(V()), 1), mask)
    {
      hide Bitwise, InPlace, V, Ctx, Memory, RunOver, Rewritten;
      ghost var x := Top(V(), 1);
      PushNew(mask);
      assert Top(V(), 2) == x && Top(V(), 1) == mask;
      AndCases(Ctx(), V());
      ghost var items, st, m := stack, V(), Top(stack, 2).mem[..];
      TopsAre(2);
      var ok := BitwiseInPlace(OP_AND);
      RewrittenData(OP_AND, items, st, m);
      RunOverIsBitwise(OP_AND, x, mask, 0, |x|);
      assert Bitwise(OP_AND, x, mask)[..|x|] == Bitwise(OP_AND, x, mask);
    }

    lemma TopsAre(i: nat)
      requires Valid() && 1 <= i <= |stack|
      ensures Top(stack, i).Valid() && Top(stack, i).Data() == Top(V(), i) && Top(stack, i).mem in Memory()
    {
    }

    /**
     * OP_DUP, a mask, OP_AND. The duplicate is the same buffer, so both items become the masked value;
     * the value machine keeps the item below. They agree exactly when the mask clears nothing.
     */
    method MaskDuplicate(mask: Bytes)
      requires Valid() && |stack| >= 1 && |mask| == |Top(V(), 1)|
      modifies this`stack, Top(stack, 1).mem
      ensures Valid() && |stack| == |old(stack)| + 1
      ensures var x := Top(old(V()), 1);
              var masked := Bitwise(OP_AND, x, mask);
              && Top(V(), 2) == masked && Top(V(), 1) == masked
              && (V()[|V()| - 2..] == [x, masked] <==> masked == x)
    {
      hide Bitwise, V, DataOf, Memory;
      PushBuf(StackTop(1));
      MaskTop(mask);
      assert StackTop(1) == StackTop(2);
      assert V()[|V()| - 2..] == [Top(V(), 2), Top(V(), 1)];
    }

    /**
     * OP_DUP, a size, OP_NUM2BIN to more bytes than the number takes. The item below is right exactly when
     * it is not a canonical negative number; such a number loses its sign.
     */
    method WidenDuplicate(size: nat)
      requires Valid() && |stack| >= 1 && |Encode(Decode(Top(V(), 1)))| < size <= MAX_SCRIPT_ELEMENT_SIZE
      modifies this`stack, Top(stack, 1).mem
      ensures Valid() && |stack| == |old(stack)| + 1
      ensures var x := Top(old(V()), 1);
              && |Top(V(), 1)| == size && Decode(Top(V(), 1)) == Decode(x)
              && Top(V(), 2) == AfterResize(x, size)
              && (Top(V(), 2) == x <==> !Minimal(x) || Decode(x) >= 0)
              && Decode(Top(V(), 2)) == if Minimal(x) then Abs(Decode(x)) else Decode(x)
    {
      hide Minimal, Decode, Encode, Widen, V, DataOf, Memory, AfterResize;
      ghost var x := Top(V(), 1);
      PushBuf(StackTop(1));
      ghost var own := Top(stack, 1);
      WidenTop(size);
      DecodeEncode(Decode(x));
      WidenDecode(Encode(Decode(x)), size);
      WideningKeepsIff(x, size);
      TopsAre(1);
      TopsAre(2);
      assert Top(stack, 2) == own;
    }

    /** A size and OP_NUM2BIN: the number's own buffer is left as AfterResize says. */
    method WidenTop(size: nat)
      requires Valid() && |stack| >= 1 && |Encode(Decode(Top(V(), 1)))| < size <= MAX_SCRIPT_ELEMENT_SIZE
      modifies this`stack, Top(stack, 1).mem
      ensures Valid() && |stack| == |old(stack)| && Drop(stack, 1) == Drop(old(stack), 1)
      ensures Top(stack, 1).Data() == Widen(Encode(Decode(Top(old(V()), 1))), size)
      ensures old(Top(stack, 1)).Data() == AfterResize(Top(old(V()), 1), size)
    {
      hide InPlace, V, DataOf, Ctx, Memory, Widen, Encode, Decode, Minimal, ReadNumber, AfterResize, Rewritten,
        FromNumber;
      ghost var x, below, own := Top(V(), 1), Drop(stack, 1), Top(stack, 1);
      PushNumber(size);
      assert Top(V(), 2) == x && Top(V(), 1) == Encode(size);
      WidenCases(Ctx(), V(), size);
      ghost var items, st, m := stack, V(), Top(stack, 2).mem[..];
      TopsAre(2);
      var ok := NumToBinInPlace();
      assert Top(items, 2) == own;
      RewrittenData(OP_NUM2BIN, items, st, m);
      assert Drop(items, 2) == below;
    }

    /**
     * OP_DUP, OP_BIN2NUM. The item below is right exactly when the encoding is found without writing:
     * the item is minimal, zero, or has a top byte of plain zero.
     */
    method EncodeDuplicate() returns (ok: bool)
      requires Valid() && |stack| >= 1
      modifies this`stack, Top(stack, 1).mem
      ensures Valid() && ok == (|Encode(Decode(Top(old(V()), 1)))| <= flags.MaxIntegerSize())
      ensures ok ==> |stack| == |old(stack)| + 1 && Top(V(), 1) == Encode(Decode(Top(old(V()), 1)))
      ensures ok ==> Top(V(), 2) == Tidied(Top(old(V()), 1))
      ensures ok ==> (Top(V(), 2) == Top(old(V()), 1) <==> EncodesWithoutWriting(Top(old(V()), 1)))
    {
      hide V, Memory, Encode, Decode, Tidied, EncodesWithoutWriting;
      ghost var x := Top(V(), 1);
      PushBuf(StackTop(1));
      ghost var own := Top(stack, 1);
      ok := EncodeTop();
      if ok {
        TidiedIff(x);
        TopsAre(1);
        TopsAre(2);
        assert Top(stack, 2) == own;
      }
    }

    /** OP_BIN2NUM: the number's own buffer is left tidied. */
    method EncodeTop() returns (ok: bool)
      requires Valid() && |stack| >= 1
      modifies this`stack, Top(stack, 1).mem
      ensures Valid() && ok == (|Encode(Decode(Top(old(V()), 1)))| <= flags.MaxIntegerSize())
      ensures ok ==> |stack| == |old(stack)| && Drop(stack, 1) == Drop(old(stack), 1)
      ensures ok ==> Top(stack, 1).Data() == Encode(Decode(Top(old(V()), 1)))
      ensures ok ==> old(Top(stack, 1)).Data() == Tidied(Top(old(V()), 1))
    {
      hide InPlace, V, DataOf, Memory, Encode, Decode, Minimal, Tidied, Rewritten, FromNumber;
      CtxParts();
      BinToNumCases(Ctx(), V());
      DecodeEncode(Decode(Top(V(), 1)));
      ghost var items, st, m := stack, V(), Top(stack, 1).mem[..];
      TopsAre(1);
      ok := BinToNumInPlace();
      if ok { RewrittenData(OP_BIN2NUM, items, st, m); }
    }

    /**
     * OP_EQUAL on two equal items, a zero mask, OP_AND: the buffer written is Interpreter.true itself, which
     * every later comparison pushes.
     */
    method EraseTrue()
      requires Valid() && Intact() && |stack| >= 2 && Top(V(), 1) == Top(V(), 2)
      modifies this`stack, trueBuf.mem
      ensures Valid() && trueBuf.Data() == [0] && !Intact() && stack == Drop(old(stack), 2) + [trueBuf]
    {
      hide V, DataOf, Ctx, Memory, OnStack, Bitwise, Judged;
      ghost var rest := Drop(V(), 2);
      EqualCases(Ctx(), OP_EQUAL, V());
      ConcludeIs(rest, true, false, EqualVerify);
      JudgedIs(stack, rest, true, false);
      var ok := Equal(OP_EQUAL);
      assert Top(stack, 1) == trueBuf;
      TopsAre(1);
      MaskTop([0]);
      ZeroMask();
    }

    lemma ZeroMask()
      ensures Bitwise(OP_AND, TRUE, [0]) == [0]
    {
    }
  }
}
