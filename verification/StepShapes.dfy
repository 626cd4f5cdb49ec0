/** Every opcode of the value machine keeps the items below its operands, and puts what it makes on top. */
module StepShapes {
  import opened Bytes
  import opened ScriptNum
  import opened Opcode
  import opened Script
  import opened Machine
  import opened OpcodeCases
  import opened SharedMachine
  import Multisig

  // ---------- the shape of a step does not depend on what the items are ----------

  function MapAll<T, U>(f: T -> U, s: seq<T>): (r: seq<U>)
    ensures |r| == |s| && forall i :: 0 <= i < |s| ==> r[i] == f(s[i])
  {
    seq(|s|, i requires 0 <= i < |s| => f(s[i]))
  }

  lemma MapPicture<T, U>(f: T -> U, op: int, x: seq<T>)
    requires IsShuffle(op) && |x| == Arity(op)
    ensures MapAll(f, Picture(op, x)) == Picture(op, MapAll(f, x))
  {
    var a, b := MapAll(f, Picture(op, x)), Picture(op, MapAll(f, x));
    assert |a| == |b|;
    forall i | 0 <= i < |a| ensures a[i] == b[i] {
    }
  }

  lemma MapSplit<T, U>(f: T -> U, s: seq<T>, n: nat)
    requires n <= |s|
    ensures MapAll(f, s[..n]) == MapAll(f, s)[..n] && MapAll(f, s[n..]) == MapAll(f, s)[n..]
  {
  }

  lemma MapConcat<T, U>(f: T -> U, a: seq<T>, b: seq<T>)
    ensures MapAll(f, a + b) == MapAll(f, a) + MapAll(f, b)
  {
  }

  lemma MapShuffle<T, U>(f: T -> U, op: int, items: seq<T>)
    requires IsShuffle(op) && |items| >= Arity(op)
    ensures MapAll(f, Shuffle(op, items).value) == Shuffle(op, MapAll(f, items)).value
  {
    hide Picture, Arity, IsShuffle, MapAll;
    var n := |items| - Arity(op);
    MapSplit(f, items, n);
    MapPicture(f, op, items[n..]);
    MapConcat(f, items[..n], Picture(op, items[n..]));
  }

  lemma MapMove<T, U>(f: T -> U, op: int, items: seq<T>, n: int)
    requires 0 <= n < |items|
    ensures MapAll(f, PickOrRoll(op, items, n).value) == PickOrRoll(op, MapAll(f, items), n).value
  {
  }

  lemma MapTop<T, U>(f: T -> U, items: seq<T>, from: seq<T>)
    requires |from| >= 1
    ensures MapAll(f, items + [Top(from, 1)]) == MapAll(f, items) + [Top(MapAll(f, from), 1)]
    ensures MapAll(f, Drop(from, 1)) == Drop(MapAll(f, from), 1)
  {
  }

  lemma MapKept<T, U>(f: T -> U, items: seq<T>, n: int)
    ensures MapAll(f, Kept(items, n)) == Kept(MapAll(f, items), n)
  {
  }

  /** Renaming or reading the items commutes with what a step does to the stack. */
  lemma MapNext<T, U>(f: T -> U, op: int, st: seq<Bytes>, r: seq<Bytes>, items: seq<T>, alt: seq<T>, above: seq<T>)
    requires |items| == |st|
    ensures MapAll(f, NextItems(op, st, r, items, alt, above)) ==
            NextItems(op, st, r, MapAll(f, items), MapAll(f, alt), MapAll(f, above))
  {
    hide Shuffle, PickOrRoll, Decode, Arity, IsShuffle, MapAll, Kept;
    MapKept(f, items, |r| - |above|);
    MapConcat(f, Kept(items, |r| - |above|), above);
    if IsShuffle(op) && |items| >= Arity(op) {
      MapShuffle(f, op, items);
    } else if (op == OP_PICK || op == OP_ROLL) && |st| >= 1 && 0 <= Decode(Top(st, 1)) < |st| - 1 {
      MapMove(f, op, Drop(items, 1), Decode(Top(st, 1)));
      MapTop(f, items, items);
    } else if op == OP_IFDUP && 1 <= |st| < |r| {
      MapTop(f, items, items);
    } else if op == OP_FROMALTSTACK && |alt| >= 1 {
      MapTop(f, items, alt);
    }
  }

  lemma MapNextAlt<T, U>(f: T -> U, op: int, items: seq<T>, alt: seq<T>)
    ensures MapAll(f, NextAlt(op, items, alt)) == NextAlt(op, MapAll(f, items), MapAll(f, alt))
  {
    hide MapAll;
    if |items| >= 1 { MapTop(f, alt, items); }
    if |alt| >= 1 { MapTop(f, alt, alt); }
  }

  // ---------- what the opcodes do to the values ----------

  lemma SplitTop<T>(s: seq<T>)
    requires |s| > 0
    ensures s == Drop(s, 1) + [Top(s, 1)] && Drop(s, 1) == s[..|s| - 1]
  {
  }

  /** The values on top of r that no item was before. */
  function NewValues(op: int, r: seq<Bytes>): seq<Bytes> {
    if |r| == 0 then []
    else if IsPush(op) || IsVerdict(op) || IsFresh(op) then [Top(r, 1)]
    else if op == OP_SPLIT && |r| >= 2 then [Top(r, 2), Top(r, 1)]
    else []
  }

  /** r is what NextItems makes of the items themselves. */
  predicate Follows(op: int, st: seq<Bytes>, alt: seq<Bytes>, r: seq<Bytes>) {
    r == NextItems(op, st, r, st, alt, NewValues(op, r))
  }

  lemma OneNew(op: int, st: seq<Bytes>, alt: seq<Bytes>, r: seq<Bytes>, n: nat, x: Bytes)
    requires IsVerdict(op) || IsFresh(op)
    requires n <= |st| && r == Drop(st, n) + [x]
    ensures Follows(op, st, alt, r)
  {
    MakerKinds(op);
    hide IsVerdict, IsFresh, IsShuffle, Decode;
    assert Kept(st, |r| - 1) == Drop(st, n);
  }

  lemma MakerKinds(op: int)
    requires IsVerdict(op) || IsFresh(op)
    ensures !IsShuffle(op) && op != OP_PICK && op != OP_ROLL && op != OP_IFDUP && op != OP_FROMALTSTACK &&
            op != OP_TOALTSTACK
    ensures op != OP_SPLIT && !IsPush(op) && !IsInPlace(op)
  {
  }

  /** An opcode that moves nothing: it drops n items and makes none. */
  predicate IsDrop(op: int) {
    !IsPush(op) && !IsVerdict(op) && !IsFresh(op) && !IsShuffle(op) && op != OP_SPLIT && op != OP_PICK &&
      op != OP_ROLL &&
    op != OP_IFDUP && op != OP_FROMALTSTACK && !IsInPlace(op)
  }

  lemma OnlyDrops(op: int, st: seq<Bytes>, alt: seq<Bytes>, r: seq<Bytes>, n: nat)
    requires IsDrop(op) && n <= |st| && r == Drop(st, n)
    ensures Follows(op, st, alt, r)
  {
    assert Kept(st, |r|) + [] == Drop(st, n);
  }

  lemma UnaryShape(ctx: Context, op: int, st: seq<Bytes>, alt: seq<Bytes>)
    requires IsUnary(op) || IsHash(op) || op == OP_REVERSEBYTES
    requires OnStack(ctx, op, st).Ok?
    ensures Follows(op, st, alt, OnStack(ctx, op, st).value)
  {
    hide OnStack, UnaryItems, HashOf, Reversed, Follows, NextItems;
    var r := OnStack(ctx, op, st).value;
    if IsUnary(op) { OnStackUnary(ctx, op, st); UnaryCases(ctx.flags, op, st); } else { HashCases(ctx, op, st); }
    OneNew(op, st, alt, r, 1, Top(r, 1));
  }

  lemma BinaryShape(ctx: Context, op: int, st: seq<Bytes>, alt: seq<Bytes>)
    requires IsBinary(op) && OnStack(ctx, op, st).Ok?
    ensures Follows(op, st, alt, OnStack(ctx, op, st).value)
  {
    hide OnStack, BinaryOf, Follows, NextItems, Encode, Truthy;
    var r := OnStack(ctx, op, st).value;
    OnStackBinary(ctx, op, st);
    BinaryCases(ctx.flags, op, st);
    if op == OP_NUMEQUALVERIFY { OnlyDrops(op, st, alt, r, 2); } else { OneNew(op, st, alt, r, 2, Top(r, 1)); }
  }

  lemma ByteStringShape(ctx: Context, op: int, st: seq<Bytes>, alt: seq<Bytes>)
    requires op == OP_EQUAL || op == OP_EQUALVERIFY || op == OP_CAT || op == OP_SPLIT || op == OP_WITHIN
    requires OnStack(ctx, op, st).Ok?
    ensures Follows(op, st, alt, OnStack(ctx, op, st).value)
  {
    hide OnStack, Follows, NextItems, ReadNumber;
    var r := OnStack(ctx, op, st).value;
    if op == OP_EQUAL || op == OP_EQUALVERIFY {
      EqualCases(ctx, op, st);
      if op == OP_EQUAL { OneNew(op, st, alt, r, 2, Top(r, 1)); } else { OnlyDrops(op, st, alt, r, 2); }
    } else if op == OP_CAT {
      CatCases(ctx, st);
      OneNew(op, st, alt, r, 2, Top(r, 1));
    } else if op == OP_WITHIN {
      WithinCases(ctx, st);
      OneNew(op, st, alt, r, 3, Top(r, 1));
    } else {
      SplitCases(ctx, st);
      SplitShape(st, alt, r);
    }
  }

  lemma SplitShape(st: seq<Bytes>, alt: seq<Bytes>, r: seq<Bytes>)
    requires |r| == |st| >= 2 && Drop(r, 2) == Drop(st, 2)
    ensures Follows(OP_SPLIT, st, alt, r)
  {
    assert Kept(st, |r| - 2) == Drop(r, 2);
    assert r == Drop(r, 2) + [Top(r, 2), Top(r, 1)];
  }

  lemma ConstantShape(ctx: Context, op: int, st: seq<Bytes>, alt: seq<Bytes>)
    requires IsSmallInt(op) || op == OP_DEPTH || op == OP_SIZE
    requires OnStack(ctx, op, st).Ok?
    ensures Follows(op, st, alt, OnStack(ctx, op, st).value)
  {
    hide OnStack, Follows, NextItems, Encode;
    var r := OnStack(ctx, op, st).value;
    ConstantCases(ctx, op, st);
    assert Drop(st, 0) == st;
    OneNew(op, st, alt, r, 0, Top(r, 1));
  }

  lemma RearrangeShape(ctx: Context, op: int, st: seq<Bytes>, alt: seq<Bytes>)
    requires IsShuffle(op) || op == OP_PICK || op == OP_ROLL || op == OP_IFDUP || op == OP_VERIFY
    requires OnStack(ctx, op, st).Ok?
    ensures Follows(op, st, alt, OnStack(ctx, op, st).value)
  {
    hide OnStack, ReadNumber, Decode, Picture, PickOrRoll, Truthy;
    var r := OnStack(ctx, op, st).value;
    if op == OP_IFDUP {
      IfDupCases(ctx, st);
      assert Kept(st, |st|) + [] == st;
    } else if op == OP_VERIFY {
      VerifyCases(ctx, st);
      assert Drop(st, 1) + [] == Drop(st, 1);
      OnlyDrops(op, st, alt, r, 1);
    } else if op == OP_PICK || op == OP_ROLL {
      PickRollCases(ctx, op, st);
      NumberIsDecoded(Top(st, 1), ctx.flags.minimalData, 4);
      PickRange(op, Drop(st, 1), Decode(Top(st, 1)));
    } else {
      ShuffleCases(ctx, op, st);
    }
  }

  lemma PickRange<T>(op: int, st: seq<T>, n: int)
    ensures PickOrRoll(op, st, n).Ok? <==> 0 <= n < |st|
  {
  }

  lemma NopShape(ctx: Context, op: int, st: seq<Bytes>, alt: seq<Bytes>)
    requires op == OP_NOP || op == OP_NOP2 || op == OP_NOP3 || IsNop(op)
    requires OnStack(ctx, op, st).Ok?
    ensures Follows(op, st, alt, OnStack(ctx, op, st).value)
  {
    hide OnStack, ReadNumber, Follows, NextItems;
    NopCases(ctx, op, st);
    assert Drop(st, 0) == st;
    OnlyDrops(op, st, alt, st, 0);
  }

  lemma OnStackShape(ctx: Context, op: int, st: seq<Bytes>, alt: seq<Bytes>)
    requires !IsInPlace(op) && OnStack(ctx, op, st).Ok?
    ensures Follows(op, st, alt, OnStack(ctx, op, st).value)
  {
    hide OnStack, Follows;
    OnStackGroups(ctx, op, st);
    if IsUnary(op) || IsHash(op) || op == OP_REVERSEBYTES { UnaryShape(ctx, op, st, alt); }
    else if IsBinary(op) { BinaryShape(ctx, op, st, alt); }
    else if op == OP_WITHIN || IsByteString(op) { ByteStringShape(ctx, op, st, alt); }
    else if IsSmallInt(op) || op == OP_DEPTH || op == OP_SIZE { ConstantShape(ctx, op, st, alt); }
    else if op == OP_NOP || op == OP_NOP2 || op == OP_NOP3 || IsNop(op) { NopShape(ctx, op, st, alt); }
    else { RearrangeShape(ctx, op, st, alt); }
  }

  // ---------- the opcodes beyond the main stack ----------

  lemma CheckShape(ctx: Context, op: int, s: Core)
    requires IsCheck(op) && Execute(ctx, op, s).Ok?
    ensures Follows(op, s.stack, s.alt, Execute(ctx, op, s).value.stack) && Execute(ctx, op, s).value.alt == s.alt
  {
    hide Follows, Multisig.CheckMultisig;
    var r := Execute(ctx, op, s).value.stack;
    if op == OP_CHECKSIG { OneNew(op, s.stack, s.alt, r, 2, Top(r, 1)); }
    else if op == OP_CHECKSIGVERIFY { OnlyDrops(op, s.stack, s.alt, r, 2); }
    else if op == OP_CHECKDATASIG { OneNew(op, s.stack, s.alt, r, 3, Top(r, 1)); }
    else if op == OP_CHECKDATASIGVERIFY { OnlyDrops(op, s.stack, s.alt, r, 3); }
    else { MultisigShape(ctx, op, s); }
  }

  lemma MultisigShape(ctx: Context, op: int, s: Core)
    requires op == OP_CHECKMULTISIG || op == OP_CHECKMULTISIGVERIFY
    requires Execute(ctx, op, s).Ok?
    ensures Follows(op, s.stack, s.alt, Execute(ctx, op, s).value.stack) && Execute(ctx, op, s).value.alt == s.alt
  {
    hide Follows, Execute, Multisig.CheckMultisig;
    ExecuteMultisig(ctx, op, s);
    var r := Execute(ctx, op, s).value.stack;
    var rest := Multisig.CheckMultisig(ctx, s.stack, s.ops, Subscript(ctx, s)).value.rest;
    Multisig.CheckMultisigVerdict(ctx, s.stack, s.ops, Subscript(ctx, s));
    var n := |s.stack| - |rest|;
    assert rest == Drop(s.stack, n);
    if op == OP_CHECKMULTISIG { OneNew(op, s.stack, s.alt, r, n, Top(r, 1)); }
    else {
      assert rest + [] == rest;
      OnlyDrops(op, s.stack, s.alt, r, n);
    }
  }

  lemma AltShape(ctx: Context, op: int, s: Core)
    requires op == OP_TOALTSTACK || op == OP_FROMALTSTACK || op == OP_CODESEPARATOR
    requires Execute(ctx, op, s).Ok?
    ensures Follows(op, s.stack, s.alt, Execute(ctx, op, s).value.stack)
    ensures Execute(ctx, op, s).value.alt == NextAlt(op, s.stack, s.alt)
  {
    var r := Execute(ctx, op, s).value.stack;
    if op == OP_FROMALTSTACK {
      assert NewValues(op, r) == [];
    } else if op == OP_TOALTSTACK { OnlyDrops(op, s.stack, s.alt, r, 1); }
    else { assert Drop(s.stack, 0) == s.stack; OnlyDrops(op, s.stack, s.alt, r, 0); }
  }

  /** Every opcode but those that write in place, in an executing branch. */
  lemma ExecuteShape(ctx: Context, op: int, s: Core)
    requires !IsInPlace(op) && Execute(ctx, op, s).Ok?
    ensures Follows(op, s.stack, s.alt, Execute(ctx, op, s).value.stack)
    ensures Execute(ctx, op, s).value.alt == NextAlt(op, s.stack, s.alt)
  {
    hide Follows, OnStack, CheckSig, CheckDataSig, Multisig.CheckMultisig;
    if op == OP_TOALTSTACK || op == OP_FROMALTSTACK || op == OP_CODESEPARATOR { AltShape(ctx, op, s); }
    else if IsCheck(op) { CheckShape(ctx, op, s); }
    else { OnStackShape(ctx, op, s.stack, s.alt); }
  }

  // ---------- a whole step ----------

  lemma PushShape(ctx: Context, c: Chunk, s: Core)
    requires c.Chunk? && IsPush(c.op) && Push(ctx, c, s).Ok?
    ensures var r := Push(ctx, c, s).value;
            && Follows(c.op, s.stack, s.alt, r.stack) && r.alt == NextAlt(c.op, s.stack, s.alt)
            && |r.stack| > 0 && Top(r.stack, 1) == if c.data.Some? then c.data.value else FALSE
  {
    hide IsShuffle, MinimalPush;
    var r := Push(ctx, c, s).value.stack;
    PushKinds(c.op);
    assert Kept(s.stack, |r| - 1) == s.stack;
  }

  lemma PushKinds(op: int)
    requires IsPush(op)
    ensures !IsShuffle(op) && !IsInPlace(op) && !IsFresh(op) && !IsVerdict(op) && !IsConditional(op)
  {
  }

  /** A chunk that is run, unless it writes in place. */
  lemma RunShape(ctx: Context, s: State)
    requires s.core.pc < |ctx.script| && Step(ctx, s).Ok? && Executing(s.vfExec)
    ensures var c, st, r := ctx.script[s.core.pc], s.core.stack, Step(ctx, s).value.core;
            c.Chunk? && (!IsConditional(c.op) && !IsInPlace(c.op) ==>
              && Follows(c.op, st, s.core.alt, r.stack) && r.alt == NextAlt(c.op, st, s.core.alt)
              && (IsPush(c.op) ==> |r.stack| > 0 && Top(r.stack, 1) == if c.data.Some? then c.data.value else FALSE))
  {
    hide Follows, Execute, Push, NextAlt;
    var c := ctx.script[s.core.pc];
    var core := Fetch(ctx, c, s.core).value;
    if !IsConditional(c.op) && !IsInPlace(c.op) {
      if IsPush(c.op) { PushShape(ctx, c, core); } else { ExecuteShape(ctx, c.op, core); }
    }
  }

  /** The verdicts are the two constants. */
  lemma VerdictShape(ctx: Context, s: State)
    requires s.core.pc < |ctx.script| && Step(ctx, s).Ok? && Executing(s.vfExec)
    requires ctx.script[s.core.pc].Chunk? && IsVerdict(ctx.script[s.core.pc].op)
    ensures var r := Step(ctx, s).value.core.stack; |r| > 0 && (Top(r, 1) == TRUE || Top(r, 1) == FALSE)
  {
    hide Multisig.CheckMultisig, OnStack, ReadNumber;
    var c := ctx.script[s.core.pc];
    var core := Fetch(ctx, c, s.core).value;
    if c.op == OP_EQUAL { EqualCases(ctx, c.op, core.stack); }
    else if c.op == OP_WITHIN { WithinCases(ctx, core.stack); }
    else if c.op == OP_CHECKMULTISIG { ExecuteMultisig(ctx, c.op, core); }
  }

  /** A conditional pops at most its condition; a skipped chunk does nothing. */
  lemma QuietShape(ctx: Context, s: State)
    requires s.core.pc < |ctx.script| && Step(ctx, s).Ok?
    ensures var c, r := ctx.script[s.core.pc], Step(ctx, s).value.core;
            c.Chunk? && (IsConditional(c.op) || !Executing(s.vfExec) ==>
              r.stack == Kept(s.core.stack, |r.stack|) && r.alt == s.core.alt)
  {
    hide Plain, Truthy;
    assert Kept(s.core.stack, |s.core.stack|) == s.core.stack;
  }

  /** An in-place opcode that runs is InPlace on the stack, and nothing else. */
  lemma InPlaceStep(ctx: Context, s: State)
    requires s.core.pc < |ctx.script| && Step(ctx, s).Ok? && Executing(s.vfExec)
    requires ctx.script[s.core.pc].Chunk? && IsInPlace(ctx.script[s.core.pc].op)
    ensures var op, st, r := ctx.script[s.core.pc].op, s.core.stack, Step(ctx, s).value.core;
            InPlace(ctx, op, st) == Ok(r.stack) && r.alt == s.core.alt
  {
    hide InPlace;
    var c := ctx.script[s.core.pc];
    OnStackGroups(ctx, c.op, s.core.stack);
  }
}
