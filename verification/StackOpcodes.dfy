/** What the opcodes that move, join, hash and compare items leave on the stack, and which of them equal others. */
module StackOpcodes {
  import opened Bytes
  import opened NumBuffers
  import opened ScriptNum
  import opened Opcode
  import opened Script
  import opened Machine
  import opened Widening
  import Multisig

  // ---------- rearranging ----------

  /** The opcodes one after the other, as long as none of them fails. */
  function InTurn(ctx: Context, ops: seq<int>, st: seq<Bytes>): Result<seq<Bytes>> {
    if ops == [] then Ok(st)
    else
      var st' :- OnStack(ctx, ops[0], st);
      InTurn(ctx, ops[1..], st')
  }

  lemma ShuffleOf(ctx: Context, op: int, st: seq<Bytes>, x: seq<Bytes>)
    requires IsShuffle(op) && |x| == Arity(op)
    ensures OnStack(ctx, op, st + x) == Ok(st + Picture(op, x))
  {
    hide Picture, Arity;
    assert (st + x)[|st|..] == x && Drop(st + x, |x|) == st;
  }

  /** One item, or two. */
  lemma SmallPictures(ctx: Context, st: seq<Bytes>, a: Bytes, b: Bytes)
    ensures OnStack(ctx, OP_DROP, st + [a]) == Ok(st)
    ensures OnStack(ctx, OP_DUP, st + [a]) == Ok(st + [a, a])
    ensures OnStack(ctx, OP_NIP, st + [a, b]) == Ok(st + [b])
    ensures OnStack(ctx, OP_OVER, st + [a, b]) == Ok(st + [a, b, a])
    ensures OnStack(ctx, OP_SWAP, st + [a, b]) == Ok(st + [b, a])
    ensures OnStack(ctx, OP_TUCK, st + [a, b]) == Ok(st + [b, a, b])
    ensures OnStack(ctx, OP_2DROP, st + [a, b]) == Ok(st)
    ensures OnStack(ctx, OP_2DUP, st + [a, b]) == Ok(st + [a, b, a, b])
  {
    hide OnStack;
    ShuffleOf(ctx, OP_DROP, st, [a]);
    ShuffleOf(ctx, OP_DUP, st, [a]);
    ShuffleOf(ctx, OP_NIP, st, [a, b]);
    ShuffleOf(ctx, OP_OVER, st, [a, b]);
    ShuffleOf(ctx, OP_SWAP, st, [a, b]);
    ShuffleOf(ctx, OP_TUCK, st, [a, b]);
    ShuffleOf(ctx, OP_2DROP, st, [a, b]);
    ShuffleOf(ctx, OP_2DUP, st, [a, b]);
    assert st + [] == st;
  }

  /** Three items or more; the first of them is the deepest. */
  lemma LargePictures(ctx: Context, st: seq<Bytes>, a: Bytes, b: Bytes, c: Bytes, d: Bytes, e: Bytes, f: Bytes)
    ensures OnStack(ctx, OP_ROT, st + [a, b, c]) == Ok(st + [b, c, a])
    ensures OnStack(ctx, OP_3DUP, st + [a, b, c]) == Ok(st + [a, b, c, a, b, c])
    ensures OnStack(ctx, OP_2OVER, st + [a, b, c, d]) == Ok(st + [a, b, c, d, a, b])
    ensures OnStack(ctx, OP_2SWAP, st + [a, b, c, d]) == Ok(st + [c, d, a, b])
    ensures OnStack(ctx, OP_2ROT, st + [a, b, c, d, e, f]) == Ok(st + [c, d, e, f, a, b])
  {
    hide OnStack;
    ShuffleOf(ctx, OP_ROT, st, [a, b, c]);
    ShuffleOf(ctx, OP_3DUP, st, [a, b, c]);
    ShuffleOf(ctx, OP_2OVER, st, [a, b, c, d]);
    ShuffleOf(ctx, OP_2SWAP, st, [a, b, c, d]);
    ShuffleOf(ctx, OP_2ROT, st, [a, b, c, d, e, f]);
  }

  lemma FirstStep(ctx: Context, st: seq<Bytes>, op: int, rest: seq<int>)
    ensures InTurn(ctx, [op] + rest, st) ==
            if OnStack(ctx, op, st).Ok? then InTurn(ctx, rest, OnStack(ctx, op, st).value) else OnStack(ctx, op, st)
  {
    hide OnStack;
    assert ([op] + rest)[1..] == rest;
  }

  lemma TwoSteps(ctx: Context, st: seq<Bytes>, p: int, q: int)
    ensures InTurn(ctx, [p, q], st) ==
            if OnStack(ctx, p, st).Ok? then OnStack(ctx, q, OnStack(ctx, p, st).value) else OnStack(ctx, p, st)
  {
    hide OnStack, InTurn;
    assert [p, q] == [p] + [q] && [q] == [q] + [];
    FirstStep(ctx, st, p, [q]);
    if OnStack(ctx, p, st).Ok? {
      var t := OnStack(ctx, p, st).value;
      FirstStep(ctx, t, q, []);
      if OnStack(ctx, q, t).Ok? { NoStep(ctx, OnStack(ctx, q, t).value); }
    }
  }

  lemma NoStep(ctx: Context, st: seq<Bytes>)
    ensures InTurn(ctx, [], st) == Ok(st)
  {
  }

  lemma ThreeSteps(ctx: Context, st: seq<Bytes>, p: int, q: int, r: int)
    ensures InTurn(ctx, [p, q, r], st) ==
            if OnStack(ctx, p, st).Ok? then InTurn(ctx, [q, r], OnStack(ctx, p, st).value) else OnStack(ctx, p, st)
  {
    hide OnStack, InTurn;
    assert [p, q, r] == [p] + [q, r];
    FirstStep(ctx, st, p, [q, r]);
  }

  lemma TooShort(ctx: Context, op: int, st: seq<Bytes>)
    requires IsShuffle(op) && |st| < Arity(op)
    ensures OnStack(ctx, op, st) == Fail(InvalidStackOperation)
  {
  }

  /** Opcodes that others can stand in for, on every stack. */
  lemma StandIns(ctx: Context, st: seq<Bytes>)
    ensures OnStack(ctx, OP_2DROP, st) == InTurn(ctx, [OP_DROP, OP_DROP], st)
    ensures OnStack(ctx, OP_NIP, st) == InTurn(ctx, [OP_SWAP, OP_DROP], st)
    ensures OnStack(ctx, OP_TUCK, st) == InTurn(ctx, [OP_SWAP, OP_OVER], st)
    ensures OnStack(ctx, OP_2DUP, st) == InTurn(ctx, [OP_OVER, OP_OVER], st)
  {
    hide OnStack, InTurn;
    TwoSteps(ctx, st, OP_DROP, OP_DROP);
    TwoSteps(ctx, st, OP_SWAP, OP_DROP);
    TwoSteps(ctx, st, OP_SWAP, OP_OVER);
    TwoSteps(ctx, st, OP_OVER, OP_OVER);
    if |st| >= 2 {
      var rest, a, b := Drop(st, 2), Top(st, 2), Top(st, 1);
      assert st == rest + [a, b] == (rest + [a]) + [b];
      SmallPictures(ctx, rest, a, b);
      SmallPictures(ctx, rest + [a], b, b);
      SmallPictures(ctx, rest, a, a);
      SmallPictures(ctx, rest, b, a);
      SmallPictures(ctx, rest + [b], a, a);
      SmallPictures(ctx, rest + [a], b, a);
      assert rest + [b, a] == (rest + [b]) + [a] && rest + [a, b, a] == (rest + [a]) + [b, a];
      assert (rest + [a]) + [b, a, b] == rest + [a, b, a, b];
    } else {
      if |st| == 1 {
        assert st == [] + [st[0]];
        SmallPictures(ctx, [], st[0], []);
        TooShort(ctx, OP_DROP, []);
      } else {
        TooShort(ctx, OP_DROP, st);
      }
      TooShort(ctx, OP_2DROP, st);
      TooShort(ctx, OP_NIP, st);
      TooShort(ctx, OP_TUCK, st);
      TooShort(ctx, OP_2DUP, st);
      TooShort(ctx, OP_SWAP, st);
      TooShort(ctx, OP_OVER, st);
    }
  }

  /** Turning a ring of two or three places all the way round restores the stack. */
  lemma FullTurns(ctx: Context, st: seq<Bytes>)
    ensures |st| >= 3 ==> InTurn(ctx, [OP_ROT, OP_ROT, OP_ROT], st) == Ok(st)
    ensures |st| >= 6 ==> InTurn(ctx, [OP_2ROT, OP_2ROT, OP_2ROT], st) == Ok(st)
    ensures |st| >= 4 ==> InTurn(ctx, [OP_2SWAP, OP_2SWAP], st) == Ok(st)
    ensures |st| >= 2 ==> InTurn(ctx, [OP_SWAP, OP_SWAP], st) == Ok(st)
  {
    hide OnStack, InTurn;
    ThreeSteps(ctx, st, OP_ROT, OP_ROT, OP_ROT);
    ThreeSteps(ctx, st, OP_2ROT, OP_2ROT, OP_2ROT);
    TwoSteps(ctx, st, OP_2SWAP, OP_2SWAP);
    TwoSteps(ctx, st, OP_SWAP, OP_SWAP);
    if |st| >= 2 {
      var rest, a, b := Drop(st, 2), Top(st, 2), Top(st, 1);
      assert st == rest + [a, b];
      SmallPictures(ctx, rest, a, b);
      SmallPictures(ctx, rest, b, a);
    }
    if |st| >= 3 {
      var rest, a, b, c := Drop(st, 3), Top(st, 3), Top(st, 2), Top(st, 1);
      assert st == rest + [a, b, c];
      LargePictures(ctx, rest, a, b, c, a, a, a);
      TwoSteps(ctx, rest + [b, c, a], OP_ROT, OP_ROT);
      LargePictures(ctx, rest, b, c, a, a, a, a);
      LargePictures(ctx, rest, c, a, b, a, a, a);
    }
    if |st| >= 4 {
      var rest, a, b, c, d := Drop(st, 4), Top(st, 4), Top(st, 3), Top(st, 2), Top(st, 1);
      assert st == rest + [a, b, c, d];
      LargePictures(ctx, rest, a, b, c, d, a, a);
      LargePictures(ctx, rest, c, d, a, b, a, a);
    }
    if |st| >= 6 {
      var rest, a, b, c := Drop(st, 6), Top(st, 6), Top(st, 5), Top(st, 4);
      var d, e, f := Top(st, 3), Top(st, 2), Top(st, 1);
      assert st == rest + [a, b, c, d, e, f];
      LargePictures(ctx, rest, a, b, c, d, e, f);
      TwoSteps(ctx, rest + [c, d, e, f, a, b], OP_2ROT, OP_2ROT);
      LargePictures(ctx, rest, c, d, e, f, a, b);
      LargePictures(ctx, rest, e, f, a, b, c, d);
    }
  }

  /** A count of at most four bytes, minimal when that is asked. */
  predicate Count(flags: Flags, n: Bytes) { |n| <= 4 && (flags.minimalData ==> Minimal(n)) }

  /** OP_PICK copies the item that has n items above it, OP_ROLL takes it out. */
  lemma PickAndRoll(ctx: Context, below: seq<Bytes>, x: Bytes, above: seq<Bytes>, n: Bytes)
    requires Count(ctx.flags, n) && Decode(n) == |above|
    ensures OnStack(ctx, OP_PICK, below + [x] + above + [n]) == Ok(below + [x] + above + [x])
    ensures OnStack(ctx, OP_ROLL, below + [x] + above + [n]) == Ok(below + above + [x])
  {
    hide Minimal, Decode;
    var st := below + [x] + above;
    OneAboveTwo(st, n);
    assert st[|below|] == x && st[..|below|] == below && st[|below| + 1..] == above;
    TwoOf(ctx, OP_PICK, st + [n]);
    TwoOf(ctx, OP_ROLL, st + [n]);
    assert Drop(st + [n], 2) + [Top(st + [n], 2)] == st;
  }

  /** They fail if the number is no count, or names no item. */
  lemma PickOutOfRange(ctx: Context, st: seq<Bytes>, n: Bytes)
    requires !Count(ctx.flags, n) || Decode(n) < 0 || Decode(n) >= |st|
    ensures OnStack(ctx, OP_PICK, st + [n]).Fail? && OnStack(ctx, OP_ROLL, st + [n]).Fail?
  {
    hide Minimal, Decode;
    if st != [] {
      OneAboveTwo(st, n);
      TwoOf(ctx, OP_PICK, st + [n]);
      TwoOf(ctx, OP_ROLL, st + [n]);
    } else {
      NothingToPick(ctx, n);
    }
  }

  lemma NothingToPick(ctx: Context, n: Bytes)
    ensures OnStack(ctx, OP_PICK, [] + [n]).Fail? && OnStack(ctx, OP_ROLL, [] + [n]).Fail?
  {
  }

  lemma OneAboveTwo(st: seq<Bytes>, n: Bytes)
    requires st != []
    ensures |st + [n]| >= 2 && Top(st + [n], 1) == n && Drop(st + [n], 2) + [Top(st + [n], 2)] == st
  {
  }

  lemma TwoOf(ctx: Context, op: int, st: seq<Bytes>)
    requires op == OP_PICK || op == OP_ROLL || op == OP_CAT || op == OP_SPLIT || op == OP_EQUAL || op == OP_EQUALVERIFY
    requires |st| >= 2
    ensures OnStack(ctx, op, st) == OnTwo(ctx, op, Drop(st, 2), Top(st, 2), Top(st, 1))
  {
    hide OnTwo;
  }

  lemma TwoOnTop(ctx: Context, op: int, st: seq<Bytes>, x: Bytes, y: Bytes)
    requires op == OP_PICK || op == OP_ROLL || op == OP_CAT || op == OP_SPLIT || op == OP_EQUAL || op == OP_EQUALVERIFY
    ensures OnStack(ctx, op, st + [x, y]) == OnTwo(ctx, op, st, x, y)
  {
    hide OnStack, OnTwo;
    TwoOf(ctx, op, st + [x, y]);
    assert Drop(st + [x, y], 2) == st;
  }

  // ---------- byte strings ----------

  /** OP_SPLIT cuts after n bytes, and OP_CAT undoes it. */
  lemma SplitThenCat(ctx: Context, st: seq<Bytes>, x: Bytes, n: Bytes)
    requires |x| <= 520
    ensures var r := OnStack(ctx, OP_SPLIT, st + [x, n]);
            if Count(ctx.flags, n) && 0 <= Decode(n) <= |x| then
              r.Ok? && |r.value| == |st| + 2 && r.value[..|st|] == st && |r.value[|st|]| == Decode(n) &&
              r.value[|st|] + r.value[|st| + 1] == x && OnStack(ctx, OP_CAT, r.value) == Ok(st + [x])
            else r.Fail?
  {
    hide OnStack, Minimal, Decode;
    TwoOnTop(ctx, OP_SPLIT, st, x, n);
    if Count(ctx.flags, n) && 0 <= Decode(n) <= |x| {
      var k := Decode(n);
      assert OnStack(ctx, OP_SPLIT, st + [x, n]) == Ok(st + [x[..k], x[k..]]);
      TwoOnTop(ctx, OP_CAT, st, x[..k], x[k..]);
      assert x[..k] + x[k..] == x;
    }
  }

  /** OP_CAT joins what 520 bytes hold, and OP_SPLIT at the length of the first part undoes it. */
  lemma CatThenSplit(ctx: Context, st: seq<Bytes>, x: Bytes, y: Bytes, n: Bytes)
    requires Count(ctx.flags, n) && Decode(n) == |x|
    ensures var r := OnStack(ctx, OP_CAT, st + [x, y]);
            if |x| + |y| <= 520 then
              r.Ok? && |r.value| == |st| + 1 && OnStack(ctx, OP_SPLIT, r.value + [n]) == Ok(st + [x, y])
            else r.Fail?
  {
    hide OnStack, Minimal, Decode;
    TwoOnTop(ctx, OP_CAT, st, x, y);
    if |x| + |y| <= 520 {
      assert st + [x + y] + [n] == st + [x + y, n];
      TwoOnTop(ctx, OP_SPLIT, st, x + y, n);
      assert (x + y)[..|x|] == x && (x + y)[|x|..] == y;
    }
  }

  /** OP_NUM2BIN leaves the number in exactly n bytes, n at most 520; zero becomes zero bytes. */
  lemma NumToBinLeaves(ctx: Context, st: seq<Bytes>, x: Bytes, n: Bytes) returns (z: Bytes)
    ensures var r := OnStack(ctx, OP_NUM2BIN, st + [x, n]);
            if Count(ctx.flags, n) && |Encode(Decode(x))| <= Decode(n) <= 520 then
              r == Ok(st + [z]) && |z| == Decode(n) && Decode(z) == Decode(x) &&
              (Decode(x) == 0 ==> forall i :: 0 <= i < |z| ==> z[i] == 0)
            else r.Fail?
  {
    hide Minimal, Decode, Encode, NumToBin, OnStack;
    var size, r := Decode(n), NumToBin(x, Decode(n));
    NumToBinExact(x, size);
    z := if r.Ok? then r.value else [];
    NumToBinOf(ctx, st, x, n);
    if r.Ok? && Decode(x) == 0 { ZeroWidened(x, size); }
  }

  lemma NumToBinOf(ctx: Context, st: seq<Bytes>, x: Bytes, n: Bytes)
    ensures var r, z := OnStack(ctx, OP_NUM2BIN, st + [x, n]), NumToBin(x, Decode(n));
            if Count(ctx.flags, n) && z.Ok? then r == Ok(st + [z.value]) else r.Fail?
  {
    hide Minimal, Decode, Encode, NumToBin;
    assert Drop(st + [x, n], 2) == st;
  }

  lemma ZeroWidened(x: Bytes, size: int)
    requires NumToBin(x, size).Ok? && Decode(x) == 0
    ensures forall i :: 0 <= i < size ==> NumToBin(x, size).value[i] == 0
    ensures |NumToBin(x, size).value| == size
  {
    hide Decode;
    assert Encode(0) == [];
  }

  /** OP_BIN2NUM leaves the canonical encoding, if that has at most four bytes, or eight with 64-bit integers. */
  lemma BinToNumLeaves(ctx: Context, st: seq<Bytes>, x: Bytes)
    ensures var n := Encode(Decode(x));
            OnStack(ctx, OP_BIN2NUM, st + [x]) ==
            if |n| <= (if ctx.flags.integers64 then 8 else 4) then Ok(st + [n]) else Fail(InvalidNumberRange)
  {
    hide Decode, Encode;
    assert Drop(st + [x], 1) == st;
  }

  lemma OneOf(ctx: Context, op: int, st: seq<Bytes>, x: Bytes)
    requires IsHash(op) || op == OP_VERIFY || op == OP_IFDUP || op == OP_REVERSEBYTES
    ensures OnStack(ctx, op, st + [x]) == OnOne(ctx, op, st, x)
  {
    hide OnOne;
    assert Drop(st + [x], 1) == st;
  }

  /** OP_REVERSEBYTES turns the item round, and twice it restores it. */
  lemma ReversedTwice(ctx: Context, st: seq<Bytes>, x: Bytes) returns (y: Bytes)
    ensures OnStack(ctx, OP_REVERSEBYTES, st + [x]) == Ok(st + [y])
    ensures OnStack(ctx, OP_REVERSEBYTES, st + [y]) == Ok(st + [x])
    ensures BigEndian(y) == LittleEndian(x)
  {
    hide OnStack;
    y := Reversed(x);
    OneOf(ctx, OP_REVERSEBYTES, st, x);
    OneOf(ctx, OP_REVERSEBYTES, st, y);
    assert Reversed(y) == x;
  }

  /** OP_VERIFY takes a true item, OP_IFDUP copies one; an item is true unless it stands for zero. */
  lemma TrueItems(ctx: Context, st: seq<Bytes>, x: Bytes)
    ensures var r := OnStack(ctx, OP_VERIFY, st + [x]); if Decode(x) != 0 then r == Ok(st) else r.Fail?
    ensures OnStack(ctx, OP_IFDUP, st + [x]) == Ok(if Decode(x) != 0 then st + [x, x] else st + [x])
    ensures OnStack(ctx, OP_RETURN, st).Fail?
  {
    hide OnStack, Decode;
    OneOf(ctx, OP_VERIFY, st, x);
    OneOf(ctx, OP_IFDUP, st, x);
    assert OnStack(ctx, OP_RETURN, st).Fail? by { Returns(ctx, st); }
  }

  lemma Returns(ctx: Context, st: seq<Bytes>)
    ensures OnStack(ctx, OP_RETURN, st).Fail?
  {
  }

  // ---------- hashes ----------

  /** The double hashes are what their names say. */
  ghost predicate Composed(env: Env) {
    forall b :: env.hash160(b) == env.ripemd160(env.sha256(b)) && env.hash256(b) == env.sha256(env.sha256(b))
  }

  lemma HashesLeave(ctx: Context, st: seq<Bytes>, x: Bytes)
    ensures OnStack(ctx, OP_RIPEMD160, st + [x]) == Ok(st + [ctx.env.ripemd160(x)])
    ensures OnStack(ctx, OP_SHA1, st + [x]) == Ok(st + [ctx.env.sha1(x)])
    ensures OnStack(ctx, OP_SHA256, st + [x]) == Ok(st + [ctx.env.sha256(x)])
    ensures OnStack(ctx, OP_HASH160, st + [x]) == Ok(st + [ctx.env.hash160(x)])
    ensures OnStack(ctx, OP_HASH256, st + [x]) == Ok(st + [ctx.env.hash256(x)])
  {
    hide OnStack;
    OneOf(ctx, OP_RIPEMD160, st, x);
    OneOf(ctx, OP_SHA1, st, x);
    OneOf(ctx, OP_SHA256, st, x);
    OneOf(ctx, OP_HASH160, st, x);
    OneOf(ctx, OP_HASH256, st, x);
  }

  /** OP_HASH160 is OP_SHA256 and then OP_RIPEMD160, and OP_HASH256 is OP_SHA256 twice. */
  lemma DoubleHashes(ctx: Context, st: seq<Bytes>, x: Bytes)
    requires Composed(ctx.env)
    ensures OnStack(ctx, OP_HASH160, st + [x]) == InTurn(ctx, [OP_SHA256, OP_RIPEMD160], st + [x])
    ensures OnStack(ctx, OP_HASH256, st + [x]) == InTurn(ctx, [OP_SHA256, OP_SHA256], st + [x])
  {
    hide OnStack, InTurn;
    HashesLeave(ctx, st, x);
    HashesLeave(ctx, st, ctx.env.sha256(x));
    TwoSteps(ctx, st + [x], OP_SHA256, OP_RIPEMD160);
    TwoSteps(ctx, st + [x], OP_SHA256, OP_SHA256);
  }

  // ---------- bits ----------

  /** One of the eight bits of a byte. */
  predicate OneBit(m: bv8) { m == 1 || m == 2 || m == 4 || m == 8 || m == 16 || m == 32 || m == 64 || m == 128 }

  function Bits(x: Byte): bv8 { x as bv8 }

  predicate HasBit(a: bv8, m: bv8) { a & m != 0 }

  predicate Has(x: Byte, m: bv8) { HasBit(Bits(x), m) }

  lemma BitOpBits(op: int, x: Byte, y: Byte, m: bv8)
    requires OneBit(m) && (op == OP_AND || op == OP_OR || op == OP_XOR)
    ensures Has(BitOp(op, x, y), m) <==>
            if op == OP_AND then Has(x, m) && Has(y, m)
            else if op == OP_OR then Has(x, m) || Has(y, m)
            else Has(x, m) != Has(y, m)
  {
    hide Bits, BitOp, HasBit, OneBit;
    BitOpIs(op, x, y);
    BitsApart(op, Bits(x), Bits(y), Bits(BitOp(op, x, y)), m);
  }

  lemma BitOpIs(op: int, x: Byte, y: Byte)
    requires op == OP_AND || op == OP_OR || op == OP_XOR
    ensures Bits(BitOp(op, x, y)) ==
            if op == OP_AND then Bits(x) & Bits(y) else if op == OP_OR then Bits(x) | Bits(y) else Bits(x) ^ Bits(y)
  {
  }

  lemma BitsApart(op: int, a: bv8, b: bv8, c: bv8, m: bv8)
    requires OneBit(m) && (op == OP_AND || op == OP_OR || op == OP_XOR)
    requires c == if op == OP_AND then a & b else if op == OP_OR then a | b else a ^ b
    ensures HasBit(c, m) <==>
            if op == OP_AND then HasBit(a, m) && HasBit(b, m)
            else if op == OP_OR then HasBit(a, m) || HasBit(b, m)
            else HasBit(a, m) != HasBit(b, m)
  {
  }

  /** OP_AND, OP_OR and OP_XOR act on every bit m of every byte of two operands of one length. */
  lemma BitwiseBits(ctx: Context, op: int, st: seq<Bytes>, x: Bytes, y: Bytes, i: nat, m: bv8) returns (z: Bytes)
    requires OneBit(m) && (op == OP_AND || op == OP_OR || op == OP_XOR)
    ensures |x| != |y| ==> OnStack(ctx, op, st + [x, y]).Fail?
    ensures |x| == |y| ==> OnStack(ctx, op, st + [x, y]) == Ok(st + [z]) && |z| == |x|
    ensures |x| == |y| && i < |x| ==>
              (Has(z[i], m) <==> if op == OP_AND then Has(x[i], m) && Has(y[i], m)
                                 else if op == OP_OR then Has(x[i], m) || Has(y[i], m)
                                 else Has(x[i], m) != Has(y[i], m))
  {
    hide Has, BitOp;
    z := if |x| == |y| then Bitwise(op, x, y) else [];
    assert Drop(st + [x, y], 2) == st;
    if |x| == |y| && i < |x| { BitOpBits(op, x[i], y[i], m); }
  }

  // ---------- the forms that verify ----------

  predicate HasVerifyForm(op: int, form: int) {
    (op == OP_EQUAL && form == OP_EQUALVERIFY) || (op == OP_NUMEQUAL && form == OP_NUMEQUALVERIFY) ||
    (op == OP_CHECKSIG && form == OP_CHECKSIGVERIFY) || (op == OP_CHECKDATASIG && form == OP_CHECKDATASIGVERIFY) ||
    (op == OP_CHECKMULTISIG && form == OP_CHECKMULTISIGVERIFY)
  }

  /** Every -VERIFY opcode is its plain form followed by OP_VERIFY: the same state, and failure in the same cases. */
  lemma VerifyForms(ctx: Context, op: int, form: int, s: Core)
    requires HasVerifyForm(op, form)
    ensures var plain, verified := Execute(ctx, op, s), Execute(ctx, form, s);
            if plain.Fail? || Execute(ctx, OP_VERIFY, plain.value).Fail? then verified.Fail?
            else verified == Execute(ctx, OP_VERIFY, plain.value)
  {
    hide Execute;
    var rest, ok;
    if op == OP_EQUAL {
      rest, ok := EqualForms(ctx, s);
    } else if op == OP_NUMEQUAL {
      rest, ok := NumEqualForms(ctx, s);
    } else if op == OP_CHECKMULTISIG {
      rest, ok := MultisigForms(ctx, s);
    } else {
      rest, ok := SigForms(ctx, op, form, s);
    }
    if Execute(ctx, op, s).Ok? {
      Truths();
      Verifies(ctx, Execute(ctx, op, s).value, rest.stack, Bool(ok));
    }
  }

  lemma Verifies(ctx: Context, s: Core, st: seq<Bytes>, b: Bytes)
    requires s.stack == st + [b]
    ensures Execute(ctx, OP_VERIFY, s) == if Decode(b) != 0 then Ok(s.(stack := st)) else Fail(VerifyFailed)
  {
    hide OnStack, Decode;
    OneOf(ctx, OP_VERIFY, st, b);
  }

  /** What the two forms of an opcode have in common: both fail, or there is a verdict on rest. */
  ghost predicate HasVerdict(plain: Result<Core>, verified: Result<Core>, rest: Core, ok: bool) {
    plain == Ok(rest.(stack := rest.stack + [Bool(ok)])) && if ok then verified == Ok(rest) else verified.Fail?
  }

  lemma SigForms(ctx: Context, op: int, form: int, s: Core) returns (rest: Core, ok: bool)
    requires HasVerifyForm(op, form) && op != OP_EQUAL && op != OP_NUMEQUAL && op != OP_CHECKMULTISIG
    ensures if Execute(ctx, op, s).Fail? then Execute(ctx, form, s).Fail?
            else HasVerdict(Execute(ctx, op, s), Execute(ctx, form, s), rest, ok)
  {
    hide Subscript, OnStack, IsShuffle;
    if op == OP_CHECKSIG {
      rest := s.(stack := if |s.stack| < 2 then [] else Drop(s.stack, 2));
      ok := |s.stack| >= 2 &&
            ctx.env.txSigValid(Top(s.stack, 2), Top(s.stack, 1), Subscript(ctx, s), [Top(s.stack, 2)]);
    } else {
      rest := s.(stack := if |s.stack| < 3 then [] else Drop(s.stack, 3));
      ok := |s.stack| >= 3 && ctx.env.dataSigValid(Top(s.stack, 3), Top(s.stack, 2), Top(s.stack, 1));
    }
  }

  lemma MultisigForms(ctx: Context, s: Core) returns (rest: Core, ok: bool)
    ensures if Execute(ctx, OP_CHECKMULTISIG, s).Fail? then Execute(ctx, OP_CHECKMULTISIGVERIFY, s).Fail?
            else HasVerdict(Execute(ctx, OP_CHECKMULTISIG, s), Execute(ctx, OP_CHECKMULTISIGVERIFY, s), rest, ok)
  {
    hide Subscript, OnStack, Multisig.CheckMultisig, CheckSig, CheckDataSig;
    var r := Multisig.CheckMultisig(ctx, s.stack, s.ops, Subscript(ctx, s));
    rest := if r.Ok? then s.(stack := r.value.rest, ops := s.ops + r.value.keys) else s;
    ok := r.Ok? && r.value.ok;
  }

  lemma EqualForms(ctx: Context, s: Core) returns (rest: Core, ok: bool)
    ensures if Execute(ctx, OP_EQUAL, s).Fail? then Execute(ctx, OP_EQUALVERIFY, s).Fail?
            else HasVerdict(Execute(ctx, OP_EQUAL, s), Execute(ctx, OP_EQUALVERIFY, s), rest, ok)
  {
    hide OnStack, CheckSig, CheckDataSig;
    rest, ok := s, false;
    if |s.stack| >= 2 {
      TwoOf(ctx, OP_EQUAL, s.stack);
      TwoOf(ctx, OP_EQUALVERIFY, s.stack);
      rest, ok := s.(stack := Drop(s.stack, 2)), Top(s.stack, 2) == Top(s.stack, 1);
    } else {
      TooFew(ctx, s.stack);
    }
  }

  lemma TooFew(ctx: Context, st: seq<Bytes>)
    requires |st| < 2
    ensures OnStack(ctx, OP_EQUAL, st).Fail? && OnStack(ctx, OP_EQUALVERIFY, st).Fail?
    ensures OnStack(ctx, OP_NUMEQUAL, st).Fail? && OnStack(ctx, OP_NUMEQUALVERIFY, st).Fail?
  {
  }

  lemma NumEqualForms(ctx: Context, s: Core) returns (rest: Core, ok: bool)
    ensures if Execute(ctx, OP_NUMEQUAL, s).Fail? then Execute(ctx, OP_NUMEQUALVERIFY, s).Fail?
            else HasVerdict(Execute(ctx, OP_NUMEQUAL, s), Execute(ctx, OP_NUMEQUALVERIFY, s), rest, ok)
  {
    hide OnStack, CheckSig, CheckDataSig, ReadNumber, Encode, Decode;
    rest, ok := s, false;
    if |s.stack| >= 2 {
      var st, x, y := Drop(s.stack, 2), Top(s.stack, 2), Top(s.stack, 1);
      assert s.stack == st + [x, y];
      NumEqualOf(ctx, OP_NUMEQUAL, st, x, y);
      NumEqualOf(ctx, OP_NUMEQUALVERIFY, st, x, y);
      Truths();
      rest, ok := s.(stack := st), Decode(x) == Decode(y);
    } else {
      TooFew(ctx, s.stack);
    }
  }

  lemma NumEqualOf(ctx: Context, op: int, st: seq<Bytes>, x: Bytes, y: Bytes)
    requires op == OP_NUMEQUAL || op == OP_NUMEQUALVERIFY
    ensures var readable := ReadNumber(x, ctx.flags.minimalData, ctx.flags.MaxIntegerSize()).Ok? &&
                            ReadNumber(y, ctx.flags.minimalData, ctx.flags.MaxIntegerSize()).Ok?;
            var r, equal := OnStack(ctx, op, st + [x, y]), Decode(x) == Decode(y);
            if !readable then r.Fail?
            else if op == OP_NUMEQUAL then r == Ok(st + [Bool(equal)])
            else if equal then r == Ok(st)
            else r.Fail?
  {
    hide Minimal, Decode, Encode;
    assert Drop(st + [x, y], 2) == st;
    Truths();
  }

  lemma Truths()
    ensures Decode(TRUE) == 1 && Decode(FALSE) == 0 && Encode(1) == TRUE && Encode(0) == FALSE
  {
    assert Encode(1) == [1];
  }

  // ---------- the second stack ----------

  /** An item put on the alternative stack comes back to the main stack, last in first out. */
  lemma AltStackRoundTrip(ctx: Context, s: Core)
    requires |s.stack| >= 1
    ensures var there := Execute(ctx, OP_TOALTSTACK, s);
            there.Ok? && there.value.alt == s.alt + [Top(s.stack, 1)] && there.value.stack == Drop(s.stack, 1) &&
            Execute(ctx, OP_FROMALTSTACK, there.value) == Ok(s)
  {
    assert Drop(s.alt + [Top(s.stack, 1)], 1) == s.alt && Drop(s.stack, 1) + [Top(s.stack, 1)] == s.stack;
  }

  // ---------- lock times ----------

  /** The operand of a lock-time opcode: at most five bytes, minimal when that is asked, and not negative. */
  predicate LockOperand(flags: Flags, x: Bytes) { |x| <= 5 && (flags.minimalData ==> Minimal(x)) && Decode(x) >= 0 }

  /** OP_CHECKLOCKTIMEVERIFY and OP_CHECKSEQUENCEVERIFY never change the stack; this is when they let it pass. */
  lemma LockTimes(ctx: Context, st: seq<Bytes>, x: Bytes)
    ensures OnStack(ctx, OP_NOP2, st + [x]) == Ok(st + [x]) <==>
            if ctx.flags.checkLockTime then LockOperand(ctx.flags, x) && ctx.env.lockTimeReached(Decode(x))
            else !ctx.flags.discourageNops
    ensures OnStack(ctx, OP_NOP3, st + [x]) == Ok(st + [x]) <==>
            if ctx.flags.checkSequence then LockOperand(ctx.flags, x) && (Decode(x) / 0x8000_0000) % 2 == 1
            else !ctx.flags.discourageNops
    ensures OnStack(ctx, OP_NOP2, st + [x]).Ok? ==> OnStack(ctx, OP_NOP2, st + [x]).value == st + [x]
    ensures OnStack(ctx, OP_NOP3, st + [x]).Ok? ==> OnStack(ctx, OP_NOP3, st + [x]).value == st + [x]
  {
    hide Minimal, Decode;
  }
}
