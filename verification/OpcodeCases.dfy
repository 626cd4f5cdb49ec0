/** The opcodes of the value machine one by one, in the terms in which the interpreter's methods meet them. */
module OpcodeCases {
  import opened Bytes
  import opened ScriptNum
  import opened Bitfield
  import opened Opcode
  import opened Script
  import opened Machine
  import opened Views
  import opened Widening
  import Multisig

  ghost predicate Agrees<T>(r: Result<T>, ok: bool, v: T) { ok == r.Ok? && (ok ==> v == r.value) }

  ghost function UnaryOf(flags: Flags, op: int, x: Bytes): Result<int>
    requires IsUnary(op)
  {
    var n :- ReadNumber(x, flags.minimalData, flags.MaxIntegerSize());
    Unary(op, n, flags.MaxIntegerSize())
  }

  ghost function UnaryItems(flags: Flags, op: int, st: seq<Bytes>): Option<seq<Bytes>>
    requires IsUnary(op)
  {
    if |st| < 1 || UnaryOf(flags, op, Top(st, 1)).Fail? then None
    else Some([Encode(UnaryOf(flags, op, Top(st, 1)).value)])
  }

  ghost function BinaryItems(flags: Flags, op: int, st: seq<Bytes>): Option<seq<Bytes>>
    requires IsBinary(op)
  {
    if |st| < 2 || BinaryOf(flags, op, Top(st, 2), Top(st, 1)).Fail? then None
    else
      var r := BinaryOf(flags, op, Top(st, 2), Top(st, 1)).value;
      Some([Encode(r)])
  }

  lemma UnaryCases(flags: Flags, op: int, st: seq<Bytes>)
    requires IsUnary(op)
    ensures var items := UnaryItems(flags, op, st);
            if |st| < 1 then items.None?
            else
              var r := Optional(UnaryOf(flags, op, Top(st, 1)));
              items == if r.None? then None else Some([Encode(r.value)])
  {
  }

  lemma BinaryCases(flags: Flags, op: int, st: seq<Bytes>)
    requires IsBinary(op)
    ensures var items := BinaryItems(flags, op, st);
            if |st| < 2 then items.None?
            else
              var r := Optional(BinaryOf(flags, op, Top(st, 2), Top(st, 1)));
              items == if r.None? then None else Some([Encode(r.value)])
  {
  }

  /** The opcode failed, or put new items in the place of the top n. */
  ghost predicate Replaces(st: seq<Bytes>, n: nat, items: Option<seq<Bytes>>, ok: bool, st': seq<Bytes>)
    requires items.Some? ==> n <= |st|
  {
    ok == items.Some? && (ok ==> st' == Drop(st, n) + items.value)
  }

  lemma ReplacedBy(st: seq<Bytes>, n: nat, items: Option<seq<Bytes>>, x: Bytes, st': seq<Bytes>)
    requires n <= |st| && items == Some([x]) && st' == Drop(st, n) + [x]
    ensures Replaces(st, n, items, true, st')
  {
  }

  ghost function BinaryOf(flags: Flags, op: int, x: Bytes, y: Bytes): Result<int>
    requires IsBinary(op)
  {
    var a :- ReadNumber(x, flags.minimalData, flags.MaxIntegerSize());
    var b :- ReadNumber(y, flags.minimalData, flags.MaxIntegerSize());
    Binary(op, a, b, flags.MaxIntegerSize())
  }

  lemma WithinCases(ctx: Context, st: seq<Bytes>)
    ensures var spec := OnStack(ctx, OP_WITHIN, st);
            if |st| < 3 then spec.Fail?
            else
              var max := ctx.flags.MaxIntegerSize();
              var x := Optional(ReadNumber(Top(st, 3), ctx.flags.minimalData, max));
              var lo := Optional(ReadNumber(Top(st, 2), ctx.flags.minimalData, max));
              var hi := Optional(ReadNumber(Top(st, 1), ctx.flags.minimalData, max));
              if x.None? || lo.None? || hi.None? then spec.Fail?
              else spec == Ok(Drop(st, 3) + [Bool(lo.value <= x.value < hi.value)])
  {
    hide ReadNumber;
  }

  lemma EqualCases(ctx: Context, op: int, st: seq<Bytes>)
    requires op == OP_EQUAL || op == OP_EQUALVERIFY
    ensures OnStack(ctx, op, st) ==
            if |st| < 2 then Fail(InvalidStackOperation)
            else Conclude(Drop(st, 2), Top(st, 2) == Top(st, 1), op == OP_EQUALVERIFY, EqualVerify)
  {
    hide Conclude;
  }

  lemma CatCases(ctx: Context, st: seq<Bytes>)
    ensures OnStack(ctx, OP_CAT, st) ==
            if |st| < 2 then Fail(InvalidStackOperation)
            else if |Top(st, 2)| + |Top(st, 1)| > MAX_SCRIPT_ELEMENT_SIZE then Fail(PushSize)
            else Ok(Drop(st, 2) + [Top(st, 2) + Top(st, 1)])
  {
  }

  lemma SplitCases(ctx: Context, st: seq<Bytes>)
    ensures var spec := OnStack(ctx, OP_SPLIT, st);
            if |st| < 2 then spec.Fail?
            else
              var n, x := Optional(ReadNumber(Top(st, 1), ctx.flags.minimalData, 4)), Top(st, 2);
              if n.None? || n.value < 0 || n.value > |x| then spec.Fail?
              else spec == Ok(Drop(st, 2) + [x[..n.value], x[n.value..]])
  {
    hide ReadNumber;
  }

  lemma ConstantCases(ctx: Context, op: int, st: seq<Bytes>)
    requires IsSmallInt(op) || op == OP_DEPTH || op == OP_SIZE
    ensures OnStack(ctx, op, st) ==
            if op == OP_SIZE then
              if |st| < 1 then Fail(InvalidStackOperation) else Ok(st + [Encode(|Top(st, 1)|)])
            else Ok(st + [Encode(if op == OP_DEPTH then |st| else op - (OP_1 - 1))])
  {
    hide Encode;
    if |st| >= 1 { assert forall n :: Drop(st, 1) + [Top(st, 1), n] == st + [n]; }
  }

  lemma IfDupCases(ctx: Context, st: seq<Bytes>)
    ensures OnStack(ctx, OP_IFDUP, st) ==
            if |st| < 1 then Fail(InvalidStackOperation)
            else Ok(if Truthy(Top(st, 1)) then st + [Top(st, 1)] else st)
  {
    hide Truthy;
    if |st| >= 1 {
      var x := Top(st, 1);
      assert Drop(st, 1) + [x, x] == st + [x] && Drop(st, 1) + [x] == st;
    }
  }

  lemma NumToBinCases(ctx: Context, st: seq<Bytes>)
    ensures var spec := InPlace(ctx, OP_NUM2BIN, st);
            if |st| < 2 then spec.Fail?
            else
              var n := Optional(ReadNumber(Top(st, 1), ctx.flags.minimalData, 4));
              if n.None? || n.value > MAX_SCRIPT_ELEMENT_SIZE then spec.Fail?
              else
                var x := Resized(Top(st, 2), n.value);
                if x.None? then spec.Fail? else spec == Ok(Drop(st, 2) + [x.value])
  {
    hide ReadNumber, Encode, Decode, Widen;
  }

  lemma BinToNumCases(ctx: Context, st: seq<Bytes>)
    ensures var spec := InPlace(ctx, OP_BIN2NUM, st);
            if |st| < 1 then spec.Fail?
            else
              var n := Encode(Decode(Top(st, 1)));
              Minimal(n) && if |n| > ctx.flags.MaxIntegerSize() then spec.Fail? else spec == Ok(Drop(st, 1) + [n])
  {
    hide Encode, Decode, Minimal;
    if |st| >= 1 { DecodeEncode(Decode(Top(st, 1))); }
  }

  lemma InPlaceShape(ctx: Context, op: int, st: seq<Bytes>)
    requires IsInPlace(op)
    ensures var spec, n := InPlace(ctx, op, st), if op == OP_BIN2NUM then 1 else 2;
            spec.Ok? ==> |st| >= n && |spec.value| == |st| - n + 1 && Drop(spec.value, 1) == Drop(st, n)
  {
    hide Bitwise, NumToBin, BinToNum, ReadNumber;
  }

  /** n items from the one at depth `first` downwards. */
  ghost function TopDown(st: seq<Bytes>, first: nat, n: nat): (r: seq<Bytes>)
    requires 1 <= first && first + n <= |st| + 1
    ensures |r| == n && forall j :: 0 <= j < n ==> r[j] == Top(st, first + j)
  {
    seq(n, j requires 0 <= j < n => Top(st, first + j))
  }

  lemma WholeTail<T>(s: seq<T>)
    ensures s[0..] == s
  {
  }

  lemma MatchStep(env: Env, code: seq<Chunk>, sigs: seq<Bytes>, keys: seq<Bytes>, i: nat, j: nat)
    requires i < |sigs| && |sigs| - i <= |keys| - j
    ensures var c := Multisig.LegacyChecker(env, code, sigs);
            var spec := Multisig.Match(c, sigs[i..], keys[j..]);
            if |sigs[i]| == 65 || !env.txSigEncoded(sigs[i]) || !env.pubkeyEncoded(keys[j]) then spec == Threw
            else if env.txSigValid(sigs[i], keys[j], code, sigs)
              then spec == Multisig.Match(c, sigs[i + 1..], keys[j + 1..])
            else spec == Multisig.Match(c, sigs[i..], keys[j + 1..])
  {
    assert sigs[i..][1..] == sigs[i + 1..] && keys[j..][1..] == keys[j + 1..];
  }

  lemma MatchFails(c: Multisig.Checker, sigs: seq<Bytes>, keys: seq<Bytes>, i: nat, j: nat)
    requires i < |sigs| && j <= |keys| && |sigs| - i > |keys| - j
    ensures Multisig.Match(c, sigs[i..], keys[j..]) == Verdict(false)
  {
  }

  lemma MatchEnds(c: Multisig.Checker, sigs: seq<Bytes>, keys: seq<Bytes>)
    ensures Multisig.Match(c, sigs[|sigs|..], keys) == Verdict(true)
  {
  }

  lemma SchnorrLoopStep(env: Env, code: seq<Chunk>, bits: nat, sigs: seq<Bytes>, keys: seq<Bytes>, count: nat,
                        iSig: nat, iKey: nat, ok: bool)
    requires iSig < |sigs|
    ensures var check, i := Multisig.SchnorrChecker(env, code), Multisig.NextKey(bits, iKey, count);
            var spec := Multisig.SchnorrLoop(check, bits, sigs, keys, count, iSig, iKey, ok);
            if i >= |keys| then spec == Threw
            else
              var valid := env.schnorrTxSig(sigs[iSig], keys[i], code);
              spec == if valid.Threw? then Threw
                      else Multisig.SchnorrLoop(check, bits, sigs, keys, count, iSig + 1, i + 1,
                                                ok && Shr(bits, iKey) != 0 && i < count && valid.ok)
  {
    hide Multisig.NextKey, Shr;
  }

  lemma SchnorrLoopEnd(check: (Bytes, Bytes) -> Trial, bits: nat, sigs: seq<Bytes>, keys: seq<Bytes>, count: nat,
                       iKey: nat, ok: bool)
    ensures Multisig.SchnorrLoop(check, bits, sigs, keys, count, |sigs|, iKey, ok) ==
            Verdict(ok && Shr(bits, iKey) == 0)
  {
  }

  ghost predicate LaidOut(st: seq<Bytes>, keys: nat, sigs: nat) {
    sigs <= keys <= 20 && |st| >= keys + sigs + 3
  }

  ghost function LayoutAt(st: seq<Bytes>, keys: nat, sigs: nat): Multisig.Layout
    requires LaidOut(st, keys, sigs)
  {
    Multisig.Layout(Drop(st, keys + sigs + 3), Top(st, keys + sigs + 3),
                    Reversed(TopDown(st, keys + 3, sigs)), Reversed(TopDown(st, 2, keys)), Top(st, 1))
  }

  lemma LayoutCases(ctx: Context, st: seq<Bytes>, ops: nat)
    ensures var spec := Multisig.ReadLayout(ctx, st, ops);
            if |st| < 1 then spec.Fail?
            else
              var n := Optional(ReadNumber(Top(st, 1), ctx.flags.minimalData, 4));
              if n.None? || n.value < 0 || n.value > 20 || ops + n.value > MAX_OPS || |st| < n.value + 2 then spec.Fail?
              else
                var m := Optional(ReadNumber(Top(st, n.value + 2), ctx.flags.minimalData, 4));
                if m.None? || m.value < 0 || m.value > n.value || |st| < n.value + m.value + 3 then spec.Fail?
                else spec == Ok(LayoutAt(st, n.value, m.value))
  {
    hide ReadNumber, LayoutAt;
    if |st| >= 1 {
      var n := Optional(ReadNumber(Top(st, 1), ctx.flags.minimalData, 4));
      if n.Some? && 0 <= n.value <= 20 && |st| >= n.value + 2 {
        var m := Optional(ReadNumber(Top(st, n.value + 2), ctx.flags.minimalData, 4));
        if m.Some? && 0 <= m.value <= n.value && |st| >= n.value + m.value + 3 {
          LayoutIs(st, n.value, m.value);
        }
      }
    }
  }

  lemma LayoutIs(st: seq<Bytes>, k: nat, m: nat)
    requires LaidOut(st, k, m)
    ensures var n := |st|;
            LayoutAt(st, k, m) == Multisig.Layout(Drop(st, k + m + 3), Top(st, k + m + 3),
                                                  st[n - (k + 2) - m..n - (k + 2)],
                                                  st[n - 1 - k..n - 1], Top(st, 1))
  {
    hide Reversed, TopDown;
    ReversedTopDown(st, k + 3, m);
    ReversedTopDown(st, 2, k);
  }

  lemma ReversedTopDown(st: seq<Bytes>, first: nat, n: nat)
    requires 1 <= first && first + n <= |st| + 1
    ensures Reversed(TopDown(st, first, n)) == st[|st| - first - n + 1..|st| - first + 1]
  {
  }

  lemma DoubleReverse<T>(s: seq<T>)
    ensures Reversed(Reversed(s)) == s
  {
  }

  lemma ReversedEmpty(s: seq<Bytes>)
    ensures (exists j :: 0 <= j < |s| && s[j] != []) <==> exists j :: 0 <= j < |Reversed(s)| && Reversed(s)[j] != []
  {
    if j :| 0 <= j < |s| && s[j] != [] { assert Reversed(s)[|s| - 1 - j] != []; }
    if j :| 0 <= j < |s| && Reversed(s)[j] != [] { assert s[|s| - 1 - j] != []; }
  }

  lemma ConcludeIs(st: seq<Bytes>, ok: bool, verify: bool, e: Error)
    ensures Conclude(st, ok, verify, e).Ok? ==>
              Conclude(st, ok, verify, e).value == st + if verify then [] else [Bool(ok)]
  {
    assert st + [] == st;
  }

  lemma ConcludeCases(st: seq<Bytes>, ok: bool, verify: bool)
    ensures Conclude(st, ok, verify, CheckMultiSigVerify) ==
            if verify && !ok then Fail(CheckMultiSigVerify) else Ok(st + if verify then [] else [Bool(ok)])
  {
    assert st + [] == st;
  }

  lemma MultisigCases(ctx: Context, st: seq<Bytes>, ops: nat, code: seq<Chunk>, keys: nat, sigs: nat)
    ensures var l, spec := Multisig.ReadLayout(ctx, st, ops), Multisig.CheckMultisig(ctx, st, ops, code);
            if l.Fail? then spec.Fail?
            else if LaidOut(st, keys, sigs) && l.value == LayoutAt(st, keys, sigs) then
              match Multisig.Check(ctx, l.value, code)
              case Threw => spec.Fail?
              case Verdict(ok) =>
                if (!ok && ctx.flags.nullFail && exists j :: 0 <= j < |l.value.sigs| && l.value.sigs[j] != []) ||
                   (ctx.flags.nullDummy && l.value.dummy != []) then spec.Fail?
                else spec == Ok(Multisig.Checked(l.value.rest, ok, keys))
            else true
  {
    hide Multisig.ReadLayout, Multisig.Check;
  }

  predicate DisableBit(n: int) { (n / 0x8000_0000) % 2 == 1 }

  lemma NopCases(ctx: Context, op: int, st: seq<Bytes>)
    requires op == OP_NOP || op == OP_NOP2 || op == OP_NOP3 || IsNop(op)
    ensures var spec, enabled := OnStack(ctx, op, st),
                                 if op == OP_NOP2 then ctx.flags.checkLockTime
                                 else op == OP_NOP3 && ctx.flags.checkSequence;
            if op == OP_NOP then spec == Ok(st)
            else if !enabled then if ctx.flags.discourageNops then spec.Fail? else spec == Ok(st)
            else if |st| < 1 then spec.Fail?
            else
              var n := Optional(ReadNumber(Top(st, 1), ctx.flags.minimalData, 5));
              if n.None? || n.value < 0 ||
                !(if op == OP_NOP2 then ctx.env.lockTimeReached(n.value) else DisableBit(n.value))
              then spec.Fail? else spec == Ok(st)
  {
    hide ReadNumber;
  }

  lemma OnStackUnary(ctx: Context, op: int, st: seq<Bytes>)
    requires IsUnary(op)
    ensures var spec, items := OnStack(ctx, op, st), UnaryItems(ctx.flags, op, st);
            if items.None? then spec.Fail? else spec == Ok(Drop(st, 1) + items.value)
  {
    hide ReadNumber, Unary, Encode;
  }

  lemma OnStackBinary(ctx: Context, op: int, st: seq<Bytes>)
    requires IsBinary(op)
    ensures var spec, items := OnStack(ctx, op, st), BinaryItems(ctx.flags, op, st);
            if items.None? then spec.Fail?
            else if op == OP_NUMEQUALVERIFY then
              |items.value| == 1 && if Truthy(items.value[0]) then spec == Ok(Drop(st, 2)) else spec.Fail?
            else spec == Ok(Drop(st, 2) + items.value)
  {
    hide ReadNumber, Binary, Encode, Decode;
    if |st| >= 2 {
      var r := BinaryOf(ctx.flags, op, Top(st, 2), Top(st, 1));
      if r.Ok? { DecodeEncode(r.value); }
    }
  }

  lemma OneMore(rest: seq<Bytes>, st: seq<Bytes>)
    ensures |st| == |rest| + 1 && Drop(st, 1) == rest ==> st == rest + [Top(st, 1)] && Drop(st, 1) + [] == rest
  {
  }

  predicate IsByteString(op: int) {
    op == OP_EQUAL || op == OP_EQUALVERIFY || op == OP_CAT || op == OP_SPLIT || op == OP_REVERSEBYTES || IsHash(op)
  }

  lemma VerifyCases(ctx: Context, st: seq<Bytes>)
    ensures var spec := OnStack(ctx, OP_VERIFY, st);
            if st == [] || !Truthy(Top(st, 1)) then spec.Fail? else spec == Ok(Drop(st, 1) + [])
  {
    hide Truthy;
    if st != [] { assert Drop(st, 1) + [] == Drop(st, 1); }
  }

  lemma PickRollCases(ctx: Context, op: int, st: seq<Bytes>)
    requires op == OP_PICK || op == OP_ROLL
    ensures var spec := OnStack(ctx, op, st);
            if |st| < 2 then spec.Fail?
            else
              var n := ReadNumber(Top(st, 1), ctx.flags.minimalData, 4);
              if n.Fail? then spec.Fail? else spec == PickOrRoll(op, Drop(st, 1), n.value)
  {
    hide ReadNumber, PickOrRoll;
    if |st| >= 2 { assert Drop(st, 2) + [Top(st, 2)] == Drop(st, 1); }
  }

  lemma ArityCases(op: int)
    requires IsShuffle(op)
    ensures op == OP_DROP || op == OP_2DROP || op == OP_NIP || op == OP_DUP || op == OP_2DUP || op == OP_3DUP ||
            op == OP_SWAP || op == OP_ROT || op == OP_2ROT || op == OP_2SWAP || op == OP_2OVER || op == OP_OVER ||
            op == OP_TUCK
    ensures op == OP_2ROT ==> Arity(op) == 6
    ensures op == OP_2SWAP || op == OP_2OVER ==> Arity(op) == 4
    ensures op == OP_OVER || op == OP_TUCK ==> Arity(op) == 2
  {
  }

  lemma ShuffleCases(ctx: Context, op: int, st: seq<Bytes>)
    requires IsShuffle(op)
    ensures OnStack(ctx, op, st) == Shuffle(op, st)
  {
    hide Shuffle;
  }

  lemma HashCases(ctx: Context, op: int, st: seq<Bytes>)
    requires IsHash(op) || op == OP_REVERSEBYTES
    ensures OnStack(ctx, op, st) ==
            if |st| < 1 then Fail(InvalidStackOperation)
            else Ok(Drop(st, 1) + [if op == OP_REVERSEBYTES then Reversed(Top(st, 1))
                                   else HashOf(op, ctx.env, Top(st, 1))])
  {
    hide HashOf, Reversed;
  }

  lemma OnStackGroups(ctx: Context, op: int, st: seq<Bytes>)
    ensures IsInPlace(op) ==> OnStack(ctx, op, st) == InPlace(ctx, op, st)
    ensures IsInPlace(op) || IsUnary(op) || IsBinary(op) || op == OP_WITHIN || IsByteString(op) || IsShuffle(op) ||
            op == OP_PICK || op == OP_ROLL || op == OP_IFDUP || op == OP_VERIFY || IsSmallInt(op) ||
            op == OP_DEPTH || op == OP_SIZE || op == OP_NOP || op == OP_NOP2 || op == OP_NOP3 || IsNop(op) ||
            OnStack(ctx, op, st).Fail?
  {
    hide InPlace, Shuffle, OnOne, OnTwo;
  }

  predicate IsCheck(op: int) {
    op == OP_CHECKSIG || op == OP_CHECKSIGVERIFY || op == OP_CHECKDATASIG || op == OP_CHECKDATASIGVERIFY ||
    op == OP_CHECKMULTISIG || op == OP_CHECKMULTISIGVERIFY
  }

  lemma ExecuteMultisig(ctx: Context, op: int, s: Core)
    requires op == OP_CHECKMULTISIG || op == OP_CHECKMULTISIGVERIFY
    ensures var verify, spec := op == OP_CHECKMULTISIGVERIFY, Execute(ctx, op, s);
            var r := Multisig.CheckMultisig(ctx, s.stack, s.ops, Subscript(ctx, s));
            if r.Fail? || (verify && !r.value.ok) then spec.Fail?
            else spec == Ok(s.(stack := r.value.rest + if verify then [] else [Bool(r.value.ok)],
                               ops := s.ops + r.value.keys))
  {
    hide Multisig.CheckMultisig;
    var r := Multisig.CheckMultisig(ctx, s.stack, s.ops, Subscript(ctx, s));
    if r.Ok? { ConcludeCases(r.value.rest, r.value.ok, op == OP_CHECKMULTISIGVERIFY); }
  }

  predicate IsVerifyCheck(op: int) {
    op == OP_CHECKSIGVERIFY || op == OP_CHECKDATASIGVERIFY || op == OP_CHECKMULTISIGVERIFY
  }

  lemma CheckCases(ctx: Context, op: int, s: Core)
    requires op == OP_CHECKSIG || op == OP_CHECKSIGVERIFY || op == OP_CHECKDATASIG || op == OP_CHECKDATASIGVERIFY
    ensures var verify, r := IsVerifyCheck(op), Execute(ctx, op, s);
            var spec := if op == OP_CHECKSIG || op == OP_CHECKSIGVERIFY then CheckSig(ctx, s, verify)
                        else CheckDataSig(ctx, s.stack, verify);
            r == if spec.Fail? then Fail(spec.error) else Ok(s.(stack := spec.value))
    ensures Execute(ctx, op, s).Ok? && !IsVerifyCheck(op) ==> |Execute(ctx, op, s).value.stack| > 0
  {
  }

  lemma ExecuteCases(ctx: Context, op: int, s: Core)
    ensures var r := Execute(ctx, op, s);
            if op == OP_TOALTSTACK then
              if |s.stack| < 1 then r.Fail?
                else r == Ok(s.(stack := Drop(s.stack, 1), alt := s.alt + [Top(s.stack, 1)]))
            else if op == OP_FROMALTSTACK then
              if |s.alt| < 1 then r.Fail? else r == Ok(s.(stack := s.stack + [Top(s.alt, 1)], alt := Drop(s.alt, 1)))
            else if op == OP_CODESEPARATOR then r == Ok(s.(codeSep := s.pc))
            else if IsCheck(op) then true
            else
              var spec := OnStack(ctx, op, s.stack);
              r == if spec.Fail? then Fail(spec.error) else Ok(s.(stack := spec.value))
  {
    hide OnStack, CheckSig, CheckDataSig, Multisig.CheckMultisig;
  }

  /** What step does with a chunk once it has been fetched. */
  ghost function AfterFetch(ctx: Context, c: Chunk, s: Core, vf: seq<bool>): Result<State>
    requires c.Chunk?
  {
    if IsConditional(c.op) then Conditional(ctx, c.op, s, vf)
    else if Executing(vf) then
      var s' :- Plain(ctx, c, s);
      Ok(State(s', vf))
    else Ok(State(s, vf))
  }

  lemma StepIs(ctx: Context, s: State)
    requires s.core.pc < |ctx.script|
    ensures var c := ctx.script[s.core.pc];
            var r := Fetch(ctx, c, s.core);
            if r.Fail? then Step(ctx, s).Fail?
            else c.Chunk? && Step(ctx, s) == AfterFetch(ctx, c, r.value, s.vfExec)
  {
    hide Conditional, Plain;
  }

  lemma NumberIsDecoded(b: Bytes, minimal: bool, max: nat)
    ensures ReadNumber(b, minimal, max).Ok? ==> ReadNumber(b, minimal, max).value == Decode(b)
  {
  }

  lemma WidenCases(ctx: Context, st: seq<Bytes>, size: nat)
    requires |st| >= 2 && |Encode(Decode(Top(st, 2)))| < size <= MAX_SCRIPT_ELEMENT_SIZE && Top(st, 1) == Encode(size)
    ensures Decode(Top(st, 1)) == size
    ensures InPlace(ctx, OP_NUM2BIN, st) == Ok(Drop(st, 2) + [Widen(Encode(Decode(Top(st, 2))), size)])
  {
    hide Encode, Decode, Minimal, Widen;
    DecodeEncode(size);
    SmallEncoding(size);
  }

  lemma AndCases(ctx: Context, st: seq<Bytes>)
    requires |st| >= 2 && |Top(st, 2)| == |Top(st, 1)|
    ensures InPlace(ctx, OP_AND, st) == Ok(Drop(st, 2) + [Bitwise(OP_AND, Top(st, 2), Top(st, 1))])
  {
    hide Bitwise;
  }
}
