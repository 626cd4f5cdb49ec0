/** The verdicts of the signature opcodes, in terms of the keys, the signatures and the part of the script they sign. */
module SignatureOpcodes {
  import opened Bytes
  import opened ScriptNum
  import opened Bitfield
  import opened Opcode
  import opened Script
  import opened Machine
  import opened Multisig
  import opened StackOpcodes

  // ---------- what is signed ----------

  predicate IsSeparator(c: Chunk) { c.Chunk? && c.op == OP_CODESEPARATOR }

  /** Running any chunk but a separator leaves the signed part of the script where it starts. */
  lemma StepKeepsStart(ctx: Context, s: State)
    requires s.core.pc < |ctx.script| && !IsSeparator(ctx.script[s.core.pc]) && Step(ctx, s).Ok?
    ensures Step(ctx, s).value.core.codeSep == s.core.codeSep
  {
    hide OnStack, CheckSig, CheckDataSig, CheckMultisig, Condition;
    var c := ctx.script[s.core.pc];
    var core := Fetch(ctx, c, s.core).value;
    if IsConditional(c.op) {
      ConditionalKeepsStart(ctx, c.op, core, s.vfExec);
    }
  }

  lemma ConditionalKeepsStart(ctx: Context, op: int, s: Core, vf: seq<bool>)
    requires IsConditional(op) && Conditional(ctx, op, s, vf).Ok?
    ensures Conditional(ctx, op, s, vf).value.core.codeSep == s.codeSep
  {
  }

  lemma {:induction false} RunKeepsStart(ctx: Context, s: State, end: nat)
    requires s.core.pc <= end <= |ctx.script| && RunTo(ctx, s, end).Ok?
    requires forall i :: s.core.pc <= i < end ==> !IsSeparator(ctx.script[i])
    ensures RunTo(ctx, s, end).value.core.codeSep == s.core.codeSep
    decreases end - s.core.pc
  {
    hide Step;
    if s.core.pc < end {
      StepKeepsStart(ctx, s);
      StepAdvances(ctx, s);
      RunKeepsStart(ctx, Step(ctx, s).value, end);
    }
  }

  /**
   * A signature opcode signs the script from after the last separator that was run, or all of it: if the
   * separator at i is run and none follows up to j, the signed part at j starts at i + 1.
   */
  lemma SignedFrom(ctx: Context, s: State, j: nat)
    requires s.core.pc < j <= |ctx.script| && IsSeparator(ctx.script[s.core.pc]) && Executing(s.vfExec)
    requires forall k :: s.core.pc < k < j ==> !IsSeparator(ctx.script[k])
    requires RunTo(ctx, s, j).Ok?
    ensures RunTo(ctx, s, j).value.core.codeSep == s.core.pc + 1
  {
    hide Step;
    StepAdvances(ctx, s);
    SeparatorMoves(ctx, s);
    RunKeepsStart(ctx, Step(ctx, s).value, j);
  }

  lemma SeparatorMoves(ctx: Context, s: State)
    requires s.core.pc < |ctx.script| && IsSeparator(ctx.script[s.core.pc]) && Executing(s.vfExec) && Step(ctx, s).Ok?
    ensures Step(ctx, s).value.core.codeSep == s.core.pc + 1
  {
  }

  lemma SignedFromStart(ctx: Context, stack: seq<Bytes>, j: nat)
    requires j <= |ctx.script| && forall k :: 0 <= k < j ==> !IsSeparator(ctx.script[k])
    requires RunTo(ctx, Start(stack), j).Ok?
    ensures RunTo(ctx, Start(stack), j).value.core.codeSep == 0
  {
    RunKeepsStart(ctx, Start(stack), j);
  }

  // ---------- one signature ----------

  /** A verdict on st, unless it is false and a false verdict needs an empty signature. */
  predicate Judges(ctx: Context, r: Result<Core>, s: Core, st: seq<Bytes>, valid: bool, sig: Bytes) {
    if valid then r == Ok(s.(stack := st + [[1]]))
    else if ctx.flags.nullFail && sig != [] then r.Fail?
    else r == Ok(s.(stack := st + [[]]))
  }

  /** OP_CHECKSIG asks whether key signed the script from the last separator on, the signature deleted from it. */
  lemma CheckSigVerdict(ctx: Context, s: Core, st: seq<Bytes>, sig: Bytes, key: Bytes)
    requires s.stack == st + [sig, key] && s.codeSep <= |ctx.script|
    ensures var r := Execute(ctx, OP_CHECKSIG, s);
            if ctx.env.txSigEncoded(sig) && ctx.env.pubkeyEncoded(key) then
              Judges(ctx, r, s, st, ctx.env.txSigValid(sig, key, ctx.script[s.codeSep..], [sig]), sig)
            else r.Fail?
  {
    hide OnStack, CheckDataSig, CheckMultisig;
    assert Drop(s.stack, 2) == st;
  }

  /** OP_CHECKDATASIG asks whether sig is a signature by key of the message between them. */
  lemma CheckDataSigVerdict(ctx: Context, s: Core, st: seq<Bytes>, sig: Bytes, msg: Bytes, key: Bytes)
    requires s.stack == st + [sig, msg, key]
    ensures var r := Execute(ctx, OP_CHECKDATASIG, s);
            if ctx.env.dataSigEncoded(sig) && ctx.env.pubkeyEncoded(key) then
              Judges(ctx, r, s, st, ctx.env.dataSigValid(sig, msg, key), sig)
            else r.Fail?
  {
    hide OnStack, CheckSig, CheckMultisig;
    assert Drop(s.stack, 3) == st;
  }

  // ---------- many signatures ----------

  predicate Counts(flags: Flags, b: Bytes, n: nat) { Count(flags, b) && Decode(b) == n }

  /** The operands of OP_CHECKMULTISIG on top of st: dummy, signatures, their number, keys, their number. */
  predicate Operands(ctx: Context, s: Core, st: seq<Bytes>, dummy: Bytes, sigs: seq<Bytes>, m: Bytes, keys: seq<Bytes>,
                     n: Bytes) {
    && s.stack == st + [dummy] + sigs + [m] + keys + [n] && Counts(ctx.flags, m, |sigs|) && Counts(ctx.flags, n, |keys|)
    && |sigs| <= |keys| <= 20 && s.ops + |keys| <= 201 && s.codeSep <= |ctx.script|
  }

  /** Keys at increasing positions, one for every signature. */
  ghost predicate Increasing(f: seq<nat>, sigs: seq<Bytes>, keys: seq<Bytes>) {
    |f| == |sigs| && (forall j :: 0 <= j < |f| ==> f[j] < |keys|) && forall i, j :: 0 <= i < j < |f| ==> f[i] < f[j]
  }

  /** Every signature is one by its key of this part of the script, all the signatures deleted from it. */
  ghost predicate Signs(env: Env, code: seq<Chunk>, sigs: seq<Bytes>, keys: seq<Bytes>, f: seq<nat>) {
    Increasing(f, sigs, keys) &&
    forall j :: 0 <= j < |f| ==> env.txSigValid(sigs[j], keys[f[j]], code, Reversed(sigs))
  }

  /** The same in the Schnorr mode, where nothing is deleted and the bits of the dummy name the keys. */
  ghost predicate SchnorrSigns(env: Env, code: seq<Chunk>, dummy: Bytes, sigs: seq<Bytes>, keys: seq<Bytes>,
                               f: seq<nat>) {
    && Increasing(f, sigs, keys)
    && |dummy| == (|keys| + 7) / 8 && LittleEndian(dummy) < Pow2(|keys|)
    && (forall i :: 0 <= i < |keys| ==> (Bit(LittleEndian(dummy), i) <==> i in f))
    && forall j :: 0 <= j < |f| ==> env.schnorrTxSig(sigs[j], keys[f[j]], code) == Verdict(true)
  }

  /** The verdict that OP_CHECKMULTISIG comes to. */
  ghost predicate EnoughSigned(ctx: Context, code: seq<Chunk>, dummy: Bytes, sigs: seq<Bytes>, keys: seq<Bytes>) {
    if ctx.flags.schnorrMultisig && dummy != [] then exists f :: SchnorrSigns(ctx.env, code, dummy, sigs, keys, f)
    else exists f :: Signs(ctx.env, code, sigs, keys, f)
  }

  lemma LayoutIs(ctx: Context, s: Core, st: seq<Bytes>, dummy: Bytes, sigs: seq<Bytes>, m: Bytes, keys: seq<Bytes>,
                 n: Bytes)
    requires Operands(ctx, s, st, dummy, sigs, m, keys, n)
    ensures ReadLayout(ctx, s.stack, s.ops) == Ok(Layout(st, dummy, sigs, keys, n))
  {
    hide Counts, ReadLayout;
    Positions(st, dummy, sigs, m, keys, n);
    Reads(ctx, s.stack, s.ops, |keys|, |sigs|);
  }

  /** The end of a is where b starts, and what stands before is not changed by b. */
  lemma Apart<T>(a: seq<T>, b: seq<T>, i: nat, j: nat)
    requires i <= j <= |a|
    ensures (a + b)[|a|..] == b && (a + b)[i..j] == a[i..j] && (i < |a| ==> (a + b)[i] == a[i])
    ensures |b| >= 1 ==> (a + b)[|a|] == b[0]
  {
  }

  lemma Positions(st: seq<Bytes>, dummy: Bytes, sigs: seq<Bytes>, m: Bytes, keys: seq<Bytes>, n: Bytes)
    ensures var all, k, l := st + [dummy] + sigs + [m] + keys + [n], |keys|, |sigs|;
            && |all| == |st| + k + l + 3
            && all[..|st|] == st && all[|st|] == dummy && all[|st| + 1..|st| + 1 + l] == sigs
            && all[|st| + 1 + l] == m && all[|st| + 2 + l..|st| + 2 + l + k] == keys && all[|st| + 2 + l + k] == n
  {
    var a := st + [dummy];
    var b := a + sigs;
    var c := b + [m];
    var d := c + keys;
    assert st + [dummy] + sigs + [m] + keys == d;
    Apart(d, [n], |c|, |d|);
    Apart(c, keys, |b|, |c|);
    Apart(d, [n], |b|, |c|);
    FromBelow(st, dummy, sigs, [m]);
    FromBelow(st, dummy, sigs, [m] + keys);
    assert d == b + ([m] + keys);
    FromBelow(st, dummy, sigs, [m] + keys + [n]);
    assert d + [n] == b + ([m] + keys + [n]);
  }

  lemma FromBelow(st: seq<Bytes>, dummy: Bytes, sigs: seq<Bytes>, rest: seq<Bytes>)
    ensures var all := st + [dummy] + sigs + rest;
            all[..|st|] == st && all[|st|] == dummy && all[|st| + 1..|st| + 1 + |sigs|] == sigs
  {
    Apart(st + [dummy] + sigs, rest, |st| + 1, |st| + 1 + |sigs|);
    Apart(st + [dummy] + sigs, rest, |st|, |st| + 1);
    Apart(st + [dummy] + sigs, rest, 0, |st|);
  }

  /** The layout by positions, the two numbers being what they have to be. */
  lemma Reads(ctx: Context, st: seq<Bytes>, ops: nat, k: nat, l: nat)
    requires |st| >= k + l + 3 && l <= k <= 20 && ops + k <= 201
    requires Counts(ctx.flags, st[|st| - 1], k) && Counts(ctx.flags, st[|st| - k - 2], l)
    ensures var size := |st|;
            ReadLayout(ctx, st, ops) ==
            Ok(Layout(st[..size - k - l - 3], st[size - k - l - 3], st[size - k - l - 2..size - k - 2],
                      st[size - k - 1..size - 1], st[size - 1]))
  {
    hide Minimal, Decode;
  }

  /** Positions counted from the other end, last first. */
  function Mirrored(f: seq<nat>, n: nat): (g: seq<nat>)
    requires forall j :: 0 <= j < |f| ==> f[j] < n
    ensures |g| == |f| && forall j :: 0 <= j < |g| ==> g[j] == n - 1 - f[|f| - 1 - j] && g[j] < n
  {
    seq(|f|, j requires 0 <= j < |f| => n - 1 - f[|f| - 1 - j])
  }

  lemma MirroredIncreases(f: seq<nat>, sigs: seq<Bytes>, keys: seq<Bytes>)
    requires Increasing(f, sigs, keys)
    ensures Increasing(Mirrored(f, |keys|), Reversed(sigs), Reversed(keys))
  {
    var g := Mirrored(f, |keys|);
    forall i, j | 0 <= i < j < |g| ensures g[i] < g[j] {
      assert f[|f| - 1 - j] < f[|f| - 1 - i];
    }
  }

  /** The matching from the top of the stack down is one from the bottom up. */
  lemma AssignmentIff(env: Env, code: seq<Chunk>, sigs: seq<Bytes>, keys: seq<Bytes>)
    ensures (exists f :: Assignment(LegacyChecker(env, code, Reversed(sigs)), Reversed(sigs), Reversed(keys), f)) <==>
            exists f :: Signs(env, code, sigs, keys, f)
  {
    hide Increasing, Assignment, Signs;
    var c := LegacyChecker(env, code, Reversed(sigs));
    if f: seq<nat> :| Assignment(c, Reversed(sigs), Reversed(keys), f) {
      var g := FromTheTop(env, code, sigs, keys, f);
    }
    if f: seq<nat> :| Signs(env, code, sigs, keys, f) { var g := FromTheBottom(env, code, sigs, keys, f); }
  }

  lemma FromTheTop(env: Env, code: seq<Chunk>, sigs: seq<Bytes>, keys: seq<Bytes>, f: seq<nat>) returns (g: seq<nat>)
    requires Assignment(LegacyChecker(env, code, Reversed(sigs)), Reversed(sigs), Reversed(keys), f)
    ensures Signs(env, code, sigs, keys, g)
  {
    hide Increasing, Assignment, Reversed;
    AssignmentIncreases(LegacyChecker(env, code, Reversed(sigs)), Reversed(sigs), Reversed(keys), f);
    IncreasingIs(f, Reversed(sigs), Reversed(keys));
    MirroredIncreases(f, Reversed(sigs), Reversed(keys));
    DoubleReversed(sigs);
    DoubleReversed(keys);
    g := Mirrored(f, |keys|);
    IncreasingIs(g, sigs, keys);
    forall j | 0 <= j < |g| ensures env.txSigValid(sigs[j], keys[g[j]], code, Reversed(sigs)) {
      Verified(env, code, sigs, keys, f, |f| - 1 - j);
    }
  }

  lemma AssignmentIncreases(c: Checker, sigs: seq<Bytes>, keys: seq<Bytes>, f: seq<nat>)
    requires Assignment(c, sigs, keys, f)
    ensures Increasing(f, sigs, keys)
  {
  }

  lemma Verified(env: Env, code: seq<Chunk>, sigs: seq<Bytes>, keys: seq<Bytes>, f: seq<nat>, i: nat)
    requires Assignment(LegacyChecker(env, code, Reversed(sigs)), Reversed(sigs), Reversed(keys), f) && i < |f|
    ensures i < |sigs| && f[i] < |keys| &&
            env.txSigValid(sigs[|sigs| - 1 - i], keys[|keys| - 1 - f[i]], code, Reversed(sigs))
  {
    assert LegacyChecker(env, code, Reversed(sigs)).verifies(Reversed(sigs)[i], Reversed(keys)[f[i]]);
  }

  lemma IncreasingIs(f: seq<nat>, sigs: seq<Bytes>, keys: seq<Bytes>)
    ensures Increasing(f, sigs, keys) <==>
            |f| == |sigs| && (forall j :: 0 <= j < |f| ==> f[j] < |keys|) &&
            forall i, j :: 0 <= i < j < |f| ==> f[i] < f[j]
  {
  }

  lemma DoubleReversed(s: seq<Bytes>)
    ensures Reversed(Reversed(s)) == s
  {
  }

  lemma FromTheBottom(env: Env, code: seq<Chunk>, sigs: seq<Bytes>, keys: seq<Bytes>, f: seq<nat>) returns (g: seq<nat>)
    requires Signs(env, code, sigs, keys, f)
    ensures Assignment(LegacyChecker(env, code, Reversed(sigs)), Reversed(sigs), Reversed(keys), g)
  {
    hide Increasing, Signs, Reversed;
    assert Increasing(f, sigs, keys) by { SignsIs(env, code, sigs, keys, f); }
    IncreasingIs(f, sigs, keys);
    MirroredIncreases(f, sigs, keys);
    g := Mirrored(f, |keys|);
    IncreasingIs(g, Reversed(sigs), Reversed(keys));
    forall j | 0 <= j < |g| ensures env.txSigValid(Reversed(sigs)[j], Reversed(keys)[g[j]], code, Reversed(sigs)) {
      SignsIs(env, code, sigs, keys, f);
    }
  }

  lemma SignsIs(env: Env, code: seq<Chunk>, sigs: seq<Bytes>, keys: seq<Bytes>, f: seq<nat>)
    requires Signs(env, code, sigs, keys, f)
    ensures Increasing(f, sigs, keys) && |f| == |sigs|
    ensures forall j :: 0 <= j < |f| ==> f[j] < |keys| && env.txSigValid(sigs[j], keys[f[j]], code, Reversed(sigs))
  {
  }

  lemma SelectionIff(env: Env, code: seq<Chunk>, dummy: Bytes, sigs: seq<Bytes>, keys: seq<Bytes>)
    ensures BitfieldSelects(SchnorrChecker(env, code), dummy, sigs, keys) <==>
            exists f :: SchnorrSigns(env, code, dummy, sigs, keys, f)
  {
    hide BitfieldSelects, SchnorrSigns;
    if BitfieldSelects(SchnorrChecker(env, code), dummy, sigs, keys) { SelectedSign(env, code, dummy, sigs, keys); }
    if f: seq<nat> :| SchnorrSigns(env, code, dummy, sigs, keys, f) {
      SignersSelected(env, code, dummy, sigs, keys, f);
    }
  }

  lemma SelectedSign(env: Env, code: seq<Chunk>, dummy: Bytes, sigs: seq<Bytes>, keys: seq<Bytes>)
    requires BitfieldSelects(SchnorrChecker(env, code), dummy, sigs, keys)
    ensures SchnorrSigns(env, code, dummy, sigs, keys, SetBits(LittleEndian(dummy), 0, |keys|))
  {
    hide Bit, SetBits, LittleEndian, Pow2;
    var check, v, n := SchnorrChecker(env, code), LittleEndian(dummy), |keys|;
    var f := SetBits(v, 0, n);
    BitsAre(v, n);
    forall j | 0 <= j < |f| ensures f[j] < n && env.schnorrTxSig(sigs[j], keys[f[j]], code) == Verdict(true) {
      assert check(sigs[0 + j], keys[f[j]]) == Verdict(true);
    }
    forall i, j | 0 <= i < j < |f| ensures f[i] < f[j] { BitsInOrder(v, n, i, j); }
  }

  lemma SignersSelected(env: Env, code: seq<Chunk>, dummy: Bytes, sigs: seq<Bytes>, keys: seq<Bytes>, f: seq<nat>)
    requires SchnorrSigns(env, code, dummy, sigs, keys, f)
    ensures BitfieldSelects(SchnorrChecker(env, code), dummy, sigs, keys)
  {
    hide Bit, SetBits, LittleEndian, Pow2;
    var v, n := LittleEndian(dummy), |keys|;
    var bits := SetBits(v, 0, n);
    BitsAre(v, n);
    forall i, j | 0 <= i < j < |bits| ensures bits[i] < bits[j] { BitsInOrder(v, n, i, j); }
    forall i: nat ensures i in f <==> i in bits {
      if i in f { var j :| 0 <= j < |f| && f[j] == i; }
    }
    SameSet(f, bits);
  }

  lemma BitsInOrder(v: nat, n: nat, i: nat, j: nat)
    requires i < j < |SetBits(v, 0, n)|
    ensures SetBits(v, 0, n)[i] < SetBits(v, 0, n)[j]
  {
    hide Bit, SetBits;
    SetBitsAre(v, 0, n);
  }

  lemma ListedBit(v: nat, n: nat, j: nat)
    requires j < |SetBits(v, 0, n)|
    ensures SetBits(v, 0, n)[j] < n && Bit(v, SetBits(v, 0, n)[j])
  {
    hide Bit, SetBits;
    SetBitsAre(v, 0, n);
  }

  lemma BitsAre(v: nat, n: nat)
    ensures forall i: nat :: i in SetBits(v, 0, n) <==> i < n && Bit(v, i)
  {
    hide Bit, SetBits;
    SetBitsAre(v, 0, n);
    forall i: nat | i in SetBits(v, 0, n) ensures i < n && Bit(v, i) {
      var j :| 0 <= j < |SetBits(v, 0, n)| && SetBits(v, 0, n)[j] == i;
      ListedBit(v, n, j);
    }
  }

  predicate Ascending(f: seq<nat>) { forall i, j :: 0 <= i < j < |f| ==> f[i] < f[j] }

  /** The head of an increasing list is in it, is its least number, and is not in the rest. */
  lemma HeadAndTail(f: seq<nat>)
    requires Ascending(f) && f != []
    ensures f[0] in f && Ascending(f[1..]) && f == [f[0]] + f[1..]
    ensures forall i: nat :: i in f ==> f[0] <= i
    ensures forall i: nat :: i in f[1..] <==> i in f && i != f[0]
  {
    forall i: nat | i in f && i != f[0] ensures i in f[1..] && f[0] <= i {
      var k :| 0 <= k < |f| && f[k] == i;
      assert f[1..][k - 1] == i;
    }
  }

  /** Increasing lists of the same numbers are the same list. */
  lemma {:induction false} SameSet(f: seq<nat>, g: seq<nat>)
    requires Ascending(f) && Ascending(g) && forall i: nat :: i in f <==> i in g
    ensures f == g
  {
    hide Ascending;
    if f != [] { HeadAndTail(f); }
    if g != [] { HeadAndTail(g); }
    if f != [] && g != [] { SameSet(f[1..], g[1..]); }
  }

  /**
   * OP_CHECKMULTISIG, when it does not fail, takes its operands and leaves the verdict: whether every signature
   * is valid under a key of its own, in order, or in the Schnorr mode under the key that the dummy names.
   */
  lemma MultisigVerdict(ctx: Context, s: Core, st: seq<Bytes>, dummy: Bytes, sigs: seq<Bytes>, m: Bytes,
                        keys: seq<Bytes>, n: Bytes)
    requires Operands(ctx, s, st, dummy, sigs, m, keys, n)
    requires Execute(ctx, OP_CHECKMULTISIG, s).Ok?
    ensures var ok := EnoughSigned(ctx, ctx.script[s.codeSep..], dummy, sigs, keys);
            && Execute(ctx, OP_CHECKMULTISIG, s).value ==
               s.(stack := st + [if ok then [1] else []], ops := s.ops + |keys|)
            && (ctx.flags.nullFail && !ok ==> forall j :: 0 <= j < |sigs| ==> sigs[j] == [])
            && (ctx.flags.nullDummy ==> dummy == [])
  {
    hide OnStack, CheckSig, CheckDataSig, ReadLayout, Check, BitfieldSelects, Operands;
    WithinScript(ctx, s, st, dummy, sigs, m, keys, n);
    LayoutIs(ctx, s, st, dummy, sigs, m, keys, n);
    VerdictIs(ctx, s, st, dummy, sigs, m, keys, n);
    ExecutesMultisig(ctx, s);
  }

  lemma VerdictIs(ctx: Context, s: Core, st: seq<Bytes>, dummy: Bytes, sigs: seq<Bytes>, m: Bytes,
                  keys: seq<Bytes>, n: Bytes)
    requires Operands(ctx, s, st, dummy, sigs, m, keys, n)
    ensures var code := ctx.script[s.codeSep..];
            var v := Check(ctx, Layout(st, dummy, sigs, keys, n), code);
            v.Verdict? ==> (v.ok <==> EnoughSigned(ctx, code, dummy, sigs, keys))
  {
    hide Match, SchnorrMode, BitfieldSelects, Assignment, Signs, SchnorrSigns, Minimal, Decode;
    var code := ctx.script[s.codeSep..];
    AssignmentIff(ctx.env, code, sigs, keys);
    SelectionIff(ctx.env, code, dummy, sigs, keys);
    if ctx.flags.schnorrMultisig && dummy != [] {
      SchnorrModeIff(SchnorrChecker(ctx.env, code), dummy, sigs, keys, n);
    } else if Match(LegacyChecker(ctx.env, code, Reversed(sigs)), Reversed(sigs), Reversed(keys)).Verdict? {
      MatchIffAssignment(LegacyChecker(ctx.env, code, Reversed(sigs)), Reversed(sigs), Reversed(keys));
    }
  }

  lemma ExecutesMultisig(ctx: Context, s: Core)
    requires s.codeSep <= |ctx.script|
    ensures var r, c := Execute(ctx, OP_CHECKMULTISIG, s), CheckMultisig(ctx, s.stack, s.ops, ctx.script[s.codeSep..]);
            if c.Fail? then r.Fail?
            else r == Ok(s.(stack := c.value.rest + [Bool(c.value.ok)], ops := s.ops + c.value.keys))
  {
    hide OnStack, CheckSig, CheckDataSig, CheckMultisig;
  }

  // ---------- when it does not fail ----------

  /** No signature or key that the matching could come across stops it. */
  predicate AllEncoded(env: Env, sigs: seq<Bytes>, keys: seq<Bytes>) {
    (forall i :: 0 <= i < |sigs| ==> |sigs[i]| != 65 && env.txSigEncoded(sigs[i])) &&
    forall i :: 0 <= i < |keys| ==> env.pubkeyEncoded(keys[i])
  }

  lemma {:induction false} MatchComesToVerdict(c: Checker, sigs: seq<Bytes>, keys: seq<Bytes>)
    requires forall i :: 0 <= i < |sigs| ==> !c.sigAborts(sigs[i])
    requires forall i :: 0 <= i < |keys| ==> !c.keyAborts(keys[i])
    ensures Match(c, sigs, keys).Verdict?
    decreases |keys|
  {
    if sigs != [] && |sigs| <= |keys| {
      MatchComesToVerdict(c, sigs[1..], keys[1..]);
      MatchComesToVerdict(c, sigs, keys[1..]);
    }
  }

  /** On well-encoded operands the greedy mode fails only for a refused false verdict, or for the dummy. */
  lemma MultisigFailsIff(ctx: Context, s: Core, st: seq<Bytes>, dummy: Bytes, sigs: seq<Bytes>, m: Bytes,
                         keys: seq<Bytes>, n: Bytes)
    requires Operands(ctx, s, st, dummy, sigs, m, keys, n)
    requires !(ctx.flags.schnorrMultisig && dummy != []) && AllEncoded(ctx.env, sigs, keys)
    ensures var ok := EnoughSigned(ctx, ctx.script[s.codeSep..], dummy, sigs, keys);
            Execute(ctx, OP_CHECKMULTISIG, s).Fail? <==>
            (!ok && ctx.flags.nullFail && exists j :: 0 <= j < |sigs| && sigs[j] != []) ||
            (ctx.flags.nullDummy && dummy != [])
  {
    hide Execute, ReadLayout, Match, EnoughSigned, Operands;
    WithinScript(ctx, s, st, dummy, sigs, m, keys, n);
    var code := ctx.script[s.codeSep..];
    LayoutIs(ctx, s, st, dummy, sigs, m, keys, n);
    MatchComesToVerdict(LegacyChecker(ctx.env, code, Reversed(sigs)), Reversed(sigs), Reversed(keys));
    VerdictIs(ctx, s, st, dummy, sigs, m, keys, n);
    ExecutesMultisig(ctx, s);
  }

  lemma WithinScript(ctx: Context, s: Core, st: seq<Bytes>, dummy: Bytes, sigs: seq<Bytes>, m: Bytes,
                     keys: seq<Bytes>, n: Bytes)
    requires Operands(ctx, s, st, dummy, sigs, m, keys, n)
    ensures s.codeSep <= |ctx.script| && |keys| <= 20
  {
  }

  lemma {:induction false} MatchedAreEncoded(c: Checker, sigs: seq<Bytes>, keys: seq<Bytes>)
    requires Match(c, sigs, keys) == Verdict(true)
    ensures forall i :: 0 <= i < |sigs| ==> !c.sigAborts(sigs[i])
    ensures sigs != [] ==> keys != [] && !c.keyAborts(keys[0])
    decreases |keys|
  {
    if sigs != [] {
      if c.verifies(sigs[0], keys[0]) {
        MatchedAreEncoded(c, sigs[1..], keys[1..]);
        assert sigs == [sigs[0]] + sigs[1..];
      } else {
        MatchedAreEncoded(c, sigs, keys[1..]);
      }
    }
  }

  /** A true verdict of the greedy mode means that no signature had 65 bytes or was ill encoded, nor was the top key. */
  lemma TrueVerdictIsEncoded(ctx: Context, s: Core, st: seq<Bytes>, dummy: Bytes, sigs: seq<Bytes>, m: Bytes,
                             keys: seq<Bytes>, n: Bytes)
    requires Operands(ctx, s, st, dummy, sigs, m, keys, n) && !(ctx.flags.schnorrMultisig && dummy != [])
    requires Execute(ctx, OP_CHECKMULTISIG, s).Ok? && EnoughSigned(ctx, ctx.script[s.codeSep..], dummy, sigs, keys)
    ensures forall i :: 0 <= i < |sigs| ==> |sigs[i]| != 65 && ctx.env.txSigEncoded(sigs[i])
    ensures sigs != [] ==> ctx.env.pubkeyEncoded(keys[|keys| - 1])
  {
    hide Execute, ReadLayout, Match, EnoughSigned, Operands;
    WithinScript(ctx, s, st, dummy, sigs, m, keys, n);
    var code := ctx.script[s.codeSep..];
    LayoutIs(ctx, s, st, dummy, sigs, m, keys, n);
    VerdictIs(ctx, s, st, dummy, sigs, m, keys, n);
    ExecutesMultisig(ctx, s);
    var c := LegacyChecker(ctx.env, code, Reversed(sigs));
    MatchedAreEncoded(c, Reversed(sigs), Reversed(keys));
    forall i | 0 <= i < |sigs| ensures |sigs[i]| != 65 && ctx.env.txSigEncoded(sigs[i]) {
      assert !c.sigAborts(Reversed(sigs)[|sigs| - 1 - i]);
    }
  }

  /** Without a count of at most 20 keys on top, and a count of at most as many signatures below them, it fails. */
  lemma MultisigNeedsCounts(ctx: Context, s: Core, rest: seq<Bytes>, m: Bytes, keys: seq<Bytes>, n: Bytes)
    requires s.stack == rest + [m] + keys + [n] && Counts(ctx.flags, n, |keys|) && s.codeSep <= |ctx.script|
    requires |keys| > 20 || s.ops + |keys| > 201 || !Count(ctx.flags, m) || !(0 <= Decode(m) <= |keys|) ||
             |rest| < Decode(m) + 1
    ensures Execute(ctx, OP_CHECKMULTISIG, s).Fail?
  {
    hide Execute, Check, Minimal, Decode;
    ExecutesMultisig(ctx, s);
    Apart(rest + [m] + keys, [n], |rest|, |rest| + 1);
    Apart(rest + [m], keys, |rest|, |rest| + 1);
    Apart(rest, [m], 0, 0);
    assert Top(s.stack, 1) == n && Top(s.stack, |keys| + 2) == m;
  }
}
