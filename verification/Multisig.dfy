/** OP_CHECKMULTISIG: the greedy ECDSA matching and the bitfield-directed Schnorr mode. */
module Multisig {
  import opened Bytes
  import opened ScriptNum
  import opened Script
  import opened Bitfield

  // ---------- greedy matching ----------

  /** What the sig/key loop needs to know: which buffers abort the evaluation, which pairs verify. */
  datatype Checker = Checker(sigAborts: Bytes -> bool, keyAborts: Bytes -> bool, verifies: (Bytes, Bytes) -> bool)

  /** Signatures and keys top-first. Threw stands for the loop's early `return false`. */
  function Match(c: Checker, sigs: seq<Bytes>, keys: seq<Bytes>): Trial
    decreases |keys|
  {
    if sigs == [] then Verdict(true)
    else if |sigs| > |keys| then Verdict(false)
    else if c.sigAborts(sigs[0]) || c.keyAborts(keys[0]) then Threw
    else if c.verifies(sigs[0], keys[0]) then Match(c, sigs[1..], keys[1..])
    else Match(c, sigs, keys[1..])
  }

  /** A strictly increasing choice of keys, one for every signature, each pair verifying. */
  ghost predicate Assignment(c: Checker, sigs: seq<Bytes>, keys: seq<Bytes>, f: seq<nat>)
  {
    && |f| == |sigs|
    && (forall j :: 0 <= j < |f| ==> f[j] < |keys| && c.verifies(sigs[j], keys[f[j]]))
    && (forall i, j :: 0 <= i < j < |f| ==> f[i] < f[j])
  }

  /** Greedy matching is complete: a verdict is positive iff some order-preserving assignment exists. */
  lemma MatchIffAssignment(c: Checker, sigs: seq<Bytes>, keys: seq<Bytes>)
    requires Match(c, sigs, keys).Verdict?
    ensures Match(c, sigs, keys).ok <==> exists f :: Assignment(c, sigs, keys, f)
  {
    if Match(c, sigs, keys).ok {
      var f := MatchGivesAssignment(c, sigs, keys);
      assert Assignment(c, sigs, keys, f);
    }
    if f: seq<nat> :| Assignment(c, sigs, keys, f) {
      AssignmentMatches(c, sigs, keys, f);
    }
  }

  lemma {:induction false} MatchGivesAssignment(c: Checker, sigs: seq<Bytes>, keys: seq<Bytes>) returns (f: seq<nat>)
    requires Match(c, sigs, keys) == Verdict(true)
    ensures Assignment(c, sigs, keys, f)
    decreases |keys|
  {
    if sigs == [] {
      f := [];
    } else if c.verifies(sigs[0], keys[0]) {
      var g := MatchGivesAssignment(c, sigs[1..], keys[1..]);
      f := [0] + seq(|g|, j requires 0 <= j < |g| => g[j] + 1);
    } else {
      var g := MatchGivesAssignment(c, sigs, keys[1..]);
      f := seq(|g|, j requires 0 <= j < |g| => g[j] + 1);
    }
  }

  lemma {:induction false} AssignmentFits(f: seq<nat>, n: nat)
    requires forall j :: 0 <= j < |f| ==> f[j] < n
    requires forall i, j :: 0 <= i < j < |f| ==> f[i] < f[j]
    ensures |f| <= n
  {
    if f != [] {
      AssignmentFits(f[..|f| - 1], f[|f| - 1]);
    }
  }

  lemma {:induction false} AssignmentMatches(c: Checker, sigs: seq<Bytes>, keys: seq<Bytes>, f: seq<nat>)
    requires Assignment(c, sigs, keys, f) && Match(c, sigs, keys).Verdict?
    ensures Match(c, sigs, keys) == Verdict(true)
    decreases |keys|
  {
    AssignmentFits(f, |keys|);
    if sigs != [] {
      // using the first key for the first signature never loses an assignment
      if c.verifies(sigs[0], keys[0]) {
        var g := seq(|f| - 1, j requires 0 <= j < |f| - 1 => assert f[0] < f[j + 1]; f[j + 1] - 1);
        assert Assignment(c, sigs[1..], keys[1..], g) by {
          forall j | 0 <= j < |g| ensures g[j] < |keys[1..]| && c.verifies(sigs[1..][j], keys[1..][g[j]]) {
            assert f[0] < f[j + 1];
          }
        }
        AssignmentMatches(c, sigs[1..], keys[1..], g);
      } else {
        forall j | 0 <= j < |f| ensures f[j] >= 1 {
          assert f[0] != 0;
          if j > 0 { assert f[0] < f[j]; }
        }
        var g := seq(|f|, j requires 0 <= j < |f| => f[j] - 1);
        AssignmentMatches(c, sigs, keys[1..], g);
      }
    }
  }

  // ---------- Schnorr mode ----------

  /** DecodeBitfield: the little-endian number, unless its length or its range is wrong. */
  function DecodeBitfield(dummy: Bytes, size: nat): (bits: Option<nat>)
    requires size <= 20
    ensures bits.Some? ==> bits.value < 0x8000_0000
  {
    assert Pow2(size) <= 0x10_0000 by {
      Pow2Monotone(size, 20);
      assert Pow2(10) == 0x400;
      assert Pow2(20) == 0x10_0000;
    }
    if |dummy| != (size + 7) / 8 then None
    else if LittleEndian(dummy) >= Pow2(size) then None
    else Some(LittleEndian(dummy))
  }

  /** x | y */
  function Or(x: nat, y: nat): nat {
    if x == 0 && y == 0 then 0 else (if x % 2 == 1 || y % 2 == 1 then 1 else 0) + 2 * Or(x / 2, y / 2)
  }

  /** The loop over the dummy's bytes, and the test against the mask of the key count. */
  method DecodeBits(dummy: Bytes, size: nat) returns (bits: Option<nat>)
    requires size <= 20
    ensures bits == DecodeBitfield(dummy, size)
  {
    hide LittleEndian, Or, And;
    var bitfieldSize := (size + 7) / 8;
    if |dummy| != bitfieldSize { return None; }
    var bitfield := 0;
    assert LittleEndian(dummy[..0]) == 0 by { EmptyNumber(); }
    for i := 0 to bitfieldSize
      invariant bitfield == LittleEndian(dummy[..i])
    {
      OrNext(dummy, i);
      bitfield := Or(bitfield, dummy[i] * Pow2(8 * i));
    }
    assert dummy[..|dummy|] == dummy;
    var mask := Pow2(size) - 1;
    AndMask(bitfield, size);
    if And(bitfield, mask) != bitfield { return None; }
    return Some(bitfield);
  }

  lemma EmptyNumber()
    ensures LittleEndian([]) == 0
  {
  }

  /** The next byte falls above those that are there already. */
  lemma OrNext(b: Bytes, i: nat)
    requires i < |b|
    ensures Or(LittleEndian(b[..i]), b[i] * Pow2(8 * i)) == LittleEndian(b[..i + 1])
  {
    hide Or, LittleEndian;
    LittleEndianBound(b[..i]);
    if i == 0 { assert Pow2(0) == Pow256(0); } else { Pow2Of8(i); }
    OrAbove(LittleEndian(b[..i]), b[i], 8 * i);
    assert b[..i + 1] == b[..i] + [b[i]];
    LittleEndianSnoc(b[..i], b[i]);
  }

  lemma {:induction false} OrAbove(low: nat, x: nat, k: nat)
    requires low < Pow2(k)
    ensures Or(low, x * Pow2(k)) == low + x * Pow2(k)
    decreases k
  {
    if k == 0 {
      OrZero(x);
    } else {
      var y := x * Pow2(k - 1);
      assert x * Pow2(k) == 2 * y;
      OrAbove(low / 2, x, k - 1);
    }
  }

  lemma {:induction false} OrZero(x: nat)
    ensures Or(0, x) == x
  {
    if x > 0 { OrZero(x / 2); }
  }

  /** Masking keeps a number iff it is below the bit that the mask stops at. */
  lemma {:induction false} AndMask(x: nat, n: nat)
    ensures And(x, Pow2(n) - 1) == x <==> x < Pow2(n)
    decreases n
  {
    if n > 0 {
      AndMask(x / 2, n - 1);
      AndOdd(x, Pow2(n - 1) - 1);
    }
  }

  lemma AndOdd(x: nat, m: nat)
    ensures And(x, 2 * m + 1) == x % 2 + 2 * And(x / 2, m)
  {
  }

  lemma {:induction false} Pow2Monotone(a: nat, b: nat)
    requires a <= b
    ensures Pow2(a) <= Pow2(b)
  {
    if a < b { Pow2Monotone(a, b - 1); }
  }

  /** The next key whose bit is set, the search giving up at `count`. */
  function NextKey(bits: nat, iKey: nat, count: nat): (i: nat)
    ensures iKey <= i
    decreases count - iKey
  {
    if Bit(bits, iKey) || iKey >= count then iKey else NextKey(bits, iKey + 1, count)
  }

  /**
   * The loop over signatures and keys, both deepest-first. keys holds the key items and, after
   * them, the key count's own stack item, which the code reads when it runs past the last key.
   */
  function SchnorrLoop(check: (Bytes, Bytes) -> Trial, bits: nat, sigs: seq<Bytes>, keys: seq<Bytes>,
                       count: nat, iSig: nat, iKey: nat, ok: bool): Trial
    requires iSig <= |sigs|
    decreases |sigs| - iSig
  {
    if iSig == |sigs| then Verdict(ok && Shr(bits, iKey) == 0)
    else
      var i := NextKey(bits, iKey, count);
      if i >= |keys| then Threw
      else
        match check(sigs[iSig], keys[i])
        case Threw => Threw
        case Verdict(valid) =>
          SchnorrLoop(check, bits, sigs, keys, count, iSig + 1, i + 1,
                      ok && Shr(bits, iKey) != 0 && i < count && valid)
  }

  /** The whole Schnorr branch. A bad bitfield throws: the decoder assigns to a field of undefined. */
  function SchnorrMode(check: (Bytes, Bytes) -> Trial, dummy: Bytes, sigs: seq<Bytes>, keys: seq<Bytes>,
                       top: Bytes): Trial
    requires |keys| <= 20
  {
    match DecodeBitfield(dummy, |keys|)
    case None => Threw
    case Some(bits) => SchnorrLoop(check, bits, sigs, keys + [top], |keys|, 0, 0, CountBits(bits) == |sigs|)
  }

  /** From signature iSig on, the chosen keys are one for each signature, and each pair is valid. */
  ghost predicate ValidUnder(check: (Bytes, Bytes) -> Trial, sigs: seq<Bytes>, keys: seq<Bytes>, chosen: seq<nat>,
                             iSig: nat) {
    && iSig + |chosen| == |sigs|
    && forall j :: 0 <= j < |chosen| ==> chosen[j] < |keys| && check(sigs[iSig + j], keys[chosen[j]]) == Verdict(true)
  }

  /** The dummy names exactly one key per signature, and each signature checks under its key. */
  ghost predicate BitfieldSelects(check: (Bytes, Bytes) -> Trial, dummy: Bytes, sigs: seq<Bytes>, keys: seq<Bytes>) {
    && |dummy| == (|keys| + 7) / 8
    && LittleEndian(dummy) < Pow2(|keys|)
    && ValidUnder(check, sigs, keys, SetBits(LittleEndian(dummy), 0, |keys|), 0)
  }

  /** Schnorr mode succeeds iff the bitfield selects keys under which every signature is valid. */
  lemma SchnorrModeIff(check: (Bytes, Bytes) -> Trial, dummy: Bytes, sigs: seq<Bytes>, keys: seq<Bytes>, top: Bytes)
    requires |keys| <= 20
    ensures SchnorrMode(check, dummy, sigs, keys, top) == Verdict(true) <==> BitfieldSelects(check, dummy, sigs, keys)
  {
    hide CountBits, SetBits, SchnorrLoop, Pow2, LittleEndian;
    var n := |keys|;
    var decoded := DecodeBitfield(dummy, n);
    if decoded.Some? {
      var bits := decoded.value;
      SchnorrLoopIff(check, bits, sigs, keys, top, 0, 0, CountBits(bits) == |sigs|);
      CountBitsIsPopCount(bits);
      NoHighBits(bits, n, 32);
      SetBitsSplit(bits, 0, n, 32);
    }
  }

  lemma {:induction false} ShrBound(bits: nat, i: nat, n: nat)
    requires bits < Pow2(n) && i <= n
    ensures Shr(bits, i) < Pow2(n - i)
  {
    if i > 0 {
      ShrBound(bits, i - 1, n);
      ShrStep(bits, i - 1);
    }
  }

  lemma {:induction false} ShrFurther(bits: nat, i: nat, j: nat)
    requires i <= j && Shr(bits, i) == 0
    ensures Shr(bits, j) == 0
  {
    if i < j {
      ShrFurther(bits, i, j - 1);
      ShrStep(bits, j - 1);
    }
  }

  lemma NoHighBits(bits: nat, n: nat, end: nat)
    requires bits < Pow2(n) && n <= end
    ensures SetBits(bits, n, end) == []
  {
    ShrBound(bits, n, n);
    assert Pow2(n - n) == 1;
    NothingAbove(bits, n, n, end);
  }

  lemma {:induction false} NothingAbove(bits: nat, n: nat, i: nat, end: nat)
    requires Shr(bits, n) == 0 && n <= i
    ensures SetBits(bits, i, end) == []
    decreases end - i
  {
    if i < end {
      ShrFurther(bits, n, i);
      NothingAbove(bits, n, i + 1, end);
    }
  }

  lemma {:induction false} SetBitsSplit(bits: nat, i: nat, n: nat, end: nat)
    requires i <= n <= end
    ensures SetBits(bits, i, end) == SetBits(bits, i, n) + SetBits(bits, n, end)
    decreases n - i
  {
    if i < n { SetBitsSplit(bits, i + 1, n, end); }
  }

  /** What is left of the bits is zero iff no bit is set from here up. */
  lemma {:induction false} NothingLeft(bits: nat, i: nat, n: nat)
    requires bits < Pow2(n)
    ensures Shr(bits, i) == 0 <==> SetBits(bits, i, n) == []
    decreases n - i
  {
    if i >= n {
      ShrBound(bits, n, n);
      ShrFurther(bits, n, i);
    } else {
      NothingLeft(bits, i + 1, n);
      ShrStep(bits, i);
    }
  }

  /** The search stops at the first remaining set bit. */
  lemma {:induction false} NextKeyIsFirst(bits: nat, i: nat, n: nat)
    requires bits < Pow2(n)
    ensures var s, k := SetBits(bits, i, n), NextKey(bits, i, n);
            if s == [] then k >= n else k == s[0] && SetBits(bits, k + 1, n) == s[1..]
    decreases n - i
  {
    hide Bit, Pow2;
    if i < n && !Bit(bits, i) { NextKeyIsFirst(bits, i + 1, n); }
  }

  lemma {:induction false} SchnorrLoopIff(check: (Bytes, Bytes) -> Trial, bits: nat, sigs: seq<Bytes>, keys: seq<Bytes>,
                                          top: Bytes, iSig: nat, iKey: nat, ok: bool)
    requires iSig <= |sigs| && bits < Pow2(|keys|)
    ensures SchnorrLoop(check, bits, sigs, keys + [top], |keys|, iSig, iKey, ok) == Verdict(true) <==>
            ok && ValidUnder(check, sigs, keys, SetBits(bits, iKey, |keys|), iSig)
    decreases |sigs| - iSig
  {
    hide Bit, Shr, SetBits, NextKey, Pow2, ValidUnder;
    var n, chosen := |keys|, SetBits(bits, iKey, |keys|);
    NothingLeft(bits, iKey, n);
    ValidUnderSteps(check, sigs, keys, chosen, iSig);
    if iSig < |sigs| {
      var i := NextKey(bits, iKey, n);
      NextKeyIsFirst(bits, iKey, n);
      SetBitsAre(bits, iKey, n);
      if i < |keys + [top]| && check(sigs[iSig], (keys + [top])[i]).Verdict? {
        var ok' := ok && Shr(bits, iKey) != 0 && i < n && check(sigs[iSig], (keys + [top])[i]).ok;
        SchnorrLoopIff(check, bits, sigs, keys, top, iSig + 1, i + 1, ok');
      }
    }
  }

  /** ValidUnder, one signature at a time. */
  lemma ValidUnderSteps(check: (Bytes, Bytes) -> Trial, sigs: seq<Bytes>, keys: seq<Bytes>, chosen: seq<nat>, iSig: nat)
    requires iSig <= |sigs|
    ensures ValidUnder(check, sigs, keys, chosen, iSig) <==>
            if iSig == |sigs| then chosen == []
            else chosen != [] && chosen[0] < |keys| && check(sigs[iSig], keys[chosen[0]]) == Verdict(true) &&
                 ValidUnder(check, sigs, keys, chosen[1..], iSig + 1)
  {
    if chosen != [] && iSig < |sigs| {
      var t := chosen[1..];
      if ValidUnder(check, sigs, keys, chosen, iSig) {
        forall j | 0 <= j < |t| ensures t[j] < |keys| && check(sigs[iSig + 1 + j], keys[t[j]]) == Verdict(true) {
          assert check(sigs[iSig + (j + 1)], keys[chosen[j + 1]]) == Verdict(true);
        }
      }
      if chosen[0] < |keys| && check(sigs[iSig], keys[chosen[0]]) == Verdict(true) &&
         ValidUnder(check, sigs, keys, t, iSig + 1)
      {
        forall j | 0 <= j < |chosen|
          ensures chosen[j] < |keys| && check(sigs[iSig + j], keys[chosen[j]]) == Verdict(true)
        {
          if j > 0 { assert check(sigs[iSig + 1 + (j - 1)], keys[t[j - 1]]) == Verdict(true); }
        }
      }
    }
  }

  // ---------- the opcode on the stack ----------

  /** The layout: dummy, signatures, their count, keys, their count; signatures and keys deepest-first. */
  datatype Layout = Layout(rest: seq<Bytes>, dummy: Bytes, sigs: seq<Bytes>, keys: seq<Bytes>, top: Bytes)

  function ReadLayout(ctx: Context, st: seq<Bytes>, ops: nat): (l: Result<Layout>)
    ensures l.Ok? ==> var v := l.value;
              && |v.sigs| <= |v.keys| <= 20 && ops + |v.keys| <= MAX_OPS
              && exists sigCount :: st == v.rest + [v.dummy] + v.sigs + [sigCount] + v.keys + [v.top]
  {
    if |st| < 1 then Fail(InvalidStackOperation)
    else
      var k :- ReadNumber(Top(st, 1), ctx.flags.minimalData, 4);
      if k < 0 || k > 20 then Fail(PubkeyCount)
      else if ops + k > MAX_OPS then Fail(OpCount)
      else if |st| < k + 2 then Fail(InvalidStackOperation)
      else
        var m :- ReadNumber(Top(st, k + 2), ctx.flags.minimalData, 4);
        if m < 0 || m > k then Fail(SigCount)
        else if |st| < k + m + 3 then Fail(InvalidStackOperation)
        else
          var n := |st|;
          var l := Layout(Drop(st, k + m + 3), Top(st, k + m + 3), st[n - (k + 2) - m..n - (k + 2)],
                          st[n - 1 - k..n - 1],
                          Top(st, 1));
          assert st == l.rest + [l.dummy] + l.sigs + [Top(st, k + 2)] + l.keys + [l.top];
          Ok(l)
  }

  function LegacyChecker(env: Env, subscript: seq<Chunk>, sigs: seq<Bytes>): Checker {
    Checker(s => |s| == 65 || !env.txSigEncoded(s), k => !env.pubkeyEncoded(k),
            (s, k) => env.txSigValid(s, k, subscript, sigs))
  }

  function SchnorrChecker(env: Env, subscript: seq<Chunk>): (Bytes, Bytes) -> Trial {
    (s, k) => env.schnorrTxSig(s, k, subscript)
  }

  predicate UsesSchnorr(ctx: Context, l: Layout) { ctx.flags.schnorrMultisig && l.dummy != [] }

  function Check(ctx: Context, l: Layout, subscript: seq<Chunk>): Trial
    requires |l.keys| <= 20
  {
    if UsesSchnorr(ctx, l) then
      SchnorrMode(SchnorrChecker(ctx.env, subscript), l.dummy, l.sigs, l.keys, l.top)
    else
      Match(LegacyChecker(ctx.env, subscript, Reversed(l.sigs)), Reversed(l.sigs), Reversed(l.keys))
  }

  datatype Checked = Checked(rest: seq<Bytes>, ok: bool, keys: nat)

  function CheckMultisig(ctx: Context, st: seq<Bytes>, ops: nat, subscript: seq<Chunk>): Result<Checked> {
    var l :- ReadLayout(ctx, st, ops);
    match Check(ctx, l, subscript)
    case Threw => Fail(Encoding)
    case Verdict(ok) =>
      if !ok && ctx.flags.nullFail && (exists i :: 0 <= i < |l.sigs| && l.sigs[i] != []) then Fail(NullFail)
      else if ctx.flags.nullDummy && l.dummy != [] then Fail(SigNullDummy)
      else Ok(Checked(l.rest, ok, |l.keys|))
  }

  /**
   * OP_CHECKMULTISIG as a whole. When it does not fail it has taken exactly keys + signatures + 3
   * items off the stack, and its verdict is the existence of an order-preserving assignment, or,
   * in Schnorr mode, the bitfield's selection.
   */
  lemma CheckMultisigVerdict(ctx: Context, st: seq<Bytes>, ops: nat, subscript: seq<Chunk>)
    requires CheckMultisig(ctx, st, ops, subscript).Ok?
    ensures ReadLayout(ctx, st, ops).Ok?
    ensures var l, r := ReadLayout(ctx, st, ops).value, CheckMultisig(ctx, st, ops, subscript).value;
            && r.rest == st[..|st| - (|l.keys| + |l.sigs| + 3)]
            && (r.ok <==>
                if UsesSchnorr(ctx, l) then
                  BitfieldSelects(SchnorrChecker(ctx.env, subscript), l.dummy, l.sigs, l.keys)
                else
                  exists f :: Assignment(LegacyChecker(ctx.env, subscript, Reversed(l.sigs)),
                                         Reversed(l.sigs), Reversed(l.keys), f))
  {
    var l := ReadLayout(ctx, st, ops).value;
    if UsesSchnorr(ctx, l) {
      SchnorrModeIff(SchnorrChecker(ctx.env, subscript), l.dummy, l.sigs, l.keys, l.top);
    } else {
      MatchIffAssignment(LegacyChecker(ctx.env, subscript, Reversed(l.sigs)), Reversed(l.sigs), Reversed(l.keys));
    }
  }
}
