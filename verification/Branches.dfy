/** Which branch of a conditional runs, and what holds of every chunk and every stretch of a run. */
module Branches {
  import opened Bytes
  import opened ScriptNum
  import opened Opcode
  import opened Script
  import opened Machine
  import opened Conditionals

  // ---------- IF and NOTIF ----------

  /** The state in which the branches start: the condition is gone from the stack, the opcode is counted. */
  function Entered(h: Chunk, s: Core, st: seq<Bytes>): Core { Skipped(s, [h]).(stack := st) }

  /** What MINIMALIF lets pass as a condition. */
  predicate AcceptedCondition(flags: Flags, x: Bytes) { flags.minimalIf ==> x == [] || x == [1] }

  lemma EnterLive(ctx: Context, h: Chunk, s: Core, st: seq<Bytes>, x: Bytes)
    requires IsIf(h) && s.stack == st + [x]
    ensures var r := Enter(ctx, h, s, true);
            if CanSkip(ctx, s, [h]) && AcceptedCondition(ctx.flags, x) then
              r == Ok((Entered(h, s, st), (h.op == OP_IF) == (Decode(x) != 0)))
            else r.Fail?
  {
    hide Fetch, CanSkip, Skipped, Decode;
    FetchSkips(ctx, s, h);
    SkippedStack(s, h);
    assert Drop(s.stack, 1) == st;
  }

  lemma SkippedStack(s: Core, h: Chunk)
    ensures Skipped(s, [h]).stack == s.stack
  {
  }

  /** r is what is left of a run in state a once the chunks of cs have been skipped. */
  predicate Passed(ctx: Context, a: Result<Core>, cs: seq<Chunk>, r: Result<Core>) {
    if a.Ok? && CanSkip(ctx, a.value, cs) then r == Ok(Skipped(a.value, cs)) else r.Fail?
  }

  /**
   * IF A ELSE B ENDIF runs A if the top item stands for a number other than zero, and B if it stands for zero;
   * with NOTIF it is the other way round. The branch not taken only moves the position and the op count.
   */
  lemma BranchTaken(ctx: Context, h: Chunk, a: Prog, els: Chunk, b: Prog, e: Chunk, s: Core, st: seq<Bytes>, x: Bytes)
    requires IsIf(h) && IsElse(els) && IsEndIf(e) && WellFormed(a) && WellFormed(b) && s.stack == st + [x]
    ensures var r := Run(ctx, Block(h, Alternate(a, els, Last(b)), e, Nil), s, true);
            var s1, before, after := Entered(h, s, st), Flatten(a) + [els], [els] + Flatten(b) + [e];
            if !CanSkip(ctx, s, [h]) || !AcceptedCondition(ctx.flags, x) then r.Fail?
            else if (h.op == OP_IF && Decode(x) != 0) || (h.op == OP_NOTIF && Decode(x) == 0) then
              Passed(ctx, Run(ctx, a, s1, true), after, r)
            else if CanSkip(ctx, s1, before) then Passed(ctx, Run(ctx, b, Skipped(s1, before), true), [e], r)
            else r.Fail?
  {
    hide Run, RunSegments, Enter, Decode, Fetch, CanSkip, Skipped, AcceptedCondition, Entered;
    EnterLive(ctx, h, s, st, x);
    BlockRuns(ctx, h, Alternate(a, els, Last(b)), e, s);
    if CanSkip(ctx, s, [h]) && AcceptedCondition(ctx.flags, x) {
      var s1 := Entered(h, s, st);
      if (h.op == OP_IF) == (Decode(x) != 0) {
        FirstRuns(ctx, a, els, b, e, s1);
      } else {
        SecondRuns(ctx, a, els, b, e, s1);
      }
    }
  }

  lemma BlockRuns(ctx: Context, h: Chunk, segs: Segments, e: Chunk, s: Core)
    ensures var entered := Enter(ctx, h, s, true);
            var r := Run(ctx, Block(h, segs, e, Nil), s, true);
            if entered.Fail? then r.Fail?
            else r == Close(ctx, RunSegments(ctx, segs, entered.value.0, true, entered.value.1), e)
  {
    hide Enter, Fetch, RunSegments;
    var b := RunBlock(ctx, h, segs, e, s, true);
    if b.Ok? { RunNothing(ctx, b.value); }
  }

  lemma RunNothing(ctx: Context, s: Core)
    ensures Run(ctx, Nil, s, true) == Ok(s)
  {
  }

  function Close(ctx: Context, r: Result<Core>, e: Chunk): Result<Core> {
    if r.Fail? then r else Fetch(ctx, e, r.value)
  }

  lemma FirstRuns(ctx: Context, a: Prog, els: Chunk, b: Prog, e: Chunk, s: Core)
    requires IsElse(els) && IsEndIf(e) && WellFormed(b)
    ensures Passed(ctx, Run(ctx, a, s, true), [els] + Flatten(b) + [e],
                   Close(ctx, RunSegments(ctx, Alternate(a, els, Last(b)), s, true, true), e))
  {
    hide Run, Fetch, CanSkip, Skipped;
    var r := Run(ctx, a, s, true);
    if r.Ok? {
      var t := r.value;
      FetchSkips(ctx, t, els);
      SkipConcat(ctx, t, [els] + Flatten(b), [e]);
      SkipConcat(ctx, t, [els], Flatten(b));
      if CanSkip(ctx, t, [els]) {
        SkippedIsInert(ctx, b, Skipped(t, [els]));
        if CanSkip(ctx, Skipped(t, [els]), Flatten(b)) { FetchSkips(ctx, Skipped(t, [els] + Flatten(b)), e); }
      }
    }
  }

  lemma SecondRuns(ctx: Context, a: Prog, els: Chunk, b: Prog, e: Chunk, s: Core)
    requires IsElse(els) && IsEndIf(e) && WellFormed(a)
    ensures var r := Close(ctx, RunSegments(ctx, Alternate(a, els, Last(b)), s, true, false), e);
            var before := Flatten(a) + [els];
            if CanSkip(ctx, s, before) then Passed(ctx, Run(ctx, b, Skipped(s, before), true), [e], r) else r.Fail?
  {
    hide Run, Fetch, CanSkip, Skipped;
    SkippedIsInert(ctx, a, s);
    SkipConcat(ctx, s, Flatten(a), [els]);
    if CanSkip(ctx, s, Flatten(a)) {
      FetchSkips(ctx, Skipped(s, Flatten(a)), els);
      if CanSkip(ctx, s, Flatten(a) + [els]) {
        var r := Run(ctx, b, Skipped(s, Flatten(a) + [els]), true);
        if r.Ok? { FetchSkips(ctx, r.value, e); }
      }
    }
  }

  /** What a whole evaluation makes of the run of its last branch, with cs still to be skipped. */
  function Finished(ctx: Context, r: Result<Core>, cs: seq<Chunk>): Option<seq<Bytes>> {
    if r.Ok? && CanSkip(ctx, r.value, cs) && |r.value.stack| + |r.value.alt| <= 1000 then Some(r.value.stack) else None
  }

  /** The same of a whole script: its result is that of the branch which the condition names, within the limits. */
  lemma EvaluateTakesBranch(ctx: Context, h: Chunk, a: Prog, els: Chunk, b: Prog, e: Chunk, st: seq<Bytes>, x: Bytes,
                            size: nat)
    requires IsIf(h) && IsElse(els) && IsEndIf(e) && WellFormed(a) && WellFormed(b)
    requires ctx.script == [h] + (Flatten(a) + [els] + Flatten(b)) + [e]
    ensures var s := Start(st + [x]).core;
            var s1, before, after := Entered(h, s, st), Flatten(a) + [els], [els] + Flatten(b) + [e];
            Evaluate(ctx, st + [x], size) ==
            if size > 10000 || !CanSkip(ctx, s, [h]) || !AcceptedCondition(ctx.flags, x) then None
            else if (h.op == OP_IF && Decode(x) != 0) || (h.op == OP_NOTIF && Decode(x) == 0) then
              Finished(ctx, Run(ctx, a, s1, true), after)
            else if CanSkip(ctx, s1, before) then Finished(ctx, Run(ctx, b, Skipped(s1, before), true), [e])
            else None
  {
    hide Run, RunSegments, Evaluate, Decode, Parse, CanSkip, AcceptedCondition;
    var p := Block(h, Alternate(a, els, Last(b)), e, Nil);
    BlockFlattens(h, a, els, b, e);
    ParseIff(ctx.script, p);
    EvaluateIsStructured(ctx, st + [x], size);
    BranchTaken(ctx, h, a, els, b, e, Start(st + [x]).core, st, x);
  }

  lemma BlockFlattens(h: Chunk, a: Prog, els: Chunk, b: Prog, e: Chunk)
    requires IsIf(h) && IsElse(els) && IsEndIf(e) && WellFormed(a) && WellFormed(b)
    ensures var p := Block(h, Alternate(a, els, Last(b)), e, Nil);
            WellFormed(p) && Flatten(p) == [h] + (Flatten(a) + [els] + Flatten(b)) + [e]
  {
    var more := Last(b);
    assert FlattenSegments(more) == Flatten(b) && WellFormedSegments(more);
    assert Flatten(Nil) == [] && WellFormed(Nil);
    var segs := Alternate(a, els, more);
    assert FlattenSegments(segs) == Flatten(a) + [els] + Flatten(b) && WellFormedSegments(segs);
  }
}
