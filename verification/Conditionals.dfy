/**
 * Structured control flow. A script is a flat list of chunks and the machine keeps a stack of
 * branch flags; here the same script is a tree of blocks, and running it needs no flags at all.
 */
module Conditionals {
  import opened Opcode
  import opened Script
  import opened Machine
  import Bytes

  /** Chunks in a row, some of them IF/NOTIF ... ENDIF blocks. */
  datatype Prog =
    | Nil
    | Single(chunk: Chunk, rest: Prog)
    | Block(head: Chunk, segments: Segments, end: Chunk, rest: Prog)

  /** The bodies between IF, ELSE, ..., ELSE and ENDIF. */
  datatype Segments = Last(body: Prog) | Alternate(body: Prog, els: Chunk, more: Segments)

  predicate IsIf(c: Chunk) { c.Chunk? && (c.op == OP_IF || c.op == OP_NOTIF) }
  predicate IsElse(c: Chunk) { c.Chunk? && c.op == OP_ELSE }
  predicate IsEndIf(c: Chunk) { c.Chunk? && c.op == OP_ENDIF }

  predicate WellFormed(p: Prog) {
    match p
    case Nil => true
    case Single(c, rest) => !IsIf(c) && !IsElse(c) && !IsEndIf(c) && WellFormed(rest)
    case Block(h, segs, e, rest) => IsIf(h) && WellFormedSegments(segs) && IsEndIf(e) && WellFormed(rest)
  }

  predicate WellFormedSegments(s: Segments) {
    match s
    case Last(b) => WellFormed(b)
    case Alternate(b, e, more) => WellFormed(b) && IsElse(e) && WellFormedSegments(more)
  }

  function Flatten(p: Prog): seq<Chunk> {
    match p
    case Nil => []
    case Single(c, rest) => [c] + Flatten(rest)
    case Block(h, segs, e, rest) => [h] + FlattenSegments(segs) + [e] + Flatten(rest)
  }

  function FlattenSegments(s: Segments): seq<Chunk> {
    match s
    case Last(b) => Flatten(b)
    case Alternate(b, e, more) => Flatten(b) + [e] + FlattenSegments(more)
  }

  // ---------- the structured evaluator ----------

  function Run(ctx: Context, p: Prog, s: Core, live: bool): Result<Core>
    decreases p, 0
  {
    match p
    case Nil => Ok(s)
    case Single(c, rest) =>
      var s1 :- RunSingle(ctx, c, s, live);
      Run(ctx, rest, s1, live)
    case Block(h, segs, e, rest) =>
      var s1 :- RunBlock(ctx, h, segs, e, s, live);
      Run(ctx, rest, s1, live)
  }

  function RunBlock(ctx: Context, h: Chunk, segs: Segments, e: Chunk, s: Core, live: bool): Result<Core>
    decreases segs, 1
  {
    var entered :- Enter(ctx, h, s, live);
    var s1 :- RunSegments(ctx, segs, entered.0, live, entered.1);
    Fetch(ctx, e, s1)
  }

  /** Every other segment runs, starting with the first one when the condition holds. */
  function RunSegments(ctx: Context, segs: Segments, s: Core, live: bool, cond: bool): Result<Core>
    decreases segs, 0
  {
    match segs
    case Last(b) => Run(ctx, b, s, live && cond)
    case Alternate(b, e, more) =>
      var s1 :- Run(ctx, b, s, live && cond);
      var s2 :- Fetch(ctx, e, s1);
      RunSegments(ctx, more, s2, live, !cond)
  }

  function RunSingle(ctx: Context, c: Chunk, s: Core, live: bool): Result<Core> {
    var s1 :- Fetch(ctx, c, s);
    if IsConditional(c.op) then Fail(BadOpcode)
    else if live then Plain(ctx, c, s1)
    else Ok(s1)
  }

  function Enter(ctx: Context, head: Chunk, s: Core, live: bool): Result<(Core, bool)> {
    var s1 :- Fetch(ctx, head, s);
    if live then Condition(ctx, head.op, s1) else Ok((s1, false))
  }

  // ---------- the flat machine runs the structured program ----------

  function WithFlags(r: Result<Core>, vf: seq<bool>): Result<State> {
    match r
    case Ok(c) => Ok(State(c, vf))
    case Fail(e) => Fail(e)
  }

  /** The chunks of cs stand in the script at position pc. */
  predicate At(ctx: Context, pc: nat, cs: seq<Chunk>) {
    pc + |cs| <= |ctx.script| && ctx.script[pc..pc + |cs|] == cs
  }

  lemma AtSplit(ctx: Context, pc: nat, a: seq<Chunk>, b: seq<Chunk>)
    requires At(ctx, pc, a + b)
    ensures At(ctx, pc, a) && At(ctx, pc + |a|, b)
  {
    assert ctx.script[pc..pc + |a + b|][..|a|] == a;
    assert ctx.script[pc..pc + |a + b|][|a|..] == b;
  }

  lemma {:induction false} RunToCompose(ctx: Context, s: State, mid: nat, end: nat)
    requires s.core.pc <= mid <= end <= |ctx.script|
    ensures RunTo(ctx, s, mid).Ok? ==> RunTo(ctx, s, mid).value.core.pc == mid
    ensures RunTo(ctx, s, end) == match RunTo(ctx, s, mid)
                                  case Fail(e) => Fail(e)
                                  case Ok(m) => RunTo(ctx, m, end)
    decreases mid - s.core.pc
  {
    hide Step;
    if s.core.pc < mid {
      StepAdvances(ctx, s);
      if Step(ctx, s).Ok? { RunToCompose(ctx, Step(ctx, s).value, mid, end); }
    }
  }

  lemma RunOne(ctx: Context, s: State, c: Chunk)
    requires At(ctx, s.core.pc, [c])
    ensures ctx.script[s.core.pc] == c
    ensures RunTo(ctx, s, s.core.pc + 1) == Step(ctx, s)
  {
    hide Step;
    assert ctx.script[s.core.pc] == [c][0];
    StepAdvances(ctx, s);
  }

  lemma StepSingle(ctx: Context, s: State, c: Chunk)
    requires s.core.pc < |ctx.script| && ctx.script[s.core.pc] == c && !IsIf(c) && !IsElse(c) && !IsEndIf(c)
    ensures Step(ctx, s) == WithFlags(RunSingle(ctx, c, s.core, Executing(s.vfExec)), s.vfExec)
  {
    hide Plain;
  }

  lemma StepIf(ctx: Context, s: State, c: Chunk)
    requires s.core.pc < |ctx.script| && ctx.script[s.core.pc] == c && IsIf(c)
    ensures var r := Enter(ctx, c, s.core, Executing(s.vfExec));
            Step(ctx, s) == if r.Fail? then Fail(r.error) else Ok(State(r.value.0, s.vfExec + [r.value.1]))
  {
    hide Plain, Condition;
  }

  lemma StepElse(ctx: Context, s: State, c: Chunk, vf: seq<bool>, cond: bool)
    requires s.core.pc < |ctx.script| && ctx.script[s.core.pc] == c && IsElse(c) && s.vfExec == vf + [cond]
    ensures Step(ctx, s) == WithFlags(Fetch(ctx, c, s.core), vf + [!cond])
  {
    hide Plain, Condition;
    assert Drop(s.vfExec, 1) == vf;
  }

  lemma StepEndIf(ctx: Context, s: State, c: Chunk, vf: seq<bool>, cond: bool)
    requires s.core.pc < |ctx.script| && ctx.script[s.core.pc] == c && IsEndIf(c) && s.vfExec == vf + [cond]
    ensures Step(ctx, s) == WithFlags(Fetch(ctx, c, s.core), vf)
  {
    hide Plain, Condition;
    assert Drop(s.vfExec, 1) == vf;
  }

  lemma ExecutingSnoc(vf: seq<bool>, b: bool)
    ensures Executing(vf + [b]) == (Executing(vf) && b)
  {
  }

  /** Wherever a program stands in a script, the flat machine does what the structured one does. */
  lemma {:induction false} FlatIsStructured(ctx: Context, p: Prog, s: State)
    requires WellFormed(p) && At(ctx, s.core.pc, Flatten(p))
    ensures RunTo(ctx, s, s.core.pc + |Flatten(p)|) == WithFlags(Run(ctx, p, s.core, Executing(s.vfExec)), s.vfExec)
    decreases p, 0
  {
    hide Step, RunSingle, Enter, Fetch, RunBlock;
    var vf := s.vfExec;
    var pc, end := s.core.pc, s.core.pc + |Flatten(p)|;
    match p
    case Nil =>
    case Single(c, rest) =>
      AtSplit(ctx, pc, [c], Flatten(rest));
      RunOne(ctx, s, c);
      StepSingle(ctx, s, c);
      RunToCompose(ctx, s, pc + 1, end);
      if Step(ctx, s).Ok? { FlatIsStructured(ctx, rest, Step(ctx, s).value); }
    case Block(h, segs, e, rest) =>
      var block := [h] + FlattenSegments(segs) + [e];
      AtSplit(ctx, pc, block, Flatten(rest));
      BlockIsStructured(ctx, h, segs, e, s);
      RunToCompose(ctx, s, pc + |block|, end);
      if RunTo(ctx, s, pc + |block|).Ok? { FlatIsStructured(ctx, rest, RunTo(ctx, s, pc + |block|).value); }
  }

  lemma {:induction false} BlockIsStructured(ctx: Context, h: Chunk, segs: Segments, e: Chunk, s: State)
    requires IsIf(h) && WellFormedSegments(segs) && IsEndIf(e)
    requires At(ctx, s.core.pc, [h] + FlattenSegments(segs) + [e])
    ensures RunTo(ctx, s, s.core.pc + |FlattenSegments(segs)| + 2) ==
            WithFlags(RunBlock(ctx, h, segs, e, s.core, Executing(s.vfExec)), s.vfExec)
    decreases segs, 1
  {
    hide Step, Enter, Fetch, RunSegments;
    var vf, f := s.vfExec, FlattenSegments(segs);
    var pc, end := s.core.pc, s.core.pc + |f| + 2;
    AtSplit(ctx, pc, [h] + f, [e]);
    AtSplit(ctx, pc, [h], f);
    RunOne(ctx, s, h);
    StepIf(ctx, s, h);
    RunToCompose(ctx, s, pc + 1, end);
    if Step(ctx, s).Ok? {
      var s1 := Step(ctx, s).value;
      var cond := s1.vfExec[|vf|];
      SegmentsAreStructured(ctx, segs, s1, vf, cond);
      RunToCompose(ctx, s1, end - 1, end);
      if RunTo(ctx, s1, end - 1).Ok? {
        var s2 := RunTo(ctx, s1, end - 1).value;
        RunOne(ctx, s2, e);
        StepEndIf(ctx, s2, e, vf, s2.vfExec[|vf|]);
      }
    }
  }

  /** The bodies of one block; the flag left on top is the last segment's. */
  lemma {:induction false} SegmentsAreStructured(ctx: Context, segs: Segments, s: State, vf: seq<bool>, cond: bool)
    requires WellFormedSegments(segs) && At(ctx, s.core.pc, FlattenSegments(segs)) && s.vfExec == vf + [cond]
    ensures exists last: bool ::
              RunTo(ctx, s, s.core.pc + |FlattenSegments(segs)|) ==
              WithFlags(RunSegments(ctx, segs, s.core, Executing(vf), cond), vf + [last])
    decreases segs, 0
  {
    hide Step, RunSingle, Enter, Fetch;
    var pc, end := s.core.pc, s.core.pc + |FlattenSegments(segs)|;
    ExecutingSnoc(vf, cond);
    match segs
    case Last(b) =>
      FlatIsStructured(ctx, b, s);
      assert RunTo(ctx, s, end) == WithFlags(RunSegments(ctx, segs, s.core, Executing(vf), cond), vf + [cond]);
    case Alternate(b, e, more) =>
      var f := Flatten(b);
      AtSplit(ctx, pc, f + [e], FlattenSegments(more));
      SegmentAndElse(ctx, b, e, s, vf, cond);
      RunToCompose(ctx, s, pc + |f| + 1, end);
      var r := RunSegments(ctx, segs, s.core, Executing(vf), cond);
      if RunTo(ctx, s, pc + |f| + 1).Ok? {
        SegmentsAreStructured(ctx, more, RunTo(ctx, s, pc + |f| + 1).value, vf, !cond);
      } else {
        assert RunTo(ctx, s, end) == WithFlags(r, vf + [true]);
      }
  }

  function RunUpToElse(ctx: Context, b: Prog, e: Chunk, s: Core, live: bool): Result<Core> {
    var s1 :- Run(ctx, b, s, live);
    Fetch(ctx, e, s1)
  }

  lemma {:induction false} SegmentAndElse(ctx: Context, b: Prog, e: Chunk, s: State, vf: seq<bool>, cond: bool)
    requires WellFormed(b) && IsElse(e) && At(ctx, s.core.pc, Flatten(b) + [e]) && s.vfExec == vf + [cond]
    ensures RunTo(ctx, s, s.core.pc + |Flatten(b)| + 1) ==
            WithFlags(RunUpToElse(ctx, b, e, s.core, Executing(vf) && cond), vf + [!cond])
    decreases b, 1
  {
    hide Step, Fetch, Run;
    var pc, f := s.core.pc, Flatten(b);
    ExecutingSnoc(vf, cond);
    AtSplit(ctx, pc, f, [e]);
    FlatIsStructured(ctx, b, s);
    RunToCompose(ctx, s, pc + |f|, pc + |f| + 1);
    if RunTo(ctx, s, pc + |f|).Ok? {
      var s1 := RunTo(ctx, s, pc + |f|).value;
      RunOne(ctx, s1, e);
      StepElse(ctx, s1, e, vf, cond);
    }
  }

  // ---------- parsing: which scripts are balanced ----------

  function ParseProg(cs: seq<Chunk>): (r: Option<(Prog, seq<Chunk>)>)
    ensures r.Some? ==> |r.value.1| <= |cs|
    decreases |cs|, 0
  {
    if cs == [] || IsElse(cs[0]) || IsEndIf(cs[0]) then Some((Nil, cs))
    else if IsIf(cs[0]) then
      match ParseSegments(cs[1..])
      case None => None
      case Some((segs, e, rest)) =>
        (match ParseProg(rest)
         case None => None
         case Some((more, rest')) => Some((Block(cs[0], segs, e, more), rest')))
    else
      match ParseProg(cs[1..])
      case None => None
      case Some((more, rest)) => Some((Single(cs[0], more), rest))
  }

  function ParseSegments(cs: seq<Chunk>): (r: Option<(Segments, Chunk, seq<Chunk>)>)
    ensures r.Some? ==> |r.value.2| < |cs|
    decreases |cs|, 1
  {
    match ParseProg(cs)
    case None => None
    case Some((body, rest)) =>
      if rest == [] then None
      else if IsEndIf(rest[0]) then Some((Last(body), rest[0], rest[1..]))
      else if !IsElse(rest[0]) then None
      else
        match ParseSegments(rest[1..])
        case None => None
        case Some((more, e, rest')) => Some((Alternate(body, rest[0], more), e, rest'))
  }

  /** The block structure of a whole script, if it has one. */
  function Parse(cs: seq<Chunk>): Option<Prog> {
    match ParseProg(cs)
    case None => None
    case Some((p, rest)) => if rest == [] then Some(p) else None
  }

  lemma {:induction false} ParseProgSound(cs: seq<Chunk>)
    requires ParseProg(cs).Some?
    ensures var (p, rest) := ParseProg(cs).value;
            WellFormed(p) && Flatten(p) + rest == cs && (rest == [] || IsElse(rest[0]) || IsEndIf(rest[0]))
    decreases |cs|, 0
  {
    if cs == [] || IsElse(cs[0]) || IsEndIf(cs[0]) {
      assert [] + cs == cs;
    } else if IsIf(cs[0]) {
      ParseSegmentsSound(cs[1..]);
      var (segs, e, rest) := ParseSegments(cs[1..]).value;
      ParseProgSound(rest);
      var (more, rest') := ParseProg(rest).value;
      Rejoin(cs, FlattenSegments(segs), e, Flatten(more), rest');
    } else {
      ParseProgSound(cs[1..]);
      var (more, rest) := ParseProg(cs[1..]).value;
      assert ([cs[0]] + Flatten(more)) + rest == [cs[0]] + (Flatten(more) + rest);
    }
  }

  lemma Rejoin(cs: seq<Chunk>, f: seq<Chunk>, e: Chunk, more: seq<Chunk>, rest: seq<Chunk>)
    requires cs != [] && cs[1..] == f + [e] + (more + rest)
    ensures ([cs[0]] + f + [e] + more) + rest == cs
  {
    assert cs == [cs[0]] + cs[1..];
  }

  lemma {:induction false} ParseSegmentsSound(cs: seq<Chunk>)
    requires ParseSegments(cs).Some?
    ensures var (segs, e, rest) := ParseSegments(cs).value;
            WellFormedSegments(segs) && IsEndIf(e) && FlattenSegments(segs) + [e] + rest == cs
    decreases |cs|, 1
  {
    ParseProgSound(cs);
    var (body, rest) := ParseProg(cs).value;
    assert rest == [rest[0]] + rest[1..];
    if !IsEndIf(rest[0]) {
      ParseSegmentsSound(rest[1..]);
      var (more, e, rest') := ParseSegments(rest[1..]).value;
      RejoinSegments(cs, Flatten(body), rest[0], FlattenSegments(more), e, rest');
    } else {
      assert Flatten(body) + [rest[0]] + rest[1..] == Flatten(body) + ([rest[0]] + rest[1..]);
    }
  }

  lemma RejoinSegments(cs: seq<Chunk>, b: seq<Chunk>, els: Chunk, more: seq<Chunk>, e: Chunk, rest: seq<Chunk>)
    requires cs == b + ([els] + (more + [e] + rest))
    ensures (b + [els] + more) + [e] + rest == cs
  {
  }

  /** A block structure is found whenever there is one, and it is the only one. */
  lemma {:induction false} ParseProgComplete(p: Prog, rest: seq<Chunk>)
    requires WellFormed(p) && (rest == [] || IsElse(rest[0]) || IsEndIf(rest[0]))
    ensures ParseProg(Flatten(p) + rest) == Some((p, rest))
    decreases p
  {
    hide ParseProg, ParseSegments;
    var cs := Flatten(p) + rest;
    match p
    case Nil =>
      assert cs == rest;
      ParseStops(rest);
    case Single(c, more) =>
      assert cs == [c] + (Flatten(more) + rest) && cs[1..] == Flatten(more) + rest;
      ParseProgComplete(more, rest);
      ParseSingle(cs, more, rest);
    case Block(h, segs, e, more) =>
      var tail := Flatten(more) + rest;
      assert cs == [h] + (FlattenSegments(segs) + ([e] + tail)) && cs[1..] == FlattenSegments(segs) + ([e] + tail);
      ParseSegmentsComplete(segs, e, tail);
      ParseProgComplete(more, rest);
      ParseBlock(cs, segs, e, tail, more, rest);
  }

  lemma ParseStops(cs: seq<Chunk>)
    requires cs == [] || IsElse(cs[0]) || IsEndIf(cs[0])
    ensures ParseProg(cs) == Some((Nil, cs))
  {
  }

  lemma ParseSingle(cs: seq<Chunk>, more: Prog, rest: seq<Chunk>)
    requires cs != [] && !IsIf(cs[0]) && !IsElse(cs[0]) && !IsEndIf(cs[0]) && ParseProg(cs[1..]) == Some((more, rest))
    ensures ParseProg(cs) == Some((Single(cs[0], more), rest))
  {
  }

  lemma ParseBlock(cs: seq<Chunk>, segs: Segments, e: Chunk, tail: seq<Chunk>, more: Prog, rest: seq<Chunk>)
    requires cs != [] && IsIf(cs[0]) && ParseSegments(cs[1..]) == Some((segs, e, tail))
    requires ParseProg(tail) == Some((more, rest))
    ensures ParseProg(cs) == Some((Block(cs[0], segs, e, more), rest))
  {
  }

  lemma {:induction false} ParseSegmentsComplete(segs: Segments, e: Chunk, rest: seq<Chunk>)
    requires WellFormedSegments(segs) && IsEndIf(e)
    ensures ParseSegments(FlattenSegments(segs) + ([e] + rest)) == Some((segs, e, rest))
    decreases segs
  {
    var cs := FlattenSegments(segs) + ([e] + rest);
    match segs
    case Last(b) =>
      ParseProgComplete(b, [e] + rest);
      assert ([e] + rest)[1..] == rest;
    case Alternate(b, els, more) =>
      var tail := FlattenSegments(more) + ([e] + rest);
      assert cs == Flatten(b) + ([els] + tail);
      ParseProgComplete(b, [els] + tail);
      assert ([els] + tail)[1..] == tail;
      ParseSegmentsComplete(more, e, rest);
  }

  /** Parse finds exactly the well-formed programs that flatten to the script. */
  lemma ParseIff(cs: seq<Chunk>, p: Prog)
    ensures Parse(cs) == Some(p) <==> WellFormed(p) && Flatten(p) == cs
  {
    if Parse(cs).Some? {
      ParseProgSound(cs);
      assert Flatten(Parse(cs).value) + [] == cs;
    }
    if WellFormed(p) && Flatten(p) == cs {
      ParseProgComplete(p, []);
      assert Flatten(p) + [] == cs;
    }
  }

  // ---------- scripts that are not balanced never evaluate to a result ----------

  /** Walking the script at nesting depth d, no ELSE or ENDIF strays and every IF is closed. */
  predicate Balanced(cs: seq<Chunk>, d: nat) {
    if cs == [] then d == 0
    else if IsIf(cs[0]) then Balanced(cs[1..], d + 1)
    else if IsElse(cs[0]) then d > 0 && Balanced(cs[1..], d)
    else if IsEndIf(cs[0]) then d > 0 && Balanced(cs[1..], d - 1)
    else Balanced(cs[1..], d)
  }

  lemma StepDepth(ctx: Context, s: State)
    requires s.core.pc < |ctx.script| && Step(ctx, s).Ok?
    ensures var c, d, d' := ctx.script[s.core.pc], |s.vfExec|, |Step(ctx, s).value.vfExec|;
            if IsIf(c) then d' == d + 1
            else if IsElse(c) then d' == d > 0
            else if IsEndIf(c) then d' == d - 1
            else d' == d
  {
    hide Plain, Condition;
  }

  /** A run to the end with no open block proves the rest of the script balanced. */
  lemma {:induction false} FinishedRunIsBalanced(ctx: Context, s: State)
    requires s.core.pc <= |ctx.script|
    requires RunTo(ctx, s, |ctx.script|).Ok? && RunTo(ctx, s, |ctx.script|).value.vfExec == []
    ensures Balanced(ctx.script[s.core.pc..], |s.vfExec|)
    decreases |ctx.script| - s.core.pc
  {
    hide Step;
    if s.core.pc < |ctx.script| {
      StepDepth(ctx, s);
      StepAdvances(ctx, s);
      FinishedRunIsBalanced(ctx, Step(ctx, s).value);
      assert ctx.script[s.core.pc..][1..] == ctx.script[s.core.pc + 1..];
    }
  }

  lemma {:induction false} BalancedParses(cs: seq<Chunk>, d: nat)
    requires Balanced(cs, d)
    ensures ParseProg(cs).Some?
    ensures var rest := ParseProg(cs).value.1; (rest == [] <==> d == 0) && Balanced(rest, d)
    decreases |cs|, 0
  {
    if cs == [] || IsElse(cs[0]) || IsEndIf(cs[0]) {
    } else if IsIf(cs[0]) {
      BalancedSegments(cs[1..], d);
      BalancedParses(ParseSegments(cs[1..]).value.2, d);
    } else {
      BalancedParses(cs[1..], d);
    }
  }

  lemma {:induction false} BalancedSegments(cs: seq<Chunk>, d: nat)
    requires Balanced(cs, d + 1)
    ensures ParseSegments(cs).Some? && Balanced(ParseSegments(cs).value.2, d)
    decreases |cs|, 1
  {
    BalancedParses(cs, d + 1);
    ParseProgSound(cs);
    var rest := ParseProg(cs).value.1;
    if IsElse(rest[0]) { BalancedSegments(rest[1..], d); }
  }

  // ---------- the main theorem ----------

  /** evaluate, defined on the block structure. */
  function StructuredEvaluate(ctx: Context, p: Prog, stack: seq<Bytes.Bytes>,
                              scriptSize: nat): Option<seq<Bytes.Bytes>> {
    if scriptSize > 10000 then None
    else
      match Run(ctx, p, Start(stack).core, true)
      case Fail(_) => None
      case Ok(s) => if |s.stack| + |s.alt| > MAX_STACK then None else Some(s.stack)
  }

  /**
   * Conditionals mean what they look like: evaluation of the flat script is evaluation of its
   * block structure, and a script without one evaluates to failure whatever the stack.
   */
  lemma EvaluateIsStructured(ctx: Context, stack: seq<Bytes.Bytes>, scriptSize: nat)
    ensures Evaluate(ctx, stack, scriptSize) ==
            match Parse(ctx.script)
            case None => None
            case Some(p) => StructuredEvaluate(ctx, p, stack, scriptSize)
  {
    hide RunTo, Run;
    var s := Start(stack);
    match Parse(ctx.script)
    case None =>
      if RunTo(ctx, s, |ctx.script|).Ok? && RunTo(ctx, s, |ctx.script|).value.vfExec == [] {
        FinishedRunIsBalanced(ctx, s);
        assert ctx.script[0..] == ctx.script;
        BalancedParses(ctx.script, 0);
      }
    case Some(p) =>
      ParseIff(ctx.script, p);
      assert At(ctx, 0, Flatten(p));
      FlatIsStructured(ctx, p, s);
  }

  // ---------- skipped code ----------

  function CountedIn(cs: seq<Chunk>): nat {
    if cs == [] then 0 else (if Counted(cs[0]) then 1 else 0) + CountedIn(cs[1..])
  }

  /** The limits that hold even for code that is not run. */
  predicate Admissible(ctx: Context, c: Chunk) {
    && c.Chunk? && (c.data.Some? ==> |c.data.value| <= MAX_SCRIPT_ELEMENT_SIZE)
    && !IsDisabled(c.op, ctx.flags) && c.op != OP_VERIF && c.op != OP_VERNOTIF
  }

  predicate AllAdmissible(ctx: Context, cs: seq<Chunk>) { forall i :: 0 <= i < |cs| ==> Admissible(ctx, cs[i]) }

  /** After n more chunks that were not run: only the position and the op count have moved. */
  function Skipped(s: Core, cs: seq<Chunk>): Core {
    s.(pc := s.pc + |cs|, ops := s.ops + CountedIn(cs))
  }

  predicate CanSkip(ctx: Context, s: Core, cs: seq<Chunk>) {
    AllAdmissible(ctx, cs) && (CountedIn(cs) > 0 ==> s.ops + CountedIn(cs) <= MAX_OPS)
  }

  lemma {:induction false} CountedConcat(a: seq<Chunk>, b: seq<Chunk>)
    ensures CountedIn(a + b) == CountedIn(a) + CountedIn(b)
  {
    if a == [] { assert a + b == b; } else {
      CountedConcat(a[1..], b);
      assert (a + b)[1..] == a[1..] + b;
    }
  }

  lemma SkipConcat(ctx: Context, s: Core, a: seq<Chunk>, b: seq<Chunk>)
    ensures CanSkip(ctx, s, a + b) <==> CanSkip(ctx, s, a) && CanSkip(ctx, Skipped(s, a), b)
    ensures Skipped(s, a + b) == Skipped(Skipped(s, a), b)
  {
    CountedConcat(a, b);
    if AllAdmissible(ctx, a + b) {
      forall i | 0 <= i < |a| ensures Admissible(ctx, a[i]) { assert (a + b)[i] == a[i]; }
      forall i | 0 <= i < |b| ensures Admissible(ctx, b[i]) { assert (a + b)[|a| + i] == b[i]; }
    }
  }

  lemma FetchSkips(ctx: Context, s: Core, c: Chunk)
    requires !(c.Chunk? && (c.op == OP_VERIF || c.op == OP_VERNOTIF))
    ensures if CanSkip(ctx, s, [c]) then Fetch(ctx, c, s) == Ok(Skipped(s, [c])) else Fetch(ctx, c, s).Fail?
  {
    assert CountedIn([c]) == if Counted(c) then 1 else 0;
    assert AllAdmissible(ctx, [c]) <==> Admissible(ctx, c) by {
      if AllAdmissible(ctx, [c]) { assert Admissible(ctx, [c][0]); }
    }
  }

  /**
   * Code in a skipped branch is inert. It leaves both stacks and the code separator alone, moves
   * pc past itself and counts its opcodes; or it fails, and it fails exactly when one of its
   * chunks breaks a static limit or the op count runs over.
   */
  lemma {:induction false} SkippedIsInert(ctx: Context, p: Prog, s: Core)
    requires WellFormed(p)
    ensures if CanSkip(ctx, s, Flatten(p)) then Run(ctx, p, s, false) == Ok(Skipped(s, Flatten(p)))
            else Run(ctx, p, s, false).Fail?
    decreases p, 0
  {
    hide Fetch, CanSkip, Skipped;
    match p
    case Nil => NothingToSkip(ctx, s);
    case Single(c, rest) =>
      SingleSkips(ctx, s, c);
      SkipConcat(ctx, s, [c], Flatten(rest));
      if CanSkip(ctx, s, [c]) { SkippedIsInert(ctx, rest, Skipped(s, [c])); }
    case Block(h, segs, e, rest) =>
      var block := [h] + FlattenSegments(segs) + [e];
      SkippedBlockIsInert(ctx, h, segs, e, s);
      SkipConcat(ctx, s, block, Flatten(rest));
      if CanSkip(ctx, s, block) { SkippedIsInert(ctx, rest, Skipped(s, block)); }
  }

  lemma NothingToSkip(ctx: Context, s: Core)
    ensures CanSkip(ctx, s, []) && Skipped(s, []) == s
  {
  }

  lemma SingleSkips(ctx: Context, s: Core, c: Chunk)
    requires !IsIf(c) && !IsElse(c) && !IsEndIf(c)
    ensures if CanSkip(ctx, s, [c]) then RunSingle(ctx, c, s, false) == Ok(Skipped(s, [c]))
            else RunSingle(ctx, c, s, false).Fail?
  {
    hide Plain;
    if c.Chunk? && (c.op == OP_VERIF || c.op == OP_VERNOTIF) {
      assert !Admissible(ctx, [c][0]);
    } else {
      FetchSkips(ctx, s, c);
    }
  }

  lemma {:induction false} SkippedBlockIsInert(ctx: Context, h: Chunk, segs: Segments, e: Chunk, s: Core)
    requires IsIf(h) && WellFormedSegments(segs) && IsEndIf(e)
    ensures var cs := [h] + FlattenSegments(segs) + [e];
            if CanSkip(ctx, s, cs) then RunBlock(ctx, h, segs, e, s, false) == Ok(Skipped(s, cs))
            else RunBlock(ctx, h, segs, e, s, false).Fail?
    decreases segs, 1
  {
    hide Fetch, CanSkip, Skipped, RunSegments;
    var f := FlattenSegments(segs);
    FetchSkips(ctx, s, h);
    SkipConcat(ctx, s, [h] + f, [e]);
    SkipConcat(ctx, s, [h], f);
    if CanSkip(ctx, s, [h]) {
      var s1 := Skipped(s, [h]);
      SkippedSegmentsAreInert(ctx, segs, s1, false);
      if CanSkip(ctx, s1, f) { FetchSkips(ctx, Skipped(s1, f), e); }
    }
  }

  lemma {:induction false} SkippedSegmentsAreInert(ctx: Context, segs: Segments, s: Core, cond: bool)
    requires WellFormedSegments(segs)
    ensures if CanSkip(ctx, s, FlattenSegments(segs))
            then RunSegments(ctx, segs, s, false, cond) == Ok(Skipped(s, FlattenSegments(segs)))
            else RunSegments(ctx, segs, s, false, cond).Fail?
    decreases segs, 0
  {
    hide Fetch, CanSkip, Skipped;
    match segs
    case Last(b) => SkippedIsInert(ctx, b, s);
    case Alternate(b, e, more) =>
      var f, g := Flatten(b), FlattenSegments(more);
      SkippedIsInert(ctx, b, s);
      SkipConcat(ctx, s, f + [e], g);
      SkipConcat(ctx, s, f, [e]);
      if CanSkip(ctx, s, f) {
        FetchSkips(ctx, Skipped(s, f), e);
        if CanSkip(ctx, Skipped(s, f), [e]) { SkippedSegmentsAreInert(ctx, more, Skipped(s, f + [e]), !cond); }
      }
  }
}
