/** When the script machine on shared memory computes what the machine on values does, and when it does not. */
module SharingLaws {
  import opened Bytes
  import opened ScriptNum
  import opened NumBuffers
  import opened Opcode
  import opened Script
  import opened Machine
  import opened Overwriting
  import opened OpcodeCases
  import opened SharedMachine
  import opened StepShapes

  type Heap = map<Mem, Bytes>

  // ---------- reading after rearranging ----------

  lemma ReadIsMap(heap: Heap, vs: seq<View>)
    ensures ReadAll(heap, vs) == MapAll(v => Read(heap, v), vs)
  {
  }

  /** Reading commutes with what a step does to the stack. */
  lemma ReadNext(heap: Heap, op: int, st: seq<Bytes>, r: seq<Bytes>, items: seq<View>, alt: seq<View>, above: seq<View>)
    requires |items| == |st|
    ensures ReadAll(heap, NextItems(op, st, r, items, alt, above)) ==
            NextItems(op, st, r, ReadAll(heap, items), ReadAll(heap, alt), ReadAll(heap, above))
    ensures ReadAll(heap, NextAlt(op, items, alt)) == NextAlt(op, ReadAll(heap, items), ReadAll(heap, alt))
  {
    hide NextItems, NextAlt, ReadAll, MapAll, Read;
    var f := v => Read(heap, v);
    MapNext(f, op, st, r, items, alt, above);
    MapNextAlt(f, op, items, alt);
    ReadIsMap(heap, items);
    ReadIsMap(heap, alt);
    ReadIsMap(heap, above);
    ReadIsMap(heap, NextItems(op, st, r, items, alt, above));
    ReadIsMap(heap, NextAlt(op, items, alt));
  }

  lemma ReadKept(heap: Heap, items: seq<View>, n: int)
    ensures ReadAll(heap, Kept(items, n)) == Kept(ReadAll(heap, items), n)
  {
  }

  // ---------- well-formed states ----------

  ghost predicate AllInHeap(heap: Heap, vs: seq<View>) { forall i :: 0 <= i < |vs| ==> InHeap(heap, vs[i]) }

  ghost predicate ScriptInHeap(heap: Heap, cs: seq<ChunkOf<View>>) {
    forall c :: c in cs && c.data.Some? ==> InHeap(heap, c.data.value)
  }

  /** The memory that a later step will make is not there yet. */
  ghost predicate NotYetMade(heap: Heap, pc: nat) { forall k: nat :: Made(k) in heap ==> k < pc }

  ghost predicate WellFormed(f: Fixed, h: Shared) {
    && AllInHeap(h.heap, h.stack) && AllInHeap(h.heap, h.alt) && ScriptInHeap(h.heap, f.script)
    && InHeap(h.heap, f.yes) && InHeap(h.heap, f.no) && f.no.lo == f.no.hi && NotYetMade(h.heap, h.pc)
  }

  /** Interpreter.true still holds the byte 1. */
  ghost predicate Intact(f: Fixed, h: Shared) { Read(h.heap, f.yes) == TRUE }

  // ---------- steps that write nothing ----------

  /** All that could be read can still be read, and reads the same. */
  ghost predicate Extends(heap: Heap, heap': Heap) { forall m :: m in heap ==> m in heap' && heap'[m] == heap[m] }

  lemma ExtendedReads(heap: Heap, heap': Heap, vs: seq<View>)
    requires Extends(heap, heap') && AllInHeap(heap, vs)
    ensures ReadAll(heap', vs) == ReadAll(heap, vs) && AllInHeap(heap', vs)
  {
  }

  lemma ExtendedScript(heap: Heap, heap': Heap, cs: seq<ChunkOf<View>>)
    requires Extends(heap, heap') && ScriptInHeap(heap, cs)
    ensures ReadScript(heap', cs) == ReadScript(heap, cs)
  {
    forall i | 0 <= i < |cs| ensures ReadChunk(heap', cs[i]) == ReadChunk(heap, cs[i]) {
      assert cs[i] in cs;
    }
  }

  /** The step is the one of the value machine: same result, same script, Interpreter.true intact. */
  ghost predicate LikeValues(f: Fixed, h: Shared)
    requires h.pc < |f.script| && SharedStep(f, h).Ok?
  {
    var h' := SharedStep(f, h).value;
    Step(CtxOf(f, h.heap), StateOf(h)) == Ok(StateOf(h')) && CtxOf(f, h'.heap) == CtxOf(f, h.heap) && Intact(f, h')
  }

  /** The next chunk runs and writes in place. */
  predicate WritesNext(f: Fixed, h: Shared)
    requires h.pc < |f.script|
  {
    Runs(f, h) && IsInPlace(f.script[h.pc].op)
  }

  /** What a step puts on top reads as what the value machine puts there. */
  lemma ReadAbove(f: Fixed, h: Shared)
    requires WellFormed(f, h) && Intact(f, h) && h.pc < |f.script| && Runs(f, h) && !WritesNext(f, h)
    requires Step(CtxOf(f, h.heap), StateOf(h)).Ok?
    ensures var op, st, r := f.script[h.pc].op, ReadAll(h.heap, h.stack),
            Step(CtxOf(f, h.heap), StateOf(h)).value.core.stack;
            var heap' := HeapAfter(h.heap, op, h.stack, r, Made(h.pc));
            && Extends(h.heap, heap')
            && ReadAll(heap', NewViews(f, f.script[h.pc], st, r, h.stack, Made(h.pc))) == NewValues(op, r)
  {
    hide Step, ReadAll, Follows, IsFresh, IsVerdict, NextAlt;
    var c, ctx, s := f.script[h.pc], CtxOf(f, h.heap), StateOf(h);
    var st, r := ReadAll(h.heap, h.stack), Step(ctx, s).value.core.stack;
    assert ctx.script[h.pc] == ReadChunk(h.heap, c);
    RunShape(ctx, s);
    if |r| == 0 {
      NothingAbove(h.heap);
    } else if IsPush(c.op) {
      PushedView(f, h, r);
    } else if IsVerdict(c.op) {
      VerdictShape(ctx, s);
      VerdictView(f, h, r);
    } else {
      MadeView(f, h, st, r);
    }
  }

  lemma NothingAbove(heap: Heap)
    ensures ReadAll(heap, []) == []
  {
  }

  lemma ReadsOne(heap: Heap, v: View)
    ensures ReadAll(heap, [v]) == [Read(heap, v)]
  {
  }

  lemma PushedView(f: Fixed, h: Shared, r: seq<Bytes>)
    requires WellFormed(f, h) && h.pc < |f.script| && Runs(f, h) && IsPush(f.script[h.pc].op) && |r| > 0
    requires var d := ReadChunk(h.heap, f.script[h.pc]).data; Top(r, 1) == if d.Some? then d.value else FALSE
    ensures var c, st := f.script[h.pc], ReadAll(h.heap, h.stack);
            var heap' := HeapAfter(h.heap, c.op, h.stack, r, Made(h.pc));
            && heap' == h.heap
            && ReadAll(heap', NewViews(f, c, st, r, h.stack, Made(h.pc))) == NewValues(c.op, r)
  {
    hide ReadAll, IsFresh, IsVerdict, IsInPlace;
    var c := f.script[h.pc];
    PushKinds(c.op);
    assert Read(h.heap, f.no) == FALSE;
    ReadsOne(h.heap, if c.data.Some? then c.data.value else f.no);
  }

  lemma VerdictView(f: Fixed, h: Shared, r: seq<Bytes>)
    requires WellFormed(f, h) && Intact(f, h) && h.pc < |f.script| && Runs(f, h) && IsVerdict(f.script[h.pc].op)
    requires |r| > 0 && (Top(r, 1) == TRUE || Top(r, 1) == FALSE)
    ensures var c, st := f.script[h.pc], ReadAll(h.heap, h.stack);
            var heap' := HeapAfter(h.heap, c.op, h.stack, r, Made(h.pc));
            && heap' == h.heap
            && ReadAll(heap', NewViews(f, c, st, r, h.stack, Made(h.pc))) == NewValues(c.op, r)
  {
    hide ReadAll;
    var c := f.script[h.pc];
    MakerKinds(c.op);
    VerdictsMakeNothing(c.op);
    ReadsOne(h.heap, if Top(r, 1) == TRUE then f.yes else f.no);
  }

  lemma VerdictsMakeNothing(op: int)
    requires IsVerdict(op)
    ensures !IsFresh(op)
  {
  }

  /** New memory reads as what was put into it. */
  lemma MadeView(f: Fixed, h: Shared, st: seq<Bytes>, r: seq<Bytes>)
    requires WellFormed(f, h) && h.pc < |f.script| && Runs(f, h) && |r| > 0 && st == ReadAll(h.heap, h.stack)
    requires var op := f.script[h.pc].op; !IsInPlace(op) && !IsPush(op) && !IsVerdict(op)
    ensures var c := f.script[h.pc];
            var heap' := HeapAfter(h.heap, c.op, h.stack, r, Made(h.pc));
            && Extends(h.heap, heap')
            && ReadAll(heap', NewViews(f, c, st, r, h.stack, Made(h.pc))) == NewValues(c.op, r)
  {
    hide IsFresh, IsVerdict, ReadAll;
    var c, mem := f.script[h.pc], Made(h.pc);
    var heap' := HeapAfter(h.heap, c.op, h.stack, r, mem);
    assert mem !in h.heap;
    if IsFresh(c.op) {
      MakerKinds(c.op);
      assert heap'[mem] == Top(r, 1);
      ReadsWhole(heap', mem, Top(r, 1));
      ReadsOne(heap', View(mem, 0, |Top(r, 1)|));
    } else if c.op == OP_SPLIT && |r| >= 2 {
      var x, y := Top(r, 2), Top(r, 1);
      assert heap'[mem] == x + y;
      ReadHalves(heap', mem, x, y);
    } else {
      NothingAbove(heap');
    }
  }

  lemma ReadHalves(heap: Heap, mem: Mem, x: Bytes, y: Bytes)
    requires mem in heap && heap[mem] == x + y
    ensures ReadAll(heap, [View(mem, 0, |x|), View(mem, |x|, |x| + |y|)]) == [x, y]
  {
    assert (x + y)[0..|x|] == x && (x + y)[|x|..|x| + |y|] == y;
  }

  /** A step that writes nothing in place is the one of the value machine. */
  lemma QuietStep(f: Fixed, h: Shared)
    requires WellFormed(f, h) && Intact(f, h) && h.pc < |f.script| && !WritesNext(f, h) && SharedStep(f, h).Ok?
    ensures LikeValues(f, h)
  {
    hide Step, ReadAll, ReadScript, NewViews, NextItems, NextAlt, HeapAfter, WellFormed;
    var ctx, s, h' := CtxOf(f, h.heap), StateOf(h), SharedStep(f, h).value;
    var c, s' := f.script[h.pc], Step(ctx, s).value;
    if Runs(f, h) {
      ReadAbove(f, h);
      var st, r := s.core.stack, s'.core.stack;
      var above := NewViews(f, c, st, r, h.stack, Made(h.pc));
      assert ctx.script[h.pc] == ReadChunk(h.heap, c);
      RunShape(ctx, s);
      ReadNext(h'.heap, c.op, st, r, h.stack, h.alt, above);
      StillReads(f, h, h'.heap);
    } else {
      assert ctx.script[h.pc] == ReadChunk(h.heap, c);
      QuietShape(ctx, s);
      ReadKept(h.heap, h.stack, |s'.core.stack|);
    }
  }

  lemma StillReads(f: Fixed, h: Shared, heap': Heap)
    requires WellFormed(f, h) && Extends(h.heap, heap')
    ensures ReadAll(heap', h.stack) == ReadAll(h.heap, h.stack) && ReadAll(heap', h.alt) == ReadAll(h.heap, h.alt)
    ensures CtxOf(f, heap') == CtxOf(f, h.heap) && Read(heap', f.yes) == Read(h.heap, f.yes)
  {
    ExtendedReads(h.heap, heap', h.stack);
    ExtendedReads(h.heap, heap', h.alt);
    ExtendedScript(h.heap, heap', f.script);
  }

  // ---------- steps that write in place ----------

  /** v covers none of the bytes of t that change when x becomes w. */
  ghost predicate Undisturbed(t: View, x: Bytes, w: Bytes, v: View)
    requires |x| == |w|
  {
    v.mem == t.mem ==> forall k :: 0 <= k < |x| && v.lo <= t.lo + k < v.hi ==> w[k] == x[k]
  }

  ghost predicate AllUndisturbed(t: View, x: Bytes, w: Bytes, vs: seq<View>)
    requires |x| == |w|
  {
    forall i :: 0 <= i < |vs| ==> Undisturbed(t, x, w, vs[i])
  }

  /** The operand that the next opcode writes, its bytes before, and its bytes after. */
  function Target(h: Shared, op: int): View
    requires |h.stack| >= Taken(op)
  {
    Top(h.stack, Taken(op))
  }

  function Before(h: Shared, op: int): Bytes
    requires |h.stack| >= Taken(op)
  {
    Read(h.heap, Target(h, op))
  }

  function After(h: Shared, op: int): (w: Bytes)
    requires |h.stack| >= Taken(op) && IsInPlace(op)
    ensures |w| == |Before(h, op)|
  {
    LeftInView(op, ReadAll(h.heap, h.stack), h.stack)
  }

  /**
   * No live view covers a byte that changes: no item but the operands, no data of the script, not
   * Interpreter.true. And an operand that overlaps the written one has not spoilt the result.
   */
  ghost predicate HarmlessWrite(f: Fixed, h: Shared, op: int)
    requires |h.stack| >= Taken(op) && IsInPlace(op)
  {
    var t, x, w := Target(h, op), Before(h, op), After(h, op);
    && AllUndisturbed(t, x, w, Drop(h.stack, Taken(op)))
    && AllUndisturbed(t, x, w, h.alt)
    && (forall c :: c in f.script && c.data.Some? ==> Undisturbed(t, x, w, c.data.value))
    && Undisturbed(t, x, w, f.yes)
    && RightResult(op, ReadAll(h.heap, h.stack), w)
  }

  ghost predicate RightResult(op: int, st: seq<Bytes>, w: Bytes)
    requires |st| >= Taken(op)
  {
    IsBitwise(op) && |Top(st, 2)| == |Top(st, 1)| ==> w == Bitwise(op, Top(st, 2), Top(st, 1))
  }

  ghost predicate Harmless(f: Fixed, h: Shared)
    requires h.pc < |f.script|
  {
    WritesNext(f, h) && |h.stack| >= Taken(f.script[h.pc].op) ==> HarmlessWrite(f, h, f.script[h.pc].op)
  }

  lemma OverwrittenReads(heap: Heap, t: View, w: Bytes, v: View)
    requires InHeap(heap, t) && InHeap(heap, v) && |w| == t.hi - t.lo
    ensures var heap' := Poke(heap, t, w);
            && InHeap(heap', v) && InHeap(heap', t) && Read(heap', t) == w
            && (Read(heap', v) == Read(heap, v) <==> Undisturbed(t, Read(heap, t), w, v))
  {
    var m, x := heap[t.mem], Read(heap, t);
    var m' := Overwrite(m, t.lo, w);
    assert m'[t.lo..t.hi] == w;
    if v.mem == t.mem {
      if m'[v.lo..v.hi] == m[v.lo..v.hi] {
        forall k | 0 <= k < |x| && v.lo <= t.lo + k < v.hi ensures w[k] == x[k] {
          assert m'[v.lo..v.hi][t.lo + k - v.lo] == m'[t.lo + k] == w[k];
          assert m[v.lo..v.hi][t.lo + k - v.lo] == m[t.lo + k] == x[k];
        }
      }
      if Undisturbed(t, x, w, v) {
        forall p | v.lo <= p < v.hi ensures m'[p] == m[p] {
          if t.lo <= p < t.hi { assert w[p - t.lo] == x[p - t.lo]; }
        }
      }
    }
  }

  lemma OverwrittenAll(heap: Heap, t: View, w: Bytes, vs: seq<View>)
    requires InHeap(heap, t) && AllInHeap(heap, vs) && |w| == t.hi - t.lo
    ensures var heap' := Poke(heap, t, w);
            && AllInHeap(heap', vs)
            && (ReadAll(heap', vs) == ReadAll(heap, vs) <==> AllUndisturbed(t, Read(heap, t), w, vs))
  {
    hide Read, Undisturbed, Poke, InHeap;
    var heap' := Poke(heap, t, w);
    forall i | 0 <= i < |vs|
      ensures InHeap(heap', vs[i]) &&
              (ReadAll(heap', vs)[i] == ReadAll(heap, vs)[i] <==> Undisturbed(t, Read(heap, t), w, vs[i]))
    {
      OverwrittenReads(heap, t, w, vs[i]);
    }
  }

  lemma OverwrittenScript(heap: Heap, t: View, w: Bytes, cs: seq<ChunkOf<View>>)
    requires InHeap(heap, t) && ScriptInHeap(heap, cs) && |w| == t.hi - t.lo
    ensures var heap' := Poke(heap, t, w);
            && ScriptInHeap(heap', cs)
            && (ReadScript(heap', cs) == ReadScript(heap, cs) <==>
                forall c :: c in cs && c.data.Some? ==> Undisturbed(t, Read(heap, t), w, c.data.value))
  {
    hide Read, Undisturbed, Poke, InHeap;
    var heap' := Poke(heap, t, w);
    forall c | c in cs && c.data.Some?
      ensures InHeap(heap', c.data.value)
      ensures ReadChunk(heap', c) == ReadChunk(heap, c) <==> Undisturbed(t, Read(heap, t), w, c.data.value)
    {
      OverwrittenReads(heap, t, w, c.data.value);
    }
    if ReadScript(heap', cs) == ReadScript(heap, cs) {
      forall c | c in cs && c.data.Some? ensures ReadChunk(heap', c) == ReadChunk(heap, c) {
        var i :| 0 <= i < |cs| && cs[i] == c;
        assert ReadScript(heap', cs)[i] == ReadScript(heap, cs)[i];
      }
    }
  }

  // ---------- the exact condition ----------

  /** The view that an in-place opcode leaves on top. */
  function TopView(h: Shared, op: int, r: seq<Bytes>, mem: Mem): View
    requires |h.stack| >= Taken(op) && |r| > 0
  {
    var t, n := Target(h, op), |Top(r, 1)|;
    if IsBitwise(op) then t
    else if |Encode(Decode(Before(h, op)))| < n then View(mem, 0, n)
    else TidyItem(Before(h, op), t, View(t.mem, t.lo, t.lo + n), View(mem, 0, n))
  }

  lemma InPlaceViews(f: Fixed, h: Shared)
    requires h.pc < |f.script| && WritesNext(f, h) && SharedStep(f, h).Ok?
    ensures var op, ctx, s, h' := f.script[h.pc].op, CtxOf(f, h.heap), StateOf(h), SharedStep(f, h).value;
            var r := Step(ctx, s).value.core.stack;
            && |h.stack| >= Taken(op) && InPlace(ctx, op, s.core.stack) == Ok(r) && |r| == |h.stack| - Taken(op) + 1
            && h'.stack == Drop(h.stack, Taken(op)) + [TopView(h, op, r, Made(h.pc))]
            && h'.alt == h.alt && h'.heap == HeapAfter(h.heap, op, h.stack, r, Made(h.pc))
            && Step(ctx, s).value == State(Core(r, s.core.alt, h'.pc, h'.codeSep, h'.ops), h'.vfExec)
  {
    hide Step, InPlace, HeapAfter, ReadScript, ReadAll, NewViews, NextItems, NextAlt, TopView;
    var c, ctx, s := f.script[h.pc], CtxOf(f, h.heap), StateOf(h);
    assert ctx.script[h.pc] == ReadChunk(h.heap, c);
    InPlaceStep(ctx, s);
    InPlaceShape(ctx, c.op, s.core.stack);
    var r := Step(ctx, s).value.core.stack;
    NewOfInPlace(f, c, h, r);
    NextOfInPlace(c.op, s.core.stack, r, h.stack, h.alt, NewViews(f, c, s.core.stack, r, h.stack, Made(h.pc)));
  }

  lemma NewOfInPlace(f: Fixed, c: ChunkOf<View>, h: Shared, r: seq<Bytes>)
    requires c.BufChunk? && IsInPlace(c.op) && |h.stack| >= Taken(c.op) && |r| > 0
    ensures NewViews(f, c, ReadAll(h.heap, h.stack), r, h.stack, Made(h.pc)) ==
            if IsBitwise(c.op) then [] else [TopView(h, c.op, r, Made(h.pc))]
    ensures IsBitwise(c.op) ==> TopView(h, c.op, r, Made(h.pc)) == Top(h.stack, 2)
  {
    InPlaceKinds(c.op);
    hide IsFresh, IsVerdict, Encode, Decode, Minimal, ReadAll;
  }

  lemma InPlaceKinds(op: int)
    requires IsInPlace(op)
    ensures !IsPush(op) && !IsVerdict(op) && !IsFresh(op) && !IsShuffle(op) && !IsConditional(op) && op != OP_SPLIT
    ensures op != OP_PICK && op != OP_ROLL && op != OP_IFDUP && op != OP_FROMALTSTACK && op != OP_TOALTSTACK
    ensures IsBitwise(op) <==> op != OP_NUM2BIN && op != OP_BIN2NUM
  {
  }

  lemma NextOfInPlace(op: int, st: seq<Bytes>, r: seq<Bytes>, items: seq<View>, alt: seq<View>, above: seq<View>)
    requires IsInPlace(op) && |items| == |st| >= Taken(op) && |r| == |st| - Taken(op) + 1
    requires |above| == if IsBitwise(op) then 0 else 1
    ensures NextItems(op, st, r, items, alt, above) ==
            Drop(items, Taken(op)) + [if IsBitwise(op) then Top(items, Taken(op)) else above[0]]
    ensures NextAlt(op, items, alt) == alt
  {
    InPlaceKinds(op);
    hide IsShuffle, Decode;
    if IsBitwise(op) { assert Drop(items, 1) == Drop(items, 2) + [Top(items, 2)]; }
  }

  /**
   * Unless the number is padded, what the opcode leaves on top is its canonical encoding, cut out of the
   * tidied operand.
   */
  lemma NumberFacts(ctx: Context, op: int, st: seq<Bytes>, r: seq<Bytes>, lag: nat)
    requires op == OP_NUM2BIN || op == OP_BIN2NUM
    requires InPlace(ctx, op, st) == Ok(r) && |st| >= Taken(op) && |r| > 0
    ensures var x, top := Top(st, Taken(op)), Top(r, 1);
            var raw := Encode(Decode(x));
            |raw| <= |top| && (|raw| == |top| ==> top == raw && LeftBehind(op, x, Top(st, 1), lag) == Tidied(x))
  {
    hide Encode, Decode, Tidied, Widen, ReadNumber;
    NumberIsDecoded(Top(st, 1), ctx.flags.minimalData, 4);
    if op == OP_NUM2BIN { NumToBinCases(ctx, st); } else { BinToNumCases(ctx, st); }
  }

  lemma PokedStart(heap: Heap, t: View, w: Bytes, n: nat)
    requires InHeap(heap, t) && |w| == t.hi - t.lo && n <= |w|
    ensures Read(Poke(heap, t, w), View(t.mem, t.lo, t.lo + n)) == w[..n]
  {
    var m' := Overwrite(heap[t.mem], t.lo, w);
    assert m'[t.lo..t.lo + n] == w[..n];
  }

  /** The number opcodes leave the right bytes on top, whatever else they overwrite. */
  lemma NumberOnTop(h: Shared, op: int, ctx: Context, r: seq<Bytes>, mem: Mem)
    requires (op == OP_NUM2BIN || op == OP_BIN2NUM) && |h.stack| >= Taken(op) && AllInHeap(h.heap, h.stack) &&
             mem !in h.heap
    requires InPlace(ctx, op, ReadAll(h.heap, h.stack)) == Ok(r) && |r| > 0
    ensures Read(HeapAfter(h.heap, op, h.stack, r, mem), TopView(h, op, r, mem)) == Top(r, 1)
  {
    hide Encode, Decode, Minimal, Tidied, InPlace, ReadAll, HeapAfter, TopView, LeftBehind;
    var t, x := Target(h, op), Before(h, op);
    var raw := Encode(Decode(x));
    TidyReads(x);
    NumberFacts(ctx, op, ReadAll(h.heap, h.stack), r, Lag(t.mem == Top(h.stack, 1).mem, t.lo, Top(h.stack, 1).lo));
    if |raw| < |Top(r, 1)| || (!Minimal(x) && Decode(x) == 0) {
      NumberMade(h, op, r, mem);
    } else {
      NumberCut(h, op, r, mem);
    }
  }

  lemma NumberMade(h: Shared, op: int, r: seq<Bytes>, mem: Mem)
    requires (op == OP_NUM2BIN || op == OP_BIN2NUM) && |h.stack| >= Taken(op) && |r| > 0
    requires var x := Before(h, op); |Encode(Decode(x))| < |Top(r, 1)| || (!Minimal(x) && Decode(x) == 0)
    ensures Read(HeapAfter(h.heap, op, h.stack, r, mem), TopView(h, op, r, mem)) == Top(r, 1)
  {
    hide Encode, Decode, Minimal, Tidied, ReadAll, Poke, LeftInView;
    InPlaceKinds(op);
    ReadsWhole(HeapAfter(h.heap, op, h.stack, r, mem), mem, Top(r, 1));
  }

  lemma NumberCut(h: Shared, op: int, r: seq<Bytes>, mem: Mem)
    requires (op == OP_NUM2BIN || op == OP_BIN2NUM) && |h.stack| >= Taken(op) && |r| > 0 &&
             InHeap(h.heap, Target(h, op))
    requires var x := Before(h, op);
             && (Minimal(x) || Decode(x) != 0) && Encode(Decode(x)) == Top(r, 1) && After(h, op) == Tidied(x)
             && |Top(r, 1)| <= |x| && Tidied(x)[..|Top(r, 1)|] == Top(r, 1) && (Minimal(x) ==> x == Top(r, 1))
    ensures Read(HeapAfter(h.heap, op, h.stack, r, mem), TopView(h, op, r, mem)) == Top(r, 1)
  {
    hide Encode, Decode, Minimal, Tidied, ReadAll, Poke, LeftInView;
    InPlaceKinds(op);
    var t, x, n := Target(h, op), Before(h, op), |Top(r, 1)|;
    assert HeapAfter(h.heap, op, h.stack, r, mem) == Poke(h.heap, t, After(h, op));
    PokedStart(h.heap, t, After(h, op), n);
    assert Minimal(x) ==> t == View(t.mem, t.lo, t.lo + n);
  }

  lemma ReadsWhole(heap: Heap, mem: Mem, x: Bytes)
    requires mem in heap && heap[mem] == x
    ensures Read(heap, View(mem, 0, |x|)) == x
  {
  }

  /** The bitwise opcodes leave what they wrote. */
  lemma BitsOnTop(h: Shared, op: int, r: seq<Bytes>, mem: Mem)
    requires IsBitwise(op) && |h.stack| >= 2 && AllInHeap(h.heap, h.stack) && |r| > 0
    ensures Read(HeapAfter(h.heap, op, h.stack, r, mem), TopView(h, op, r, mem)) == After(h, op)
  {
    hide LeftBehind, Poke, ReadAll;
    InPlaceKinds(op);
    assert InHeap(h.heap, Target(h, op));
    OverwrittenReads(h.heap, Target(h, op), After(h, op), Target(h, op));
  }

  /** Everything below the result, and everything else that is live, is as it was iff nothing of it was disturbed. */
  lemma RestReads(f: Fixed, h: Shared, op: int, r: seq<Bytes>, mem: Mem)
    requires WellFormed(f, h) && IsInPlace(op) && |h.stack| >= Taken(op) && mem !in h.heap
    ensures var t, x, w, below := Target(h, op), Before(h, op), After(h, op), Drop(h.stack, Taken(op));
            var heap' := HeapAfter(h.heap, op, h.stack, r, mem);
            && (ReadAll(heap', below) == ReadAll(h.heap, below) <==> AllUndisturbed(t, x, w, below))
            && (ReadAll(heap', h.alt) == ReadAll(h.heap, h.alt) <==> AllUndisturbed(t, x, w, h.alt))
            && (CtxOf(f, heap') == CtxOf(f, h.heap) <==>
                forall c :: c in f.script && c.data.Some? ==> Undisturbed(t, x, w, c.data.value))
            && (Read(heap', f.yes) == Read(h.heap, f.yes) <==> Undisturbed(t, x, w, f.yes))
  {
    hide LeftBehind, Poke, MakesMemory, MadeBytes, AllUndisturbed, Undisturbed, ReadAll, ReadScript, Read;
    var t, w, below := Target(h, op), After(h, op), Drop(h.stack, Taken(op));
    assert InHeap(h.heap, t);
    var heap1, heap' := Poke(h.heap, t, w), HeapAfter(h.heap, op, h.stack, r, mem);
    OverwrittenAll(h.heap, t, w, below);
    OverwrittenAll(h.heap, t, w, h.alt);
    OverwrittenScript(h.heap, t, w, f.script);
    OverwrittenReads(h.heap, t, w, f.yes);
    PokedKeys(h.heap, t, w);
    ExtendedReads(heap1, heap', below);
    ExtendedReads(heap1, heap', h.alt);
    ExtendedScript(heap1, heap', f.script);
    ExtendedOne(heap1, heap', f.yes);
  }

  lemma PokedKeys(heap: Heap, t: View, w: Bytes)
    requires InHeap(heap, t) && |w| == t.hi - t.lo
    ensures Poke(heap, t, w).Keys == heap.Keys
  {
  }

  lemma ExtendedOne(heap: Heap, heap': Heap, v: View)
    requires Extends(heap, heap') && InHeap(heap, v)
    ensures Read(heap', v) == Read(heap, v) && InHeap(heap', v)
  {
  }

  /** A step that writes in place is the one of the value machine exactly when it is harmless. */
  lemma WritingStep(f: Fixed, h: Shared)
    requires WellFormed(f, h) && Intact(f, h) && h.pc < |f.script| && WritesNext(f, h) && SharedStep(f, h).Ok?
    ensures LikeValues(f, h) <==> Harmless(f, h)
  {
    hide Step, InPlace, ReadAll, ReadScript, HeapAfter, TopView, AllUndisturbed, Undisturbed, Read, RightResult, After,
      LeftInView;
    InPlaceViews(f, h);
    var op, mem, st := f.script[h.pc].op, Made(h.pc), ReadAll(h.heap, h.stack);
    var r, h' := Step(CtxOf(f, h.heap), StateOf(h)).value.core.stack, SharedStep(f, h).value;
    assert mem !in h.heap;
    RestReads(f, h, op, r, mem);
    TopReads(h, op, CtxOf(f, h.heap), r, mem);
    StackReads(h, op, CtxOf(f, h.heap), r, mem);
  }

  /** The result is right iff no overlapping operand has spoilt it. */
  lemma TopReads(h: Shared, op: int, ctx: Context, r: seq<Bytes>, mem: Mem)
    requires IsInPlace(op) && |h.stack| >= Taken(op) && AllInHeap(h.heap, h.stack) && mem !in h.heap && |r| > 0
    requires InPlace(ctx, op, ReadAll(h.heap, h.stack)) == Ok(r)
    ensures Read(HeapAfter(h.heap, op, h.stack, r, mem), TopView(h, op, r, mem)) == Top(r, 1) <==>
            RightResult(op, ReadAll(h.heap, h.stack), After(h, op))
  {
    hide InPlace, ReadAll, HeapAfter, TopView, Read, After, LeftInView, Bitwise;
    if IsBitwise(op) {
      BitsOnTop(h, op, r, mem);
      BitsAreRight(ctx, op, ReadAll(h.heap, h.stack), r);
    } else {
      InPlaceKinds(op);
      NumberOnTop(h, op, ctx, r, mem);
    }
  }

  /** The stack is right iff its top is, and what lies below. */
  lemma StackReads(h: Shared, op: int, ctx: Context, r: seq<Bytes>, mem: Mem)
    requires IsInPlace(op) && |h.stack| >= Taken(op) && |r| > 0 && InPlace(ctx, op, ReadAll(h.heap, h.stack)) == Ok(r)
    ensures var below, top, heap' := Drop(h.stack, Taken(op)), TopView(h, op, r, mem),
            HeapAfter(h.heap, op, h.stack, r, mem);
            ReadAll(heap', below + [top]) == r <==>
            ReadAll(heap', below) == ReadAll(h.heap, below) && Read(heap', top) == Top(r, 1)
  {
    hide InPlace, ReadAll, HeapAfter, TopView, Read;
    var below, top, heap' := Drop(h.stack, Taken(op)), TopView(h, op, r, mem), HeapAfter(h.heap, op, h.stack, r, mem);
    InPlaceShape(ctx, op, ReadAll(h.heap, h.stack));
    ReadBelow(h.heap, h.stack, Taken(op));
    ReadAppended(heap', below, top);
    SplitTop(r);
    SplitTop(ReadAll(heap', below + [top]));
  }

  lemma ReadBelow(heap: Heap, items: seq<View>, n: nat)
    requires n <= |items|
    ensures ReadAll(heap, Drop(items, n)) == Drop(ReadAll(heap, items), n)
  {
  }

  lemma ReadAppended(heap: Heap, below: seq<View>, top: View)
    ensures var r := ReadAll(heap, below + [top]);
            |r| == |below| + 1 && Drop(r, 1) == ReadAll(heap, below) && Top(r, 1) == Read(heap, top)
  {
    assert Drop(ReadAll(heap, below + [top]), 1) == ReadAll(heap, below);
  }

  lemma BitsAreRight(ctx: Context, op: int, st: seq<Bytes>, r: seq<Bytes>)
    requires IsBitwise(op) && InPlace(ctx, op, st) == Ok(r) && |r| > 0
    ensures |st| >= 2 && |Top(st, 2)| == |Top(st, 1)| && Top(r, 1) == Bitwise(op, Top(st, 2), Top(st, 1))
  {
    hide Bitwise;
  }

  /** One step agrees with the value machine exactly when it disturbs no live view. */
  lemma StepAgreesIff(f: Fixed, h: Shared)
    requires WellFormed(f, h) && Intact(f, h) && h.pc < |f.script| && SharedStep(f, h).Ok?
    ensures LikeValues(f, h) <==> Harmless(f, h)
  {
    hide LikeValues, SharedStep, WellFormed, HarmlessWrite;
    if WritesNext(f, h) { WritingStep(f, h); } else { QuietStep(f, h); }
  }
}
