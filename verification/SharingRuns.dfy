/** Whole runs on shared memory: which of them are the runs of the value machine. */
module SharingRuns {
  import opened Bytes
  import opened ScriptNum
  import opened NumBuffers
  import opened Opcode
  import opened Script
  import opened Machine
  import opened Overwriting
  import opened OpcodeCases
  import opened SharedMachine
  import opened StepShapes
  import opened SharingLaws

  // ---------- steps keep states well formed ----------

  /** The same memory blocks, and perhaps more, none of them shorter. */
  ghost predicate Holds(heap: Heap, heap': Heap) { forall m :: m in heap ==> m in heap' && |heap'[m]| == |heap[m]| }

  lemma HoldsAll(heap: Heap, heap': Heap, vs: seq<View>)
    requires Holds(heap, heap') && AllInHeap(heap, vs)
    ensures AllInHeap(heap', vs)
  {
  }

  lemma PokeHolds(heap: Heap, t: View, w: Bytes)
    requires InHeap(heap, t) && |w| == t.hi - t.lo
    ensures Holds(heap, Poke(heap, t, w))
  {
  }

  /** What a step does to memory: nothing shrinks, and only the memory named for this step is new. */
  lemma HeapAfterHolds(h: Shared, op: int, r: seq<Bytes>, mem: Mem)
    requires AllInHeap(h.heap, h.stack) && mem !in h.heap
    ensures var st, heap' := ReadAll(h.heap, h.stack), HeapAfter(h.heap, op, h.stack, r, mem);
            && Holds(h.heap, heap')
            && (forall m :: m in heap' ==> m in h.heap || m == mem)
            && (MakesMemory(op, st, r) ==> mem in heap' && heap'[mem] == MadeBytes(op, r))
  {
    hide Poke, LeftInView, MakesMemory, MadeBytes;
    if IsInPlace(op) && |h.stack| >= Taken(op) && InHeap(h.heap, Top(h.stack, Taken(op))) {
      var t, w := Top(h.stack, Taken(op)), LeftInView(op, ReadAll(h.heap, h.stack), h.stack);
      PokeHolds(h.heap, t, w);
      PokedKeys(h.heap, t, w);
    }
  }

  lemma AboveInHeap(f: Fixed, h: Shared)
    requires WellFormed(f, h) && h.pc < |f.script| && Runs(f, h) && Step(CtxOf(f, h.heap), StateOf(h)).Ok?
    ensures var op, st, r := f.script[h.pc].op, ReadAll(h.heap, h.stack),
            Step(CtxOf(f, h.heap), StateOf(h)).value.core.stack;
            var heap' := HeapAfter(h.heap, op, h.stack, r, Made(h.pc));
            AllInHeap(heap', NewViews(f, f.script[h.pc], st, r, h.stack, Made(h.pc)))
  {
    hide Step, ReadAll, ReadScript, IsFresh, IsVerdict, HeapAfter, NewViews, IsInPlace, MakesMemory;
    var c, ctx, s, mem := f.script[h.pc], CtxOf(f, h.heap), StateOf(h), Made(h.pc);
    var r := Step(ctx, s).value.core.stack;
    assert ctx.script[h.pc] == ReadChunk(h.heap, c);
    HeapAfterHolds(h, c.op, r, mem);
    if IsInPlace(c.op) {
      InPlaceStep(ctx, s);
      WrittenAboveInHeap(f, h, ctx, r, HeapAfter(h.heap, c.op, h.stack, r, mem));
    } else {
      QuietAboveInHeap(f, h, r, HeapAfter(h.heap, c.op, h.stack, r, mem));
    }
  }

  lemma WrittenAboveInHeap(f: Fixed, h: Shared, ctx: Context, r: seq<Bytes>, heap': Heap)
    requires h.pc < |f.script| && WritesNext(f, h) && AllInHeap(h.heap, h.stack)
    requires InPlace(ctx, f.script[h.pc].op, ReadAll(h.heap, h.stack)) == Ok(r)
    requires Holds(h.heap, heap')
    requires MakesMemory(f.script[h.pc].op, ReadAll(h.heap, h.stack), r) ==>
               Made(h.pc) in heap' && heap'[Made(h.pc)] == MadeBytes(f.script[h.pc].op, r)
    ensures AllInHeap(heap', NewViews(f, f.script[h.pc], ReadAll(h.heap, h.stack), r, h.stack, Made(h.pc)))
  {
    hide ReadAll, InPlace, MakesMemory, Encode, Decode, Minimal, IsFresh, IsVerdict;
    var op := f.script[h.pc].op;
    InPlaceKinds(op);
    InPlaceShape(ctx, op, ReadAll(h.heap, h.stack));
    if op == OP_NUM2BIN || op == OP_BIN2NUM { NumberViewFits(h, op, ctx, r, Made(h.pc), heap'); }
  }

  lemma QuietAboveInHeap(f: Fixed, h: Shared, r: seq<Bytes>, heap': Heap)
    requires WellFormed(f, h) && h.pc < |f.script| && Runs(f, h) && !WritesNext(f, h) && Holds(h.heap, heap')
    requires MakesMemory(f.script[h.pc].op, ReadAll(h.heap, h.stack), r) ==>
               Made(h.pc) in heap' && heap'[Made(h.pc)] == MadeBytes(f.script[h.pc].op, r)
    ensures AllInHeap(heap', NewViews(f, f.script[h.pc], ReadAll(h.heap, h.stack), r, h.stack, Made(h.pc)))
  {
    hide ReadAll, IsFresh, IsVerdict;
    var c := f.script[h.pc];
    assert c in f.script;
    if IsFresh(c.op) { MakerKinds(c.op); }
  }

  lemma NumberViewFits(h: Shared, op: int, ctx: Context, r: seq<Bytes>, mem: Mem, heap': Heap)
    requires (op == OP_NUM2BIN || op == OP_BIN2NUM) && |h.stack| >= Taken(op) && AllInHeap(h.heap, h.stack)
    requires InPlace(ctx, op, ReadAll(h.heap, h.stack)) == Ok(r) && |r| > 0
    requires Holds(h.heap, heap')
    requires MakesMemory(op, ReadAll(h.heap, h.stack), r) ==> mem in heap' && heap'[mem] == MadeBytes(op, r)
    ensures InHeap(heap', TopView(h, op, r, mem))
  {
    hide Encode, Decode, Minimal, Tidied, InPlace, ReadAll, IsFresh, LeftBehind;
    var st, x := ReadAll(h.heap, h.stack), Before(h, op);
    NumberFacts(ctx, op, st, r, 0);
    TidyReads(x);
    InPlaceKinds(op);
    assert InHeap(h.heap, Target(h, op));
  }

  /** Every item of the next stack was an item, or on the alternative stack, or is new. */
  lemma ItemsFrom(heap: Heap, op: int, st: seq<Bytes>, r: seq<Bytes>, items: seq<View>, alt: seq<View>,
                  above: seq<View>)
    requires |items| == |st| && AllInHeap(heap, items) && AllInHeap(heap, alt) && AllInHeap(heap, above)
    ensures AllInHeap(heap, NextItems(op, st, r, items, alt, above)) && AllInHeap(heap, NextAlt(op, items, alt))
  {
    hide InHeap, Decode, Arity, IsShuffle, Shuffle, Kept;
    KeptFrom(heap, items, |r| - |above|);
    if IsShuffle(op) && |items| >= Arity(op) { ShuffledFrom(heap, op, items); }
  }

  lemma ShuffledFrom(heap: Heap, op: int, items: seq<View>)
    requires IsShuffle(op) && |items| >= Arity(op) && AllInHeap(heap, items)
    ensures AllInHeap(heap, Shuffle(op, items).value)
  {
    hide InHeap, Picture;
    var n := |items| - Arity(op);
    assert forall v :: v in items[n..] ==> InHeap(heap, v);
    assert forall i :: 0 <= i < |Picture(op, items[n..])| ==> Picture(op, items[n..])[i] in items[n..];
  }

  lemma StaysWellFormed(f: Fixed, h: Shared)
    requires WellFormed(f, h) && h.pc < |f.script| && SharedStep(f, h).Ok?
    ensures WellFormed(f, SharedStep(f, h).value) && SharedStep(f, h).value.pc == h.pc + 1
  {
    hide Step, NewViews, NextItems, NextAlt, HeapAfter, ReadAll, ReadScript, InHeap, MakesMemory, MadeBytes, Kept;
    var c, ctx, s, mem, h' := f.script[h.pc], CtxOf(f, h.heap), StateOf(h), Made(h.pc), SharedStep(f, h).value;
    StepAdvances(ctx, s);
    var st, r := s.core.stack, Step(ctx, s).value.core.stack;
    if Runs(f, h) {
      AboveInHeap(f, h);
      HeapAfterHolds(h, c.op, r, mem);
      HoldsAll(h.heap, h'.heap, h.stack);
      HoldsAll(h.heap, h'.heap, h.alt);
      HoldsAll(h.heap, h'.heap, [f.yes, f.no]);
      HoldsScript(h.heap, h'.heap, f.script);
      ItemsFrom(h'.heap, c.op, st, r, h.stack, h.alt, NewViews(f, c, st, r, h.stack, mem));
      assert [f.yes, f.no][0] == f.yes && [f.yes, f.no][1] == f.no;
    } else {
      KeptFrom(h.heap, h.stack, |r|);
    }
  }

  lemma HoldsScript(heap: Heap, heap': Heap, cs: seq<ChunkOf<View>>)
    requires Holds(heap, heap') && ScriptInHeap(heap, cs)
    ensures ScriptInHeap(heap', cs)
  {
  }

  lemma KeptFrom(heap: Heap, items: seq<View>, n: int)
    requires AllInHeap(heap, items)
    ensures AllInHeap(heap, Kept(items, n))
  {
  }

  // ---------- runs ----------

  /** Every in-place opcode that the run from here executes disturbs no live view. */
  ghost predicate RunHarmless(f: Fixed, h: Shared)
    requires h.pc <= |f.script|
    decreases |f.script| - h.pc
  {
    h.pc < |f.script| && SharedStep(f, h).Ok? ==>
      (StepAdvances(CtxOf(f, h.heap), StateOf(h)); Harmless(f, h) && RunHarmless(f, SharedStep(f, h).value))
  }

  /** Up to pc == end the two machines fail alike, or end in the same state with the same script. */
  ghost predicate AgreesAt(f: Fixed, h: Shared, end: nat)
    requires h.pc <= end <= |f.script|
  {
    match SharedRun(f, h, end)
    case Fail(e) => RunTo(CtxOf(f, h.heap), StateOf(h), end) == Fail(e)
    case Ok(h') =>
      && RunTo(CtxOf(f, h.heap), StateOf(h), end) == Ok(StateOf(h'))
      && CtxOf(f, h'.heap) == CtxOf(f, h.heap) && Intact(f, h')
  }

  lemma AgreesFurther(f: Fixed, h: Shared, end: nat)
    requires h.pc < end <= |f.script|
    ensures SharedStep(f, h).Fail? ==> AgreesAt(f, h, end)
    ensures SharedStep(f, h).Ok? && LikeValues(f, h) ==>
              SharedStep(f, h).value.pc == h.pc + 1 &&
                (AgreesAt(f, h, end) <==> AgreesAt(f, SharedStep(f, h).value, end))
  {
    hide Step, ReadAll, ReadScript, Runs, NewViews, NextItems, NextAlt, HeapAfter, Intact;
    StepAdvances(CtxOf(f, h.heap), StateOf(h));
  }

  lemma AgreesOnce(f: Fixed, h: Shared)
    requires h.pc < |f.script| && SharedStep(f, h).Ok?
    ensures AgreesAt(f, h, h.pc + 1) <==> LikeValues(f, h)
  {
    hide Step, ReadAll, ReadScript, Runs, NewViews, NextItems, NextAlt, HeapAfter, Intact;
    StepAdvances(CtxOf(f, h.heap), StateOf(h));
    var h' := SharedStep(f, h).value;
    assert SharedRun(f, h', h.pc + 1) == Ok(h');
    assert SharedRun(f, h, h.pc + 1) == Ok(h');
    var s' := Step(CtxOf(f, h.heap), StateOf(h)).value;
    assert RunTo(CtxOf(f, h.heap), s', h.pc + 1) == Ok(s');
    assert RunTo(CtxOf(f, h.heap), StateOf(h), h.pc + 1) == Ok(s');
  }

  /**
   * A run on shared memory agrees with the value machine after every one of its steps iff every
   * in-place opcode it executes disturbs no live view.
   */
  lemma {:induction false} RunAgreesIff(f: Fixed, h: Shared)
    requires WellFormed(f, h) && Intact(f, h) && h.pc <= |f.script|
    ensures (forall end :: h.pc <= end <= |f.script| ==> AgreesAt(f, h, end)) <==> RunHarmless(f, h)
    decreases |f.script| - h.pc
  {
    hide SharedStep, Harmless, LikeValues, WellFormed, AgreesAt, Intact;
    AgreesNow(f, h);
    if h.pc < |f.script| && SharedStep(f, h).Ok? {
      var h' := SharedStep(f, h).value;
      StaysWellFormed(f, h);
      StepAgreesIff(f, h);
      AgreesOnce(f, h);
      if LikeValues(f, h) {
        LikeValuesIntact(f, h);
        RunAgreesIff(f, h');
        forall end | h.pc < end <= |f.script| ensures AgreesAt(f, h, end) <==> AgreesAt(f, h', end) {
          AgreesFurther(f, h, end);
        }
        Unfolded(f, h);
      } else {
        assert !AgreesAt(f, h, h.pc + 1);
        Unfolded(f, h);
      }
    } else {
      Unfolded(f, h);
      forall end | h.pc < end <= |f.script| ensures AgreesAt(f, h, end) {
        AgreesFurther(f, h, end);
      }
    }
  }

  lemma AgreesNow(f: Fixed, h: Shared)
    requires h.pc <= |f.script| && Intact(f, h)
    ensures AgreesAt(f, h, h.pc)
  {
  }

  lemma LikeValuesIntact(f: Fixed, h: Shared)
    requires h.pc < |f.script| && SharedStep(f, h).Ok? && LikeValues(f, h)
    ensures Intact(f, SharedStep(f, h).value)
  {
  }

  lemma Unfolded(f: Fixed, h: Shared)
    requires h.pc <= |f.script|
    ensures h.pc < |f.script| && SharedStep(f, h).Ok? ==>
              SharedStep(f, h).value.pc == h.pc + 1 &&
                (RunHarmless(f, h) <==> Harmless(f, h) && RunHarmless(f, SharedStep(f, h).value))
    ensures !(h.pc < |f.script| && SharedStep(f, h).Ok?) ==> RunHarmless(f, h)
  {
    hide Harmless, Step, ReadAll, ReadScript, Runs, NewViews, NextItems, NextAlt, HeapAfter;
    if h.pc < |f.script| { StepAdvances(CtxOf(f, h.heap), StateOf(h)); }
  }

  /** Without in-place opcodes nothing can go wrong. */
  lemma {:induction false} NoWritesNoHarm(f: Fixed, h: Shared)
    requires h.pc <= |f.script| && forall c :: c in f.script && c.BufChunk? ==> !IsInPlace(c.op)
    ensures RunHarmless(f, h)
    decreases |f.script| - h.pc
  {
    hide SharedStep, HarmlessWrite;
    Unfolded(f, h);
    if h.pc < |f.script| && SharedStep(f, h).Ok? {
      assert f.script[h.pc] in f.script;
      NoWritesNoHarm(f, SharedStep(f, h).value);
    }
  }

  /** A harmless run ends as the value machine's run does. */
  lemma HarmlessRun(f: Fixed, h: Shared)
    requires WellFormed(f, h) && Intact(f, h) && h.pc <= |f.script| && RunHarmless(f, h)
    ensures var run, spec := SharedRun(f, h, |f.script|), RunTo(CtxOf(f, h.heap), StateOf(h), |f.script|);
            && run.Ok? == spec.Ok?
            && (run.Ok? ==>
                  && spec.value == StateOf(run.value) && CtxOf(f, run.value.heap) == CtxOf(f, h.heap)
                  && run.value.vfExec == spec.value.vfExec
                  && |run.value.stack| == |spec.value.core.stack| && |run.value.alt| == |spec.value.core.alt|)
  {
    hide SharedStep, RunHarmless, RunTo, WellFormed;
    RunAgreesIff(f, h);
    assert AgreesAt(f, h, |f.script|);
  }

  lemma SharedRunOnce(f: Fixed, h: Shared, end: nat)
    requires h.pc < end <= |f.script|
    ensures var r := SharedStep(f, h);
            if r.Fail? then SharedRun(f, h, end).Fail?
            else r.value.pc == h.pc + 1 && SharedRun(f, h, end) == SharedRun(f, r.value, end)
  {
    hide Step, ReadAll, ReadScript, Runs, NewViews, NextItems, NextAlt, HeapAfter;
    StepAdvances(CtxOf(f, h.heap), StateOf(h));
  }

  lemma SharedRunEnds(f: Fixed, h: Shared)
    requires h.pc <= |f.script|
    ensures h.pc == |f.script| ==> SharedRun(f, h, |f.script|) == Ok(h)
  {
  }
}
