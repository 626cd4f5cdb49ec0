/**
 * The script machine on memory: stack items, pushed data and the two constants are views of byte
 * arrays, which several of them may share. Values are read off the views; the opcodes that write in
 * place write the memory of their operand.
 */
module SharedMachine {
  import opened Bytes
  import opened ScriptNum
  import opened Opcode
  import opened Script
  import opened Machine
  import opened Overwriting

  /** A block of memory: one that was there at the start, or the one that the step at pc `at` made. */
  datatype Mem = Given(m: array<Byte>) | Made(at: nat)

  datatype View = View(mem: Mem, lo: nat, hi: nat)

  /** A script element whose data is a view. */
  datatype ChunkOf<T> = NoOpcode(data: Option<T>) | BufChunk(op: int, data: Option<T>, len: int)

  /** What no step changes: the script's views, the flags, and Interpreter.true and Interpreter.false. */
  datatype Fixed = Fixed(script: seq<ChunkOf<View>>, flags: Flags, env: Env, yes: View, no: View)

  datatype Shared = Shared(heap: map<Mem, Bytes>, stack: seq<View>, alt: seq<View>, pc: nat, codeSep: nat, ops: nat,
                           vfExec: seq<bool>)

  // ---------- reading values off views ----------

  predicate InHeap(heap: map<Mem, Bytes>, v: View) { v.mem in heap && v.lo <= v.hi <= |heap[v.mem]| }

  function Read(heap: map<Mem, Bytes>, v: View): (r: Bytes)
    ensures InHeap(heap, v) ==> |r| == v.hi - v.lo
  {
    if InHeap(heap, v) then heap[v.mem][v.lo..v.hi] else []
  }

  function ReadAll(heap: map<Mem, Bytes>, vs: seq<View>): (r: seq<Bytes>)
    ensures |r| == |vs| && forall i :: 0 <= i < |vs| ==> r[i] == Read(heap, vs[i])
  {
    seq(|vs|, i requires 0 <= i < |vs| => Read(heap, vs[i]))
  }

  function WithData<T>(c: ChunkOf<T>, d: Option<Bytes>): Chunk {
    if c.NoOpcode? then Undefined(d) else Chunk(c.op, d, c.len)
  }

  function ReadChunk(heap: map<Mem, Bytes>, c: ChunkOf<View>): Chunk {
    WithData(c, if c.data.Some? then Some(Read(heap, c.data.value)) else None)
  }

  function ReadScript(heap: map<Mem, Bytes>, cs: seq<ChunkOf<View>>): (r: seq<Chunk>)
    ensures |r| == |cs| && forall i :: 0 <= i < |cs| ==> r[i] == ReadChunk(heap, cs[i])
  {
    seq(|cs|, i requires 0 <= i < |cs| => ReadChunk(heap, cs[i]))
  }

  function CtxOf(f: Fixed, heap: map<Mem, Bytes>): Context { Context(ReadScript(heap, f.script), f.flags, f.env) }

  function StateOf(h: Shared): State {
    State(Core(ReadAll(h.heap, h.stack), ReadAll(h.heap, h.alt), h.pc, h.codeSep, h.ops), h.vfExec)
  }

  // ---------- which views a step leaves on the stacks ----------

  /** The opcodes that push one of the two constants. */
  predicate IsVerdict(op: int) {
    op == OP_EQUAL || op == OP_WITHIN || op == OP_CHECKSIG || op == OP_CHECKDATASIG || op == OP_CHECKMULTISIG
  }

  /** The opcodes whose result is a buffer of its own. */
  predicate IsFresh(op: int) {
    IsUnary(op) || (IsBinary(op) && op != OP_NUMEQUALVERIFY) || IsHash(op) || IsSmallInt(op) ||
    op == OP_CAT || op == OP_DEPTH || op == OP_SIZE || op == OP_REVERSEBYTES
  }

  /** What _minimallyEncode returns: its argument, the start of it, or for zero a new empty buffer. */
  function TidyItem<T>(x: Bytes, own: T, start: T, empty: T): T {
    if Minimal(x) then own else if Decode(x) == 0 then empty else start
  }

  /**
   * What a step may put on top: the two constants, its new memory as a whole or in two parts, the start of an
   * operand.
   */
  datatype Stock<T> = Stock(yes: T, no: T, whole: T, left: T, right: T, start: T)

  /**
   * What a step puts on top that was no item before. r is the stack of values that the step ends with,
   * st the one it starts with; data is what the chunk pushes.
   */
  function NewItems<T>(op: int, data: Option<T>, st: seq<Bytes>, r: seq<Bytes>, items: seq<T>, k: Stock<T>): seq<T>
    requires |items| == |st|
  {
    if |r| == 0 then []
    else if IsPush(op) then [if data.Some? then data.value else k.no]
    else if IsVerdict(op) then [if Top(r, 1) == TRUE then k.yes else k.no]
    else if IsFresh(op) then [k.whole]
    else if op == OP_SPLIT && |r| >= 2 then [k.left, k.right]
    else if (op == OP_BIN2NUM || op == OP_NUM2BIN) && |st| >= Taken(op) then
      var x := Top(st, Taken(op));
      if |Encode(Decode(x))| < |Top(r, 1)| then [k.whole] else [TidyItem(x, Top(items, Taken(op)), k.start, k.whole)]
    else []
  }

  /** The lengths of the two top items. */
  function TopLength(r: seq<Bytes>, i: nat): nat
    requires i >= 1
  {
    if |r| >= i then |Top(r, i)| else 0
  }

  function ViewStock(f: Fixed, op: int, r: seq<Bytes>, items: seq<View>, mem: Mem): Stock<View> {
    var n, l := TopLength(r, 1), TopLength(r, 2);
    var own := if |items| >= Taken(op) then Top(items, Taken(op)) else f.no;
    Stock(f.yes, f.no, View(mem, 0, n), View(mem, 0, l), View(mem, l, l + n), View(own.mem, own.lo, own.lo + n))
  }

  /** The views on top; mem is the memory that the step makes, if it makes any. */
  function NewViews(f: Fixed, c: ChunkOf<View>, st: seq<Bytes>, r: seq<Bytes>, items: seq<View>, mem: Mem): seq<View>
    requires |items| == |st| && c.BufChunk?
  {
    NewItems(c.op, c.data, st, r, items, ViewStock(f, c.op, r, items, mem))
  }

  /** Below them lie the items that the step left where they were, or moved. */
  function NextItems<T>(op: int, st: seq<Bytes>, r: seq<Bytes>, items: seq<T>, alt: seq<T>, above: seq<T>): seq<T>
    requires |items| == |st|
  {
    if IsShuffle(op) && |items| >= Arity(op) then Shuffle(op, items).value
    else if (op == OP_PICK || op == OP_ROLL) && |st| >= 1 && 0 <= Decode(Top(st, 1)) < |st| - 1 then
      PickOrRoll(op, Drop(items, 1), Decode(Top(st, 1))).value
    else if op == OP_IFDUP && 1 <= |st| < |r| then items + [Top(items, 1)]
    else if op == OP_FROMALTSTACK && |alt| >= 1 then items + [Top(alt, 1)]
    else Kept(items, |r| - |above|) + above
  }

  function Kept<T>(items: seq<T>, n: int): seq<T> { if 0 <= n <= |items| then items[..n] else items }

  function NextAlt<T>(op: int, items: seq<T>, alt: seq<T>): seq<T> {
    if op == OP_TOALTSTACK && |items| >= 1 then alt + [Top(items, 1)]
    else if op == OP_FROMALTSTACK && |alt| >= 1 then Drop(alt, 1)
    else alt
  }

  // ---------- memory ----------

  predicate MakesMemory(op: int, st: seq<Bytes>, r: seq<Bytes>) {
    |r| > 0 && !IsPush(op) &&
    (IsFresh(op) || op == OP_SPLIT ||
     ((op == OP_BIN2NUM || op == OP_NUM2BIN) && |st| >= Taken(op) && CopiesNumber(Top(st, Taken(op)), |Top(r, 1)|)))
  }

  function MadeBytes(op: int, r: seq<Bytes>): Bytes
    requires |r| > 0
  {
    if op == OP_SPLIT && |r| >= 2 then Top(r, 2) + Top(r, 1) else Top(r, 1)
  }

  /** The memory m with the bytes w written from lo on. */
  function Overwrite(m: Bytes, lo: nat, w: Bytes): (r: Bytes)
    requires lo + |w| <= |m|
    ensures |r| == |m|
  {
    m[..lo] + w + m[lo + |w|..]
  }

  /** The heap with the bytes of v overwritten. */
  function Poke(heap: map<Mem, Bytes>, v: View, w: Bytes): map<Mem, Bytes>
    requires InHeap(heap, v) && |w| == v.hi - v.lo
  {
    heap[v.mem := Overwrite(heap[v.mem], v.lo, w)]
  }

  function LeftInView(op: int, st: seq<Bytes>, items: seq<View>): (w: Bytes)
    requires |items| == |st| >= Taken(op) && IsInPlace(op)
    ensures |w| == |Top(st, Taken(op))|
  {
    var t, y := Top(items, Taken(op)), Top(items, 1);
    LeftBehind(op, Top(st, Taken(op)), Top(st, 1), Lag(t.mem == y.mem, t.lo, y.lo))
  }

  /** The heap after the write of an in-place opcode. */
  function AfterWrite(heap: map<Mem, Bytes>, op: int, items: seq<View>, st: seq<Bytes>): map<Mem, Bytes>
    requires st == ReadAll(heap, items)
  {
    if IsInPlace(op) && |items| >= Taken(op) && InHeap(heap, Top(items, Taken(op))) then
      Poke(heap, Top(items, Taken(op)), LeftInView(op, st, items))
    else heap
  }

  function HeapAfter(heap: map<Mem, Bytes>, op: int, items: seq<View>, r: seq<Bytes>, mem: Mem): map<Mem, Bytes> {
    var st := ReadAll(heap, items);
    var written := AfterWrite(heap, op, items, st);
    if MakesMemory(op, st, r) then written[mem := MadeBytes(op, r)] else written
  }

  // ---------- one step, and a run ----------

  /** The next chunk is run, and not skipped or a conditional. */
  predicate Runs(f: Fixed, h: Shared)
    requires h.pc < |f.script|
  {
    Executing(h.vfExec) && f.script[h.pc].BufChunk? && !IsConditional(f.script[h.pc].op)
  }

  function SharedStep(f: Fixed, h: Shared): Result<Shared>
    requires h.pc < |f.script|
  {
    var c := f.script[h.pc];
    var s := StateOf(h);
    var s' :- Step(CtxOf(f, h.heap), s);
    var r := s'.core.stack;
    Ok(if Runs(f, h) then
         var above := NewViews(f, c, s.core.stack, r, h.stack, Made(h.pc));
         Shared(HeapAfter(h.heap, c.op, h.stack, r, Made(h.pc)),
                NextItems(c.op, s.core.stack, r, h.stack, h.alt, above),
                NextAlt(c.op, h.stack, h.alt), s'.core.pc, s'.core.codeSep, s'.core.ops, s'.vfExec)
       else
         h.(stack := Kept(h.stack, |r|), pc := s'.core.pc, codeSep := s'.core.codeSep, ops := s'.core.ops,
            vfExec := s'.vfExec))
  }

  function SharedRun(f: Fixed, h: Shared, end: nat): Result<Shared>
    requires h.pc <= end <= |f.script|
    decreases end - h.pc
  {
    if h.pc == end then Ok(h)
    else
      var h' :- SharedStep(f, h);
      StepAdvances(CtxOf(f, h.heap), StateOf(h));
      SharedRun(f, h', end)
  }
}
