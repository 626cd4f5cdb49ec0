/** The buffers of the interpreter, told as views: each byte array gets the name that SharedMachine knows it by. */
module Naming {
  import opened Bytes
  import opened ScriptNum
  import opened Opcode
  import opened Script
  import opened Machine
  import opened Overwriting
  import opened SharedMachine
  import opened SharingLaws
  import opened StepShapes
  import opened Views
  import opened BufferShapes

  type Names = map<array<Byte>, Mem>

  function NameOf(names: Names, b: Buf): View {
    View(if b.mem in names then names[b.mem] else Given(b.mem), b.lo, b.hi)
  }

  function NameAll(names: Names, bs: seq<Buf>): seq<View> { MapAll(b => NameOf(names, b), bs) }

  function NameData(names: Names, d: Option<Buf>): Option<View> {
    if d.Some? then Some(NameOf(names, d.value)) else None
  }

  function NameChunk(names: Names, c: BufChunk): ChunkOf<View> {
    if c.NoOpcode? then NoOpcode(NameData(names, c.data)) else BufChunk(c.op, NameData(names, c.data), c.len)
  }

  function NameScript(names: Names, cs: seq<BufChunk>): (r: seq<ChunkOf<View>>)
    ensures |r| == |cs| && forall i :: 0 <= i < |cs| ==> r[i] == NameChunk(names, cs[i])
  {
    seq(|cs|, i requires 0 <= i < |cs| => NameChunk(names, cs[i]))
  }

  /** Different arrays have different names, and each holds what the heap says. */
  ghost predicate Faithful(names: Names, heap: Heap)
    reads names.Keys
  {
    && (forall m, n :: m in names && n in names && names[m] == names[n] ==> m == n)
    && (forall m :: m in names ==> names[m] in heap && heap[names[m]] == m[..])
  }

  lemma NamedReads(names: Names, heap: Heap, b: Buf)
    requires Faithful(names, heap) && b.Valid() && b.mem in names
    ensures InHeap(heap, NameOf(names, b)) && Read(heap, NameOf(names, b)) == b.Data()
  {
  }

  lemma NamedReadAll(names: Names, heap: Heap, bs: seq<Buf>)
    requires Faithful(names, heap) && AllValid(bs) && Mems(bs) <= names.Keys
    ensures AllInHeap(heap, NameAll(names, bs)) && ReadAll(heap, NameAll(names, bs)) == DataOf(bs)
  {
    hide Faithful, NameOf, InHeap, Read;
    forall i | 0 <= i < |bs|
      ensures InHeap(heap, NameOf(names, bs[i])) && Read(heap, NameOf(names, bs[i])) == bs[i].Data()
    {
      assert bs[i].mem in Mems(bs);
      NamedReads(names, heap, bs[i]);
    }
  }

  lemma NamedReadScript(names: Names, heap: Heap, cs: seq<BufChunk>)
    requires Faithful(names, heap) && ChunksValid(cs) && ChunkMems(cs) <= names.Keys
    ensures ScriptInHeap(heap, NameScript(names, cs)) && ReadScript(heap, NameScript(names, cs)) == ScriptData(cs)
  {
    hide Faithful, NameOf, InHeap, Read;
    forall i | 0 <= i < |cs|
      ensures cs[i].data.Some? ==> InHeap(heap, NameOf(names, cs[i].data.value))
      ensures ReadChunk(heap, NameScript(names, cs)[i]) == ChunkData(cs[i])
    {
      if cs[i].data.Some? {
        assert cs[i].data.value in DataBufs(cs[i]);
        NamedReads(names, heap, cs[i].data.value);
      }
    }
  }

  // ---------- names do not change the shape of a step ----------

  function NameStock(names: Names, k: Stock<Buf>): Stock<View> {
    Stock(NameOf(names, k.yes), NameOf(names, k.no), NameOf(names, k.whole), NameOf(names, k.left),
          NameOf(names, k.right),
          NameOf(names, k.start))
  }

  lemma NameNew(names: Names, op: int, data: Option<Buf>, st: seq<Bytes>, r: seq<Bytes>, items: seq<Buf>, k: Stock<Buf>)
    requires |items| == |st|
    ensures NameAll(names, NewItems(op, data, st, r, items, k)) ==
            NewItems(op, NameData(names, data), st, r, NameAll(names, items), NameStock(names, k))
  {
    hide NameOf, Encode, Decode, Minimal, IsFresh, IsVerdict;
  }

  /** The stack of buffers that a step leaves, named, is the stack of views. */
  lemma NameMoved(names: Names, f: Fixed, c: BufChunk, st: seq<Bytes>, r: seq<Bytes>, items: seq<Buf>, alt: seq<Buf>,
                  now: seq<Buf>,
                  yes: Buf, no: Buf, mem: Mem)
    requires c.BufChunk? && Moved(c.op, c.data, st, r, items, alt, now, yes, no)
    requires f.yes == NameOf(names, yes) && f.no == NameOf(names, no)
    requires MakesMemory(c.op, st, r) ==> now != [] && MemOnTop(now, no) in names && names[MemOnTop(now, no)] == mem
    ensures var nc := NameChunk(names, c);
            NameAll(names, now) ==
            NextItems(c.op, st, r, NameAll(names, items), NameAll(names, alt),
                      NewViews(f, nc, st, r, NameAll(names, items), mem))
  {
    hide NextItems, NewItems, NameAll, MakesMemory;
    var m := MemOnTop(now, no);
    var k := BufStock(c.op, r, items, m, yes, no);
    NameNew(names, c.op, c.data, st, r, items, k);
    MapNext(b => NameOf(names, b), c.op, st, r, items, alt, NewItems(c.op, c.data, st, r, items, k));
    NamedMap(names, items);
    NamedMap(names, alt);
    NamedMap(names, now);
    NamedMap(names, NewItems(c.op, c.data, st, r, items, k));
    StockNamed(names, f, c, st, r, items, m, yes, no, mem);
  }

  lemma NamedMap(names: Names, bs: seq<Buf>)
    ensures NameAll(names, bs) == MapAll(b => NameOf(names, b), bs) && |NameAll(names, bs)| == |bs|
  {
  }

  lemma StockNamed(names: Names, f: Fixed, c: BufChunk, st: seq<Bytes>, r: seq<Bytes>, items: seq<Buf>, m: array<Byte>,
                   yes: Buf, no: Buf,
                   mem: Mem)
    requires c.BufChunk? && f.yes == NameOf(names, yes) && f.no == NameOf(names, no) && |items| == |st|
    requires MakesMemory(c.op, st, r) ==> m in names && names[m] == mem
    ensures var nc, named := NameChunk(names, c), NameAll(names, items);
            NewItems(c.op, nc.data, st, r, named, NameStock(names, BufStock(c.op, r, items, m, yes, no))) ==
            NewViews(f, nc, st, r, named, mem)
  {
    hide Encode, Decode, Minimal, IsFresh, IsVerdict;
    if |items| >= Taken(c.op) {
      assert Top(NameAll(names, items), Taken(c.op)) == NameOf(names, Top(items, Taken(c.op)));
    }
  }

  // ---------- new memory, and memory that was written ----------

  lemma NewNameUnused(names: Names, m: array<Byte>, mem: Mem, bs: seq<Buf>)
    requires m !in Mems(bs)
    ensures NameAll(names[m := mem], bs) == NameAll(names, bs)
  {
    assert forall i :: 0 <= i < |bs| ==> bs[i].mem in Mems(bs);
  }

  lemma NameAltMoved(names: Names, op: int, items: seq<Buf>, alt: seq<Buf>)
    ensures NameAll(names, NextAlt(op, items, alt)) == NextAlt(op, NameAll(names, items), NameAll(names, alt))
  {
    hide NextAlt, NameAll, NameOf;
    MapNextAlt(b => NameOf(names, b), op, items, alt);
    NamedMap(names, items);
    NamedMap(names, alt);
    NamedMap(names, NextAlt(op, items, alt));
  }

  lemma NameKept(names: Names, items: seq<Buf>, n: int)
    ensures NameAll(names, Kept(items, n)) == Kept(NameAll(names, items), n)
  {
    MapKept(b => NameOf(names, b), items, n);
  }

  /** A step holds on to no memory but what was held before, and what it has made. */
  lemma MovedMems(op: int, data: Option<Buf>, st: seq<Bytes>, r: seq<Bytes>, items: seq<Buf>, alt: seq<Buf>,
                  now: seq<Buf>,
                  yes: Buf, no: Buf)
    requires Moved(op, data, st, r, items, alt, now, yes, no)
    ensures Mems(now) <= Mems(items) + Mems(alt) + (if data.Some? then {data.value.mem} else {}) + {yes.mem, no.mem} +
                         (if MakesMemory(op, st, r) then {MemOnTop(now, no)} else {})
  {
    hide NextItems, NewItems, MakesMemory;
    var k := BufStock(op, r, items, MemOnTop(now, no), yes, no);
    NewMems(op, data, st, r, items, k, MemOnTop(now, no));
    NextMems(op, st, r, items, alt, NewItems(op, data, st, r, items, k));
  }

  lemma NewMems(op: int, data: Option<Buf>, st: seq<Bytes>, r: seq<Bytes>, items: seq<Buf>, k: Stock<Buf>,
                m: array<Byte>)
    requires |items| == |st| && {k.whole.mem, k.left.mem, k.right.mem} == {m}
    requires k.start.mem in Mems(items) + {k.no.mem}
    ensures Mems(NewItems(op, data, st, r, items, k)) <=
            Mems(items) + (if data.Some? then {data.value.mem} else {}) + {k.yes.mem, k.no.mem} +
            (if MakesMemory(op, st, r) then {m} else {})
  {
    hide Encode, Decode, Minimal, IsFresh, IsVerdict;
    assert k.whole.mem == m && k.left.mem == m && k.right.mem == m by {
      assert k.whole.mem in {m} && k.left.mem in {m} && k.right.mem in {m};
    }
    if |items| >= Taken(op) { assert Top(items, Taken(op)).mem in Mems(items); }
    VerdictIsNotFresh(op);
  }

  lemma VerdictIsNotFresh(op: int)
    ensures IsVerdict(op) ==> !IsFresh(op) && op != OP_SPLIT && op != OP_BIN2NUM && op != OP_NUM2BIN
    ensures IsPush(op) ==> !IsVerdict(op) && !IsFresh(op) && op != OP_SPLIT && op != OP_BIN2NUM && op != OP_NUM2BIN
  {
  }

  lemma NextMems(op: int, st: seq<Bytes>, r: seq<Bytes>, items: seq<Buf>, alt: seq<Buf>, above: seq<Buf>)
    requires |items| == |st|
    ensures Mems(NextItems(op, st, r, items, alt, above)) <= Mems(items) + Mems(alt) + Mems(above)
  {
    hide Decode, Arity, IsShuffle, Picture, PickOrRoll;
    if IsShuffle(op) && |items| >= Arity(op) {
      ShuffleMems(op, items, Shuffle(op, items).value);
    } else if (op == OP_PICK || op == OP_ROLL) && |st| >= 1 && 0 <= Decode(Top(st, 1)) < |st| - 1 {
      PickRange(op, Drop(items, 1), Decode(Top(st, 1)));
      DropMems(items, 1);
      MoveMems(op, Drop(items, 1), Decode(Top(st, 1)), PickOrRoll(op, Drop(items, 1), Decode(Top(st, 1))).value);
    }
  }

  /** What has become of the memory that has names: only the written operand may have changed. */
  ghost predicate MemoryIs(names: Names, heap: Heap, op: int, items: seq<Buf>)
    reads names.Keys
  {
    forall a :: a in names && names[a] in heap ==> a[..] == NewBytes(names, heap, op, items, a)
  }

  /** The bytes of one array after the opcode. */
  ghost function NewBytes(names: Names, heap: Heap, op: int, items: seq<Buf>, a: array<Byte>): Bytes
    requires a in names && names[a] in heap
  {
    var vs := NameAll(names, items);
    if IsInPlace(op) && |items| >= Taken(op) && a == Top(items, Taken(op)).mem && InHeap(heap, Top(vs, Taken(op))) then
      Overwrite(heap[names[a]], Top(items, Taken(op)).lo, LeftInView(op, ReadAll(heap, vs), vs))
    else heap[names[a]]
  }

  /** Memory after a step is what the heap says it is. */
  lemma FaithfulAfter(names: Names, heap: Heap, op: int, items: seq<Buf>, r: seq<Bytes>, mem: Mem, m: array<Byte>)
    requires forall a, b :: a in names && b in names && names[a] == names[b] ==> a == b
    requires (forall a :: a in names ==> names[a] in heap) && mem !in heap
    requires Mems(items) <= names.Keys && AllInHeap(heap, NameAll(names, items)) && MemoryIs(names, heap, op, items)
    requires MakesMemory(op, ReadAll(heap, NameAll(names, items)), r) ==> m !in names && m[..] == MadeBytes(op, r)
    ensures var vs := NameAll(names, items);
            Faithful(if MakesMemory(op, ReadAll(heap, vs), r) then names[m := mem] else names,
                     HeapAfter(heap, op, vs, r, mem))
  {
    hide MakesMemory, MadeBytes, ReadAll, NameAll, HeapAfter, NewBytes, AllInHeap;
    var vs := NameAll(names, items);
    var heap' := HeapAfter(heap, op, vs, r, mem);
    forall a | a in names ensures names[a] in heap' && heap'[names[a]] == NewBytes(names, heap, op, items, a) {
      HeapHoldsNew(names, heap, op, items, r, mem, a);
    }
    MadeInHeap(heap, op, vs, r, mem);
  }

  lemma MadeInHeap(heap: Heap, op: int, vs: seq<View>, r: seq<Bytes>, mem: Mem)
    ensures MakesMemory(op, ReadAll(heap, vs), r) ==>
              mem in HeapAfter(heap, op, vs, r, mem) && HeapAfter(heap, op, vs, r, mem)[mem] == MadeBytes(op, r)
  {
    hide MakesMemory, MadeBytes, ReadAll, LeftInView, Poke;
  }

  lemma HeapHoldsNew(names: Names, heap: Heap, op: int, items: seq<Buf>, r: seq<Bytes>, mem: Mem, a: array<Byte>)
    requires forall a, b :: a in names && b in names && names[a] == names[b] ==> a == b
    requires (forall a :: a in names ==> names[a] in heap) && mem !in heap && a in names
    requires Mems(items) <= names.Keys && AllInHeap(heap, NameAll(names, items))
    ensures var heap' := HeapAfter(heap, op, NameAll(names, items), r, mem);
            names[a] in heap' && heap'[names[a]] == NewBytes(names, heap, op, items, a)
  {
    hide LeftInView, MakesMemory, MadeBytes, ReadAll, NameAll, Overwrite;
    NamedMap(names, items);
    if IsInPlace(op) && |items| >= Taken(op) {
      var t := Top(items, Taken(op));
      assert t.mem in Mems(items) && Top(NameAll(names, items), Taken(op)) == NameOf(names, t);
    }
  }

  lemma NotWritten(names: Names, heap: Heap, op: int, items: seq<Buf>, a: array<Byte>)
    requires a in names && names[a] in heap &&
             !(IsInPlace(op) && |items| >= Taken(op) && a == Top(items, Taken(op)).mem)
    ensures NewBytes(names, heap, op, items, a) == heap[names[a]]
  {
  }
}
