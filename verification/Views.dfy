/** Buffers as the interpreter holds them: what they say, what they share, and the loops that write them. */
module Views {
  import opened Bytes
  import opened ScriptNum
  import opened NumBuffers
  import opened Opcode
  import opened Script
  import opened Machine
  import opened Widening
  import opened Overwriting
  import opened SharedMachine

  // ---------- buffers seen as values ----------

  ghost predicate AllValid(st: seq<Buf>) { forall i :: 0 <= i < |st| ==> st[i].Valid() }

  ghost function Mems(st: seq<Buf>): set<array<Byte>> { set b | b in st :: b.mem }

  /** The byte strings that a sequence of buffers holds. */
  ghost function DataOf(st: seq<Buf>): (r: seq<Bytes>)
    requires AllValid(st)
    reads Mems(st)
    ensures |r| == |st| && forall i :: 0 <= i < |st| ==> st[i] in st && r[i] == st[i].Data()
  {
    seq(|st|, i requires 0 <= i < |st| reads Mems(st) => assert st[i] in st; st[i].Data())
  }

  /** A script element whose data is a buffer. */
  type BufChunk = ChunkOf<Buf>

  function DataBufs(c: BufChunk): seq<Buf> { if c.data.Some? then [c.data.value] else [] }

  ghost function ChunkMems(cs: seq<BufChunk>): set<array<Byte>> { set c, b | c in cs && b in DataBufs(c) :: b.mem }

  ghost predicate ChunksValid(cs: seq<BufChunk>) { forall c :: c in cs && c.data.Some? ==> c.data.value.Valid() }

  function ChunkData(c: BufChunk): Chunk
    requires c.data.Some? ==> c.data.value.Valid()
    reads Mems(DataBufs(c))
  {
    WithData(c, if c.data.Some? then assert c.data.value in DataBufs(c); Some(c.data.value.Data()) else None)
  }

  function ScriptData(cs: seq<BufChunk>): (r: seq<Chunk>)
    requires ChunksValid(cs)
    reads ChunkMems(cs)
    ensures |r| == |cs| && forall i :: 0 <= i < |cs| ==> cs[i] in cs && r[i] == ChunkData(cs[i])
  {
    seq(|cs|, i requires 0 <= i < |cs| reads ChunkMems(cs) => assert cs[i] in cs; ChunkData(cs[i]))
  }

  lemma ScriptOps(cs: seq<BufChunk>)
    requires ChunksValid(cs)
    ensures forall c :: c in cs && c.BufChunk? ==> exists d :: d in ScriptData(cs) && d.Chunk? && d.op == c.op
  {
    forall c | c in cs && c.BufChunk? ensures exists d :: d in ScriptData(cs) && d.Chunk? && d.op == c.op {
      var i :| 0 <= i < |cs| && cs[i] == c;
      assert ScriptData(cs)[i] in ScriptData(cs);
    }
  }

  // ---------- rearranging buffers ----------

  lemma DataOfConcat(a: seq<Buf>, b: seq<Buf>)
    requires AllValid(a) && AllValid(b)
    ensures AllValid(a + b) && DataOf(a + b) == DataOf(a) + DataOf(b)
  {
  }

  lemma DataOfSplit(a: seq<Buf>, i: nat)
    requires AllValid(a) && i <= |a|
    ensures AllValid(a[..i]) && DataOf(a[..i]) == DataOf(a)[..i]
    ensures AllValid(a[i..]) && DataOf(a[i..]) == DataOf(a)[i..]
  {
  }

  lemma DataOfOne(st: seq<Buf>, i: nat)
    requires AllValid(st) && i < |st|
    ensures AllValid([st[i]]) && DataOf([st[i]]) == [DataOf(st)[i]]
  {
  }

  lemma PictureData(op: int, x: seq<Buf>)
    requires IsShuffle(op) && |x| == Arity(op) && AllValid(x)
    ensures AllValid(Picture(op, x)) && DataOf(Picture(op, x)) == Picture(op, DataOf(x))
  {
    hide Picture, IsShuffle, Arity;
    var a, b := Picture(op, x), Picture(op, DataOf(x));
    PictureSize(op, x, DataOf(x));
    forall i | 0 <= i < |a| ensures a[i].Data() == b[i] {
      var j := PictureAt(op, x, DataOf(x), i);
    }
  }

  lemma PictureSize<T, U>(op: int, x: seq<T>, y: seq<U>)
    requires IsShuffle(op) && |x| == |y| == Arity(op)
    ensures |Picture(op, x)| == |Picture(op, y)|
  {
  }

  lemma PictureAt<T, U>(op: int, x: seq<T>, y: seq<U>, i: nat) returns (j: nat)
    requires IsShuffle(op) && |x| == |y| == Arity(op) && i < |Picture(op, x)| == |Picture(op, y)|
    ensures j < |x| && Picture(op, x)[i] == x[j] && Picture(op, y)[i] == y[j]
  {
    hide Picture, IsShuffle, Arity;
    var indexes: seq<nat> := seq(|x|, k requires 0 <= k => k);
    PictureSize(op, x, indexes);
    j := Picture(op, indexes)[i];
    PictureFrom(op, x, indexes, i);
    PictureFrom(op, y, indexes, i);
  }

  lemma PictureFrom<T>(op: int, x: seq<T>, indexes: seq<nat>, i: nat)
    requires IsShuffle(op) && |x| == |indexes| == Arity(op) && forall k :: 0 <= k < |x| ==> indexes[k] == k
    requires i < |Picture(op, x)| == |Picture(op, indexes)|
    ensures Picture(op, x)[i] == x[Picture(op, indexes)[i]]
  {
    hide Picture, IsShuffle, Arity;
    if |x| <= 2 {
      SmallPicture(op, x, indexes, i);
    } else if |x| == 3 {
      PictureOfThree(op, x, indexes, i);
    } else {
      PictureOfPairs(op, x, indexes, i);
    }
  }

  lemma SmallPicture<T>(op: int, x: seq<T>, indexes: seq<nat>, i: nat)
    requires IsShuffle(op) && |x| == |indexes| == Arity(op) <= 2 && forall k :: 0 <= k < |x| ==> indexes[k] == k
    requires i < |Picture(op, x)| == |Picture(op, indexes)|
    ensures Picture(op, x)[i] == x[Picture(op, indexes)[i]]
  {
  }

  lemma PictureOfThree<T>(op: int, x: seq<T>, indexes: seq<nat>, i: nat)
    requires IsShuffle(op) && |x| == |indexes| == Arity(op) == 3 && forall k :: 0 <= k < |x| ==> indexes[k] == k
    requires i < |Picture(op, x)| == |Picture(op, indexes)|
    ensures Picture(op, x)[i] == x[Picture(op, indexes)[i]]
  {
  }

  lemma PictureOfPairs<T>(op: int, x: seq<T>, indexes: seq<nat>, i: nat)
    requires IsShuffle(op) && |x| == |indexes| == Arity(op) > 3 && forall k :: 0 <= k < |x| ==> indexes[k] == k
    requires i < |Picture(op, x)| == |Picture(op, indexes)|
    ensures Picture(op, x)[i] == x[Picture(op, indexes)[i]]
  {
  }

  /** Rearranging buffers rearranges what they hold. */
  lemma ShuffleData(op: int, st: seq<Buf>, r: seq<Buf>)
    requires IsShuffle(op) && AllValid(st) && Shuffle(op, st) == Ok(r)
    ensures AllValid(r) && Shuffle(op, DataOf(st)) == Ok(DataOf(r))
  {
    hide Picture, Arity, DataOf, AllValid, IsShuffle;
    var n := |st| - Arity(op);
    DataOfSplit(st, n);
    PictureData(op, st[n..]);
    DataOfConcat(st[..n], Picture(op, st[n..]));
  }

  lemma ShuffleFits(op: int, st: seq<Buf>)
    requires IsShuffle(op) && AllValid(st) && Shuffle(op, st).Fail?
    ensures Shuffle(op, DataOf(st)).Fail?
  {
  }

  lemma ShuffleMems(op: int, st: seq<Buf>, r: seq<Buf>)
    requires IsShuffle(op) && Shuffle(op, st) == Ok(r)
    ensures Mems(r) <= Mems(st)
  {
    hide Picture;
  }

  lemma MoveMems(op: int, st: seq<Buf>, n: int, r: seq<Buf>)
    requires PickOrRoll(op, st, n) == Ok(r)
    ensures Mems(r) <= Mems(st)
  {
  }

  lemma LastMem(st: seq<Buf>)
    requires |st| >= 1
    ensures Mems(st) == Mems(Drop(st, 1)) + {Top(st, 1).mem}
  {
    assert st == Drop(st, 1) + [Top(st, 1)];
  }

  lemma DropMems(st: seq<Buf>, n: nat)
    requires n <= |st|
    ensures Mems(Drop(st, n)) <= Mems(st) && (n > 0 ==> Top(st, n).mem in Mems(st))
  {
  }

  lemma MoveFits(op: int, st: seq<Buf>, n: int)
    requires AllValid(st) && PickOrRoll(op, st, n).Fail?
    ensures PickOrRoll(op, DataOf(st), n).Fail?
  {
  }

  lemma MoveData(op: int, st: seq<Buf>, n: int, r: seq<Buf>)
    requires AllValid(st) && PickOrRoll(op, st, n) == Ok(r)
    ensures AllValid(r) && PickOrRoll(op, DataOf(st), n) == Ok(DataOf(r))
  {
    hide DataOf, AllValid;
    var i := |st| - n - 1;
    DataOfSplit(st, i);
    DataOfSplit(st, i + 1);
    DataOfConcat(st[..i], st[i + 1..]);
    DataOfOne(st, i);
    DataOfConcat(if op == OP_ROLL then st[..i] + st[i + 1..] else st, [st[i]]);
  }

  // ---------- numbers in buffers ----------

  function Optional<T>(r: Result<T>): Option<T> { if r.Ok? then Some(r.value) else None }

  /** Interpreter._isMinimallyEncoded */
  predicate IsMinimallyEncoded(buf: Buf, max: nat)
    requires buf.Valid()
    reads buf.mem
    ensures IsMinimallyEncoded(buf, max) <==> buf.Len() <= max && Minimal(buf.Data())
  {
    buf.Len() <= max &&
    !(buf.Len() > 0 && buf.mem[buf.hi - 1] % 128 == 0 && (buf.Len() <= 1 || buf.mem[buf.hi - 2] < 128))
  }

  /** BN.fromScriptNumBuffer, None standing for the exception. */
  method FromScriptNumBuffer(buf: Buf, requireMinimal: bool, max: nat) returns (r: Option<int>)
    requires buf.Valid()
    ensures r == Optional(ReadNumber(buf.Data(), requireMinimal, max))
  {
    hide Decode;
    if buf.Len() > max { return None; }
    if requireMinimal && !IsMinimallyEncoded(buf, max) { return None; }
    var n := FromSMLittle(buf);
    return Some(n);
  }

  // ---------- writing into an operand ----------

  lemma SlicesOfOverwrite(m: Bytes, m': Bytes, lo: nat, hi: nat)
    requires lo <= hi <= |m| && SameOutside(m, m', lo, hi)
    ensures m' == Overwrite(m, lo, m'[lo..hi])
  {
  }

  /**
   * The loop of OP_AND, OP_OR and OP_XOR over the bytes of buf1. When buf2 is a view of the same memory
   * that starts lower, the loop reads what it has written before.
   */
  method OverwriteBits(op: int, buf1: Buf, buf2: Buf)
    requires buf1.Valid() && buf2.Valid() && buf1.Len() == buf2.Len() && IsBitwise(op)
    modifies buf1.mem
    ensures SameOutside(old(buf1.mem[..]), buf1.mem[..], buf1.lo, buf1.hi)
    ensures var lag := Lag(buf1.mem == buf2.mem, buf1.lo, buf2.lo);
            buf1.Data() == RunOver(op, old(buf1.Data()), old(buf2.Data()), lag, buf1.Len())
  {
    hide BitOp, RunOver, Overwrite, SameOutside;
    ghost var a, b, lag := buf1.Data(), buf2.Data(), Lag(buf1.mem == buf2.mem, buf1.lo, buf2.lo);
    ghost var m := buf1.mem[..];
    RunOverStep(op, a, b, lag, 0);
    OverwriteNone(m, buf1.lo);
    for i := 0 to buf1.Len()
      invariant buf1.mem[..] == Overwrite(m, buf1.lo, RunOver(op, a, b, lag, i))
    {
      RunOverStep(op, a, b, lag, i);
      WriteBit(op, buf1, buf2, i, m, RunOver(op, a, b, lag, i));
    }
    OverwriteAll(m, buf1.lo, RunOver(op, a, b, lag, buf1.Len()));
  }

  /** One byte of the loop, after the bytes w have been written. */
  method WriteBit(op: int, buf1: Buf, buf2: Buf, i: nat, ghost m: Bytes, ghost w: Bytes)
    requires buf1.Valid() && buf2.Valid() && buf1.Len() == buf2.Len() && i == |w| < buf1.Len()
    requires |m| == buf1.mem.Length && buf1.mem[..] == Overwrite(m, buf1.lo, w)
    modifies buf1.mem
    ensures var lag := Lag(buf1.mem == buf2.mem, buf1.lo, buf2.lo);
            var y := if 0 < lag <= i then w[i - lag]
                     else if buf1.mem == buf2.mem then m[buf2.lo + i] else old(buf2.mem[buf2.lo + i]);
            buf1.mem[..] == Overwrite(m, buf1.lo, w + [BitOp(op, m[buf1.lo + i], y)])
  {
    hide BitOp, Overwrite;
    ghost var cur := buf1.mem[..];
    OverwriteNext(m, buf1.lo, w, BitOp(op, buf1.mem[buf1.lo + i], buf2.mem[buf2.lo + i]));
    assert cur[buf1.lo + i] == m[buf1.lo + i];
    if buf1.mem == buf2.mem { OverwriteReads(m, buf1.lo, buf2.lo, w); }
    buf1.mem[buf1.lo + i] := BitOp(op, buf1.mem[buf1.lo + i], buf2.mem[buf2.lo + i]);
    assert buf1.mem[..] == cur[buf1.lo + i := buf1.mem[buf1.lo + i]];
  }

  lemma OverwriteNone(m: Bytes, lo: nat)
    requires lo <= |m|
    ensures Overwrite(m, lo, []) == m
  {
  }

  lemma OverwriteAll(m: Bytes, lo: nat, w: Bytes)
    requires lo + |w| <= |m|
    ensures Overwrite(m, lo, w)[lo..lo + |w|] == w && SameOutside(m, Overwrite(m, lo, w), lo, lo + |w|)
  {
  }

  lemma OverwriteNext(m: Bytes, lo: nat, w: Bytes, x: Byte)
    requires lo + |w| < |m|
    ensures Overwrite(m, lo, w)[lo + |w|] == m[lo + |w|]
    ensures Overwrite(m, lo, w)[lo + |w| := x] == Overwrite(m, lo, w + [x])
  {
  }

  /** What the loop finds at the place where it reads: its own output, if that has come so far. */
  lemma OverwriteReads(m: Bytes, lo: nat, from: nat, w: Bytes)
    requires lo + |w| < |m| && from + |w| < |m|
    ensures var lag := Lag(true, lo, from);
            Overwrite(m, lo, w)[from + |w|] == if 0 < lag <= |w| then w[|w| - lag] else m[from + |w|]
  {
  }

  lemma RunOverStep(op: int, x: Bytes, y: Bytes, lag: nat, i: nat)
    requires |x| == |y|
    ensures RunOver(op, x, y, lag, 0) == []
    ensures i < |x| ==>
              var w := RunOver(op, x, y, lag, i);
              RunOver(op, x, y, lag, i + 1) == w + [BitOp(op, x[i], if 0 < lag <= i then w[i - lag] else y[i])]
  {
    hide BitOp;
  }

  /** What OP_NUM2BIN makes of its operand: the canonical encoding, padded to the size it names. */
  ghost function Resized(x: Bytes, size: int): Option<Bytes> {
    var raw := Encode(Decode(x));
    if |raw| > size then None else if |raw| == size then Some(raw) else Some(Widen(raw, size))
  }

  method Resize(buf: Buf, size: int) returns (r: Option<Buf>)
    requires buf.Valid()
    modifies buf.mem
    ensures r.Some? <==> Resized(old(buf.Data()), size).Some?
    ensures r.Some? ==>
              r.value.Valid() && r.value.Len() == size && r.value.Data() == Resized(old(buf.Data()), size).value
    ensures r.Some? ==>
              FromNumber(r.value, old(buf.Data()), buf) && (CopiesNumber(old(buf.Data()), size) ==> fresh(r.value.mem))
    ensures SameOutside(old(buf.mem[..]), buf.mem[..], buf.lo, buf.hi)
    ensures buf.Data() == AfterResize(old(buf.Data()), size)
  {
    hide Encode, Decode, Widen, Minimal, Tidied, SameOutside, Resized;
    ghost var x, m := buf.Data(), buf.mem[..];
    ResizedCases(x, size);
    TidyReads(x);
    var rawnum := MinimallyEncode(buf);
    if rawnum.Len() > size { return None; }
    if rawnum.Len() == size { return Some(rawnum); }
    ghost var m1 := buf.mem[..];
    var num := WidenBuf(rawnum, size);
    if rawnum.mem == buf.mem {
      RestOfWindow(m1, buf.mem[..], buf.lo, rawnum.hi, buf.hi);
      WidenedWindow(x, buf.Data());
    } else {
      assert buf.mem[..] == m1;
      TidiedIff(x);
    }
    SameTwice(m, m1, buf.mem[..], buf.lo, buf.hi);
    return Some(num);
  }

  lemma SameTwice(m: Bytes, m1: Bytes, m2: Bytes, lo: nat, hi: nat)
    requires SameOutside(m, m1, lo, hi) && (SameOutside(m1, m2, lo, hi) || m1 == m2)
    ensures SameOutside(m, m2, lo, hi)
  {
  }

  lemma RestOfWindow(m: Bytes, m': Bytes, lo: nat, mid: nat, hi: nat)
    requires lo <= mid <= hi <= |m| && SameOutside(m, m', lo, mid)
    ensures SameOutside(m, m', lo, hi) && m'[lo..hi][mid - lo..] == m[lo..hi][mid - lo..] &&
            m'[lo..hi][..mid - lo] == m'[lo..mid]
  {
  }

  lemma NumberMem(b: Buf, x: Bytes, buf: Buf)
    requires b.Valid() && FromNumber(b, x, buf)
    ensures CopiesNumber(x, b.Len()) || b.mem == buf.mem
  {
  }

  /** Taking the sign off the encoded number leaves the operand's own bytes as OP_NUM2BIN leaves them. */
  lemma WidenedWindow(x: Bytes, d: Bytes)
    requires Minimal(x) || Decode(x) != 0
    requires var n := |Encode(Decode(x))|;
             n <= |x| == |d| && d[..n] == Unsigned(Encode(Decode(x))) && d[n..] == Tidied(x)[n..]
    ensures d == if Minimal(x) then Unsigned(x) else x
  {
    hide Encode, Decode, Minimal, Tidied;
    TidyReads(x);
    var raw := Encode(Decode(x));
    var n := |raw|;
    assert d == d[..n] + d[n..];
    if !Minimal(x) {
      SignGoesBack(x);
      var t := Tidied(x);
      assert t == t[..n] + t[n..];
      assert t[n - 1 := raw[n - 1] % 128] == raw[n - 1 := raw[n - 1] % 128] + t[n..];
    }
  }

  lemma ResizedCases(x: Bytes, size: int)
    ensures var raw := Encode(Decode(x));
            Resized(x, size) ==
            if |raw| > size then None else if |raw| == size then Some(raw) else Some(Widen(raw, size))
  {
    hide Encode, Decode, Widen;
  }

  /** b is what the number opcodes return for the operand x in buf: new memory, the operand, or the start of it. */
  ghost predicate FromNumber(b: Buf, x: Bytes, buf: Buf)
    requires b.Valid()
  {
    if CopiesNumber(x, b.Len()) then b.Whole()
    else if Minimal(x) then b == buf
    else b == Buf(buf.mem, buf.lo, buf.lo + b.Len())
  }

  /** The end of OP_NUM2BIN: the sign bit leaves the number's own memory for the top byte of a copy. */
  method WidenBuf(rawnum: Buf, size: nat) returns (num: Buf)
    requires rawnum.Valid() && rawnum.Len() < size
    modifies rawnum.mem
    ensures num.Valid() && fresh(num.mem) && num.Whole() && num.Data() == Widen(old(rawnum.Data()), size)
    ensures rawnum.Data() == Unsigned(old(rawnum.Data()))
    ensures SameOutside(old(rawnum.mem[..]), rawnum.mem[..], rawnum.lo, rawnum.hi)
  {
    hide Widen;
    ghost var raw := rawnum.Data();
    WidenIs(raw, size);
    var signbit := TakeSign(rawnum);
    num := PadTo(rawnum, size, signbit);
  }

  method TakeSign(rawnum: Buf) returns (signbit: Byte)
    requires rawnum.Valid()
    modifies rawnum.mem
    ensures signbit == SignBit(old(rawnum.Data())) && rawnum.Data() == Unsigned(old(rawnum.Data()))
    ensures SameOutside(old(rawnum.mem[..]), rawnum.mem[..], rawnum.lo, rawnum.hi)
  {
    if rawnum.Len() == 0 { return 0; }
    ghost var m := rawnum.mem[..];
    var last := rawnum.mem[rawnum.hi - 1];
    SetByte(rawnum, rawnum.Len() - 1, last % 128);
    UpdateInside(m, rawnum.lo, rawnum.hi, rawnum.hi - 1, last % 128);
    return if last >= 128 then 128 else 0;
  }

  method PadTo(rawnum: Buf, size: nat, signbit: Byte) returns (num: Buf)
    requires rawnum.Valid() && rawnum.Len() < size
    ensures num.Valid() && fresh(num.mem) && num.Whole()
    ensures num.Data() == rawnum.Data() + seq(size - 1 - rawnum.Len(), _ => 0) + [signbit]
  {
    var raw := rawnum.Data();
    var m := new Byte[size](i requires 0 <= i < size => if i < |raw| then raw[i] else 0);
    var l := |raw| - 1;
    while l < size - 2
      invariant |raw| - 1 <= l <= size - 2
      invariant forall k :: |raw| <= k <= l ==> m[k] == 0
      invariant forall k :: 0 <= k < |raw| ==> m[k] == raw[k]
    {
      l := l + 1;
      m[l] := 0;
    }
    l := l + 1;
    m[l] := signbit;
    num := Buf(m, 0, size);
  }
}
