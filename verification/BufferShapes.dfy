/** Which buffers the opcodes leave on the stack: the picture that SharedMachine draws, on the buffers themselves. */
module BufferShapes {
  import opened Bytes
  import opened ScriptNum
  import opened Opcode
  import opened Script
  import opened Machine
  import opened Overwriting
  import opened SharedMachine
  import opened StepShapes
  import opened Views

  function BufStock(op: int, r: seq<Bytes>, items: seq<Buf>, m: array<Byte>, yes: Buf, no: Buf): Stock<Buf> {
    var n, l := TopLength(r, 1), TopLength(r, 2);
    var own := if |items| >= Taken(op) then Top(items, Taken(op)) else no;
    Stock(yes, no, Buf(m, 0, n), Buf(m, 0, l), Buf(m, l, l + n), Buf(own.mem, own.lo, own.lo + n))
  }

  function MemOnTop(now: seq<Buf>, no: Buf): array<Byte> { if now == [] then no.mem else Top(now, 1).mem }

  /** The stack is now what the step makes of items; new memory, if any, is the one on top. */
  ghost predicate Moved(op: int, data: Option<Buf>, st: seq<Bytes>, r: seq<Bytes>, items: seq<Buf>, alt: seq<Buf>,
                        now: seq<Buf>,
                        yes: Buf, no: Buf)
  {
    |items| == |st| &&
    now == NextItems(op, st, r, items, alt,
                     NewItems(op, data, st, r, items, BufStock(op, r, items, MemOnTop(now, no), yes, no)))
  }

  /** One buffer of its own on top, and below it what was there before. */
  ghost predicate OneMade(items: seq<Buf>, now: seq<Buf>) {
    0 < |now| <= |items| + 1 && Drop(now, 1) == items[..|now| - 1] && Top(now, 1).Whole()
  }

  lemma OneMadeBelow(items: seq<Buf>, n: nat, now: seq<Buf>)
    requires n <= |items| && OneMade(Drop(items, n), now)
    ensures OneMade(items, now)
  {
    assert Drop(items, n)[..|now| - 1] == items[..|now| - 1];
  }

  /** A verdict on top, or consumed at once. */
  function Judged(items: seq<Buf>, r: seq<Bytes>, verify: bool, yes: Buf, no: Buf): seq<Buf> {
    if verify || r == [] then Kept(items, |r|) else Kept(items, |r| - 1) + [if Top(r, 1) == TRUE then yes else no]
  }

  lemma MadeMoves(op: int, st: seq<Bytes>, r: seq<Bytes>, items: seq<Buf>, alt: seq<Buf>, now: seq<Buf>, yes: Buf,
                  no: Buf)
    requires IsFresh(op) && |items| == |st| && |r| == |now| && OneMade(items, now) && Top(now, 1).Len() == |Top(r, 1)|
    ensures Moved(op, None, st, r, items, alt, now, yes, no)
  {
    MakerKinds(op);
    hide IsFresh, IsVerdict, IsShuffle, Decode, Encode;
    SplitTop(now);
  }

  lemma VerdictMoves(op: int, st: seq<Bytes>, r: seq<Bytes>, items: seq<Buf>, alt: seq<Buf>, now: seq<Buf>, yes: Buf,
                     no: Buf)
    requires IsVerdict(op) && |items| == |st| && |r| > 0 && now == Judged(items, r, false, yes, no)
    ensures Moved(op, None, st, r, items, alt, now, yes, no)
  {
    MakerKinds(op);
    hide IsFresh, IsVerdict, IsShuffle, Decode, Encode;
  }

  lemma DropMoves(op: int, st: seq<Bytes>, r: seq<Bytes>, items: seq<Buf>, alt: seq<Buf>, now: seq<Buf>, yes: Buf,
                  no: Buf)
    requires IsDrop(op) && |items| == |st| && now == Kept(items, |r|)
    ensures Moved(op, None, st, r, items, alt, now, yes, no)
  {
    hide IsFresh, IsVerdict, IsShuffle, Decode, Encode;
    assert Kept(items, |r|) + [] == Kept(items, |r|);
  }

  lemma ShuffleMoves(op: int, st: seq<Bytes>, r: seq<Bytes>, items: seq<Buf>, alt: seq<Buf>, now: seq<Buf>, yes: Buf,
                     no: Buf)
    requires IsShuffle(op) && |items| == |st| && Shuffle(op, items) == Ok(now)
    ensures Moved(op, None, st, r, items, alt, now, yes, no)
  {
    hide Picture;
  }

  lemma PickMoves(op: int, st: seq<Bytes>, r: seq<Bytes>, items: seq<Buf>, alt: seq<Buf>, now: seq<Buf>, yes: Buf,
                  no: Buf)
    requires (op == OP_PICK || op == OP_ROLL) && |items| == |st| >= 2
    requires PickOrRoll(op, Drop(items, 1), Decode(Top(st, 1))) == Ok(now)
    ensures Moved(op, None, st, r, items, alt, now, yes, no)
  {
    hide PickOrRoll, Decode;
    PickRange(op, Drop(items, 1), Decode(Top(st, 1)));
  }

  lemma IfDupMoves(st: seq<Bytes>, r: seq<Bytes>, items: seq<Buf>, alt: seq<Buf>, now: seq<Buf>, yes: Buf, no: Buf)
    requires |items| == |st| >= 1 && (|r| == |st| || |r| == |st| + 1)
    requires now == if |r| > |st| then items + [Top(items, 1)] else items
    ensures Moved(OP_IFDUP, None, st, r, items, alt, now, yes, no)
  {
    assert Kept(items, |items|) + [] == items;
  }

  /** Two views of one new buffer. */
  ghost predicate HalvesMade(items: seq<Buf>, now: seq<Buf>, x: Bytes, y: Bytes) {
    |now| == |items| >= 2 && Drop(now, 2) == Drop(items, 2) && Top(now, 1).mem.Length == |x| + |y| &&
    Top(now, 2) == Buf(Top(now, 1).mem, 0, |x|) && Top(now, 1) == Buf(Top(now, 1).mem, |x|, |x| + |y|)
  }

  lemma HalvesMove(st: seq<Bytes>, r: seq<Bytes>, items: seq<Buf>, alt: seq<Buf>, now: seq<Buf>, yes: Buf, no: Buf)
    requires |items| == |st| == |r| >= 2 && HalvesMade(items, now, Top(r, 2), Top(r, 1))
    ensures Moved(OP_SPLIT, None, st, r, items, alt, now, yes, no)
  {
    assert now == Drop(items, 2) + [Top(now, 2), Top(now, 1)];
  }

  lemma BitsMove(op: int, st: seq<Bytes>, r: seq<Bytes>, items: seq<Buf>, alt: seq<Buf>, now: seq<Buf>, yes: Buf,
                 no: Buf)
    requires IsBitwise(op) && |items| == |st| >= 2 && |r| == |st| - 1 && now == Drop(items, 1)
    ensures Moved(op, None, st, r, items, alt, now, yes, no)
  {
    assert Kept(items, |r|) + [] == Drop(items, 1);
  }

  lemma NumberMoves(op: int, st: seq<Bytes>, r: seq<Bytes>, items: seq<Buf>, alt: seq<Buf>, now: seq<Buf>, yes: Buf,
                    no: Buf)
    requires (op == OP_NUM2BIN || op == OP_BIN2NUM) && |items| == |st| >= Taken(op) &&
             |r| == |now| == |st| - Taken(op) + 1
    requires Drop(now, 1) == Drop(items, Taken(op)) && Top(now, 1).Valid() && Top(now, 1).Len() == |Top(r, 1)|
    requires FromNumber(Top(now, 1), Top(st, Taken(op)), Top(items, Taken(op)))
    ensures Moved(op, None, st, r, items, alt, now, yes, no)
  {
    hide Decode, Encode, Minimal, IsFresh, IsVerdict, IsShuffle;
    SplitTop(now);
    NumberKinds(op);
  }

  lemma NumberKinds(op: int)
    requires op == OP_NUM2BIN || op == OP_BIN2NUM
    ensures !IsPush(op) && !IsVerdict(op) && !IsFresh(op) && !IsShuffle(op)
  {
  }

  lemma PushMoves(op: int, data: Option<Buf>, st: seq<Bytes>, r: seq<Bytes>, items: seq<Buf>, alt: seq<Buf>,
                  now: seq<Buf>,
                  yes: Buf, no: Buf)
    requires IsPush(op) && |items| == |st| && |r| == |st| + 1 && now == items + [if data.Some? then data.value else no]
    ensures Moved(op, data, st, r, items, alt, now, yes, no)
  {
    hide IsFresh, IsVerdict, IsShuffle, Decode, Encode;
    PushKinds(op);
    assert Kept(items, |items|) == items;
  }

  lemma FromAltMoves(st: seq<Bytes>, r: seq<Bytes>, items: seq<Buf>, alt: seq<Buf>, now: seq<Buf>, yes: Buf, no: Buf)
    requires |items| == |st| && |alt| > 0 && now == items + [Top(alt, 1)]
    ensures Moved(OP_FROMALTSTACK, None, st, r, items, alt, now, yes, no)
  {
  }
}
