/** The loops of bn.js and interpreter.js that read and write number buffers in place. */
module NumBuffers {
  import opened Bytes
  import opened ScriptNum

  /** The number a big-endian byte string stands for. */
  function BigEndian(b: Bytes): nat { LittleEndian(Reversed(b)) }

  method ReverseBuf(buf: Buf) returns (buf2: Buf)
    requires buf.Valid()
    ensures buf2.Valid() && fresh(buf2.mem) && buf2.Whole() && buf2.Data() == Reversed(buf.Data())
  {
    var m := new Byte[buf.hi - buf.lo];
    for i := 0 to m.Length
      invariant forall k :: 0 <= k < i ==> m[k] == buf.mem[buf.hi - 1 - k]
    {
      m[i] := buf.mem[buf.hi - 1 - i];
    }
    buf2 := Buf(m, 0, m.Length);
  }

  /**
   * BN.fromSM. Little-endian input is copied first; big-endian input has its sign bit cleared
   * in the caller's own memory.
   */
  method FromSM(buf: Buf, little: bool) returns (n: int)
    requires buf.Valid()
    modifies buf.mem
    ensures n == Decode(if little then old(buf.Data()) else Reversed(old(buf.Data())))
    ensures little ==> buf.Data() == old(buf.Data())
    ensures !little && buf.Len() > 0 ==> buf.Data() == old(buf.Data())[0 := old(buf.Data())[0] % 128]
  {
    if buf.Len() == 0 { return 0; }
    if little {
      n := FromSMLittle(buf);
    } else {
      n := SignedMagnitude(buf);
    }
  }

  /** The little-endian part of fromSM: it works on a reversed copy, so it writes nothing shared. */
  method FromSMLittle(buf: Buf) returns (n: int)
    requires buf.Valid()
    ensures n == Decode(buf.Data())
  {
    if buf.Len() == 0 { return 0; }
    var b := ReverseBuf(buf);
    assert Reversed(b.Data()) == buf.Data();
    n := SignedMagnitude(b);
  }

  /** The big-endian part of fromSM: the sign bit is cleared in place before the magnitude is read. */
  method SignedMagnitude(buf: Buf) returns (n: int)
    requires buf.Valid() && buf.Len() > 0
    modifies buf.mem
    ensures n == Decode(Reversed(old(buf.Data())))
    ensures buf.Data() == old(buf.Data())[0 := old(buf.Data())[0] % 128]
    ensures buf.mem[..] == old(buf.mem[..])[buf.lo := old(buf.mem[buf.lo]) % 128]
  {
    SignAndMagnitude(buf.Data());
    if buf.mem[buf.lo] >= 128 {
      SetByte(buf, 0, buf.mem[buf.lo] - 128);
      n := 0 - BigEndian(buf.Data());
    } else {
      n := BigEndian(buf.Data());
    }
  }

  lemma SignAndMagnitude(be: Bytes)
    requires be != []
    ensures Decode(Reversed(be)) ==
            if be[0] >= 128 then 0 - BigEndian(be[0 := be[0] - 128]) else BigEndian(be)
  {
    var d := Reversed(be);
    if be[0] >= 128 {
      assert Reversed(be[0 := be[0] - 128]) == d[..|d| - 1] + [d[|d| - 1] - 128];
    }
  }

  /** BN.prototype.toSMBigEndian followed by toSM: magnitude bytes, then the sign written into the first. */
  method ToSM(n: int, little: bool) returns (buf: Buf)
    ensures buf.Valid() && fresh(buf.mem) && (little ==> buf.Whole())
    ensures buf.Data() == if little then Encode(n) else Reversed(Encode(n))
  {
    buf := ToSMBigEndian(n);
    if little {
      buf := ReverseBuf(buf);
      assert Reversed(Reversed(Encode(n))) == Encode(n);
    }
  }

  method ToSMBigEndian(n: int) returns (buf: Buf)
    ensures buf.Valid() && fresh(buf.mem) && buf.Data() == Reversed(Encode(n))
  {
    var be := Reversed(Digits(Abs(n)));
    SignByte(n);
    buf := FromBytes(be);
    if n < 0 {
      if be[0] >= 128 {
        buf := FromBytes([128] + be);
      } else {
        SetByte(buf, 0, be[0] + 128);
      }
    } else if be[0] >= 128 {
      buf := FromBytes([0] + be);
    }
    if buf.Len() == 1 && buf.mem[buf.lo] == 0 {
      buf := FromBytes([]);
    }
  }

  lemma SignByte(n: int)
    ensures var be := Reversed(Digits(Abs(n)));
            && |be| >= 1 && (n != 0 ==> be[0] != 0) && (n == 0 ==> be == [0])
            && Reversed(Encode(n)) == if n == 0 then []
                                      else if be[0] >= 128 then [if n < 0 then 128 else 0] + be
                                      else if n < 0 then be[0 := be[0] + 128] else be
  {
    var d := Digits(Abs(n));
    DigitsValue(Abs(n));
    assert n == 0 ==> d == [0];
    SignByteOf(n, d);
  }

  lemma SignByteOf(n: int, d: Bytes)
    requires d == Digits(Abs(n)) && d != [] && (n != 0 ==> d[|d| - 1] != 0)
    ensures var be := Reversed(d);
            be[0] == d[|d| - 1] &&
            (n == 0 || Reversed(Encode(n)) == (if be[0] >= 128 then [if n < 0 then 128 else 0] + be
                                               else if n < 0 then be[0 := be[0] + 128] else be))
  {
    hide Digits;
  }

  /** castToBool: whether some byte is nonzero, negative zero excepted. */
  method CastToBool(buf: Buf) returns (b: bool)
    requires buf.Valid()
    ensures b <==> Decode(buf.Data()) != 0
  {
    var d := buf.Data();
    for i := 0 to |d|
      invariant forall k :: 0 <= k < i ==> d[k] == 0
    {
      if d[i] != 0 {
        NonZeroValue(d, i);
        if i == |d| - 1 && d[i] == 128 { return false; }
        return true;
      }
    }
    AllZero(d);
    return false;
  }

  lemma {:induction false} ZerosValue(b: Bytes)
    ensures LittleEndian(b) == 0 <==> forall k :: 0 <= k < |b| ==> b[k] == 0
  {
    if b != [] {
      ZerosValue(b[1..]);
      if LittleEndian(b) == 0 {
        forall k | 0 <= k < |b| ensures b[k] == 0 {
          if k > 0 { assert b[1..][k - 1] == 0; }
        }
      }
    }
  }

  lemma AllZero(d: Bytes)
    requires forall k :: 0 <= k < |d| ==> d[k] == 0
    ensures Decode(d) == 0
  {
    ZerosValue(d);
  }

  lemma NonZeroValue(d: Bytes, i: nat)
    requires i < |d| && d[i] != 0 && forall k :: 0 <= k < i ==> d[k] == 0
    ensures Decode(d) != 0 <==> !(i == |d| - 1 && d[i] == 128)
  {
    var last := d[|d| - 1];
    var m := d[..|d| - 1] + [last % 128];
    ZerosValue(d);
    ZerosValue(m);
    if i == |d| - 1 { assert m[i] == last % 128; } else { assert m[i] == d[i]; }
  }

  // ---------- _minimallyEncode ----------

  /** Only the bytes in [lo, hi) may differ. */
  predicate SameOutside(m: Bytes, m': Bytes, lo: nat, hi: nat) {
    |m| == |m'| && forall k :: 0 <= k < |m| && !(lo <= k < hi) ==> m[k] == m'[k]
  }

  /** Whether _minimallyEncode leaves the bytes of the buffer it is given alone. */
  predicate EncodesWithoutWriting(b: Bytes) {
    Minimal(b) || b[|b| - 1] == 0 || Decode(b) == 0
  }

  /** One more than the place of the highest nonzero byte below i, or zero. */
  function TopNonZero(b: Bytes, i: nat): (j: nat)
    requires i <= |b|
    ensures j <= i && (j > 0 ==> b[j - 1] != 0) && forall k :: j <= k < i ==> b[k] == 0
  {
    if i == 0 || b[i - 1] != 0 then i else TopNonZero(b, i - 1)
  }

  /** What _minimallyEncode leaves in the buffer it is given: a sign byte of 0x80 is copied downwards. */
  function Tidied(b: Bytes): (r: Bytes)
    ensures |r| == |b|
  {
    if EncodesWithoutWriting(b) || TopNonZero(b, |b| - 1) == 0 then b else Written(b, TopNonZero(b, |b| - 1))
  }

  /** What trimming at i leaves: the sign moves down to the highest nonzero byte. */
  function Trimmed(b: Bytes, i: nat): Bytes
    requires 0 < i < |b| && b[|b| - 1] % 128 == 0
  {
    var x, last := b[i - 1], b[|b| - 1];
    if x >= 128 then b[..i] + [last] else b[..i - 1] + [x + last]
  }

  lemma Trim(b: Bytes, i: nat)
    requires 0 < i < |b| && b[|b| - 1] % 128 == 0 && b[i - 1] != 0
    requires forall k :: i <= k < |b| - 1 ==> b[k] == 0
    ensures Trimmed(b, i) == Encode(Decode(b)) && Decode(b) != 0
  {
    hide Encode, Decode, LittleEndian, Digits;
    var m, below := b[..i], b[..i - 1];
    var v: int := LittleEndian(m);
    assert m == below + [b[i - 1]];
    NonZeroTop(below, b[i - 1]);
    TrimmedValue(b, i);
    if b[i - 1] >= 128 { EncodeOwnSign(m, v); } else { EncodeSharedSign(below, b[i - 1], v); }
    assert Trimmed(b, i) == Encode(Decode(b));
  }

  lemma TrimmedValue(b: Bytes, i: nat)
    requires 0 < i < |b| && b[|b| - 1] % 128 == 0
    requires forall k :: i <= k < |b| - 1 ==> b[k] == 0
    ensures var v: int := LittleEndian(b[..i]); Decode(b) == if b[|b| - 1] >= 128 then -v else v
  {
    var body, zeros := b[..|b| - 1], b[i..|b| - 1];
    assert body == b[..i] + zeros && b == body + [b[|b| - 1]];
    ZerosValue(zeros);
    LittleEndianConcat(b[..i], zeros);
    ZeroTop(body);
  }

  method MinimallyEncode(buf: Buf) returns (r: Buf)
    requires buf.Valid()
    modifies buf.mem
    ensures r.Valid() && r.Data() == Encode(Decode(old(buf.Data())))
    ensures SameOutside(old(buf.mem[..]), buf.mem[..], buf.lo, buf.hi)
    ensures buf.Data() == Tidied(old(buf.Data()))
    ensures if Minimal(old(buf.Data())) then r == buf
            else if Decode(old(buf.Data())) == 0 then fresh(r.mem) && r.Whole()
            else r.mem == buf.mem && r.lo == buf.lo && r.hi <= buf.hi
  {
    hide Encode, Decode, TopNonZero, Written;
    ghost var b := buf.Data();
    EncodeZero();
    if buf.Len() == 0 { return buf; }
    var last := buf.mem[buf.hi - 1];
    if last % 128 != 0 {
      EncodeDecode(b);
      return buf;
    }
    if buf.Len() == 1 {
      AllZeroBody(b);
      r := FromBytes([]);
      return;
    }
    if buf.mem[buf.hi - 2] >= 128 {
      EncodeDecode(b);
      return buf;
    }
    r := TrimInPlace(buf);
  }

  /** The search for the highest nonzero byte below the top one, and the write that ends it. */
  method TrimInPlace(buf: Buf) returns (r: Buf)
    requires buf.Valid() && buf.Len() >= 2
    requires buf.Data()[buf.Len() - 1] % 128 == 0 && buf.Data()[buf.Len() - 2] < 128
    modifies buf.mem
    ensures r.Valid() && r.Data() == Encode(Decode(old(buf.Data())))
    ensures SameOutside(old(buf.mem[..]), buf.mem[..], buf.lo, buf.hi)
    ensures buf.Data() == Tidied(old(buf.Data()))
    ensures if Decode(old(buf.Data())) == 0 then fresh(r.mem) && r.Whole()
            else r.mem == buf.mem && r.lo == buf.lo && r.hi <= buf.hi
  {
    hide Encode, Decode, Trimmed, EncodesWithoutWriting, Written, TopNonZero, Tidied;
    ghost var b := buf.Data();
    var i := HighestNonZero(buf);
    TidiedAt(b, i);
    if i == 0 {
      AllZeroBody(b);
      r := FromBytes([]);
      return;
    }
    Trim(b, i);
    r := WriteSign(buf, i);
  }

  method HighestNonZero(buf: Buf) returns (i: nat)
    requires buf.Valid() && buf.Len() >= 1
    ensures i == TopNonZero(buf.Data(), buf.Len() - 1)
  {
    ghost var b := buf.Data();
    i := buf.Len() - 1;
    while i > 0 && buf.mem[buf.lo + i - 1] == 0
      invariant 0 <= i < |b| && TopNonZero(b, |b| - 1) == TopNonZero(b, i)
    {
      i := i - 1;
    }
  }

  lemma EncodeZero()
    ensures Encode(0) == [] && Decode([]) == 0 && Tidied([]) == []
  {
  }

  /** Where the search ended decides what is left behind. */
  lemma TidiedAt(b: Bytes, i: nat)
    requires |b| >= 2 && i < |b| && b[|b| - 1] % 128 == 0 && b[|b| - 2] < 128 && i == TopNonZero(b, |b| - 1)
    ensures Tidied(b) == if i == 0 then b else Written(b, i)
    ensures Encode(0) == []
  {
    hide Decode;
    if i == 0 { AllZeroBody(b); } else { WriteChanges(b, i); }
  }

  method WriteSign(buf: Buf, i: nat) returns (r: Buf)
    requires buf.Valid() && 0 < i < buf.Len() && buf.Data()[buf.Len() - 1] % 128 == 0
    modifies buf.mem
    ensures r.Valid() && r.Data() == Trimmed(old(buf.Data()), i)
    ensures r.mem == buf.mem && r.lo == buf.lo && r.hi <= buf.hi
    ensures SameOutside(old(buf.mem[..]), buf.mem[..], buf.lo, buf.hi)
    ensures buf.Data() == Written(old(buf.Data()), i)
  {
    hide SameOutside, Trimmed, Written;
    ghost var b := buf.Data();
    var x, last := buf.mem[buf.lo + i - 1], buf.mem[buf.hi - 1];
    assert x == b[i - 1] && last == b[|b| - 1];
    WrittenByte(b, i);
    var at, y := if x >= 128 then i else i - 1, if x >= 128 then last else x + last;
    r := SetAndCut(buf, at, y);
  }

  lemma WrittenByte(b: Bytes, i: nat)
    requires 0 < i < |b| && b[|b| - 1] % 128 == 0
    ensures var x, last := b[i - 1], b[|b| - 1];
            var at, y := if x >= 128 then i else i - 1, if x >= 128 then last else x + last;
            Trimmed(b, i) == b[..at] + [y] && Written(b, i) == b[at := y]
  {
  }

  /** buf[at] = y; return buf.slice(0, at + 1) */
  method SetAndCut(buf: Buf, at: nat, y: Byte) returns (r: Buf)
    requires buf.Valid() && at < buf.Len()
    modifies buf.mem
    ensures r.Valid() && r.Data() == old(buf.Data())[..at] + [y]
    ensures r.mem == buf.mem && r.lo == buf.lo && r.hi <= buf.hi
    ensures SameOutside(old(buf.mem[..]), buf.mem[..], buf.lo, buf.hi)
    ensures buf.Data() == old(buf.Data())[at := y]
  {
    ghost var b, m := buf.Data(), buf.mem[..];
    SetByte(buf, at, y);
    r := buf.Prefix(at + 1);
    PrefixOfUpdate(b, at, y);
    UpdateInside(m, buf.lo, buf.hi, buf.lo + at, y);
  }

  lemma UpdateInside(m: Bytes, lo: nat, hi: nat, k: nat, x: Byte)
    requires lo <= k < hi <= |m|
    ensures SameOutside(m, m[k := x], lo, hi)
  {
  }

  lemma PrefixOfUpdate(b: Bytes, i: nat, x: Byte)
    requires i < |b|
    ensures b[i := x][..i + 1] == b[..i] + [x]
  {
  }

  /** The whole buffer after that write. */
  function Written(b: Bytes, i: nat): Bytes
    requires 0 < i < |b| && b[|b| - 1] % 128 == 0
  {
    var x, last := b[i - 1], b[|b| - 1];
    if x >= 128 then b[i := last] else b[i - 1 := x + last]
  }

  /** The write changes the buffer unless the sign byte is plain zero. */
  lemma WriteChanges(b: Bytes, i: nat)
    requires 0 < i < |b| && b[|b| - 1] % 128 == 0 && b[i - 1] != 0 && b[|b| - 2] < 128
    requires forall k :: i <= k < |b| - 1 ==> b[k] == 0
    ensures EncodesWithoutWriting(b) <==> b == Written(b, i)
  {
    Trim(b, i);
    if b[i - 1] >= 128 {
      assert i < |b| - 1 && b[i] == 0;
    }
  }

  /** The two ways in which the code writes: not at all, or one byte. */
  lemma TidiedIff(b: Bytes)
    ensures Tidied(b) == b <==> EncodesWithoutWriting(b)
  {
    if !EncodesWithoutWriting(b) {
      var i := TopNonZero(b, |b| - 1);
      if i == 0 { AllZeroBody(b); } else { WriteChanges(b, i); }
    }
  }

  /** The trimmed number, its sign taken off again, is what the bytes were before the sign was copied. */
  lemma SignGoesBack(b: Bytes)
    requires !Minimal(b) && Decode(b) != 0
    ensures var raw := Encode(Decode(b));
            0 < |raw| <= |b| && raw == Tidied(b)[..|raw|] && Tidied(b)[|raw| - 1 := raw[|raw| - 1] % 128] == b
  {
    hide Decode, Encode, Minimal;
    NotMinimal(b);
    var i := TopNonZero(b, |b| - 1);
    if i == 0 { AllZeroBody(b); }
    Trim(b, i);
    var raw := Trimmed(b, i);
    if b[i - 1] >= 128 {
      assert raw == b[..i] + [b[|b| - 1]];
    } else {
      assert raw == b[..i - 1] + [b[i - 1] + b[|b| - 1]];
    }
    if b[|b| - 1] == 0 {
      assert Tidied(b) == b;
    } else {
      assert !EncodesWithoutWriting(b);
      assert Tidied(b) == Written(b, i);
    }
  }

  lemma NotMinimal(b: Bytes)
    requires !Minimal(b)
    ensures b != [] && b[|b| - 1] % 128 == 0 && (|b| == 1 || b[|b| - 2] < 128)
  {
  }

  lemma AllZeroBody(b: Bytes)
    requires b != [] && b[|b| - 1] % 128 == 0
    requires forall k :: 0 <= k < |b| - 1 ==> b[k] == 0
    ensures Decode(b) == 0
  {
    ZerosValue(b[..|b| - 1] + [0]);
    if b[|b| - 1] == 0 { assert b == b[..|b| - 1] + [0]; }
  }
}
