/** The laws of OP_NUM2BIN and OP_BIN2NUM on values. */
module Widening {
  import opened Bytes
  import opened ScriptNum
  import opened NumBuffers
  import opened Script
  import opened Machine

  lemma WidenIs(raw: Bytes, size: nat)
    requires |raw| < size
    ensures Widen(raw, size) == Unsigned(raw) + seq(size - 1 - |raw|, _ => 0) + [SignBit(raw)]
  {
  }

  function SignBit(raw: Bytes): Byte { if raw != [] && raw[|raw| - 1] >= 128 then 128 else 0 }

  function Unsigned(raw: Bytes): (r: Bytes)
    ensures |r| == |raw|
  {
    if raw == [] then [] else raw[|raw| - 1 := raw[|raw| - 1] % 128]
  }

  lemma UnsignedDecode(raw: Bytes)
    ensures Decode(Unsigned(raw)) == Abs(Decode(raw))
  {
    if raw != [] {
      var rest, last := raw[..|raw| - 1], raw[|raw| - 1];
      assert raw == rest + [last];
      assert Unsigned(raw) == rest + [last % 128];
    }
  }

  /** Padding moves the sign to the new top byte and keeps the number. */
  lemma WidenDecode(raw: Bytes, size: nat)
    requires |raw| < size
    ensures Decode(Widen(raw, size)) == Decode(raw)
  {
    var zeros: Bytes := seq(size - 1 - |raw|, _ => 0);
    var body := Unsigned(raw) + zeros;
    WidenIs(raw, size);
    UnsignedDecode(raw);
    ZerosValue(zeros);
    LittleEndianConcat(Unsigned(raw), zeros);
    ZeroTop(body);
    UnsignedIs(raw);
  }

  lemma UnsignedIs(raw: Bytes)
    ensures var v: int := LittleEndian(Unsigned(raw)); Decode(raw) == if SignBit(raw) == 128 then -v else v
  {
    if raw != [] {
      var rest, last := raw[..|raw| - 1], raw[|raw| - 1];
      assert raw == rest + [last];
      assert Unsigned(raw) == rest + [last % 128];
    }
  }

  /** OP_NUM2BIN succeeds exactly when the canonical encoding fits, and yields that many bytes of the same value. */
  lemma NumToBinExact(x: Bytes, size: int)
    ensures NumToBin(x, size).Ok? <==> |Encode(Decode(x))| <= size <= MAX_SCRIPT_ELEMENT_SIZE
    ensures NumToBin(x, size).Ok? ==> |NumToBin(x, size).value| == size && Decode(NumToBin(x, size).value) == Decode(x)
  {
    hide Encode, Decode, Widen;
    var raw := Encode(Decode(x));
    DecodeEncode(Decode(x));
    if |raw| < size <= MAX_SCRIPT_ELEMENT_SIZE { WidenDecode(raw, size); }
  }

  /** OP_BIN2NUM undoes OP_NUM2BIN: it gives back the canonical encoding, when that is a valid number. */
  lemma BinToNumUndoesNumToBin(x: Bytes, size: int, maxSize: nat)
    requires NumToBin(x, size).Ok?
    ensures var n := Encode(Decode(x));
            BinToNum(NumToBin(x, size).value, maxSize) == if |n| > maxSize then Fail(InvalidNumberRange) else Ok(n)
  {
    hide Encode, Decode, NumToBin;
    NumToBinExact(x, size);
  }

  /** Only the canonical operand survives the two opcodes unchanged. */
  lemma RoundTripIffMinimal(x: Bytes, size: int, maxSize: nat)
    requires NumToBin(x, size).Ok? && |Encode(Decode(x))| <= maxSize
    ensures BinToNum(NumToBin(x, size).value, maxSize) == Ok(x) <==> Minimal(x)
  {
    hide Encode, Decode, NumToBin, BinToNum, Minimal;
    BinToNumUndoesNumToBin(x, size, maxSize);
    MinimalIffCanonical(x);
  }

  /** The encodings of stack sizes and push sizes fit the four bytes that operands may have. */
  lemma SmallEncoding(n: nat)
    requires n < 0x1_0000
    ensures |Encode(n)| <= 4
  {
    hide Encode;
    EncodedLength(n, 4);
    assert Pow256(3) == 0x100_0000;
  }
}
