/** Script numbers: sign-magnitude, little-endian, minimally encoded integers. */
module ScriptNum {
  import opened Bytes

  /** The integer a buffer stands for; the top bit of the last byte is the sign. */
  function Decode(b: Bytes): int
  {
    if b == [] then 0
    else
      var last := b[|b| - 1];
      var rest := b[..|b| - 1];
      if last < 128 then LittleEndian(b) else 0 - LittleEndian(rest + [last - 128])
  }

  /** The shortest buffer for n: an extra byte carries the sign when the magnitude's top bit is taken. */
  function Encode(n: int): Bytes
  {
    var d := Digits(if n < 0 then -n else n);
    var last := d[|d| - 1];
    if n == 0 then []
    else if last >= 128 then d + [if n < 0 then 128 else 0]
    else if n < 0 then d[..|d| - 1] + [last + 128]
    else d
  }

  /** The consensus test on encodings: no byte that only carries a redundant sign. */
  predicate Minimal(b: Bytes)
  {
    b == [] || b[|b| - 1] % 128 != 0 || (|b| > 1 && b[|b| - 2] >= 128)
  }

  lemma ZeroTop(a: Bytes)
    ensures LittleEndian(a + [0]) == LittleEndian(a)
  {
    LittleEndianSnoc(a, 0);
  }

  lemma DecodeEncode(n: int)
    ensures Decode(Encode(n)) == n
    ensures Minimal(Encode(n))
  {
    hide LittleEndian, Digits, Decode;
    var d := Digits(Abs(n));
    DigitsValue(Abs(n));
    if n == 0 {
      NoDigits();
    } else {
      var rest, last := d[..|d| - 1], d[|d| - 1];
      assert d == rest + [last];
      ZeroTop(d);
      DecodeParts(rest, last);
      if last >= 128 {
        DecodeParts(d, 0);
        DecodeParts(d, 128);
      } else {
        DecodeParts(rest, last + 128);
      }
    }
  }

  lemma NonZeroTop(rest: Bytes, top: Byte)
    requires top != 0
    ensures LittleEndian(rest + [top]) > 0 && Digits(LittleEndian(rest + [top])) == rest + [top]
  {
    TopByteRange(rest, top);
    DigitsUnique(rest + [top]);
  }

  /** The sign shares its byte with the top of the magnitude. */
  lemma EncodeSharedSign(rest: Bytes, top: Byte, v: int)
    requires 0 < top < 128 && v == LittleEndian(rest + [top])
    ensures Encode(v) == rest + [top] && Encode(-v) == rest + [top + 128]
  {
    NonZeroTop(rest, top);
    hide Digits, LittleEndian;
    assert (rest + [top])[..|rest|] == rest;
    assert Encode(v) == rest + [top] && Encode(-v) == rest + [top + 128];
  }

  /** The magnitude's top bit is taken, so the sign has a byte of its own. */
  lemma EncodeOwnSign(m: Bytes, v: int)
    requires m != [] && m[|m| - 1] >= 128 && v == LittleEndian(m)
    ensures Encode(v) == m + [0] && Encode(-v) == m + [128]
  {
    assert m == m[..|m| - 1] + [m[|m| - 1]];
    NonZeroTop(m[..|m| - 1], m[|m| - 1]);
    hide Digits, LittleEndian;
    assert Encode(v) == m + [0] && Encode(-v) == m + [128];
  }

  lemma DecodeParts(rest: Bytes, last: Byte)
    ensures Decode(rest + [last]) ==
            if last < 128 then LittleEndian(rest + [last]) else 0 - LittleEndian(rest + [last - 128])
  {
    hide LittleEndian;
    assert (rest + [last])[..|rest|] == rest;
  }

  lemma NoDigits()
    ensures Decode([]) == 0 && Encode(0) == []
  {
  }

  lemma EncodeDecode(b: Bytes)
    requires Minimal(b)
    ensures Encode(Decode(b)) == b
  {
    hide Encode, Decode, LittleEndian;
    if b == [] {
      NoDigits();
    } else {
      var last, rest := b[|b| - 1], b[..|b| - 1];
      assert b == rest + [last];
      DecodeParts(rest, last);
      if last % 128 != 0 {
        EncodeSharedSign(rest, last % 128, LittleEndian(rest + [last % 128]));
      } else {
        ZeroTop(rest);
        EncodeOwnSign(rest, LittleEndian(rest));
      }
    }
  }

  /** A buffer is minimal exactly when re-encoding its value gives it back. */
  lemma MinimalIffCanonical(b: Bytes)
    ensures Minimal(b) <==> Encode(Decode(b)) == b
  {
    if Minimal(b) { EncodeDecode(b); }
    DecodeEncode(Decode(b));
  }

  lemma EncodeInjective(m: int, n: int)
    requires Encode(m) == Encode(n)
    ensures m == n
  {
    DecodeEncode(m);
    DecodeEncode(n);
  }

  // ---------- sizes and overflow-checked arithmetic ----------

  function Abs(n: int): nat {
    if n < 0 then -n else n
  }

  /** The number of digits toString(2) prints for the magnitude. */
  function BitLength(n: nat): (k: nat)
    ensures k >= 1
  {
    if n < 2 then 1 else 1 + BitLength(n / 2)
  }

  /** The size in bytes, as a fraction: one bit more than the magnitude needs, over eight. */
  function GetSize(n: int): real {
    (BitLength(Abs(n)) + 1) as real / 8.0
  }

  function Pow2(k: nat): (p: nat)
    ensures p > 0
  {
    if k == 0 then 1 else 2 * Pow2(k - 1)
  }

  lemma {:induction false} BitLengthBound(n: nat, k: nat)
    requires k >= 1
    ensures BitLength(n) <= k <==> n < Pow2(k)
  {
    if k == 1 {
      assert Pow2(1) == 2 by { assert Pow2(0) == 1; }
    } else {
      if n >= 2 { BitLengthBound(n / 2, k - 1); }
    }
  }

  lemma {:induction false} Pow2Of8(k: nat)
    requires k >= 1
    ensures Pow2(8 * k - 1) == 128 * Pow256(k - 1)
  {
    if k == 1 {
      assert Pow2(1) == 2 && Pow2(3) == 8 && Pow2(5) == 32 && Pow2(7) == 128;
    } else {
      Pow2Of8(k - 1);
      var j := 8 * (k - 1) - 1;
      assert Pow2(j + 2) == 4 * Pow2(j) && Pow2(j + 4) == 16 * Pow2(j);
      assert Pow2(j + 6) == 64 * Pow2(j) && Pow2(j + 8) == 256 * Pow2(j);
    }
  }

  lemma {:induction false} Pow256Monotone(a: nat, b: nat)
    requires a <= b
    ensures Pow256(a) <= Pow256(b)
  {
    if a < b { Pow256Monotone(a, b - 1); }
  }

  /** A number below 256^k has at most k digits. */
  lemma DigitsLength(n: nat, k: nat)
    requires k >= 1 && n < Pow256(k)
    ensures |Digits(n)| <= k
  {
    hide Pow256, LittleEndian;
    var d := Digits(n);
    DigitsValue(n);
    if |d| > 1 {
      var rest, last := d[..|d| - 1], d[|d| - 1];
      assert d == rest + [last];
      TopByteRange(rest, last);
      if |d| > k { Pow256Monotone(k, |d| - 1); }
    }
  }

  /** The encoded length fixes the magnitude's range, and the other way round. */
  lemma EncodedLength(n: int, k: nat)
    requires k >= 1
    ensures |Encode(n)| <= k <==> Abs(n) < 128 * Pow256(k - 1)
  {
    if n == 0 {
      assert Pow256(k - 1) >= 1;
    } else {
      var len := |Encode(n)|;
      EncodedRange(n);
      if len <= k {
        Pow256Monotone(len - 1, k - 1);
      } else {
        Pow256Monotone(k - 1, len - 2);
      }
    }
  }

  lemma EncodedRange(n: int)
    requires n != 0
    ensures var len := |Encode(n)|;
            && len >= 1 && Abs(n) < 128 * Pow256(len - 1)
            && (len >= 2 ==> Abs(n) >= 128 * Pow256(len - 2))
  {
    var d := Digits(Abs(n));
    DigitsValue(Abs(n));
    var rest, last := d[..|d| - 1], d[|d| - 1];
    assert d == rest + [last];
    TopByteRange(rest, last);
    EncodedLengthIs(n);
    Pow256Steps(|d|);
  }

  lemma EncodedLengthIs(n: int)
    requires n != 0
    ensures var d := Digits(Abs(n)); |Encode(n)| == if d[|d| - 1] >= 128 then |d| + 1 else |d|
  {
  }

  lemma Pow256Steps(k: nat)
    ensures k >= 1 ==> Pow256(k) == 256 * Pow256(k - 1)
    ensures k >= 2 ==> Pow256(k - 1) == 256 * Pow256(k - 2)
  {
  }

  /** The fractional size test is the same as the encoded-length test. */
  lemma SizeIsEncodedLength(n: int, k: nat)
    requires k >= 1
    ensures GetSize(n) <= k as real <==> |Encode(n)| <= k
  {
    BitLengthBound(Abs(n), 8 * k - 1);
    Pow2Of8(k);
    EncodedLength(n, k);
    assert GetSize(n) <= k as real <==> BitLength(Abs(n)) + 1 <= 8 * k;
  }

  datatype Checked = Value(n: int) | Overflow

  /** checkOperationForOverflow: the operands against maxSize, the result always against 8 bytes. */
  function CheckedResult(a: int, b: int, result: int, maxSize: nat): Checked {
    if GetSize(a) > maxSize as real || GetSize(b) > maxSize as real || GetSize(result) > 8.0 then Overflow
    else Value(result)
  }

  function SafeAdd(a: int, b: int, maxSize: nat): Checked { CheckedResult(a, b, a + b, maxSize) }
  function SafeSub(a: int, b: int, maxSize: nat): Checked { CheckedResult(a, b, a - b, maxSize) }
  function SafeMul(a: int, b: int, maxSize: nat): Checked { CheckedResult(a, b, a * b, maxSize) }

  const MAX_INT64 := 0x7fff_ffff_ffff_ffff

  lemma Pow256Seven()
    ensures 128 * Pow256(7) == MAX_INT64 + 1
  {
    assert Pow256(2) == 0x1_0000;
    assert Pow256(4) == 0x1_0000_0000;
    assert Pow256(6) == 0x1_0000_0000_0000;
  }

  lemma {:induction false} DecodedMagnitude(b: Bytes, k: nat)
    requires 1 <= k && |b| <= k
    ensures Abs(Decode(b)) < 128 * Pow256(k - 1)
  {
    if b != [] {
      var last, rest := b[|b| - 1], b[..|b| - 1];
      assert b == rest + [last];
      TopByteRange(rest, last % 128);
      Pow256Monotone(|b| - 1, k - 1);
    }
  }

  /**
   * 64-bit arithmetic is exact: on operands of at most 8 bytes a sum, difference or product is accepted iff it
   * lies within 64-bit sign-magnitude range, and its encoding is then the one minimal buffer of at most 8 bytes
   * with that value.
   */
  lemma CheckedArithmeticExact(x: Bytes, y: Bytes, result: int)
    requires |x| <= 8 && |y| <= 8
    ensures result == Decode(x) + Decode(y) ==> SafeAdd(Decode(x), Decode(y), 8) == Within64(result)
    ensures result == Decode(x) - Decode(y) ==> SafeSub(Decode(x), Decode(y), 8) == Within64(result)
    ensures result == Decode(x) * Decode(y) ==> SafeMul(Decode(x), Decode(y), 8) == Within64(result)
    ensures -MAX_INT64 <= result <= MAX_INT64 <==> |Encode(result)| <= 8
    ensures forall e: Bytes :: Minimal(e) && Decode(e) == result ==> e == Encode(result)
  {
    hide Encode, Decode, Minimal, GetSize, Pow256;
    Pow256Seven();
    DecodedMagnitude(x, 8);
    DecodedMagnitude(y, 8);
    EncodedLength(Decode(x), 8);
    EncodedLength(Decode(y), 8);
    EncodedLength(result, 8);
    SizeIsEncodedLength(Decode(x), 8);
    SizeIsEncodedLength(Decode(y), 8);
    SizeIsEncodedLength(result, 8);
    forall e: Bytes | Minimal(e) && Decode(e) == result ensures e == Encode(result) {
      EncodeDecode(e);
    }
  }

  /** A result that fits 64 bits, sign and magnitude. */
  function Within64(v: int): Checked { if -MAX_INT64 <= v <= MAX_INT64 then Value(v) else Overflow }

  /** bn.js division: truncation toward zero. */
  function TruncDiv(a: int, b: int): int
    requires b != 0
  {
    var q := Abs(a) / Abs(b);
    if (a < 0) == (b < 0) then q else -q
  }

  /** bn.js mod: the remainder takes the sign of the dividend. */
  function TruncMod(a: int, b: int): int
    requires b != 0
  {
    var r := Abs(a) % Abs(b);
    if a < 0 then -r else r
  }

  /** Truncated division: a = q*b + r, and no quotient leaves the range of its dividend. */
  lemma TruncatedDivision(a: int, b: int)
    requires b != 0
    ensures a == TruncDiv(a, b) * b + TruncMod(a, b)
    ensures Abs(TruncDiv(a, b)) <= Abs(a)
  {
    var q: int, r: int := DivMod(Abs(a), Abs(b));
    NegatedProducts(q, Abs(b));
  }

  /** The remainder is smaller than the divisor and never of the other sign than the dividend. */
  lemma TruncatedRemainder(a: int, b: int)
    requires b != 0
    ensures Abs(TruncMod(a, b)) < Abs(b) && Abs(TruncMod(a, b)) <= Abs(a)
    ensures TruncMod(a, b) == 0 || (TruncMod(a, b) < 0 <==> a < 0)
  {
    var q, r := DivMod(Abs(a), Abs(b));
  }

  lemma DivMod(m: nat, d: nat) returns (q: nat, r: nat)
    requires d > 0
    ensures q == m / d && r == m % d
    ensures m == q * d + r && r < d && r <= m && q <= m
  {
    q, r := m / d, m % d;
    MulMonotone(q, 1, d);
  }

  lemma NegatedProducts(q: int, d: int)
    ensures (-q) * (-d) == q * d && q * (-d) == -(q * d) && (-q) * d == -(q * d)
  {
  }
}
