/** The bitfield of Schnorr multisig: its set bits, and the SWAR bit count. */
module Bitfield {

  function Shr(v: nat, i: nat): nat {
    if i == 0 then v else Shr(v / 2, i - 1)
  }

  predicate Bit(v: nat, i: nat) {
    Shr(v, i) % 2 == 1
  }

  lemma {:induction false} ShrStep(v: nat, i: nat)
    ensures Shr(v, i + 1) == Shr(v, i) / 2
  {
    if i > 0 { ShrStep(v / 2, i - 1); }
  }

  /** The indices i, start <= i < end, of the set bits, in increasing order. */
  function SetBits(v: nat, start: nat, end: nat): seq<nat>
    decreases end - start
  {
    if start >= end then []
    else if Bit(v, start) then [start] + SetBits(v, start + 1, end)
    else SetBits(v, start + 1, end)
  }

  lemma {:induction false} SetBitsAre(v: nat, start: nat, end: nat)
    ensures var s := SetBits(v, start, end);
            && (forall j :: 0 <= j < |s| ==> start <= s[j] < end && Bit(v, s[j]))
            && (forall i, j :: 0 <= i < j < |s| ==> s[i] < s[j])
            && (forall i :: start <= i < end && Bit(v, i) ==> i in s)
    decreases end - start
  {
    hide Bit;
    if start < end {
      SetBitsAre(v, start + 1, end);
      var s, t := SetBits(v, start, end), SetBits(v, start + 1, end);
      forall i | start <= i < end && Bit(v, i) ensures i in s {
        if i > start { assert i in t; }
      }
    }
  }

  // ---------- bitwise AND on naturals ----------

  function And(a: nat, m: nat): nat
    decreases m
  {
    if m == 0 then 0 else (if a % 2 == 1 && m % 2 == 1 then 1 else 0) + 2 * And(a / 2, m / 2)
  }

  lemma Split(x: nat, k: nat) returns (b: nat, a: nat)
    requires k == 2 || k == 4 || k == 16 || k == 256
    ensures x == b + k * a && b < k && a == x / k && b == x % k
  {
    b, a := x % k, x / k;
  }

  // One bit at a time, the operand written as low bit plus twice the rest.
  lemma And1(b: nat, a: nat, m: nat)
    requires b < 2
    ensures And(b + 2 * a, 2 * m + 1) == b + 2 * And(a, m)
  {
    assert (2 * m + 1) / 2 == m && (2 * m + 1) % 2 == 1 && (b + 2 * a) / 2 == a;
  }

  lemma And0(b: nat, a: nat, m: nat)
    requires b < 2
    ensures And(b + 2 * a, 2 * m) == 2 * And(a, m)
  {
    assert (2 * m) / 2 == m && (2 * m) % 2 == 0 && (b + 2 * a) / 2 == a;
  }

  lemma And01(b: nat, c: nat, a: nat, m: nat)
    requires b < 2 && c < 2
    ensures And(b + 2 * (c + 2 * a), 4 * m + 1) == b + 4 * And(a, m)
  {
    hide And;
    And1(b, c + 2 * a, 2 * m);
    And0(c, a, m);
  }

  lemma And11(b: nat, a: nat, m: nat)
    requires b < 4
    ensures And(b + 4 * a, 4 * m + 3) == b + 4 * And(a, m)
  {
    hide And;
    var b0, b1 := Split(b, 2);
    And1(b0, b1 + 2 * a, 2 * m + 1);
    And1(b1, a, m);
    SameAnd(b0 + 2 * (b1 + 2 * a), b + 4 * a, 2 * (2 * m + 1) + 1, 4 * m + 3);
  }

  lemma And00(b: nat, a: nat, m: nat)
    requires b < 4
    ensures And(b + 4 * a, 4 * m) == 4 * And(a, m)
  {
    hide And;
    var b0, b1 := Split(b, 2);
    And0(b0, b1 + 2 * a, 2 * m);
    And0(b1, a, m);
    SameAnd(b0 + 2 * (b1 + 2 * a), b + 4 * a, 2 * (2 * m), 4 * m);
  }

  lemma SameAnd(x: nat, y: nat, m: nat, k: nat)
    requires x == y && m == k
    ensures And(x, m) == And(y, k)
  {
  }

  lemma And0011(b: nat, c: nat, a: nat, m: nat)
    requires b < 4 && c < 4
    ensures And(b + 4 * (c + 4 * a), 16 * m + 3) == b + 16 * And(a, m)
  {
    hide And;
    And11(b, c + 4 * a, 4 * m);
    And00(c, a, m);
    SameAnd(b + 4 * (c + 4 * a), b + 4 * (c + 4 * a), 4 * (4 * m) + 3, 16 * m + 3);
  }

  lemma And1111(b: nat, a: nat, m: nat)
    requires b < 16
    ensures And(b + 16 * a, 16 * m + 15) == b + 16 * And(a, m)
  {
    hide And;
    var b0, b1 := Split(b, 4);
    And11(b0, b1 + 4 * a, 4 * m + 3);
    And11(b1, a, m);
    SameAnd(b0 + 4 * (b1 + 4 * a), b + 16 * a, 4 * (4 * m + 3) + 3, 16 * m + 15);
  }

  lemma And0000(b: nat, a: nat, m: nat)
    requires b < 16
    ensures And(b + 16 * a, 16 * m) == 16 * And(a, m)
  {
    hide And;
    var b0, b1 := Split(b, 4);
    And00(b0, b1 + 4 * a, 4 * m);
    And00(b1, a, m);
    SameAnd(b0 + 4 * (b1 + 4 * a), b + 16 * a, 4 * (4 * m), 16 * m);
  }

  lemma And00001111(b: nat, c: nat, a: nat, m: nat)
    requires b < 16 && c < 16
    ensures And(b + 16 * (c + 16 * a), 256 * m + 15) == b + 256 * And(a, m)
  {
    hide And;
    And1111(b, c + 16 * a, 16 * m);
    And0000(c, a, m);
    SameAnd(b + 16 * (c + 16 * a), b + 16 * (c + 16 * a), 16 * (16 * m) + 15, 256 * m + 15);
  }

  // ---------- the bit count ----------

  /** The 32-bit two's complement number that bitwise operators work on. */
  function ToInt32(x: int): (r: int)
    ensures -0x8000_0000 <= r < 0x8000_0000
  {
    (x + 0x8000_0000) % 0x1_0000_0000 - 0x8000_0000
  }

  /** countBits: sums of bit pairs, then of nibbles, then of bytes, then one multiplication. */
  function CountBits(x: nat): int
    requires x < 0x8000_0000
  {
    PairStageFits(x);
    var v := x - And(x / 2, 0x55555555);
    var w := And(v, 0x33333333) + And(v / 4, 0x33333333);
    ToInt32(And(w + w / 16, 0x0F0F0F0F) * 0x0101_0101) / 0x100_0000
  }

  // the masks 0x55.., 0x33.. and 0x0f0f.. with n fields
  function Mask1(n: nat): nat { if n == 0 then 0 else 4 * Mask1(n - 1) + 1 }
  function Mask2(n: nat): nat { if n == 0 then 0 else 16 * Mask2(n - 1) + 3 }
  function Mask4(n: nat): nat { if n == 0 then 0 else 256 * Mask4(n - 1) + 15 }

  /** Sums of the n lowest fields of 1, 2, 4 and 8 bits. */
  function Sum1(x: nat, n: nat): nat { if n == 0 then 0 else x % 2 + Sum1(x / 2, n - 1) }
  function Sum2(x: nat, n: nat): nat { if n == 0 then 0 else x % 4 + Sum2(x / 4, n - 1) }
  function Sum4(x: nat, n: nat): nat { if n == 0 then 0 else x % 16 + Sum4(x / 16, n - 1) }
  function Sum8(x: nat, n: nat): nat { if n == 0 then 0 else x % 256 + Sum8(x / 256, n - 1) }

  /** n base-4 digits, none above 2; n base-16 digits, none above 4. */
  predicate Digits2(v: nat, n: nat) { if n == 0 then v == 0 else v % 4 <= 2 && Digits2(v / 4, n - 1) }
  predicate Digits4(w: nat, n: nat) { if n == 0 then w == 0 else w % 16 <= 4 && Digits4(w / 16, n - 1) }

  function Pow4(n: nat): nat { if n == 0 then 1 else 4 * Pow4(n - 1) }

  lemma Sum1Step(b: nat, a: nat, n: nat)
    requires b < 2
    ensures Sum1(b + 2 * a, n + 1) == b + Sum1(a, n)
  {
    assert (b + 2 * a) / 2 == a;
  }

  lemma Sum2Step(b: nat, a: nat, n: nat)
    requires b < 4
    ensures Sum2(b + 4 * a, n + 1) == b + Sum2(a, n)
    ensures Digits2(b + 4 * a, n + 1) <==> b <= 2 && Digits2(a, n)
  {
    assert (b + 4 * a) / 4 == a && (b + 4 * a) % 4 == b;
  }

  lemma Sum4Step(b: nat, a: nat, n: nat)
    requires b < 16
    ensures Sum4(b + 16 * a, n + 1) == b + Sum4(a, n)
    ensures Digits4(b + 16 * a, n + 1) <==> b <= 4 && Digits4(a, n)
  {
    assert (b + 16 * a) / 16 == a && (b + 16 * a) % 16 == b;
  }

  lemma Sum8Step(b: nat, a: nat, n: nat)
    requires b < 256
    ensures Sum8(b + 256 * a, n + 1) == b + Sum8(a, n)
    ensures Bytes8(b + 256 * a, n + 1) <==> b <= 8 && Bytes8(a, n)
  {
    assert (b + 256 * a) / 256 == a && (b + 256 * a) % 256 == b;
  }

  /** v is the pair stage of x, x1 being x >> 1. */
  predicate PairsOf(v: nat, x: nat, x1: nat, n: nat) {
    v + And(x1, Mask1(n)) == x && Sum2(v, n) == Sum1(x, 2 * n) && Digits2(v, n)
  }

  lemma {:induction false} PairSums(x: nat, x1: nat, n: nat) returns (v: nat)
    requires x < Pow4(n) && x1 == x / 2
    ensures PairsOf(v, x, x1, n)
  {
    if n == 0 {
      v := 0;
    } else {
      var b, t := Split(x, 2);
      var c, y := Split(x1, 2);
      var d, z := Split(y, 2);
      var v' := PairSums(y, z, n - 1);
      v := PairStep(v', b, c, d, y, z, n);
    }
  }

  lemma PairStep(v': nat, b: nat, c: nat, d: nat, y: nat, z: nat, n: nat) returns (v: nat)
    requires n > 0 && b < 2 && c < 2 && d < 2 && y == d + 2 * z && PairsOf(v', y, z, n - 1)
    ensures PairsOf(v, b + 2 * (c + 2 * y), c + 2 * y, n)
  {
    hide And, Sum1, Sum2, Digits2, Mask1;
    v := (b + c) + 4 * v';
    Mask1Step(n);
    And01(c, d, z, Mask1(n - 1));
    Sum1Step(b, c + 2 * y, 2 * n - 1);
    Sum1Step(c, y, 2 * n - 2);
    Sum2Step(b + c, v', n - 1);
  }

  lemma Mask1Step(n: nat)
    requires n > 0
    ensures Mask1(n) == 4 * Mask1(n - 1) + 1
  {
  }

  lemma PairStageFits(x: nat)
    requires x < 0x8000_0000
    ensures And(x / 2, 0x55555555) <= x
  {
    MaskValues();
    var v := PairSums(x, x / 2, 16);
  }

  lemma MaskValues()
    ensures Mask1(16) == 0x5555_5555 && Mask2(8) == 0x3333_3333 && Mask4(4) == 0x0F0F_0F0F
    ensures Pow4(16) == 0x1_0000_0000
  {
    assert Mask1(8) == 0x5555;
    assert Mask2(4) == 0x3333;
    assert Pow4(8) == 0x1_0000;
  }

  /** w is the nibble stage of v, v1 being v >> 2. */
  predicate NibblesOf(w: nat, v: nat, v1: nat, n: nat) {
    w == And(v, Mask2(n)) + And(v1, Mask2(n)) && Sum4(w, n) == Sum2(v, 2 * n) && Digits4(w, n)
  }

  lemma {:induction false} NibbleSums(v: nat, v1: nat, n: nat) returns (w: nat)
    requires Digits2(v, 2 * n) && v1 == v / 4
    ensures NibblesOf(w, v, v1, n)
  {
    hide And, Sum2, Sum4, Mask2, Digits2, Digits4, NibblesOf;
    if n == 0 {
      NoNibbles(v, v1);
      w := 0;
    } else {
      var b, t := Split(v, 4);
      var c, y := Split(v1, 4);
      var d, z := Split(y, 4);
      Sum2Step(b, v1, 2 * n - 1);
      Sum2Step(c, y, 2 * n - 2);
      var w' := NibbleSums(y, z, n - 1);
      w := NibbleStep(w', b, c, d, y, z, n);
    }
  }

  lemma NoNibbles(v: nat, v1: nat)
    requires Digits2(v, 0) && v1 == v / 4
    ensures NibblesOf(0, v, v1, 0)
  {
  }

  lemma NibbleStep(w': nat, b: nat, c: nat, d: nat, y: nat, z: nat, n: nat) returns (w: nat)
    requires n > 0 && b <= 2 && c <= 2 && d < 4 && y == d + 4 * z && NibblesOf(w', y, z, n - 1)
    ensures NibblesOf(w, b + 4 * (c + 4 * y), c + 4 * y, n)
  {
    hide And, Sum2, Sum4, Mask2;
    w := (b + c) + 16 * w';
    Mask2Step(n);
    And0011(b, c, y, Mask2(n - 1));
    And0011(c, d, z, Mask2(n - 1));
    Sum2Step(b, c + 4 * y, 2 * n - 1);
    Sum2Step(c, y, 2 * n - 2);
    Sum4Step(b + c, w', n - 1);
  }

  lemma Mask2Step(n: nat)
    requires n > 0
    ensures Mask2(n) == 16 * Mask2(n - 1) + 3
  {
  }

  /** t is the byte stage of w, w1 being w >> 4. */
  predicate BytesOf(t: nat, w: nat, w1: nat, n: nat) {
    t == And(w + w1, Mask4(n)) && Sum8(t, n) == Sum4(w, 2 * n) && Bytes8(t, n)
  }

  lemma {:induction false} ByteSums(w: nat, w1: nat, n: nat) returns (t: nat)
    requires Digits4(w, 2 * n) && w1 == w / 16
    ensures BytesOf(t, w, w1, n)
  {
    hide And, Sum4, Sum8, Mask4, Digits4, Bytes8, BytesOf;
    if n == 0 {
      NoBytes(w, w1);
      t := 0;
    } else {
      var b, s := Split(w, 16);
      var c, y := Split(w1, 16);
      var d, z := Split(y, 16);
      Sum4Step(b, w1, 2 * n - 1);
      Sum4Step(c, y, 2 * n - 2);
      if n > 1 { Sum4Step(d, z, 2 * n - 3); } else { NoDigits4(y); }
      var t' := ByteSums(y, z, n - 1);
      t := ByteStep(t', b, c, d, y, z, n);
    }
  }

  lemma NoDigits4(w: nat)
    requires Digits4(w, 0)
    ensures w == 0
  {
  }

  lemma NoBytes(w: nat, w1: nat)
    requires Digits4(w, 0) && w1 == w / 16
    ensures BytesOf(0, w, w1, 0)
  {
  }

  /** The field sums stay below 16, so nothing carries into the neighbour. */
  lemma ByteStep(t': nat, b: nat, c: nat, d: nat, y: nat, z: nat, n: nat) returns (t: nat)
    requires n > 0 && b <= 4 && c <= 4 && d <= 4 && y == d + 16 * z && BytesOf(t', y, z, n - 1)
    ensures BytesOf(t, b + 16 * (c + 16 * y), c + 16 * y, n)
  {
    hide And, Sum4, Sum8, Mask4, Bytes8;
    t := (b + c) + 256 * t';
    Mask4Step(n);
    And00001111(b + c, c + d, y + z, Mask4(n - 1));
    Sum4Step(b, c + 16 * y, 2 * n - 1);
    Sum4Step(c, y, 2 * n - 2);
    Sum8Step(b + c, t', n - 1);
  }

  lemma Mask4Step(n: nat)
    requires n > 0
    ensures Mask4(n) == 256 * Mask4(n - 1) + 15
  {
  }

  /** n bytes, none above 8. */
  predicate Bytes8(t: nat, n: nat) { if n == 0 then t == 0 else t % 256 <= 8 && Bytes8(t / 256, n - 1) }

  lemma WrapsAround(x: nat, high: nat)
    requires x < 0x8000_0000
    ensures ToInt32(x + 0x1_0000_0000 * high) == x
  {
    var y := x + 0x8000_0000;
    assert (y + 0x1_0000_0000 * high) % 0x1_0000_0000 == y;
  }

  lemma TopByte(low: nat, s: nat, high: nat)
    requires low < 0x100_0000 && s < 128
    ensures ToInt32(low + 0x100_0000 * s + 0x1_0000_0000 * high) / 0x100_0000 == s
  {
    WrapsAround(low + 0x100_0000 * s, high);
  }

  lemma Multiply(t: nat)
    requires Bytes8(t, 4)
    ensures ToInt32(t * 0x0101_0101) / 0x100_0000 == Sum8(t, 4)
  {
    hide Sum8, ToInt32, Bytes8;
    var t0, a1 := Split(t, 256);
    var t1, a2 := Split(a1, 256);
    var t2, a3 := Split(a2, 256);
    var t3, a4 := Split(a3, 256);
    Sum8Step(t0, a1, 3);
    Sum8Step(t1, a2, 2);
    Sum8Step(t2, a3, 1);
    Sum8Step(t3, a4, 0);
    NoBytes8(a4);
    var low := t0 + 256 * (t0 + t1) + 0x1_0000 * (t0 + t1 + t2);
    var high := (t1 + t2 + t3) + 256 * (t2 + t3) + 0x1_0000 * t3;
    var s := t0 + t1 + t2 + t3;
    assert t == t0 + 256 * t1 + 0x1_0000 * t2 + 0x100_0000 * t3;
    assert t * 0x0101_0101 == low + 0x100_0000 * s + 0x1_0000_0000 * high;
    TopByte(low, s, high);
  }

  lemma NoBytes8(a: nat)
    ensures Sum8(a, 0) == 0 && (Bytes8(a, 0) ==> a == 0)
  {
  }

  /** SWAR counting is population count: it gives the number of set bits. */
  lemma CountBitsIsPopCount(x: nat)
    requires x < 0x8000_0000
    ensures CountBits(x) == |SetBits(x, 0, 32)|
  {
    hide And, Mask1, Mask2, Mask4, Sum1, Sum2, Sum4, Sum8, SetBits, Pow4, Digits2, Digits4, Bytes8;
    MaskValues();
    var v := PairSums(x, x / 2, 16);
    var w := NibbleSums(v, v / 4, 8);
    var t := ByteSums(w, w / 16, 4);
    Multiply(t);
    assert Sum8(t, 4) == Sum1(x, 32) == |SetBits(x, 0, 32)| by { SumIsCount(x, 0, 32); }
    StagesGiveCount(x, v, w, t);
  }

  lemma StagesGiveCount(x: nat, v: nat, w: nat, t: nat)
    requires x < 0x8000_0000
    requires v + And(x / 2, 0x55555555) == x
    requires w == And(v, 0x33333333) + And(v / 4, 0x33333333)
    requires t == And(w + w / 16, 0x0F0F0F0F)
    ensures CountBits(x) == ToInt32(t * 0x0101_0101) / 0x100_0000
  {
    hide And;
  }

  lemma {:induction false} SumIsCount(x: nat, i: nat, n: nat)
    ensures Sum1(Shr(x, i), n) == |SetBits(x, i, i + n)|
    decreases n
  {
    if n > 0 {
      ShrStep(x, i);
      SumIsCount(x, i + 1, n - 1);
    }
  }
}
