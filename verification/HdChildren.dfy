/** Which child an index stands for: what is hashed, and what the child is made of. */
module HdChildren {
  import opened Bytes
  import opened NumBuffers
  import opened ScriptNum
  import opened Script
  import opened HdKeys
  import Ecdsa
  import Der

  /** The order of secp256k1. */
  lemma GroupOrder()
    ensures Ecdsa.N + 0x1_4551_2319_50B7_5FC4_402D_A173_2FC9_BEBF == Pow256(32)
  {
    Ecdsa.Pow256Of31();
  }

  // ---------- numbers as bytes ----------

  lemma FourBytes(a: Byte, b: Byte, c: Byte, d: Byte)
    ensures BigEndian([a, b, c, d]) == 0x100_0000 * a + 0x1_0000 * b + 0x100 * c + d
  {
    assert Reversed([a, b, c, d]) == [d, c, b, a];
    assert [d, c, b, a][1..] == [c, b, a] && [c, b, a][1..] == [b, a] && [b, a][1..] == [a] && [a][1..] == [];
    assert LittleEndian([]) == 0;
    assert LittleEndian([a]) == a;
    assert LittleEndian([b, a]) == b + 0x100 * a;
    assert LittleEndian([c, b, a]) == c + 0x100 * (b + 0x100 * a);
  }

  lemma IndexReads(i: nat)
    requires i < 0x1_0000_0000
    ensures |IndexBuffer(i)| == 4 && BigEndian(IndexBuffer(i)) == i
  {
    hide BigEndian;
    var b := IndexBuffer(i);
    FourBytes(b[0], b[1], b[2], b[3]);
    FourDigits(i);
    assert b == [b[0], b[1], b[2], b[3]];
  }

  lemma FourDigits(i: nat)
    requires i < 0x1_0000_0000
    ensures 0x100_0000 * ((i / 0x100_0000) % 256) + 0x1_0000 * ((i / 0x1_0000) % 256) + 0x100 * ((i / 0x100) % 256) +
            i % 256 == i
  {
    var a := i / 0x100;
    var b := a / 0x100;
    assert b == i / 0x1_0000 && b / 0x100 == i / 0x100_0000;
  }

  lemma LeadingZeros(zeros: Bytes, b: Bytes)
    requires forall i :: 0 <= i < |zeros| ==> zeros[i] == 0
    ensures BigEndian(zeros + b) == BigEndian(b)
  {
    hide LittleEndian;
    assert Reversed(zeros + b) == Reversed(b) + Reversed(zeros);
    LittleEndianConcat(Reversed(b), Reversed(zeros));
    ZerosValue(Reversed(zeros));
  }

  lemma KeyFits(key: nat)
    requires IsKey(key)
    ensures |Digits(key)| <= 32
  {
    hide Pow256, Digits;
    GroupOrder();
    DigitsLength(key, 32);
  }

  lemma KeyIsPadded(key: nat)
    requires |Digits(key)| <= 32
    ensures var b := Reversed(Digits(key)); KeyBuffer(key) == seq(32 - |b|, _ => 0) + b
  {
    hide Digits, Reversed;
    var b := Reversed(Digits(key));
    assert Last(b, |b|) == b;
  }

  lemma KeyReads(key: nat)
    requires IsKey(key)
    ensures |KeyBuffer(key)| == 32 && BigEndian(KeyBuffer(key)) == key
  {
    hide BigEndian, Digits, IsKey, KeyBuffer;
    KeyFits(key);
    KeyIsPadded(key);
    Der.ToBufferIs(key);
    var b := Reversed(Digits(key));
    LeadingZeros(seq(32 - |b|, _ => 0), b);
  }

  // ---------- what is hashed ----------

  /** The data of an index before the hardened range: the compressed point, then four bytes, big-endian. */
  predicate PlainData(point: Bytes, j: nat, data: Bytes) {
    |data| == |point| + 4 && data[..|point|] == point && BigEndian(data[|point|..]) == j
  }

  /** The data of a hardened index: a zero byte, the key in 32 bytes, then four bytes, all big-endian. */
  predicate HardenedData(key: nat, j: nat, data: Bytes) {
    |data| == 37 && data[0] == 0 && BigEndian(data[1..33]) == key && BigEndian(data[33..]) == j
  }

  /** The non-compliant form has the key without leading zeros, and so may be shorter. */
  predicate ShortData(key: nat, j: nat, data: Bytes) {
    |data| >= 6 && data[0] == 0 && data[1] != 0 && BigEndian(data[1..|data| - 4]) == key &&
    BigEndian(data[|data| - 4..]) == j
  }

  predicate DataFor(w: World, k: PrivateKey, j: nat, nonCompliant: bool, data: Bytes) {
    if j < 0x8000_0000 then PlainData(w.compressed(k.key), j, data)
    else if nonCompliant then ShortData(k.key, j, data)
    else HardenedData(k.key, j, data)
  }

  lemma DataIs(w: World, k: PrivateKey, j: nat, nonCompliant: bool)
    requires IsKey(k.key) && j < 0x1_0000_0000
    ensures DataFor(w, k, j, nonCompliant, PrivateData(w, k, j, nonCompliant))
  {
    hide BigEndian, IndexBuffer, KeyBuffer, Digits, IsKey;
    IndexReads(j);
    var four := IndexBuffer(j);
    if j < 0x8000_0000 {
      PointThenIndex(w.compressed(k.key), j);
    } else if nonCompliant {
      Der.ToBufferIs(k.key);
      KeyIsPositive(k.key);
      var b, data := Reversed(Digits(k.key)), PrivateData(w, k, j, nonCompliant);
      assert data == [0] + b + four;
      assert data[1..|data| - 4] == b && data[|data| - 4..] == four;
    } else {
      KeyReads(k.key);
      var b, data := KeyBuffer(k.key), PrivateData(w, k, j, nonCompliant);
      assert data[1..33] == b && data[33..] == four;
    }
  }

  lemma KeyIsPositive(key: nat)
    requires IsKey(key)
    ensures key > 0
  {
  }

  lemma PointThenIndex(point: Bytes, j: nat)
    requires j < 0x1_0000_0000
    ensures PlainData(point, j, point + IndexBuffer(j))
  {
    hide BigEndian, IndexBuffer;
    IndexReads(j);
    assert (point + IndexBuffer(j))[|point|..] == IndexBuffer(j);
  }

  // ---------- the child ----------

  /** The index that a call asks for: hardened, unless it already is. */
  function Asked(index: int, hardened: bool): int {
    if hardened && index < 0x8000_0000 then index + 0x8000_0000 else index
  }

  /** c is child j of k, the hash of data giving its key and its chain code. */
  predicate IsChild(w: World, k: PrivateKey, j: nat, data: Bytes, c: PrivateKey)
    requires Sized(w)
  {
    var h := w.hmac(data, k.chainCode);
    && c.key == (BigEndian(h[..32]) + k.key) % Ecdsa.N && c.key != 0 && c.chainCode == h[32..] && c.childIndex == j
    && c.depth == (k.depth + 1) % 256 && c.parentFingerPrint == w.hash160(w.compressed(k.key))[..4]
    && c.network == k.network
  }

  lemma {:induction false} ChildIs(w: World, k: PrivateKey, i: nat, nonCompliant: bool) returns (data: Bytes)
    requires Sized(w) && IsKey(k.key)
    ensures var c := ChildFrom(w, k, i, nonCompliant);
            c.Some? ==> i <= c.value.childIndex < 0x1_0000_0000 && IsChild(w, k, c.value.childIndex, data, c.value) &&
                        DataFor(w, k, c.value.childIndex, nonCompliant, data)
    decreases MAX_INDEX - i
  {
    hide ChildFrom, PrivateData, DataFor, IsChild, HasKey, IsKey, Sized;
    data := [];
    SearchStep(w, k, i, nonCompliant);
    if i < MAX_INDEX {
      if HasKey(w, k, i, nonCompliant) {
        data := PrivateData(w, k, i, nonCompliant);
        DataIs(w, k, i, nonCompliant);
        FoundChild(w, k, i, nonCompliant);
      } else {
        data := ChildIs(w, k, i + 1, nonCompliant);
      }
    }
  }

  lemma FoundChild(w: World, k: PrivateKey, i: nat, nonCompliant: bool)
    requires Sized(w) && i < MAX_INDEX && HasKey(w, k, i, nonCompliant)
    ensures var c := ChildFrom(w, k, i, nonCompliant);
            c.Some? && IsChild(w, k, i, PrivateData(w, k, i, nonCompliant), c.value)
  {
    hide PrivateData, BigEndian;
  }

  /**
   * Deriving from a private key: the child's index is the one asked for or a later one, and its key is the left
   * half of the hash of that very index plus the parent's key, modulo the order of the group.
   */
  lemma PrivateChildIs(w: World, k: PrivateKey, index: int, hardened: bool, nonCompliant: bool) returns (data: Bytes)
    requires Sized(w) && IsKey(k.key)
    ensures var c, asked := PrivateChild(w, k, index, hardened, nonCompliant), Asked(index, hardened);
            && (c.Some? ==>
                  0 <= asked <= c.value.childIndex < 0x1_0000_0000 &&
                  IsChild(w, k, c.value.childIndex, data, c.value) &&
                  DataFor(w, k, c.value.childIndex, nonCompliant, data))
            && (asked < 0 || asked >= 0x1_0000_0000 ==> c.None?)
  {
    hide ChildFrom, DataFor, IsChild, IsKey, Sized;
    data := [];
    if 0 <= Asked(index, hardened) < 0x1_0000_0000 { data := ChildIs(w, k, Asked(index, hardened), nonCompliant); }
  }

  lemma {:induction false} SkippedHaveNoKey(w: World, k: PrivateKey, i: nat, nonCompliant: bool, j: nat)
    requires Sized(w) && i <= j < 0x1_0000_0000
    requires var c := ChildFrom(w, k, i, nonCompliant); c.Some? ==> j < c.value.childIndex
    ensures !HasKey(w, k, j, nonCompliant)
    decreases MAX_INDEX - i
  {
    hide ChildFrom, HasKey, Sized;
    SearchStep(w, k, i, nonCompliant);
    if !HasKey(w, k, i, nonCompliant) && i < j { SkippedHaveNoKey(w, k, i + 1, nonCompliant, j); }
  }

  lemma NoKeyMeansZero(w: World, k: PrivateKey, j: nat, nonCompliant: bool)
    requires Sized(w)
    ensures var sum := (BigEndian(w.hmac(PrivateData(w, k, j, nonCompliant), k.chainCode)[..32]) + k.key) % Ecdsa.N;
            !HasKey(w, k, j, nonCompliant) ==> sum == 0
  {
    hide PrivateData, BigEndian;
  }

  /**
   * An index is only passed over if its hash cancels the parent's key, whether a child is found later or not: the
   * child of a valid index is the one at the first index, from the one asked for, where that does not happen.
   */
  lemma OnlyZeroIsSkipped(w: World, k: PrivateKey, index: int, hardened: bool, nonCompliant: bool, j: nat)
    returns (data: Bytes)
    requires Sized(w) && IsKey(k.key) && 0 <= Asked(index, hardened) <= j < 0x1_0000_0000
    requires var c := PrivateChild(w, k, index, hardened, nonCompliant); c.Some? ==> j < c.value.childIndex
    ensures DataFor(w, k, j, nonCompliant, data) &&
            (BigEndian(w.hmac(data, k.chainCode)[..32]) + k.key) % Ecdsa.N == 0
  {
    hide ChildFrom, HasKey, DataFor, PrivateData, BigEndian, Sized, IsKey;
    data := PrivateData(w, k, j, nonCompliant);
    DataIs(w, k, j, nonCompliant);
    SkippedHaveNoKey(w, k, Asked(index, hardened), nonCompliant, j);
    NoKeyMeansZero(w, k, j, nonCompliant);
  }

  /** The same for a public key: the left half of the hash times G is added to its point. */
  predicate IsPublicChild(w: World, k: PublicKey, j: nat, data: Bytes, c: PublicKey)
    requires Sized(w)
  {
    var h := w.hmac(data, k.chainCode);
    && c.point == (BigEndian(h[..32]) + k.point) % Ecdsa.N && c.point != 0 && c.chainCode == h[32..]
    && c.childIndex == j && c.depth == (k.depth + 1) % 256
    && c.parentFingerPrint == w.hash160(w.compressed(k.point))[..4] && c.network == k.network
  }

  lemma {:induction false} PublicChildIs(w: World, k: PublicKey, index: int, hardened: bool) returns (data: Bytes)
    requires Sized(w)
    ensures var c := PublicChild(w, k, index, hardened);
            && (c.Some? ==>
                  !hardened && 0 <= index <= c.value.childIndex < 0x8000_0000 &&
                  IsPublicChild(w, k, c.value.childIndex, data, c.value) &&
                  PlainData(w.compressed(k.point), c.value.childIndex, data))
            && (hardened || index < 0 || index >= 0x8000_0000 ==> c.None?)
    decreases HARDENED - index
  {
    hide PublicChild, PlainData, IsPublicChild, HasPoint, Sized;
    data := [];
    PublicStep(w, k, index, hardened);
    if 0 <= index < HARDENED && !hardened {
      if HasPoint(w, k, index) {
        data := w.compressed(k.point) + IndexBuffer(index);
        PointThenIndex(w.compressed(k.point), index);
      } else {
        data := PublicChildIs(w, k, index + 1, false);
      }
    }
  }

  /** The search stops at an index that gives a point, and moves on from any other. */
  lemma PublicStep(w: World, k: PublicKey, index: int, hardened: bool)
    requires Sized(w)
    ensures var c := PublicChild(w, k, index, hardened);
            if hardened || index < 0 || index >= HARDENED then c.None?
            else if HasPoint(w, k, index) then
              c.Some? && c.value.childIndex == index &&
              IsPublicChild(w, k, index, w.compressed(k.point) + IndexBuffer(index), c.value)
            else c == PublicChild(w, k, index + 1, false)
  {
    hide IndexBuffer, BigEndian;
  }

  // ---------- paths ----------

  predicate Indexes(path: seq<int>) { forall i :: 0 <= i < |path| ==> 0 <= path[i] < 0x1_0000_0000 }

  lemma PathIsDescent(w: World, k: PrivateKey, path: seq<int>, nonCompliant: bool)
    requires Sized(w)
    ensures PrivatePath(w, k, path, nonCompliant) ==
            if Indexes(path) then Descend(w, k, path, nonCompliant) else None
  {
    hide Descend, Sized;
    if !Indexes(path) {
      var i :| 0 <= i < |path| && !(0 <= path[i] < 0x1_0000_0000);
      assert !IsValidIndex(path[i], false);
    }
  }

  lemma {:induction false} DescentsCompose(w: World, k: PrivateKey, p: seq<int>, q: seq<int>, nonCompliant: bool)
    requires Sized(w)
    ensures var c := Descend(w, k, p, nonCompliant);
            Descend(w, k, p + q, nonCompliant) == if c.None? then None else Descend(w, c.value, q, nonCompliant)
    decreases |p|
  {
    hide PrivateChild, Sized;
    if p == [] {
      assert p + q == q;
    } else {
      assert (p + q)[1..] == p[1..] + q;
      var c := PrivateChild(w, k, p[0], false, nonCompliant);
      if c.Some? { DescentsCompose(w, c.value, p[1..], q, nonCompliant); }
    }
  }

  /** A path is followed from left to right, one child after the other. */
  lemma PathsCompose(w: World, k: PrivateKey, p: seq<int>, q: seq<int>, i: int, nonCompliant: bool)
    requires Sized(w) && Indexes(p) && Indexes(q) && 0 <= i < 0x1_0000_0000
    ensures var c := PrivatePath(w, k, p, nonCompliant);
            PrivatePath(w, k, p + q, nonCompliant) == if c.None? then None else PrivatePath(w, c.value, q, nonCompliant)
    ensures PrivatePath(w, k, [i], nonCompliant) == PrivateChild(w, k, i, false, nonCompliant)
    ensures PrivatePath(w, k, [], nonCompliant) == Some(k)
  {
    hide PrivatePath, Descend, PrivateChild, Sized;
    DescentsCompose(w, k, p, q, nonCompliant);
    PathIsDescent(w, k, p, nonCompliant);
    PathIsDescent(w, k, p + q, nonCompliant);
    PathIsDescent(w, k, [i], nonCompliant);
    PathIsDescent(w, k, [], nonCompliant);
    OneStep(w, k, i, nonCompliant);
    if PrivatePath(w, k, p, nonCompliant).Some? {
      PathIsDescent(w, PrivatePath(w, k, p, nonCompliant).value, q, nonCompliant);
    }
  }

  lemma OneStep(w: World, k: PrivateKey, i: int, nonCompliant: bool)
    requires Sized(w)
    ensures Descend(w, k, [i], nonCompliant) == PrivateChild(w, k, i, false, nonCompliant)
    ensures Descend(w, k, [], nonCompliant) == Some(k)
  {
    hide PrivateChild, Sized;
    assert [i][1..] == [];
    var c := PrivateChild(w, k, i, false, nonCompliant);
    if c.Some? { NoStep(w, c.value, nonCompliant); }
  }

  lemma NoStep(w: World, k: PrivateKey, nonCompliant: bool)
    requires Sized(w)
    ensures Descend(w, k, [], nonCompliant) == Some(k)
  {
  }
}
