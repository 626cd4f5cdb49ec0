/** Hierarchical keys (BIP 32): child derivation from a private key, and from its public key alone. */
module HdKeys {
  import opened Bytes
  import opened NumBuffers
  import opened Script
  import Ecdsa

  const HARDENED: nat := 0x8000_0000
  const MAX_INDEX: nat := 0x1_0000_0000

  /** A key with the left half of a hash added, modulo the order of the group; and the range of keys. */
  function AddedTo(key: nat, left: nat): nat { (left + key) % Ecdsa.N }
  predicate IsKey(k: int) { 0 < k < Ecdsa.N }

  /** HMAC-SHA512 of data under a chain code, the key hash, and the compressed form of a point. */
  datatype World = World(hmac: (Bytes, Bytes) -> Bytes, hash160: Bytes -> Bytes, compressed: nat -> Bytes)

  ghost predicate Sized(w: World) {
    (forall data, chainCode :: |w.hmac(data, chainCode)| == 64) && (forall b :: |w.hash160(b)| == 20)
  }

  /** An extended private key. */
  datatype PrivateKey = PrivateKey(network: string, depth: nat, parentFingerPrint: Bytes, childIndex: nat,
                                   chainCode: Bytes, key: nat)

  /** An extended public key; the point is written as the number G is multiplied with. */
  datatype PublicKey = PublicKey(network: string, depth: nat, parentFingerPrint: Bytes, childIndex: nat,
                                 chainCode: Bytes, point: nat)

  /** HDPublicKey._buildFromPrivate */
  function Neutered(k: PrivateKey): PublicKey {
    PublicKey(k.network, k.depth, k.parentFingerPrint, k.childIndex, k.chainCode, k.key)
  }

  /** integerAsBuffer: four bytes, big-endian. */
  function IndexBuffer(i: nat): Bytes {
    [(i / 0x100_0000) % 256, (i / 0x1_0000) % 256, (i / 0x100) % 256, i % 256]
  }

  function Last<T>(s: seq<T>, n: nat): seq<T> { if n <= |s| then s[|s| - n..] else s }

  /** bn.toBuffer({size: 32}) of a private key. */
  function KeyBuffer(key: nat): Bytes {
    var b := Reversed(Digits(key));
    if |b| >= 32 then Last(b, 32) else seq(32 - |b|, _ => 0) + b
  }

  /** What is hashed for child i of a private key. The non-compliant form leaves the key unpadded. */
  function PrivateData(w: World, k: PrivateKey, i: nat, nonCompliant: bool): Bytes {
    if i < HARDENED then w.compressed(k.key) + IndexBuffer(i)
    else if nonCompliant then [0] + Reversed(Digits(k.key)) + IndexBuffer(i)
    else [0] + KeyBuffer(k.key) + IndexBuffer(i)
  }

  function LeftPart(hash: Bytes): nat
    requires |hash| == 64
  {
    BigEndian(hash[..32])
  }

  function FingerPrint(w: World, point: nat): Bytes
    requires |w.hash160(w.compressed(point))| == 20
  {
    w.hash160(w.compressed(point))[..4]
  }

  /** HDPrivateKey.isValidPath of a number. */
  predicate IsValidIndex(index: int, hardened: bool) {
    var arg := if index < HARDENED && hardened then index + HARDENED else index;
    0 <= arg < MAX_INDEX
  }

  /** _deriveWithNumber once the index says whether it is hardened; None stands for an exception. */
  function ChildFrom(w: World, k: PrivateKey, i: nat, nonCompliant: bool): (c: Option<PrivateKey>)
    requires Sized(w)
    decreases MAX_INDEX - i
  {
    if i >= MAX_INDEX then None
    else
      var hash := w.hmac(PrivateData(w, k, i, nonCompliant), k.chainCode);
      var key := AddedTo(k.key, LeftPart(hash));
      if !IsKey(key) then ChildFrom(w, k, i + 1, nonCompliant)
      else Some(PrivateKey(k.network, (k.depth + 1) % 256, FingerPrint(w, k.key), i, hash[32..], key))
  }

  /** HDPrivateKey._deriveWithNumber */
  function PrivateChild(w: World, k: PrivateKey, index: int, hardened: bool, nonCompliant: bool): Option<PrivateKey>
    requires Sized(w)
  {
    if !IsValidIndex(index, hardened) then None
    else ChildFrom(w, k, if index < HARDENED && hardened then index + HARDENED else index, nonCompliant)
  }

  /** HDPublicKey._deriveWithNumber; a point at infinity throws inside and moves on to the next index. */
  function PublicChild(w: World, k: PublicKey, index: int, hardened: bool): Option<PublicKey>
    requires Sized(w)
    decreases HARDENED - index
  {
    if index >= HARDENED || hardened || index < 0 then None
    else
      var hash := w.hmac(w.compressed(k.point) + IndexBuffer(index), k.chainCode);
      var point := AddedTo(k.point, LeftPart(hash));
      if point == 0 then PublicChild(w, k, index + 1, false)
      else Some(PublicKey(k.network, (k.depth + 1) % 256, FingerPrint(w, k.point), index, hash[32..], point))
  }

  // ---------- one step ----------

  /** The private search ended before the hardened range. */
  predicate Soft(c: Option<PrivateKey>) { c.Some? && c.value.childIndex < HARDENED }

  /** Index j gives a child of the public key: its point is not infinity. */
  predicate HasPoint(w: World, k: PublicKey, j: nat)
    requires Sized(w)
  {
    AddedTo(k.point, LeftPart(w.hmac(w.compressed(k.point) + IndexBuffer(j), k.chainCode))) != 0
  }

  /** Some index from i on gives a child before the hardened range begins. */
  ghost predicate HasChildFrom(w: World, k: PublicKey, i: int)
    requires Sized(w)
  {
    exists j: nat :: i <= j < HARDENED && HasPoint(w, k, j)
  }

  /**
   * Deriving from the public key gives the public half of the private child exactly when some index before
   * the hardened range gives a child, and throws otherwise; the private search then ends in that range.
   */
  lemma {:induction false} ChildCommutes(w: World, k: PrivateKey, i: nat, nonCompliant: bool)
    requires Sized(w) && i <= HARDENED
    ensures var c, pub := ChildFrom(w, k, i, nonCompliant), Neutered(k);
            && (Soft(c) <==> HasChildFrom(w, pub, i))
            && PublicChild(w, pub, i, false) == if HasChildFrom(w, pub, i) then Some(Neutered(c.value)) else None
    decreases HARDENED - i
  {
    hide Sized, PublicChild, ChildFrom, HasPoint, HasKey;
    if i < HARDENED {
      ChildCommutes(w, k, i + 1, nonCompliant);
      SameStep(w, k, i, nonCompliant);
      SamePoint(w, k, i, nonCompliant);
      assert HasChildFrom(w, Neutered(k), i) <==> HasPoint(w, Neutered(k), i) || HasChildFrom(w, Neutered(k), i + 1);
    } else {
      NotBelow(w, k, i, nonCompliant);
      TooHigh(w, k, i);
    }
  }

  lemma SamePoint(w: World, k: PrivateKey, i: nat, nonCompliant: bool)
    requires Sized(w) && i < HARDENED
    ensures HasPoint(w, Neutered(k), i) <==> HasKey(w, k, i, nonCompliant)
  {
    hide Sized, IndexBuffer, LeftPart;
  }

  lemma TooHigh(w: World, k: PrivateKey, i: nat)
    requires Sized(w) && i >= HARDENED
    ensures PublicChild(w, Neutered(k), i, false).None?
  {
  }

  /** At a non-hardened index both sides hash the same data, and both find the same key or move on. */
  lemma SameStep(w: World, k: PrivateKey, i: nat, nonCompliant: bool)
    requires Sized(w) && i < HARDENED
    ensures if HasKey(w, k, i, nonCompliant) then
              ChildFrom(w, k, i, nonCompliant).Some? && ChildFrom(w, k, i, nonCompliant).value.childIndex == i &&
              PublicChild(w, Neutered(k), i, false) == Some(Neutered(ChildFrom(w, k, i, nonCompliant).value))
            else
              ChildFrom(w, k, i, nonCompliant) == ChildFrom(w, k, i + 1, nonCompliant) &&
              PublicChild(w, Neutered(k), i, false) == PublicChild(w, Neutered(k), i + 1, false)
  {
    hide Sized, IndexBuffer, LeftPart, FingerPrint;
  }

  /** The search only moves up, to the first index whose key is valid. */
  lemma {:induction false} NotBelow(w: World, k: PrivateKey, i: nat, nonCompliant: bool)
    requires Sized(w)
    ensures var c := ChildFrom(w, k, i, nonCompliant);
            c.Some? ==> i <= c.value.childIndex < MAX_INDEX && IsKey(c.value.key) &&
                        forall j :: i <= j < c.value.childIndex ==> !HasKey(w, k, j, nonCompliant)
    decreases MAX_INDEX - i
  {
    hide ChildFrom, HasKey, Sized;
    SearchStep(w, k, i, nonCompliant);
    if i < MAX_INDEX { NotBelow(w, k, i + 1, nonCompliant); }
  }

  /** The search stops at an index that gives a valid key, and moves on from any other. */
  lemma SearchStep(w: World, k: PrivateKey, i: nat, nonCompliant: bool)
    requires Sized(w)
    ensures var c := ChildFrom(w, k, i, nonCompliant);
            if i >= MAX_INDEX then c.None?
            else if HasKey(w, k, i, nonCompliant) then c.Some? && c.value.childIndex == i && IsKey(c.value.key)
            else c == ChildFrom(w, k, i + 1, nonCompliant)
  {
    hide PrivateData, LeftPart, FingerPrint, AddedTo;
  }

  predicate HasKey(w: World, k: PrivateKey, i: nat, nonCompliant: bool)
    requires Sized(w)
  {
    IsKey(AddedTo(k.key, LeftPart(w.hmac(PrivateData(w, k, i, nonCompliant), k.chainCode))))
  }

  // ---------- paths ----------

  /** _deriveFromString of a private key, the path already read as a list of indexes. */
  function PrivatePath(w: World, k: PrivateKey, path: seq<int>, nonCompliant: bool): Option<PrivateKey>
    requires Sized(w)
  {
    if exists i :: 0 <= i < |path| && !IsValidIndex(path[i], false) then None
    else Descend(w, k, path, nonCompliant)
  }

  function Descend(w: World, k: PrivateKey, path: seq<int>, nonCompliant: bool): Option<PrivateKey>
    requires Sized(w)
    decreases |path|
  {
    if path == [] then Some(k)
    else
      var c := PrivateChild(w, k, path[0], false, nonCompliant);
      if c.None? then None else Descend(w, c.value, path[1..], nonCompliant)
  }

  /** _deriveFromString of a public key. */
  function PublicPath(w: World, k: PublicKey, path: seq<int>): Option<PublicKey>
    requires Sized(w)
  {
    if exists i :: 0 <= i < |path| && !(0 <= path[i] < HARDENED) then None
    else PublicDescend(w, k, path)
  }

  function PublicDescend(w: World, k: PublicKey, path: seq<int>): Option<PublicKey>
    requires Sized(w)
    decreases |path|
  {
    if path == [] then Some(k)
    else
      var c := PublicChild(w, k, path[0], false);
      if c.None? then None else PublicDescend(w, c.value, path[1..])
  }

  /** Every step from the public key finds a child before the hardened range. */
  ghost predicate HasPath(w: World, k: PublicKey, path: seq<int>)
    requires Sized(w)
    decreases |path|
  {
    path == [] ||
    (HasChildFrom(w, k, path[0]) && PublicChild(w, k, path[0], false).Some? &&
     HasPath(w, PublicChild(w, k, path[0], false).value, path[1..]))
  }

  lemma {:induction false} DescendCommutes(w: World, k: PrivateKey, path: seq<int>, nonCompliant: bool)
    requires Sized(w) && forall i :: 0 <= i < |path| ==> 0 <= path[i] < HARDENED
    ensures HasPath(w, Neutered(k), path) ==> Descend(w, k, path, nonCompliant).Some?
    ensures PublicDescend(w, Neutered(k), path) ==
            if HasPath(w, Neutered(k), path) then Some(Neutered(Descend(w, k, path, nonCompliant).value)) else None
    decreases |path|
  {
    hide ChildFrom, PublicChild, Sized, HasChildFrom;
    if path != [] {
      ChildCommutes(w, k, path[0], nonCompliant);
      var c := PrivateChild(w, k, path[0], false, nonCompliant);
      if c.Some? { DescendCommutes(w, c.value, path[1..], nonCompliant); }
    }
  }

  /**
   * For every path of non-hardened indexes, deriving from the public key alone gives exactly the public
   * half of the private derivation: key, chain code, depth, child index and fingerprint. It throws iff
   * at some step no index is left before the hardened range.
   */
  lemma PathCommutes(w: World, k: PrivateKey, path: seq<int>, nonCompliant: bool)
    requires Sized(w) && forall i :: 0 <= i < |path| ==> 0 <= path[i] < HARDENED
    ensures HasPath(w, Neutered(k), path) ==> PrivatePath(w, k, path, nonCompliant).Some?
    ensures PublicPath(w, Neutered(k), path) ==
            if HasPath(w, Neutered(k), path) then Some(Neutered(PrivatePath(w, k, path, nonCompliant).value)) else None
  {
    hide HasPath, Descend, PublicDescend, Sized;
    DescendCommutes(w, k, path, nonCompliant);
  }

  // ---------- where the two part ways ----------

  /** Hashes that leave the key below without a single non-hardened child. */
  function Barren(): World {
    World((data, chainCode) => BarrenHmac(data), b => seq(20, _ => 0), point => [2])
  }

  function BarrenHmac(data: Bytes): (h: Bytes)
    ensures |h| == 64
  {
    if data != [] && data[0] == 0 then seq(64, _ => 0) else Ecdsa.FirstByteOne() + seq(32, _ => 0)
  }

  const BARREN_KEY: nat := Ecdsa.N - Ecdsa.TWO_248

  lemma BarrenHash(i: nat, chainCode: Bytes)
    ensures LeftPart(Barren().hmac([2] + IndexBuffer(i), chainCode)) + BARREN_KEY == Ecdsa.N
  {
    hide BigEndian, IndexBuffer;
    var hash := Barren().hmac([2] + IndexBuffer(i), chainCode);
    assert ([2] + IndexBuffer(i))[0] == 2;
    assert hash == Ecdsa.FirstByteOne() + seq(32, _ => 0);
    assert hash[..32] == Ecdsa.FirstByteOne();
    Ecdsa.FirstByteReadings();
    Ecdsa.Pow256Of31();
  }

  lemma BarrenSized()
    ensures Sized(Barren())
  {
    hide BigEndian;
    var w := Barren();
    forall data, chainCode ensures |w.hmac(data, chainCode)| == 64 {
    }
  }

  lemma FirstHardened(chainCode: Bytes)
    ensures Sized(Barren())
    ensures var c := ChildFrom(Barren(), BarrenKey(chainCode), HARDENED, false);
            c.Some? && c.value.childIndex == HARDENED
  {
    HardenedHash(chainCode);
    BarrenSized();
    hide ChildFrom, PrivateData, Sized;
    SearchStep(Barren(), BarrenKey(chainCode), HARDENED, false);
    Ecdsa.M.Small(BARREN_KEY, Ecdsa.N);
  }

  lemma HardenedHash(chainCode: Bytes)
    ensures LeftPart(Barren().hmac(PrivateData(Barren(), BarrenKey(chainCode), HARDENED, false), chainCode)) == 0
  {
    hide BigEndian, IndexBuffer, KeyBuffer;
    var data := PrivateData(Barren(), BarrenKey(chainCode), HARDENED, false);
    assert data[0] == 0;
    assert Barren().hmac(data, chainCode)[..32] == seq(32, _ => 0);
    ZeroNumber();
  }

  lemma ZeroNumber()
    ensures BigEndian(seq(32, _ => 0)) == 0
  {
    var zeros: Bytes := seq(32, _ => 0);
    assert Reversed(zeros) == zeros;
    ZerosValue(zeros);
  }

  lemma BarrenPoint(chainCode: Bytes, j: nat)
    requires Sized(Barren())
    ensures !HasPoint(Barren(), Neutered(BarrenKey(chainCode)), j)
  {
    BarrenHash(j, chainCode);
  }

  function BarrenKey(chainCode: Bytes): PrivateKey { PrivateKey("livenet", 0, [0, 0, 0, 0], 0, chainCode, BARREN_KEY) }

  /**
   * The last non-hardened index: the public derivation throws, while the private one moves on and returns
   * the first hardened child.
   */
  lemma SkipsIntoHardened(chainCode: Bytes)
    ensures Sized(Barren())
    ensures var k, i := BarrenKey(chainCode), HARDENED - 1;
            && IsKey(k.key) && PublicChild(Barren(), Neutered(k), i, false).None?
            && PrivateChild(Barren(), k, i, false, false).Some?
            && PrivateChild(Barren(), k, i, false, false).value.childIndex == HARDENED
  {
    FirstHardened(chainCode);
    hide Barren, BarrenKey, ChildFrom, PublicChild, HasPoint, HasKey, Sized;
    var k, i := BarrenKey(chainCode), HARDENED - 1;
    ChildCommutes(Barren(), k, i, false);
    SameStep(Barren(), k, i, false);
    SamePoint(Barren(), k, i, false);
    forall j: nat | i <= j < HARDENED ensures !HasPoint(Barren(), Neutered(k), j) {
      BarrenPoint(chainCode, j);
    }
    BarrenIsPoint(chainCode);
  }

  lemma BarrenIsPoint(chainCode: Bytes)
    ensures IsKey(BarrenKey(chainCode).key)
  {
  }
}
