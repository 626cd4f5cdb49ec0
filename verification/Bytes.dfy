/** Byte strings as values, and byte buffers as views into shared memory. */
module Bytes {

  type Byte = x: int | 0 <= x < 256
  type Bytes = seq<Byte>

  function Reversed<T>(s: seq<T>): (r: seq<T>)
    ensures |r| == |s|
    ensures forall i :: 0 <= i < |s| ==> r[i] == s[|s| - 1 - i]
  {
    seq(|s|, i requires 0 <= i < |s| => s[|s| - 1 - i])
  }

  /** No two different strings of the set have the same hash. */
  ghost predicate NoCollision(hash: Bytes -> Bytes, hashed: set<Bytes>) {
    forall x, y :: x in hashed && y in hashed && hash(x) == hash(y) ==> x == y
  }

  function Pow256(k: nat): (p: nat)
    ensures p > 0
  {
    if k == 0 then 1 else 256 * Pow256(k - 1)
  }

  /** The number a little-endian byte string stands for. */
  function LittleEndian(b: Bytes): nat
  {
    if b == [] then 0 else b[0] + 256 * LittleEndian(b[1..])
  }

  lemma MulAssociative(x: int, y: int, z: int)
    ensures x * (y * z) == (x * y) * z
  {
  }

  lemma {:induction false} LittleEndianConcat(a: Bytes, b: Bytes)
    ensures LittleEndian(a + b) == LittleEndian(a) + Pow256(|a|) * LittleEndian(b)
  {
    if a == [] {
      assert a + b == b;
    } else {
      LittleEndianConcat(a[1..], b);
      assert (a + b)[1..] == a[1..] + b;
      MulAssociative(256, Pow256(|a| - 1), LittleEndian(b));
    }
  }

  lemma LittleEndianSnoc(a: Bytes, x: Byte)
    ensures LittleEndian(a + [x]) == LittleEndian(a) + Pow256(|a|) * x
  {
    LittleEndianConcat(a, [x]);
    assert LittleEndian([x]) == x;
  }

  lemma {:induction false} LittleEndianBound(b: Bytes)
    ensures LittleEndian(b) < Pow256(|b|)
  {
    if b != [] {
      LittleEndianBound(b[1..]);
    }
  }

  lemma MulMonotone(p: nat, x: int, y: int)
    requires x <= y
    ensures p * x <= p * y
  {
  }

  lemma UniqueQuotient(d: nat, q: int, r: int, q': int, r': int)
    requires 0 <= r < d && 0 <= r' < d && d * q + r == d * q' + r'
    ensures q == q'
  {
    if q > q' {
      MulMonotone(d, q' + 1, q);
    } else if q < q' {
      MulMonotone(d, q + 1, q');
    }
  }

  lemma Quotient(x: int, d: nat, q: int, r: int)
    requires 0 <= r < d && x == d * q + r
    ensures x / d == q
  {
    UniqueQuotient(d, q, r, x / d, x % d);
  }

  /** Where a value lies, seen from its most significant byte. */
  lemma TopByteRange(rest: Bytes, x: Byte)
    ensures var v, p := LittleEndian(rest + [x]), Pow256(|rest|);
            && (x >= 1 ==> v >= p)
            && (x >= 128 ==> v >= 128 * p)
            && (x < 128 ==> v < 128 * p)
            && v < 256 * p
  {
    LittleEndianSnoc(rest, x);
    LittleEndianBound(rest);
    var p := Pow256(|rest|);
    if x >= 1 { MulMonotone(p, 1, x); }
    if x >= 128 { MulMonotone(p, 128, x); } else { MulMonotone(p, x, 127); }
    MulMonotone(p, x, 255);
  }

  /** The base-256 digits of n, least significant first; zero has the single digit 0. */
  function Digits(n: nat): (d: Bytes)
    ensures |d| >= 1
  {
    if n < 256 then [n] else [n % 256] + Digits(n / 256)
  }

  lemma {:induction false} DigitsValue(n: nat)
    ensures LittleEndian(Digits(n)) == n
    ensures n > 0 ==> Digits(n)[|Digits(n)| - 1] != 0
  {
    if n < 256 {
      assert LittleEndian([n]) == n;
    } else {
      DigitsValue(n / 256);
      assert Digits(n)[1..] == Digits(n / 256);
    }
  }

  /** A digit string without a leading zero is the only one for its value. */
  lemma {:induction false} DigitsUnique(b: Bytes)
    requires b != [] && (|b| == 1 || b[|b| - 1] != 0)
    ensures Digits(LittleEndian(b)) == b
  {
    if |b| == 1 {
      assert LittleEndian(b) == b[0];
    } else {
      var t := b[1..];
      DigitsUnique(t);
      var v := LittleEndian(t);
      assert Digits(v) == t;
      assert LittleEndian(b) == b[0] + 256 * v;
      assert (b[0] + 256 * v) % 256 == b[0] && (b[0] + 256 * v) / 256 == v;
      assert b == [b[0]] + t;
    }
  }

  /** A Node.js Buffer: a window [lo, hi) of memory that other buffers may share. */
  datatype Buf = Buf(mem: array<Byte>, lo: nat, hi: nat) {

    ghost predicate Valid() {
      lo <= hi <= mem.Length
    }

    /** The view is all there is of its memory. */
    ghost predicate Whole() {
      lo == 0 && hi == mem.Length
    }

    function Len(): (n: int) {
      hi - lo
    }

    function Data(): (d: Bytes)
      reads mem
      requires Valid()
      ensures |d| == Len()
    {
      mem[lo..hi]
    }

    /** buf.slice(0, n): a view of the same memory. */
    function Prefix(n: nat): (b: Buf)
      reads mem
      requires Valid() && n <= Len()
      ensures b.Valid() && b.mem == mem && b.lo == lo && b.hi <= hi && b.Data() == Data()[..n]
    {
      Buf(mem, lo, lo + n)
    }
  }

  /** Buffer.from(bytes): memory that nothing else can see. */
  method FromBytes(d: Bytes) returns (b: Buf)
    ensures b.Valid() && fresh(b.mem) && b.Whole() && b.Data() == d
  {
    var m := new Byte[|d|](i requires 0 <= i < |d| => d[i]);
    b := Buf(m, 0, |d|);
  }

  /** buf[at] = x. */
  method SetByte(buf: Buf, at: nat, x: Byte)
    requires buf.Valid() && at < buf.Len()
    modifies buf.mem
    ensures buf.Data() == old(buf.Data())[at := x]
    ensures buf.mem[..] == old(buf.mem[..])[buf.lo + at := x]
  {
    buf.mem[buf.lo + at] := x;
  }
}
