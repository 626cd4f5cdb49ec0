/**
 * ECDSA and Schnorr over a cyclic group of prime order. A point is written as the number that G is
 * multiplied with; the coordinates of a point are functions of it.
 */
module Ecdsa {
  import opened Bytes
  import opened NumBuffers
  import opened Script
  import M = Modular

  /** The order of the group of secp256k1, the modulus of its coordinates, and the bound of toLowS and hasLowS. */
  const N: nat := 0xFFFFFFFFFFFFFFFFFFFFFFFFFFFFFFFEBAAEDCE6AF48A03BBFD25E8CD0364141
  const P: nat := 0xFFFFFFFFFFFFFFFFFFFFFFFFFFFFFFFFFFFFFFFFFFFFFFFFFFFFFFFEFFFFFC2F
  const HALF: nat := 0x7FFFFFFFFFFFFFFFFFFFFFFFFFFFFFFF5D576E7357A4501DDFE92F46681B20A0

  type Order = n: nat | n > 2 witness 3

  /**
   * What the library of curve arithmetic provides: the order n of the group, the modulus p of coordinates,
   * the coordinates themselves, and inverse, which is invm(n).
   */
  datatype Curve = Curve(n: Order, p: nat, x: nat -> nat, odd: nat -> bool, hasSquare: nat -> bool,
                         fromX: (bool, nat) -> Option<nat>, inverse: nat -> nat)

  /** The points other than infinity. */
  predicate Point(c: Curve, k: int) { 0 < k < c.n }

  /** The bound of toLowS and hasLowS. */
  function Half(c: Curve): nat { c.n / 2 }

  /** The facts of the curve that signatures rest on: opposite points share x and differ in y. */
  ghost predicate Lawful(c: Curve) {
    && c.n % 2 == 1 && c.n < c.p < 2 * c.n
    && (forall k: nat :: Point(c, k) ==> c.x(k) < c.p && c.x(c.n - k) == c.x(k))
    && (forall k: nat :: Point(c, k) ==> c.odd(c.n - k) == !c.odd(k))
    && (forall k: nat :: Point(c, k) ==> c.hasSquare(c.n - k) == !c.hasSquare(k))
    && (forall k: nat :: Point(c, k) ==> c.fromX(c.odd(k), c.x(k)) == Some(k))
    && (forall k: nat :: Point(c, k) ==> (k * c.inverse(k)) % c.n == 1)
  }

  /** The constants in the code are those of such a curve. */
  lemma ConstantsFit()
    ensures HALF == N / 2 && N % 2 == 1 && 2 < N < P < 2 * N
  {
  }

  /** A curve to calculate with: x is the smaller of k and n - k, and odd means the larger. */
  function SmallestX(n: Order, p: nat, inverse: nat -> nat): Curve {
    var half := n / 2;
    Curve(n, p, k => if k <= half || k > n then k else n - k, k => k > half, k => k > half,
          (odd, x) => if x <= half then Some(if odd then n - x else x) else None, inverse)
  }

  /** With any inverse modulo n such a curve keeps the laws. */
  lemma SmallestXLawful(n: Order, p: nat, inverse: nat -> nat)
    requires n % 2 == 1 && n < p < 2 * n && forall k: nat :: 0 < k < n ==> (k * inverse(k)) % n == 1
    ensures Lawful(SmallestX(n, p, inverse))
  {
    var c := SmallestX(n, p, inverse);
    forall k: nat | Point(c, k)
      ensures c.x(k) < c.p && c.x(c.n - k) == c.x(k) && c.odd(c.n - k) == !c.odd(k)
      ensures c.hasSquare(c.n - k) == !c.hasSquare(k) && c.fromX(c.odd(k), c.x(k)) == Some(k)
    {
      SmallestXOpposite(n, p, inverse, k);
    }
  }

  lemma SmallestXOpposite(n: Order, p: nat, inverse: nat -> nat, k: nat)
    requires n % 2 == 1 && n < p && 0 < k < n
    ensures var c := SmallestX(n, p, inverse);
            && c.x(k) < p && c.x(n - k) == c.x(k) && c.odd(n - k) == !c.odd(k)
            && c.hasSquare(n - k) == !c.hasSquare(k) && c.fromX(c.odd(k), c.x(k)) == Some(k)
  {
  }

  /** The laws contradict nothing: the group of order 11 keeps them. */
  lemma LawsAreConsistent()
    ensures exists c: Curve :: Lawful(c) && c.n == 11
  {
    SmallestXLawful(11, 13, InverseMod11);
    assert Lawful(SmallestX(11, 13, InverseMod11));
  }

  function InverseMod11(k: nat): nat {
    if k < 11 then [0, 1, 6, 4, 3, 9, 2, 8, 7, 5, 10][k] else 0
  }

  datatype Sig = Sig(r: nat, s: nat)

  function Umod(c: Curve, a: int): (r: nat)
    ensures r < c.n
  {
    a % c.n
  }

  // ---------- signing ----------

  /** r and s for one nonce, before the low-S rule. */
  function Attempt(c: Curve, d: nat, e: nat, k: nat): Sig {
    var r := Umod(c, c.x(k));
    Sig(r, Umod(c, c.inverse(k) * (e + d * r)))
  }

  function ToLowS(c: Curve, s: nat): nat
    requires s < c.n
  {
    if s > Half(c) then c.n - s else s
  }

  predicate HasLowS(c: Curve, s: nat) { 1 <= s <= Half(c) }

  predicate Usable(sig: Sig) { sig.r > 0 && sig.s > 0 }

  /** The nonce of one attempt: a preset one first, and then what deterministicK makes of the attempt's number. */
  function Candidate(preset: Option<nat>, nonce: nat -> nat, i: nat): nat {
    if i == 0 && preset.Some? then preset.value else nonce(i)
  }

  /** The first nonce, from the given attempt on, whose r and s are not zero. */
  function FirstUsable(c: Curve, d: nat, e: nat, preset: Option<nat>, nonce: nat -> nat, at: nat, limit: nat): (k: nat)
    requires at <= limit
    ensures (forall i :: at <= i <= limit ==> Point(c, Candidate(preset, nonce, i))) ==> Point(c, k)
    decreases limit - at
  {
    var k := Candidate(preset, nonce, at);
    if Usable(Attempt(c, d, e, k)) || at == limit then k else FirstUsable(c, d, e, preset, nonce, at + 1, limit)
  }

  /** The nonce found is the preset one if it works, and else the first deterministic one that does. */
  lemma {:induction false} FirstUsableIs(c: Curve, d: nat, e: nat, preset: Option<nat>, nonce: nat -> nat, at: nat,
                                         limit: nat)
    returns (i: nat)
    requires at <= limit
    ensures at <= i <= limit && FirstUsable(c, d, e, preset, nonce, at, limit) == (
              if i == 0 && preset.Some? then preset.value else nonce(i))
    ensures forall j :: at <= j < i ==>
                     !Usable(Attempt(c, d, e, if j == 0 && preset.Some? then preset.value else nonce(j)))
    ensures i < limit ==> Usable(Attempt(c, d, e, FirstUsable(c, d, e, preset, nonce, at, limit)))
    decreases limit - at
  {
    hide Attempt;
    if Usable(Attempt(c, d, e, Candidate(preset, nonce, at))) || at == limit {
      i := at;
    } else {
      i := FirstUsableIs(c, d, e, preset, nonce, at + 1, limit);
    }
  }

  lemma AttemptRange(c: Curve, d: nat, e: nat, k: nat)
    ensures Attempt(c, d, e, k).r < c.n && Attempt(c, d, e, k).s < c.n
  {
  }

  // ---------- verifying ----------

  /** sigError with a 32-byte hash: whether it finds nothing wrong. d is the point of the public key. */
  predicate Verifies(c: Curve, d: nat, e: nat, sig: Sig) {
    && Point(c, sig.r) && Point(c, sig.s)
    && var sinv := c.inverse(sig.s);
       var p := Umod(c, Umod(c, sinv * e) + Umod(c, sinv * sig.r) * d);
       p != 0 && Umod(c, c.x(p)) == sig.r
  }

  /** k is a nonce that this signature could have been made with. */
  predicate MadeWith(c: Curve, d: nat, e: nat, sig: Sig, k: nat) {
    Point(c, k) && Umod(c, c.x(k)) == sig.r && Umod(c, k * sig.s) == Umod(c, e + d * sig.r)
  }

  /** What the verification computes, in one product. */
  lemma ComputedPoint(n: int, sinv: int, e: int, r: int, d: int)
    requires n > 1
    ensures ((sinv * e) % n + (sinv * r) % n * d) % n == ((e + d * r) * sinv) % n
  {
    M.Reduced(sinv * r, n);
    M.Mul((sinv * r) % n, sinv * r, d, n);
    M.Add((sinv * r) % n * d, (sinv * r) * d, (sinv * e) % n, n);
    M.Reduced(sinv * e, n);
    M.Add((sinv * e) % n, sinv * e, (sinv * r) * d, n);
    Factor(sinv, e, r, d);
  }

  /** The verification equation: the point that is computed is the nonce's. */
  lemma VerifiedPoint(n: int, s: int, sinv: int, e: int, r: int, d: int, k: int)
    requires n > 1 && (s * sinv) % n == 1 && (k * s) % n == (e + d * r) % n
    ensures ((sinv * e) % n + (sinv * r) % n * d) % n == k % n
  {
    ComputedPoint(n, sinv, e, r, d);
    M.Mul(k * s, e + d * r, sinv, n);
    M.Unit(k, s, sinv, n);
  }

  /** The point that verification computes satisfies the signing equation. */
  lemma PointIsNonce(n: int, s: int, sinv: int, e: int, r: int, d: int, p: int)
    requires n > 1 && (s * sinv) % n == 1 && p == ((sinv * e) % n + (sinv * r) % n * d) % n
    ensures (p * s) % n == (e + d * r) % n
  {
    ComputedPoint(n, sinv, e, r, d);
    M.Reduced((e + d * r) * sinv, n);
    M.Mul(p, (e + d * r) * sinv, s, n);
    Commute(s, sinv);
    M.Unit(e + d * r, sinv, s, n);
  }

  lemma Commute(a: int, b: int)
    ensures a * b == b * a
  {
  }

  lemma Factor(sinv: int, e: int, r: int, d: int)
    ensures sinv * e + (sinv * r) * d == (e + d * r) * sinv
  {
  }

  /** A signature verifies exactly when some nonce makes it. */
  lemma VerifiesIff(c: Curve, d: nat, e: nat, sig: Sig)
    requires Lawful(c)
    ensures Verifies(c, d, e, sig) <==> Point(c, sig.r) && Point(c, sig.s) && exists k: nat :: MadeWith(c, d, e, sig, k)
  {
    if Point(c, sig.r) && Point(c, sig.s) {
      var sinv := c.inverse(sig.s);
      assert (sig.s * sinv) % c.n == 1;
      var p := Umod(c, Umod(c, sinv * e) + Umod(c, sinv * sig.r) * d);
      if Verifies(c, d, e, sig) {
        PointIsNonce(c.n, sig.s, sinv, e, sig.r, d, p);
        assert MadeWith(c, d, e, sig, p);
      }
      if k: nat :| MadeWith(c, d, e, sig, k) {
        VerifiedPoint(c.n, sig.s, sinv, e, sig.r, d, k);
        M.Small(k, c.n);
      }
    }
  }

  // ---------- a fresh signature verifies ----------

  /** The nonce that stands behind the signature once s has been made low. */
  function NonceBehind(c: Curve, k: nat, s0: nat): (k': nat)
    requires Point(c, k)
    ensures Point(c, k')
  {
    if s0 > Half(c) then c.n - k else k
  }

  lemma NegateBoth(n: int, k: int, s: int)
    requires n > 0
    ensures ((n - k) * (n - s)) % n == (k * s) % n
  {
    Expanded(n, k, s);
    M.Shift(k * s, n - k - s, n);
  }

  lemma Expanded(n: int, k: int, s: int)
    ensures (n - k) * (n - s) == k * s + n * (n - k - s)
  {
    assert (n - k) * (n - s) == n * (n - s) - k * (n - s);
    assert n * (n - k - s) == n * (n - s) - n * k;
    assert k * (n - s) == k * n - k * s;
  }

  lemma AttemptEquation(n: int, k: int, kinv: int, m: int, s0: int)
    requires n > 1 && (k * kinv) % n == 1 && s0 == (kinv * m) % n
    ensures (k * s0) % n == m % n
  {
    M.Reduced(kinv * m, n);
    M.Mul(s0, kinv * m, k, n);
    Rearranged(kinv, m, k);
    M.Unit(m, k, kinv, n);
    Commute(s0, k);
  }

  lemma Rearranged(kinv: int, m: int, k: int)
    ensures (kinv * m) * k == (m * k) * kinv
  {
  }

  /** Every usable attempt gives a low-S signature that passes verification. */
  lemma SignedVerifies(c: Curve, d: nat, e: nat, k: nat)
    requires Lawful(c) && Point(c, k) && Usable(Attempt(c, d, e, k))
    ensures var sig := Attempt(c, d, e, k).(s := ToLowS(c, Attempt(c, d, e, k).s));
            HasLowS(c, sig.s) && 2 * sig.s < c.n && Verifies(c, d, e, sig) &&
              MadeWith(c, d, e, sig, NonceBehind(c, k, Attempt(c, d, e, k).s))
  {
    hide Verifies;
    var attempt := Attempt(c, d, e, k);
    var s0, k' := attempt.s, NonceBehind(c, k, attempt.s);
    var sig := attempt.(s := ToLowS(c, s0));
    AttemptEquation(c.n, k, c.inverse(k), e + d * attempt.r, s0);
    if s0 > Half(c) { NegateBoth(c.n, k, s0); }
    assert MadeWith(c, d, e, sig, k');
    VerifiesIff(c, d, e, sig);
  }

  // ---------- recovering the public key ----------

  /**
   * The point that the recovery index i names: the parity of y, and whether r was reduced. None stands for an
   * exception.
   */
  function CandidatePoint(c: Curve, sig: Sig, i: nat): Option<nat>
    requires i < 4
  {
    var isYOdd, isSecondKey := i % 2 == 1, i / 2 == 1;
    c.fromX(isYOdd, if isSecondKey then sig.r + c.n else sig.r)
  }

  /** toPublicKey for the recovery index i; e is the number that it reads from the hash. */
  function Recover(c: Curve, e: nat, sig: Sig, i: nat): Option<nat>
    requires i < 4
  {
    match CandidatePoint(c, sig, i)
    case None => None
    case Some(point) => Some(Umod(c, (point * sig.s + Umod(c, 0 - e)) * c.inverse(sig.r)))
  }

  /** The candidate satisfies the signing equation of the key d. */
  predicate Fits(c: Curve, d: nat, e: nat, sig: Sig, point: nat) { Umod(c, point * sig.s) == Umod(c, e + d * sig.r) }

  lemma RecoveredKey(n: int, k: int, s: int, e: int, d: int, r: int, rinv: int)
    requires n > 1 && (r * rinv) % n == 1
    ensures (k * s) % n == (e + d * r) % n ==> ((k * s + (-e) % n) * rinv) % n == d % n
    ensures ((k * s + (-e) % n) * rinv) % n == d % n ==> (k * s) % n == (e + d * r) % n
  {
    var m := (-e) % n;
    M.Reduced(-e, n);
    if (k * s) % n == (e + d * r) % n {
      M.Add(k * s, e + d * r, m, n);
      M.Add(m, -e, e + d * r, n);
      M.Mul(k * s + m, d * r, rinv, n);
      M.Unit(d, r, rinv, n);
    }
    if ((k * s + m) * rinv) % n == d % n {
      M.Mul((k * s + m) * rinv, d, r, n);
      Commute(r, rinv);
      M.Unit(k * s + m, rinv, r, n);
      M.Add(k * s + m, d * r, e, n);
      M.Add(m, -e, k * s + e, n);
    }
  }

  /** Recovery with an index gives the key d exactly when the candidate point fits the number read. */
  lemma RecoversIff(c: Curve, d: nat, e: nat, sig: Sig, i: nat)
    requires Lawful(c) && Point(c, d) && Point(c, sig.r) && i < 4
    ensures Recover(c, e, sig, i) == Some(d) <==>
            CandidatePoint(c, sig, i).Some? && Fits(c, d, e, sig, CandidatePoint(c, sig, i).value)
  {
    hide CandidatePoint;
    assert (sig.r * c.inverse(sig.r)) % c.n == 1;
    M.Small(d, c.n);
    if CandidatePoint(c, sig, i).Some? {
      RecoveredKey(c.n, CandidatePoint(c, sig, i).value, sig.s, e, d, sig.r, c.inverse(sig.r));
    }
  }

  /** The index that names the nonce's point: its parity, and whether x was reduced. */
  function IndexOf(c: Curve, k: nat): (i: nat)
    requires c.x(k) < c.p
    ensures i < 4
  {
    (if c.odd(k) then 1 else 0) + (if c.x(k) >= c.n then 2 else 0)
  }

  lemma OneReduction(c: Curve, x: nat)
    requires x < c.p < 2 * c.n
    ensures x == if x >= c.n then Umod(c, x) + c.n else Umod(c, x)
  {
    if x >= c.n {
      M.Shift(x - c.n, 1, c.n);
      M.Small(x - c.n, c.n);
    } else {
      M.Small(x, c.n);
    }
  }

  /** The nonce's point, and the opposite one, are candidates: with its index, and with the other parity. */
  lemma OwnCandidates(c: Curve, sig: Sig, k: nat)
    requires Lawful(c) && Point(c, k) && Umod(c, c.x(k)) == sig.r
    ensures c.x(k) < c.p && c.x(c.n - k) == c.x(k) &&
            IndexOf(c, c.n - k) == (if IndexOf(c, k) % 2 == 1 then IndexOf(c, k) - 1 else IndexOf(c, k) + 1)
    ensures CandidatePoint(c, sig, IndexOf(c, k)) == Some(k) &&
            CandidatePoint(c, sig, IndexOf(c, c.n - k)) == Some(c.n - k)
  {
    OneReduction(c, c.x(k));
    var i, j := IndexOf(c, k), IndexOf(c, c.n - k);
    assert c.fromX(c.odd(k), c.x(k)) == Some(k);
    assert c.fromX(c.odd(c.n - k), c.x(c.n - k)) == Some(c.n - k);
  }

  lemma SameReading(n: int, e: int, e2: int, a: int)
    requires n > 1
    ensures (e + a) % n == (e2 + a) % n <==> e % n == e2 % n
  {
    if (e + a) % n == (e2 + a) % n { M.Add(e + a, e2 + a, -a, n); }
    if e % n == e2 % n { M.Add(e, e2, a, n); }
  }

  /**
   * A signature made with the number e and read with e2: the index of the nonce's point recovers the
   * signer's key exactly when the two numbers agree modulo c.n.
   */
  lemma RecoversFromNonce(c: Curve, d: nat, e: nat, e2: nat, sig: Sig, k: nat)
    requires Lawful(c) && Point(c, d) && Point(c, sig.r) && MadeWith(c, d, e, sig, k)
    ensures c.x(k) < c.p && (Recover(c, e2, sig, IndexOf(c, k)) == Some(d) <==> e % c.n == e2 % c.n)
  {
    hide CandidatePoint, Recover;
    OwnCandidates(c, sig, k);
    RecoversIff(c, d, e2, sig, IndexOf(c, k));
    SameReading(c.n, e, e2, d * sig.r);
  }

  /**
   * The index is the parity of the nonce's y, plus two if its x was reduced: with it the key of a signature is
   * recovered from the number that was signed.
   */
  lemma RecoveryIndex(c: Curve, d: nat, e: nat, sig: Sig, k: nat, i: nat)
    requires Lawful(c) && Point(c, d) && Point(c, sig.r) && MadeWith(c, d, e, sig, k)
    requires i == (if c.odd(k) then 1 else 0) + (if c.x(k) >= c.n then 2 else 0)
    ensures i < 4 && Recover(c, e, sig, i) == Some(d)
  {
    hide Recover, Lawful;
    RecoversFromNonce(c, d, e, e, sig, k);
  }

  /** The opposite point fits a second number: the one that cancels the first and twice the key's share. */
  lemma OppositeFits(n: int, k: int, s: int, e: int, e2: int, a: int)
    requires n > 1 && (k * s) % n == (e + a) % n
    ensures ((n - k) * s) % n == (e2 + a) % n <==> (e + e2 + 2 * a) % n == 0
  {
    assert (n - k) * s == -(k * s) + n * s by { Opposite(n, k, s); }
    M.Shift(-(k * s), s, n);
    if ((n - k) * s) % n == (e2 + a) % n {
      M.Add(-(k * s), e2 + a, k * s, n);
      M.Add(k * s, e + a, e2 + a, n);
      M.Small(0, n);
    }
    if (e + e2 + 2 * a) % n == 0 {
      M.Add(k * s, e + a, e2 + a, n);
      M.Small(0, n);
      M.Add(k * s + (e2 + a), 0, -(k * s), n);
    }
  }

  lemma Opposite(n: int, k: int, s: int)
    ensures (n - k) * s == -(k * s) + n * s
  {
  }

  /** One of the two candidates whose x differs from the nonce's fits. */
  ghost predicate StrayFits(c: Curve, d: nat, e: nat, sig: Sig, k: nat)
    requires c.x(k) < c.p
  {
    exists i: nat :: i < 4 && i / 2 != IndexOf(c, k) / 2 && CandidateFits(c, d, e, sig, i)
  }

  ghost predicate CandidateFits(c: Curve, d: nat, e: nat, sig: Sig, i: nat)
    requires i < 4
  {
    CandidatePoint(c, sig, i).Some? && Fits(c, d, e, sig, CandidatePoint(c, sig, i).value)
  }

  /** calci finds an index: some candidate recovers the signer's key. */
  ghost predicate Recoverable(c: Curve, d: nat, e: nat, sig: Sig) {
    exists i: nat :: i < 4 && Recover(c, e, sig, i) == Some(d)
  }

  /**
   * The exact condition for a signature made with e and read with e2: the numbers agree, or they cancel
   * with twice the key's share, or a point with the other x fits by chance.
   */
  lemma RecoverableIff(c: Curve, d: nat, e: nat, e2: nat, sig: Sig, k: nat)
    requires Lawful(c) && Point(c, d) && Point(c, sig.r) && MadeWith(c, d, e, sig, k)
    ensures c.x(k) < c.p
    ensures Recoverable(c, d, e2, sig) <==>
            e % c.n == e2 % c.n || (e + e2 + 2 * (d * sig.r)) % c.n == 0 || StrayFits(c, d, e2, sig, k)
  {
    hide Recover, CandidatePoint, Fits, Lawful;
    OwnCandidates(c, sig, k);
    var own, other := IndexOf(c, k), IndexOf(c, c.n - k);
    RecoversFromNonce(c, d, e, e2, sig, k);
    OtherParity(c, d, e, e2, sig, k);
    forall i: nat | i < 4 ensures Recover(c, e2, sig, i) == Some(d) <==> CandidateFits(c, d, e2, sig, i) {
      RecoversIff(c, d, e2, sig, i);
    }
    assert forall i: nat :: i < 4 && i / 2 == own / 2 ==> i == own || i == other;
  }

  lemma OtherParity(c: Curve, d: nat, e: nat, e2: nat, sig: Sig, k: nat)
    requires Lawful(c) && Point(c, d) && Point(c, sig.r) && MadeWith(c, d, e, sig, k)
    ensures c.x(c.n - k) < c.p &&
            (Recover(c, e2, sig, IndexOf(c, c.n - k)) == Some(d) <==> (e + e2 + 2 * (d * sig.r)) % c.n == 0)
  {
    hide CandidatePoint, Recover;
    OwnCandidates(c, sig, k);
    RecoversIff(c, d, e2, sig, IndexOf(c, c.n - k));
    OppositeFits(c.n, k, sig.s, e, e2, d * sig.r);
  }

  // ---------- the object ----------

  /** The number that sign and sigError read from the hash. */
  function Reading(hashbuf: Bytes, little: bool): nat { BigEndian(if little then Reversed(hashbuf) else hashbuf) }

  lemma ReadingIs(hashbuf: Bytes)
    ensures Reading(hashbuf, true) == LittleEndian(hashbuf) && Reading(hashbuf, false) == BigEndian(hashbuf)
  {
    assert Reversed(Reversed(hashbuf)) == hashbuf;
  }

  /** ECDSA: the hash with its byte order, the key, the nonce and the signature. The public key is the point of d. */
  class ECDSA {
    const c: Curve
    const d: nat
    /** deterministicK(i) of a key and of a hash in big-endian order */
    const nonce: (nat, Bytes, nat) -> nat
    var hashbuf: Bytes
    var little: bool
    var k: Option<nat>
    var sig: Sig
    var i: Option<nat>

    constructor (c: Curve, d: nat, nonce: (nat, Bytes, nat) -> nat, hashbuf: Bytes, little: bool)
      ensures this.c == c && this.d == d && this.nonce == nonce
      ensures this.hashbuf == hashbuf && this.little == little && this.k == None
    {
      this.c, this.d, this.nonce := c, d, nonce;
      this.hashbuf, this.little, this.k, this.sig, this.i := hashbuf, little, None, Sig(0, 0), None;
    }

    function Nonces(): nat -> nat
      reads `hashbuf, `little
    {
      var (d, nonce, hash) := (d, nonce, if little then Reversed(hashbuf) else hashbuf);
      j => nonce(d, hash, j)
    }

    /** Some attempt up to the limit works; otherwise the loop has no end. */
    ghost predicate Ends(limit: nat)
      reads `hashbuf, `little, `k
    {
      Usable(Attempt(c, d, Reading(hashbuf, little), Candidate(k, Nonces(), limit)))
    }

    method DeterministicK(badrs: nat)
      modifies this`k
      ensures k == Some(Nonces()(badrs))
    {
      k := Some(nonce(d, if little then Reversed(hashbuf) else hashbuf, badrs));
    }

    /** _findSignature: a nonce that is already there is tried first, and the nonce that worked stays there. */
    method FindSignature(e: nat, ghost limit: nat) returns (r: Sig)
      requires Usable(Attempt(c, d, e, Candidate(k, Nonces(), limit)))
      modifies this`k
      ensures k == Some(FirstUsable(c, d, e, old(k), Nonces(), 0, limit))
      ensures Usable(Attempt(c, d, e, k.value)) &&
              r == Attempt(c, d, e, k.value).(s := ToLowS(c, Attempt(c, d, e, k.value).s))
    {
      hide Attempt, Umod, Nonces, ToLowS;
      ghost var preset, nonces := k, Nonces();
      var badrs := 0;
      if k.None? || badrs > 0 { DeterministicK(badrs); }
      badrs := badrs + 1;
      r := Attempt(c, d, e, k.value);
      while r.r <= 0 || r.s <= 0
        invariant 1 <= badrs <= limit + 1 && Nonces() == nonces
        invariant k == Some(Candidate(preset, nonces, badrs - 1)) && r == Attempt(c, d, e, k.value)
        invariant FirstUsable(c, d, e, preset, nonces, 0, limit) ==
                  FirstUsable(c, d, e, preset, nonces, badrs - 1, limit)
        decreases limit + 1 - badrs
      {
        if k.None? || badrs > 0 { DeterministicK(badrs); }
        badrs := badrs + 1;
        r := Attempt(c, d, e, k.value);
      }
      AttemptRange(c, d, e, k.value);
      r := Sig(r.r, ToLowS(c, r.s));
    }

    /** sign. Throws unless the hash has 32 bytes. */
    method Sign(ghost limit: nat) returns (ok: bool)
      requires |hashbuf| == 32 ==> Ends(limit)
      modifies this`k, this`sig, this`i
      ensures ok == (|hashbuf| == 32)
      ensures ok ==> k == Some(FirstUsable(c, d, Reading(hashbuf, little), old(k), Nonces(), 0, limit))
      ensures ok ==> Usable(Attempt(c, d, Reading(hashbuf, little), k.value))
      ensures ok ==> sig == Fresh(c, d, Reading(hashbuf, little), k.value)
      ensures ok && Lawful(c) && Point(c, k.value) ==>
                HasLowS(c, sig.s) && Verifies(c, d, Reading(hashbuf, little), sig)
      ensures ok && old(k).Some? && Usable(Attempt(c, d, Reading(hashbuf, little), old(k).value)) ==> k == old(k)
    {
      hide Attempt, Reading, Lawful, Verifies;
      if |hashbuf| != 32 { return false; }
      sig := FindSignature(Reading(hashbuf, little), limit);
      i := None;
      if Lawful(c) && Point(c, k.value) { SignedVerifies(c, d, Reading(hashbuf, little), k.value); }
      return true;
    }

    /** verify: whether sigError finds nothing wrong. */
    method Verify() returns (verified: bool)
      ensures verified <==> |hashbuf| == 32 && Verifies(c, d, Reading(hashbuf, little), sig)
    {
      if |hashbuf| != 32 { return false; }
      var r, s := sig.r, sig.s;
      if !(r > 0 && r < c.n) || !(s > 0 && s < c.n) { return false; }
      var e := Reading(hashbuf, little);
      var sinv := c.inverse(s);
      var u1, u2 := Umod(c, sinv * e), Umod(c, sinv * r);
      var p := Umod(c, u1 + u2 * d);
      if p == 0 { return false; }
      return Umod(c, c.x(p)) == r;
    }

    /** calci: the first index whose recovered key is the signer's; fails with an exception if there is none. */
    method CalcI() returns (ok: bool)
      modifies this`i
      ensures ok <==> Recoverable(c, d, BigEndian(hashbuf), sig)
      ensures ok ==> i.Some? && i.value < 4 && Recover(c, BigEndian(hashbuf), sig, i.value) == Some(d) &&
                     forall j :: 0 <= j < i.value ==> Recover(c, BigEndian(hashbuf), sig, j) != Some(d)
      ensures !ok ==> i.None?
    {
      hide Recover, BigEndian;
      for j := 0 to 4
        invariant forall l :: 0 <= l < j ==> Recover(c, BigEndian(hashbuf), sig, l) != Some(d)
      {
        i := Some(j);
        var q := Recover(c, BigEndian(hashbuf), sig, j);
        if q == Some(d) { return true; }
      }
      i := None;
      return false;
    }
  }

  /** The signature that a nonce gives, in low-S form. */
  function Fresh(c: Curve, d: nat, e: nat, k: nat): Sig {
    var attempt := Attempt(c, d, e, k);
    attempt.(s := ToLowS(c, attempt.s))
  }

  // ---------- does calci find the signer? ----------

  /**
   * sign reads the hash with its byte order, recovery always reads it big-endian. For every fresh signature
   * calci succeeds if the two numbers agree modulo c.n, as they do for a big-endian hash, and otherwise
   * exactly in the two accidental cases.
   */
  lemma FreshSignatureRecovers(c: Curve, d: nat, hashbuf: Bytes, little: bool, k: nat)
    requires Lawful(c) && Point(c, d) && Point(c, k) && Usable(Attempt(c, d, Reading(hashbuf, little), k))
    ensures var e, e2 := Reading(hashbuf, little), BigEndian(hashbuf);
            var sig, k' := Fresh(c, d, e, k), NonceBehind(c, k, Attempt(c, d, e, k).s);
            && c.x(k') < c.p
            && (!little ==> Recoverable(c, d, e2, sig))
            && (Recoverable(c, d, e2, sig) <==>
                e % c.n == e2 % c.n || (e + e2 + 2 * (d * sig.r)) % c.n == 0 || StrayFits(c, d, e2, sig, k'))
  {
    hide Recoverable, StrayFits, Verifies, BigEndian;
    var e := Reading(hashbuf, little);
    SignedVerifies(c, d, e, k);
    AttemptRange(c, d, e, k);
    RecoverableIff(c, d, e, BigEndian(hashbuf), Fresh(c, d, e, k), NonceBehind(c, k, Attempt(c, d, e, k).s));
  }

  const TWO_248: nat := 0x1_0000_0000_0000_0000_0000_0000_0000_0000_0000_0000_0000_0000_0000_0000_0000_00

  /** The hash 01 00 ... 00. */
  function FirstByteOne(): (h: Bytes)
    ensures |h| == 32
  {
    [1] + seq(31, _ => 0)
  }

  lemma FirstByteReadings()
    ensures Reading(FirstByteOne(), true) == 1 && BigEndian(FirstByteOne()) == Pow256(31)
  {
    hide LittleEndian, Pow256;
    var zeros: Bytes := seq(31, _ => 0);
    var h := FirstByteOne();
    ZerosValue(zeros);
    assert Reversed(h) == zeros + [1];
    LittleEndianSnoc(zeros, 1);
    assert Reversed(Reversed(h)) == [1] + zeros;
    OneThenZeros(zeros);
  }

  lemma OneThenZeros(zeros: Bytes)
    requires LittleEndian(zeros) == 0
    ensures LittleEndian([1] + zeros) == 1
  {
    assert ([1] + zeros)[1..] == zeros;
  }

  lemma Pow256Of31()
    ensures Pow256(31) == TWO_248
  {
    assert Pow256(8) == 0x1_0000_0000_0000_0000;
    assert Pow256(16) == 0x1_0000_0000_0000_0000_0000_0000_0000_0000;
    assert Pow256(24) == 0x1_0000_0000_0000_0000_0000_0000_0000_0000_0000_0000_0000_0000;
  }

  /**
   * Where it fails: key and nonce 1, the hash 01 00 ... 00 in little-endian order. The signature verifies,
   * and no index recovers the key.
   */
  lemma LittleEndianFails(inverse: nat -> nat)
    requires forall k: nat :: 0 < k < N ==> (k * inverse(k)) % N == 1
    ensures var c, h := SmallestX(N, P, inverse), FirstByteOne();
            var sig := Fresh(c, 1, Reading(h, true), 1);
            && Lawful(c) && Usable(Attempt(c, 1, Reading(h, true), 1)) && Verifies(c, 1, Reading(h, true), sig)
            && !Recoverable(c, 1, BigEndian(h), sig)
  {
    hide BigEndian, Verifies, Pow256;
    var c, h := SmallestX(N, P, inverse), FirstByteOne();
    ConstantsFit();
    SmallestXLawful(N, P, inverse);
    FirstByteReadings();
    Pow256Of31();
    UnitAttempt(c);
    SignedVerifies(c, 1, 1, 1);
    FreshSignatureRecovers(c, 1, h, true, 1);
    M.Small(1, c.n);
    M.Small(Pow256(31), c.n);
    M.Small(Pow256(31) + 3, c.n);
    var sig := Fresh(c, 1, 1, 1);
    assert !StrayFits(c, 1, BigEndian(h), sig, 1);
  }

  lemma UnitAttempt(c: Curve)
    requires c.x(1) == 1 && (1 * c.inverse(1)) % c.n == 1
    ensures Attempt(c, 1, 1, 1) == Sig(1, 2)
  {
    M.Small(1, c.n);
    M.Mul(c.inverse(1), 1, 2, c.n);
    M.Small(2, c.n);
  }
}
