/** Schnorr signatures over the same group: the nonce is flipped until its point has a square y. */
module Schnorr {
  import opened Ecdsa
  import M = Modular

  /** The hash of r, the signer's point and the message, as a number. */
  type Challenge = (nat, nat, nat) -> nat

  /** The nonce that is used: the opposite one when y is not a square. */
  function Flipped(c: Curve, k: nat): (k': nat)
    requires Point(c, k)
    ensures Point(c, k')
  {
    if c.hasSquare(k) then k else c.n - k
  }

  /** _findSignature with the nonce k */
  function Sign(c: Curve, challenge: Challenge, d: nat, m: nat, k: nat): Sig
    requires Point(c, k)
  {
    var r := c.x(k);
    Sig(r, Umod(c, challenge(r, d, m) * d + Flipped(c, k)))
  }

  /** sigError with a 32-byte hash and a public key that is not infinity: whether it finds nothing wrong. */
  predicate Verifies(c: Curve, challenge: Challenge, d: nat, m: nat, sig: Sig) {
    && sig.r < c.p && sig.s < c.n
    && var e := Umod(c, challenge(sig.r, d, m));
       var point := Umod(c, sig.s + d * (c.n - e));
       point != 0 && c.hasSquare(point) && c.x(point) == sig.r
  }

  /** k, whose point has a square y, is the nonce of this signature. */
  predicate MadeWithNonce(c: Curve, challenge: Challenge, d: nat, m: nat, sig: Sig, k: nat) {
    Point(c, k) && c.hasSquare(k) && c.x(k) == sig.r && sig.s == Umod(c, challenge(sig.r, d, m) * d + k)
  }

  /** Subtracting e times the key takes the challenge out of s, and only the nonce's point is left. */
  lemma NonceLeft(n: int, e0: int, e: int, d: int, k: int, s: int)
    requires n > 1 && e == e0 % n && 0 <= s < n
    ensures s == (e0 * d + k) % n ==> (s + d * (n - e)) % n == k % n
    ensures k == (s + d * (n - e)) % n ==> s == (e0 * d + k) % n
  {
    M.Small(s, n);
    M.Reduced(e0, n);
    M.Mul(e, e0, d, n);
    Moved(n, d, e);
    if s == (e0 * d + k) % n {
      M.Reduced(e0 * d + k, n);
      M.Add(s, e0 * d + k, d * (n - e), n);
      M.Add(e * d, e0 * d, k + d * (n - e), n);
      M.Shift(k, d, n);
    }
    if k == (s + d * (n - e)) % n {
      M.Reduced(s + d * (n - e), n);
      M.Add(k, s + d * (n - e), e0 * d, n);
      M.Add(e * d, e0 * d, s + d * (n - e), n);
      M.Shift(s, d, n);
    }
  }

  lemma Moved(n: int, d: int, e: int)
    ensures e * d + d * (n - e) == n * d
  {
  }

  /** A signature verifies exactly when some nonce with a square y makes it. */
  lemma VerifiesIff(c: Curve, challenge: Challenge, d: nat, m: nat, sig: Sig)
    requires sig.r < c.p && sig.s < c.n
    ensures Verifies(c, challenge, d, m, sig) <==> exists k: nat :: MadeWithNonce(c, challenge, d, m, sig, k)
  {
    var e0 := challenge(sig.r, d, m);
    var e := Umod(c, e0);
    var point := Umod(c, sig.s + d * (c.n - e));
    NonceLeft(c.n, e0, e, d, point, sig.s);
    if Verifies(c, challenge, d, m, sig) {
      assert MadeWithNonce(c, challenge, d, m, sig, point);
    }
    if k: nat :| MadeWithNonce(c, challenge, d, m, sig, k) {
      NonceLeft(c.n, e0, e, d, k, sig.s);
      M.Small(k, c.n);
    }
  }

  /** Whichever way the nonce was flipped, the signature passes its own verifier. */
  lemma SignedVerifies(c: Curve, challenge: Challenge, d: nat, m: nat, k: nat)
    requires Lawful(c) && Point(c, k)
    ensures Verifies(c, challenge, d, m, Sign(c, challenge, d, m, k))
  {
    var sig := Sign(c, challenge, d, m, k);
    assert MadeWithNonce(c, challenge, d, m, sig, Flipped(c, k));
    VerifiesIff(c, challenge, d, m, sig);
  }
}
