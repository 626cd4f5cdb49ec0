/** The escrow script depends on which keys it is given, not on their order. */
module EscrowOrder {
  import opened Bytes
  import opened NumBuffers
  import opened ScriptNum
  import opened Script
  import opened Escrow

  lemma {:induction false} LexTotal(a: Bytes, b: Bytes)
    requires !LexLess(a, b) && !LexLess(b, a)
    ensures a == b
  {
    if a != [] && b != [] {
      LexTotal(a[1..], b[1..]);
      assert a == [a[0]] + a[1..] && b == [b[0]] + b[1..];
    }
  }

  lemma {:induction false} LexTransitive(a: Bytes, b: Bytes, c: Bytes)
    requires !LexLess(b, a) && !LexLess(c, b)
    ensures !LexLess(c, a)
  {
    if a != [] && b != [] && c != [] && a[0] == b[0] == c[0] { LexTransitive(a[1..], b[1..], c[1..]); }
  }

  lemma {:induction false} LexAsymmetric(a: Bytes, b: Bytes)
    requires LexLess(a, b)
    ensures !LexLess(b, a)
  {
    if a != [] && b != [] && a[0] == b[0] { LexAsymmetric(a[1..], b[1..]); }
  }

  ghost predicate Sorted(s: seq<Bytes>) {
    forall i, j :: 0 <= i < j < |s| ==> !LexLess(s[j], s[i])
  }

  ghost predicate AtMost(x: Bytes, s: seq<Bytes>) { forall y :: y in s ==> !LexLess(y, x) }

  lemma {:induction false} InsertSorts(k: Bytes, sorted: seq<Bytes>)
    requires Sorted(sorted)
    ensures Sorted(Insert(k, sorted))
  {
    hide LexLess;
    if sorted == [] {
    } else if LexLess(k, sorted[0]) {
      LexAsymmetric(k, sorted[0]);
      forall j | 0 <= j < |sorted| ensures !LexLess(sorted[j], k) {
        LexTransitive(k, sorted[0], sorted[j]) by {
          if j == 0 { LexIrreflexive(sorted[0]); }
        }
      }
    } else {
      var rest := Insert(k, sorted[1..]);
      InsertSorts(k, sorted[1..]);
      HeadAtMost(sorted);
      forall y | y in rest ensures !LexLess(y, sorted[0]) {
        assert y in multiset(rest);
      }
    }
  }

  lemma LexIrreflexive(a: Bytes)
    ensures !LexLess(a, a)
  {
    if LexLess(a, a) { LexAsymmetric(a, a); }
  }

  lemma HeadAtMost(s: seq<Bytes>)
    requires Sorted(s) && s != []
    ensures AtMost(s[0], s)
  {
    hide LexLess;
    LexIrreflexive(s[0]);
  }

  lemma {:induction false} SortSorts(keys: seq<Bytes>)
    ensures Sorted(SortKeys(keys))
  {
    if keys != [] {
      SortSorts(keys[1..]);
      InsertSorts(keys[0], SortKeys(keys[1..]));
    }
  }

  lemma {:induction false} SortedUnique(s: seq<Bytes>, t: seq<Bytes>)
    requires Sorted(s) && Sorted(t) && multiset(s) == multiset(t)
    ensures s == t
  {
    hide LexLess, Sorted, AtMost;
    if s == [] {
      assert |multiset(t)| == 0;
    } else {
      assert s[0] in multiset(t);
      SameHead(s, t);
      Tail(s);
      Tail(t);
      SortedUnique(s[1..], t[1..]);
    }
  }

  lemma SameHead(s: seq<Bytes>, t: seq<Bytes>)
    requires s != [] && t != [] && Sorted(s) && Sorted(t) && s[0] in t && t[0] in multiset(s)
    ensures s[0] == t[0]
  {
    hide LexLess, Sorted;
    HeadAtMost(s);
    HeadAtMost(t);
    LexTotal(s[0], t[0]);
  }

  lemma Tail(s: seq<Bytes>)
    requires s != [] && Sorted(s)
    ensures Sorted(s[1..]) && multiset(s[1..]) == multiset(s) - multiset{s[0]} && s == [s[0]] + s[1..]
  {
    hide LexLess;
    assert s == [s[0]] + s[1..];
  }

  /** The same keys in another order give the same root. */
  lemma RootIgnoresOrder(env: Env, keys: seq<Bytes>, other: seq<Bytes>)
    requires keys != [] && multiset(keys) == multiset(other)
    ensures other != [] && RootOfKeys(env, keys) == RootOfKeys(env, other)
  {
    hide SortKeys, CeilLog2, Pow2, HashAll, MerkleRoot, LexLess;
    assert |multiset(keys)| == |multiset(other)|;
    SortSorts(keys);
    SortSorts(other);
    SortedUnique(SortKeys(keys), SortKeys(other));
  }

  lemma ScriptIgnoresOrder(env: Env, keys: seq<Bytes>, other: seq<Bytes>, reclaimKey: Bytes)
    requires keys != [] && multiset(keys) == multiset(other)
    ensures other != [] && RedeemScript(env, keys, reclaimKey) == RedeemScript(env, other, reclaimKey)
  {
    hide RootOfKeys, Repeat, HashKey, MatchRoot, CheckReclaimKey;
    assert |multiset(keys)| == |multiset(other)|;
    RootIgnoresOrder(env, keys, other);
    if |keys| == 1 {
      assert keys[0] in multiset(other);
    }
  }

  // ---------- which order it is ----------

  /** On keys of one length the order is that of the numbers they spell, big-endian. */
  lemma {:induction false} LexIsNumeric(a: Bytes, b: Bytes)
    requires |a| == |b|
    ensures LexLess(a, b) <==> BigEndian(a) < BigEndian(b)
  {
    hide BigEndian, Pow256, LexLess;
    if a != [] {
      LexIsNumeric(a[1..], b[1..]);
      FirstByte(a);
      FirstByte(b);
      LexFirst(a, b);
      TwoDigits(Pow256(|a| - 1), a[0], BigEndian(a[1..]), b[0], BigEndian(b[1..]));
    } else {
      assert !LexLess(a, b) by { LexIrreflexive(a); }
    }
  }

  lemma LexFirst(a: Bytes, b: Bytes)
    requires a != [] && b != []
    ensures LexLess(a, b) <==> a[0] < b[0] || (a[0] == b[0] && LexLess(a[1..], b[1..]))
  {
  }

  lemma TwoDigits(p: nat, x: nat, u: nat, y: nat, v: nat)
    requires u < p && v < p
    ensures p * x + u < p * y + v <==> x < y || (x == y && u < v)
  {
    if x < y { MulMonotone(p, x + 1, y); }
    if y < x { MulMonotone(p, y + 1, x); }
  }

  lemma FirstByte(a: Bytes)
    requires a != []
    ensures BigEndian(a) == Pow256(|a| - 1) * a[0] + BigEndian(a[1..]) && BigEndian(a[1..]) < Pow256(|a| - 1)
  {
    hide LittleEndian, Pow256;
    var t := a[1..];
    var r := Reversed(t);
    assert Reversed(a) == r + [a[0]] by { HeadLast(a); }
    LittleEndianSnoc(r, a[0]);
    LittleEndianBound(r);
  }

  lemma HeadLast(a: Bytes)
    requires a != []
    ensures Reversed(a) == Reversed(a[1..]) + [a[0]]
  {
  }

  /** The leaves of the tree: the keys from the smallest to the largest, and then empty strings. */
  lemma LeavesAscend(keys: seq<Bytes>, i: nat, j: nat)
    requires keys != [] && (forall k :: 0 <= k < |keys| ==> |keys[k]| == |keys[0]|)
    ensures |LeafValues(keys)| >= |keys| && multiset(LeafValues(keys)[..|keys|]) == multiset(keys)
    ensures i < j < |keys| ==> BigEndian(LeafValues(keys)[i]) <= BigEndian(LeafValues(keys)[j])
    ensures |keys| <= i < |LeafValues(keys)| ==> LeafValues(keys)[i] == []
  {
    hide SortKeys, LexLess, BigEndian, CeilLog2, Pow2;
    SortSorts(keys);
    CeilLog2Least(|keys|);
    var sorted, leaves := SortKeys(keys), LeafValues(keys);
    assert leaves[..|keys|] == sorted;
    if i < j < |keys| {
      SameLength(keys, sorted, i);
      SameLength(keys, sorted, j);
      LexIsNumeric(sorted[j], sorted[i]);
    }
  }

  lemma SameLength(keys: seq<Bytes>, sorted: seq<Bytes>, i: nat)
    requires keys != [] && (forall k :: 0 <= k < |keys| ==> |keys[k]| == |keys[0]|)
    requires multiset(sorted) == multiset(keys) && i < |sorted|
    ensures |sorted[i]| == |keys[0]|
  {
    assert sorted[i] in multiset(sorted);
    assert sorted[i] in multiset(keys);
  }
}
