/** The builder that BIP 37 gives for partial Merkle trees, and the proof that the parser takes what it builds. */
module PartialTreeBuilder {
  import opened Bytes
  import opened ScriptNum
  import opened Bitfield
  import opened MerkleTree
  import opened PartialTree

  /** The node is a match or the parent of one. */
  predicate AnyMatch(matches: seq<bool>, k: nat, pos: nat)
    requires pos < Width(|matches|, k)
  {
    if k == 0 then matches[pos]
    else AnyMatch(matches, k - 1, 2 * pos) ||
         (2 * pos + 1 < Width(|matches|, k - 1) && AnyMatch(matches, k - 1, 2 * pos + 1))
  }

  datatype Built = Built(bits: seq<bool>, hashes: seq<Bytes>)

  /** The flag bits and hashes for a node: descend only where something matches. */
  function Build(hash: Bytes -> Bytes, leaves: seq<Bytes>, matches: seq<bool>, k: nat, pos: nat): Built
    requires |leaves| == |matches| && pos < Width(|leaves|, k)
    decreases k
  {
    var parent := AnyMatch(matches, k, pos);
    if k == 0 || !parent then Built([parent], [Node(hash, leaves, k, pos)])
    else
      var l := Build(hash, leaves, matches, k - 1, 2 * pos);
      var r := if 2 * pos + 1 < Width(|leaves|, k - 1) then Build(hash, leaves, matches, k - 1, 2 * pos + 1)
               else Built([], []);
      Built([true] + l.bits + r.bits, l.hashes + r.hashes)
  }

  /** The matched leaves below a node. */
  function MatchedBelow(leaves: seq<Bytes>, matches: seq<bool>, k: nat, pos: nat): seq<Bytes>
    requires |leaves| == |matches| && pos < Width(|leaves|, k)
    decreases k
  {
    if k == 0 then if matches[pos] then [leaves[pos]] else []
    else MatchedBelow(leaves, matches, k - 1, 2 * pos) +
         if 2 * pos + 1 < Width(|leaves|, k - 1) then MatchedBelow(leaves, matches, k - 1, 2 * pos + 1) else []
  }

  /** The matched leaves, in order. */
  function Select(leaves: seq<Bytes>, matches: seq<bool>): seq<Bytes>
    requires |leaves| == |matches|
  {
    if leaves == [] then []
    else (if matches[0] then [leaves[0]] else []) + Select(leaves[1..], matches[1..])
  }

  // ---------- flag bytes ----------

  /** Eight flags to a byte, the first in the lowest bit. */
  function PackByte(bits: seq<bool>): (v: nat)
    ensures v < Pow2(|bits|)
  {
    if bits == [] then 0 else (if bits[0] then 1 else 0) + 2 * PackByte(bits[1..])
  }

  function Pack(bits: seq<bool>): (r: seq<Byte>)
    ensures |bits| <= 8 * |r| < |bits| + 8
  {
    if bits == [] then []
    else
      var n := if |bits| < 8 then |bits| else 8;
      ByteFits(bits[..n]);
      [PackByte(bits[..n])] + Pack(bits[n..])
  }

  lemma ByteFits(bits: seq<bool>)
    requires |bits| <= 8
    ensures PackByte(bits) < 256
  {
    hide PackByte;
    Pow2Of8Bits(|bits|);
  }

  lemma Pow2Of8Bits(n: nat)
    requires n <= 8
    ensures Pow2(n) <= 256
  {
    assert Pow2(8) == 256 && Pow2(7) == 128 && Pow2(6) == 64 && Pow2(5) == 32 && Pow2(4) == 16;
  }

  lemma {:induction false} PackedBit(bits: seq<bool>, i: nat)
    ensures Bit(PackByte(bits), i) <==> i < |bits| && bits[i]
  {
    if bits == [] {
      ZeroShr(i);
    } else {
      var b, rest := if bits[0] then 1 else 0, PackByte(bits[1..]);
      assert (b + 2 * rest) / 2 == rest && (b + 2 * rest) % 2 == b;
      if i > 0 { PackedBit(bits[1..], i - 1); }
    }
  }

  lemma {:induction false} ZeroShr(i: nat)
    ensures Shr(0, i) == 0
  {
    if i > 0 { ZeroShr(i - 1); }
  }

  lemma {:induction false} PackedFlag(bits: seq<bool>, i: nat)
    ensures FlagBit(Pack(bits), i) <==> i < |bits| && bits[i]
  {
    hide Bit, FlagBit, PackByte;
    if bits == [] {
      assert Pack(bits) == [];
      NoFlag(i);
    } else {
      var n := if |bits| < 8 then |bits| else 8;
      ByteFits(bits[..n]);
      FlagCons(PackByte(bits[..n]), Pack(bits[n..]), i);
      PackedBit(bits[..n], i);
      if i >= 8 { PackedFlag(bits[n..], i - 8); }
    }
  }

  lemma NoFlag(i: nat)
    ensures !FlagBit([], i)
  {
  }

  lemma FlagCons(first: Byte, rest: seq<Byte>, i: nat)
    ensures FlagBit([first] + rest, i) == if i < 8 then Bit(first, i) else FlagBit(rest, i - 8)
  {
    hide Bit;
    if i >= 8 { assert i / 8 == (i - 8) / 8 + 1 && i % 8 == (i - 8) % 8; }
  }

  // ---------- the parser reads back what was built ----------

  /** The flags hold these bits from `start` on. */
  ghost predicate Holds(flags: seq<Byte>, start: nat, bits: seq<bool>) {
    && start + |bits| <= 8 * |flags|
    && forall i :: 0 <= i < |bits| ==> FlagBit(flags, start + i) == bits[i]
  }

  lemma HoldsParts(flags: seq<Byte>, start: nat, a: seq<bool>, b: seq<bool>)
    requires Holds(flags, start, [true] + a + b)
    ensures start < 8 * |flags| && FlagBit(flags, start)
    ensures Holds(flags, start + 1, a) && Holds(flags, start + 1 + |a|, b)
  {
    hide FlagBit;
    var all := [true] + a + b;
    assert FlagBit(flags, start + 0) == all[0];
    forall i | 0 <= i < |a| ensures FlagBit(flags, start + 1 + i) == a[i] {
      assert FlagBit(flags, start + (i + 1)) == all[i + 1];
    }
    forall i | 0 <= i < |b| ensures FlagBit(flags, start + 1 + |a| + i) == b[i] {
      assert FlagBit(flags, start + (i + 1 + |a|)) == all[i + 1 + |a|];
    }
  }

  /** The proof holds these hashes from `start` on. */
  ghost predicate HoldsHashes(hashes: seq<Bytes>, start: nat, part: seq<Bytes>) {
    start + |part| <= |hashes| && hashes[start..start + |part|] == part
  }

  lemma HoldsHashesParts(hashes: seq<Bytes>, start: nat, a: seq<Bytes>, b: seq<Bytes>)
    requires HoldsHashes(hashes, start, a + b)
    ensures HoldsHashes(hashes, start, a) && HoldsHashes(hashes, start + |a|, b)
  {
    assert hashes[start..start + |a|] == (a + b)[..|a|] == a;
    assert hashes[start + |a|..start + |a| + |b|] == (a + b)[|a|..] == b;
  }

  lemma BuildDescends(hash: Bytes -> Bytes, leaves: seq<Bytes>, matches: seq<bool>, k: nat, pos: nat)
    requires |leaves| == |matches| && pos < Width(|leaves|, k) && k > 0 && AnyMatch(matches, k, pos)
    ensures 2 * pos < Width(|leaves|, k - 1)
    ensures var l := Build(hash, leaves, matches, k - 1, 2 * pos);
            var left := Node(hash, leaves, k - 1, 2 * pos);
            if 2 * pos + 1 < Width(|leaves|, k - 1) then
              var r := Build(hash, leaves, matches, k - 1, 2 * pos + 1);
              Build(hash, leaves, matches, k, pos) == Built([true] + l.bits + r.bits, l.hashes + r.hashes) &&
              Node(hash, leaves, k, pos) == hash(left + Node(hash, leaves, k - 1, 2 * pos + 1)) &&
              MatchedBelow(leaves, matches, k, pos) ==
              MatchedBelow(leaves, matches, k - 1, 2 * pos) + MatchedBelow(leaves, matches, k - 1, 2 * pos + 1)
            else
              Build(hash, leaves, matches, k, pos) == Built([true] + l.bits + [], l.hashes + []) &&
              Node(hash, leaves, k, pos) == hash(left + left) &&
              MatchedBelow(leaves, matches, k, pos) == MatchedBelow(leaves, matches, k - 1, 2 * pos) + []
  {
  }

  lemma {:induction false} NothingMatched(leaves: seq<Bytes>, matches: seq<bool>, k: nat, pos: nat)
    requires |leaves| == |matches| && pos < Width(|leaves|, k) && !AnyMatch(matches, k, pos)
    ensures MatchedBelow(leaves, matches, k, pos) == []
  {
    if k > 0 {
      NothingMatched(leaves, matches, k - 1, 2 * pos);
      if 2 * pos + 1 < Width(|leaves|, k - 1) { NothingMatched(leaves, matches, k - 1, 2 * pos + 1); }
    }
  }

  /** Where the builder does not descend, the parser does not either. */
  lemma BuiltLeaf(hash: Bytes -> Bytes, p: Proof, leaves: seq<Bytes>, matches: seq<bool>, depth: nat, pos: nat,
                  bits: nat, used: nat)
    requires |leaves| == |matches| == p.n && pos < Width(p.n, depth) && (depth == 0 || !AnyMatch(matches, depth, pos))
    requires Holds(p.flags, bits, Build(hash, leaves, matches, depth, pos).bits)
    requires HoldsHashes(p.hashes, used, Build(hash, leaves, matches, depth, pos).hashes)
    ensures Traverse(hash, p, depth, pos, bits, used, []) ==
            Visit(Hash(Node(hash, leaves, depth, pos)), bits + 1, used + 1, MatchedBelow(leaves, matches, depth, pos))
    ensures |Build(hash, leaves, matches, depth, pos).bits| == 1 == |Build(hash, leaves, matches, depth, pos).hashes|
  {
    hide FlagBit;
    var b := Build(hash, leaves, matches, depth, pos);
    assert FlagBit(p.flags, bits + 0) == b.bits[0];
    assert p.hashes[used] == p.hashes[used..used + 1][0];
    NoDescent(hash, p, depth, pos, bits, used, []);
    if depth > 0 { NothingMatched(leaves, matches, depth, pos); }
  }

  /** The parser, started on what was built for a node, ends with that node's hash, having used exactly that. */
  lemma {:induction false} Complete(hash: Bytes -> Bytes, p: Proof, leaves: seq<Bytes>, matches: seq<bool>,
                                    depth: nat, pos: nat, bits: nat, used: nat)
    requires |leaves| == |matches| == p.n <= 0x4000_0000 && depth <= 30 && pos < Width(p.n, depth)
    requires Holds(p.flags, bits, Build(hash, leaves, matches, depth, pos).bits)
    requires HoldsHashes(p.hashes, used, Build(hash, leaves, matches, depth, pos).hashes)
    ensures var b, v := Build(hash, leaves, matches, depth, pos), Traverse(hash, p, depth, pos, bits, used, []);
            && v.res == Hash(Node(hash, leaves, depth, pos)) && v.txs == MatchedBelow(leaves, matches, depth, pos)
            && v.bits == bits + |b.bits| && v.used == used + |b.hashes|
    decreases depth
  {
    hide Traverse, Descends, HasRight, FlagBit, Node, Width, Build, MatchedBelow, AnyMatch, Holds, HoldsHashes;
    if depth == 0 || !AnyMatch(matches, depth, pos) {
      BuiltLeaf(hash, p, leaves, matches, depth, pos, bits, used);
    } else {
      BuildDescends(hash, leaves, matches, depth, pos);
      RightExists(p, depth, pos);
      var l := Build(hash, leaves, matches, depth - 1, 2 * pos);
      var r := if HasRight(p, depth, pos) then Build(hash, leaves, matches, depth - 1, 2 * pos + 1) else Built([], []);
      HoldsParts(p.flags, bits, l.bits, r.bits);
      HoldsHashesParts(p.hashes, used, l.hashes, r.hashes);
      DescendsHere(p, depth, bits);
      Descent(hash, p, depth, pos, bits, used, []);
      Complete(hash, p, leaves, matches, depth - 1, 2 * pos, bits + 1, used);
      if HasRight(p, depth, pos) {
        var v := Traverse(hash, p, depth - 1, 2 * pos, bits + 1, used, []);
        Complete(hash, p, leaves, matches, depth - 1, 2 * pos + 1, bits + 1 + |l.bits|, used + |l.hashes|);
        OnlyAppends(hash, p, depth - 1, 2 * pos + 1, v.bits, v.used, v.txs);
      } else {
        var m := MatchedBelow(leaves, matches, depth - 1, 2 * pos);
        assert m + [] == m;
      }
    }
  }

  lemma DescendsHere(p: Proof, depth: nat, bits: nat)
    requires bits < 8 * |p.flags| && depth > 0 && FlagBit(p.flags, bits)
    ensures Descends(p, depth, bits)
  {
  }

  // ---------- what was built, seen from the leaves ----------

  /** The leaves below a node are those from First up to Last. */
  function First(k: nat, pos: nat): nat { pos * Pow2(k) }

  function Last(n: nat, k: nat, pos: nat): nat {
    if First(k, pos + 1) < n then First(k, pos + 1) else n
  }

  lemma {:induction false} ExistsIff(n: nat, k: nat, pos: nat)
    ensures pos < Width(n, k) <==> First(k, pos) < n
  {
    if k > 0 {
      ExistsIff(n, k - 1, 2 * pos);
      FirstBelow(k, pos);
    }
  }

  lemma FirstBelow(k: nat, pos: nat)
    requires k > 0
    ensures First(k - 1, 2 * pos) == First(k, pos) && First(k - 1, 2 * pos + 1) <= First(k, pos + 1)
    ensures First(k - 1, 2 * pos + 2) == First(k, pos + 1) && First(k - 1, 2 * pos) <= First(k - 1, 2 * pos + 1)
  {
    Halfway(pos, k);
  }

  lemma SpanSplits(n: nat, k: nat, pos: nat)
    requires k > 0 && pos < Width(n, k)
    ensures 2 * pos < Width(n, k - 1) && First(k - 1, 2 * pos) == First(k, pos) < n
    ensures if 2 * pos + 1 < Width(n, k - 1) then
              Last(n, k - 1, 2 * pos) == First(k - 1, 2 * pos + 1) && Last(n, k - 1, 2 * pos + 1) == Last(n, k, pos)
            else Last(n, k - 1, 2 * pos) == Last(n, k, pos) == n
    ensures First(k, pos) <= Last(n, k - 1, 2 * pos) <= Last(n, k, pos) <= n
  {
    hide First;
    ExistsIff(n, k, pos);
    ExistsIff(n, k - 1, 2 * pos + 1);
    FirstBelow(k, pos);
  }

  lemma {:induction false} SelectConcat(a: seq<Bytes>, m: seq<bool>, b: seq<Bytes>, o: seq<bool>)
    requires |a| == |m| && |b| == |o|
    ensures Select(a + b, m + o) == Select(a, m) + Select(b, o)
  {
    if a == [] {
      assert a + b == b && m + o == o;
    } else {
      SelectConcat(a[1..], m[1..], b, o);
      assert (a + b)[1..] == a[1..] + b && (m + o)[1..] == m[1..] + o;
    }
  }

  /** The matches below a node are the matches in its span, in order. */
  lemma {:induction false} MatchedInSpan(leaves: seq<Bytes>, matches: seq<bool>, k: nat, pos: nat)
    requires |leaves| == |matches| && pos < Width(|leaves|, k)
    ensures First(k, pos) <= Last(|leaves|, k, pos) <= |leaves|
    ensures var i, j := First(k, pos), Last(|leaves|, k, pos);
            MatchedBelow(leaves, matches, k, pos) == Select(leaves[i..j], matches[i..j])
    decreases k
  {
    hide First, Last, Width, Select, MatchedBelow;
    var n := |leaves|;
    if k == 0 {
      OneLeaf(leaves, matches, pos);
    } else {
      SpanSplits(n, k, pos);
      var i, m, j := First(k, pos), Last(n, k - 1, 2 * pos), Last(n, k, pos);
      MatchedInSpan(leaves, matches, k - 1, 2 * pos);
      MatchedSplits(leaves, matches, k, pos);
      if 2 * pos + 1 < Width(n, k - 1) {
        MatchedInSpan(leaves, matches, k - 1, 2 * pos + 1);
        assert leaves[i..j] == leaves[i..m] + leaves[m..j] && matches[i..j] == matches[i..m] + matches[m..j];
        SelectConcat(leaves[i..m], matches[i..m], leaves[m..j], matches[m..j]);
      }
    }
  }

  lemma MatchedSplits(leaves: seq<Bytes>, matches: seq<bool>, k: nat, pos: nat)
    requires |leaves| == |matches| && k > 0 && pos < Width(|leaves|, k)
    ensures 2 * pos < Width(|leaves|, k - 1)
    ensures var l := MatchedBelow(leaves, matches, k - 1, 2 * pos);
            MatchedBelow(leaves, matches, k, pos) ==
            if 2 * pos + 1 < Width(|leaves|, k - 1) then l + MatchedBelow(leaves, matches, k - 1, 2 * pos + 1) else l
  {
    var l := MatchedBelow(leaves, matches, k - 1, 2 * pos);
    assert l + [] == l;
  }

  lemma OneLeaf(leaves: seq<Bytes>, matches: seq<bool>, pos: nat)
    requires |leaves| == |matches| && pos < Width(|leaves|, 0)
    ensures First(0, pos) == pos && Last(|leaves|, 0, pos) == pos + 1 <= |leaves|
    ensures MatchedBelow(leaves, matches, 0, pos) == Select(leaves[pos..pos + 1], matches[pos..pos + 1])
  {
    assert leaves[pos..pos + 1] == [leaves[pos]] && matches[pos..pos + 1] == [matches[pos]];
  }

  /** At least a hash, at most one for every leaf, and at least as many bits as hashes. */
  lemma {:induction false} BuiltSizes(hash: Bytes -> Bytes, leaves: seq<Bytes>, matches: seq<bool>, k: nat, pos: nat)
    requires |leaves| == |matches| && pos < Width(|leaves|, k)
    ensures First(k, pos) < |leaves| && First(k, pos) <= Last(|leaves|, k, pos)
    ensures var b := Build(hash, leaves, matches, k, pos);
            1 <= |b.hashes| <= |b.bits| && |b.hashes| <= Last(|leaves|, k, pos) - First(k, pos)
    decreases k
  {
    hide First, Last, Width, AnyMatch, Node;
    var n := |leaves|;
    ExistsIff(n, k, pos);
    SpanNotEmpty(n, k, pos);
    if k > 0 && AnyMatch(matches, k, pos) {
      SpanSplits(n, k, pos);
      BuiltSizes(hash, leaves, matches, k - 1, 2 * pos);
      if 2 * pos + 1 < Width(n, k - 1) { BuiltSizes(hash, leaves, matches, k - 1, 2 * pos + 1); }
    }
  }

  lemma SpanNotEmpty(n: nat, k: nat, pos: nat)
    requires First(k, pos) < n
    ensures First(k, pos) < Last(n, k, pos)
  {
    MulMonotone(Pow2(k), pos, pos + 1);
    assert Pow2(k) * (pos + 1) == Pow2(k) * pos + Pow2(k);
  }

  /** All of the block: the whole list, selected. */
  lemma MatchedInBlock(leaves: seq<Bytes>, matches: seq<bool>)
    requires |leaves| == |matches| >= 1
    ensures 0 < Width(|leaves|, Height(|leaves|))
    ensures MatchedBelow(leaves, matches, Height(|leaves|), 0) == Select(leaves, matches)
  {
    hide Width, Select, MatchedBelow;
    var n, k := |leaves|, Height(|leaves|);
    WidthAtHeight(n);
    MatchedInSpan(leaves, matches, k, 0);
    ExistsIff(n, k, 1);
    assert First(k, 0) == 0;
    assert leaves[0..n] == leaves && matches[0..n] == matches;
  }
}
