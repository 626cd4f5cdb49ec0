/** Mnemonics: entropy regrouped from 8-bit bytes to 11-bit word numbers, with a checksum (BIP 39). */
module Mnemonic {
  import opened Bytes
  import opened NumBuffers
  import opened Script
  import opened ScriptNum

  /** A string of '0' and '1'. */
  type Bits = seq<bool>

  // ---------- binary strings ----------

  /** v.toString(2) */
  function Binary(v: nat): (b: Bits)
    ensures |b| >= 1
  {
    if v < 2 then [v == 1] else Binary(v / 2) + [v % 2 == 1]
  }

  /** parseInt(b, 2), with zero for the empty string. */
  function ParseBits(b: Bits): nat {
    if b == [] then 0 else 2 * ParseBits(b[..|b| - 1]) + if b[|b| - 1] then 1 else 0
  }

  /** The lowest n bits of v. */
  function Padded(v: nat, n: nat): (b: Bits)
    ensures |b| == n
  {
    if n == 0 then [] else Padded(v / 2, n - 1) + [v % 2 == 1]
  }

  function ZeroBits(n: nat): Bits { seq(n, _ => false) }

  /** ('0'.repeat(n) + v.toString(2)).slice(-n) */
  function SliceOfBinary(v: nat, n: nat): (b: Bits)
    ensures |b| == n
  {
    var s := ZeroBits(n) + Binary(v);
    s[|s| - n..]
  }

  lemma {:induction false} BinaryLength(v: nat, n: nat)
    requires v < Pow2(n) && n >= 1
    ensures |Binary(v)| <= n
  {
    if v >= 2 { BinaryLength(v / 2, n - 1); }
  }

  /** Zeros in front of the binary digits are the digits of the padded number. */
  lemma {:induction false} ZerosThenBinary(v: nat, n: nat)
    requires |Binary(v)| <= n
    ensures ZeroBits(n - |Binary(v)|) + Binary(v) == Padded(v, n)
  {
    if v < 2 {
      PaddedZero(n - 1);
    } else {
      ZerosThenBinary(v / 2, n - 1);
      var z := ZeroBits(n - |Binary(v)|);
      assert z + (Binary(v / 2) + [v % 2 == 1]) == (z + Binary(v / 2)) + [v % 2 == 1];
    }
  }

  lemma {:induction false} PaddedZero(n: nat)
    ensures Padded(0, n) == ZeroBits(n)
  {
    if n > 0 {
      PaddedZero(n - 1);
      assert ZeroBits(n - 1) + [false] == ZeroBits(n);
    }
  }

  lemma SliceIsPadded(v: nat, n: nat)
    requires v < Pow2(n) && n >= 1
    ensures SliceOfBinary(v, n) == Padded(v, n)
  {
    BinaryLength(v, n);
    ZerosThenBinary(v, n);
    var m := |Binary(v)|;
    var s := ZeroBits(n) + Binary(v);
    assert s[|s| - n..] == ZeroBits(n - m) + Binary(v);
  }

  lemma {:induction false} ParsePadded(v: nat, n: nat)
    requires v < Pow2(n)
    ensures ParseBits(Padded(v, n)) == v
  {
    if n > 0 {
      ParsePadded(v / 2, n - 1);
      assert Padded(v, n)[..n - 1] == Padded(v / 2, n - 1);
    }
  }

  lemma {:induction false} PaddedParse(b: Bits)
    ensures Padded(ParseBits(b), |b|) == b && ParseBits(b) < Pow2(|b|)
  {
    if b != [] {
      PaddedParse(b[..|b| - 1]);
    }
  }

  // ---------- groups of equal width ----------

  /** The length of m groups of n bits. */
  function Total(n: nat, m: nat): nat { if m == 0 then 0 else n + Total(n, m - 1) }

  lemma {:induction false} TotalIs(n: nat, m: nat)
    ensures Total(n, m) == m * n
  {
    if m > 0 { TotalIs(n, m - 1); }
  }

  /** The numbers that m consecutive groups of n bits stand for. */
  function Group(bits: Bits, n: nat, m: nat): (v: seq<nat>)
    requires |bits| == Total(n, m)
    ensures |v| == m
    decreases m
  {
    if m == 0 then [] else [ParseBits(bits[..n])] + Group(bits[n..], n, m - 1)
  }

  /** The groups written out again. */
  function Ungroup(v: seq<nat>, n: nat): (bits: Bits)
    ensures |bits| == Total(n, |v|)
  {
    if v == [] then [] else Padded(v[0], n) + Ungroup(v[1..], n)
  }

  ghost predicate Fit(v: seq<nat>, n: nat) { forall i :: 0 <= i < |v| ==> v[i] < Pow2(n) }

  lemma {:induction false} UngroupGroup(bits: Bits, n: nat, m: nat)
    requires |bits| == Total(n, m)
    ensures Ungroup(Group(bits, n, m), n) == bits && Fit(Group(bits, n, m), n)
    decreases m
  {
    hide Padded, ParseBits, Pow2, Fit;
    if m > 0 {
      var first, rest := bits[..n], bits[n..];
      PaddedParse(first);
      UngroupGroup(rest, n, m - 1);
      ConsFits(ParseBits(first), Group(rest, n, m - 1), n);
      UngroupCons(ParseBits(first), Group(rest, n, m - 1), n);
      assert first + rest == bits;
    } else {
      NoneFit(n);
    }
  }

  lemma UngroupCons(v: nat, rest: seq<nat>, n: nat)
    ensures Ungroup([v] + rest, n) == Padded(v, n) + Ungroup(rest, n)
  {
    assert ([v] + rest)[1..] == rest;
  }

  lemma ConsFits(v: nat, rest: seq<nat>, n: nat)
    requires v < Pow2(n) && Fit(rest, n)
    ensures Fit([v] + rest, n)
  {
  }

  lemma NoneFit(n: nat)
    ensures Fit([], n)
  {
  }

  lemma {:induction false} GroupUngroup(v: seq<nat>, n: nat)
    requires Fit(v, n)
    ensures Group(Ungroup(v, n), n, |v|) == v
  {
    if v != [] {
      ParsePadded(v[0], n);
      GroupUngroup(v[1..], n);
      var bits := Ungroup(v, n);
      assert bits[..n] == Padded(v[0], n) && bits[n..] == Ungroup(v[1..], n);
    }
  }

  // ---------- the checksum ----------

  /** _entropyChecksum: one bit of the hash for every four bytes, at most the 256 there are. */
  function Checksum(sha256: Bytes -> Bytes, e: Bytes): (b: Bits)
    ensures |b| == ChecksumBits(|e|)
  {
    Padded(BigEndian(sha256(e)), 256)[..ChecksumBits(|e|)]
  }

  function ChecksumBits(n: nat): nat { if n / 4 <= 256 then n / 4 else 256 }

  method EntropyChecksum(sha256: Bytes -> Bytes, e: Bytes) returns (checksum: Bits)
    requires |sha256(e)| == 32
    ensures checksum == Checksum(sha256, e)
  {
    hide Padded, ParseBits, Pow2, Binary, BigEndian;
    var cs := |e| / 4;
    var v := BigEndian(sha256(e));
    HashFits(sha256(e));
    BinaryLength(v, 256);
    var hashbits := Binary(v);
    ghost var pad := 0;
    while |hashbits| % 256 != 0
      invariant pad <= 256 - |Binary(v)| && hashbits == ZeroBits(pad) + Binary(v)
      decreases 256 - pad
    {
      hashbits := [false] + hashbits;
      pad := pad + 1;
    }
    ZerosThenBinary(v, 256);
    checksum := hashbits[..if cs <= 256 then cs else 256];
  }

  lemma HashFits(h: Bytes)
    requires |h| == 32
    ensures BigEndian(h) < Pow2(256)
  {
    hide LittleEndian;
    LittleEndianBound(Reversed(h));
    Pow2Of8(32);
  }

  // ---------- phrases ----------

  ghost predicate Dictionary(wordlist: seq<string>) {
    |wordlist| == 2048 && forall i, j :: 0 <= i < j < |wordlist| ==> wordlist[i] != wordlist[j]
  }

  /** An entropy of n bytes and its checksum fill whole words. */
  predicate FillsWords(n: nat) { (8 * n + ChecksumBits(n)) % 11 == 0 }

  function WordCount(n: nat): nat { (8 * n + ChecksumBits(n)) / 11 }

  /** While the hash has enough bits, these are the multiples of four bytes, with three words for each. */
  lemma LengthDivides(n: nat)
    requires n <= 1024
    ensures (FillsWords(n) <==> n % 4 == 0) && (n % 4 == 0 ==> WordCount(n) == 3 * (n / 4))
  {
    var q, r := n / 4, n % 4;
    assert 8 * n + n / 4 == 11 * (3 * q) + 8 * r;
  }

  /** The bits of an entropy with its checksum, in groups of eleven. */
  function WordNumbers(sha256: Bytes -> Bytes, e: Bytes): (v: seq<nat>)
    requires FillsWords(|e|)
    ensures |v| == WordCount(|e|)
  {
    TotalIs(8, |e|);
    TotalIs(11, WordCount(|e|));
    Group(Ungroup(e, 8) + Checksum(sha256, e), 11, WordCount(|e|))
  }

  function Phrase(sha256: Bytes -> Bytes, wordlist: seq<string>, e: Bytes): (words: seq<string>)
    requires |wordlist| == 2048 && FillsWords(|e|)
    ensures |words| == WordCount(|e|)
  {
    WordNumbersFit(sha256, e);
    var v := WordNumbers(sha256, e);
    seq(|v|, i requires 0 <= i < |v| => wordlist[v[i]])
  }

  lemma WordNumbersFit(sha256: Bytes -> Bytes, e: Bytes)
    requires FillsWords(|e|)
    ensures Fit(WordNumbers(sha256, e), 11)
    ensures forall i :: 0 <= i < |WordNumbers(sha256, e)| ==> WordNumbers(sha256, e)[i] < 2048
  {
    hide Checksum, Group, Ungroup;
    TotalIs(8, |e|);
    TotalIs(11, WordCount(|e|));
    UngroupGroup(Ungroup(e, 8) + Checksum(sha256, e), 11, WordCount(|e|));
    assert Pow2(11) == 2048;
  }

  /** The entropy that word numbers spell, its checksum aside. */
  function EntropyOf(v: seq<nat>, k: nat): (e: Bytes)
    requires |v| == 3 * k
    ensures |e| == 4 * k
  {
    TotalIs(11, 3 * k);
    TotalIs(8, 4 * k);
    BytesFit(Ungroup(v, 11)[..32 * k], 4 * k);
    var g := Group(Ungroup(v, 11)[..32 * k], 8, 4 * k);
    seq(4 * k, i requires 0 <= i < 4 * k => g[i] as Byte)
  }

  lemma BytesFit(bits: Bits, m: nat)
    requires |bits| == Total(8, m)
    ensures forall i :: 0 <= i < m ==> Group(bits, 8, m)[i] < 256
  {
    UngroupGroup(bits, 8, m);
    assert Pow2(8) == 256;
  }

  /** The checksum bits agree with the entropy. */
  predicate Checked(sha256: Bytes -> Bytes, v: seq<nat>, k: nat)
    requires |v| == 3 * k
  {
    TotalIs(11, 3 * k);
    Checksum(sha256, EntropyOf(v, k)) == Ungroup(v, 11)[32 * k..]
  }

  /** Regrouping forth and back: numbers come from an entropy iff their checksum is right, and then from their own. */
  lemma NumbersOfEntropy(sha256: Bytes -> Bytes, v: seq<nat>, k: nat, e: Bytes)
    requires |v| == 3 * k && k <= 256 && Fit(v, 11) && |e| == 4 * k && FillsWords(|e|)
    ensures WordNumbers(sha256, e) == v <==> Checked(sha256, v, k) && e == EntropyOf(v, k)
  {
    hide Checksum, Group, Ungroup, WordNumbers, EntropyOf, FillsWords, WordCount;
    LengthDivides(4 * k);
    TotalIs(11, 3 * k);
    TotalIs(8, 4 * k);
    var bits := Ungroup(v, 11);
    NumbersAreBits(sha256, v, e);
    if WordNumbers(sha256, e) == v {
      assert bits[..32 * k] == Ungroup(e, 8) && bits[32 * k..] == Checksum(sha256, e);
      EntropyBack(v, k, e);
    }
    if Checked(sha256, v, k) && e == EntropyOf(v, k) {
      EntropyForth(v, k);
      assert bits == bits[..32 * k] + bits[32 * k..];
    }
  }

  lemma NumbersAreBits(sha256: Bytes -> Bytes, v: seq<nat>, e: Bytes)
    requires FillsWords(|e|) && |v| == WordCount(|e|) && Fit(v, 11)
    ensures WordNumbers(sha256, e) == v <==> Ungroup(v, 11) == Ungroup(e, 8) + Checksum(sha256, e)
  {
    hide Checksum, Group, Ungroup, Fit;
    TotalIs(8, |e|);
    TotalIs(11, WordCount(|e|));
    GroupUngroup(v, 11);
    UngroupGroup(Ungroup(e, 8) + Checksum(sha256, e), 11, WordCount(|e|));
  }

  lemma EntropyBack(v: seq<nat>, k: nat, e: Bytes)
    requires |v| == 3 * k && |e| == 4 * k && |Ungroup(v, 11)| >= 32 * k && Ungroup(v, 11)[..32 * k] == Ungroup(e, 8)
    ensures e == EntropyOf(v, k)
  {
    hide Group, Ungroup;
    TotalIs(8, 4 * k);
    assert Pow2(8) == 256;
    GroupUngroup(e, 8);
  }

  lemma EntropyForth(v: seq<nat>, k: nat)
    requires |v| == 3 * k
    ensures |Ungroup(v, 11)| == 33 * k && Ungroup(EntropyOf(v, k), 8) == Ungroup(v, 11)[..32 * k]
  {
    hide Group, Ungroup;
    TotalIs(11, 3 * k);
    TotalIs(8, 4 * k);
    var bits := Ungroup(v, 11)[..32 * k];
    UngroupGroup(bits, 8, 4 * k);
    BytesFit(bits, 4 * k);
    SameNumbers(EntropyOf(v, k), Group(bits, 8, 4 * k));
  }

  lemma SameNumbers(e: Bytes, g: seq<nat>)
    requires |e| == |g| && forall i :: 0 <= i < |e| ==> e[i] == g[i]
    ensures Ungroup(e, 8) == Ungroup(g, 8)
  {
    var f: seq<nat> := e;
    assert f == g;
  }

  // ---------- words ----------

  /** wordlist.indexOf(word) */
  function IndexOf(wordlist: seq<string>, word: string): (i: int)
    ensures if i < 0 then word !in wordlist else i < |wordlist| && wordlist[i] == word
  {
    IndexFrom(wordlist, word, 0)
  }

  function IndexFrom(wordlist: seq<string>, word: string, at: nat): (i: int)
    requires at <= |wordlist|
    ensures if i < 0 then word !in wordlist[at..] else at <= i < |wordlist| && wordlist[i] == word
    decreases |wordlist| - at
  {
    if at == |wordlist| then -1
    else if wordlist[at] == word then at
    else IndexFrom(wordlist, word, at + 1)
  }

  predicate Known(wordlist: seq<string>, words: seq<string>) { forall i :: 0 <= i < |words| ==> words[i] in wordlist }

  function Numbers(wordlist: seq<string>, words: seq<string>): (v: seq<nat>)
    requires Known(wordlist, words)
    ensures |v| == |words| && forall i :: 0 <= i < |v| ==> v[i] < |wordlist| && wordlist[v[i]] == words[i]
  {
    seq(|words|, i requires 0 <= i < |words| => assert words[i] in wordlist; IndexOf(wordlist, words[i]))
  }

  /** What isValid answers for a phrase of 3k words. */
  predicate ValidPhrase(sha256: Bytes -> Bytes, wordlist: seq<string>, words: seq<string>)
    requires |words| % 3 == 0
  {
    Known(wordlist, words) && Checked(sha256, Numbers(wordlist, words), |words| / 3)
  }

  /** The entropy of a phrase, its checksum aside. */
  function EntropyOfPhrase(wordlist: seq<string>, words: seq<string>): (e: Bytes)
    requires |words| % 3 == 0 && Known(wordlist, words)
    ensures |e| == 4 * (|words| / 3)
  {
    EntropyOf(Numbers(wordlist, words), |words| / 3)
  }

  lemma NumbersOfPhrase(wordlist: seq<string>, words: seq<string>, v: seq<nat>)
    requires Dictionary(wordlist) && |v| == |words|
    requires forall i :: 0 <= i < |v| ==> v[i] < 2048 && wordlist[v[i]] == words[i]
    ensures Known(wordlist, words) && Numbers(wordlist, words) == v
  {
    forall i | 0 <= i < |v| ensures words[i] in wordlist {
      assert wordlist[v[i]] in wordlist;
    }
    var w := Numbers(wordlist, words);
    forall i | 0 <= i < |v| ensures w[i] == v[i] {
      assert wordlist[w[i]] == wordlist[v[i]];
    }
  }

  lemma NumbersFit(wordlist: seq<string>, words: seq<string>)
    requires |wordlist| == 2048 && Known(wordlist, words)
    ensures Fit(Numbers(wordlist, words), 11)
  {
    assert Pow2(11) == 2048;
  }

  /**
   * The bijection: a phrase of 3k words is valid iff there are at most 256 groups of three and it is the
   * phrase of an entropy of 4k bytes, and that entropy can only be the one read back from it.
   */
  lemma PhraseIffValid(sha256: Bytes -> Bytes, wordlist: seq<string>, words: seq<string>, e: Bytes)
    requires Dictionary(wordlist) && |words| % 3 == 0 && |e| == 4 * (|words| / 3)
    ensures ValidPhrase(sha256, wordlist, words) && e == EntropyOfPhrase(wordlist, words) <==>
            |words| <= 768 && FillsWords(|e|) && Phrase(sha256, wordlist, e) == words
  {
    hide WordNumbers, Checked, EntropyOf, Numbers, IndexOf, Fit, FillsWords, WordCount;
    var k := |words| / 3;
    if k <= 256 {
      LengthDivides(|e|);
      WordNumbersFit(sha256, e);
      if Phrase(sha256, wordlist, e) == words {
        NumbersOfPhrase(wordlist, words, WordNumbers(sha256, e));
      }
      if Known(wordlist, words) {
        var v := Numbers(wordlist, words);
        NumbersFit(wordlist, words);
        NumbersOfEntropy(sha256, v, k, e);
      }
    } else if Known(wordlist, words) {
      TooLong(sha256, Numbers(wordlist, words), k);
    }
  }

  /** The phrase of an entropy is accepted exactly while the hash has a bit for every four bytes. */
  lemma OwnPhraseValidIff(sha256: Bytes -> Bytes, wordlist: seq<string>, e: Bytes)
    requires Dictionary(wordlist) && FillsWords(|e|)
    ensures var words := Phrase(sha256, wordlist, e);
            |words| % 3 == 0 && ValidPhrase(sha256, wordlist, words) <==> |e| <= 1024
  {
    hide Phrase, Checked, Known, Numbers, FillsWords;
    var words := Phrase(sha256, wordlist, e);
    if |e| <= 1024 {
      LengthDivides(|e|);
      PhraseIffValid(sha256, wordlist, words, e);
    } else {
      ManyWords(|e|);
      if |words| % 3 == 0 && Known(wordlist, words) {
        TooLong(sha256, Numbers(wordlist, words), |words| / 3);
      }
    }
  }

  lemma ManyWords(n: nat)
    requires n > 1024 && FillsWords(n)
    ensures WordCount(n) > 768
  {
  }

  /** The hash has no more than 256 bits to compare with. */
  lemma TooLong(sha256: Bytes -> Bytes, v: seq<nat>, k: nat)
    requires |v| == 3 * k && k > 256
    ensures !Checked(sha256, v, k)
  {
    hide EntropyOf, Ungroup;
    TotalIs(11, 3 * k);
  }

  // ---------- the loops ----------

  /** _entropy2mnemonic, the words not yet joined; None stands for InvalidEntropy. */
  method EntropyToMnemonic(sha256: Bytes -> Bytes, wordlist: seq<string>, entropy: Bytes)
    returns (r: Option<seq<string>>)
    requires |wordlist| == 2048 && |sha256(entropy)| == 32
    ensures r == if FillsWords(|entropy|) then Some(Phrase(sha256, wordlist, entropy)) else None
    ensures |entropy| <= 1024 ==> (r.Some? <==> |entropy| % 4 == 0)
  {
    hide Padded, ParseBits, SliceOfBinary, Group, Ungroup, Checksum, Pow2;
    if |entropy| <= 1024 { LengthDivides(|entropy|); }
    var bin: Bits := [];
    for i := 0 to |entropy|
      invariant bin == Ungroup(entropy[..i], 8)
    {
      ByteBits(entropy, i);
      bin := bin + SliceOfBinary(entropy[i], 8);
    }
    assert entropy[..|entropy|] == entropy;
    TotalIs(8, |entropy|);
    var checksum := EntropyChecksum(sha256, entropy);
    bin := bin + checksum;
    if |bin| % 11 != 0 { return None; }
    ghost var m := WordCount(|entropy|);
    TotalIs(11, m);
    WordNumbersFit(sha256, entropy);
    ghost var v := WordNumbers(sha256, entropy);
    var mnemonic: seq<string> := [];
    var i := 0;
    while i < |bin| / 11
      invariant 0 <= i <= m && mnemonic == Phrase(sha256, wordlist, entropy)[..i]
    {
      GroupAt(bin, 11, m, i);
      TotalIs(11, i);
      var wi := ParseBits(bin[i * 11..(i + 1) * 11]);
      mnemonic := mnemonic + [wordlist[wi]];
      i := i + 1;
    }
    assert mnemonic == Phrase(sha256, wordlist, entropy);
    r := Some(mnemonic);
  }

  lemma ByteBits(e: Bytes, i: nat)
    requires i < |e|
    ensures Ungroup(e[..i + 1], 8) == Ungroup(e[..i], 8) + SliceOfBinary(e[i], 8)
  {
    hide Padded, SliceOfBinary, Pow2;
    assert Pow2(8) == 256 by { PowersAre(); }
    SliceIsPadded(e[i], 8);
    assert e[..i + 1] == e[..i] + [e[i]];
    UngroupSnoc(e[..i], e[i], 8);
  }

  lemma PowersAre()
    ensures Pow2(8) == 256 && Pow2(11) == 2048
  {
  }

  lemma {:induction false} UngroupSnoc(v: seq<nat>, x: nat, n: nat)
    ensures Ungroup(v + [x], n) == Ungroup(v, n) + Padded(x, n)
  {
    hide Padded;
    if v == [] {
      assert v + [x] == [x];
      assert Ungroup([x], n) == Padded(x, n) + Ungroup([], n);
    } else {
      UngroupSnoc(v[1..], x, n);
      assert (v + [x])[1..] == v[1..] + [x];
    }
  }

  lemma {:induction false} GroupAt(bits: Bits, n: nat, m: nat, i: nat)
    requires |bits| == Total(n, m) && i < m
    ensures 0 <= i * n <= (i + 1) * n <= |bits|
    ensures Group(bits, n, m)[i] == ParseBits(bits[i * n..(i + 1) * n])
    decreases i
  {
    hide ParseBits, Group, Total;
    TotalIs(n, m);
    TotalIs(n, m - 1);
    MulMonotone(n, i + 1, m);
    GroupHead(bits, n, m);
    if i > 0 {
      Step(n, i);
      GroupAt(bits[n..], n, m - 1, i - 1);
      assert bits[n..][(i - 1) * n..i * n] == bits[i * n..(i + 1) * n];
    }
  }

  lemma Step(n: nat, i: nat)
    ensures i * n == (i - 1) * n + n && (i + 1) * n == i * n + n
  {
  }

  lemma GroupHead(bits: Bits, n: nat, m: nat)
    requires |bits| == Total(n, m) && m > 0
    ensures |bits| >= n && |bits[n..]| == Total(n, m - 1)
    ensures Group(bits, n, m) == [ParseBits(bits[..n])] + Group(bits[n..], n, m - 1)
  {
    hide ParseBits;
  }

  /** Mnemonic.isValid against a given word list; None stands for an exception. */
  method IsValid(sha256: Bytes -> Bytes, wordlist: seq<string>, words: seq<string>) returns (r: Option<bool>)
    requires |wordlist| == 2048 && forall e :: |sha256(e)| == 32
    ensures r == if !Known(wordlist, words) then Some(false)
                 else if |words| % 3 != 0 then None
                 else Some(ValidPhrase(sha256, wordlist, words))
  {
    hide Padded, ParseBits, SliceOfBinary, Group, Ungroup, Checksum, Pow2, IndexOf;
    var bin: Bits := [];
    ghost var v: seq<nat> := [];
    for i := 0 to |words|
      invariant |v| == i && forall j :: 0 <= j < i ==> words[j] in wordlist && v[j] == IndexOf(wordlist, words[j]) >= 0
      invariant bin == Ungroup(v, 11)
    {
      var ind := IndexOf(wordlist, words[i]);
      if ind < 0 { return Some(false); }
      IndexBits(v, ind);
      bin := bin + SliceOfBinary(ind, 11);
      v := v + [ind];
    }
    assert v == Numbers(wordlist, words);
    TotalIs(11, |words|);
    r := CompareChecksum(sha256, bin, |words|, v);
  }

  lemma IndexBits(v: seq<nat>, ind: nat)
    requires ind < 2048
    ensures Ungroup(v + [ind], 11) == Ungroup(v, 11) + SliceOfBinary(ind, 11)
  {
    hide Padded, SliceOfBinary, Pow2;
    PowersAre();
    SliceIsPadded(ind, 11);
    UngroupSnoc(v, ind, 11);
  }

  /**
   * The second half of isValid. A length that is not a multiple of three leaves a byte that does not fit the
   * buffer.
   */
  method CompareChecksum(sha256: Bytes -> Bytes, bin: Bits, n: nat, ghost v: seq<nat>) returns (r: Option<bool>)
    requires |v| == n && bin == Ungroup(v, 11) && |bin| == 11 * n && forall e :: |sha256(e)| == 32
    ensures r == if n % 3 != 0 then None else Some(Checked(sha256, v, n / 3))
  {
    hide Padded, ParseBits, Group, Ungroup, Checksum, Pow2, EntropyOf;
    var hash_bits := bin[|bin| - n / 3..];
    var nonhash_bits := bin[..|bin| - (n + 2) / 3];
    var size := |nonhash_bits| / 8;
    var buf: Bytes := [];
    var i := 0;
    while i * 8 < |nonhash_bits|
      invariant i == |buf| <= size
      invariant n % 3 == 0 ==> size == 4 * (n / 3) && buf == EntropyOf(v, n / 3)[..i]
    {
      if i >= size { return None; }
      ByteAt(bin, nonhash_bits, i);
      if n % 3 == 0 { EntropyAt(v, n / 3, i); }
      buf := buf + [ParseBits(bin[i * 8..(i + 1) * 8])];
      i := i + 1;
    }
    var expected_hash_bits := EntropyChecksum(sha256, buf);
    assert n % 3 == 0 ==> buf == EntropyOf(v, n / 3);
    return Some(expected_hash_bits == hash_bits);
  }

  lemma ByteAt(bin: Bits, front: Bits, i: nat)
    requires |front| <= |bin| && i < |front| / 8
    ensures (i + 1) * 8 <= |bin| && ParseBits(bin[i * 8..(i + 1) * 8]) < 256
  {
    hide ParseBits, Pow2;
    PowersAre();
    PaddedParse(bin[i * 8..(i + 1) * 8]);
  }

  lemma EntropyAt(v: seq<nat>, k: nat, i: nat)
    requires |v| == 3 * k && i < 4 * k
    ensures |Ungroup(v, 11)| == 33 * k && EntropyOf(v, k)[i] == ParseBits(Ungroup(v, 11)[i * 8..(i + 1) * 8])
  {
    hide Ungroup, Group, ParseBits;
    TotalIs(11, 3 * k);
    TotalIs(8, 4 * k);
    var bits := Ungroup(v, 11)[..32 * k];
    GroupAt(bits, 8, 4 * k, i);
    assert bits[i * 8..(i + 1) * 8] == Ungroup(v, 11)[i * 8..(i + 1) * 8];
  }
}
