/** A phrase read as one number: the entropy, and below it the first bits of its hash. */
module MnemonicNumbers {
  import opened Bytes
  import opened NumBuffers
  import opened ScriptNum
  import opened Mnemonic

  /** The number that digits spell in base 2048, most significant first. */
  function InBase2048(v: seq<nat>): nat {
    if v == [] then 0 else InBase2048(v[..|v| - 1]) * 2048 + v[|v| - 1]
  }

  /** An entropy of 4k bytes and the first k bits of its hash, side by side. */
  function WithChecksum(sha256: Bytes -> Bytes, e: Bytes, k: nat): int
    requires k <= 256
  {
    BigEndian(e) * Pow2(k) + BigEndian(sha256(e)) / Pow2(256 - k)
  }

  // ---------- bits as numbers ----------

  lemma {:induction false} ParseConcat(a: Bits, b: Bits)
    ensures ParseBits(a + b) == ParseBits(a) * Pow2(|b|) + ParseBits(b)
  {
    if b == [] {
      assert a + b == a;
      assert Pow2(0) == 1;
    } else {
      var front, last := b[..|b| - 1], b[|b| - 1];
      assert (a + b)[..|a + b| - 1] == a + front;
      ParseConcat(a, front);
      Doubled(ParseBits(a), Pow2(|front|));
    }
  }

  lemma Doubled(x: nat, p: nat)
    ensures 2 * (x * p) == x * (2 * p)
  {
  }

  lemma ParseRange(b: Bits)
    ensures ParseBits(b) < Pow2(|b|)
  {
    PaddedParse(b);
  }

  /** The first bits of a number are what is left when the others are divided away. */
  lemma ParseFront(b: Bits, k: nat)
    requires k <= |b|
    ensures ParseBits(b[..k]) == ParseBits(b) / Pow2(|b| - k)
  {
    hide ParseBits, Pow2;
    assert b == b[..k] + b[k..];
    ParseConcat(b[..k], b[k..]);
    ParseRange(b[k..]);
    Quotient(ParseBits(b), Pow2(|b| - k), ParseBits(b[..k]), ParseBits(b[k..]));
  }

  lemma {:induction false} UngroupedWords(v: seq<nat>)
    requires Fit(v, 11)
    ensures ParseBits(Ungroup(v, 11)) == InBase2048(v)
  {
    hide ParseBits, Padded, Ungroup, Pow2;
    if v != [] {
      var front, last := v[..|v| - 1], v[|v| - 1];
      assert v == front + [last];
      UngroupedWords(front);
      UngroupSnoc(front, last, 11);
      ParseConcat(Ungroup(front, 11), Padded(last, 11));
      ParsePadded(last, 11);
      PowersAre();
    } else {
      NothingToParse(11);
    }
  }

  lemma NothingToParse(n: nat)
    ensures Ungroup([], n) == [] && ParseBits([]) == 0
  {
  }

  lemma {:induction false} UngroupedBytes(e: Bytes)
    ensures ParseBits(Ungroup(e, 8)) == BigEndian(e)
  {
    hide ParseBits, Padded, Ungroup, LittleEndian, Pow2;
    if e != [] {
      var front, last := e[..|e| - 1], e[|e| - 1];
      assert e == front + [last];
      UngroupedBytes(front);
      UngroupBytes(front, last);
      ParseConcat(Ungroup(front, 8), Padded(last, 8));
      PowersAre();
      ParsePadded(last, 8);
      BigEndianSnoc(front, last);
    } else {
      NothingToParse(8);
      assert Reversed(e) == [];
      NoBytes();
    }
  }

  lemma NoBytes()
    ensures LittleEndian([]) == 0
  {
  }

  lemma UngroupBytes(front: Bytes, last: Byte)
    ensures Ungroup(front + [last], 8) == Ungroup(front, 8) + Padded(last, 8)
  {
    hide Padded, Ungroup;
    var f: seq<nat> := front;
    UngroupSnoc(f, last, 8);
    assert f + [last] == front + [last];
  }

  lemma BigEndianSnoc(front: Bytes, last: Byte)
    ensures BigEndian(front + [last]) == 256 * BigEndian(front) + last
  {
    assert Reversed(front + [last]) == [last] + Reversed(front);
    assert ([last] + Reversed(front))[1..] == Reversed(front);
  }

  // ---------- the phrase of an entropy ----------

  /** The bits that are grouped into words spell the entropy and the first bits of its hash. */
  lemma BitsSpell(sha256: Bytes -> Bytes, e: Bytes, k: nat)
    requires |e| == 4 * k && k <= 256 && |sha256(e)| == 32
    ensures ParseBits(Ungroup(e, 8) + Checksum(sha256, e)) == WithChecksum(sha256, e, k)
  {
    hide ParseBits, Ungroup, Padded, BigEndian, Pow2;
    HashFits(sha256(e));
    UngroupedBytes(e);
    ParseConcat(Ungroup(e, 8), Checksum(sha256, e));
    var h := Padded(BigEndian(sha256(e)), 256);
    ParseFront(h, k);
    ParsePadded(BigEndian(sha256(e)), 256);
  }

  lemma NumbersSpell(sha256: Bytes -> Bytes, e: Bytes, k: nat)
    requires |e| == 4 * k && k <= 256 && |sha256(e)| == 32
    ensures FillsWords(|e|) && WordCount(|e|) == 3 * k
    ensures InBase2048(WordNumbers(sha256, e)) == WithChecksum(sha256, e, k)
  {
    hide ParseBits, Ungroup, Group, Checksum, WithChecksum, WordNumbers, WordCount, FillsWords, InBase2048;
    LengthDivides(4 * k);
    var v := WordNumbers(sha256, e);
    WordNumbersFit(sha256, e);
    NumbersAreBits(sha256, v, e);
    UngroupedWords(v);
    BitsSpell(sha256, e, k);
  }

  /**
   * The 3k words of an entropy e of 4k bytes, each taken for its place in the list, spell in base 2048 the number
   * e * 2^k plus the first k bits of the hash of e.
   */
  lemma PhraseSpells(sha256: Bytes -> Bytes, wordlist: seq<string>, e: Bytes, k: nat)
    requires Dictionary(wordlist) && |e| == 4 * k && k <= 256 && |sha256(e)| == 32
    ensures FillsWords(|e|)
    ensures var words := Phrase(sha256, wordlist, e);
            |words| == 3 * k && Known(wordlist, words) &&
            InBase2048(Numbers(wordlist, words)) ==
            BigEndian(e) * Pow2(k) + BigEndian(sha256(e)) / Pow2(256 - k)
  {
    hide WordNumbers, WordCount, FillsWords, InBase2048, BigEndian, Pow2, Numbers;
    NumbersSpell(sha256, e, k);
    WordNumbersFit(sha256, e);
    NumbersOfPhrase(wordlist, Phrase(sha256, wordlist, e), WordNumbers(sha256, e));
  }

  // ---------- which phrases are valid ----------

  lemma {:induction false} SameDigits(v: seq<nat>, w: seq<nat>)
    requires |v| == |w| && InBase2048(v) == InBase2048(w)
    requires forall i :: 0 <= i < |v| ==> v[i] < 2048 && w[i] < 2048
    ensures v == w
  {
    if v != [] {
      var n := |v| - 1;
      LastDigit(InBase2048(v[..n]), v[n], InBase2048(w[..n]), w[n]);
      SameDigits(v[..n], w[..n]);
      assert v == v[..n] + [v[n]] && w == w[..n] + [w[n]];
    }
  }

  lemma LastDigit(x: nat, d: nat, y: nat, e: nat)
    requires d < 2048 && e < 2048 && x * 2048 + d == y * 2048 + e
    ensures x == y && d == e
  {
  }

  /** e is an entropy of 4k bytes whose number, checksum included, the words spell. */
  ghost predicate SpelledBy(sha256: Bytes -> Bytes, wordlist: seq<string>, words: seq<string>, e: Bytes, k: nat)
    requires Known(wordlist, words) && k <= 256
  {
    |e| == 4 * k && InBase2048(Numbers(wordlist, words)) == WithChecksum(sha256, e, k)
  }

  lemma SpelledIffPhrase(sha256: Bytes -> Bytes, wordlist: seq<string>, words: seq<string>, e: Bytes, k: nat)
    requires Dictionary(wordlist) && |words| == 3 * k && k <= 256 && |e| == 4 * k && |sha256(e)| == 32
    requires Known(wordlist, words)
    ensures FillsWords(|e|) && (SpelledBy(sha256, wordlist, words, e, k) <==> Phrase(sha256, wordlist, e) == words)
  {
    hide WithChecksum, WordCount, FillsWords, InBase2048, Phrase, Numbers, Known;
    PhraseSpells(sha256, wordlist, e, k);
    WithChecksumIs(sha256, e, k);
    var own := Phrase(sha256, wordlist, e);
    if SpelledBy(sha256, wordlist, words, e, k) {
      SameDigits(Numbers(wordlist, words), Numbers(wordlist, own));
      SameWords(wordlist, words, own);
    }
  }

  lemma WithChecksumIs(sha256: Bytes -> Bytes, e: Bytes, k: nat)
    requires k <= 256
    ensures WithChecksum(sha256, e, k) == BigEndian(e) * Pow2(k) + BigEndian(sha256(e)) / Pow2(256 - k)
  {
  }

  lemma SameWords(wordlist: seq<string>, words: seq<string>, own: seq<string>)
    requires Known(wordlist, words) && Known(wordlist, own) && Numbers(wordlist, words) == Numbers(wordlist, own)
    ensures words == own
  {
    var v, w := Numbers(wordlist, words), Numbers(wordlist, own);
    forall i | 0 <= i < |words| ensures words[i] == own[i] { assert wordlist[v[i]] == wordlist[w[i]]; }
  }

  /** A phrase of 3k known words, k at most 256, is valid iff it spells the number of some entropy of 4k bytes. */
  lemma ValidIffSpelled(sha256: Bytes -> Bytes, wordlist: seq<string>, words: seq<string>, k: nat)
    requires Dictionary(wordlist) && |words| == 3 * k && k <= 256 && forall e :: |sha256(e)| == 32
    ensures ValidPhrase(sha256, wordlist, words) <==>
            Known(wordlist, words) && exists e :: SpelledBy(sha256, wordlist, words, e, k)
  {
    hide SpelledBy, Mnemonic.Checked, Numbers, FillsWords, Phrase, EntropyOf, Known;
    if ValidPhrase(sha256, wordlist, words) {
      var e := EntropyOfPhrase(wordlist, words);
      PhraseIffValid(sha256, wordlist, words, e);
      SpelledIffPhrase(sha256, wordlist, words, e, k);
    }
    if Known(wordlist, words) {
      if e :| SpelledBy(sha256, wordlist, words, e, k) {
        SpelledLength(sha256, wordlist, words, e, k);
        SpelledIffPhrase(sha256, wordlist, words, e, k);
        PhraseIffValid(sha256, wordlist, words, e);
      }
    }
  }

  lemma SpelledLength(sha256: Bytes -> Bytes, wordlist: seq<string>, words: seq<string>, e: Bytes, k: nat)
    requires Known(wordlist, words) && k <= 256 && SpelledBy(sha256, wordlist, words, e, k)
    ensures |e| == 4 * k
  {
  }
}
