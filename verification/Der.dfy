/** Signatures on the wire: the strict DER form of (r, s) and its parser. */
module Der {
  import opened Bytes
  import opened NumBuffers
  import opened ScriptNum
  import opened Script

  /** BN.prototype.toBuffer: the big-endian bytes of a number, one byte for zero. */
  function ToBuffer(n: nat): (b: Bytes)
    ensures |b| >= 1
  {
    Reversed(Digits(n))
  }

  /** A number as the content of a DER integer: a zero byte goes before a set top bit. */
  function IntegerBytes(n: nat): (b: Bytes)
    ensures |b| >= 1
  {
    if ToBuffer(n)[0] >= 128 then [0] + ToBuffer(n) else ToBuffer(n)
  }

  /** Signature.prototype.toDER of an ECDSA signature. */
  function ToDER(r: nat, s: nat): Bytes {
    Frame(IntegerBytes(r), IntegerBytes(s))
  }

  function Frame(rbuf: Bytes, sbuf: Bytes): Bytes {
    [0x30, (2 + |rbuf| + 2 + |sbuf|) % 256, 0x02, |rbuf| % 256] + rbuf + [0x02, |sbuf| % 256] + sbuf
  }

  /** buf[i], where -1 stands for undefined. */
  function At(buf: Bytes, i: nat): int { if i < |buf| then buf[i] else -1 }

  /** buf.slice(i, j), whose ends are clamped. */
  function Slice(buf: Bytes, i: nat, j: nat): Bytes {
    if i >= |buf| || j <= i then [] else if j > |buf| then buf[i..] else buf[i..j]
  }

  /** Signature.parseDER; None stands for a failed check. */
  function ParseDER(buf: Bytes, strict: bool): Option<(nat, nat)> {
    var buflength := if |buf| < 2 then 0 else |buf| - 2;
    if At(buf, 0) != 0x30 || (strict && At(buf, 1) != buflength) then None
    else
      var length := if 0 <= At(buf, 1) < buflength then At(buf, 1) else buflength;
      var rlength := At(buf, 3);
      if At(buf, 2) != 0x02 || rlength < 0 then None
      else
        var rbuf := Slice(buf, 4, 4 + rlength);
        var slength := At(buf, 5 + rlength);
        if |rbuf| != rlength || At(buf, 4 + rlength) != 0x02 || slength < 0 then None
        else
          var sbuf := Slice(buf, 6 + rlength, 6 + rlength + slength);
          if |sbuf| != slength || length != 4 + rlength + slength then None
          else Some((BigEndian(rbuf), BigEndian(sbuf)))
  }

  /** Signature.isDER */
  predicate IsDER(buf: Bytes) {
    && 8 <= |buf| <= 72
    && buf[0] == 0x30 && buf[1] == |buf| - 2 && buf[2] == 0x02
    && var lenR := buf[3];
       && lenR != 0 && buf[4] < 128 && lenR <= |buf| - 7
       && !(lenR > 1 && buf[4] == 0 && buf[5] < 128)
       && var startS := lenR + 4;
          && buf[startS] == 0x02
          && var lenS := buf[startS + 1];
             && lenS != 0 && buf[startS + 2] < 128 && startS + lenS + 2 == |buf|
             && !(lenS > 1 && buf[startS + 2] == 0 && buf[startS + 3] < 128)
  }

  // ---------- the content of one integer ----------

  /** A positive integer in its shortest form. */
  predicate Canonical(x: Bytes) {
    x != [] && x[0] < 128 && !(|x| > 1 && x[0] == 0 && x[1] < 128)
  }

  lemma ToBufferIs(n: nat)
    ensures BigEndian(ToBuffer(n)) == n && (n > 0 ==> ToBuffer(n)[0] != 0) && (n == 0 ==> ToBuffer(n) == [0])
  {
    DigitsValue(n);
    assert Reversed(Reversed(Digits(n))) == Digits(n);
  }

  lemma LeadingZero(x: Bytes)
    ensures BigEndian([0] + x) == BigEndian(x)
  {
    assert Reversed([0] + x) == Reversed(x) + [0];
    LittleEndianSnoc(Reversed(x), 0);
  }

  lemma IntegerBytesAre(n: nat)
    ensures Canonical(IntegerBytes(n)) && BigEndian(IntegerBytes(n)) == n
  {
    hide BigEndian;
    ToBufferIs(n);
    LeadingZero(ToBuffer(n));
    var b := ToBuffer(n);
    if n == 0 { assert IntegerBytes(n) == [0]; }
  }

  /** Only the bytes of its own number are a canonical integer. */
  lemma CanonicalIff(x: Bytes)
    ensures Canonical(x) <==> x == IntegerBytes(BigEndian(x))
  {
    IntegerBytesAre(BigEndian(x));
    if Canonical(x) {
      if x[0] == 0 && |x| > 1 {
        var t := x[1..];
        assert x == [0] + t;
        LeadingZero(t);
        OwnBytes(t);
      } else {
        OwnBytes(x);
      }
    }
  }

  lemma OwnBytes(x: Bytes)
    requires x != [] && (|x| == 1 || x[0] != 0)
    ensures ToBuffer(BigEndian(x)) == x
  {
    DigitsUnique(Reversed(x));
    assert Reversed(Reversed(x)) == x;
  }

  // ---------- the whole signature ----------

  /** isDER accepts exactly the frames of two canonical integers, up to 72 bytes. */
  lemma IsDERFrame(buf: Bytes)
    requires IsDER(buf)
    ensures var r, s := buf[4..4 + buf[3]], buf[6 + buf[3]..]; Canonical(r) && Canonical(s) && buf == Frame(r, s)
  {
    hide Frame;
    var n := buf[3];
    FrameParts(buf, n);
    var r, s := buf[4..4 + n], buf[6 + n..];
    assert Canonical(r) && r[0] == buf[4];
    assert Canonical(s) && s[0] == buf[6 + n];
  }

  lemma FrameParts(buf: Bytes, n: nat)
    requires n + 6 <= |buf| <= 72 && buf[0] == 0x30 && buf[1] == |buf| - 2 && buf[2] == 0x02 && buf[3] == n
    requires buf[4 + n] == 0x02 && buf[5 + n] == |buf| - n - 6
    ensures buf == Frame(buf[4..4 + n], buf[6 + n..])
  {
    hide Frame;
    var r, s := buf[4..4 + n], buf[6 + n..];
    FrameIs(r, s);
    InFour(buf, n);
    assert buf[..4] == [0x30, |buf| - 2, 0x02, n];
    assert buf[4 + n..6 + n] == [0x02, buf[5 + n]];
  }

  lemma FrameIs(r: Bytes, s: Bytes)
    requires |r| + |s| <= 66
    ensures Frame(r, s) == [0x30, 4 + |r| + |s|, 0x02, |r|] + r + [0x02, |s|] + s
  {
  }

  lemma InFour(buf: Bytes, n: nat)
    requires n + 6 <= |buf|
    ensures buf == buf[..4] + buf[4..4 + n] + buf[4 + n..6 + n] + buf[6 + n..]
  {
  }

  lemma FrameIsDER(r: Bytes, s: Bytes)
    requires Canonical(r) && Canonical(s) && |r| + |s| <= 66
    ensures IsDER(Frame(r, s))
  {
    FrameBytes(r, s);
  }

  lemma FrameBytes(r: Bytes, s: Bytes)
    requires r != [] && s != [] && |r| + |s| <= 66
    ensures var b := Frame(r, s);
            && |b| == 6 + |r| + |s| && b[0] == 0x30 && b[1] == |b| - 2 && b[2] == 2 && b[3] == |r|
            && b[4..4 + |r|] == r && b[4 + |r|] == 2 && b[5 + |r|] == |s| && b[6 + |r|..] == s
            && b[4] == r[0] && (|r| > 1 ==> b[5] == r[1]) && b[6 + |r|] == s[0] && (|s| > 1 ==> b[7 + |r|] == s[1])
  {
  }

  lemma ParseFrame(r: Bytes, s: Bytes, strict: bool)
    requires r != [] && s != [] && |r| + |s| <= 66
    ensures ParseDER(Frame(r, s), strict) == Some((BigEndian(r), BigEndian(s)))
  {
    hide BigEndian, Frame;
    FrameBytes(r, s);
    var b := Frame(r, s);
    assert Slice(b, 4, 4 + |r|) == r;
    assert Slice(b, 6 + |r|, 6 + |r| + |s|) == b[6 + |r|..];
  }

  /** Strict DER is a bijection, read from the numbers: what toDER writes is DER, and parses back. */
  lemma ToDERIsDER(r: nat, s: nat, strict: bool)
    requires |ToDER(r, s)| <= 72
    ensures IsDER(ToDER(r, s)) && ParseDER(ToDER(r, s), strict) == Some((r, s))
  {
    hide IsDER, ParseDER, Canonical, BigEndian, IntegerBytes;
    IntegerBytesAre(r);
    IntegerBytesAre(s);
    FrameIsDER(IntegerBytes(r), IntegerBytes(s));
    ParseFrame(IntegerBytes(r), IntegerBytes(s), strict);
  }

  /** Numbers below 2^256 always fit. */
  lemma SmallEnough(r: nat, s: nat)
    requires r < Pow256(32) && s < Pow256(32)
    ensures |ToDER(r, s)| <= 72
  {
    hide Pow256;
    IntegerLength(r, 32);
    IntegerLength(s, 32);
  }

  lemma IntegerLength(n: nat, k: nat)
    requires k >= 1 && n < Pow256(k)
    ensures |IntegerBytes(n)| <= k + 1
  {
    hide Pow256, Digits, IntegerBytes;
    DigitsLength(n, k);
    DigitsAndOne(n);
  }

  lemma DigitsAndOne(n: nat)
    ensures |IntegerBytes(n)| <= |Digits(n)| + 1
  {
  }

  /** Read from the bytes: isDER holds iff the buffer is at most 72 bytes, parses, and is written back byte for byte. */
  lemma IsDERIff(buf: Bytes)
    ensures IsDER(buf) <==>
            |buf| <= 72 && ParseDER(buf, true).Some? &&
            ToDER(ParseDER(buf, true).value.0, ParseDER(buf, true).value.1) == buf
  {
    hide ParseDER, Canonical, BigEndian, IsDER, Frame;
    if IsDER(buf) {
      DERIsWrittenBack(buf);
    }
    if |buf| <= 72 && ParseDER(buf, true).Some? {
      var r, s := ParseDER(buf, true).value.0, ParseDER(buf, true).value.1;
      if ToDER(r, s) == buf { ToDERIsDER(r, s, true); }
    }
  }

  lemma DERIsWrittenBack(buf: Bytes)
    requires IsDER(buf)
    ensures |buf| <= 72 && ParseDER(buf, true).Some?
    ensures ToDER(ParseDER(buf, true).value.0, ParseDER(buf, true).value.1) == buf
  {
    hide ParseDER, BigEndian, Frame, IntegerBytes;
    var r, s := buf[4..4 + buf[3]], buf[6 + buf[3]..];
    IsDERFrame(buf);
    ParseFrame(r, s, true);
    CanonicalIff(r);
    CanonicalIff(s);
  }

  /** The bytes of a signature: each number in the fewest bytes that leave its sign bit clear, each with its length. */
  lemma ToDERLayout(r: nat, s: nat) returns (rbuf: Bytes, sbuf: Bytes)
    ensures BigEndian(rbuf) == r && Shortest(rbuf) && BigEndian(sbuf) == s && Shortest(sbuf)
    ensures |rbuf| + |sbuf| <= 66 ==>
              ToDER(r, s) ==
              [0x30, 4 + |rbuf| + |sbuf|] + ([0x02, |rbuf|] + rbuf) + ([0x02, |sbuf|] + sbuf)
  {
    hide BigEndian, IntegerBytes;
    rbuf, sbuf := IntegerBytes(r), IntegerBytes(s);
    IntegerBytesAre(r);
    IntegerBytesAre(s);
  }

  /** No byte could go: the first has a clear sign bit, and if it is zero, the next one has not. */
  predicate Shortest(x: Bytes) { |x| >= 1 && x[0] < 128 && (|x| > 1 && x[0] == 0 ==> x[1] >= 128) }

  /**
   * The lax parser wants the same fields, but the length in the second byte only has to be right if it is less
   * than what follows it; whatever follows the second number is ignored then.
   */
  lemma LaxIff(buf: Bytes, rbuf: Bytes, sbuf: Bytes, rest: Bytes)
    requires |rbuf| < 256 && |sbuf| < 256 && |buf| >= 2
    requires buf[2..] == [0x02, |rbuf|] + rbuf + [0x02, |sbuf|] + sbuf + rest
    ensures ParseDER(buf, false) ==
            if buf[0] == 0x30 &&
               (if buf[1] < |buf| - 2 then buf[1] == 4 + |rbuf| + |sbuf| else rest == [])
            then Some((BigEndian(rbuf), BigEndian(sbuf)))
            else None
    ensures ParseDER(buf, true) ==
            if buf[0] == 0x30 && buf[1] == 4 + |rbuf| + |sbuf| && rest == []
            then Some((BigEndian(rbuf), BigEndian(sbuf)))
            else None
  {
    hide BigEndian;
    FieldsAt(buf, rbuf, sbuf, rest);
  }

  lemma FieldsAt(buf: Bytes, rbuf: Bytes, sbuf: Bytes, rest: Bytes)
    requires |rbuf| < 256 && |sbuf| < 256 && |buf| >= 2
    requires buf[2..] == [0x02, |rbuf|] + rbuf + [0x02, |sbuf|] + sbuf + rest
    ensures |buf| == 6 + |rbuf| + |sbuf| + |rest|
    ensures buf[2] == 2 && buf[3] == |rbuf| && buf[4 + |rbuf|] == 2 && buf[5 + |rbuf|] == |sbuf|
    ensures Slice(buf, 4, 4 + |rbuf|) == rbuf
    ensures Slice(buf, 6 + |rbuf|, 6 + |rbuf| + |sbuf|) == sbuf
  {
    var t := buf[2..];
    assert t[2 + |rbuf|] == 2 && t[3 + |rbuf|] == |sbuf|;
    assert t[2..2 + |rbuf|] == rbuf;
    assert t[4 + |rbuf|..4 + |rbuf| + |sbuf|] == sbuf;
    assert buf[4..4 + |rbuf|] == t[2..2 + |rbuf|];
    assert buf[6 + |rbuf|..6 + |rbuf| + |sbuf|] == t[4 + |rbuf|..4 + |rbuf| + |sbuf|];
  }
}
