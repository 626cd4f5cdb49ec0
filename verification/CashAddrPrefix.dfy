/** The prefix of an address: its letters count, their case does not, and a damaged one is noticed. */
module CashAddrPrefix {
  import opened CashAddr

  // ---------- the letters of a prefix ----------

  /** Letters that agree in their five lowest bits. */
  predicate SameLetters(p: string, q: string) {
    |p| == |q| && forall i :: 0 <= i < |p| ==> p[i] as int % 32 == q[i] as int % 32
  }

  lemma LetterSymbol(c: char)
    ensures Digit(CharSymbol(c)) == c as int % 32
  {
    hide Digit;
    SymbolNumber(c as int % 32);
  }

  /** What is fed to the register before the payload: each letter modulo 32, and a zero. */
  lemma PrefixSymbols(prefix: string)
    ensures var d := PrefixData(prefix);
            && |d| == |prefix| + 1 && d[|prefix|] == 0
            && forall i :: 0 <= i < |prefix| ==> Digit(d[i]) == prefix[i] as int % 32
  {
    hide Digit, CharSymbol;
    forall i | 0 <= i < |prefix| ensures Digit(PrefixData(prefix)[i]) == prefix[i] as int % 32 {
      LetterSymbol(prefix[i]);
    }
  }

  /** Upper and lower case of a letter are 32 apart, so an address is as valid in capitals as in small letters. */
  lemma CaseIsIrrelevant(p: string, q: string, payload: seq<Symbol>)
    requires |p| == |q|
    requires forall i :: 0 <= i < |p| ==>
               p[i] == q[i] || ('a' <= p[i] <= 'z' && q[i] as int == p[i] as int - 32) ||
               ('A' <= p[i] <= 'Z' && q[i] as int == p[i] as int + 32)
    ensures ValidChecksum(p, payload) <==> ValidChecksum(q, payload)
  {
    hide Register, Number;
    SameSymbols(p, q, |p|);
  }

  /** Prefixes with the same letters up to k have the same symbols up to there. */
  lemma SameSymbols(p: string, q: string, k: nat)
    requires |p| == |q| && k <= |p| && forall i :: 0 <= i < k ==> p[i] as int % 32 == q[i] as int % 32
    ensures PrefixData(p)[..k] == PrefixData(q)[..k] && (k == |p| ==> PrefixData(p) == PrefixData(q))
  {
    hide Digit, CharSymbol;
    var c, d := PrefixData(p), PrefixData(q);
    PrefixSymbols(p);
    PrefixSymbols(q);
    forall i | 0 <= i < k ensures c[i] == d[i] { DigitInjective(c[i], d[i]); }
  }

  /**
   * Two prefixes that differ in their letters, and only inside a window of eight, never make the same payload
   * valid: a damaged prefix is noticed.
   */
  lemma PrefixErrorsDetected(p: string, q: string, payload: seq<Symbol>, i: nat, j: nat)
    requires |p| == |q| && i <= j <= |p| && j - i <= 8
    requires forall k :: 0 <= k < |p| && !(i <= k < j) ==> p[k] as int % 32 == q[k] as int % 32
    requires ValidChecksum(p, payload) && ValidChecksum(q, payload)
    ensures SameLetters(p, q)
  {
    hide Register, Number, Digit, CharSymbol;
    var c, d := PrefixData(p), PrefixData(q);
    PrefixSymbols(p);
    PrefixSymbols(q);
    SameSymbols(p, q, i);
    assert c[j..] == d[j..] by { SameTail(p, q, j); }
    assert c + payload == c[..i] + c[i..j] + (c[j..] + payload);
    assert d + payload == c[..i] + d[i..j] + (c[j..] + payload);
    ZeroNumber(Register(c + payload));
    ZeroNumber(Register(d + payload));
    WindowChangesChecksum(c[..i], c[i..j], d[i..j], c[j..] + payload);
    forall k | 0 <= k < |p| ensures p[k] as int % 32 == q[k] as int % 32 {
      if i <= k < j { assert c[k] == c[i..j][k - i] == d[i..j][k - i] == d[k]; }
    }
  }

  lemma SameTail(p: string, q: string, j: nat)
    requires |p| == |q| && j <= |p| && forall k :: j <= k < |p| ==> p[k] as int % 32 == q[k] as int % 32
    ensures PrefixData(p)[j..] == PrefixData(q)[j..]
  {
    hide Digit, CharSymbol;
    var c, d := PrefixData(p), PrefixData(q);
    PrefixSymbols(p);
    PrefixSymbols(q);
    forall k | j <= k < |c| ensures c[k] == d[k] {
      if k < |p| { DigitInjective(c[k], d[k]); }
    }
  }

  // ---------- an address ----------

  /** The symbols of qpm2qsznhks23z7629mms6s4cwef74vcwvy22gdx6a, seven at a time. */
  const EXAMPLE1: seq<Symbol> := [0, 1, 27, 10, 0, 16, 2]
  const EXAMPLE2: seq<Symbol> := [19, 23, 22, 16, 10, 17, 2]
  const EXAMPLE3: seq<Symbol> := [30, 26, 10, 5, 27, 27, 16]
  const EXAMPLE4: seq<Symbol> := [26, 16, 21, 24, 14, 25, 9]
  const EXAMPLE5: seq<Symbol> := [30, 21, 12, 24, 14, 12, 4]
  const EXAMPLE6: seq<Symbol> := [10, 10, 8, 13, 6, 26, 29]
  const EXAMPLE: seq<Symbol> := EXAMPLE1 + EXAMPLE2 + EXAMPLE3 + EXAMPLE4 + EXAMPLE5 + EXAMPLE6

  lemma FeedbackIs(c: bv40)
    ensures Feedback(c) ==
            ((((if c & 1 != 0 then 0x98f2bc8e61 else 0) ^ (if c & 2 != 0 then 0x79b76d99e2 else 0)) ^
              (if c & 4 != 0 then 0xf33e5fb3c4 else 0)) ^ (if c & 8 != 0 then 0xae2eabe2a8 else 0)) ^
            (if c & 16 != 0 then 0x1e4f43e470 else 0)
  {
  }

  /** A step of the register in one expression. */
  lemma Stepped(x: bv40, d: Symbol)
    ensures Step(x, d) ==
            Xor(((x & 0x07ffffffff) << 5) ^ (d as bv40),
                ((((if (x >> 35) & 1 != 0 then 0x98f2bc8e61 else 0) ^
                   (if (x >> 35) & 2 != 0 then 0x79b76d99e2 else 0)) ^
                  (if (x >> 35) & 4 != 0 then 0xf33e5fb3c4 else 0)) ^
                 (if (x >> 35) & 8 != 0 then 0xae2eabe2a8 else 0)) ^
                (if (x >> 35) & 16 != 0 then 0x1e4f43e470 else 0))
  {
    hide Feedback, Low, Xor;
    LowIs(x, d);
    FeedbackIs(x >> 35);
  }

  lemma LowIs(x: bv40, d: Symbol)
    ensures Low(x, d) == ((x & 0x07ffffffff) << 5) ^ (d as bv40)
  {
  }

  lemma Joined<T>(a: T, b: T, c: T, d: T, e: T, f: T, g: T)
    ensures [a, b, c, d] + [e, f, g] == [a, b, c, d, e, f, g]
    ensures [a] + [b, c] == [a, b, c] && [b] + [c] == [b, c] && [c] + [] == [c]
  {
  }

  lemma SevenSteps(x: bv40, a: Symbol, b: Symbol, c: Symbol, d: Symbol, e: Symbol, f: Symbol, g: Symbol)
    ensures Run(x, [a, b, c, d, e, f, g]) == Step(Step(Step(Step(Step(Step(Step(x, a), b), c), d), e), f), g)
  {
    hide Step, Run;
    RunConcat(x, [a, b, c, d], [e, f, g]);
    Joined(a, b, c, d, e, f, g);
    RunFour(x, a, b, c, d);
    ThreeSteps(Run(x, [a, b, c, d]), e, f, g);
  }

  lemma ThreeSteps(x: bv40, a: Symbol, b: Symbol, c: Symbol)
    ensures Run(x, [a, b, c]) == Step(Step(Step(x, a), b), c)
  {
    hide Step, Run;
    Joined(a, b, c, a, a, a, a);
    RunOne(x, a, [b, c]);
    RunOne(Step(x, a), b, [c]);
    RunOne(Step(Step(x, a), b), c, []);
    RunNone(Step(Step(Step(x, a), b), c));
  }

  lemma ExamplePart1()
    ensures Run(0xf669cd6d15, EXAMPLE1) == 0x1860481ac9
  {
    hide Run, Step;
    SevenSteps(0xf669cd6d15, 0, 1, 27, 10, 0, 16, 2);
    Stepped(0xf669cd6d15, 0);
    Stepped(0xf7d1778e5e, 1);
    Stepped(0xc0c62be73f, 27);
    Stepped(0xa8a494e123, 10);
    Stepped(0x61113cfdbf, 0);
    Stepped(0x7f376be68c, 16);
    Stepped(0x5ab859977f, 2);
  }

  lemma ExamplePart2()
    ensures Run(0x1860481ac9, EXAMPLE2) == 0x43e32a9e98
  {
    hide Run, Step;
    SevenSteps(0x1860481ac9, 19, 23, 22, 16, 10, 17, 2);
    Stepped(0x1860481ac9, 19);
    Stepped(0xed4cd24eb0, 23);
    Stepped(0x723742ed6a, 22);
    Stepped(0x624fc465d8, 16);
    Stepped(0x14e878ea7c, 10);
    Stepped(0xe4b870d668, 17);
    Stepped(0xd451ad780d, 2);
  }

  lemma ExamplePart3()
    ensures Run(0x43e32a9e98, EXAMPLE3) == 0xfb4479493b
  {
    hide Run, Step;
    SevenSteps(0x43e32a9e98, 30, 26, 10, 5, 27, 27, 16);
    Stepped(0x43e32a9e98, 30);
    Stepped(0xd24bf831b6, 26);
    Stepped(0x80a983a9e0, 10);
    Stepped(0xb7f36d87a, 5);
    Stepped(0xf714678124, 27);
    Stepped(0xd8642a0865, 27);
    Stepped(0x5da1781de0, 16);
  }

  lemma ExamplePart4()
    ensures Run(0xfb4479493b, EXAMPLE4) == 0x532a422ef8
  {
    hide Run, Step;
    SevenSteps(0xfb4479493b, 26, 16, 21, 24, 14, 25, 9);
    Stepped(0xfb4479493b, 26);
    Stepped(0xca954f85e5, 16);
    Stepped(0x7a3aa43409, 21);
    Stepped(0xfb01a3c7da, 24);
    Stepped(0xc22e1e59c7, 14);
    Stepped(0xf5a2233e36, 25);
    Stepped(0x8eacbdea27, 9);
  }

  lemma ExamplePart5()
    ensures Run(0x532a422ef8, EXAMPLE5) == 0xb30dbfaa29
  {
    hide Run, Step;
    SevenSteps(0x532a422ef8, 30, 21, 12, 24, 14, 12, 4);
    Stepped(0x532a422ef8, 30);
    Stepped(0xb2d183a454, 21);
    Stepped(0xcef60544c3, 12);
    Stepped(0xf653fc10d5, 24);
    Stepped(0xf097583646, 14);
    Stepped(0x2803dce430, 12);
    Stepped(0x6bb77fbba9, 4);
  }

  lemma ExamplePart6()
    ensures Run(0xb30dbfaa29, EXAMPLE6) == 0x1
  {
    hide Run, Step;
    SevenSteps(0xb30dbfaa29, 10, 10, 8, 13, 6, 26, 29);
    Stepped(0xb30dbfaa29, 10);
    Stepped(0xf571848b7c, 10);
    Stepped(0x94d84b4374, 8);
    Stepped(0xfcf146131a, 13);
    Stepped(0x3c32a4c1d2, 6);
    Stepped(0x942f169e01, 26);
    Stepped(0xe21afdbda8, 29);
  }

  /** The letters of "bitcoincash", and the zero after them. */
  lemma PrefixOfExample()
    ensures PrefixData("bitcoincash") == [2, 9, 20, 3] + [15, 9, 14, 3] + [1, 19, 8, 0]
  {
  }

  lemma ExamplePrefix()
    ensures Run(1, PrefixData("bitcoincash")) == 0xf669cd6d15
  {
    hide Run, Step;
    PrefixOfExample();
    RunConcat(1, [2, 9, 20, 3] + [15, 9, 14, 3], [1, 19, 8, 0]);
    RunConcat(1, [2, 9, 20, 3], [15, 9, 14, 3]);
    RunFour(1, 2, 9, 20, 3);
    RunFour(0x112683, 15, 9, 14, 3);
    RunFour(0x8a9a8b2ba2, 1, 19, 8, 0);
    Stepped(0x1, 2);
    Stepped(0x22, 9);
    Stepped(0x449, 20);
    Stepped(0x8934, 3);
    Stepped(0x112683, 15);
    Stepped(0x224d06f, 9);
    Stepped(0x449a0de9, 14);
    Stepped(0x89341bd2e, 3);
    Stepped(0x8a9a8b2ba2, 1);
    Stepped(0xd5ec9a1e50, 19);
    Stepped(0x7445c65529, 8);
    Stepped(0xac1f536da6, 0);
  }

  /** A known address passes: this fixes where the register starts, its generators and the last xor. */
  lemma ExampleIsValid()
    ensures ValidChecksum("bitcoincash", EXAMPLE)
  {
    hide Run, Step, Number, EXAMPLE1, EXAMPLE2, EXAMPLE3, EXAMPLE4, EXAMPLE5, EXAMPLE6, PrefixData;
    var c := Run(1, PrefixData("bitcoincash"));
    RunConcat(1, PrefixData("bitcoincash"), EXAMPLE);
    RunConcat(c, EXAMPLE1 + EXAMPLE2 + EXAMPLE3 + EXAMPLE4 + EXAMPLE5, EXAMPLE6);
    RunConcat(c, EXAMPLE1 + EXAMPLE2 + EXAMPLE3 + EXAMPLE4, EXAMPLE5);
    RunConcat(c, EXAMPLE1 + EXAMPLE2 + EXAMPLE3, EXAMPLE4);
    RunConcat(c, EXAMPLE1 + EXAMPLE2, EXAMPLE3);
    RunConcat(c, EXAMPLE1, EXAMPLE2);
    ExamplePrefix();
    ExamplePart1();
    ExamplePart2();
    ExamplePart3();
    ExamplePart4();
    ExamplePart5();
    ExamplePart6();
    XorFacts(1);
    ZeroNumber(0);
  }
}
