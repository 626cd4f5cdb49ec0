/** The CashAddr checksum: two signed 32-bit limbs that are one 40-bit linear-feedback register. */
module CashAddr {
  import opened Bytes

  /** A five-bit symbol. */
  type Symbol = bv5

  // ---------- the register of the specification ----------

  function Xor(a: bv40, b: bv40): bv40 { a ^ b }

  function Term(c: bv40, bit: bv40, g: bv40): bv40 { if c & bit != 0 then g else 0 }

  /** What the five bits that leave the register feed back into it. */
  function Feedback(c: bv40): bv40 {
    Xor(Xor(Xor(Xor(Term(c, 1, 0x98f2bc8e61), Term(c, 2, 0x79b76d99e2)), Term(c, 4, 0xf33e5fb3c4)),
            Term(c, 8, 0xae2eabe2a8)), Term(c, 16, 0x1e4f43e470))
  }

  /** The register shifted by one symbol, and what its top symbol feeds back. */
  function Low(c: bv40, d: Symbol): bv40 { ((c & 0x07ffffffff) << 5) ^ (d as bv40) }

  function Top(c: bv40): bv40 { Feedback(c >> 35) }

  function Step(c: bv40, d: Symbol): bv40 { Xor(Low(c, d), Top(c)) }

  function Run(c: bv40, data: seq<Symbol>): bv40
    decreases |data|
  {
    if data == [] then c else Run(Step(c, data[0]), data[1..])
  }

  /** The checksum of the CashAddr specification, section "Checksum". */
  function Register(data: seq<Symbol>): bv40 { Xor(Run(1, data), 1) }

  // ---------- the two limbs ----------

  const GENERATOR1: seq<bv32> := [0x98, 0x79, 0xf3, 0xae, 0x1e]
  const GENERATOR2: seq<bv32> := [0xf2bc8e61, 0xb76d99e2, 0x3e5fb3c4, 0x2eabe2a8, 0x4f43e470]

  function Pack(c0: bv32, c1: bv32): bv40 { ((c0 as bv40) << 32) | (c1 as bv40) }

  /** The number that 32 bits stand for in bitwise operations. */
  function Signed(c: bv32): int { if c >= 0x8000_0000 then c as int - 0x1_0000_0000 else c as int }

  /** 1 << i, for the five generators. */
  function OneShl(i: nat): bv32
    requires i < 5
  {
    if i == 0 then 1 else if i == 1 then 2 else if i == 2 then 4 else if i == 3 then 8 else 16
  }

  /** The feedback of the first i generators. */
  function FeedbackTo(c: bv32, i: nat): bv40
    requires i <= 5
  {
    if i == 0 then 0
    else Xor(FeedbackTo(c, i - 1), if c & OneShl(i - 1) != 0 then Pack(GENERATOR1[i - 1], GENERATOR2[i - 1]) else 0)
  }

  lemma FeedbackToAll(c: bv32)
    requires c < 32
    ensures FeedbackTo(c, 5) == Feedback(c as bv40)
  {
    hide Xor, Term, Pack;
    ZeroXor(Term(c as bv40, 1, 0x98f2bc8e61));
    Generator(c, 0, 1, 0x98f2bc8e61);
    Generator(c, 1, 2, 0x79b76d99e2);
    Generator(c, 2, 4, 0xf33e5fb3c4);
    Generator(c, 3, 8, 0xae2eabe2a8);
    Generator(c, 4, 16, 0x1e4f43e470);
    assert FeedbackTo(c, 1) == Term(c as bv40, 1, 0x98f2bc8e61);
    assert FeedbackTo(c, 2) == Xor(FeedbackTo(c, 1), Term(c as bv40, 2, 0x79b76d99e2));
    assert FeedbackTo(c, 3) == Xor(FeedbackTo(c, 2), Term(c as bv40, 4, 0xf33e5fb3c4));
    assert FeedbackTo(c, 4) == Xor(FeedbackTo(c, 3), Term(c as bv40, 8, 0xae2eabe2a8));
    assert FeedbackTo(c, 5) == Xor(FeedbackTo(c, 4), Term(c as bv40, 16, 0x1e4f43e470));
  }

  /** The two tables hold the high and low limbs of the generators of the specification. */
  lemma Generator(c: bv32, i: nat, bit: bv40, g: bv40)
    requires (i == 0 && bit == 1 && g == 0x98f2bc8e61) || (i == 1 && bit == 2 && g == 0x79b76d99e2) ||
             (i == 2 && bit == 4 && g == 0xf33e5fb3c4) || (i == 3 && bit == 8 && g == 0xae2eabe2a8) ||
             (i == 4 && bit == 16 && g == 0x1e4f43e470)
    ensures Term(c as bv40, bit, g) == if c & OneShl(i) != 0 then Pack(GENERATOR1[i], GENERATOR2[i]) else 0
  {
  }

  lemma ZeroXor(a: bv40)
    ensures Xor(0, a) == a
  {
  }

  method Polymod(data: seq<Symbol>) returns (checksum: nat)
    ensures checksum == Number(Register(data))
  {
    hide Step, Pack, FeedbackTo, Xor;
    var c0: bv32, c1: bv32, C: bv32 := 0, 1, 0;
    PackStart();
    for j := 0 to |data|
      invariant c0 < 256 && Run(1, data) == Run(Pack(c0, c1), data[j..])
    {
      ghost var before := Pack(c0, c1);
      ghost var a0, a1 := c0, c1;
      C := c0 >> 3;
      c0 := c0 & 0x07;
      c0 := c0 << 5;
      c0 := c0 | (c1 >> 27);
      c1 := c1 & 0x07ffffff;
      c1 := c1 << 5;
      c1 := c1 ^ (data[j] as bv32);
      ghost var x0, x1 := c0, c1;
      c0, c1 := FeedBack(C, c0, c1);
      StepOfLimbs(a0, a1, data[j], x0, x1);
      assert data[j..][1..] == data[j + 1..];
    }
    assert data[|data|..] == [];
    checksum := Finish(c0, c1);
  }

  /** The inner loop over the generators. */
  method FeedBack(C: bv32, a0: bv32, a1: bv32) returns (c0: bv32, c1: bv32)
    requires a0 < 256
    ensures c0 < 256 && Pack(c0, c1) == Xor(Pack(a0, a1), FeedbackTo(C, 5))
  {
    hide Pack, FeedbackTo, OneShl, Xor;
    c0, c1 := a0, a1;
    FeedbackStart(C, Pack(a0, a1));
    for i := 0 to 5
      invariant c0 < 256 && Pack(c0, c1) == Xor(Pack(a0, a1), FeedbackTo(C, i))
    {
      if C & OneShl(i) == 0 {
        FeedbackSkip(C, i, Pack(c0, c1), Pack(a0, a1));
      } else {
        var g0, g1 := GENERATOR1[i], GENERATOR2[i];
        FeedbackTurn(C, i, c0, c1, g0, g1, Pack(a0, a1));
        StaysSmall(c0, i);
        c0 := c0 ^ g0;
        c1 := c1 ^ g1;
      }
    }
  }

  lemma FeedbackStart(C: bv32, p: bv40)
    ensures Xor(p, FeedbackTo(C, 0)) == p
  {
  }

  lemma FeedbackSkip(C: bv32, i: nat, q: bv40, p: bv40)
    requires i < 5 && q == Xor(p, FeedbackTo(C, i)) && C & OneShl(i) == 0
    ensures q == Xor(p, FeedbackTo(C, i + 1))
  {
    hide OneShl, Xor;
    XorZero(FeedbackTo(C, i));
  }

  lemma XorZero(a: bv40)
    ensures Xor(a, 0) == a
  {
  }

  lemma FeedbackAdd(c0: bv32, c1: bv32, g0: bv32, g1: bv32, p: bv40, f: bv40)
    requires Pack(c0, c1) == Xor(p, f)
    ensures Pack(c0 ^ g0, c1 ^ g1) == Xor(p, Xor(f, Pack(g0, g1)))
  {
    hide Pack, Xor;
    XorLimbs(c0, c1, g0, g1);
    XorAssociates(p, f, Pack(g0, g1));
  }

  lemma FeedbackTurn(C: bv32, i: nat, c0: bv32, c1: bv32, g0: bv32, g1: bv32, p: bv40)
    requires i < 5 && g0 == GENERATOR1[i] && g1 == GENERATOR2[i] && C & OneShl(i) != 0
    requires Pack(c0, c1) == Xor(p, FeedbackTo(C, i))
    ensures Pack(c0 ^ g0, c1 ^ g1) == Xor(p, FeedbackTo(C, i + 1))
  {
    hide Pack, Xor, FeedbackTo, OneShl;
    FeedbackStep(C, i, Pack(g0, g1));
    FeedbackAdd(c0, c1, g0, g1, p, FeedbackTo(C, i));
  }

  lemma StaysSmall(c0: bv32, i: nat)
    requires i < 5 && c0 < 256
    ensures c0 ^ GENERATOR1[i] < 256
  {
    var g := GENERATOR1[i];
    assert g < 256;
    SmallXor(c0, g);
  }

  lemma SmallXor(a: bv32, b: bv32)
    requires a < 256 && b < 256
    ensures a ^ b < 256
  {
  }

  lemma FeedbackStep(C: bv32, i: nat, g: bv40)
    requires i < 5 && g == Pack(GENERATOR1[i], GENERATOR2[i]) && C & OneShl(i) != 0
    ensures FeedbackTo(C, i + 1) == Xor(FeedbackTo(C, i), g)
  {
    hide Pack, OneShl, Xor;
  }

  lemma XorAssociates(p: bv40, f: bv40, g: bv40)
    ensures Xor(Xor(p, f), g) == Xor(p, Xor(f, g))
  {
  }

  /** The last xor, and the way from a signed limb to a non-negative number. */
  method Finish(a0: bv32, a1: bv32) returns (checksum: nat)
    requires a0 < 256
    ensures checksum == Number(Xor(Pack(a0, a1), 1))
  {
    hide Number, Pack;
    var n := NonNegative(a1 ^ 1);
    LimbsToNumber(a0, a1, n);
    checksum := a0 as int * 0x4000_0000 * 4 + n;
  }

  /** Negative numbers -> large positive numbers. */
  method NonNegative(limb: bv32) returns (n: nat)
    ensures n == limb as int
  {
    if Signed(limb) < 0 {
      TopBitCleared(limb);
      var c1 := limb ^ (1 << 31);
      n := Signed(c1) + 0x4000_0000 * 2;
    } else {
      n := Signed(limb);
    }
  }

  lemma PackStart()
    ensures Pack(0, 1) == 1
  {
  }

  lemma XorLimbs(c0: bv32, c1: bv32, g0: bv32, g1: bv32)
    ensures Pack(c0 ^ g0, c1 ^ g1) == Xor(Pack(c0, c1), Pack(g0, g1))
  {
  }

  /** The number that a register stands for. */
  function Number(c: bv40): nat { c as int }

  lemma LimbsToNumber(a0: bv32, a1: bv32, n: nat)
    requires a0 < 256 && n == (a1 ^ 1) as int
    ensures Number(Xor(Pack(a0, a1), 1)) == a0 as int * 0x4000_0000 * 4 + n
  {
    hide Number;
    LimbsInPlace(a0, a1);
  }

  lemma LimbsInPlace(c0: bv32, c1: bv32)
    requires c0 < 256
    ensures Number((((c0 as bv40) << 32) | (c1 as bv40)) ^ 1) == c0 as int * 0x1_0000_0000 + (c1 ^ 1) as int
  {
  }

  lemma TopBitCleared(c: bv32)
    requires c >= 0x8000_0000
    ensures c ^ (1 << 31) < 0x8000_0000 && (c ^ (1 << 31)) as int + 0x8000_0000 == c as int
  {
  }

  /** One turn of the outer loop is one step of the register. */
  lemma StepOfLimbs(c0: bv32, c1: bv32, d: Symbol, x0: bv32, x1: bv32)
    requires c0 < 256 && x0 == ((c0 & 0x07) << 5) | (c1 >> 27) && x1 == ((c1 & 0x07ffffff) << 5) ^ (d as bv32)
    ensures Xor(Pack(x0, x1), FeedbackTo(c0 >> 3, 5)) == Step(Pack(c0, c1), d)
  {
    hide FeedbackTo, Pack, Low, Top, Xor;
    FeedbackOfLimbs(c0, c1);
    ShiftedLimbs(c0, c1, d);
  }

  lemma FeedbackOfLimbs(c0: bv32, c1: bv32)
    requires c0 < 256
    ensures FeedbackTo(c0 >> 3, 5) == Top(Pack(c0, c1))
  {
    hide Feedback, FeedbackTo, Pack;
    TopBits(c0, c1);
    FeedbackToAll(c0 >> 3);
  }

  lemma TopBits(c0: bv32, c1: bv32)
    requires c0 < 256
    ensures c0 >> 3 < 32 && Pack(c0, c1) >> 35 == (c0 >> 3) as bv40
  {
  }

  lemma ShiftedLimbs(c0: bv32, c1: bv32, d: Symbol)
    requires c0 < 256
    ensures Pack(((c0 & 0x07) << 5) | (c1 >> 27), ((c1 & 0x07ffffff) << 5) ^ (d as bv32)) == Low(Pack(c0, c1), d)
  {
  }

  // ---------- the register is linear ----------

  function XorAll(s: seq<Symbol>, t: seq<Symbol>): (r: seq<Symbol>)
    requires |s| == |t|
    ensures |r| == |s|
  {
    seq(|s|, i requires 0 <= i < |s| => s[i] ^ t[i])
  }

  lemma AndOverXor(c: bv40, x: bv40, bit: bv40)
    ensures Xor(c, x) & bit == Xor(c & bit, x & bit)
  {
  }

  lemma OneBit(c: bv40)
    ensures (c & 1 == 0 || c & 1 == 1) && (c & 2 == 0 || c & 2 == 2) && (c & 4 == 0 || c & 4 == 4)
    ensures (c & 8 == 0 || c & 8 == 8) && (c & 16 == 0 || c & 16 == 16)
  {
  }

  /** A generator goes in for exactly one of two bits, or twice, or not at all. */
  lemma TermLinear(c: bv40, x: bv40, bit: bv40, g: bv40)
    requires (c & bit == 0 || c & bit == bit) && (x & bit == 0 || x & bit == bit)
    ensures Term(Xor(c, x), bit, g) == Xor(Term(c, bit, g), Term(x, bit, g))
  {
    hide Xor;
    AndOverXor(c, x, bit);
    XorFacts(0);
    XorFacts(bit);
    XorFacts(g);
    ZeroXor(bit);
    ZeroXor(g);
  }

  lemma FeedbackLinear(c: bv40, x: bv40)
    ensures Feedback(Xor(c, x)) == Xor(Feedback(c), Feedback(x))
  {
    hide Term, Xor;
    OneBit(c);
    OneBit(x);
    TermLinear(c, x, 1, 0x98f2bc8e61);
    TermLinear(c, x, 2, 0x79b76d99e2);
    TermLinear(c, x, 4, 0xf33e5fb3c4);
    TermLinear(c, x, 8, 0xae2eabe2a8);
    TermLinear(c, x, 16, 0x1e4f43e470);
    var a1, b1 := Term(c, 1, 0x98f2bc8e61), Term(x, 1, 0x98f2bc8e61);
    var a2, b2 := Term(c, 2, 0x79b76d99e2), Term(x, 2, 0x79b76d99e2);
    var a4, b4 := Term(c, 4, 0xf33e5fb3c4), Term(x, 4, 0xf33e5fb3c4);
    var a8, b8 := Term(c, 8, 0xae2eabe2a8), Term(x, 8, 0xae2eabe2a8);
    Regroup(a1, b1, a2, b2);
    Regroup(Xor(a1, a2), Xor(b1, b2), a4, b4);
    Regroup(Xor(Xor(a1, a2), a4), Xor(Xor(b1, b2), b4), a8, b8);
    Regroup(Xor(Xor(Xor(a1, a2), a4), a8), Xor(Xor(Xor(b1, b2), b4), b8),
            Term(c, 16, 0x1e4f43e470), Term(x, 16, 0x1e4f43e470));
  }

  lemma StepLinear(c: bv40, x: bv40, d: Symbol, e: Symbol)
    ensures Step(Xor(c, x), d ^ e) == Xor(Step(c, d), Step(x, e))
  {
    hide Low, Top, Xor;
    TopLinear(c, x);
    LowLinear(c, x, d, e);
    Regroup(Low(c, d), Low(x, e), Top(c), Top(x));
  }

  lemma TopLinear(c: bv40, x: bv40)
    ensures Top(Xor(c, x)) == Xor(Top(c), Top(x))
  {
    hide Feedback, Xor;
    ShiftLinear(c, x);
    FeedbackLinear(c >> 35, x >> 35);
  }

  lemma LowLinear(c: bv40, x: bv40, d: Symbol, e: Symbol)
    ensures Low(Xor(c, x), d ^ e) == Xor(Low(c, d), Low(x, e))
  {
  }

  lemma Regroup(a: bv40, b: bv40, c: bv40, d: bv40)
    ensures Xor(Xor(a, b), Xor(c, d)) == Xor(Xor(a, c), Xor(b, d))
  {
    hide Xor;
    XorAssociates(a, b, Xor(c, d));
    XorAssociates(b, c, d);
    XorCommutes(b, c);
    XorAssociates(c, b, d);
    XorAssociates(a, c, Xor(b, d));
  }

  lemma XorCommutes(a: bv40, b: bv40)
    ensures Xor(a, b) == Xor(b, a)
  {
  }

  lemma ShiftLinear(c: bv40, x: bv40)
    ensures Xor(c, x) >> 35 == Xor(c >> 35, x >> 35)
  {
  }

  lemma RunNone(c: bv40)
    ensures Run(c, []) == c
  {
  }

  lemma RunHead(c: bv40, s: seq<Symbol>)
    requires s != []
    ensures Run(c, s) == Run(Step(c, s[0]), s[1..])
  {
    hide Step;
  }

  lemma {:induction false} RunLinear(c: bv40, x: bv40, s: seq<Symbol>, t: seq<Symbol>)
    requires |s| == |t|
    ensures Run(Xor(c, x), XorAll(s, t)) == Xor(Run(c, s), Run(x, t))
    decreases |s|
  {
    hide Step, Xor, XorAll, Run;
    if s == [] {
      assert t == [] && XorAll(s, t) == [];
      RunNone(c);
      RunNone(x);
      RunNone(Xor(c, x));
    } else {
      StepLinear(c, x, s[0], t[0]);
      XorAllHead(s, t);
      RunHead(c, s);
      RunHead(x, t);
      RunHead(Xor(c, x), XorAll(s, t));
      RunLinear(Step(c, s[0]), Step(x, t[0]), s[1..], t[1..]);
    }
  }

  lemma XorAllHead(s: seq<Symbol>, t: seq<Symbol>)
    requires |s| == |t| > 0
    ensures XorAll(s, t)[0] == s[0] ^ t[0] && XorAll(s, t)[1..] == XorAll(s[1..], t[1..])
  {
  }

  /** The low five bits of the generators are 1, 2, 4, 8 and 16, so no state but zero steps to zero. */
  lemma StepInjective(x: bv40)
    requires Step(x, 0) == 0
    ensures x == 0
  {
  }

  lemma {:induction false} RunConcat(c: bv40, s: seq<Symbol>, t: seq<Symbol>)
    ensures Run(c, s + t) == Run(Run(c, s), t)
    decreases |s|
  {
    hide Step, Run;
    if s == [] {
      RunNone(c);
      assert s + t == t;
    } else {
      assert (s + t)[1..] == s[1..] + t;
      RunHead(c, s);
      RunHead(c, s + t);
      RunConcat(Step(c, s[0]), s[1..], t);
    }
  }

  function Zeros(n: nat): (z: seq<Symbol>) { seq(n, _ => 0) }

  lemma {:induction false} RunInjective(x: bv40, n: nat)
    requires Run(x, Zeros(n)) == 0
    ensures x == 0
    decreases n
  {
    hide Step, Run;
    if n > 0 {
      assert Zeros(n)[0] == 0 && Zeros(n)[1..] == Zeros(n - 1);
      RunHead(x, Zeros(n));
      RunInjective(Step(x, 0), n - 1);
      StepInjective(x);
    } else {
      assert Zeros(0) == [];
      RunNone(x);
    }
  }

  // ---------- eight symbols fill the register ----------

  /** Eight symbols side by side. */
  function Join(s: seq<Symbol>): bv40
    requires |s| == 8
  {
    ((s[0] as bv40) << 35) | ((s[1] as bv40) << 30) | ((s[2] as bv40) << 25) | ((s[3] as bv40) << 20) |
    ((s[4] as bv40) << 15) | ((s[5] as bv40) << 10) | ((s[6] as bv40) << 5) | (s[7] as bv40)
  }

  /** A symbol put in from below. */
  function Into(x: bv40, d: Symbol): bv40 { (x << 5) | (d as bv40) }

  /** Nothing is fed back while fewer than eight symbols have gone into an empty register. */
  lemma Enter(x: bv40, d: Symbol)
    requires x < 0x8_0000_0000
    ensures Step(x, d) == Into(x, d)
  {
    hide Feedback;
    assert x >> 35 == 0;
    NoFeedback();
    XorZero(Low(x, d));
  }

  lemma NoFeedback()
    ensures Feedback(0) == 0
  {
  }

  lemma IntoSize(x: bv40, d: Symbol)
    ensures x == 0 ==> Into(x, d) < 0x20
    ensures x < 0x20 ==> Into(x, d) < 0x400
    ensures x < 0x400 ==> Into(x, d) < 0x8000
    ensures x < 0x8000 ==> Into(x, d) < 0x10_0000
    ensures x < 0x10_0000 ==> Into(x, d) < 0x200_0000
    ensures x < 0x200_0000 ==> Into(x, d) < 0x4000_0000
    ensures x < 0x4000_0000 ==> Into(x, d) < 0x8_0000_0000
  {
  }

  lemma EnterFour(a: Symbol, b: Symbol, c: Symbol, d: Symbol)
    ensures var x := Into(Into(Into(Into(0, a), b), c), d);
            x < 0x10_0000 && Step(Step(Step(Step(0, a), b), c), d) == x
  {
    hide Step, Into;
    var x1 := Into(0, a);
    var x2 := Into(x1, b);
    var x3 := Into(x2, c);
    Enter(0, a);
    IntoSize(0, a);
    Enter(x1, b);
    IntoSize(x1, b);
    Enter(x2, c);
    IntoSize(x2, c);
    Enter(x3, d);
    IntoSize(x3, d);
  }

  lemma EnterFourMore(x: bv40, a: Symbol, b: Symbol, c: Symbol, d: Symbol)
    requires x < 0x10_0000
    ensures Step(Step(Step(Step(x, a), b), c), d) == Into(Into(Into(Into(x, a), b), c), d)
  {
    hide Step, Into;
    var x1 := Into(x, a);
    var x2 := Into(x1, b);
    var x3 := Into(x2, c);
    Enter(x, a);
    IntoSize(x, a);
    Enter(x1, b);
    IntoSize(x1, b);
    Enter(x2, c);
    IntoSize(x2, c);
    Enter(x3, d);
  }

  lemma IntoIsJoin(a: Symbol, b: Symbol, c: Symbol, d: Symbol, e: Symbol, f: Symbol, g: Symbol, h: Symbol)
    ensures Into(Into(Into(Into(Into(Into(Into(Into(0, a), b), c), d), e), f), g), h) == Join([a, b, c, d, e, f, g, h])
  {
  }

  lemma EightFill(s: seq<Symbol>)
    requires |s| == 8
    ensures Run(0, s) == Join(s)
  {
    hide Step, Run, Join, Into;
    EightOf(s);
    EnterFour(s[0], s[1], s[2], s[3]);
    var x := Into(Into(Into(Into(0, s[0]), s[1]), s[2]), s[3]);
    EnterFourMore(x, s[4], s[5], s[6], s[7]);
    IntoIsJoin(s[0], s[1], s[2], s[3], s[4], s[5], s[6], s[7]);
    RunEight(s[0], s[1], s[2], s[3], s[4], s[5], s[6], s[7]);
  }

  lemma EightOf(s: seq<Symbol>)
    requires |s| == 8
    ensures s == [s[0], s[1], s[2], s[3], s[4], s[5], s[6], s[7]]
  {
  }

  lemma RunEight(a: Symbol, b: Symbol, c: Symbol, d: Symbol, e: Symbol, f: Symbol, g: Symbol, h: Symbol)
    ensures var x := Step(Step(Step(Step(0, a), b), c), d);
            Run(0, [a, b, c, d, e, f, g, h]) == Step(Step(Step(Step(x, e), f), g), h)
  {
    hide Step, Run;
    RunConcat(0, [a, b, c, d], [e, f, g, h]);
    assert [a, b, c, d] + [e, f, g, h] == [a, b, c, d, e, f, g, h];
    RunFour(0, a, b, c, d);
    RunFour(Run(0, [a, b, c, d]), e, f, g, h);
  }

  lemma RunFour(x: bv40, a: Symbol, b: Symbol, c: Symbol, d: Symbol)
    ensures Run(x, [a, b, c, d]) == Step(Step(Step(Step(x, a), b), c), d)
  {
    hide Step, Run;
    RunOne(x, a, [b, c, d]);
    RunOne(Step(x, a), b, [c, d]);
    RunOne(Step(Step(x, a), b), c, [d]);
    RunOne(Step(Step(Step(x, a), b), c), d, []);
    RunNone(Step(Step(Step(Step(x, a), b), c), d));
    assert [a] + [b, c, d] == [a, b, c, d] && [b] + [c, d] == [b, c, d] && [c] + [d] == [c, d] && [d] + [] == [d];
  }

  lemma RunOne(x: bv40, d: Symbol, rest: seq<Symbol>)
    ensures Run(x, [d] + rest) == Run(Step(x, d), rest)
  {
    hide Step, Run;
    RunHead(x, [d] + rest);
    assert ([d] + rest)[1..] == rest;
  }

  // ---------- the checksum as an array of symbols ----------

  function Digit(d: Symbol): (n: nat)
    ensures n < 32
  {
    d as int
  }

  /** The number that symbols spell in base 32, most significant first. */
  function Spelled(s: seq<Symbol>): nat {
    if s == [] then 0 else Spelled(s[..|s| - 1]) * 32 + Digit(s[|s| - 1])
  }

  function Pow32(k: nat): nat { if k == 0 then 1 else 32 * Pow32(k - 1) }

  /** checksumToArray: eight low symbols, the division taken as a whole-number shift. */
  method ChecksumToArray(checksum0: nat) returns (result: seq<Symbol>)
    requires checksum0 < 0x100_0000_0000
    ensures |result| == 8 && Spelled(result) == checksum0
  {
    hide Digit, Spelled;
    var checksum: nat := checksum0;
    result := [];
    NothingSpelled();
    ghost var spelled: seq<Symbol> := [];
    for i := 0 to 8
      invariant |result| == i && |spelled| == i && spelled == Reversed(result)
      invariant checksum0 == checksum * Pow32(i) + Spelled(spelled)
    {
      var low := checksum % 32;
      SymbolNumber(low);
      PrependSymbol(low as Symbol, spelled);
      Carry(checksum, low, Pow32(i));
      result := result + [low as Symbol];
      spelled := [low as Symbol] + spelled;
      checksum := checksum / 32;
    }
    AllOut(checksum, Spelled(spelled));
    result := Reversed(result);
  }

  lemma NothingSpelled()
    ensures Spelled([]) == 0
  {
  }

  lemma SymbolNumber(n: nat)
    requires n < 32
    ensures Digit(n as Symbol) == n
  {
  }

  lemma {:induction false} PrependSymbol(d: Symbol, s: seq<Symbol>)
    ensures Spelled([d] + s) == Digit(d) * Pow32(|s|) + Spelled(s)
  {
    hide Digit;
    if s == [] {
      assert [d] + s == [d];
      assert [d][..0] == [];
    } else {
      var front, last := s[..|s| - 1], s[|s| - 1];
      assert ([d] + s)[..|s|] == [d] + front && ([d] + s)[|s|] == last;
      PrependSymbol(d, front);
      Carried(Digit(d), Pow32(|front|), Spelled(front));
    }
  }

  lemma Carried(d: nat, p: nat, v: nat)
    ensures (d * p + v) * 32 == d * (32 * p) + v * 32
  {
  }

  lemma Carry(n: nat, low: nat, p: nat)
    requires low == n % 32
    ensures n * p == (n / 32) * (32 * p) + low * p
  {
    assert n == 32 * (n / 32) + low;
  }

  lemma AllOut(n: nat, spelled: nat)
    requires n * Pow32(8) + spelled < 0x100_0000_0000
    ensures n == 0
  {
    assert Pow32(8) == 0x100_0000_0000;
  }

  // ---------- the laws of the checksum ----------

  lemma NumberOfEight(a: Symbol, b: Symbol, c: Symbol, d: Symbol, e: Symbol, f: Symbol, g: Symbol, h: Symbol)
    ensures (((a as bv40) << 35) | ((b as bv40) << 30) | ((c as bv40) << 25) | ((d as bv40) << 20) |
             ((e as bv40) << 15) | ((f as bv40) << 10) | ((g as bv40) << 5) | (h as bv40)) as int ==
            a as int * 0x8_0000_0000 + b as int * 0x4000_0000 + c as int * 0x200_0000 + d as int * 0x10_0000 +
            e as int * 0x8000 + f as int * 0x400 + g as int * 0x20 + h as int
  {
  }

  lemma JoinOfEight(a: Symbol, b: Symbol, c: Symbol, d: Symbol, e: Symbol, f: Symbol, g: Symbol, h: Symbol)
    ensures Join([a, b, c, d, e, f, g, h]) ==
            ((a as bv40) << 35) | ((b as bv40) << 30) | ((c as bv40) << 25) | ((d as bv40) << 20) |
             ((e as bv40) << 15) | ((f as bv40) << 10) | ((g as bv40) << 5) | (h as bv40)
  {
  }

  lemma JoinedNumber(a: Symbol, b: Symbol, c: Symbol, d: Symbol, e: Symbol, f: Symbol, g: Symbol, h: Symbol)
    ensures Number(Join([a, b, c, d, e, f, g, h])) ==
            Digit(a) * 0x8_0000_0000 + Digit(b) * 0x4000_0000 + Digit(c) * 0x200_0000 + Digit(d) * 0x10_0000 +
            Digit(e) * 0x8000 + Digit(f) * 0x400 + Digit(g) * 0x20 + Digit(h)
  {
    hide Join;
    NumberOfEight(a, b, c, d, e, f, g, h);
    JoinOfEight(a, b, c, d, e, f, g, h);
  }

  lemma NumberRange(c: bv40)
    ensures Number(c) < 0x100_0000_0000
  {
  }

  lemma NumberInjective(c: bv40, x: bv40)
    requires Number(c) == Number(x)
    ensures c == x
  {
    NumberBack(c);
    NumberBack(x);
    hide Number;
  }

  lemma NumberBack(c: bv40)
    ensures 0 <= Number(c) < 0x100_0000_0000 && Number(c) as bv40 == c
  {
  }

  lemma SpelledIsJoined(s: seq<Symbol>)
    requires |s| == 8
    ensures Spelled(s) == Number(Join(s))
  {
    hide Number, Join, Digit;
    JoinedNumber(s[0], s[1], s[2], s[3], s[4], s[5], s[6], s[7]);
    EightOf(s);
    SpelledEight(s);
  }

  lemma SpelledEight(s: seq<Symbol>)
    requires |s| == 8
    ensures Spelled(s) ==
            Digit(s[0]) * 0x8_0000_0000 + Digit(s[1]) * 0x4000_0000 + Digit(s[2]) * 0x200_0000 +
              Digit(s[3]) * 0x10_0000 +
            Digit(s[4]) * 0x8000 + Digit(s[5]) * 0x400 + Digit(s[6]) * 0x20 + Digit(s[7])
  {
    hide Digit, Spelled;
    assert s[..0] == [];
    NothingSpelled();
    SpelledFour(s, 0);
    SpelledFour(s, 4);
    WholeSeq(s);
  }

  lemma SpelledFour(s: seq<Symbol>, n: nat)
    requires n + 4 <= |s|
    ensures Spelled(s[..n + 4]) ==
            Spelled(s[..n]) * 0x10_0000 +
            Digit(s[n]) * 0x8000 + Digit(s[n + 1]) * 0x400 + Digit(s[n + 2]) * 0x20 + Digit(s[n + 3])
  {
    hide Digit, Spelled;
    SpelledNext(s, n);
    SpelledNext(s, n + 1);
    SpelledNext(s, n + 2);
    SpelledNext(s, n + 3);
  }

  lemma WholeSeq(s: seq<Symbol>)
    requires |s| == 8
    ensures s[..8] == s
  {
  }

  lemma SpelledNext(s: seq<Symbol>, n: nat)
    requires n < |s|
    ensures Spelled(s[..n + 1]) == Spelled(s[..n]) * 32 + Digit(s[n])
  {
    assert s[..n + 1][..n] == s[..n];
  }

  lemma XorFacts(c: bv40)
    ensures Xor(c, 0) == c && Xor(c, c) == 0
  {
  }

  lemma XorEqual(a: bv40, b: bv40)
    requires Xor(a, b) == 0
    ensures a == b
  {
  }

  lemma CancelOne(a: bv40, j: bv40)
    ensures Xor(Xor(a, j), 1) == 0 <==> j == Xor(a, 1)
  {
    hide Xor;
    XorAssociates(a, a, 1);
    XorAssociates(a, a, j);
    XorFacts(a);
    ZeroXor(1);
    ZeroXor(j);
    XorFacts(1);
    if Xor(Xor(a, j), 1) == 0 { XorEqual(Xor(a, j), 1); }
  }

  lemma ZerosXor(s: seq<Symbol>)
    ensures XorAll(Zeros(|s|), s) == s
  {
    forall i | 0 <= i < |s| ensures XorAll(Zeros(|s|), s)[i] == s[i] { ZeroSymbol(s[i]); }
  }

  lemma ZeroSymbol(d: Symbol)
    ensures 0 ^ d == d && d ^ d == 0
  {
  }

  lemma SelfXor(s: seq<Symbol>)
    ensures XorAll(s, s) == Zeros(|s|)
  {
    forall i | 0 <= i < |s| ensures XorAll(s, s)[i] == 0 { ZeroSymbol(s[i]); }
  }

  /** The eight last symbols make the checksum come out as zero iff, side by side, they are the checksum for zeros. */
  lemma ZeroChecksumIff(data: seq<Symbol>, s: seq<Symbol>)
    requires |s| == 8
    ensures Register(data + s) == 0 <==> Join(s) == Register(data + Zeros(8))
  {
    hide Step, Run, Xor, XorAll, Join, Zeros;
    var c := Run(1, data);
    RunConcat(1, data, s);
    RunConcat(1, data, Zeros(8));
    XorFacts(c);
    ZerosXor(s);
    RunLinear(c, 0, Zeros(8), s);
    EightFill(s);
    CancelOne(Run(c, Zeros(8)), Join(s));
  }

  lemma JoinInjective(s: seq<Symbol>, t: seq<Symbol>)
    requires |s| == |t| == 8 && Join(s) == Join(t)
    ensures s == t
  {
    hide Join;
    SpelledIsJoined(s);
    SpelledIsJoined(t);
    SpelledInjective(s, t);
  }

  lemma {:induction false} SpelledInjective(s: seq<Symbol>, t: seq<Symbol>)
    requires |s| == |t| && Spelled(s) == Spelled(t)
    ensures s == t
  {
    hide Digit;
    if s != [] {
      var n := |s| - 1;
      LastDigit(Spelled(s[..n]), Digit(s[n]), Spelled(t[..n]), Digit(t[n]));
      SpelledInjective(s[..n], t[..n]);
      DigitInjective(s[n], t[n]);
      assert s == s[..n] + [s[n]] && t == t[..n] + [t[n]];
    }
  }

  lemma LastDigit(x: nat, d: nat, y: nat, e: nat)
    requires d < 32 && e < 32 && x * 32 + d == y * 32 + e
    ensures x == y && d == e
  {
  }

  lemma DigitInjective(d: Symbol, e: Symbol)
    requires Digit(d) == Digit(e)
    ensures d == e
  {
  }

  // ---------- addresses ----------

  /** prefixToArray, and the zero after it. */
  function PrefixData(prefix: string): seq<Symbol> {
    seq(|prefix|, i requires 0 <= i < |prefix| => CharSymbol(prefix[i])) + [0]
  }

  function CharSymbol(c: char): Symbol { (c as int % 32) as Symbol }

  predicate ValidChecksum(prefix: string, payload: seq<Symbol>) {
    Number(Register(PrefixData(prefix) + payload)) == 0
  }

  /** validChecksum inside decodeCashAddress. */
  method CheckPayload(prefix: string, payload: seq<Symbol>) returns (ok: bool)
    ensures ok <==> ValidChecksum(prefix, payload)
  {
    hide Number, Register;
    var prefixData: seq<Symbol> := [];
    for i := 0 to |prefix|
      invariant prefixData == PrefixData(prefix)[..i]
    {
      prefixData := prefixData + [CharSymbol(prefix[i])];
    }
    prefixData := prefixData + [0];
    assert prefixData == PrefixData(prefix);
    var checksum := Polymod(prefixData + payload);
    ok := checksum == 0;
  }

  /** The end of toCashAddress: the checksum is appended to the payload. */
  method AppendChecksum(prefix: string, payloadData: seq<Symbol>) returns (payload: seq<Symbol>)
    ensures |payload| == |payloadData| + 8 && payload[..|payloadData|] == payloadData
    ensures ValidChecksum(prefix, payload)
    ensures forall s: seq<Symbol> :: |s| == 8 && ValidChecksum(prefix, payloadData + s) ==> payloadData + s == payload
  {
    hide Number, Register, Join, Spelled, ValidChecksum;
    var eight0: seq<Symbol> := Zeros(8);
    var data := PrefixData(prefix) + payloadData;
    var checksum := Polymod(data + eight0);
    NumberRange(Register(data + eight0));
    var r := ChecksumToArray(checksum);
    payload := payloadData + r;
    SpelledIsJoined(r);
    NumberInjective(Join(r), Register(data + eight0));
    forall s: seq<Symbol> | |s| == 8 ensures ValidChecksum(prefix, payloadData + s) <==> s == r {
      OnlyOneChecksum(prefix, payloadData, s, r);
    }
  }

  lemma OnlyOneChecksum(prefix: string, payloadData: seq<Symbol>, s: seq<Symbol>, r: seq<Symbol>)
    requires |s| == |r| == 8 && Join(r) == Register(PrefixData(prefix) + payloadData + Zeros(8))
    ensures ValidChecksum(prefix, payloadData + s) <==> s == r
  {
    hide Number, Register, Join, Zeros;
    var data := PrefixData(prefix) + payloadData;
    assert PrefixData(prefix) + (payloadData + s) == data + s;
    ZeroChecksumIff(data, s);
    ZeroNumber(Register(data + s));
    if Join(s) == Join(r) { JoinInjective(s, r); }
  }

  lemma ZeroNumber(c: bv40)
    ensures Number(c) == 0 <==> c == 0
  {
    ZeroIsZero();
    if Number(c) == 0 { NumberInjective(c, 0); }
    hide Number;
  }

  lemma ZeroIsZero()
    ensures Number(0) == 0
  {
  }

  // ---------- error detection ----------

  lemma {:induction false} ZeroRun(n: nat)
    ensures Run(0, Zeros(n)) == 0
    decreases n
  {
    hide Step, Run;
    if n > 0 {
      assert Zeros(n)[0] == 0 && Zeros(n)[1..] == Zeros(n - 1);
      ZeroStep();
      RunHead(0, Zeros(n));
      ZeroRun(n - 1);
    } else {
      assert Zeros(0) == [];
      RunNone(0);
    }
  }

  lemma ZeroStep()
    ensures Step(0, 0) == 0
  {
  }

  /** Up to eight symbols, not all zero, leave a mark in an empty register. */
  lemma ShortRunMarks(d: seq<Symbol>)
    requires |d| <= 8 && Run(0, d) == 0
    ensures d == Zeros(|d|)
  {
    hide Step, Run, Join;
    var n := 8 - |d|;
    var padded := Zeros(n) + d;
    RunConcat(0, Zeros(n), d);
    ZeroRun(n);
    EightFill(padded);
    ZeroRun(8);
    EightFill(Zeros(8));
    JoinInjective(padded, Zeros(8));
    assert d == padded[n..] == Zeros(8)[n..] == Zeros(|d|);
  }

  lemma {:induction false} EqualFromXor(s: seq<Symbol>, t: seq<Symbol>)
    requires |s| == |t| && XorAll(s, t) == Zeros(|s|)
    ensures s == t
  {
    forall i | 0 <= i < |s| ensures s[i] == t[i] {
      assert XorAll(s, t)[i] == 0;
      SymbolsEqual(s[i], t[i]);
    }
  }

  lemma SymbolsEqual(d: Symbol, e: Symbol)
    requires d ^ e == 0
    ensures d == e
  {
  }

  /** Changing at most eight consecutive symbols always changes the checksum. */
  lemma WindowChangesChecksum(a: seq<Symbol>, u: seq<Symbol>, v: seq<Symbol>, b: seq<Symbol>)
    requires |u| == |v| <= 8 && Register(a + u + b) == Register(a + v + b)
    ensures u == v
  {
    hide Step, Run, Xor, XorAll, Zeros;
    var c := Run(1, a);
    var p, q := Run(c, u), Run(c, v);
    RunThree(a, u, b);
    RunThree(a, v, b);
    SameBeforeOne(Run(p, b), Run(q, b));
    XorFacts(c);
    RunLinear(c, c, u, v);
    RunLinear(p, q, b, b);
    SelfXor(b);
    XorFacts(Run(p, b));
    RunInjective(Xor(p, q), |b|);
    ShortRunMarks(XorAll(u, v));
    EqualFromXor(u, v);
  }

  lemma RunThree(a: seq<Symbol>, u: seq<Symbol>, b: seq<Symbol>)
    ensures Run(1, a + u + b) == Run(Run(Run(1, a), u), b)
  {
    hide Step, Run;
    RunConcat(1, a + u, b);
    RunConcat(1, a, u);
  }

  lemma SameBeforeOne(x: bv40, y: bv40)
    requires Xor(x, 1) == Xor(y, 1)
    ensures x == y
  {
  }

  /** Two different payloads that differ only inside a window of eight symbols are never both valid. */
  lemma WindowErrorsDetected(prefix: string, s: seq<Symbol>, t: seq<Symbol>, i: nat, j: nat)
    requires |s| == |t| && i <= j <= |s| && j - i <= 8
    requires forall k :: 0 <= k < |s| && !(i <= k < j) ==> s[k] == t[k]
    requires ValidChecksum(prefix, s) && ValidChecksum(prefix, t)
    ensures s == t
  {
    hide Number, Register;
    var p := PrefixData(prefix);
    ZeroNumber(Register(p + s));
    ZeroNumber(Register(p + t));
    assert s[..i] == t[..i] && s[j..] == t[j..];
    assert p + s == (p + s[..i]) + s[i..j] + s[j..];
    assert p + t == (p + s[..i]) + t[i..j] + s[j..];
    WindowChangesChecksum(p + s[..i], s[i..j], t[i..j], s[j..]);
    assert s == s[..i] + s[i..j] + s[j..] && t == t[..i] + t[i..j] + t[j..];
  }
}
