/**
 What the checksum is for: it is the frame check sequence of IEEE 802.3, it
 detects every burst of at most 32 bits, and a message followed by its own
 checksum leaves a residue that depends on nothing else.
 */
module Crc32Properties {
  import opened Crc32

  // ------------------------------------------------- division of polynomials
  // A polynomial over GF(2) is the string of its coefficients, highest degree
  // first.

  /** The exponents below 32 of the generator polynomial; its leading term is x^32. */
  const EXPONENTS: set<int> := {26, 23, 22, 16, 12, 11, 10, 8, 7, 5, 4, 2, 1, 0}

  function Generator(): (g: seq<bool>)
    ensures |g| == 32
  {
    seq(32, i => (31 - i) in EXPONENTS)
  }

  /** p with g added to its leading coefficients. */
  function AddFront(p: seq<bool>, g: seq<bool>): (s: seq<bool>)
    requires |g| <= |p|
    ensures |s| == |p|
    ensures forall i :: 0 <= i < |p| ==> s[i] == (if i < |g| then p[i] != g[i] else p[i])
  {
    seq(|p|, i requires 0 <= i < |p| => if i < |g| then p[i] != g[i] else p[i])
  }

  /** The remainder of p divided by the generator, by long division. */
  function Remainder(p: seq<bool>): (r: seq<bool>)
    requires |p| >= 32
    ensures |r| == 32
    decreases |p|
  {
    if |p| == 32 then p
    else if p[0] then Remainder(AddFront(p[1..], Generator()))
    else Remainder(p[1..])
  }

  function Quotient(p: seq<bool>): (q: seq<bool>)
    requires |p| >= 32
    ensures |q| == |p| - 32
    decreases |p|
  {
    if |p| == 32 then []
    else if p[0] then [true] + Quotient(AddFront(p[1..], Generator()))
    else [false] + Quotient(p[1..])
  }

  /** The product of q and the generator. */
  function TimesGenerator(q: seq<bool>): (p: seq<bool>)
    ensures |p| == |q| + 32
  {
    if q == [] then Zeros(32)
    else if q[0] then AddFront([false] + TimesGenerator(q[1..]), [true] + Generator())
    else [false] + TimesGenerator(q[1..])
  }

  /** One turn of the long division, with lead and tail the dividend and g the generator. */
  lemma DivisionTurn(lead: bool, tail: seq<bool>, g: seq<bool>, product: seq<bool>, rest: seq<bool>)
    requires |g| <= |tail| == |product| == |rest|
    requires (if lead then AddFront(tail, g) else tail) == XorBits(product, rest)
    ensures var shifted := [false] + product;
      [lead] + tail == XorBits(if lead then AddFront(shifted, [true] + g) else shifted, [false] + rest)
  {
    var t := if lead then AddFront(tail, g) else tail;
    var shifted := [false] + product;
    var product' := if lead then AddFront(shifted, [true] + g) else shifted;
    forall i | 0 <= i <= |tail|
      ensures ([lead] + tail)[i] == (product'[i] != ([false] + rest)[i])
    {
      if i > 0 { assert t[i - 1] == (product[i - 1] != rest[i - 1]); }
    }
  }

  lemma DivideFirst(p: seq<bool>)
    requires |p| > 32
    ensures var t := if p[0] then AddFront(p[1..], Generator()) else p[1..];
      Quotient(p) == [p[0]] + Quotient(t) && Remainder(p) == Remainder(t)
  {
    hide Generator, AddFront;
  }

  lemma TimesFirst(lead: bool, q: seq<bool>)
    ensures var shifted := [false] + TimesGenerator(q);
      TimesGenerator([lead] + q) == if lead then AddFront(shifted, [true] + Generator()) else shifted
  {
    hide Generator, AddFront;
    assert ([lead] + q)[1..] == q;
  }

  lemma ZerosFirst(n: nat, r: seq<bool>)
    ensures Zeros(n + 1) + r == [false] + (Zeros(n) + r)
  {}

  lemma FirstRest(p: seq<bool>)
    requires p != []
    ensures [p[0]] + p[1..] == p
  {}

  lemma DivideNothing(p: seq<bool>)
    requires |p| == 32
    ensures p == XorBits(TimesGenerator(Quotient(p)), Zeros(0) + Remainder(p))
  {
    hide Generator;
    assert Zeros(0) + p == p;
  }

  /** Remainder is a remainder: dividend = quotient * generator + remainder. */
  lemma {:induction false} DivisionIdentity(p: seq<bool>)
    requires |p| >= 32
    ensures p == XorBits(TimesGenerator(Quotient(p)), Zeros(|p| - 32) + Remainder(p))
    decreases |p|
  {
    hide Generator, Zeros, XorBits, AddFront, Quotient, Remainder, TimesGenerator;
    if |p| > 32 {
      var t := if p[0] then AddFront(p[1..], Generator()) else p[1..];
      DivisionIdentity(t);
      DivideFirst(p);
      TimesFirst(p[0], Quotient(t));
      ZerosFirst(|t| - 32, Remainder(t));
      DivisionTurn(p[0], p[1..], Generator(), TimesGenerator(Quotient(t)), Zeros(|t| - 32) + Remainder(t));
      FirstRest(p);
    } else {
      DivideNothing(p);
    }
  }

  // ------------------------------------------------ the register is a divider

  lemma {:induction false} BitsExtend(r: bv32, n: nat)
    requires Fits(r, n)
    ensures ToBits(r, n + 1) == ToBits(r, n) + [false]
    decreases n
  {
    hide Shr, Low;
    if n == 0 {
      LowZero();
      assert ToBits(r, 1) == [Low(r)] + ToBits(Shr(r), 0);
    } else {
      BitsExtend(Shr(r), n - 1);
    }
  }

  lemma LowZero()
    ensures !Low(0)
  {}

  lemma ShiftedBits(r: bv32)
    ensures ToBits(Shr(r), 32) == ToBits(r, 32)[1..] + [false]
  {
    hide Shr, Low;
    ShrFits(r);
    BitsExtend(Shr(r), 31);
    assert ToBits(r, 32)[1..] == ToBits(Shr(r), 31);
  }

  const BYTE0 := [false, false, false, false, false, true, false, false]
  const BYTE1 := [true, true, false, false, false, false, false, true]
  const BYTE2 := [false, false, false, true, true, true, false, true]
  const BYTE3 := [true, false, true, true, false, true, true, true]

  lemma GeneratorBytes()
    ensures Generator() == BYTE0 + (BYTE1 + (BYTE2 + BYTE3))
  {
    var g := Generator();
    assert g[..8] == BYTE0;
    assert g[8..16] == BYTE1;
    assert g[16..24] == BYTE2;
    assert g[24..] == BYTE3;
    hide Generator, EXPONENTS, BYTE0, BYTE1, BYTE2, BYTE3;
    assert g == g[..8] + (g[8..16] + (g[16..24] + g[24..]));
  }

  lemma PolyIsGenerator()
    ensures ToBits(POLY, 32) == Generator()
  {
    hide ToBits, Generator, EXPONENTS, BYTE0, BYTE1, BYTE2, BYTE3;
    var r1, r2, r3 := 0x00ED_B883 as bv32, 0x0000_EDB8 as bv32, 0x0000_00ED as bv32;
    ToBitsAdd(POLY, 8, 24);
    ToBitsAdd(r1, 8, 16);
    ToBitsAdd(r2, 8, 8);
    ShrByEight(POLY);
    ShrByEight(r1);
    ShrByEight(r2);
    PolyByte0(POLY);
    PolyByte1(r1);
    PolyByte2(r2);
    PolyByte3(r3);
    GeneratorBytes();
  }

  lemma PolyByte0(r: bv32)
    requires LowByte(r) == 0x20
    ensures ToBits(r, 8) == BYTE0
  {}

  lemma PolyByte1(r: bv32)
    requires LowByte(r) == 0x83
    ensures ToBits(r, 8) == BYTE1
  {}

  lemma PolyByte2(r: bv32)
    requires LowByte(r) == 0xB8
    ensures ToBits(r, 8) == BYTE2
  {}

  lemma PolyByte3(r: bv32)
    requires LowByte(r) == 0xED
    ensures ToBits(r, 8) == BYTE3
  {}

  /** What one message bit does to the register, read as coefficients. */
  lemma BitStepBits(r: bv32, b: bool)
    ensures var t := ToBits(r, 32)[1..] + [false];
            ToBits(BitStep(Xor(r, Bit(b))), 32)
            == if ToBits(r, 32)[0] != b then XorBits(t, Generator()) else t
  {
    hide Shr, Low, Xor, Bit, XorBits, Generator, EXPONENTS;
    AddBit(r, b);
    ShiftedBits(r);
    ToBitsXor(Shr(r), POLY, 32);
    PolyIsGenerator();
  }

  /** Without its leading coefficient, m * x^32 plus bits is m[1..] * x^32 plus bits moved up. */
  lemma FrontMoves(m: seq<bool>, bits: seq<bool>)
    requires m != [] && |bits| == 32
    ensures var p := AddFront(m + Zeros(32), bits);
      p[0] == (m[0] != bits[0]) && p[1..] == AddFront(m[1..] + Zeros(32), bits[1..] + [false])
  {
    hide AddFront;
    var p, q := AddFront(m + Zeros(32), bits), AddFront(m[1..] + Zeros(32), bits[1..] + [false]);
    forall i | 0 <= i < |q|
      ensures p[i + 1] == q[i]
    {}
  }

  lemma AddFrontTwice(p: seq<bool>, a: seq<bool>, b: seq<bool>)
    requires |a| == |b| <= |p|
    ensures AddFront(AddFront(p, a), b) == AddFront(p, XorBits(a, b))
  {}

  /** Feeding m to a register holding r divides m * x^32, with r added in front. */
  lemma {:induction false} FeedIsRemainder(r: bv32, m: seq<bool>)
    ensures Remainder(AddFront(m + Zeros(32), ToBits(r, 32))) == ToBits(Feed(r, m), 32)
    decreases m
  {
    hide Shr, Low, Xor, Bit, BitStep, XorBits, Generator, Zeros, ToBits, AddFront;
    var bits := ToBits(r, 32);
    var p := AddFront(m + Zeros(32), bits);
    if m == [] {
      assert p == bits;
    } else {
      var next := BitStep(Xor(r, Bit(m[0])));
      var t := bits[1..] + [false];
      BitStepBits(r, m[0]);
      FeedIsRemainder(next, m[1..]);
      FrontMoves(m, bits);
      AddFrontTwice(m[1..] + Zeros(32), t, Generator());
    }
  }

  function Complement(s: seq<bool>): (t: seq<bool>)
    ensures |t| == |s| && forall i :: 0 <= i < |s| ==> t[i] == !s[i]
  {
    seq(|s|, i requires 0 <= i < |s| => !s[i])
  }

  /**
   The frame check sequence: complement the first 32 bits, multiply by x^32,
   take the remainder, complement it.
   */
  function FrameCheckSequence(data: seq<bv8>): (s: seq<bool>)
    ensures |s| == 32
  {
    var p := Bits(data) + Zeros(32);
    Complement(Remainder(Complement(p[..32]) + p[32..]))
  }

  lemma AllOnes(r: bv32)
    requires LowByte(r) == 0xFF
    ensures ToBits(r, 8) == [true, true, true, true, true, true, true, true]
  {}

  lemma OnesBits()
    ensures forall i :: 0 <= i < 32 ==> ToBits(ONES, 32)[i]
  {
    hide Shr, Low, ToBits, ShrBy;
    var r1, r2, r3 := Shr8(ONES), Shr8(Shr8(ONES)), Shr8(Shr8(Shr8(ONES)));
    ToBitsAdd(ONES, 8, 24);
    ToBitsAdd(r1, 8, 16);
    ToBitsAdd(r2, 8, 8);
    ShrByEight(ONES);
    ShrByEight(r1);
    ShrByEight(r2);
    AllOnes(ONES);
    AllOnes(r1);
    AllOnes(r2);
    AllOnes(r3);
  }

  lemma CrcIsFrameCheckSequence(data: seq<bv8>)
    ensures ToBits(Crc(data), 32) == FrameCheckSequence(data)
  {
    hide Shr, Low, Xor, XorBits, Generator, Zeros, ToBits, AddFront, Bits, Feed, Remainder, Complement;
    OnesBits();
    var p := Bits(data) + Zeros(32);
    FeedIsRemainder(ONES, Bits(data));
    assert AddFront(p, ToBits(ONES, 32)) == Complement(p[..32]) + p[32..];
    ToBitsXor(Feed(ONES, Bits(data)), ONES, 32);
  }

  // -------------------------------------------------------- burst detection

  lemma {:induction false} FeedLinear(r: bv32, s: bv32, x: seq<bool>, y: seq<bool>)
    requires |x| == |y|
    ensures Feed(Xor(r, s), XorBits(x, y)) == Xor(Feed(r, x), Feed(s, y))
    decreases x
  {
    hide Xor, Bit, BitStep, XorBits;
    if x != [] {
      var a, b := Bit(x[0]), Bit(y[0]);
      AddBits(r, s, x[0], y[0]);
      BitStepLinear(Xor(r, a), Xor(s, b));
      FeedLinear(BitStep(Xor(r, a)), BitStep(Xor(s, b)), x[1..], y[1..]);
      assert XorBits(x, y)[1..] == XorBits(x[1..], y[1..]);
    }
  }

  lemma AddBits(r: bv32, s: bv32, a: bool, b: bool)
    ensures Xor(Xor(r, s), Bit(a != b)) == Xor(Xor(r, Bit(a)), Xor(s, Bit(b)))
  {
    if a { if b {} else {} } else { if b {} else {} }
  }

  lemma {:induction false} FeedZeros(r: bv32, n: nat)
    ensures Feed(r, Zeros(n)) == Steps(r, n)
    decreases n
  {
    hide Xor, BitStep;
    if n > 0 {
      XorCancel(r, 0);
      assert Zeros(n)[1..] == Zeros(n - 1);
      FeedZeros(BitStep(r), n - 1);
    }
  }

  lemma ByteBitsInjective(c: bv8, d: bv8)
    requires ByteBits(c) == ByteBits(d)
    ensures c == d
  {
    hide Word, ByteBits;
    WordOfByte(c);
    WordOfByte(d);
  }

  lemma {:induction false} BitsInjective(x: seq<bv8>, y: seq<bv8>)
    requires Bits(x) == Bits(y)
    ensures x == y
    decreases x
  {
    hide ByteBits;
    if x != [] && y != [] {
      assert ByteBits(x[0]) == Bits(x)[..8] && ByteBits(y[0]) == Bits(y)[..8];
      assert Bits(x[1..]) == Bits(x)[8..] && Bits(y[1..]) == Bits(y)[8..];
      ByteBitsInjective(x[0], y[0]);
      BitsInjective(x[1..], y[1..]);
    }
  }

  lemma BurstParts(d: seq<bool>, lo: nat, hi: nat)
    requires lo <= hi <= |d|
    requires forall i :: 0 <= i < |d| && !(lo <= i < hi) ==> !d[i]
    requires true in d
    ensures d == (Zeros(lo) + d[lo..hi]) + Zeros(|d| - hi) && true in d[lo..hi]
  {
    var k :| 0 <= k < |d| && d[k];
    assert d[lo..hi][k - lo];
  }

  lemma SetBitsAreNotZero(w: seq<bool>)
    requires |w| <= 32 && true in w
    ensures Word(w) != 0
  {
    hide ToBits, Word, Zeros;
    WordFits(w);
    ZeroBits(|w|);
  }

  /** A register that is not zero stays so. */
  lemma StepsStayNonZero(r: bv32, n: nat)
    requires r != 0
    ensures Steps(r, n) != 0
  {
    hide Steps;
    StepsZero(n);
    if Steps(r, n) == 0 { StepsInjective(r, 0, n); }
  }

  /** An error pattern confined to 32 consecutive bits never feeds to zero. */
  lemma BurstPattern(d: seq<bool>, lo: nat, hi: nat)
    requires lo <= hi <= |d| && hi - lo <= 32
    requires forall i :: 0 <= i < |d| && !(lo <= i < hi) ==> !d[i]
    requires true in d
    ensures Feed(0, d) != 0
  {
    hide Feed, Steps, Xor, ToBits, Word, Fits, Zeros;
    var w := d[lo..hi];
    BurstParts(d, lo, hi);
    FeedConcat(0, Zeros(lo) + w, Zeros(|d| - hi));
    FeedConcat(0, Zeros(lo), w);
    FeedZeros(0, lo);
    StepsZero(lo);
    FeedWord(0, w);
    XorCancel(Word(w), 0);
    SetBitsAreNotZero(w);
    StepsStayNonZero(Word(w), |w|);
    FeedZeros(Steps(Word(w), |w|), |d| - hi);
    StepsStayNonZero(Steps(Word(w), |w|), |d| - hi);
  }

  lemma {:induction false} ZeroBits(n: nat)
    ensures ToBits(0, n) == Zeros(n)
    decreases n
  {
    if n > 0 {
      ZeroBits(n - 1);
      ShrZero();
    }
  }

  /** Two different messages that agree outside 32 consecutive bits have different checksums. */
  lemma BurstDetected(x: seq<bv8>, y: seq<bv8>, start: nat)
    requires |x| == |y| && x != y
    requires forall i :: 0 <= i < 8 * |x| && !(start <= i < start + 32) ==> Bits(x)[i] == Bits(y)[i]
    ensures Crc(x) != Crc(y)
  {
    hide Feed, Xor, Bits, XorBits;
    var d := XorBits(Bits(x), Bits(y));
    if forall i :: 0 <= i < |d| ==> !d[i] {
      assert forall i :: 0 <= i < |d| ==> Bits(x)[i] == Bits(y)[i];
      BitsInjective(x, y);
    }
    var k :| 0 <= k < |d| && d[k];
    var hi := if start + 32 < |d| then start + 32 else |d|;
    BurstPattern(d, if start < hi then start else hi, hi);
    XorCancel(ONES, 0);
    FeedLinear(ONES, ONES, Bits(x), Bits(y));
    var rx, ry := Feed(ONES, Bits(x)), Feed(ONES, Bits(y));
    XorCancel(rx, ONES);
    XorCancel(ry, ONES);
    XorCancel(rx, ry);
    XorCancel(rx, rx);
  }

  // ---------------------------------------------------------------- residue

  const RESIDUE: bv32 := 0x2144_DF1C

  /** The four bytes of c, lowest first. */
  function LittleEndian(c: bv32): (s: seq<bv8>)
    ensures |s| == 4
  {
    [Narrow(c), Narrow(ShrBy(c, 8)), Narrow(ShrBy(c, 16)), Narrow(ShrBy(c, 24))]
  }

  lemma WidenNarrow(c: bv32)
    ensures Widen(Narrow(c)) == LowByte(c)
  {}

  lemma NarrowBits(c: bv32)
    ensures ByteBits(Narrow(c)) == ToBits(c, 8)
  {
    hide Shr, Low, Widen, Narrow, LowByte, ToBits;
    var d := Widen(Narrow(c));
    WidenNarrow(c);
    forall i | 0 <= i < 8
      ensures ToBits(d, 8)[i] == ToBits(c, 8)[i]
    {
      ToBitsAt(d, 8, i);
      ToBitsAt(c, 8, i);
      LowByteBit(c, i);
    }
  }

  function And(a: bv32, b: bv32): bv32 { a & b }

  lemma AndBit(a: bv32, b: bv32)
    ensures Shr(And(a, b)) == And(Shr(a), Shr(b)) && Low(And(a, b)) == (Low(a) && Low(b))
  {}

  lemma {:induction false} ShrByAnd(a: bv32, b: bv32, n: nat)
    ensures ShrBy(And(a, b), n) == And(ShrBy(a, n), ShrBy(b, n))
    decreases n
  {
    hide Shr, And;
    if n > 0 {
      AndBit(a, b);
      ShrByAnd(Shr(a), Shr(b), n - 1);
    }
  }

  lemma ByteMask(i: nat)
    requires i < 8
    ensures Low(ShrBy(0xFF, i))
  {
    if i == 0 {} else if i == 1 {} else if i == 2 {} else if i == 3 {}
    else if i == 4 {} else if i == 5 {} else if i == 6 {} else {}
  }

  lemma LowByteBit(c: bv32, i: nat)
    requires i < 8
    ensures Low(ShrBy(LowByte(c), i)) == Low(ShrBy(c, i))
  {
    assert LowByte(c) == And(c, 0xFF);
    hide LowByte, And, Low, ShrBy;
    ShrByAnd(c, 0xFF, i);
    ByteMask(i);
    AndBit(ShrBy(c, i), ShrBy(0xFF, i));
  }

  lemma LittleEndianBits(c: bv32)
    ensures Bits(LittleEndian(c)) == ToBits(c, 32)
  {
    hide Shr, Low, Narrow, ToBits, ByteBits, ShrBy;
    var c1, c2, c3 := ShrBy(c, 8), ShrBy(c, 16), ShrBy(c, 24);
    ToBitsAdd(c, 8, 24);
    ToBitsAdd(c1, 8, 16);
    ToBitsAdd(c2, 8, 8);
    ShrByAdd(c, 8, 8);
    ShrByAdd(c, 16, 8);
    NarrowBits(c);
    NarrowBits(c1);
    NarrowBits(c2);
    NarrowBits(c3);
    var s := LittleEndian(c);
    assert s == [s[0]] + ([s[1]] + ([s[2]] + [s[3]]));
    BitsConcat([s[0]], [s[1]] + ([s[2]] + [s[3]]));
    BitsConcat([s[1]], [s[2]] + [s[3]]);
    BitsConcat([s[2]], [s[3]]);
    SingleByte(s[0]);
    SingleByte(s[1]);
    SingleByte(s[2]);
    SingleByte(s[3]);
  }

  lemma SingleByte(c: bv8)
    ensures Bits([c]) == ByteBits(c)
  {
    hide ByteBits;
    assert [c][1..] == [];
  }

  lemma StepsConstant1()
    ensures Steps(ONES, 8) == 0x2DFD_1072
  {}

  lemma StepsConstant2()
    ensures Steps(0x2DFD_1072, 8) == 0xBE26_ED00
  {}

  lemma StepsConstant3()
    ensures Steps(0xBE26_ED00, 8) == 0x00BE_26ED
  {}

  lemma StepsConstant4()
    ensures Steps(0x00BE_26ED, 8) == 0xDEBB_20E3
  {}

  lemma ResidueValue()
    ensures Xor(Steps(ONES, 32), ONES) == RESIDUE
  {
    hide Steps;
    StepsAdd(ONES, 8, 24);
    StepsConstant1();
    StepsAdd(0x2DFD_1072, 8, 16);
    StepsConstant2();
    StepsAdd(0xBE26_ED00, 8, 8);
    StepsConstant3();
    StepsConstant4();
  }

  /**
   Checking a message by its residue is exactly checking the four bytes that
   follow it: the whole has the fixed residue if and only if they are the
   message's checksum, lowest byte first.
   */
  lemma ResidueCheck(data: seq<bv8>, c: bv32)
    ensures Crc(data + LittleEndian(c)) == RESIDUE <==> c == Crc(data)
  {
    hide Shr, Low, Xor, ToBits, Feed, Steps, Bits, LittleEndian, Word, Fits;
    var r := Feed(ONES, Bits(data));
    BitsConcat(data, LittleEndian(c));
    LittleEndianBits(c);
    FeedConcat(ONES, Bits(data), ToBits(c, 32));
    ShrFits(c);
    WordOfBits(c, 32);
    FeedWord(r, ToBits(c, 32));
    var s := Xor(r, c);
    ResidueValue();
    if Xor(Steps(s, 32), ONES) == Xor(Steps(ONES, 32), ONES) {
      XorCancel(Steps(s, 32), ONES);
      XorCancel(Steps(ONES, 32), ONES);
      StepsInjective(s, ONES, 32);
    }
    ComplementWord(r, c);
  }

  lemma ComplementWord(r: bv32, c: bv32)
    ensures Xor(r, c) == ONES <==> c == Xor(r, ONES)
  {
    hide Xor;
    XorCancel(c, r);
    XorCancel(ONES, r);
  }
}
