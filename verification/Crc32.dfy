/**
 The CRC-32 that stamps burn-in payloads: a 256-entry table filled by shifting,
 then one table lookup per byte.

 Two definitions that know nothing of the table are proved equal to it: a shift
 register that consumes one message bit at a time, and the remainder of a
 division of polynomials over GF(2), which is how clause 3.2.9 of IEEE 802.3
 defines the frame check sequence.  Bits are taken least significant first.
 */
module Crc32 {

  const POLY: bv32 := 0xEDB88320
  const ONES: bv32 := 0xFFFF_FFFF

  // ------------------------------------------------------- single-word facts
  // Every step on words goes through these functions.  Proofs about runs of
  // steps hide their bodies and use the laws stated here.

  function Xor(a: bv32, b: bv32): bv32 { a ^ b }

  function Shr(a: bv32): bv32 { a >> 1 }

  predicate Low(a: bv32) { a & 1 != 0 }

  function Bit(b: bool): bv32 { if b then 1 else 0 }

  /** The word with lowest bit b above which stands t. */
  function Cons(b: bool, t: bv32): bv32 { if b then (t << 1) | 1 else t << 1 }

  function LowByte(r: bv32): bv32 { r & 0xFF }

  function Shr8(r: bv32): bv32 { r >> 8 }

  function Shr7(r: bv32): bv32 { r >> 7 }

  /** The position of table entry r. */
  function Index(r: bv32): int { r as int }

  function Widen(c: bv8): bv32 { c as bv32 }

  function Narrow(r: bv32): bv8 { (r & 0xFF) as bv8 }

  lemma XorShr(a: bv32, b: bv32)
    ensures Shr(Xor(a, b)) == Xor(Shr(a), Shr(b))
  {}

  lemma XorLow(a: bv32, b: bv32)
    ensures Low(Xor(a, b)) == (Low(a) != Low(b))
  {}

  lemma XorSwap(a: bv32, b: bv32, p: bv32)
    ensures Xor(Xor(a, p), b) == Xor(Xor(a, b), p)
    ensures Xor(a, Xor(b, p)) == Xor(Xor(a, b), p)
    ensures Xor(Xor(a, p), Xor(b, p)) == Xor(a, b)
  {}

  lemma XorCancel(a: bv32, b: bv32)
    ensures Xor(a, 0) == a && Xor(a, a) == 0 && Xor(Xor(a, b), b) == a && Xor(a, b) == Xor(b, a)
    ensures Xor(a, b) == 0 ==> a == b
  {}

  lemma AddBit(r: bv32, b: bool)
    ensures Shr(Xor(r, Bit(b))) == Shr(r)
    ensures Low(Xor(r, Bit(b))) == (Low(r) != b)
  {}

  // ---------------------------------------------------------------- register

  /** One shift of the reflected register. */
  function BitStep(r: bv32): bv32 {
    if Low(r) then Xor(Shr(r), POLY) else Shr(r)
  }

  function Steps(r: bv32, n: nat): bv32
    decreases n
  {
    if n == 0 then r else Steps(BitStep(r), n - 1)
  }

  lemma BitStepLinear(a: bv32, b: bv32)
    ensures BitStep(Xor(a, b)) == Xor(BitStep(a), BitStep(b))
  {
    hide Xor, Shr, Low;
    XorShr(a, b);
    XorLow(a, b);
    XorSwap(Shr(a), Shr(b), POLY);
  }

  lemma {:induction false} StepsLinear(a: bv32, b: bv32, n: nat)
    ensures Steps(Xor(a, b), n) == Xor(Steps(a, n), Steps(b, n))
    decreases n
  {
    hide Xor, BitStep;
    if n > 0 {
      BitStepLinear(a, b);
      StepsLinear(BitStep(a), BitStep(b), n - 1);
    }
  }

  lemma BitStepInjective(a: bv32, b: bv32)
    requires BitStep(a) == BitStep(b)
    ensures a == b
  {}

  lemma {:induction false} StepsInjective(a: bv32, b: bv32, n: nat)
    requires Steps(a, n) == Steps(b, n)
    ensures a == b
    decreases n
  {
    hide BitStep;
    if n > 0 {
      StepsInjective(BitStep(a), BitStep(b), n - 1);
      BitStepInjective(a, b);
    }
  }

  lemma {:induction false} StepsZero(n: nat)
    ensures Steps(0, n) == 0
  {
    if n > 0 {
      StepsZero(n - 1);
      assert BitStep(0) == 0;
    }
  }

  lemma {:induction false} StepsAdd(r: bv32, m: nat, n: nat)
    ensures Steps(r, m + n) == Steps(Steps(r, m), n)
    decreases m
  {
    hide BitStep;
    if m > 0 { StepsAdd(BitStep(r), m - 1, n); }
  }

  // -------------------------------------------------------------- bit strings

  /** The low n bits of r, least significant first. */
  function ToBits(r: bv32, n: nat): (s: seq<bool>)
    ensures |s| == n
    decreases n
  {
    if n == 0 then [] else [Low(r)] + ToBits(Shr(r), n - 1)
  }

  /** The word whose bits are w, least significant first. */
  function Word(w: seq<bool>): bv32
  {
    if w == [] then 0 else Cons(w[0], Word(w[1..]))
  }

  function ShrBy(r: bv32, n: nat): bv32
    decreases n
  {
    if n == 0 then r else ShrBy(Shr(r), n - 1)
  }

  /** r has no bit set at position n or above. */
  predicate Fits(r: bv32, n: nat) { ShrBy(r, n) == 0 }

  lemma ConsWord(b: bool, t: bv32)
    requires t & 0x8000_0000 == 0
    ensures Shr(Cons(b, t)) == t && Low(Cons(b, t)) == b
  {
    if b {} else {}
  }

  lemma SplitWord(r: bv32)
    ensures Cons(Low(r), Shr(r)) == r
  {}

  lemma ShrZero()
    ensures Shr(0) == 0
  {}

  lemma {:induction false} ShrByAdd(r: bv32, m: nat, n: nat)
    ensures ShrBy(r, m + n) == ShrBy(ShrBy(r, m), n)
    decreases m
  {
    hide Shr;
    if m > 0 { ShrByAdd(Shr(r), m - 1, n); }
  }

  lemma {:induction false} ShrByZero(n: nat)
    ensures ShrBy(0, n) == 0
  {
    ShrZero();
    if n > 0 { ShrByZero(n - 1); }
  }

  lemma FitsMonotone(r: bv32, m: nat, n: nat)
    requires m <= n && Fits(r, m)
    ensures Fits(r, n)
  {
    ShrByAdd(r, m, n - m);
    ShrByZero(n - m);
  }

  lemma ShrByEight(r: bv32)
    ensures ShrBy(r, 8) == Shr8(r)
  {}

  lemma ShrBySeven(r: bv32)
    ensures ShrBy(r, 7) == Shr7(r)
  {}

  lemma ShrBy31(r: bv32)
    ensures ShrBy(r, 31) == Shr7(Shr8(Shr8(Shr8(r))))
  {
    hide Shr, Shr7, Shr8;
    ShrByAdd(r, 8, 23);
    ShrByEight(r);
    var r1 := Shr8(r);
    ShrByAdd(r1, 8, 15);
    ShrByEight(r1);
    var r2 := Shr8(r1);
    ShrByAdd(r2, 8, 7);
    ShrByEight(r2);
    ShrBySeven(Shr8(r2));
  }

  lemma TopBitClear(r: bv32)
    requires Shr7(Shr8(Shr8(Shr8(r)))) == 0
    ensures r & 0x8000_0000 == 0
  {}

  lemma FitsTop(r: bv32, n: nat)
    requires n < 32 && Fits(r, n)
    ensures r & 0x8000_0000 == 0
  {
    hide Shr, Shr7, Shr8;
    FitsMonotone(r, n, 31);
    ShrBy31(r);
    TopBitClear(r);
  }

  lemma ShrFits(r: bv32)
    ensures Fits(Shr(r), 31) && Fits(r, 32)
  {
    ShrBy31(Shr(r));
    assert Shr7(Shr8(Shr8(Shr8(Shr(r))))) == 0;
    assert ShrBy(r, 32) == ShrBy(Shr(r), 31);
  }

  /** At most 32 bits survive the trip through a word. */
  lemma {:induction false} WordFits(w: seq<bool>)
    requires |w| <= 32
    ensures Fits(Word(w), |w|)
    ensures ToBits(Word(w), |w|) == w
  {
    hide Shr, Low, Cons;
    if w != [] {
      WordFits(w[1..]);
      var t := Word(w[1..]);
      FitsTop(t, |w| - 1);
      ConsWord(w[0], t);
      assert w == [w[0]] + w[1..];
    }
  }

  lemma {:induction false} WordOfBits(r: bv32, n: nat)
    requires Fits(r, n)
    ensures Word(ToBits(r, n)) == r
    decreases n
  {
    hide Shr, Low, Cons;
    if n > 0 {
      WordOfBits(Shr(r), n - 1);
      assert ToBits(r, n)[1..] == ToBits(Shr(r), n - 1);
      SplitWord(r);
    }
  }

  function XorBits(a: seq<bool>, b: seq<bool>): (s: seq<bool>)
    requires |a| == |b|
    ensures |s| == |a| && forall i :: 0 <= i < |a| ==> s[i] == (a[i] != b[i])
  {
    seq(|a|, i requires 0 <= i < |a| => a[i] != b[i])
  }

  function Zeros(n: nat): (s: seq<bool>)
    ensures |s| == n && forall i :: 0 <= i < n ==> !s[i]
  {
    seq(n, i => false)
  }

  lemma {:induction false} ToBitsAt(r: bv32, n: nat, i: nat)
    requires i < n
    ensures ToBits(r, n)[i] == Low(ShrBy(r, i))
    decreases i
  {
    hide Shr, Low;
    if i > 0 { ToBitsAt(Shr(r), n - 1, i - 1); }
  }

  lemma {:induction false} ShrByXor(a: bv32, b: bv32, n: nat)
    ensures ShrBy(Xor(a, b), n) == Xor(ShrBy(a, n), ShrBy(b, n))
    decreases n
  {
    hide Shr, Xor;
    if n > 0 {
      XorShr(a, b);
      ShrByXor(Shr(a), Shr(b), n - 1);
    }
  }

  lemma ToBitsXor(a: bv32, b: bv32, n: nat)
    ensures ToBits(Xor(a, b), n) == XorBits(ToBits(a, n), ToBits(b, n))
  {
    hide Low, Xor, ToBits, XorBits;
    forall i | 0 <= i < n
      ensures ToBits(Xor(a, b), n)[i] == XorBits(ToBits(a, n), ToBits(b, n))[i]
    {
      ToBitsAt(a, n, i);
      ToBitsAt(b, n, i);
      ToBitsAt(Xor(a, b), n, i);
      ShrByXor(a, b, i);
      XorLow(ShrBy(a, i), ShrBy(b, i));
    }
  }

  lemma {:induction false} ToBitsAdd(r: bv32, m: nat, n: nat)
    ensures ToBits(r, m + n) == ToBits(r, m) + ToBits(ShrBy(r, m), n)
    decreases m
  {
    hide Shr, Low;
    if m > 0 { ToBitsAdd(Shr(r), m - 1, n); }
  }

  // ------------------------------------------------ one message bit at a time

  /** The shift register: each message bit is added to the low end, then one shift. */
  function Feed(r: bv32, bits: seq<bool>): bv32
    decreases bits
  {
    if bits == [] then r else Feed(BitStep(Xor(r, Bit(bits[0]))), bits[1..])
  }

  function ByteBits(c: bv8): (s: seq<bool>)
    ensures |s| == 8
  {
    ToBits(Widen(c), 8)
  }

  function Bits(data: seq<bv8>): (s: seq<bool>)
    ensures |s| == 8 * |data|
  {
    if data == [] then [] else ByteBits(data[0]) + Bits(data[1..])
  }

  /** The CRC of data by the bit-serial definition. */
  function Crc(data: seq<bv8>): bv32 { Xor(Feed(ONES, Bits(data)), ONES) }

  lemma FeedNothing(r: bv32)
    ensures Feed(r, []) == r
  {}

  lemma {:induction false} FeedConcat(r: bv32, x: seq<bool>, y: seq<bool>)
    ensures Feed(r, x + y) == Feed(Feed(r, x), y)
    decreases x
  {
    hide BitStep, Xor, Bit;
    if x == [] {
      assert x + y == y;
    } else {
      assert (x + y)[1..] == x[1..] + y;
      FeedConcat(BitStep(Xor(r, Bit(x[0]))), x[1..], y);
    }
  }

  lemma {:induction false} BitsConcat(x: seq<bv8>, y: seq<bv8>)
    ensures Bits(x + y) == Bits(x) + Bits(y)
    decreases x
  {
    hide ByteBits;
    if x == [] {
      assert x + y == y;
    } else {
      assert (x + y)[1..] == x[1..] + y;
      BitsConcat(x[1..], y);
    }
  }

  lemma AddShifted(r: bv32, b: bool, t: bv32)
    ensures Xor(r, Cons(b, t)) == Xor(Xor(r, Bit(b)), Cons(false, t))
  {
    if b {} else {}
  }

  /** Up to 32 bits may be added to the register all at once and shifted afterwards. */
  lemma {:induction false} FeedWord(r: bv32, w: seq<bool>)
    requires |w| <= 32
    ensures Feed(r, w) == Steps(Xor(r, Word(w)), |w|)
    decreases w
  {
    hide Low, Shr, Xor, Bit, Cons, Fits;
    if w == [] {
      XorCancel(r, 0);
    } else {
      var t, b := Word(w[1..]), w[0];
      WordFits(w[1..]);
      FitsTop(t, |w| - 1);
      FeedWord(BitStep(Xor(r, Bit(b))), w[1..]);
      AddShifted(r, b, t);
      ConsWord(false, t);
      BitStepLinear(Xor(r, Bit(b)), Cons(false, t));
    }
  }

  lemma SplitLow(r: bv32)
    ensures r == Xor(LowByte(r), r & 0xFFFF_FF00)
  {}

  lemma ShiftHigh(r: bv32)
    ensures Steps(r & 0xFFFF_FF00, 8) == Shr8(r)
  {}

  lemma AddByte(r: bv32, c: bv8)
    ensures Shr8(Xor(r, Widen(c))) == Shr8(r)
    ensures Shr8(Widen(c)) == 0
  {}

  lemma WordOfByte(c: bv8)
    ensures Word(ByteBits(c)) == Widen(c)
  {
    hide Widen, Shr, Shr8, Low, Cons, Word, ToBits;
    AddByte(0, c);
    ShrByEight(Widen(c));
    WordOfBits(Widen(c), 8);
  }

  /** One table lookup is eight shifts of the register after adding the byte. */
  lemma TableStep(r: bv32, c: bv8)
    ensures Xor(Steps(LowByte(Xor(r, Widen(c))), 8), Shr8(r)) == Feed(r, ByteBits(c))
  {
    hide Xor, Widen, Shr8, LowByte, BitStep, Feed, Word, ByteBits, Steps;
    var x := Xor(r, Widen(c));
    SplitLow(x);
    StepsLinear(LowByte(x), x & 0xFFFF_FF00, 8);
    ShiftHigh(x);
    AddByte(r, c);
    WordOfByte(c);
    FeedWord(r, ByteBits(c));
  }

  /** The lookup table with its once-only initialisation flag. */
  class Table {
    const entries: array<bv32>
    var initialized: bool

    ghost predicate Filled(n: int)
      reads entries
    {
      entries.Length == 256 && 0 <= n <= 256 &&
      forall k: bv32 :: 0 <= Index(k) < n ==> entries[Index(k)] == Steps(k, 8)
    }

    ghost predicate Valid()
      reads this, entries
    {
      entries.Length == 256 && (initialized ==> Filled(256))
    }

    constructor ()
      ensures Valid() && fresh(entries)
    {
      entries := new bv32[256];
      initialized := false;
    }

    /** Fills the table on first use; afterwards entry k is k shifted eight times. */
    method InitCrc32Table()
      requires Valid()
      modifies this, entries
      ensures Valid() && initialized
      ensures old(initialized) ==> entries[..] == old(entries[..])
    {
      hide Xor, Shr, Low, Index, Next;
      if initialized { return; }
      var i: bv32 := 0;
      FirstIndex();
      var n := 0;
      while n < 256
        invariant n == Index(i) && Filled(n)
      {
        var crc := i;
        var j := 0;
        while j < 8
          invariant 0 <= j <= 8
          invariant Steps(i, 8) == Steps(crc, 8 - j)
        {
          if Low(crc) {
            crc := Xor(Shr(crc), POLY);
          } else {
            crc := Shr(crc);
          }
          j := j + 1;
        }
        forall k: bv32 ensures Index(k) == n ==> k == i { IndexUnique(k, i); }
        entries[n] := crc;
        NextIndex(i);
        i := Next(i);
        n := n + 1;
      }
      initialized := true;
    }

    method Compute(data: seq<bv8>) returns (result: bv32)
      requires Valid()
      modifies this, entries
      ensures Valid()
      ensures result == Crc(data)
    {
      hide Xor, Shr8, LowByte, Steps, Feed, Widen, ByteBits, Index;
      InitCrc32Table();
      var crc := ONES;
      FeedNothing(crc);
      assert data[..0] == [];
      for n := 0 to |data|
        invariant Valid() && initialized
        invariant crc == Feed(ONES, Bits(data[..n]))
      {
        var c := data[n];
        TableStep(crc, c);
        assert data[..n + 1] == data[..n] + [c];
        BitsConcat(data[..n], [c]);
        assert Bits([c]) == ByteBits(c);
        FeedConcat(ONES, Bits(data[..n]), ByteBits(c));
        var index := LowByte(Xor(crc, Widen(c)));
        LowByteBound(Xor(crc, Widen(c)));
        crc := Xor(entries[Index(index)], Shr8(crc));
      }
      assert data[..|data|] == data;
      result := Xor(crc, ONES);
    }
  }

  function Next(i: bv32): bv32 { i + 1 }

  lemma FirstIndex()
    ensures Index(0) == 0
  {}

  lemma NextIndex(i: bv32)
    requires Index(i) < 256
    ensures Index(Next(i)) == Index(i) + 1
  {}

  lemma IndexUnique(k: bv32, i: bv32)
    ensures Index(k) == Index(i) ==> k == i
  {
    assert Index(k) as bv32 == k && Index(i) as bv32 == i;
  }

  lemma LowByteBound(r: bv32)
    ensures 0 <= Index(LowByte(r)) < 256
  {}
}
