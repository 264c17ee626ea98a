/**
 Version 4 UUIDs as text: two random words, six bits of them fixed, printed in
 hexadecimal fields.  A parser for the form of section 3 of RFC 4122 undoes the
 printer, so nothing but the fixed bits is lost.
 */
module Uuid {

  // ------------------------------------------------------- single-word facts

  function Shr4(v: bv64): bv64 { v >> 4 }

  /** The lowest hexadecimal digit. */
  function Nibble(v: bv64): int { (v & 0xF) as int }

  /** The word with digit d below v; the top digit of v is lost. */
  function Push4(v: bv64, d: int): bv64
    requires 0 <= d < 16
  {
    (v << 4) | (d as bv64)
  }

  lemma NibbleRange(v: bv64)
    ensures 0 <= Nibble(v) < 16
  {}

  lemma NibbleBits(v: bv64)
    ensures Nibble(v) as bv64 == v & 0xF
  {
    assert (v & 0xF) as int as bv64 == v & 0xF;
  }

  lemma SplitNibble(v: bv64)
    ensures 0 <= Nibble(v) < 16 && Push4(Shr4(v), Nibble(v)) == v
  {
    NibbleRange(v);
    NibbleBits(v);
    JoinBits(v);
  }

  lemma JoinBits(v: bv64)
    ensures ((v >> 4) << 4) | (v & 0xF) == v
  {}

  function ShrBy4(v: bv64, n: nat): bv64
    decreases n
  {
    if n == 0 then v else ShrBy4(Shr4(v), n - 1)
  }

  /** v has at most n hexadecimal digits. */
  predicate Fits(v: bv64, n: nat) { ShrBy4(v, n) == 0 }

  // -------------------------------------------------------- hexadecimal text

  const DIGITS := "0123456789abcdef"

  predicate IsDigit(c: char) { '0' <= c <= '9' || 'a' <= c <= 'f' }

  function HexDigit(d: int): (c: char)
    requires 0 <= d < 16
    ensures IsDigit(c) && DigitValue(c) == d
  {
    DIGITS[d]
  }

  function DigitValue(c: char): (d: int)
    ensures IsDigit(c) ==> 0 <= d < 16
  {
    if '0' <= c <= '9' then c as int - '0' as int else if 'a' <= c <= 'f' then c as int - 'a' as int + 10 else 0
  }

  lemma DigitBack(c: char)
    requires IsDigit(c)
    ensures HexDigit(DigitValue(c)) == c
  {
    assert DIGITS[DigitValue(c)] == c;
  }

  /** The lowest n digits of v. */
  function PrintDigits(v: bv64, n: nat): (s: string)
    ensures |s| == n
    decreases n
  {
    if n == 0 then ""
    else
      NibbleRange(v);
      PrintDigits(Shr4(v), n - 1) + [HexDigit(Nibble(v))]
  }

  /** How many of at most n digits v needs. */
  function DigitsNeeded(v: bv64, n: nat): (k: nat)
    ensures k <= n
    decreases n
  {
    if n == 0 || v == 0 then 0 else 1 + DigitsNeeded(Shr4(v), n - 1)
  }

  /** printf's %0<width>llx: leading zeros up to the width, more digits if v needs them. */
  function PrintHex(v: bv64, width: nat): string {
    PrintDigits(v, if DigitsNeeded(v, 16) > width then DigitsNeeded(v, 16) else width)
  }

  lemma {:induction false} NeededWithin(v: bv64, width: nat, n: nat)
    requires Fits(v, width)
    ensures DigitsNeeded(v, n) <= width
    decreases n
  {
    hide Shr4;
    if n > 0 && v != 0 { NeededWithin(Shr4(v), width - 1, n - 1); }
  }

  /** A value that fits is printed in exactly the width asked for. */
  lemma PrintFixed(v: bv64, width: nat)
    requires Fits(v, width)
    ensures PrintHex(v, width) == PrintDigits(v, width) && |PrintHex(v, width)| == width
  {
    NeededWithin(v, width, 16);
  }

  predicate AllDigits(s: string) { forall i :: 0 <= i < |s| ==> IsDigit(s[i]) }

  function ParseHex(s: string): bv64
    requires AllDigits(s)
  {
    if s == "" then 0 else Push4(ParseHex(s[..|s| - 1]), DigitValue(s[|s| - 1]))
  }

  lemma ParseAppend(s: string, c: char)
    requires AllDigits(s) && IsDigit(c)
    ensures AllDigits(s + [c]) && ParseHex(s + [c]) == Push4(ParseHex(s), DigitValue(c))
  {
    hide Push4, IsDigit;
    assert (s + [c])[..|s|] == s;
  }

  lemma ParseNothing()
    ensures AllDigits("") && ParseHex("") == 0
  {}

  /** Printing enough digits loses nothing. */
  lemma {:induction false} ParsePrint(v: bv64, n: nat)
    requires Fits(v, n)
    ensures AllDigits(PrintDigits(v, n)) && ParseHex(PrintDigits(v, n)) == v
    decreases n
  {
    hide Shr4, Nibble, Push4, HexDigit, DigitValue, IsDigit, ParseHex, AllDigits;
    if n == 0 {
      ParseNothing();
    } else {
      SplitNibble(v);
      ParsePrint(Shr4(v), n - 1);
      ParseAppend(PrintDigits(Shr4(v), n - 1), HexDigit(Nibble(v)));
    }
  }

  /** The first digit is the highest. */
  lemma {:induction false} FirstDigit(v: bv64, n: nat)
    requires n > 0
    ensures 0 <= Nibble(ShrBy4(v, n - 1)) < 16
    ensures PrintDigits(v, n)[0] == HexDigit(Nibble(ShrBy4(v, n - 1)))
    decreases n
  {
    hide Shr4, Nibble, HexDigit;
    NibbleRange(ShrBy4(v, n - 1));
    if n > 1 { FirstDigit(Shr4(v), n - 1); }
  }

  lemma SmallWord(d: int)
    requires 0 <= d < 16
    ensures (d as bv64) & 0xF == d as bv64 && (d as bv64) as int == d
  {
    if d == 0 {} else if d == 1 {} else if d == 2 {} else if d == 3 {} else if d == 4 {} else if d == 5 {}
    else if d == 6 {} else if d == 7 {} else if d == 8 {} else if d == 9 {} else if d == 10 {} else if d == 11 {}
    else if d == 12 {} else if d == 13 {} else if d == 14 {} else {}
  }

  lemma PopPush(v: bv64, d: int)
    requires 0 <= d < 16 && v & 0xF000_0000_0000_0000 == 0
    ensures Shr4(Push4(v, d)) == v && Nibble(Push4(v, d)) == d
  {
    SmallWord(d);
    PushBits(v, d as bv64);
  }

  lemma PushBits(v: bv64, e: bv64)
    requires v & 0xF000_0000_0000_0000 == 0 && e & 0xF == e
    ensures ((v << 4) | e) >> 4 == v && ((v << 4) | e) & 0xF == e
  {}

  lemma ShrZero()
    ensures Shr4(0) == 0
  {}

  lemma {:induction false} ShrBy4Add(v: bv64, m: nat, n: nat)
    ensures ShrBy4(v, m + n) == ShrBy4(ShrBy4(v, m), n)
    decreases m
  {
    hide Shr4;
    if m > 0 { ShrBy4Add(Shr4(v), m - 1, n); }
  }

  function Shr16(v: bv64): bv64 { v >> 16 }

  lemma ShrBy4Four(v: bv64)
    ensures ShrBy4(v, 4) == Shr16(v)
  {}

  lemma ShrByWords(v: bv64)
    ensures ShrBy4(v, 4) == Shr16(v)
    ensures ShrBy4(v, 8) == Shr16(Shr16(v))
    ensures ShrBy4(v, 12) == Shr16(Shr16(Shr16(v)))
    ensures ShrBy4(v, 16) == Shr16(Shr16(Shr16(Shr16(v))))
  {
    hide ShrBy4, Shr16, Shr4;
    ShrBy4Four(v);
    ShrBy4Four(Shr16(v));
    ShrBy4Four(Shr16(Shr16(v)));
    ShrBy4Four(Shr16(Shr16(Shr16(v))));
    ShrBy4Add(v, 4, 4);
    ShrBy4Add(v, 8, 4);
    ShrBy4Add(v, 12, 4);
  }

  /** Parsing at most 16 digits and printing as many gives the text back. */
  lemma {:induction false} PrintParse(s: string)
    requires AllDigits(s) && |s| <= 16
    ensures Fits(ParseHex(s), |s|) && PrintDigits(ParseHex(s), |s|) == s
    decreases |s|
  {
    hide Shr4, Nibble, Push4, HexDigit, DigitValue, IsDigit;
    if s != "" {
      var n := |s| - 1;
      var v, c := ParseHex(s[..n]), s[n];
      PrintParse(s[..n]);
      DigitBack(c);
      FitsTop(v, n);
      PopPush(v, DigitValue(c));
      assert s == s[..n] + [c];
    }
  }

  lemma {:induction false} FitsMonotone(v: bv64, m: nat, n: nat)
    requires m <= n && Fits(v, m)
    ensures Fits(v, n)
    decreases n
  {
    hide Shr4;
    if m > 0 { FitsMonotone(Shr4(v), m - 1, n - 1); }
    else if n > 0 { ShrZero(); FitsMonotone(0, 0, n - 1); }
  }

  lemma FitsTop(v: bv64, n: nat)
    requires n < 16 && Fits(v, n)
    ensures v & 0xF000_0000_0000_0000 == 0
  {
    hide Shr4, Shr16;
    FitsMonotone(v, n, 15);
    ShrByWords(v);
    ShrBy4Add(v, 12, 3);
    TopDigitClear(v);
  }

  lemma TopDigitClear(v: bv64)
    requires ShrBy4(Shr16(Shr16(Shr16(v))), 3) == 0
    ensures v & 0xF000_0000_0000_0000 == 0
  {}

  // -------------------------------------------------------------- UUID words

  const FREE_A: bv64 := 0xFFFF_FFFF_FFFF_0FFF
  const FREE_B: bv64 := 0x3FFF_FFFF_FFFF_FFFF

  /** Bits 12 to 15 of time_hi_and_version say version 4. */
  function SetVersion(a: bv64): bv64 { (a & 0xFFFF_FFFF_FFFF_0FFF) | 0x0000_0000_0000_4000 }

  /** Bits 6 and 7 of clock_seq_hi_and_reserved say the variant of RFC 4122. */
  function SetVariant(b: bv64): bv64 { (b & 0x3FFF_FFFF_FFFF_FFFF) | 0x8000_0000_0000_0000 }

  function TimeLow(a: bv64): bv64 { a >> 32 }
  function TimeMid(a: bv64): bv64 { (a >> 16) & 0xFFFF }
  function TimeHiAndVersion(a: bv64): bv64 { a & 0xFFFF }
  function ClockSeq(b: bv64): bv64 { b >> 48 }
  function Node(b: bv64): bv64 { b & 0x0000_FFFF_FFFF_FFFF }

  function JoinA(low: bv64, mid: bv64, hi: bv64): bv64 { (low << 32) | (mid << 16) | hi }
  function JoinB(clock: bv64, node: bv64): bv64 { (clock << 48) | node }

  lemma JoinFields(a: bv64, b: bv64)
    ensures JoinA(TimeLow(a), TimeMid(a), TimeHiAndVersion(a)) == a
    ensures JoinB(ClockSeq(b), Node(b)) == b
  {}

  lemma SplitFields(low: bv64, mid: bv64, hi: bv64)
    requires Shr16(Shr16(low)) == 0 && Shr16(mid) == 0 && Shr16(hi) == 0
    ensures var a := JoinA(low, mid, hi);
      TimeLow(a) == low && TimeMid(a) == mid && TimeHiAndVersion(a) == hi
  {}

  lemma SplitClock(clock: bv64, node: bv64)
    requires Shr16(clock) == 0 && Shr16(Shr16(Shr16(node))) == 0
    ensures var b := JoinB(clock, node);
      ClockSeq(b) == clock && Node(b) == node
  {}

  lemma FieldBits(a: bv64, b: bv64)
    ensures Shr16(Shr16(TimeLow(a))) == 0 && Shr16(TimeMid(a)) == 0 && Shr16(TimeHiAndVersion(a)) == 0
    ensures Shr16(ClockSeq(b)) == 0 && Shr16(Shr16(Shr16(Node(b)))) == 0
  {}

  lemma FieldsFit(a: bv64, b: bv64)
    ensures Fits(TimeLow(a), 8) && Fits(TimeMid(a), 4) && Fits(TimeHiAndVersion(a), 4)
    ensures Fits(ClockSeq(b), 4) && Fits(Node(b), 12)
  {
    hide ShrBy4, Shr16, TimeLow, TimeMid, TimeHiAndVersion, ClockSeq, Node;
    FieldBits(a, b);
    ShrByWords(TimeLow(a));
    ShrByWords(TimeMid(a));
    ShrByWords(TimeHiAndVersion(a));
    ShrByWords(ClockSeq(b));
    ShrByWords(Node(b));
  }

  // --------------------------------------------------------------- UUID text

  /** What the format string prints for two words. */
  function Format(a: bv64, b: bv64): string {
    PrintHex(TimeLow(a), 8) + "-" + PrintHex(TimeMid(a), 4) + "-" + PrintHex(TimeHiAndVersion(a), 4)
    + "-" + PrintHex(ClockSeq(b), 4) + "-" + PrintHex(Node(b), 12)
  }

  /** Text of the form 8-4-4-4-12 hexadecimal digits. */
  predicate IsForm(s: string) {
    && |s| == 36
    && s[8] == '-' && s[13] == '-' && s[18] == '-' && s[23] == '-'
    && AllDigits(s[..8]) && AllDigits(s[9..13]) && AllDigits(s[14..18]) && AllDigits(s[19..23]) && AllDigits(s[24..])
  }

  function Parse(s: string): (bv64, bv64)
    requires IsForm(s)
  {
    (JoinA(ParseHex(s[..8]), ParseHex(s[9..13]), ParseHex(s[14..18])),
     JoinB(ParseHex(s[19..23]), ParseHex(s[24..])))
  }

  lemma Layout(low: string, mid: string, hi: string, clock: string, node: string)
    requires |low| == 8 && |mid| == 4 && |hi| == 4 && |clock| == 4 && |node| == 12
    ensures var s := low + "-" + mid + "-" + hi + "-" + clock + "-" + node;
      && |s| == 36 && s[8] == '-' && s[13] == '-' && s[18] == '-' && s[23] == '-'
      && s[..8] == low && s[9..13] == mid && s[14..18] == hi && s[19..23] == clock && s[24..] == node
  {}

  lemma Relayout(s: string)
    requires |s| == 36 && s[8] == '-' && s[13] == '-' && s[18] == '-' && s[23] == '-'
    ensures s == s[..8] + "-" + s[9..13] + "-" + s[14..18] + "-" + s[19..23] + "-" + s[24..]
  {}

  /** Any two words are read back from their text. */
  lemma ParseFormat(a: bv64, b: bv64)
    ensures IsForm(Format(a, b)) && Parse(Format(a, b)) == (a, b)
  {
    hide Fits, TimeLow, TimeMid, TimeHiAndVersion, ClockSeq, Node, JoinA, JoinB, PrintHex, ParseHex, AllDigits;
    FieldsFit(a, b);
    JoinFields(a, b);
    Field(TimeLow(a), 8);
    Field(TimeMid(a), 4);
    Field(TimeHiAndVersion(a), 4);
    Field(ClockSeq(b), 4);
    Field(Node(b), 12);
    Layout(PrintHex(TimeLow(a), 8), PrintHex(TimeMid(a), 4), PrintHex(TimeHiAndVersion(a), 4),
           PrintHex(ClockSeq(b), 4), PrintHex(Node(b), 12));
  }

  lemma Field(v: bv64, width: nat)
    requires Fits(v, width)
    ensures |PrintHex(v, width)| == width && AllDigits(PrintHex(v, width)) && ParseHex(PrintHex(v, width)) == v
  {
    PrintFixed(v, width);
    ParsePrint(v, width);
  }

  /** Any text of the form is printed back from its words. */
  lemma FormatParse(s: string)
    requires IsForm(s)
    ensures Format(Parse(s).0, Parse(s).1) == s
  {
    hide TimeLow, TimeMid, TimeHiAndVersion, ClockSeq, Node, JoinA, JoinB, PrintHex, ParseHex, AllDigits, Shr16, Fits;
    var low, mid, hi := ParseHex(s[..8]), ParseHex(s[9..13]), ParseHex(s[14..18]);
    var clock, node := ParseHex(s[19..23]), ParseHex(s[24..]);
    TextField(s[..8]);
    TextField(s[9..13]);
    TextField(s[14..18]);
    TextField(s[19..23]);
    TextField(s[24..]);
    SplitFields(low, mid, hi);
    SplitClock(clock, node);
    Relayout(s);
  }

  lemma TextField(s: string)
    requires AllDigits(s) && |s| in {4, 8, 12}
    ensures PrintHex(ParseHex(s), |s|) == s
    ensures |s| == 4 ==> Shr16(ParseHex(s)) == 0
    ensures |s| == 8 ==> Shr16(Shr16(ParseHex(s))) == 0
    ensures |s| == 12 ==> Shr16(Shr16(Shr16(ParseHex(s)))) == 0
  {
    hide ShrBy4, Shr16, ParseHex, AllDigits, PrintDigits;
    PrintParse(s);
    PrintFixed(ParseHex(s), |s|);
    ShrByWords(ParseHex(s));
  }

  // ------------------------------------------------------------- the printer

  /** The characters of a C string: everything before the first NUL. */
  ghost predicate Holds(buf: array<char>, text: string)
    reads buf
  {
    |text| < buf.Length && buf[..|text|] == text && buf[|text|] == 0 as char
  }

  function Truncated(text: string, size: nat): string {
    if |text| < size then text else if size == 0 then "" else text[..size - 1]
  }

  /** snprintf into a buffer: text that is too long is cut to leave room for the NUL. */
  method PrintInto(buf: array<char>, text: string)
    requires buf.Length > 0
    modifies buf
    ensures Holds(buf, Truncated(text, buf.Length))
  {
    var n := if |text| < buf.Length then |text| else buf.Length - 1;
    for i := 0 to n
      invariant buf[..i] == text[..i]
    {
      buf[i] := text[i];
    }
    buf[n] := 0 as char;
  }

  method FromBuffer(buf: array<char>, ghost text: string) returns (s: string)
    requires Holds(buf, text) && 0 as char !in text
    ensures s == text
  {
    s := "";
    var i := 0;
    assert forall k :: 0 <= k < |text| ==> buf[..|text|][k] == text[k] != 0 as char;
    while buf[i] != 0 as char
      invariant 0 <= i <= |text| && s == text[..i]
      decreases |text| - i
    {
      s := s + [buf[i]];
      i := i + 1;
    }
  }

  lemma NoNul(s: string)
    requires IsForm(s)
    ensures 0 as char !in s
  {
    Relayout(s);
  }

  /** drawA and drawB are the two random words. */
  method GenerateUUID(drawA: bv64, drawB: bv64) returns (text: string)
    ensures text == Format(SetVersion(drawA), SetVariant(drawB))
  {
    hide Format, IsForm;
    var a, b := drawA, drawB;
    a := (a & 0xFFFF_FFFF_FFFF_0FFF) | 0x0000_0000_0000_4000;
    b := (b & 0x3FFF_FFFF_FFFF_FFFF) | 0x8000_0000_0000_0000;
    ParseFormat(a, b);
    FormLength(Format(a, b));
    NoNul(Format(a, b));
    var buf := new char[37];
    PrintInto(buf, Format(a, b));
    text := FromBuffer(buf, Format(a, b));
  }

  lemma FormLength(s: string)
    requires IsForm(s)
    ensures |s| == 36
  {}

  // ------------------------------------------------------------ what survives

  lemma FixedBits(a: bv64, b: bv64)
    ensures Shr4(Shr4(Shr4(TimeHiAndVersion(SetVersion(a))))) == 4
    ensures Shr4(Shr4(Shr4(ClockSeq(SetVariant(b))))) & 0xC == 0x8
  {}

  lemma VariantDigit(v: bv64)
    requires v & 0xC == 0x8 && Shr4(v) == 0
    ensures v == 8 || v == 9 || v == 10 || v == 11
  {}

  /** The text of a generated UUID has the version 4 and the variant of RFC 4122 where that standard puts them. */
  lemma GeneratedForm(a: bv64, b: bv64)
    ensures var s := Format(SetVersion(a), SetVariant(b));
      IsForm(s) && s[14] == '4' && s[19] in {'8', '9', 'a', 'b'}
  {
    var a', b' := SetVersion(a), SetVariant(b);
    FixedBits(a, b);
    FieldsFit(a', b');
    VersionChars(TimeHiAndVersion(a'), ClockSeq(b'));
    ParseFormat(a', b');
    FormatFields(a', b');
    hide Fits, TimeHiAndVersion, ClockSeq, PrintHex, SetVersion, SetVariant, Format, Parse, Shr4;
    var s := Format(a', b');
    assert s[14] == s[14..18][0] && s[19] == s[19..23][0];
  }

  lemma FormatFields(a: bv64, b: bv64)
    ensures var s := Format(a, b);
      |s| == 36 && s[14..18] == PrintHex(TimeHiAndVersion(a), 4) && s[19..23] == PrintHex(ClockSeq(b), 4)
  {
    hide Fits, TimeLow, TimeMid, TimeHiAndVersion, ClockSeq, Node, PrintHex, AllDigits;
    FieldsFit(a, b);
    Field(TimeLow(a), 8);
    Field(TimeMid(a), 4);
    Field(TimeHiAndVersion(a), 4);
    Field(ClockSeq(b), 4);
    Field(Node(b), 12);
    Layout(PrintHex(TimeLow(a), 8), PrintHex(TimeMid(a), 4), PrintHex(TimeHiAndVersion(a), 4),
           PrintHex(ClockSeq(b), 4), PrintHex(Node(b), 12));
  }

  lemma VersionChars(hi: bv64, clock: bv64)
    requires Fits(hi, 4) && Fits(clock, 4)
    requires Shr4(Shr4(Shr4(hi))) == 4 && Shr4(Shr4(Shr4(clock))) & 0xC == 0x8
    ensures |PrintHex(hi, 4)| == 4 && PrintHex(hi, 4)[0] == '4'
    ensures |PrintHex(clock, 4)| == 4 && PrintHex(clock, 4)[0] in {'8', '9', 'a', 'b'}
  {
    PrintFixed(hi, 4);
    PrintFixed(clock, 4);
    FirstDigit(hi, 4);
    FirstDigit(clock, 4);
    var h, c := Shr4(Shr4(Shr4(hi))), Shr4(Shr4(Shr4(clock)));
    assert ShrBy4(hi, 3) == h && ShrBy4(clock, 3) == c && Shr4(c) == 0;
    VariantDigit(c);
    assert Nibble(4) == 4 && Nibble(8) == 8 && Nibble(9) == 9 && Nibble(10) == 10 && Nibble(11) == 11;
  }

  function Free(a: bv64, mask: bv64): bv64 { a & mask }

  lemma FreeA(a: bv64)
    ensures Free(SetVersion(a), FREE_A) == Free(a, FREE_A)
    ensures SetVersion(Free(a, FREE_A)) == SetVersion(a)
  {}

  lemma FreeB(b: bv64)
    ensures Free(SetVariant(b), FREE_B) == Free(b, FREE_B)
    ensures SetVariant(Free(b, FREE_B)) == SetVariant(b)
  {}

  /** Two draws give the same text exactly if they agree on the 122 bits that are not fixed. */
  lemma FreeBitsSurvive(a: bv64, b: bv64, c: bv64, d: bv64)
    ensures Format(SetVersion(a), SetVariant(b)) == Format(SetVersion(c), SetVariant(d))
       <==> Free(a, FREE_A) == Free(c, FREE_A) && Free(b, FREE_B) == Free(d, FREE_B)
  {
    hide SetVersion, SetVariant, Format, Parse, IsForm, Free;
    ParseFormat(SetVersion(a), SetVariant(b));
    ParseFormat(SetVersion(c), SetVariant(d));
    FreeA(a);
    FreeA(c);
    FreeB(b);
    FreeB(d);
  }
}
