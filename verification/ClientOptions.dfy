/**
 The broker address of the client options: "host:port" text taken apart by
 set_address, checked by Validate, and put together again for the channel.
 The text after the last colon is read as std::stoi reads it.
 */
module ClientOptions {

  import opened Wrappers

  // ------------------------------------------------------- decimal numerals

  const INT_MIN := -0x8000_0000
  const INT_MAX := 0x7FFF_FFFF

  predicate InInt(n: int) { INT_MIN <= n <= INT_MAX }

  predicate IsDigit(c: char) { '0' <= c <= '9' }

  predicate AllDigits(s: string) { forall i :: 0 <= i < |s| ==> IsDigit(s[i]) }

  /** isspace in the C locale. */
  predicate IsSpace(c: char) { c == ' ' || 9 <= c as int <= 13 }

  predicate AllSpace(s: string) { forall i :: 0 <= i < |s| ==> IsSpace(s[i]) }

  function Digit(d: nat): (c: char)
    requires d < 10
    ensures IsDigit(c) && c as int - '0' as int == d
  {
    "0123456789"[d]
  }

  function Value(ds: string): nat
    requires AllDigits(ds)
  {
    if ds == "" then 0 else 10 * Value(ds[..|ds| - 1]) + (ds[|ds| - 1] as int - '0' as int)
  }

  function Digits(n: nat): string {
    if n < 10 then [Digit(n)] else Digits(n / 10) + [Digit(n % 10)]
  }

  /** std::to_string of an int. */
  function ToString(n: int): string {
    if n < 0 then "-" + Digits(-n) else Digits(n)
  }

  /** A numeral without leading zeros. */
  predicate Lean(ds: string) {
    ds != "" && AllDigits(ds) && (ds[0] == '0' ==> ds == "0")
  }

  lemma {:induction false} ValueOfDigits(n: nat)
    ensures Lean(Digits(n)) && Value(Digits(n)) == n
    ensures Digits(n)[0] == '0' ==> n == 0
    decreases n
  {
    if n >= 10 {
      ValueOfDigits(n / 10);
      assert Digits(n)[..|Digits(n)| - 1] == Digits(n / 10);
    }
  }

  lemma DigitBack(c: char)
    requires IsDigit(c)
    ensures 0 <= c as int - '0' as int < 10 && Digit(c as int - '0' as int) == c
  {}

  lemma DigitsSnoc(n: nat, d: nat)
    requires n > 0 && d < 10
    ensures Digits(10 * n + d) == Digits(n) + [Digit(d)]
  {}

  lemma LeanPrefix(ds: string)
    requires Lean(ds) && |ds| > 1
    ensures ds[0] != '0' && Lean(ds[..|ds| - 1]) && ds[..|ds| - 1][0] == ds[0] && IsDigit(ds[|ds| - 1])
  {}

  lemma LeanDigits(ds: string)
    requires Lean(ds)
    ensures ds != "" && AllDigits(ds)
  {}

  lemma OneDigit(ds: string)
    requires Lean(ds) && |ds| == 1
    ensures Digits(Value(ds)) == ds && (ds[0] != '0' ==> Value(ds) > 0)
  {
    DigitBack(ds[0]);
    assert ds[..0] == "" && ds == [ds[0]];
  }

  lemma LastOf(ds: string)
    requires ds != ""
    ensures ds == ds[..|ds| - 1] + [ds[|ds| - 1]]
  {}

  lemma LastDigit(ds: string)
    requires ds != "" && AllDigits(ds)
    ensures var n := |ds| - 1;
      AllDigits(ds[..n]) && Value(ds) == 10 * Value(ds[..n]) + (ds[n] as int - '0' as int)
  {}

  lemma {:induction false} DigitsOfValue(ds: string)
    requires Lean(ds)
    ensures Digits(Value(ds)) == ds
    ensures ds[0] != '0' ==> Value(ds) > 0
    decreases |ds|
  {
    hide Digits, Digit, IsDigit, Lean, AllDigits, Value;
    LeanDigits(ds);
    if |ds| == 1 {
      OneDigit(ds);
    } else {
      var n := |ds| - 1;
      LeanPrefix(ds);
      DigitBack(ds[n]);
      LastOf(ds);
      LastDigit(ds);
      DigitsOfValue(ds[..n]);
      DigitsSnoc(Value(ds[..n]), ds[n] as int - '0' as int);
    }
  }

  // --------------------------------------------------------------- std::stoi

  datatype Number = Read(value: int) | NoConversion | OutOfRange

  function SkipSpace(s: string): (r: string)
    ensures |r| <= |s|
    ensures AllSpace(s[..|s| - |r|]) && r == s[|s| - |r|..] && (r != "" ==> !IsSpace(r[0]))
  {
    if s != "" && IsSpace(s[0]) then SkipSpace(s[1..]) else s
  }

  function DigitRun(s: string): (ds: string)
    ensures |ds| <= |s|
    ensures AllDigits(ds) && ds == s[..|ds|] && (|ds| < |s| ==> !IsDigit(s[|ds|]))
  {
    if s != "" && IsDigit(s[0]) then
      var rest := DigitRun(s[1..]);
      [s[0]] + rest
    else ""
  }

  function Sign(s: string): (r: string)
    ensures |r| <= |s| && r == s[..|r|]
  {
    if s != "" && (s[0] == '+' || s[0] == '-') then s[..1] else ""
  }

  function Ranged(n: int): Number { if InInt(n) then Read(n) else OutOfRange }

  function Signed(sign: string, magnitude: int): int {
    if sign == "-" then -magnitude else magnitude
  }

  function StoI(s: string): Number {
    var body := SkipSpace(s);
    var sign := Sign(body);
    var ds := DigitRun(body[|sign|..]);
    if ds == "" then NoConversion else Ranged(Signed(sign, Value(ds)))
  }

  predicate IsSign(s: string) { s == "" || s == "+" || s == "-" }

  /** s is white space, a sign or none, digits, and anything that does not go on with a digit. */
  predicate Splits(s: string, space: string, sign: string, ds: string, tail: string) {
    && s == space + sign + ds + tail
    && AllSpace(space) && IsSign(sign)
    && ds != "" && AllDigits(ds) && (tail != "" ==> !IsDigit(tail[0]))
  }

  lemma {:induction false} SkipSpaceSkips(space: string, rest: string)
    requires AllSpace(space) && (rest != "" ==> !IsSpace(rest[0]))
    ensures SkipSpace(space + rest) == rest
    decreases |space|
  {
    if space == "" {
      assert space + rest == rest;
    } else {
      assert (space + rest)[1..] == space[1..] + rest;
      SkipSpaceSkips(space[1..], rest);
    }
  }

  lemma {:induction false} DigitRunStops(ds: string, tail: string)
    requires AllDigits(ds) && (tail != "" ==> !IsDigit(tail[0]))
    ensures DigitRun(ds + tail) == ds
    decreases |ds|
  {
    if ds == "" {
      assert ds + tail == tail;
    } else {
      assert (ds + tail)[1..] == ds[1..] + tail;
      DigitRunStops(ds[1..], tail);
    }
  }

  lemma SignIsFound(sign: string, ds: string, tail: string)
    requires IsSign(sign) && ds != "" && AllDigits(ds)
    ensures var body := sign + (ds + tail);
      body != "" && !IsSpace(body[0]) && Sign(body) == sign && body[|sign|..] == ds + tail
  {
    var body := sign + (ds + tail);
    assert body[0] == if sign == "" then ds[0] else sign[0];
    assert IsDigit(ds[0]);
    assert body[|sign|..] == ds + tail;
    assert body[..|sign|] == sign;
  }

  /** Whatever way a text can be read as a number, this is the number. */
  lemma StoIReads(s: string, space: string, sign: string, ds: string, tail: string)
    requires Splits(s, space, sign, ds, tail)
    ensures StoI(s) == Ranged(Signed(sign, Value(ds)))
  {
    hide SkipSpace, DigitRun, Sign, IsSign, IsSpace, IsDigit, AllSpace, AllDigits, Value, Signed, Ranged;
    var body := sign + (ds + tail);
    assert s == space + body;
    SignIsFound(sign, ds, tail);
    SkipSpaceSkips(space, body);
    DigitRunStops(ds, tail);
  }

  lemma SuffixCut(s: string, r: string)
    requires |r| <= |s| && r == s[|s| - |r|..]
    ensures s == s[..|s| - |r|] + r
  {}

  lemma SpaceCut(s: string)
    ensures var r := SkipSpace(s);
      s == s[..|s| - |r|] + r && AllSpace(s[..|s| - |r|])
  {
    hide SkipSpace, AllSpace, IsSpace;
    SuffixCut(s, SkipSpace(s));
  }

  lemma SignCut(s: string)
    ensures IsSign(Sign(s)) && s == Sign(s) + s[|Sign(s)|..]
  {
    SignIsSign(s);
  }

  lemma DigitCut(s: string)
    ensures var ds, tail := DigitRun(s), s[|DigitRun(s)|..];
      s == ds + tail && AllDigits(ds) && (tail != "" ==> !IsDigit(tail[0]))
  {}

  lemma Regroup(w: string, x: string, y: string, z: string)
    ensures w + x + y + z == w + (x + (y + z))
  {}

  /** The parts StoI finds. */
  lemma PartsOf(s: string)
    requires StoI(s) != NoConversion
    ensures exists space: string, sign: string, ds: string, tail: string :: Splits(s, space, sign, ds, tail)
  {
    hide SkipSpace, DigitRun, Sign, IsSpace, IsDigit, AllSpace, AllDigits, Value, Signed, Ranged, IsSign, Splits;
    var body := SkipSpace(s);
    var after := body[|Sign(body)|..];
    SpaceCut(s);
    SignCut(body);
    DigitCut(after);
    Joined(s, s[..|s| - |body|], body, Sign(body), after, DigitRun(after), after[|DigitRun(after)|..]);
  }

  lemma Joined(s: string, space: string, body: string, sign: string, after: string, ds: string, tail: string)
    requires s == space + body && body == sign + after && after == ds + tail
    requires AllSpace(space) && IsSign(sign) && ds != "" && AllDigits(ds) && (tail != "" ==> !IsDigit(tail[0]))
    ensures Splits(s, space, sign, ds, tail)
  {
    hide IsDigit, AllSpace, AllDigits, IsSign;
    Regroup(space, sign, ds, tail);
  }

  /** A numeral alone. */
  lemma SplitsAlone(sign: string, ds: string)
    requires IsSign(sign) && ds != "" && AllDigits(ds)
    ensures Splits(sign + ds, "", sign, ds, "")
  {
    assert ds + "" == ds && "" + (sign + ds) == sign + ds;
    Joined(sign + ds, "", sign + ds, sign, ds, ds, "");
  }

  lemma SignIsSign(s: string)
    ensures IsSign(Sign(s))
  {
    assert s != "" ==> s[..1] == [s[0]];
  }

  /** A text is refused as no number exactly if it cannot be read as one. */
  lemma StoIRefuses(s: string)
    ensures StoI(s) == NoConversion
       <==> forall space: string, sign: string, ds: string, tail: string :: !Splits(s, space, sign, ds, tail)
  {
    hide StoI, Splits;
    if StoI(s) != NoConversion { PartsOf(s); }
    forall space: string, sign: string, ds: string, tail: string | Splits(s, space, sign, ds, tail)
      ensures StoI(s) != NoConversion
    {
      StoIReads(s, space, sign, ds, tail);
    }
  }

  /** What to_string prints for an int. */
  predicate Plain(s: string) {
    && s != ""
    && Lean(Magnitude(s)) && s != "-0"
    && InInt(Signed(Sign(s), Value(Magnitude(s))))
  }

  function Magnitude(s: string): string {
    if s != "" && s[0] == '-' then s[1..] else s
  }

  lemma PrintedIsPlain(n: int)
    requires InInt(n)
    ensures Plain(ToString(n))
  {
    var m := if n < 0 then -n else n;
    ValueOfDigits(m);
    assert n < 0 ==> ToString(n)[1..] == Digits(m);
  }

  lemma StoIOfPrinted(n: int)
    requires InInt(n)
    ensures StoI(ToString(n)) == Read(n)
  {
    hide StoI, Lean, Value, AllDigits, Digits;
    var m := if n < 0 then -n else n;
    ValueOfDigits(m);
    LeanDigits(Digits(m));
    var sign := if n < 0 then "-" else "";
    assert ToString(n) == sign + Digits(m);
    SplitsAlone(sign, Digits(m));
    StoIReads(ToString(n), "", sign, Digits(m), "");
  }

  lemma PrintedOfStoI(s: string)
    requires Plain(s)
    ensures StoI(s).Read? && ToString(StoI(s).value) == s
  {
    hide StoI, Lean, AllDigits, Digits, Value;
    var ds := Magnitude(s);
    LeanDigits(ds);
    var sign := if s[0] == '-' then "-" else "";
    PlainSign(s);
    SplitsAlone(sign, ds);
    StoIReads(s, "", sign, ds, "");
    DigitsOfValue(ds);
  }

  lemma PlainSign(s: string)
    requires Plain(s)
    ensures var sign := if s[0] == '-' then "-" else "";
      && s == sign + Magnitude(s) && Sign(s) == sign
      && (sign == "-" ==> Magnitude(s)[0] != '0')
  {
    var ds := Magnitude(s);
    if s[0] == '-' {
      assert s == "-" + ds;
    } else {
      assert IsDigit(s[0]);
    }
  }

  // ----------------------------------------------------------------- address

  /** std::string::rfind: the last position of c. */
  function RFind(s: string, c: char): (r: Option<nat>)
    ensures r.None? <==> c !in s
    ensures r.Some? ==> r.value < |s| && s[r.value] == c && c !in s[r.value + 1..]
  {
    if s == "" then None
    else if s[|s| - 1] == c then Some(|s| - 1)
    else
      assert s == s[..|s| - 1] + [s[|s| - 1]];
      var r := RFind(s[..|s| - 1], c);
      assert r.Some? ==> s[r.value + 1..] == s[..|s| - 1][r.value + 1..] + [s[|s| - 1]];
      r
  }

  lemma Later(s: string, c: char, p: nat, r: nat)
    requires p < r < |s| && s[r] == c
    ensures c in s[p + 1..]
  {
    assert s[p + 1..][r - p - 1] == c;
  }

  lemma LastIsUnique(s: string, c: char, p: nat)
    requires p < |s| && s[p] == c && c !in s[p + 1..]
    ensures RFind(s, c) == Some(p)
  {
    var r := RFind(s, c).value;
    if p < r { Later(s, c, p, r); }
  }

  datatype Address = Address(host: string, port: int)

  function ParseAddress(address: string): Address {
    var pos := RFind(address, ':');
    if pos.Some? && pos.value < |address| - 1 then
      var number := StoI(address[pos.value + 1..]);
      Address(address[..pos.value], if number.Read? then number.value else 0)
    else
      Address(address, 0)
  }

  /** The target the channel is opened to. */
  function Target(a: Address): string { a.host + ":" + ToString(a.port) }

  lemma DigitsHaveNoColon(n: nat)
    ensures Digits(n) != "" && ':' !in Digits(n)
  {
    ValueOfDigits(n);
  }

  /** Any host, colons included, and any int as port are read back from the target they make. */
  lemma TargetIsReadBack(a: Address)
    requires -0x8000_0000 <= a.port <= 0x7FFF_FFFF
    ensures ParseAddress(Target(a)) == a
  {
    var text, p := Target(a), |a.host|;
    DigitsHaveNoColon(if a.port < 0 then -a.port else a.port);
    assert text[p] == ':' && text[p + 1..] == ToString(a.port) && text[..p] == a.host;
    LastIsUnique(text, ':', p);
    StoIOfPrinted(a.port);
  }

  /** An address is what the channel is opened to, letter for letter, exactly if
      a colon is followed by a port as to_string prints it. */
  lemma AddressIsTheTarget(address: string)
    ensures Target(ParseAddress(address)) == address
       <==> ':' in address && Plain(address[RFind(address, ':').value + 1..])
  {
    hide RFind, StoI, ToString, Plain;
    var pos := RFind(address, ':');
    if pos.Some? {
      var rest := address[pos.value + 1..];
      assert address == address[..pos.value] + ":" + rest;
      if Plain(rest) {
        PlainIsText(rest);
        PrintedOfStoI(rest);
      } else if Target(ParseAddress(address)) == address {
        PortInRange(address);
        PrintedIsPlain(ParseAddress(address).port);
        PrintedAfterColon(address, pos.value);
      }
    }
  }

  lemma PlainIsText(s: string)
    requires Plain(s)
    ensures s != ""
  {}

  lemma PrintedAfterColon(address: string, pos: nat)
    requires RFind(address, ':') == Some(pos) && Target(ParseAddress(address)) == address
    ensures address[pos + 1..] == ToString(ParseAddress(address).port)
  {
    hide RFind, StoI, ToString;
    var a := ParseAddress(address);
    assert Target(a)[|a.host| + 1..] == ToString(a.port);
  }

  lemma PortInRange(address: string)
    ensures InInt(ParseAddress(address).port)
  {}

  /** The form of address Validate lets through. */
  predicate NamesPort(address: string, pos: nat, space: string, sign: string, ds: string, tail: string) {
    && 0 < pos < |address| && address[pos] == ':' && ':' !in address[pos + 1..]
    && Splits(address[pos + 1..], space, sign, ds, tail)
    && 1 <= Signed(sign, Value(ds)) <= 65535
  }

  predicate Usable(a: Address) { a.host != "" && 1 <= a.port <= 65535 }

  /** An address gets a usable host and port exactly if a non-empty host is followed by a
      colon and a number in range; white space before it and a tail after it pass unnoticed. */
  lemma UsableExactlyWhen(address: string)
    ensures Usable(ParseAddress(address))
       <==> exists pos: nat, space: string, sign: string, ds: string, tail: string ::
              NamesPort(address, pos, space, sign, ds, tail)
  {
    hide RFind, StoI, Splits, Signed, Value;
    if Usable(ParseAddress(address)) { UsableNamesPort(address); }
    if pos: nat, space: string, sign: string, ds: string, tail: string
      :| NamesPort(address, pos, space, sign, ds, tail)
    {
      LastIsUnique(address, ':', pos);
      SplitsText(address[pos + 1..], space, sign, ds, tail);
      StoIReads(address[pos + 1..], space, sign, ds, tail);
    }
  }

  lemma SplitsText(s: string, space: string, sign: string, ds: string, tail: string)
    requires Splits(s, space, sign, ds, tail)
    ensures s != "" && AllDigits(ds)
  {}

  lemma UsableNamesPort(address: string)
    requires Usable(ParseAddress(address))
    ensures exists pos: nat, space: string, sign: string, ds: string, tail: string ::
              NamesPort(address, pos, space, sign, ds, tail)
  {
    hide RFind, StoI, Splits, Signed, Value;
    var pos := RFind(address, ':').value;
    var rest := address[pos + 1..];
    PartsOf(rest);
    var space: string, sign: string, ds: string, tail: string :| Splits(rest, space, sign, ds, tail);
    SplitsText(rest, space, sign, ds, tail);
    StoIReads(rest, space, sign, ds, tail);
    assert NamesPort(address, pos, space, sign, ds, tail);
  }

  /** After the last colon, text that is a number in range is the port, and any other text makes it 0. */
  lemma TextIsPortOrZero(host: string, text: string)
    requires text != "" && ':' !in text
    ensures var a := ParseAddress(host + ":" + text);
      && a.host == host
      && (forall space: string, sign: string, ds: string, tail: string :: Splits(text, space, sign, ds, tail) ==>
            var n := Signed(sign, Value(ds));
            a.port == if -0x8000_0000 <= n <= 0x7FFF_FFFF then n else 0)
      && ((forall space: string, sign: string, ds: string, tail: string :: !Splits(text, space, sign, ds, tail)) ==>
            a.port == 0)
  {
    hide RFind, StoI, Splits, Signed, Value;
    var address, p := host + ":" + text, |host|;
    assert address[p] == ':' && address[p + 1..] == text && address[..p] == host;
    LastIsUnique(address, ':', p);
    StoIRefuses(text);
    forall space: string, sign: string, ds: string, tail: string | Splits(text, space, sign, ds, tail)
      ensures AllDigits(ds) && StoI(text) == Ranged(Signed(sign, Value(ds)))
    {
      SplitsText(text, space, sign, ds, tail);
      StoIReads(text, space, sign, ds, tail);
    }
  }

  /** A service name is not a port. */
  lemma ServiceNameIsNoPort()
    ensures ParseAddress("localhost:http") == Address("localhost", 0) && !Usable(ParseAddress("localhost:http"))
  {
    hide RFind;
    var s := "localhost:http";
    LastIsUnique(s, ':', 9);
    assert s[10..] == "http" && s[..9] == "localhost";
    assert SkipSpace("http") == "http" && Sign("http") == "" && "http"[0..] == "http" && DigitRun("http") == "";
  }

  /** A host given without a port is kept whole exactly if it has no colon, or its last colon is its last character. */
  lemma BareHostIsKept(host: string)
    ensures ParseAddress(host) == Address(host, 0) <==> ':' !in host || RFind(host, ':') == Some(|host| - 1)
  {}

  /** An IPv6 literal whose last group starts with a number in range loses that group to the port. */
  lemma LiteralLosesItsLastGroup()
    ensures ParseAddress("fe80::1") == Address("fe80:", 1) && Usable(ParseAddress("fe80::1"))
  {
    var s := "fe80::1";
    LastIsUnique(s, ':', 5);
    assert s[6..] == "1" && s[..5] == "fe80:";
    var one := Digits(1);
    assert one == "1" == ToString(1);
    StoIOfPrinted(1);
  }

  // ----------------------------------------------------------------- options

  datatype Status =
    | Ok | HostRequired | PortNotPositive | PortTooLarge | BufferNotPositive | ReceiveSizeNotPositive
    | SendSizeNotPositive | TimeoutNotPositive | CallbacksNotPositive | RetriesOutOfRange

  /** The fields set_address changes and Validate looks at; the timeout is in milliseconds. */
  class ClientOptions {
    var host: string
    var port: int
    var subscriptionBufferSize: int
    var maxReceiveMessageSize: int
    var maxSendMessageSize: int
    var connectionTimeout: int
    var maxConcurrentCallbacks: int
    var maxRetries: int

    function At(): Address
      reads this`host, this`port
    {
      Address(host, port)
    }

    method SetHostAndPort(host: string, port: int)
      modifies this`host, this`port
      ensures At() == Address(host, port)
    {
      this.host := host;
      this.port := port;
    }

    method SetAddress(address: string)
      modifies this`host, this`port
      ensures At() == ParseAddress(address)
      ensures Target(At()) == address <==> ':' in address && Plain(address[RFind(address, ':').value + 1..])
    {
      hide RFind, StoI, ToString, Plain;
      var pos := RFind(address, ':');
      if pos.Some? && pos.value < |address| - 1 {
        host := address[..pos.value];
        var number := StoI(address[pos.value + 1..]);
        if number.Read? {
          port := number.value;
        } else {
          port := 0;
        }
      } else {
        host := address;
        port := 0;
      }
      AddressIsTheTarget(address);
    }

    predicate SizesInRange()
      reads this
    {
      subscriptionBufferSize > 0 && maxReceiveMessageSize > 0 && maxSendMessageSize > 0
    }

    predicate LimitsInRange()
      reads this
    {
      && SizesInRange()
      && connectionTimeout > 0 && maxConcurrentCallbacks > 0 && 0 <= maxRetries <= 10
    }

    /** Accepts exactly the options in range; a refusal names the first field that is out of range. */
    method Validate() returns (status: Status)
      ensures status == Ok <==> Usable(At()) && LimitsInRange()
      ensures status == HostRequired <==> host == ""
      ensures status == PortNotPositive <==> host != "" && port <= 0
      ensures status == PortTooLarge <==> host != "" && port > 65535
      ensures status == BufferNotPositive <==> Usable(At()) && subscriptionBufferSize <= 0
      ensures status == ReceiveSizeNotPositive <==>
        Usable(At()) && subscriptionBufferSize > 0 && maxReceiveMessageSize <= 0
      ensures status == SendSizeNotPositive <==>
        Usable(At()) && subscriptionBufferSize > 0 && maxReceiveMessageSize > 0 && maxSendMessageSize <= 0
      ensures status == TimeoutNotPositive <==> Usable(At()) && SizesInRange() && connectionTimeout <= 0
      ensures status == CallbacksNotPositive <==>
        Usable(At()) && SizesInRange() && connectionTimeout > 0 && maxConcurrentCallbacks <= 0
      ensures status == RetriesOutOfRange <==>
        Usable(At()) && SizesInRange() && connectionTimeout > 0 && maxConcurrentCallbacks > 0 && !(0 <= maxRetries <= 10)
    {
      if host == "" { return HostRequired; }
      if port <= 0 { return PortNotPositive; }
      if port > 65535 { return PortTooLarge; }
      if subscriptionBufferSize <= 0 { return BufferNotPositive; }
      if maxReceiveMessageSize <= 0 { return ReceiveSizeNotPositive; }
      if maxSendMessageSize <= 0 { return SendSizeNotPositive; }
      if connectionTimeout <= 0 { return TimeoutNotPositive; }
      if maxConcurrentCallbacks <= 0 { return CallbacksNotPositive; }
      if maxRetries < 0 || maxRetries > 10 { return RetriesOutOfRange; }
      return Ok;
    }
  }
}
