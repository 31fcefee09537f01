/** Host/port text: `parse_host_port` and `format_host_port` of the client. */
module Addr {
  import opened Base
  import opened Text
  import Decimal

  datatype AddrError =
    | EmptyAddress
    | MissingBracket
    | EmptyHost
    | InvalidPort
    | TrailingCharacters

  /** Index of the first `c` in `s`. */
  function Find(s: string, c: char): (r: Option<nat>)
    ensures r.Some? ==> r.value < |s| && s[r.value] == c && c !in s[..r.value]
    ensures r.None? <==> c !in s
  {
    if s == [] then None
    else if s[0] == c then Some(0)
    else
      match Find(s[1..], c)
      case None => None
      case Some(i) => assert s[..i + 1] == [s[0]] + s[1..][..i]; Some(i + 1)
  }

  function Count(s: string, c: char): nat {
    if s == [] then 0 else (if s[0] == c then 1 else 0) + Count(s[1..], c)
  }

  /** `str::parse::<u16>`: an optional `+`, then at least one digit, at most 65535. */
  function ParseU16(s: string): Option<nat> {
    var digits := if s != [] && s[0] == '+' then s[1..] else s;
    if digits == [] || !Decimal.AllDigits(digits) || Decimal.Value(digits) > 0xffff then None
    else Some(Decimal.Value(digits))
  }

  function ParseBracketed(rest: string, defaultPort: nat): Result<(string, nat), AddrError> {
    match Find(rest, ']')
    case None => Err(MissingBracket)
    case Some(end) =>
      var host := rest[..end];
      var after := rest[end + 1..];
      if host == [] then Err(EmptyHost)
      else if after != [] && after[0] == ':' then
        match ParseU16(after[1..]) {
          case None => Err(InvalidPort)
          case Some(port) => Ok((host, port))
        }
      else if after == [] then Ok((host, defaultPort))
      else Err(TrailingCharacters)
  }

  function ParsePlain(s: string, defaultPort: nat): Result<(string, nat), AddrError> {
    match Find(s, ':')
    case None => Ok((s, defaultPort))
    case Some(colon) =>
      // Several colons and no brackets: a bare IPv6 literal.
      if Count(s, ':') != 1 then Ok((s, defaultPort))
      else if colon == 0 then Err(EmptyHost)
      else
        match ParseU16(s[colon + 1..])
        case None => Err(InvalidPort)
        case Some(port) => Ok((s[..colon], port))
  }

  function ParseHostPort(input: string, defaultPort: nat): Result<(string, nat), AddrError> {
    var s := Trim(input);
    if s == [] then Err(EmptyAddress)
    else if s[0] == '[' then ParseBracketed(s[1..], defaultPort)
    else ParsePlain(s, defaultPort)
  }

  function FormatHostPort(host: string, port: nat): string {
    if ':' in host then "[" + host + "]:" + Decimal.Print(port)
    else host + ":" + Decimal.Print(port)
  }

  /** The hosts whose formatted address reads back as themselves. */
  predicate Representable(host: string) {
    if ':' in host then ']' !in host
    else host != [] && !IsSpace(host[0]) && host[0] != '['
  }

  // ----- the round trip -----

  lemma CountNone(s: string, c: char)
    requires c !in s
    ensures Count(s, c) == 0
  {
  }

  lemma {:induction false} CountConcat(s: string, t: string, c: char)
    ensures Count(s + t, c) == Count(s, c) + Count(t, c)
  {
    if s == [] {
      assert s + t == t;
    } else {
      assert (s + t)[1..] == s[1..] + t;
      CountConcat(s[1..], t, c);
    }
  }

  lemma {:induction false} FindConcat(s: string, t: string, c: char)
    requires c !in s && t != [] && t[0] == c
    ensures Find(s + t, c) == Some(|s|)
  {
    assert (s + t)[|s|] == c;
    assert forall k :: |s| < k <= |s + t| ==> (s + t)[..k][|s|] == c;
  }

  lemma PortReadsBack(port: nat)
    requires port <= 0xffff
    ensures ParseU16(Decimal.Print(port)) == Some(port)
    ensures ':' !in Decimal.Print(port)
  {
    Decimal.PrintRoundTrip(port);
    assert Decimal.IsDigit(Decimal.Print(port)[0]);
  }

  /** An address ends in a digit, so trimming it only affects the front. */
  lemma TrimOfAddress(front: string, port: nat)
    ensures TrimEnd(front + Decimal.Print(port)) == front + Decimal.Print(port)
  {
    Decimal.PrintRoundTrip(port);
    var d := Decimal.Print(port);
    var s := front + d;
    assert s[|s| - 1] == d[|d| - 1];
    assert Decimal.IsDigit(d[|d| - 1]);
  }

  lemma BracketedRoundTrip(host: string, port: nat, defaultPort: nat)
    requires ':' in host && port <= 0xffff
    requires ']' !in host
    ensures ParseHostPort(FormatHostPort(host, port), defaultPort) == Ok((host, port))
  {
    var after := [':'] + Decimal.Print(port);
    assert FormatHostPort(host, port) == ['['] + (host + ([']'] + after));
    Decimal.PrintRoundTrip(port);
    assert Decimal.IsDigit(after[|after| - 1]);
    BracketedVerdict(host, after, defaultPort);
    assert after[1..] == Decimal.Print(port);
    PortReadsBack(port);
  }

  /** The first `]` closes the bracket, so a host holding one is cut short. */
  lemma BracketCutsHost(host: string, tail: string, port: nat, defaultPort: nat)
    requires ']' in host
    ensures ParseBracketed(host + tail, defaultPort) != Ok((host, port))
  {
    var rest := host + tail;
    var k :| 0 <= k < |host| && host[k] == ']';
    assert rest[k] == ']';
    assert forall e :: k < e <= |rest| ==> rest[..e][k] == ']';
    assert Find(rest, ']').Some? && Find(rest, ']').value <= k;
  }

  lemma BracketedNeedsNoBracket(host: string, port: nat, defaultPort: nat)
    requires ':' in host && port <= 0xffff
    requires ']' in host
    ensures ParseHostPort(FormatHostPort(host, port), defaultPort) != Ok((host, port))
  {
    var s := FormatHostPort(host, port);
    TrimOfAddress("[" + host + "]:", port);
    assert s[0] == '[' && s[1..] == host + ("]:" + Decimal.Print(port));
    BracketCutsHost(host, "]:" + Decimal.Print(port), port, defaultPort);
  }

  lemma PlainParses(host: string, port: nat, defaultPort: nat)
    requires host != [] && ':' !in host && port <= 0xffff
    ensures ParsePlain(host + ([':'] + Decimal.Print(port)), defaultPort) == Ok((host, port))
  {
    var d := Decimal.Print(port);
    var s := host + ([':'] + d);
    assert ParseU16(d) == Some(port) by { PortReadsBack(port); }
    assert Find(s, ':') == Some(|host|) by { FindConcat(host, [':'] + d, ':'); }
    assert Count(s, ':') == 1 by { PortReadsBack(port); OneColon(host, d); }
    assert s[|host| + 1..] == d;
    assert s[..|host|] == host;
  }

  lemma OneColon(a: string, b: string)
    requires ':' !in a && ':' !in b
    ensures Count(a + ([':'] + b), ':') == 1
  {
    CountConcat(a, [':'] + b, ':');
    CountNone(a, ':');
    CountNone(b, ':');
    assert ([':'] + b)[1..] == b;
  }

  lemma PlainRoundTrip(host: string, port: nat, defaultPort: nat)
    requires ':' !in host && port <= 0xffff
    requires host != [] && !IsSpace(host[0]) && host[0] != '['
    ensures ParseHostPort(FormatHostPort(host, port), defaultPort) == Ok((host, port))
  {
    var s := FormatHostPort(host, port);
    assert s == host + ([':'] + Decimal.Print(port));
    TrimOfAddress(host + ":", port);
    PlainParses(host, port, defaultPort);
  }

  lemma {:induction false} TrimStartOfPlain(host: string, tail: string)
    requires tail != [] && !IsSpace(tail[0])
    ensures TrimStart(host + tail) == TrimStart(host) + tail
    ensures |TrimStart(host)| <= |host|
    ensures host != [] && IsSpace(host[0]) ==> |TrimStart(host)| < |host|
    ensures TrimStart(host) != [] ==> !IsSpace(TrimStart(host)[0])
    ensures forall c :: c !in host ==> c !in TrimStart(host)
  {
    if host == [] {
      assert host + tail == tail;
    } else if IsSpace(host[0]) {
      assert (host + tail)[1..] == host[1..] + tail;
      TrimStartOfPlain(host[1..], tail);
    }
  }

  /** A text `[x:port` without a colon in `x` never yields a colon-free host as long as `[x`. */
  lemma BracketWithoutColon(text: string, tail: string, host: string, port: nat, defaultPort: nat)
    requires text != [] && |host| >= |text| && ':' !in host
    requires tail != [] && tail[0] == ':'
    ensures ParseBracketed((text + tail)[1..], defaultPort) != Ok((host, port))
  {
    var rest := (text + tail)[1..];
    assert rest[|text| - 1] == ':';
    assert forall e :: |text| <= e <= |rest| ==> rest[..e][|text| - 1] == ':';
  }

  /** What is left of a colon-free host by trimming decides what its address is read as. */
  lemma PlainAddressTrims(host: string, port: nat)
    requires ':' !in host
    ensures Trim(FormatHostPort(host, port)) == TrimStart(host) + ([':'] + Decimal.Print(port))
  {
    var tail := [':'] + Decimal.Print(port);
    var h := TrimStart(host);
    ConcatAssociates(host, [':'], Decimal.Print(port));
    assert TrimStart(host + tail) == h + tail by { TrimStartOfPlain(host, tail); }
    ConcatAssociates(h, [':'], Decimal.Print(port));
    TrimOfAddress(h + [':'], port);
  }

  lemma EmptyHostRejected(tail: string, defaultPort: nat)
    requires tail != [] && tail[0] == ':'
    ensures ParsePlain(tail, defaultPort).Err? || ParsePlain(tail, defaultPort) == Ok((tail, defaultPort))
  {
    assert Find(tail, ':') == Some(0);
  }

  lemma PlainNeedsCleanStart(host: string, port: nat, defaultPort: nat)
    requires ':' !in host && port <= 0xffff
    requires !Representable(host)
    ensures ParseHostPort(FormatHostPort(host, port), defaultPort) != Ok((host, port))
  {
    var tail := [':'] + Decimal.Print(port);
    var h := TrimStart(host);
    TrimStartOfPlain(host, tail);
    PlainAddressTrims(host, port);
    if h == [] {
      assert h + tail == tail;
      EmptyHostRejected(tail, defaultPort);
    } else if h[0] == '[' {
      BracketWithoutColon(h, tail, host, port, defaultPort);
    } else {
      PlainParses(h, port, defaultPort);
    }
  }

  /**
   * Formatting and parsing are inverse exactly on the representable hosts, whatever the
   * default port: with a colon, hosts without `]`; without one, non-empty hosts that start
   * neither with white space nor with `[`.
   */
  lemma RoundTripIff(host: string, port: nat, defaultPort: nat)
    requires port <= 0xffff
    ensures ParseHostPort(FormatHostPort(host, port), defaultPort) == Ok((host, port))
            <==> Representable(host)
  {
    if Representable(host) {
      if ':' in host {
        BracketedRoundTrip(host, port, defaultPort);
      } else {
        PlainRoundTrip(host, port, defaultPort);
      }
    } else if ':' in host {
      BracketedNeedsNoBracket(host, port, defaultPort);
    } else {
      PlainNeedsCleanStart(host, port, defaultPort);
    }
  }

  /** Two representable addresses with the same text are the same address. */
  lemma FormatInjective(host: string, port: nat, host': string, port': nat)
    requires port <= 0xffff && port' <= 0xffff
    requires Representable(host) && Representable(host')
    requires FormatHostPort(host, port) == FormatHostPort(host', port')
    ensures host == host' && port == port'
  {
    RoundTripIff(host, port, 0);
    RoundTripIff(host', port', 0);
  }

  // ----- addresses without a port, and rejected ones -----

  /** A bare host without a colon, or with several, is taken whole with the default port. */
  lemma BareHostDefaults(host: string, defaultPort: nat)
    requires host != [] && Trimmed(host) && host[0] != '[' && Count(host, ':') != 1
    ensures ParseHostPort(host, defaultPort) == Ok((host, defaultPort))
  {
    TrimResult(host);
  }

  /** A bracketed host without a port gets the default port; an empty one is rejected. */
  lemma BracketedDefaults(host: string, defaultPort: nat)
    requires ']' !in host
    ensures ParseHostPort("[" + host + "]", defaultPort)
            == if host == [] then Err(EmptyHost) else Ok((host, defaultPort))
  {
    assert "[" + host + "]" == ['['] + (host + ([']'] + []));
    BracketedVerdict(host, [], defaultPort);
  }

  // ----- which text gets which answer -----

  /** The text is `n` in decimal, with leading zeros and a plus sign if it likes. */
  ghost predicate Denotes(s: string, n: nat) {
    exists k: nat :: s == Decimal.Zeros(k) + Decimal.Print(n) || s == ['+'] + (Decimal.Zeros(k) + Decimal.Print(n))
  }

  /** A port is a number of at most 65535, however it is padded; nothing else is. */
  lemma PortAcceptedIff(s: string, n: nat)
    ensures ParseU16(s) == Some(n) <==> Denotes(s, n) && n <= 65535
  {
    var signed := s != [] && s[0] == '+';
    var digits := if signed then s[1..] else s;
    assert signed ==> s == ['+'] + digits;
    if ParseU16(s) == Some(n) {
      var k := Decimal.LeadingZeros(digits);
    }
    if k: nat :| s == Decimal.Zeros(k) + Decimal.Print(n) || s == ['+'] + (Decimal.Zeros(k) + Decimal.Print(n)) {
      Decimal.PrintRoundTrip(n);
      Decimal.ValueOfZeros(k, Decimal.Print(n));
      var padded := Decimal.Zeros(k) + Decimal.Print(n);
      assert Decimal.IsDigit(padded[0]);
      assert digits == padded;
    }
  }

  /** An address that is nothing but white space is empty, and only such a one. */
  lemma EmptyAddressIff(input: string, defaultPort: nat)
    ensures ParseHostPort(input, defaultPort) == Err(EmptyAddress) <==> forall c :: c in input ==> IsSpace(c)
  {
    BlankTrims(input);
  }

  lemma BlankTrims(s: string)
    ensures Trim(s) == [] <==> forall c :: c in s ==> IsSpace(c)
  {
    TrimStartBlank(s);
    TrimResult(s);
    var t := TrimStart(s);
    TrimStartResult(s);
    if t != [] {
      TrimEndKeepsFirst(t);
    }
  }

  lemma {:induction false} TrimStartBlank(s: string)
    ensures TrimStart(s) == [] <==> forall c :: c in s ==> IsSpace(c)
  {
    if s != [] {
      TrimStartBlank(s[1..]);
      assert forall c :: c in s <==> c == s[0] || c in s[1..];
    }
  }

  lemma {:induction false} TrimEndKeepsFirst(s: string)
    requires s != [] && !IsSpace(s[0])
    ensures TrimEnd(s) != []
  {
    if IsSpace(s[|s| - 1]) {
      TrimEndKeepsFirst(s[..|s| - 1]);
    }
  }

  /** What an explicit port text makes of the host before it. */
  function WithPort(host: string, port: string): Result<(string, nat), AddrError> {
    match ParseU16(port) case Some(n) => Ok((host, n)) case None => Err(InvalidPort)
  }

  /** `host:port` with a single colon: the port text decides, and an empty host is rejected. */
  lemma PlainVerdict(host: string, port: string, defaultPort: nat)
    requires ':' !in host && ':' !in port && Trimmed(host + ([':'] + port))
    requires host != [] ==> host[0] != '['
    ensures ParseHostPort(host + ([':'] + port), defaultPort)
            == if host == [] then Err(EmptyHost) else WithPort(host, port)
  {
    var s := host + ([':'] + port);
    TrimResult(s);
    OneColon(host, port);
    FindConcat(host, [':'] + port, ':');
    assert s[0] != '[' && s[|host| + 1..] == port && s[..|host|] == host;
  }

  /** `[host]` and what follows it: nothing, a colon and a port, or an error. */
  lemma BracketedVerdict(host: string, after: string, defaultPort: nat)
    requires ']' !in host && (after != [] ==> !IsSpace(after[|after| - 1]))
    ensures ParseHostPort(['['] + (host + ([']'] + after)), defaultPort)
            == if host == [] then Err(EmptyHost)
               else if after == [] then Ok((host, defaultPort))
               else if after[0] == ':' then WithPort(host, after[1..])
               else Err(TrailingCharacters)
  {
    var rest := host + ([']'] + after);
    var s := ['['] + rest;
    assert Trimmed(s) by { assert s[|s| - 1] == if after == [] then ']' else after[|after| - 1]; }
    TrimResult(s);
    assert s[1..] == rest;
    ClosingBracket(host, after);
  }

  lemma ClosingBracket(host: string, after: string)
    requires ']' !in host
    ensures var rest := host + ([']'] + after);
            && Find(rest, ']') == Some(|host|)
            && rest[..|host|] == host && rest[|host| + 1..] == after
  {
    FindConcat(host, [']'] + after, ']');
  }

  /** A bracket that is never closed is rejected. */
  lemma UnclosedRejected(rest: string, defaultPort: nat)
    requires ']' !in rest && (rest != [] ==> !IsSpace(rest[|rest| - 1]))
    ensures ParseHostPort(['['] + rest, defaultPort) == Err(MissingBracket)
  {
    var s := ['['] + rest;
    TrimResult(s);
    assert s[1..] == rest;
  }
}
