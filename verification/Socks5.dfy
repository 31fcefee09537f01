/**
 * SOCKS5 negotiation (`server/src/socks5.rs`): sections 3, 4 and 5 of RFC 1928 and section 2 of
 * RFC 1929, from the client's bytes to the target and the unread rest.
 */
module Socks5 {
  import opened Base
  import F = Framing
  import RL = RateLimiter

  type Bytes = seq<byte>
  /** Which byte strings are UTF-8. */
  type Utf8 = Bytes -> bool

  datatype Config = Config(username: Option<Bytes>, password: Option<Bytes>, allowAnonymous: bool)

  datatype Target =
    | V4(address: Bytes, port: nat)
    | Domain(name: Bytes, port: nat)
    | V6(address: Bytes, port: nat)

  datatype NegotiationError =
    | UnexpectedEof
    | UnsupportedVersion
    | RateLimited
    | NoCredentialsConfigured
    | NoAcceptableMethod
    | UnsupportedAuthVersion
    | AuthenticationFailed
    | UnsupportedCommand
    | InvalidDomain
    | UnsupportedAddressType
    | ConnectionLost

  predicate AllowsAnonymous(config: Option<Config>) {
    config.None? || config.value.allowAnonymous
  }

  predicate HasCredentials(config: Option<Config>) {
    config.Some? && config.value.username.Some? && config.value.password.Some?
  }

  // ----- what the client sends -----

  function Greeting(methods: Bytes): Bytes
    requires |methods| < 256
  {
    [5, |methods| as byte] + methods
  }

  /** A string behind its length byte. */
  function Counted(s: Bytes): Bytes
    requires |s| < 256
  {
    [|s| as byte] + s
  }

  function Authentication(user: Bytes, pass: Bytes): Bytes
    requires |user| < 256 && |pass| < 256
  {
    [1] + (Counted(user) + Counted(pass))
  }

  function PortBytes(port: nat): Bytes
    requires port < 0x1_0000
  {
    [(port / 256) as byte, (port % 256) as byte]
  }

  function Port(b: Bytes): nat
    requires |b| == 2
  {
    b[0] as nat * 256 + b[1] as nat
  }

  predicate WellFormed(utf8: Utf8, t: Target) {
    && t.port < 0x1_0000
    && match t
       case V4(a, _) => |a| == 4
       case V6(a, _) => |a| == 16
       case Domain(name, _) => |name| < 256 && utf8(name)
  }

  /** The address part of a request, from its type byte on. */
  function AddressBytes(utf8: Utf8, t: Target): Bytes
    requires WellFormed(utf8, t)
  {
    match t
    case V4(a, port) => [1] + a + PortBytes(port)
    case V6(a, port) => [4] + a + PortBytes(port)
    case Domain(name, port) => [3, |name| as byte] + name + PortBytes(port)
  }

  function ConnectRequest(utf8: Utf8, t: Target, reserved: byte): Bytes
    requires WellFormed(utf8, t)
  {
    [5, 1, reserved] + AddressBytes(utf8, t)
  }

  // ----- what the server does -----

  /** The first phase either stops or leaves the bytes of the request. */
  datatype Phase = Stop(error: NegotiationError, recorded: bool) | Go(rest: Bytes)

  /** A counted string and the bytes after it, or end of stream. */
  function TakeCounted(input: Bytes): Option<(Bytes, Bytes)> {
    if input == [] then None
    else
      var n := input[0] as nat;
      if |input| < 1 + n then None else Some((input[1..1 + n], input[1 + n..]))
  }

  /** User name, password and the bytes after them. */
  function TakeCredentials(input: Bytes): Result<(Bytes, Bytes, Bytes), NegotiationError> {
    if input == [] then Err(UnexpectedEof)
    else if input[0] != 1 then Err(UnsupportedAuthVersion)
    else
      match TakeCounted(input[1..])
      case None => Err(UnexpectedEof)
      case Some((user, rest)) =>
        match TakeCounted(rest)
        case None => Err(UnexpectedEof)
        case Some((pass, rest')) => Ok((user, pass, rest'))
  }

  function Authenticate(config: Config, input: Bytes): Phase
    requires config.username.Some? && config.password.Some?
  {
    match TakeCredentials(input)
    case Err(error) => Stop(error, false)
    case Ok((user, pass, rest)) =>
      if user == config.username.value && pass == config.password.value then Go(rest)
      else Stop(AuthenticationFailed, true)
  }

  /** The offered methods and the bytes after the greeting. */
  function TakeMethods(input: Bytes): Result<(Bytes, Bytes), NegotiationError> {
    if |input| < 2 then Err(UnexpectedEof)
    else if input[0] != 5 then Err(UnsupportedVersion)
    else
      var n := input[1] as nat;
      if |input| < 2 + n then Err(UnexpectedEof) else Ok((input[2..2 + n], input[2 + n..]))
  }

  function ChooseMethod(config: Option<Config>, limited: bool, methods: Bytes, rest: Bytes): Phase {
    if AllowsAnonymous(config) then
      if 0 in methods then Go(rest) else Stop(NoAcceptableMethod, false)
    else if limited then Stop(RateLimited, false)
    else if !HasCredentials(config) then Stop(NoCredentialsConfigured, false)
    else if 2 !in methods then Stop(NoAcceptableMethod, false)
    else Authenticate(config.value, rest)
  }

  function SelectMethod(config: Option<Config>, limited: bool, input: Bytes): Phase {
    match TakeMethods(input)
    case Err(error) => Stop(error, false)
    case Ok((methods, rest)) => ChooseMethod(config, limited, methods, rest)
  }

  /** An address of `n` bytes and a port, or end of stream. */
  function TakeAddress(input: Bytes, n: nat): Option<(Bytes, nat, Bytes)> {
    if |input| < n + 2 then None else Some((input[..n], Port(input[n..n + 2]), input[n + 2..]))
  }

  function ReadRequest(utf8: Utf8, input: Bytes): Result<(Target, Bytes), NegotiationError> {
    if |input| < 4 then Err(UnexpectedEof)
    else if input[0] != 5 || input[1] != 1 then Err(UnsupportedCommand)
    else
      var body := input[4..];
      if input[3] == 1 then
        match TakeAddress(body, 4) {
          case None => Err(UnexpectedEof)
          case Some((a, port, rest)) => Ok((V4(a, port), rest))
        }
      else if input[3] == 3 then
        if body == [] then Err(UnexpectedEof)
        else
          match TakeAddress(body[1..], body[0] as nat) {
            case None => Err(UnexpectedEof)
            case Some((name, port, rest)) =>
              if utf8(name) then Ok((Domain(name, port), rest)) else Err(InvalidDomain)
          }
      else if input[3] == 4 then
        match TakeAddress(body, 16) {
          case None => Err(UnexpectedEof)
          case Some((a, port, rest)) => Ok((V6(a, port), rest))
        }
      else Err(UnsupportedAddressType)
  }

  function Negotiate(utf8: Utf8, config: Option<Config>, limited: bool, input: Bytes)
    : Result<(Target, Bytes), NegotiationError>
  {
    match SelectMethod(config, limited, input)
    case Stop(error, _) => Err(error)
    case Go(rest) => ReadRequest(utf8, rest)
  }

  // ----- every well-formed exchange is accepted, with the payload untouched -----

  lemma PortRoundTrip(port: nat)
    requires port < 0x1_0000
    ensures Port(PortBytes(port)) == port
  {
  }

  /** Ports are in network byte order. */
  lemma PortIsBigEndian(b: Bytes)
    requires |b| == 2
    ensures Port(b) == F.BigEndian(b)
  {
    assert F.BigEndian(b[..1]) == b[0] as nat by { assert b[..1][..0] == []; }
  }

  lemma TakeAddressOf(a: Bytes, port: nat, payload: Bytes)
    requires port < 0x1_0000
    ensures TakeAddress(a + PortBytes(port) + payload, |a|) == Some((a, port, payload))
  {
    var input := a + PortBytes(port) + payload;
    PortRoundTrip(port);
    assert input[..|a|] == a;
    assert input[|a|..|a| + 2] == PortBytes(port);
    assert input[|a| + 2..] == payload;
  }

  lemma AddressReadsBack(utf8: Utf8, kind: byte, a: Bytes, port: nat, reserved: byte, payload: Bytes)
    requires kind == 1 || kind == 4
    requires |a| == (if kind == 1 then 4 else 16) && port < 0x1_0000
    ensures ReadRequest(utf8, [5, 1, reserved, kind] + (a + PortBytes(port) + payload))
            == Ok((if kind == 1 then V4(a, port) else V6(a, port), payload))
  {
    var body := a + PortBytes(port) + payload;
    var input := [5, 1, reserved, kind] + body;
    TakeAddressOf(a, port, payload);
    assert input[4..] == body;
  }

  lemma DomainReadsBack(utf8: Utf8, name: Bytes, port: nat, reserved: byte, payload: Bytes)
    requires |name| < 256 && utf8(name) && port < 0x1_0000
    ensures ReadRequest(utf8, [5, 1, reserved, 3] + ([|name| as byte] + (name + PortBytes(port) + payload)))
            == Ok((Domain(name, port), payload))
  {
    var rest := name + PortBytes(port) + payload;
    var body := [|name| as byte] + rest;
    var input := [5, 1, reserved, 3] + body;
    TakeAddressOf(name, port, payload);
    assert input[4..] == body && body[1..] == rest;
  }

  lemma RequestLayout(reserved: byte, kind: byte, address: Bytes, port: Bytes, payload: Bytes)
    ensures [5, 1, reserved] + ([kind] + address + port) + payload
            == [5, 1, reserved, kind] + (address + port + payload)
  {
  }

  lemma RequestReadsBack(utf8: Utf8, t: Target, reserved: byte, payload: Bytes)
    requires WellFormed(utf8, t)
    ensures ReadRequest(utf8, ConnectRequest(utf8, t, reserved) + payload) == Ok((t, payload))
  {
    if t.Domain? {
      DomainReadsBack(utf8, t.name, t.port, reserved, payload);
      RequestLayout(reserved, 3, [|t.name| as byte] + t.name, PortBytes(t.port), payload);
      ConcatAssociates([3], [|t.name| as byte], t.name);
      ConcatAssociates([|t.name| as byte], t.name, PortBytes(t.port));
      ConcatAssociates([|t.name| as byte], t.name + PortBytes(t.port), payload);
      assert [3, |t.name| as byte] == [3] + [|t.name| as byte];
    } else {
      var kind := if t.V4? then 1 else 4;
      AddressReadsBack(utf8, kind, t.address, t.port, reserved, payload);
      RequestLayout(reserved, kind, t.address, PortBytes(t.port), payload);
    }
  }

  lemma CountedReadsBack(s: Bytes, rest: Bytes)
    requires |s| < 256
    ensures TakeCounted(Counted(s) + rest) == Some((s, rest))
  {
    var input := Counted(s) + rest;
    assert input[1..1 + |s|] == s && input[1 + |s|..] == rest;
  }

  lemma CountedIs(input: Bytes)
    requires TakeCounted(input).Some?
    ensures var (s, rest) := TakeCounted(input).value;
            |s| < 256 && input == Counted(s) + rest
  {
  }

  lemma AuthenticationReadsBack(config: Config, user: Bytes, pass: Bytes, rest: Bytes)
    requires config.username.Some? && config.password.Some? && |user| < 256 && |pass| < 256
    ensures Authenticate(config, Authentication(user, pass) + rest)
            == if user == config.username.value && pass == config.password.value then Go(rest)
               else Stop(AuthenticationFailed, true)
  {
    var input := Authentication(user, pass) + rest;
    assert input[1..] == (Counted(user) + Counted(pass)) + rest;
    ConcatAssociates(Counted(user), Counted(pass), rest);
    CountedReadsBack(user, Counted(pass) + rest);
    CountedReadsBack(pass, rest);
  }

  lemma GreetingReadsBack(config: Option<Config>, limited: bool, methods: Bytes, rest: Bytes)
    requires |methods| < 256
    ensures SelectMethod(config, limited, Greeting(methods) + rest)
            == if AllowsAnonymous(config) then
                 if 0 in methods then Go(rest) else Stop(NoAcceptableMethod, false)
               else if limited then Stop(RateLimited, false)
               else if !HasCredentials(config) then Stop(NoCredentialsConfigured, false)
               else if 2 !in methods then Stop(NoAcceptableMethod, false)
               else Authenticate(config.value, rest)
  {
    var input := Greeting(methods) + rest;
    assert input[2..2 + |methods|] == methods;
    assert input[2 + |methods|..] == rest;
  }

  /** With anonymous access, a greeting offering it and any CONNECT request yield the target. */
  lemma AnonymousExchange(
    utf8: Utf8, config: Option<Config>, limited: bool,
    methods: Bytes, t: Target, reserved: byte, payload: Bytes)
    requires AllowsAnonymous(config) && |methods| < 256 && 0 in methods && WellFormed(utf8, t)
    ensures Negotiate(utf8, config, limited,
                      Greeting(methods) + ConnectRequest(utf8, t, reserved) + payload) == Ok((t, payload))
  {
    var request := ConnectRequest(utf8, t, reserved) + payload;
    ConcatAssociates(Greeting(methods), ConnectRequest(utf8, t, reserved), payload);
    GreetingReadsBack(config, limited, methods, request);
    RequestReadsBack(utf8, t, reserved, payload);
  }

  /**
   * With authentication required, the exchange yields the target exactly when the peer is not
   * limited and both credentials are the configured ones.
   */
  lemma AuthenticatedExchange(
    utf8: Utf8, config: Option<Config>, limited: bool,
    methods: Bytes, user: Bytes, pass: Bytes, t: Target, reserved: byte, payload: Bytes)
    requires !AllowsAnonymous(config) && HasCredentials(config)
    requires |methods| < 256 && 2 in methods && |user| < 256 && |pass| < 256 && WellFormed(utf8, t)
    ensures var input := Greeting(methods) + Authentication(user, pass)
                         + ConnectRequest(utf8, t, reserved) + payload;
            Negotiate(utf8, config, limited, input)
            == if limited then Err(RateLimited)
               else if user == config.value.username.value && pass == config.value.password.value
               then Ok((t, payload))
               else Err(AuthenticationFailed)
  {
    var request := ConnectRequest(utf8, t, reserved) + payload;
    var rest := Authentication(user, pass) + request;
    ConcatAssociates(Greeting(methods) + Authentication(user, pass), ConnectRequest(utf8, t, reserved), payload);
    ConcatAssociates(Greeting(methods), Authentication(user, pass), request);
    GreetingReadsBack(config, limited, methods, rest);
    AuthenticationReadsBack(config.value, user, pass, request);
    RequestReadsBack(utf8, t, reserved, payload);
  }

  // ----- nothing else is accepted -----

  lemma PortBytesOf(b: Bytes)
    requires |b| == 2
    ensures Port(b) < 0x1_0000 && PortBytes(Port(b)) == b
  {
    var h, l := b[0] as nat, b[1] as nat;
    assert (h * 256 + l) / 256 == h && (h * 256 + l) % 256 == l;
  }

  lemma TakeAddressIs(input: Bytes, n: nat)
    requires TakeAddress(input, n).Some?
    ensures var (a, port, rest) := TakeAddress(input, n).value;
            |a| == n && port < 0x1_0000 && input == a + PortBytes(port) + rest
  {
    PortBytesOf(input[n..n + 2]);
    assert input == input[..n] + input[n..n + 2] + input[n + 2..];
  }

  lemma DomainIsEncoded(utf8: Utf8, body: Bytes, name: Bytes, port: nat, rest: Bytes)
    requires body != [] && TakeAddress(body[1..], body[0] as nat) == Some((name, port, rest)) && utf8(name)
    ensures WellFormed(utf8, Domain(name, port))
    ensures [3] + body == AddressBytes(utf8, Domain(name, port)) + rest
  {
    TakeAddressIs(body[1..], body[0] as nat);
    assert body == [body[0]] + body[1..];
    assert [3] + ([body[0]] + (name + PortBytes(port) + rest)) == ([3, body[0]] + name + PortBytes(port)) + rest;
  }

  lemma AddressIsEncoded(utf8: Utf8, kind: byte, body: Bytes, a: Bytes, port: nat, rest: Bytes)
    requires kind == 1 || kind == 4
    requires TakeAddress(body, if kind == 1 then 4 else 16) == Some((a, port, rest))
    ensures var t := if kind == 1 then V4(a, port) else V6(a, port);
            WellFormed(utf8, t) && [kind] + body == AddressBytes(utf8, t) + rest
  {
    TakeAddressIs(body, if kind == 1 then 4 else 16);
    assert [kind] + (a + PortBytes(port) + rest) == ([kind] + a + PortBytes(port)) + rest;
  }

  lemma HeaderSplits(input: Bytes)
    requires |input| >= 4
    ensures input == [input[0], input[1], input[2]] + ([input[3]] + input[4..])
  {
  }

  lemma RequestIsEncoded(utf8: Utf8, input: Bytes)
    requires ReadRequest(utf8, input).Ok?
    ensures var (t, rest) := ReadRequest(utf8, input).value;
            |input| >= 4 && WellFormed(utf8, t) && input == ConnectRequest(utf8, t, input[2]) + rest
  {
    var (t, rest) := ReadRequest(utf8, input).value;
    var body := input[4..];
    if t.Domain? {
      DomainIsEncoded(utf8, body, t.name, t.port, rest);
    } else {
      AddressIsEncoded(utf8, input[3], body, t.address, t.port, rest);
    }
    assert input == [5, 1, input[2]] + ([input[3]] + body) by { HeaderSplits(input); }
    ConcatAssociates([5, 1, input[2]], AddressBytes(utf8, t), rest);
  }

  /** The first phase passed on exactly these bytes. */
  ghost predicate PassedBy(
    config: Option<Config>, methods: Bytes, user: Bytes, pass: Bytes, input: Bytes, rest: Bytes)
  {
    && |methods| < 256
    && if AllowsAnonymous(config) then 0 in methods && input == Greeting(methods) + rest
       else
         && HasCredentials(config) && 2 in methods && |user| < 256 && |pass| < 256
         && user == config.value.username.value && pass == config.value.password.value
         && input == Greeting(methods) + Authentication(user, pass) + rest
  }

  lemma AuthenticateIsEncoded(config: Config, input: Bytes)
    requires config.username.Some? && config.password.Some? && Authenticate(config, input).Go?
    ensures var user, pass := config.username.value, config.password.value;
            |user| < 256 && |pass| < 256
            && input == Authentication(user, pass) + Authenticate(config, input).rest
  {
    var (user, pass, rest) := TakeCredentials(input).value;
    CountedIs(input[1..]);
    CountedIs(TakeCounted(input[1..]).value.1);
    ConcatAssociates(Counted(user), Counted(pass), rest);
    ConcatAssociates([1], Counted(user) + Counted(pass), rest);
    assert input == [1] + input[1..];
  }

  lemma SelectIsEncoded(config: Option<Config>, limited: bool, input: Bytes)
    requires SelectMethod(config, limited, input).Go?
    ensures AllowsAnonymous(config) || !limited
    ensures exists methods, user, pass ::
              PassedBy(config, methods, user, pass, input, SelectMethod(config, limited, input).rest)
  {
    var n := input[1] as nat;
    var methods, after := input[2..2 + n], input[2 + n..];
    assert input == Greeting(methods) + after;
    if AllowsAnonymous(config) {
      assert PassedBy(config, methods, [], [], input, after);
    } else {
      AuthenticateIsEncoded(config.value, after);
      var user, pass := config.value.username.value, config.value.password.value;
      var rest := SelectMethod(config, limited, input).rest;
      assert Greeting(methods) + (Authentication(user, pass) + rest)
             == Greeting(methods) + Authentication(user, pass) + rest;
      assert PassedBy(config, methods, user, pass, input, rest);
    }
  }

  /**
   * A target is returned only for a well-formed exchange, followed by exactly the bytes left
   * unread, and only if anonymous access is allowed or the peer is not limited and sent exactly
   * the configured credentials.
   */
  lemma TargetOnlyIfEntitled(utf8: Utf8, config: Option<Config>, limited: bool, input: Bytes)
    requires Negotiate(utf8, config, limited, input).Ok?
    ensures var (t, payload) := Negotiate(utf8, config, limited, input).value;
            && (AllowsAnonymous(config) || !limited)
            && WellFormed(utf8, t)
            && exists methods, user, pass, reserved ::
                 PassedBy(config, methods, user, pass, input, ConnectRequest(utf8, t, reserved) + payload)
  {
    SelectIsEncoded(config, limited, input);
    var rest := SelectMethod(config, limited, input).rest;
    var methods, user, pass :| PassedBy(config, methods, user, pass, input, rest);
    RequestIsEncoded(utf8, rest);
    var (t, payload) := Negotiate(utf8, config, limited, input).value;
    assert PassedBy(config, methods, user, pass, input, ConnectRequest(utf8, t, rest[2]) + payload);
  }

  // ----- which input gets which answer -----

  /** The request's verdict, byte by byte; `short` is how many bytes its address kind needs. */
  lemma RequestVerdict(utf8: Utf8, input: Bytes)
    ensures var r := ReadRequest(utf8, input);
            var short := if |input| < 4 then 4
                         else if input[0] != 5 || input[1] != 1 then 4
                         else if input[3] == 1 then 10
                         else if input[3] == 4 then 22
                         else if input[3] == 3 then if |input| < 5 then 5 else 7 + input[4] as nat
                         else 4;
            && (r == Err(UnexpectedEof) <==> |input| < short)
            && (r == Err(UnsupportedCommand) <==> |input| >= 4 && (input[0] != 5 || input[1] != 1))
            && (r == Err(UnsupportedAddressType)
                <==> |input| >= 4 && input[0] == 5 && input[1] == 1 && input[3] !in {1, 3, 4})
            && (r == Err(InvalidDomain)
                <==> |input| >= short && input[0] == 5 && input[1] == 1 && input[3] == 3
                     && !utf8(input[5..5 + input[4] as nat]))
  {
    if |input| >= 5 {
      assert input[4..][1..] == input[5..];
      if |input| >= 7 + input[4] as nat {
        assert input[5..][..input[4] as nat] == input[5..5 + input[4] as nat];
      }
    }
  }

  /** The verdict on a greeting of version 5 that is complete, before any credentials. */
  lemma GreetingVerdict(config: Option<Config>, limited: bool, methods: Bytes, rest: Bytes)
    requires |methods| < 256
    ensures var phase := SelectMethod(config, limited, Greeting(methods) + rest);
            var open := config == None || config.value.allowAnonymous;
            var ready := !open && config.value.username.Some? && config.value.password.Some?;
            && (phase == Stop(NoAcceptableMethod, false)
                <==> (open && 0 !in methods) || (ready && !limited && 2 !in methods))
            && (phase == Stop(RateLimited, false) <==> !open && limited)
            && (phase == Stop(NoCredentialsConfigured, false) <==> !open && !limited && !ready)
            && (open && 0 in methods ==> phase == Go(rest))
  {
    GreetingReadsBack(config, limited, methods, rest);
  }

  /** A greeting of another version is refused as soon as its two header bytes are there. */
  lemma VersionVerdict(config: Option<Config>, limited: bool, input: Bytes)
    ensures SelectMethod(config, limited, input) == Stop(UnsupportedVersion, false) <==> |input| >= 2 && input[0] != 5
    ensures |input| < 2 || (input[0] == 5 && |input| < 2 + input[1] as nat) ==>
              SelectMethod(config, limited, input) == Stop(UnexpectedEof, false)
  {
  }

  // ----- the program -----

  /** `constant_time_eq`: the length test, then the accumulating loop over every byte. */
  method ConstantTimeEq(a: Bytes, b: Bytes) returns (equal: bool)
    ensures equal <==> a == b
  {
    if |a| != |b| {
      return false;
    }
    var diff := F.XorAccumulate(a, b);
    equal := diff == 0;
  }

  function FailureReply(code: byte): Bytes {
    [5, code, 0, 1, 0, 0, 0, 0, 0, 0]
  }

  /** The bytes written back during the sub-negotiation. */
  function AuthenticationReplies(phase: Phase): Bytes {
    match phase
    case Go(_) => [1, 0]
    case Stop(AuthenticationFailed, _) => [1, 1]
    case Stop(UnsupportedAuthVersion, _) => [1, 1]
    case Stop(_, _) => []
  }

  function ChoiceReplies(config: Option<Config>, limited: bool, methods: Bytes, rest: Bytes): Bytes {
    if AllowsAnonymous(config) then if 0 in methods then [5, 0] else [5, 0xff]
    else if limited then [5, 0xff]
    else if !HasCredentials(config) then []
    else if 2 !in methods then [5, 0xff]
    else [5, 2] + AuthenticationReplies(Authenticate(config.value, rest))
  }

  /** The bytes written back up to the request. */
  function SelectionReplies(config: Option<Config>, limited: bool, input: Bytes): Bytes {
    match TakeMethods(input)
    case Err(_) => []
    case Ok((methods, rest)) => ChoiceReplies(config, limited, methods, rest)
  }

  function RequestReplies(r: Result<Target, NegotiationError>): Bytes {
    if r == Err(UnsupportedCommand) then FailureReply(7)
    else if r == Err(UnsupportedAddressType) then FailureReply(8)
    else []
  }

  /** The bytes written back by a whole negotiation. */
  function Replies(utf8: Utf8, config: Option<Config>, limited: bool, input: Bytes): Bytes {
    SelectionReplies(config, limited, input)
    + match SelectMethod(config, limited, input)
      case Stop(_, _) => []
      case Go(rest) => RequestReplies(OutcomeOf(ReadRequest(utf8, rest)))
  }

  /** What the client reads once the method and the credentials are settled. */
  function Settled(config: Option<Config>): Bytes {
    if AllowsAnonymous(config) then [5, 0] else [5, 2, 1, 0]
  }

  /** The replies tell the client the outcome, whatever it was but a stream that ends early. */
  lemma RepliesTellOutcome(utf8: Utf8, config: Option<Config>, limited: bool, input: Bytes)
    ensures var replies := Replies(utf8, config, limited, input);
            var settled := if config == None || config.value.allowAnonymous then [5, 0] else [5, 2, 1, 0];
            match OutcomeOf(Negotiate(utf8, config, limited, input))
            case Ok(_) => replies == settled
            case Err(UnsupportedCommand) => replies == settled + [5, 7, 0, 1, 0, 0, 0, 0, 0, 0]
            case Err(UnsupportedAddressType) => replies == settled + [5, 8, 0, 1, 0, 0, 0, 0, 0, 0]
            case Err(InvalidDomain) => replies == settled
            case Err(RateLimited) => replies == [5, 0xff]
            case Err(NoAcceptableMethod) => replies == [5, 0xff]
            case Err(UnsupportedAuthVersion) => replies == [5, 2, 1, 1]
            case Err(AuthenticationFailed) => replies == [5, 2, 1, 1]
            case Err(UnexpectedEof) => replies <= settled
            case Err(_) => replies == []
  {
    var selected := SelectMethod(config, limited, input);
    if selected.Go? {
      GoRepliesSettled(config, limited, input);
      ReadRequestOutcome(utf8, selected.rest);
    } else {
      StopReplies(config, limited, input);
      assert SelectionReplies(config, limited, input) + [] == SelectionReplies(config, limited, input);
    }
  }

  lemma GoRepliesSettled(config: Option<Config>, limited: bool, input: Bytes)
    requires SelectMethod(config, limited, input).Go?
    ensures SelectionReplies(config, limited, input) == Settled(config)
  {
  }

  /** When the first phase stops, what was written names the reason. */
  lemma StopReplies(config: Option<Config>, limited: bool, input: Bytes)
    requires SelectMethod(config, limited, input).Stop?
    ensures var replies := SelectionReplies(config, limited, input);
            match SelectMethod(config, limited, input).error
            case RateLimited => replies == [5, 0xff]
            case NoAcceptableMethod => replies == [5, 0xff]
            case UnsupportedAuthVersion => replies == [5, 2, 1, 1]
            case AuthenticationFailed => replies == [5, 2, 1, 1]
            case UnexpectedEof => replies <= Settled(config)
            case UnsupportedVersion => replies == []
            case NoCredentialsConfigured => replies == []
            case _ => false
  {
  }

  lemma ReadRequestOutcome(utf8: Utf8, input: Bytes)
    ensures var r := OutcomeOf(ReadRequest(utf8, input));
            r.Err? ==> r.error.UnexpectedEof? || r.error.UnsupportedCommand? || r.error.InvalidDomain?
                       || r.error.UnsupportedAddressType?
  {
  }

  function OutcomeOf(r: Result<(Target, Bytes), NegotiationError>): Result<Target, NegotiationError> {
    match r case Ok((t, _)) => Ok(t) case Err(e) => Err(e)
  }

  function PhaseResult(phase: Phase): Result<(), NegotiationError> {
    match phase case Go(_) => Ok(()) case Stop(e, _) => Err(e)
  }

  /** The result when the connection takes `room` bytes: writes report a lost connection, if checked. */
  function Within<T(==)>(r: Result<T, NegotiationError>, replies: Bytes, room: nat): Result<T, NegotiationError> {
    if r != Err(RateLimited) && |replies| > room then Err(ConnectionLost) else r
  }

  method ReadCountedOn(stream: F.Stream) returns (r: Option<Bytes>)
    modifies stream`input
    ensures match TakeCounted(old(stream.input)) {
              case None => r == None
              case Some((s, rest)) => r == Some(s) && stream.input == rest
            }
  {
    ghost var input := stream.input;
    var len := stream.ReadExact(1);
    if len.None? {
      return None;
    }
    assert len.value[0] == input[0] && stream.input == input[1..];
    ghost var n := input[0] as nat;
    r := stream.ReadExact(len.value[0] as nat);
    assert r.Some? ==> r.value == input[1..1 + n] && stream.input == input[1 + n..];
  }

  method ReadCredentialsOn(stream: F.Stream) returns (r: Result<(Bytes, Bytes), NegotiationError>)
    modifies stream
    ensures var spec := TakeCredentials(old(stream.input));
            var replies := if spec == Err(UnsupportedAuthVersion) then [1, 1] else [];
            && r == Within(match spec case Err(e) => Err(e) case Ok((u, p, _)) => Ok((u, p)), replies, old(stream.room))
            && (spec.Ok? ==> stream.input == spec.value.2 && unchanged(stream`output, stream`room))
            && stream.output == old(stream.output) + F.Clip(replies, old(stream.room))
            && stream.room == old(stream.room) - |F.Clip(replies, old(stream.room))|
  {
    var version := stream.ReadExact(1);
    if version.None? {
      return Err(UnexpectedEof);
    }
    if version.value[0] != 1 {
      var ok := stream.WriteAll([1, 1]);
      return Err(if ok then UnsupportedAuthVersion else ConnectionLost);
    }
    var user := ReadCountedOn(stream);
    if user.None? {
      return Err(UnexpectedEof);
    }
    var pass := ReadCountedOn(stream);
    if pass.None? {
      return Err(UnexpectedEof);
    }
    r := Ok((user.value, pass.value));
  }

  /**
   * The username/password sub-negotiation; a wrong pair, and nothing else, is recorded against
   * the peer, before the rejection is written.
   */
  method AuthenticateOn(stream: F.Stream, config: Config, limiter: RL.Limiter, ip: RL.Ip, now: int)
    returns (r: Result<(), NegotiationError>)
    requires config.username.Some? && config.password.Some? && limiter.ReadyAt(now)
    modifies stream, limiter
    ensures limiter.Valid()
    ensures var spec := Authenticate(config, old(stream.input));
            var replies := AuthenticationReplies(spec);
            && r == Within(PhaseResult(spec), replies, old(stream.room))
            && (spec.Go? ==> stream.input == spec.rest)
            && stream.output == old(stream.output) + F.Clip(replies, old(stream.room))
            && stream.room == old(stream.room) - |F.Clip(replies, old(stream.room))|
            && limiter.history
               == old(limiter.history)
                  + (if spec == Stop(AuthenticationFailed, true) then [RL.Failure(ip, now)] else [])
  {
    ghost var spec := Authenticate(config, stream.input);
    var credentials := ReadCredentialsOn(stream);
    if credentials.Err? {
      assert spec.Stop? && spec.error != AuthenticationFailed;
      return Err(credentials.error);
    }
    var userOk := ConstantTimeEq(credentials.value.0, config.username.value);
    var passOk := ConstantTimeEq(credentials.value.1, config.password.value);
    if userOk && passOk {
      assert spec.Go?;
      var ok := stream.WriteAll([1, 0]);
      r := if ok then Ok(()) else Err(ConnectionLost);
    } else {
      assert spec == Stop(AuthenticationFailed, true);
      limiter.RecordPairingFailure(ip, now);
      var ok := stream.WriteAll([1, 1]);
      r := Err(if ok then AuthenticationFailed else ConnectionLost);
    }
  }

  method ReadMethodsOn(stream: F.Stream) returns (r: Result<Bytes, NegotiationError>)
    modifies stream`input
    ensures match TakeMethods(old(stream.input)) {
              case Err(error) => r == Err(error)
              case Ok((methods, rest)) => r == Ok(methods) && stream.input == rest
            }
  {
    ghost var input := stream.input;
    var header := stream.ReadExact(2);
    if header.None? {
      return Err(UnexpectedEof);
    }
    if header.value[0] != 5 {
      return Err(UnsupportedVersion);
    }
    var methods := stream.ReadExact(header.value[1] as nat);
    if methods.None? {
      return Err(UnexpectedEof);
    }
    ghost var n := input[1] as nat;
    assert methods.value == input[2..2 + n] && stream.input == input[2 + n..];
    r := Ok(methods.value);
  }

  /** Announcing username/password authentication, and the authentication. */
  method OfferPasswordOn(stream: F.Stream, config: Config, limiter: RL.Limiter, ip: RL.Ip, now: int)
    returns (r: Result<(), NegotiationError>)
    requires config.username.Some? && config.password.Some? && limiter.ReadyAt(now)
    modifies stream, limiter
    ensures limiter.Valid()
    ensures var spec := Authenticate(config, old(stream.input));
            var replies := [5, 2] + AuthenticationReplies(spec);
            && r == Within(PhaseResult(spec), replies, old(stream.room))
            && (r.Ok? ==> stream.input == spec.rest)
            && stream.output == old(stream.output) + F.Clip(replies, old(stream.room))
            && stream.room == old(stream.room) - |F.Clip(replies, old(stream.room))|
            && limiter.history
               == old(limiter.history)
                  + (if spec == Stop(AuthenticationFailed, true) && old(stream.room) >= 2
                     then [RL.Failure(ip, now)] else [])
  {
    ghost var written, room := stream.output, stream.room;
    ghost var after := AuthenticationReplies(Authenticate(config, stream.input));
    F.ClipConcat([5, 2], after, room);
    AuthenticateIsNotLimited(config, stream.input);
    var ok := stream.WriteAll([5, 2]);
    if !ok {
      return Err(ConnectionLost);
    }
    r := AuthenticateOn(stream, config, limiter, ip, now);
    ConcatAssociates(written, [5, 2], F.Clip(after, room - 2));
  }

  lemma AuthenticateIsNotLimited(config: Config, input: Bytes)
    requires config.username.Some? && config.password.Some?
    ensures PhaseResult(Authenticate(config, input)) != Err(RateLimited)
  {
  }

  /** The choice among the offered methods and, when required, the authentication. */
  method ChooseMethodOn(
    stream: F.Stream, config: Option<Config>, limited: bool, methods: Bytes,
    limiter: RL.Limiter, ip: RL.Ip, now: int)
    returns (r: Result<(), NegotiationError>)
    requires limiter.ReadyAt(now)
    modifies stream, limiter
    ensures limiter.Valid()
    ensures var spec := ChooseMethod(config, limited, methods, old(stream.input));
            var replies := ChoiceReplies(config, limited, methods, old(stream.input));
            && r == Within(PhaseResult(spec), replies, old(stream.room))
            && (r.Ok? ==> stream.input == spec.rest)
            && stream.output == old(stream.output) + F.Clip(replies, old(stream.room))
            && stream.room == old(stream.room) - |F.Clip(replies, old(stream.room))|
            && limiter.history
               == old(limiter.history)
                  + (if spec == Stop(AuthenticationFailed, true) && old(stream.room) >= 2
                     then [RL.Failure(ip, now)] else [])
  {
    if AllowsAnonymous(config) {
      var acceptable := 0 in methods;
      var ok := stream.WriteAll(if acceptable then [5, 0] else [5, 0xff]);
      r := if !ok then Err(ConnectionLost) else if acceptable then Ok(()) else Err(NoAcceptableMethod);
    } else if limited {
      var _ := stream.WriteAll([5, 0xff]);
      r := Err(RateLimited);
    } else if !HasCredentials(config) {
      r := Err(NoCredentialsConfigured);
    } else if 2 !in methods {
      var ok := stream.WriteAll([5, 0xff]);
      r := Err(if ok then NoAcceptableMethod else ConnectionLost);
    } else {
      r := OfferPasswordOn(stream, config.value, limiter, ip, now);
    }
  }

  lemma ReadyAfter(history: seq<RL.Failure>, ip: RL.Ip, at: int)
    requires RL.MonotoneHistory(history + [RL.Failure(ip, at)])
    ensures RL.MonotoneHistory(history)
    ensures history != [] ==> history[|history| - 1].at <= at
  {
    var all := history + [RL.Failure(ip, at)];
    assert forall i :: 0 <= i < |history| ==> all[i] == history[i];
    assert all[|history|] == RL.Failure(ip, at);
  }

  /**
   * The greeting, the method choice and, when required, the authentication. The limiter is asked
   * at `checkAt`; `others` are the failures that other connections record between that check and
   * this connection's own record, if any, at `recordAt`.
   */
  method SelectMethodOn(
    stream: F.Stream, config: Option<Config>, limiter: RL.Limiter, ip: RL.Ip,
    checkAt: int, others: seq<RL.Failure>, recordAt: int)
    returns (r: Result<(), NegotiationError>)
    requires limiter.Valid() && RL.MonotoneHistory(limiter.history + others + [RL.Failure(ip, recordAt)])
    modifies stream, limiter
    ensures limiter.Valid()
    ensures var limited := RL.Limited(RL.TimesOf(old(limiter.history), ip), checkAt);
            var spec := SelectMethod(config, limited, old(stream.input));
            var replies := SelectionReplies(config, limited, old(stream.input));
            && r == Within(PhaseResult(spec), replies, old(stream.room))
            && (r.Ok? ==> stream.input == spec.rest)
            && stream.output == old(stream.output) + F.Clip(replies, old(stream.room))
            && stream.room == old(stream.room) - |F.Clip(replies, old(stream.room))|
            && limiter.history
               == old(limiter.history) + others
                  + (if spec == Stop(AuthenticationFailed, true) && old(stream.room) >= 2
                     then [RL.Failure(ip, recordAt)] else [])
  {
    ReadyAfter(limiter.history + others, ip, recordAt);
    var isLimited := limiter.IsRateLimited(ip, checkAt);
    limiter.RecordAll(others);
    var methods := ReadMethodsOn(stream);
    if methods.Err? {
      return Err(methods.error);
    }
    r := ChooseMethodOn(stream, config, isLimited, methods.value, limiter, ip, recordAt);
  }

  /** The CONNECT request. */
  method ReadRequestOn(stream: F.Stream, utf8: Utf8) returns (r: Result<Target, NegotiationError>)
    modifies stream
    ensures var spec := ReadRequest(utf8, old(stream.input));
            var replies := RequestReplies(OutcomeOf(spec));
            && r == Within(OutcomeOf(spec), replies, old(stream.room))
            && (spec.Ok? ==> stream.input == spec.value.1)
            && stream.output == old(stream.output) + F.Clip(replies, old(stream.room))
  {
    ghost var input := stream.input;
    var header := stream.ReadExact(4);
    if header.None? {
      return Err(UnexpectedEof);
    }
    var h := header.value;
    if h[0] != 5 || h[1] != 1 {
      var ok := stream.WriteAll(FailureReply(7));
      return Err(if ok then UnsupportedCommand else ConnectionLost);
    }
    assert stream.input == input[4..];
    if h[3] == 1 || h[3] == 4 {
      var a := ReadAddressOn(stream, if h[3] == 1 then 4 else 16);
      if a.None? {
        return Err(UnexpectedEof);
      }
      r := Ok(if h[3] == 1 then V4(a.value.0, a.value.1) else V6(a.value.0, a.value.1));
    } else if h[3] == 3 {
      var len := stream.ReadExact(1);
      if len.None? {
        return Err(UnexpectedEof);
      }
      var a := ReadAddressOn(stream, len.value[0] as nat);
      if a.None? {
        return Err(UnexpectedEof);
      }
      if !utf8(a.value.0) {
        return Err(InvalidDomain);
      }
      r := Ok(Domain(a.value.0, a.value.1));
    } else {
      var ok := stream.WriteAll(FailureReply(8));
      r := Err(if ok then UnsupportedAddressType else ConnectionLost);
    }
  }

  method ReadAddressOn(stream: F.Stream, n: nat) returns (r: Option<(Bytes, nat)>)
    modifies stream`input
    ensures match TakeAddress(old(stream.input), n) {
              case None => r == None
              case Some((a, port, rest)) => r == Some((a, port)) && stream.input == rest
            }
  {
    ghost var input := stream.input;
    var a := stream.ReadExact(n);
    if a.None? {
      return None;
    }
    var port := stream.ReadExact(2);
    if port.None? {
      return None;
    }
    assert port.value == input[n..n + 2] && stream.input == input[n + 2..];
    r := Some((a.value, Port(port.value)));
  }

  /** A limited peer or a wrong pair stops the first phase, and only the first phase. */
  lemma SelectedOutcome(utf8: Utf8, config: Option<Config>, limited: bool, input: Bytes)
    ensures var phase := SelectMethod(config, limited, input);
            var r := Negotiate(utf8, config, limited, input);
            && (r == Err(RateLimited) <==> phase == Stop(RateLimited, false))
            && (r == Err(AuthenticationFailed) <==> phase == Stop(AuthenticationFailed, true))
  {
    var phase := SelectMethod(config, limited, input);
    if phase.Go? {
      ReadRequestOutcome(utf8, phase.rest);
    }
  }

  lemma NotLimited(utf8: Utf8, config: Option<Config>, input: Bytes)
    ensures Negotiate(utf8, config, false, input) != Err(RateLimited)
  {
    SelectedOutcome(utf8, config, false, input);
  }

  /** On a connection with room for `room` bytes the two phases make up the negotiation. */
  lemma PhasesCompose(utf8: Utf8, config: Option<Config>, limited: bool, input: Bytes, room: nat)
    ensures var phase := SelectMethod(config, limited, input);
            var first := SelectionReplies(config, limited, input);
            var selected := Within(PhaseResult(phase), first, room);
            var whole := Replies(utf8, config, limited, input);
            var r := Within(OutcomeOf(Negotiate(utf8, config, limited, input)), whole, room);
            if selected.Err? then r == Err(selected.error) && F.Clip(whole, room) == F.Clip(first, room)
            else
              && phase.Go? && |first| <= room
              && var request := ReadRequest(utf8, phase.rest);
                 var second := RequestReplies(OutcomeOf(request));
                 && Negotiate(utf8, config, limited, input) == request
                 && r == Within(OutcomeOf(request), second, room - |first|)
                 && F.Clip(whole, room) == first + F.Clip(second, room - |first|)
  {
    var phase := SelectMethod(config, limited, input);
    var first := SelectionReplies(config, limited, input);
    SelectedOutcome(utf8, config, limited, input);
    if phase.Go? {
      F.ClipConcat(first, RequestReplies(OutcomeOf(ReadRequest(utf8, phase.rest))), room);
    } else {
      assert first + [] == first;
    }
  }

  /**
   * `negotiate` on a stream with the proxy's limiter, among other connections: the target and the
   * exact unread rest, the replies as far as they get through, and one recorded failure exactly
   * for a wrong pair of credentials. A failing write ends the negotiation, except that of the
   * rejection of a limited peer, which is not looked at.
   */
  method NegotiateOn(
    stream: F.Stream, utf8: Utf8, config: Option<Config>, limiter: RL.Limiter, ip: RL.Ip,
    checkAt: int, others: seq<RL.Failure>, recordAt: int)
    returns (r: Result<Target, NegotiationError>)
    requires limiter.Valid() && RL.MonotoneHistory(limiter.history + others + [RL.Failure(ip, recordAt)])
    modifies stream, limiter
    ensures limiter.Valid()
    ensures var limited := RL.Limited(RL.TimesOf(old(limiter.history), ip), checkAt);
            var spec := Negotiate(utf8, config, limited, old(stream.input));
            var replies := Replies(utf8, config, limited, old(stream.input));
            && r == Within(OutcomeOf(spec), replies, old(stream.room))
            && (r.Ok? ==> stream.input == spec.value.1)
            && stream.output == old(stream.output) + F.Clip(replies, old(stream.room))
            && limiter.history
               == old(limiter.history) + others
                  + (if spec == Err(AuthenticationFailed) && old(stream.room) >= 2
                     then [RL.Failure(ip, recordAt)] else [])
  {
    ghost var limited := RL.Limited(RL.TimesOf(limiter.history, ip), checkAt);
    ghost var written, room, first := stream.output, stream.room, SelectionReplies(config, limited, stream.input);
    SelectedOutcome(utf8, config, limited, stream.input);
    PhasesCompose(utf8, config, limited, stream.input, room);
    var selected := SelectMethodOn(stream, config, limiter, ip, checkAt, others, recordAt);
    if selected.Err? {
      return Err(selected.error);
    }
    assert stream.output == written + first && stream.room == room - |first|;
    ghost var second := F.Clip(RequestReplies(OutcomeOf(ReadRequest(utf8, stream.input))), stream.room);
    r := ReadRequestOn(stream, utf8);
    ConcatAssociates(written, first, second);
  }
}
