/**
 * Length-prefixed framing of envelopes (`common/src/lib.rs`) over an arbitrary body codec, and
 * the constant-time proof comparison.
 */
module Framing {
  import opened Base

  const MAX_ENVELOPE_SIZE: nat := 10 * 1024 * 1024

  datatype FrameError = UnexpectedEof | InvalidMessage | BadBody | ConnectionLost

  /** A body codec; serialization itself does not fail, deserialization may. */
  datatype Codec<!E> = Codec(encode: E -> seq<byte>, decode: seq<byte> -> Option<E>)

  ghost predicate RoundTrips<E(!new)>(codec: Codec<E>) {
    forall e :: codec.decode(codec.encode(e)) == Some(e)
  }

  // ----- big-endian lengths -----

  function ToBe32(n: nat): (b: seq<byte>)
    requires n < 0x1_0000_0000
    ensures |b| == 4
  {
    [(n / 0x100_0000) as byte, (n / 0x1_0000 % 0x100) as byte, (n / 0x100 % 0x100) as byte, (n % 0x100) as byte]
  }

  function FromBe32(b: seq<byte>): nat
    requires |b| == 4
  {
    b[0] as nat * 0x100_0000 + b[1] as nat * 0x1_0000 + b[2] as nat * 0x100 + b[3] as nat
  }

  lemma Be32RoundTrip(n: nat)
    requires n < 0x1_0000_0000
    ensures FromBe32(ToBe32(n)) == n
  {
    var high := n / 0x1_0000;
    assert n / 0x100_0000 == high / 0x100;
    assert n / 0x100 == high * 0x100 + n % 0x1_0000 / 0x100;
  }

  /** The number that bytes denote with the most significant one first. */
  function BigEndian(b: seq<byte>): nat {
    if b == [] then 0 else 256 * BigEndian(b[..|b| - 1]) + b[|b| - 1] as nat
  }

  /** The header is the length in network byte order. */
  lemma HeaderIsBigEndian(n: nat)
    requires n < 0x1_0000_0000
    ensures BigEndian(ToBe32(n)) == n
  {
    Be32RoundTrip(n);
    FromBe32IsBigEndian(ToBe32(n));
  }

  lemma FromBe32IsBigEndian(b: seq<byte>)
    requires |b| == 4
    ensures FromBe32(b) == BigEndian(b)
  {
    assert BigEndian(b[..1]) == b[0] as nat by { assert b[..1][..0] == []; }
    assert BigEndian(b[..2]) == 256 * BigEndian(b[..1]) + b[1] as nat by { assert b[..2][..1] == b[..1]; }
    assert BigEndian(b[..3]) == 256 * BigEndian(b[..2]) + b[2] as nat by { assert b[..3][..2] == b[..2]; }
  }

  // ----- writer and reader -----

  function SerializeEnvelope<E>(codec: Codec<E>, e: E): Result<seq<byte>, FrameError> {
    var data := codec.encode(e);
    if |data| > MAX_ENVELOPE_SIZE then Err(InvalidMessage) else Ok(ToBe32(|data|) + data)
  }

  /** Reads one frame: the envelope and the bytes left in the stream. */
  function ReadEnvelope<E>(codec: Codec<E>, input: seq<byte>): Result<(E, seq<byte>), FrameError> {
    if |input| < 4 then Err(UnexpectedEof)
    else
      var len := FromBe32(input[..4]);
      if len > MAX_ENVELOPE_SIZE then Err(InvalidMessage)
      else if |input| < 4 + len then Err(UnexpectedEof)
      else
        match codec.decode(input[4..4 + len])
        case None => Err(BadBody)
        case Some(e) => Ok((e, input[4 + len..]))
  }

  /** The concatenated frames of a list. */
  function SerializeAll<E>(codec: Codec<E>, es: seq<E>): Result<seq<byte>, FrameError> {
    if es == [] then Ok([])
    else
      match (SerializeEnvelope(codec, es[0]), SerializeAll(codec, es[1..]))
      case (Ok(frame), Ok(rest)) => Ok(frame + rest)
      case (Err(e), _) => Err(e)
      case (_, Err(e)) => Err(e)
  }

  /** Reads `n` frames in turn. */
  function ReadMany<E>(codec: Codec<E>, input: seq<byte>, n: nat): Result<(seq<E>, seq<byte>), FrameError> {
    if n == 0 then Ok(([], input))
    else
      match ReadEnvelope(codec, input)
      case Err(e) => Err(e)
      case Ok((e, rest)) =>
        match ReadMany(codec, rest, n - 1)
        case Err(e') => Err(e')
        case Ok((es, rest')) => Ok(([e] + es, rest'))
  }

  /** The writer's size check makes the 32-bit length exact and within the reader's limit. */
  lemma HeaderIsExact<E>(codec: Codec<E>, e: E)
    ensures SerializeEnvelope(codec, e).Ok? <==> |codec.encode(e)| <= MAX_ENVELOPE_SIZE
    ensures SerializeEnvelope(codec, e).Ok? ==>
              var f := SerializeEnvelope(codec, e).value;
              && |f| >= 4 && FromBe32(f[..4]) == BigEndian(f[..4]) == |f| - 4 <= 10_485_760
              && f[4..] == codec.encode(e)
  {
    var data := codec.encode(e);
    if |data| <= MAX_ENVELOPE_SIZE {
      Be32RoundTrip(|data|);
      HeaderIsBigEndian(|data|);
      assert (ToBe32(|data|) + data)[..4] == ToBe32(|data|);
    }
  }

  /** Reading a written frame returns the envelope and leaves what follows untouched. */
  lemma FrameRoundTrip<E(!new)>(codec: Codec<E>, e: E, rest: seq<byte>)
    requires RoundTrips(codec) && SerializeEnvelope(codec, e).Ok?
    ensures ReadEnvelope(codec, SerializeEnvelope(codec, e).value + rest) == Ok((e, rest))
  {
    HeaderIsExact(codec, e);
    var f := SerializeEnvelope(codec, e).value;
    var input := f + rest;
    assert input[..4] == f[..4];
    assert input[4..|f|] == f[4..];
    assert input[|f|..] == rest;
  }

  /** Reading the concatenated frames of any list returns that list and the bytes after it. */
  lemma {:induction false} FramesRoundTrip<E(!new)>(codec: Codec<E>, es: seq<E>, rest: seq<byte>)
    requires RoundTrips(codec) && SerializeAll(codec, es).Ok?
    ensures ReadMany(codec, SerializeAll(codec, es).value + rest, |es|) == Ok((es, rest))
  {
    if es == [] {
      assert [] + rest == rest;
    } else {
      var frame := SerializeEnvelope(codec, es[0]).value;
      var tail := SerializeAll(codec, es[1..]).value;
      FramesRoundTrip(codec, es[1..], rest);
      assert ReadEnvelope(codec, frame + (tail + rest)) == Ok((es[0], tail + rest)) by {
        FrameRoundTrip(codec, es[0], tail + rest);
      }
      ConcatAssociates(frame, tail, rest);
      assert [es[0]] + es[1..] == es;
      assert SerializeAll(codec, es).value + rest == frame + (tail + rest);
    }
  }

  /** A list can be written exactly when each of its envelopes fits. */
  lemma {:induction false} SerializeAllIff<E>(codec: Codec<E>, es: seq<E>)
    ensures SerializeAll(codec, es).Ok?
            <==> forall i :: 0 <= i < |es| ==> |codec.encode(es[i])| <= MAX_ENVELOPE_SIZE
  {
    if es != [] {
      SerializeAllIff(codec, es[1..]);
      assert forall i :: 0 < i < |es| ==> es[i] == es[1..][i - 1];
    }
  }

  /** A proper prefix of a frame is never read as anything, whatever the codec accepts. */
  lemma PrefixIsError<E>(codec: Codec<E>, e: E, n: nat)
    requires SerializeEnvelope(codec, e).Ok? && n < |SerializeEnvelope(codec, e).value|
    ensures ReadEnvelope(codec, SerializeEnvelope(codec, e).value[..n]) == Err(UnexpectedEof)
  {
    HeaderIsExact(codec, e);
    var f := SerializeEnvelope(codec, e).value;
    if n >= 4 {
      assert f[..n][..4] == f[..4];
    }
  }

  /** A successful read consumes exactly one header and the body it announces. */
  lemma ReadConsumesFrame<E>(codec: Codec<E>, input: seq<byte>)
    requires ReadEnvelope(codec, input).Ok?
    ensures var (e, rest) := ReadEnvelope(codec, input).value;
            exists header, body ::
              && input == header + body + rest && |header| == 4
              && FromBe32(header) == |body| <= MAX_ENVELOPE_SIZE
              && codec.decode(body) == Some(e)
  {
    var len := FromBe32(input[..4]);
    assert input == input[..4] + input[4..4 + len] + input[4 + len..];
  }

  /** The verdict on any input: short, announcing too much, not decodable, or an envelope. */
  lemma ReadVerdict<E>(codec: Codec<E>, input: seq<byte>)
    ensures var r := ReadEnvelope(codec, input);
            var len := if |input| >= 4 then BigEndian(input[..4]) else 0;
            && (r == Err(InvalidMessage) <==> |input| >= 4 && len > 10_485_760)
            && (r == Err(UnexpectedEof) <==> |input| < 4 || (len <= 10_485_760 && |input| < 4 + len))
            && (r == Err(BadBody) <==> 4 + len <= |input| && len <= 10_485_760 && codec.decode(input[4..4 + len]).None?)
  {
    if |input| >= 4 {
      FromBe32IsBigEndian(input[..4]);
    }
  }

  // ----- streams -----

  /** What gets through of `bytes` when the connection still takes `room` bytes. */
  function Clip(bytes: seq<byte>, room: nat): (r: seq<byte>)
    ensures r <= bytes && |r| <= room
  {
    if |bytes| <= room then bytes else bytes[..room]
  }

  /** Two writes get through as one would. */
  lemma ClipConcat(a: seq<byte>, b: seq<byte>, room: nat)
    ensures Clip(a + b, room) == Clip(a, room) + Clip(b, room - |Clip(a, room)|)
  {
    if |a| <= room && |a + b| > room {
      assert (a + b)[..room] == a + b[..room - |a|];
    }
  }

  /**
   * A byte stream: what is still to be read, what has been written, and how many more bytes the
   * connection takes before a write fails.
   */
  class Stream {
    var input: seq<byte>
    var output: seq<byte>
    var room: nat

    constructor (incoming: seq<byte>, capacity: nat)
      ensures input == incoming && output == [] && room == capacity
    {
      input, output, room := incoming, [], capacity;
    }

    /** `read_exact`: `n` bytes, or an error that uses up the stream. */
    method ReadExact(n: nat) returns (r: Option<seq<byte>>)
      modifies `input
      ensures if n <= |old(input)| then r == Some(old(input)[..n]) && input == old(input)[n..]
              else r == None && input == []
    {
      if n <= |input| {
        r := Some(input[..n]);
        input := input[n..];
      } else {
        r := None;
        input := [];
      }
    }

    /** `write_all`: everything, or as much as gets through and an error. */
    method WriteAll(bytes: seq<byte>) returns (ok: bool)
      modifies `output, `room
      ensures ok <==> |bytes| <= old(room)
      ensures output == old(output) + Clip(bytes, old(room)) && room == old(room) - |Clip(bytes, old(room))|
    {
      ok := |bytes| <= room;
      var written := Clip(bytes, room);
      output := output + written;
      room := room - |written|;
    }
  }

  method ReadEnvelopeFrom<E>(stream: Stream, codec: Codec<E>) returns (r: Result<E, FrameError>)
    modifies stream
    ensures match ReadEnvelope(codec, old(stream.input)) {
              case Ok((e, rest)) => r == Ok(e) && stream.input == rest
              case Err(error) => r == Err(error)
            }
    ensures stream.output == old(stream.output)
  {
    var header := stream.ReadExact(4);
    if header.None? {
      return Err(UnexpectedEof);
    }
    var len := FromBe32(header.value);
    if len > MAX_ENVELOPE_SIZE {
      return Err(InvalidMessage);
    }
    var data := stream.ReadExact(len);
    if data.None? {
      return Err(UnexpectedEof);
    }
    ghost var input := old(stream.input);
    assert input[4..][..len] == input[4..4 + len] && input[4..][len..] == input[4 + len..];
    var e := codec.decode(data.value);
    r := match e case Some(v) => Ok(v) case None => Err(BadBody);
  }

  method SendEnvelope<E>(stream: Stream, codec: Codec<E>, e: E) returns (r: Result<(), FrameError>)
    modifies stream
    ensures match SerializeEnvelope(codec, e) {
              case Ok(frame) =>
                && r == (if |frame| <= old(stream.room) then Ok(()) else Err(ConnectionLost))
                && stream.output == old(stream.output) + Clip(frame, old(stream.room))
              case Err(error) => r == Err(error) && stream.output == old(stream.output)
            }
    ensures stream.input == old(stream.input)
  {
    var frame := SerializeEnvelope(codec, e);
    match frame
    case Err(error) => r := Err(error);
    case Ok(bytes) =>
      var ok := stream.WriteAll(bytes);
      r := if ok then Ok(()) else Err(ConnectionLost);
  }

  // ----- constant-time comparison -----

  /** Bitwise exclusive or, bit by bit from the low end. */
  function Xor(x: nat, y: nat): nat
    decreases x + y
  {
    if x == 0 && y == 0 then 0 else 2 * Xor(x / 2, y / 2) + (x + y) % 2
  }

  /** Bitwise or, bit by bit from the low end. */
  function Or(x: nat, y: nat): nat
    decreases x + y
  {
    if x == 0 && y == 0 then 0
    else 2 * Or(x / 2, y / 2) + (if x % 2 == 1 || y % 2 == 1 then 1 else 0)
  }

  lemma {:induction false} XorZeroIff(x: nat, y: nat)
    ensures Xor(x, y) == 0 <==> x == y
    decreases x + y
  {
    if x != 0 || y != 0 {
      XorZeroIff(x / 2, y / 2);
    }
  }

  lemma {:induction false} OrZeroIff(x: nat, y: nat)
    ensures Or(x, y) == 0 <==> x == 0 && y == 0
    decreases x + y
  {
    if x != 0 || y != 0 {
      OrZeroIff(x / 2, y / 2);
    }
  }

  /**
   * The accumulating loop of `proof_matches` and `constant_time_eq`: it always visits every
   * position, and the accumulator ends at zero exactly when all positions agree.
   */
  method XorAccumulate(a: seq<byte>, b: seq<byte>) returns (diff: nat)
    requires |a| == |b|
    ensures diff == 0 <==> a == b
  {
    diff := 0;
    for i := 0 to |a|
      invariant diff == 0 <==> a[..i] == b[..i]
    {
      var d := Xor(a[i] as nat, b[i] as nat);
      XorZeroIff(a[i] as nat, b[i] as nat);
      OrZeroIff(diff, d);
      assert a[..i + 1] == a[..i] + [a[i]] && b[..i + 1] == b[..i] + [b[i]];
      diff := Or(diff, d);
    }
    assert a[..|a|] == a && b[..|b|] == b;
  }

  /** `proof_matches` on two 32-byte proofs. */
  method ProofMatches(a: seq<byte>, b: seq<byte>) returns (equal: bool)
    requires |a| == |b| == 32
    ensures equal <==> a == b
  {
    var diff := XorAccumulate(a, b);
    equal := diff == 0;
  }
}
