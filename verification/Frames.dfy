/** The length-prefixed frames of the hook socket, and reading and writing them. */
module Frames {
  import opened Wrappers

  type Byte = b: int | 0 <= b < 256

  const MAX_MESSAGE_BYTES: nat := 4 * 1024 * 1024
  const U32_LIMIT: nat := 0x1_0000_0000

  function LittleEndian(n: nat): (header: seq<Byte>)
    requires n < U32_LIMIT
  {
    [n % 0x100, n / 0x100 % 0x100, n / 0x1_0000 % 0x100, n / 0x100_0000]
  }

  function FromLittleEndian(header: seq<Byte>): (n: nat)
    requires |header| == 4
  {
    (header[0] as int) + 0x100 * (header[1] as int) + 0x1_0000 * (header[2] as int) + 0x100_0000 * (header[3] as int)
  }

  function Frame(body: seq<Byte>): seq<Byte>
    requires |body| < U32_LIMIT
  {
    LittleEndian(|body|) + body
  }

  datatype Decoded = NeedMore | Bogus(length: nat) | Message(body: seq<Byte>, rest: seq<Byte>)

  /** What a reader that holds `bytes` and will get no more makes of them. */
  function Decode(bytes: seq<Byte>): Decoded {
    if |bytes| < 4 then NeedMore
    else
      var length := FromLittleEndian(bytes[..4]);
      if length == 0 || length > MAX_MESSAGE_BYTES then Bogus(length)
      else if |bytes| - 4 < length then NeedMore
      else Message(bytes[4..4 + length], bytes[4 + length..])
  }

  lemma HeaderRoundTrip(n: nat)
    requires n < U32_LIMIT
    ensures FromLittleEndian(LittleEndian(n)) == n
  {
    assert n / 0x1_0000 == n / 0x100 / 0x100;
    assert n / 0x100_0000 == n / 0x1_0000 / 0x100;
  }

  lemma HeaderInjective(header: seq<Byte>)
    requires |header| == 4
    ensures FromLittleEndian(header) < U32_LIMIT
    ensures LittleEndian(FromLittleEndian(header)) == header
  {
    var n := FromLittleEndian(header);
    var b0: int, b1: int, b2: int, b3: int := header[0], header[1], header[2], header[3];
    assert n / 0x100 == b1 + 0x100 * b2 + 0x1_0000 * b3;
    assert n / 0x1_0000 == b2 + 0x100 * b3;
    assert n / 0x100_0000 == b3;
  }

  /** A reader sees a message exactly when it holds a whole frame of an admissible body. */
  lemma DecodeIffFrame(bytes: seq<Byte>, body: seq<Byte>, rest: seq<Byte>)
    ensures Decode(bytes) == Message(body, rest)
       <==> 1 <= |body| <= 4_194_304 && bytes == Frame(body) + rest
  {
    if Decode(bytes) == Message(body, rest) {
      HeaderInjective(bytes[..4]);
      assert bytes == bytes[..4] + body + rest;
    }
    if 1 <= |body| <= MAX_MESSAGE_BYTES && bytes == Frame(body) + rest {
      HeaderRoundTrip(|body|);
      assert bytes[..4] == LittleEndian(|body|);
    }
  }

  /** A frame that was cut short never decodes to a message, whatever the body. */
  lemma CutFrameIsNoMessage(body: seq<Byte>, cut: nat)
    requires |body| < U32_LIMIT && cut < |Frame(body)|
    ensures !Decode(Frame(body)[..cut]).Message?
  {
    if cut >= 4 {
      HeaderRoundTrip(|body|);
      assert Frame(body)[..cut][..4] == LittleEndian(|body|);
    }
  }

  // ------------------------------------------------------------------ many frames

  function FramesOf(bodies: seq<seq<Byte>>): seq<Byte>
    requires forall i :: 0 <= i < |bodies| ==> |bodies[i]| < U32_LIMIT
  {
    if bodies == [] then [] else Frame(bodies[0]) + FramesOf(bodies[1..])
  }

  /** The messages a connection handler reads before it needs more, or gives up. */
  function DecodeAll(bytes: seq<Byte>): seq<seq<Byte>>
    decreases |bytes|
  {
    match Decode(bytes)
    case Message(body, rest) => [body] + DecodeAll(rest)
    case _ => []
  }

  /** Whole frames followed by a frame cut anywhere are read back as the whole ones. */
  lemma {:induction false} FramesRoundTrip(bodies: seq<seq<Byte>>, last: seq<Byte>, cut: nat)
    requires forall i :: 0 <= i < |bodies| ==> 1 <= |bodies[i]| <= MAX_MESSAGE_BYTES
    requires |last| < U32_LIMIT && cut < |Frame(last)|
    ensures DecodeAll(FramesOf(bodies) + Frame(last)[..cut]) == bodies
    decreases bodies
  {
    var tail := Frame(last)[..cut];
    if bodies == [] {
      CutFrameIsNoMessage(last, cut);
      assert FramesOf(bodies) + tail == tail;
    } else {
      assert FramesOf(bodies) + tail == Frame(bodies[0]) + (FramesOf(bodies[1..]) + tail);
      DecodeIffFrame(FramesOf(bodies) + tail, bodies[0], FramesOf(bodies[1..]) + tail);
      FramesRoundTrip(bodies[1..], last, cut);
    }
  }

  // ------------------------------------------------------------------- the sockets

  function Flatten(chunks: seq<seq<Byte>>): seq<Byte> {
    if chunks == [] then [] else chunks[0] + Flatten(chunks[1..])
  }

  datatype Received = IoError | BogusLength(length: nat) | Body(bytes: seq<Byte>)

  /** What `read_response` returns on a stream that carries `bytes` and then ends. */
  function ResponseIn(bytes: seq<Byte>): Received {
    match Decode(bytes)
    case NeedMore => IoError
    case Bogus(length) => BogusLength(length)
    case Message(body, _) => Body(body)
  }

  /** One end of a connected stream.  `incoming` holds the chunks the peer's bytes arrive in
      before the stream ends; `budget` is how many more bytes go out before a write is cut,
      by an error or by the deadline. */
  class Stream {
    var incoming: seq<seq<Byte>>
    var outgoing: seq<Byte>
    var budget: nat

    constructor (incoming: seq<seq<Byte>>, budget: nat)
      ensures this.incoming == incoming && outgoing == [] && this.budget == budget
    {
      this.incoming := incoming;
      outgoing := [];
      this.budget := budget;
    }

    method WriteAll(bytes: seq<Byte>) returns (ok: bool)
      modifies this`outgoing, this`budget
      ensures ok == (|bytes| <= old(budget))
      ensures outgoing == old(outgoing) + (if ok then bytes else bytes[..old(budget)])
      ensures budget == (if ok then old(budget) - |bytes| else 0)
    {
      ok := |bytes| <= budget;
      if ok {
        outgoing := outgoing + bytes;
        budget := budget - |bytes|;
      } else {
        outgoing := outgoing + bytes[..budget];
        budget := 0;
      }
    }

    /** Fills a buffer of `n` bytes from however many chunks it takes. */
    method ReadExact(n: nat) returns (ok: bool, bytes: seq<Byte>)
      modifies this`incoming
      ensures ok == (n <= |Flatten(old(incoming))|)
      ensures ok ==> bytes == Flatten(old(incoming))[..n]
      ensures ok ==> Flatten(incoming) == Flatten(old(incoming))[n..]
    {
      bytes := [];
      while |bytes| < n && incoming != []
        invariant |bytes| <= n
        invariant bytes + Flatten(incoming) == Flatten(old(incoming))
        decreases |incoming|
      {
        var chunk := incoming[0];
        var want := n - |bytes|;
        assert Flatten(incoming) == chunk + Flatten(incoming[1..]);
        if |chunk| <= want {
          bytes := bytes + chunk;
          incoming := incoming[1..];
        } else {
          bytes := bytes + chunk[..want];
          incoming := [chunk[want..]] + incoming[1..];
          assert chunk == chunk[..want] + chunk[want..];
          break;
        }
      }
      ok := |bytes| == n;
    }

    /** `read_response`: any chunking of the same bytes gives the same answer. */
    method ReadResponse() returns (r: Received)
      modifies this`incoming
      ensures r == ResponseIn(Flatten(old(incoming)))
    {
      ghost var all := Flatten(incoming);
      var ok, header := ReadExact(4);
      if !ok { return IoError; }
      var length := FromLittleEndian(header);
      if length == 0 || length > MAX_MESSAGE_BYTES { return BogusLength(length); }
      var okBody, body := ReadExact(length);
      if !okBody { return IoError; }
      assert body == all[4..4 + length];
      return Body(body);
    }

    /** `send_request`: `delivered` is set the instant the last byte of the body is out,
        so it tells how far a failed write got. */
    method SendRequest(body: seq<Byte>, flushOk: bool) returns (ok: bool, delivered: bool)
      modifies this`outgoing, this`budget
      ensures |body| >= U32_LIMIT ==> !ok && !delivered && outgoing == old(outgoing)
      ensures |body| < U32_LIMIT ==> delivered == (outgoing == old(outgoing) + Frame(body))
      ensures |body| < U32_LIMIT ==>
        exists cut :: 0 <= cut <= |Frame(body)| && outgoing == old(outgoing) + Frame(body)[..cut]
      ensures |body| < U32_LIMIT ==> delivered == (|Frame(body)| <= old(budget))
      ensures ok == (delivered && flushOk)
    {
      delivered := false;
      if |body| >= U32_LIMIT { return false, false; }
      ghost var frame, start := Frame(body), outgoing;
      assert start + frame[..|frame|] == start + frame;
      ok := WriteAll(LittleEndian(|body|));
      if !ok {
        assert outgoing == start + frame[..old(budget)];
        return;
      }
      ok := WriteAll(body);
      if !ok {
        assert outgoing == start + frame[..old(budget)];
        return;
      }
      assert outgoing == start + frame;
      delivered := true;
      ok := flushOk;
    }
  }
}
