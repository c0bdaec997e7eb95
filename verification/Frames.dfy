// Length-prefixed framing over an ordered byte stream: the encoder, the splitter
// that takes one frame off a buffer, and the reader that reassembles frames from
// chunks of any size.
module Frames {
  import opened Base
  import opened Postcard

  const MAX_FRAME_LEN: nat := 65536
  const LEN_PREFIX: nat := 4

  /** Big-endian length prefix. */
  function Prefix(n: nat): (b: bytes)
    requires n < 0x1_0000_0000
    ensures |b| == LEN_PREFIX
  {
    [n / 256 / 256 / 256, n / 256 / 256 % 256, n / 256 % 256, n % 256]
  }

  function Length(p: bytes): nat
    requires |p| == LEN_PREFIX
  {
    var b0: int, b1: int, b2: int, b3: int := p[0], p[1], p[2], p[3];
    ((b0 * 256 + b1) * 256 + b2) * 256 + b3
  }

  lemma PrefixRoundTrip(n: nat)
    requires n < 0x1_0000_0000
    ensures Length(Prefix(n)) == n
  {
    assert n / 256 / 256 == (n / 256 / 256 / 256) * 256 + n / 256 / 256 % 256;
    assert n / 256 == (n / 256 / 256) * 256 + n / 256 % 256;
    assert n == (n / 256) * 256 + n % 256;
  }

  function Frame(body: bytes): bytes
    requires |body| <= MAX_FRAME_LEN
  {
    Prefix(|body|) + body
  }

  /** A full frame for a message, or the over-long body's length. */
  function EncodeFrame(m: ChannelMessage): Result<bytes, nat> {
    var body := Encode(m);
    if |body| > MAX_FRAME_LEN then Err(|body|) else Ok(Frame(body))
  }

  datatype Taken =
    | NeedMore
    | Body(body: bytes, rest: bytes)
    | TooLarge(len: nat)

  function Take(buf: bytes): Taken {
    if |buf| < LEN_PREFIX then NeedMore
    else
      var len := Length(buf[..LEN_PREFIX]);
      if len > MAX_FRAME_LEN then TooLarge(len)
      else if |buf| < LEN_PREFIX + len then NeedMore
      else Body(buf[LEN_PREFIX..LEN_PREFIX + len], buf[LEN_PREFIX + len..])
  }

  /** A whole stream: the complete bodies, what follows the last of them, and
      whether an over-long length stopped the parse there. */
  datatype Parsed = Parsed(bodies: seq<bytes>, tail: bytes, tooLarge: bool)

  function Parse(stream: bytes): Parsed
    decreases |stream|
  {
    match Take(stream)
    case NeedMore => Parsed([], stream, false)
    case TooLarge(_) => Parsed([], stream, true)
    case Body(body, rest) =>
      var p := Parse(rest);
      p.(bodies := [body] + p.bodies)
  }

  /** The unparsed leftover is always shorter than one largest frame. */
  lemma LeftoverBounded(buf: bytes)
    requires Take(buf).NeedMore?
    ensures |buf| < LEN_PREFIX + MAX_FRAME_LEN
  {
  }

  lemma TakeFrame(body: bytes, more: bytes)
    requires |body| <= MAX_FRAME_LEN
    ensures Take(Frame(body) + more) == Body(body, more)
  {
    var buf := Frame(body) + more;
    PrefixRoundTrip(|body|);
    assert buf[..LEN_PREFIX] == Prefix(|body|);
    assert buf[LEN_PREFIX..LEN_PREFIX + |body|] == body;
    assert buf[LEN_PREFIX + |body|..] == more;
  }

  /** Once enough bytes are buffered to decide, later bytes change nothing. */
  lemma TakeMonotone(buf: bytes, more: bytes)
    ensures Take(buf).Body? ==> Take(buf + more) == Body(Take(buf).body, Take(buf).rest + more)
    ensures Take(buf).TooLarge? ==> Take(buf + more) == Take(buf)
  {
    if |buf| >= LEN_PREFIX {
      assert (buf + more)[..LEN_PREFIX] == buf[..LEN_PREFIX];
      if Take(buf).Body? {
        var n := LEN_PREFIX + |Take(buf).body|;
        assert (buf + more)[LEN_PREFIX..n] == buf[LEN_PREFIX..n];
        assert (buf + more)[n..] == buf[n..] + more;
      }
    }
  }

  function FrameAll(bodies: seq<bytes>): bytes
    requires forall b :: b in bodies ==> |b| <= MAX_FRAME_LEN
  {
    if bodies == [] then [] else Frame(bodies[0]) + FrameAll(bodies[1..])
  }

  lemma ParseOneFrame(body: bytes, more: bytes)
    requires |body| <= MAX_FRAME_LEN
    ensures Parse(Frame(body) + more) == Parse(more).(bodies := [body] + Parse(more).bodies)
  {
    TakeFrame(body, more);
  }

  /** Parsing undoes framing, and a truncated or empty tail is left over. */
  lemma {:induction false} ParseFramed(bodies: seq<bytes>, tail: bytes)
    requires forall b :: b in bodies ==> |b| <= MAX_FRAME_LEN
    requires Take(tail).NeedMore?
    ensures Parse(FrameAll(bodies) + tail) == Parsed(bodies, tail, false)
  {
    if bodies == [] {
      assert FrameAll(bodies) + tail == tail;
    } else {
      var rest := FrameAll(bodies[1..]) + tail;
      ParseFramed(bodies[1..], tail);
      ParseOneFrame(bodies[0], rest);
      assert FrameAll(bodies) + tail == Frame(bodies[0]) + rest;
    }
  }

  // ---- the reader ---------------------------------------------------------

  datatype Next =
    | GotFrame(body: bytes)
    | EndOfStream
    | StreamError
    | FrameTooLarge

  class FrameReader {
    var buf: bytes
    var incoming: seq<bytes>
    const resets: bool

    /** `incoming` is the chunks the stream will deliver before it ends; `resets`
        says that it ends with an error other than a clean close. */
    constructor (incoming: seq<bytes>, resets: bool)
      ensures buf == [] && this.incoming == incoming && this.resets == resets
    {
      buf := [];
      this.incoming := incoming;
      this.resets := resets;
    }

    ghost function Ahead(): bytes
      reads this
    {
      buf + Flatten(incoming)
    }

    /** The outcome depends only on the bytes ahead, not on how they are cut. */
    method NextFrame() returns (r: Next)
      modifies this
      ensures match Take(old(Ahead()))
              case Body(body, rest) => r == GotFrame(body) && Ahead() == rest
              case TooLarge(_) => r == FrameTooLarge && Ahead() == old(Ahead())
              case NeedMore =>
                && r == (if resets then StreamError else EndOfStream)
                && Ahead() == old(Ahead()) && incoming == [] && |buf| < LEN_PREFIX + MAX_FRAME_LEN
    {
      while true
        invariant Ahead() == old(Ahead())
        decreases |incoming|
      {
        TakeMonotone(buf, Flatten(incoming));
        match Take(buf)
        case TooLarge(_) =>
          return FrameTooLarge;
        case Body(body, rest) =>
          buf := rest;
          return GotFrame(body);
        case NeedMore =>
          LeftoverBounded(buf);
          if incoming == [] {
            assert buf + Flatten(incoming) == buf;
            return if resets then StreamError else EndOfStream;
          }
          assert buf + (incoming[0] + Flatten(incoming[1..])) == (buf + incoming[0]) + Flatten(incoming[1..]);
          buf, incoming := buf + incoming[0], incoming[1..];
      }
    }

    /** The caller's loop: read bodies until the reader stops. Every chunking of
        the same bytes yields the same bodies and the same end. */
    method ReadAll() returns (bodies: seq<bytes>, end: Next)
      modifies this
      ensures bodies == Parse(old(Ahead())).bodies
      ensures end == if Parse(old(Ahead())).tooLarge then FrameTooLarge
                     else if resets then StreamError else EndOfStream
      ensures Ahead() == Parse(old(Ahead())).tail
      ensures !Parse(old(Ahead())).tooLarge ==> |buf| < LEN_PREFIX + MAX_FRAME_LEN
    {
      bodies := [];
      while true
        invariant var rest := Parse(Ahead());
                  Parse(old(Ahead())) == Parsed(bodies + rest.bodies, rest.tail, rest.tooLarge)
        decreases |Ahead()|
      {
        ghost var before := Ahead();
        end := NextFrame();
        match end
        case GotFrame(body) =>
          assert bodies + ([body] + Parse(Ahead()).bodies) == (bodies + [body]) + Parse(Ahead()).bodies;
          bodies := bodies + [body];
        case _ =>
          assert bodies + [] == bodies;
          return;
      }
    }
  }

  // ---- messages -----------------------------------------------------------

  /** The messages a channel's reader task forwards: it stops at the first body
      that does not decode. */
  function Messages(bodies: seq<bytes>): seq<ChannelMessage> {
    if bodies == [] then []
    else match Decode(bodies[0])
      case None => []
      case Some(m) => [m] + Messages(bodies[1..])
  }

  function Bodies(ms: seq<ChannelMessage>): seq<bytes> {
    if ms == [] then [] else [Encode(ms[0])] + Bodies(ms[1..])
  }

  predicate AllFit(ms: seq<ChannelMessage>) {
    forall i :: 0 <= i < |ms| ==> EncodeFrame(ms[i]).Ok?
  }

  /** The frames a sender of `ms` puts on the wire, one after another. */
  function FramesOf(ms: seq<ChannelMessage>): (fs: seq<bytes>)
    requires AllFit(ms)
    ensures |fs| == |ms| && forall i :: 0 <= i < |ms| ==> fs[i] == EncodeFrame(ms[i]).value
  {
    if ms == [] then [] else [EncodeFrame(ms[0]).value] + FramesOf(ms[1..])
  }

  lemma FittingMessage(m: ChannelMessage)
    requires EncodeFrame(m).Ok?
    ensures |Encode(m)| <= MAX_FRAME_LEN && EncodeFrame(m).value == Frame(Encode(m))
    ensures Decode(Encode(m)) == Some(m)
  {
    assert |Encode(m)| == |EncVar(Tag(m))| + |EncodeFields(m)|;
    MessageRoundTrip(m);
  }

  lemma {:induction false} FramesOfBodies(ms: seq<ChannelMessage>)
    requires AllFit(ms)
    ensures forall b :: b in Bodies(ms) ==> |b| <= MAX_FRAME_LEN
    ensures Flatten(FramesOf(ms)) == FrameAll(Bodies(ms))
    ensures Messages(Bodies(ms)) == ms
  {
    if ms != [] {
      FramesOfBodies(ms[1..]);
      FittingMessage(ms[0]);
      var bs := Bodies(ms);
      assert bs[0] == Encode(ms[0]) && bs[1..] == Bodies(ms[1..]);
      assert FramesOf(ms)[1..] == FramesOf(ms[1..]);
    }
  }

  /** For every message list and every re-chunking of its wire bytes, the reader
      yields exactly the encoded bodies, which decode to the messages. */
  lemma RechunkingIsInvisible(ms: seq<ChannelMessage>, chunks: seq<bytes>)
    requires AllFit(ms) && Flatten(chunks) == Flatten(FramesOf(ms))
    ensures Parse(Flatten(chunks)) == Parsed(Bodies(ms), [], false)
    ensures Messages(Parse(Flatten(chunks)).bodies) == ms
  {
    FramesOfBodies(ms);
    ParseFramed(Bodies(ms), []);
    assert FrameAll(Bodies(ms)) + [] == FrameAll(Bodies(ms));
  }

  // ---- file transfer ------------------------------------------------------

  const UPLOAD_CHUNK: nat := 32768

  /** A data frame fits exactly up to 65532 bytes of payload. */
  lemma DataFitsExactly(d: bytes)
    ensures EncodeFrame(Data(d)).Ok? <==> |d| <= 65532
    ensures EncodeFrame(DataErr(d)).Ok? <==> |d| <= 65532
  {
    VarLength(|d|);
    assert |Encode(Data(d))| == 1 + |EncVar(|d|)| + |d|;
    assert |Encode(DataErr(d))| == 1 + |EncVar(|d|)| + |d|;
  }

  /** The file bytes a receiver collects from the data frames it is sent. */
  function Payload(ms: seq<ChannelMessage>): bytes {
    if ms == [] then [] else (if ms[0].Data? then ms[0].data else []) + Payload(ms[1..])
  }

  ghost predicate CarriesChunks(ms: seq<ChannelMessage>, chunks: seq<bytes>) {
    && |ms| == |chunks|
    && forall i :: 0 <= i < |ms| ==> ms[i] == Data(chunks[i]) && 1 <= |chunks[i]| <= UPLOAD_CHUNK
  }

  lemma {:induction false} PayloadOfChunks(ms: seq<ChannelMessage>, chunks: seq<bytes>)
    requires CarriesChunks(ms, chunks)
    ensures AllFit(ms) && Payload(ms) == Flatten(chunks)
  {
    forall i | 0 <= i < |ms| ensures EncodeFrame(ms[i]).Ok? {
      DataFitsExactly(chunks[i]);
    }
    if ms != [] {
      PayloadOfChunks(ms[1..], chunks[1..]);
    }
  }

  /** The file a receiver collects, however the network cuts the bytes. */
  ghost predicate Arrives(sent: seq<bytes>, content: bytes) {
    forall delivered: seq<bytes> :: Flatten(delivered) == Flatten(sent) ==>
      Payload(Messages(Parse(Flatten(delivered)).bodies)) == content
  }

  /** The upload loop: read the file in pieces of any size up to 32 KiB and send
      each as one data frame. No piece is ever over-long, and what is sent arrives as
      the file however it is cut in transit. */
  method UploadFile(content: bytes) returns (sent: seq<bytes>, ms: seq<ChannelMessage>)
    ensures AllFit(ms) && sent == FramesOf(ms)
    ensures forall m :: m in ms ==> m.Data? && 1 <= |m.data| <= UPLOAD_CHUNK
    ensures Payload(ms) == content && Arrives(sent, content)
  {
    sent, ms := [], [];
    ghost var chunks: seq<bytes> := [];
    var pos := 0;
    while pos < |content|
      invariant 0 <= pos <= |content|
      invariant CarriesChunks(ms, chunks) && Flatten(chunks) == content[..pos]
      invariant |sent| == |ms| && forall i :: 0 <= i < |ms| ==> EncodeFrame(ms[i]) == Ok(sent[i])
    {
      var n :| 1 <= n <= UPLOAD_CHUNK && pos + n <= |content|;
      NextPiece(content, pos, n, chunks);
      var frame := EncodeFrame(Data(content[pos..pos + n]));
      sent, ms := sent + [frame.value], ms + [Data(content[pos..pos + n])];
      chunks := chunks + [content[pos..pos + n]];
      pos := pos + n;
    }
    assert content[..pos] == content;
    PayloadOfChunks(ms, chunks);
    PayloadArrives(ms);
  }

  lemma NextPiece(content: bytes, pos: nat, n: nat, chunks: seq<bytes>)
    requires pos + n <= |content| && n <= UPLOAD_CHUNK && Flatten(chunks) == content[..pos]
    ensures EncodeFrame(Data(content[pos..pos + n])).Ok?
    ensures Flatten(chunks + [content[pos..pos + n]]) == content[..pos + n]
  {
    var piece := content[pos..pos + n];
    DataFitsExactly(piece);
    FlattenSnoc(chunks, piece);
    assert content[..pos + n] == content[..pos] + piece;
  }

  lemma PayloadArrives(ms: seq<ChannelMessage>)
    requires AllFit(ms)
    ensures Arrives(FramesOf(ms), Payload(ms))
  {
    forall delivered: seq<bytes> | Flatten(delivered) == Flatten(FramesOf(ms))
      ensures Payload(Messages(Parse(Flatten(delivered)).bodies)) == Payload(ms)
    {
      RechunkingIsInvisible(ms, delivered);
    }
  }
}
