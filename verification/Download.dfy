// `quish cp` downloads: the client writes incoming data to a temporary file and
// renames it into place only on a zero exit status, so a cut or failed transfer
// is never taken for a complete one.
module Download {
  import opened Base
  import opened Postcard
  import opened Frames
  import Pump

  /** `Saved` renames the temporary file over the destination; `Refused` and `Broken`
      remove it. `LeftPart` is an error after a zero status, when the flush or the rename
      fails: the temporary file stays. Only `Saved` touches the destination. */
  datatype Outcome = Saved(content: bytes) | Refused(code: i32) | Broken | LeftPart(content: bytes)

  /** The last step of a download; `finishes` says whether flush and rename succeed. */
  function Finish(r: Outcome, finishes: bool): Outcome {
    if r.Saved? && !finishes then LeftPart(r.content) else r
  }

  /** What the frames in hand lead to, with `file` already written. */
  function Follow(bodies: seq<bytes>, file: bytes): Outcome
    decreases |bodies|
  {
    if bodies == [] then Broken
    else match Decode(bodies[0])
      case None => Broken
      case Some(Data(d)) => Follow(bodies[1..], file + d)
      case Some(ExitStatus(c)) => if c == 0 then Saved(file) else Refused(c)
      case Some(_) => Follow(bodies[1..], file)
  }

  /** How many data frames come before the status or the first undecodable frame. */
  function WritesOf(bodies: seq<bytes>): nat
    decreases |bodies|
  {
    if bodies == [] then 0
    else match Decode(bodies[0])
      case None => 0
      case Some(ExitStatus(_)) => 0
      case Some(Data(_)) => 1 + WritesOf(bodies[1..])
      case Some(_) => WritesOf(bodies[1..])
  }

  /** The download loop over a channel. `diskWrites` is how many writes to the
      temporary file succeed. */
  method DownloadOne(reader: FrameReader, diskWrites: nat, finishes: bool) returns (r: Outcome)
    modifies reader
    ensures var bodies := Parse(old(reader.Ahead())).bodies;
            r == if WritesOf(bodies) <= diskWrites then Finish(Follow(bodies, []), finishes) else Broken
  {
    var file: bytes, writes := [], 0;
    while true
      invariant Follow(Parse(reader.Ahead()).bodies, file) == Follow(Parse(old(reader.Ahead())).bodies, [])
      invariant writes + WritesOf(Parse(reader.Ahead()).bodies) == WritesOf(Parse(old(reader.Ahead())).bodies)
      invariant writes <= diskWrites
      decreases |reader.Ahead()|
    {
      var next := reader.NextFrame();
      if !next.GotFrame? {
        return Broken;
      }
      match Decode(next.body)
      case None =>
        return Broken;
      case Some(Data(d)) =>
        if writes >= diskWrites {
          return Broken;
        }
        file, writes := file + d, writes + 1;
      case Some(ExitStatus(c)) =>
        return if c != 0 then Refused(c) else if finishes then Saved(file) else LeftPart(file);
      case Some(_) =>
    }
  }

  lemma PartialFrame(body: bytes, cut: bytes)
    requires |body| <= MAX_FRAME_LEN && cut < Frame(body)
    ensures Parse(cut).bodies == []
  {
    if |cut| >= LEN_PREFIX {
      PrefixRoundTrip(|body|);
      assert cut[..LEN_PREFIX] == Frame(body)[..LEN_PREFIX] == Prefix(|body|);
    }
  }

  /** A cut stream parses to the bodies that arrived whole, and to all of them only
      when nothing was cut. */
  lemma {:induction false} CutStream(bodies: seq<bytes>, cut: bytes)
    requires forall b :: b in bodies ==> |b| <= MAX_FRAME_LEN
    requires cut <= FrameAll(bodies)
    ensures Parse(cut).bodies <= bodies
    ensures |Parse(cut).bodies| == |bodies| <==> |cut| == |FrameAll(bodies)|
    decreases |bodies|
  {
    if bodies != [] {
      var first, rest := Frame(bodies[0]), FrameAll(bodies[1..]);
      if |cut| < |first| {
        assert cut < first;
        PartialFrame(bodies[0], cut);
      } else {
        var more := cut[|first|..];
        assert cut == first + more;
        assert more <= rest;
        ParseOneFrame(bodies[0], more);
        CutStream(bodies[1..], more);
      }
    }
  }

  /** `Follow` on messages instead of bodies. */
  ghost function FollowMessages(ms: seq<ChannelMessage>, file: bytes): Outcome
    decreases |ms|
  {
    if ms == [] then Broken
    else match ms[0]
      case Data(d) => FollowMessages(ms[1..], file + d)
      case ExitStatus(c) => if c == 0 then Saved(file) else Refused(c)
      case _ => FollowMessages(ms[1..], file)
  }

  lemma {:induction false} FollowBodies(ms: seq<ChannelMessage>, k: nat, file: bytes)
    requires AllFit(ms) && k <= |ms|
    ensures |Bodies(ms)| == |ms|
    ensures Follow(Bodies(ms)[..k], file) == FollowMessages(ms[..k], file)
    decreases |ms|
  {
    if ms != [] {
      FittingMessage(ms[0]);
      var bs := Bodies(ms);
      assert bs[0] == Encode(ms[0]) && bs[1..] == Bodies(ms[1..]);
      FollowBodies(ms[1..], if k > 0 then k - 1 else 0, if ms[0].Data? then file + ms[0].data else file);
      if k > 0 {
        assert bs[..k][0] == bs[0] && bs[..k][1..] == bs[1..][..k - 1];
        assert ms[..k][0] == ms[0] && ms[..k][1..] == ms[1..][..k - 1];
      }
    }
  }

  lemma {:induction false} FollowTransfer(out: seq<bytes>, code: i32, k: nat, file: bytes)
    requires k <= |out| + 1
    ensures FollowMessages(Pump.TransferFrames(out, code)[..k], file)
         == if k <= |out| then Broken else if code == 0 then Saved(file + Flatten(out)) else Refused(code)
    decreases |out|
  {
    var ms := Pump.TransferFrames(out, code);
    if out == [] {
      assert file + Flatten(out) == file;
    } else if k > 0 {
      FollowTransfer(out[1..], code, k - 1, file + out[0]);
      assert ms[..k][0] == Data(out[0]) && ms[..k][1..] == Pump.TransferFrames(out[1..], code)[..k - 1];
      assert file + out[0] + Flatten(out[1..]) == file + Flatten(out);
    }
  }

  lemma {:induction false} BodiesLength(ms: seq<ChannelMessage>)
    ensures |Bodies(ms)| == |ms|
  {
    if ms != [] {
      BodiesLength(ms[1..]);
    }
  }

  lemma ParseCut(ms: seq<ChannelMessage>, cut: bytes) returns (k: nat)
    requires AllFit(ms) && cut <= Flatten(FramesOf(ms))
    ensures k <= |ms| == |Bodies(ms)|
    ensures Parse(cut).bodies == Bodies(ms)[..k]
    ensures k == |ms| <==> |cut| == |Flatten(FramesOf(ms))|
  {
    BodiesLength(ms);
    FramesOfBodies(ms);
    CutStream(Bodies(ms), cut);
    k := |Parse(cut).bodies|;
  }

  lemma FollowCut(out: seq<bytes>, code: i32, k: nat)
    requires AllFit(Pump.TransferFrames(out, code)) && k <= |out| + 1
    ensures |Bodies(Pump.TransferFrames(out, code))| == |out| + 1
    ensures Follow(Bodies(Pump.TransferFrames(out, code))[..k], [])
         == if k <= |out| then Broken else if code == 0 then Saved(Flatten(out)) else Refused(code)
  {
    FollowBodies(Pump.TransferFrames(out, code), k, []);
    FollowTransfer(out, code, k, []);
    assert [] + Flatten(out) == Flatten(out);
  }

  /** The server sends a file's chunks and then a status; the client receives some
      first part `cut` of those bytes. It saves a file exactly when every byte
      arrived, the status is zero and the rename succeeds, and then it saves exactly
      the file; a cut transfer is always an error. */
  lemma DownloadIsAllOrNothing(out: seq<bytes>, code: i32, cut: bytes, finishes: bool)
    requires AllFit(Pump.TransferFrames(out, code))
    requires cut <= Flatten(FramesOf(Pump.TransferFrames(out, code)))
    ensures var whole := |cut| == |Flatten(FramesOf(Pump.TransferFrames(out, code)))|;
            Finish(Follow(Parse(cut).bodies, []), finishes)
              == if !whole then Broken
                 else if code != 0 then Refused(code)
                 else if finishes then Saved(Flatten(out))
                 else LeftPart(Flatten(out))
  {
    var k := ParseCut(Pump.TransferFrames(out, code), cut);
    FollowCut(out, code, k);
  }
}
