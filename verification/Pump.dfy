// The worker's channel pumps. `select!` becomes a guarded choice: Dafny explores
// every interleaving of ready branches and checks that some branch is always
// enabled (the runtime would panic otherwise).
module Pump {
  import opened Base
  import opened Postcard

  datatype SendResult = Sent | HungUp | SendError

  datatype PumpEnd = Drained | ClientGone | PumpError

  /** The stdout bytes carried by a list of frames. */
  ghost function OutBytes(ms: seq<ChannelMessage>): bytes {
    if ms == [] then [] else OutBytes(ms[..|ms| - 1]) + (if ms[|ms| - 1].Data? then ms[|ms| - 1].data else [])
  }

  /** The stderr bytes carried by a list of frames. */
  ghost function ErrBytes(ms: seq<ChannelMessage>): bytes {
    if ms == [] then [] else ErrBytes(ms[..|ms| - 1]) + (if ms[|ms| - 1].DataErr? then ms[|ms| - 1].data else [])
  }

  ghost function Signals(ms: seq<ChannelMessage>): seq<Sig> {
    if ms == [] then [] else Signals(ms[..|ms| - 1]) + (if ms[|ms| - 1].Signal? then [ms[|ms| - 1].sig] else [])
  }

  lemma Snoc(ms: seq<ChannelMessage>, m: ChannelMessage)
    ensures OutBytes(ms + [m]) == OutBytes(ms) + (if m.Data? then m.data else [])
    ensures ErrBytes(ms + [m]) == ErrBytes(ms) + (if m.DataErr? then m.data else [])
    ensures Signals(ms + [m]) == Signals(ms) + (if m.Signal? then [m.sig] else [])
  {
    assert (ms + [m])[..|ms|] == ms;
  }

  lemma FlattenTake(chunks: seq<bytes>, k: nat)
    requires k < |chunks|
    ensures Flatten(chunks[..k + 1]) == Flatten(chunks[..k]) + chunks[k]
  {
    assert chunks[..k + 1] == chunks[..k] + [chunks[k]];
    FlattenSnoc(chunks[..k], chunks[k]);
  }

  lemma FlattenPrefix(chunks: seq<bytes>, k: nat)
    requires k <= |chunks|
    ensures Flatten(chunks[..k]) <= Flatten(chunks)
  {
    assert chunks == chunks[..k] + chunks[k..];
    FlattenAppend(chunks[..k], chunks[k..]);
  }

  /** The client's side of a channel takes so many frames and then hangs up cleanly
      or breaks. */
  datatype Link = Link(accepts: nat, breaks: bool)

  method TrySend(link: Link, sent: seq<ChannelMessage>, m: ChannelMessage)
    returns (r: SendResult, sent': seq<ChannelMessage>)
    ensures |sent| < link.accepts ==> r == Sent && sent' == sent + [m]
    ensures |sent| >= link.accepts ==> r == (if link.breaks then SendError else HungUp) && sent' == sent
  {
    if |sent| < link.accepts {
      r, sent' := Sent, sent + [m];
    } else {
      r, sent' := if link.breaks then SendError else HungUp, sent;
    }
  }

  predicate OnlyOutput(ms: seq<ChannelMessage>) {
    forall m :: m in ms ==> m.Data? || m.DataErr?
  }

  /** The stdout branch, with a chunk ready. */
  method ForwardOut(link: Link, out: seq<bytes>, k: nat, sent: seq<ChannelMessage>)
    returns (r: SendResult, sent': seq<ChannelMessage>)
    requires k < |out| && OnlyOutput(sent) && OutBytes(sent) == Flatten(out[..k])
    ensures OnlyOutput(sent') && ErrBytes(sent') == ErrBytes(sent)
    ensures OutBytes(sent') == Flatten(out[..if r.Sent? then k + 1 else k])
    ensures |sent'| == |sent| + (if r.Sent? then 1 else 0)
    ensures r == (if |sent| < link.accepts then Sent else if link.breaks then SendError else HungUp)
  {
    Snoc(sent, Data(out[k]));
    FlattenTake(out, k);
    r, sent' := TrySend(link, sent, Data(out[k]));
  }

  /** The stderr branch, with a chunk ready. */
  method ForwardErr(link: Link, err: seq<bytes>, k: nat, sent: seq<ChannelMessage>)
    returns (r: SendResult, sent': seq<ChannelMessage>)
    requires k < |err| && OnlyOutput(sent) && ErrBytes(sent) == Flatten(err[..k])
    ensures OnlyOutput(sent') && OutBytes(sent') == OutBytes(sent)
    ensures ErrBytes(sent') == Flatten(err[..if r.Sent? then k + 1 else k])
    ensures |sent'| == |sent| + (if r.Sent? then 1 else 0)
    ensures r == (if |sent| < link.accepts then Sent else if link.breaks then SendError else HungUp)
  {
    Snoc(sent, DataErr(err[k]));
    FlattenTake(err, k);
    r, sent' := TrySend(link, sent, DataErr(err[k]));
  }

  /** The client branch, with a frame ready. */
  method HandleFrame(frames: seq<ChannelMessage>, k: nat, stdin: bytes, signals: seq<Sig>)
    returns (stdin': bytes, signals': seq<Sig>)
    requires k < |frames| && stdin == OutBytes(frames[..k]) && signals == Signals(frames[..k])
    ensures stdin' == OutBytes(frames[..k + 1]) && signals' == Signals(frames[..k + 1])
  {
    Snoc(frames[..k], frames[k]);
    assert frames[..k + 1] == frames[..k] + [frames[k]];
    stdin', signals' := stdin, signals;
    match frames[k]
    case Data(d) => stdin' := stdin + d;
    case Signal(s) => signals' := signals + [s];
    case _ =>
  }

  /** What has been sent after taking so many chunks of each stream. */
  ghost predicate SentSoFar(sent: seq<ChannelMessage>, out: seq<bytes>, i: nat, err: seq<bytes>, j: nat)
    requires i <= |out| && j <= |err|
  {
    OnlyOutput(sent) && OutBytes(sent) == Flatten(out[..i]) && ErrBytes(sent) == Flatten(err[..j])
  }

  lemma SentIsPrefix(sent: seq<ChannelMessage>, out: seq<bytes>, i: nat, err: seq<bytes>, j: nat)
    requires i <= |out| && j <= |err| && SentSoFar(sent, out, i, err, j)
    ensures OnlyOutput(sent) && OutBytes(sent) <= Flatten(out) && ErrBytes(sent) <= Flatten(err)
    ensures i == |out| && j == |err| ==> OutBytes(sent) == Flatten(out) && ErrBytes(sent) == Flatten(err)
  {
    FlattenPrefix(out, i);
    FlattenPrefix(err, j);
    if i == |out| && j == |err| {
      assert out[..i] == out && err[..j] == err;
    }
  }

  /** One-shot command pump. `out` and `err` are the chunks the command's pipes will
      yield before they close, `frames` what the client will send. Whatever the
      interleaving and wherever sending stops, the client has been sent a prefix
      of stdout and a prefix of stderr, all of both when the pump drains; if it ends, it
      drains exactly when the client takes every chunk; and exactly the input frames
      consumed so far have been queued for the command. When a full stdin queue can keep
      it from ending is the subject of module ExecFlow. */
  method PumpExec(link: Link, out: seq<bytes>, err: seq<bytes>, frames: seq<ChannelMessage>)
    returns (end: PumpEnd, sent: seq<ChannelMessage>, taken: nat, stdin: bytes, stdinOpen: bool, signals: seq<Sig>)
    ensures OnlyOutput(sent)
    ensures OutBytes(sent) <= Flatten(out) && ErrBytes(sent) <= Flatten(err)
    ensures end.Drained? ==> OutBytes(sent) == Flatten(out) && ErrBytes(sent) == Flatten(err)
    ensures end == if |out| + |err| <= link.accepts then Drained else if link.breaks then PumpError else ClientGone
    ensures |sent| == if end.Drained? then |out| + |err| else link.accepts
    ensures taken <= |frames| && (!stdinOpen ==> taken == |frames|)
    ensures stdin == OutBytes(frames[..taken]) && signals == Signals(frames[..taken])
  {
    sent, stdin, stdinOpen, signals, taken := [], [], true, [], 0;
    var i, j := 0, 0;
    var outDone, errDone, framesDone := false, false, false;
    while true
      invariant !(outDone && errDone)
      invariant 0 <= i <= |out| && 0 <= j <= |err| && 0 <= taken <= |frames|
      invariant (outDone ==> i == |out|) && (errDone ==> j == |err|) && (framesDone ==> taken == |frames|)
      invariant stdinOpen == !framesDone
      invariant SentSoFar(sent, out, i, err, j) && |sent| == i + j <= link.accepts
      invariant stdin == OutBytes(frames[..taken]) && signals == Signals(frames[..taken])
      decreases |out| - i + |err| - j + |frames| - taken
                + (if outDone then 0 else 1) + (if errDone then 0 else 1) + (if framesDone then 0 else 1)
    {
      var r := Sent;
      if {
      case !outDone =>
        if i < |out| {
          r, sent := ForwardOut(link, out, i, sent);
          i := if r.Sent? then i + 1 else i;
        } else {
          outDone := true;
        }
      case !errDone =>
        if j < |err| {
          r, sent := ForwardErr(link, err, j, sent);
          j := if r.Sent? then j + 1 else j;
        } else {
          errDone := true;
        }
      case !framesDone =>
        if taken < |frames| {
          stdin, signals := HandleFrame(frames, taken, stdin, signals);
          taken := taken + 1;
        } else {
          framesDone, stdinOpen := true, false;
        }
      }
      if !r.Sent? || (outDone && errDone) {
        SentIsPrefix(sent, out, i, err, j);
        end := match r case Sent => Drained case HungUp => ClientGone case SendError => PumpError;
        return;
      }
    }
  }

  /** An exit status, if present, is the last frame and there is only one. */
  ghost predicate StatusLast(ms: seq<ChannelMessage>) {
    forall i :: 0 <= i < |ms| && ms[i].ExitStatus? ==> i == |ms| - 1
  }

  lemma OutputThenStatus(ms: seq<ChannelMessage>, exitCode: i32)
    requires OnlyOutput(ms)
    ensures StatusLast(ms) && (forall m :: m in ms ==> !m.ExitStatus?)
    ensures var all := ms + [ExitStatus(exitCode)];
            && StatusLast(all) && ExitStatus(exitCode) in all
            && (forall m :: m in all && m.ExitStatus? ==> m == ExitStatus(exitCode))
            && OutBytes(all) == OutBytes(ms) && ErrBytes(all) == ErrBytes(ms)
  {
    Snoc(ms, ExitStatus(exitCode));
    assert forall i :: 0 <= i < |ms| ==> ms[i] in ms;
    assert (ms + [ExitStatus(exitCode)])[|ms|] == ExitStatus(exitCode);
  }

  /** Serve one exec channel: pump, reap, then report the exit code. A status frame
      is sent only after both streams were sent in full; the session is reaped
      exactly when the pump did not fail with a send error. */
  method RunExec(link: Link, out: seq<bytes>, err: seq<bytes>, frames: seq<ChannelMessage>, exitCode: i32)
    returns (end: PumpEnd, sent: seq<ChannelMessage>, reaps: nat)
    ensures StatusLast(sent)
    ensures OutBytes(sent) <= Flatten(out) && ErrBytes(sent) <= Flatten(err)
    ensures forall m :: m in sent && m.ExitStatus? ==>
              && end.Drained? && m == ExitStatus(exitCode)
              && OutBytes(sent) == Flatten(out) && ErrBytes(sent) == Flatten(err)
    ensures (exists m :: m in sent && m.ExitStatus?) <==> |out| + |err| < link.accepts
    ensures reaps == if |out| + |err| > link.accepts && link.breaks then 0 else 1
  {
    var taken, stdin, stdinOpen, signals;
    end, sent, taken, stdin, stdinOpen, signals := PumpExec(link, out, err, frames);
    reaps := 0;
    OutputThenStatus(sent, exitCode);
    if end.PumpError? {
      return;
    }
    reaps := reaps + 1;
    if end.Drained? {
      var r;
      r, sent := TrySend(link, sent, ExitStatus(exitCode));
    }
  }

  /** Serve one download (or mkdir) channel: the helper's output as data frames, then
      the reaped exit code. The client is sent as much of that as it takes. */
  method RunTransfer(link: Link, out: seq<bytes>, exitCode: i32) returns (sent: seq<ChannelMessage>, reaps: nat)
    ensures var all := TransferFrames(out, exitCode);
            sent == if link.accepts <= |all| then all[..link.accepts] else all
    ensures reaps == if |out| > link.accepts && link.breaks then 0 else 1
  {
    sent, reaps := [], 0;
    var k := 0;
    while k < |out|
      invariant 0 <= k <= |out| && |sent| == k <= link.accepts
      invariant forall i :: 0 <= i < k ==> sent[i] == Data(out[i])
    {
      var r;
      r, sent := TrySend(link, sent, Data(out[k]));
      if r.SendError? {
        return sent, 0;
      } else if r.HungUp? {
        return sent, 1;
      }
      k := k + 1;
    }
    reaps := 1;
    var r;
    r, sent := TrySend(link, sent, ExitStatus(exitCode));
  }

  /** Serve one upload channel: queue every data frame for the helper until the client
      finishes or the queue's writer has stopped, then reap and report. What the helper
      receives is what the writer gets through of `queued`. */
  method RunTransferWrite(link: Link, frames: seq<ChannelMessage>, queueTakes: nat, exitCode: i32)
    returns (queued: bytes, sent: seq<ChannelMessage>, reaps: nat)
    ensures exists k :: 0 <= k <= |frames| && queued == OutBytes(frames[..k])
              && (k < |frames| ==> frames[k].Data? && DataCount(frames[..k]) == queueTakes)
    ensures DataCount(frames) <= queueTakes ==> queued == OutBytes(frames)
    ensures sent == if link.accepts > 0 then [ExitStatus(exitCode)] else []
    ensures reaps == 1
  {
    queued := [];
    var k, handed := 0, 0;
    while k < |frames|
      invariant 0 <= k <= |frames| && handed == DataCount(frames[..k]) <= queueTakes
      invariant queued == OutBytes(frames[..k])
    {
      Snoc(frames[..k], frames[k]);
      assert frames[..k + 1] == frames[..k] + [frames[k]];
      DataCountSnoc(frames[..k], frames[k]);
      if frames[k].Data? {
        if handed == queueTakes {
          DataCountPrefix(frames, k + 1);
          break;
        }
        queued, handed := queued + frames[k].data, handed + 1;
      }
      k := k + 1;
    }
    assert frames[..|frames|] == frames;
    reaps, sent := 1, [];
    var r;
    r, sent := TrySend(link, sent, ExitStatus(exitCode));
  }

  ghost function DataCount(ms: seq<ChannelMessage>): nat {
    if ms == [] then 0 else DataCount(ms[..|ms| - 1]) + (if ms[|ms| - 1].Data? then 1 else 0)
  }

  lemma DataCountSnoc(ms: seq<ChannelMessage>, m: ChannelMessage)
    ensures DataCount(ms + [m]) == DataCount(ms) + (if m.Data? then 1 else 0)
  {
    assert (ms + [m])[..|ms|] == ms;
  }

  lemma {:induction false} DataCountPrefix(ms: seq<ChannelMessage>, k: nat)
    requires k <= |ms|
    ensures DataCount(ms[..k]) <= DataCount(ms)
    decreases |ms|
  {
    if k < |ms| {
      DataCountPrefix(ms[..|ms| - 1], k);
      assert ms[..|ms| - 1][..k] == ms[..k];
    } else {
      assert ms[..k] == ms;
    }
  }

  /** All the frames of a complete transfer. */
  function TransferFrames(out: seq<bytes>, exitCode: i32): (ms: seq<ChannelMessage>)
    ensures |ms| == |out| + 1 && ms[|out|] == ExitStatus(exitCode)
    ensures forall i :: 0 <= i < |out| ==> ms[i] == Data(out[i])
  {
    if out == [] then [ExitStatus(exitCode)] else [Data(out[0])] + TransferFrames(out[1..], exitCode)
  }
}
