// Host-key signing across the privilege boundary. Callers hand jobs to one thread
// of the worker, which exchanges length-prefixed messages with the monitor over a
// byte stream; any party may be slow, time out, or lose the stream at any moment.
// A run is any list of actions (one that is not enabled does nothing), so a
// statement about all runs covers every schedule.
module SignProxy {
  import opened Base
  import opened Postcard
  import Frames

  const IPC_CAP: nat := 65536

  datatype SignResponse = Signature(sig: bytes) | Refusal

  type Key = (bytes, bytes) -> bool

  // ---- wire format --------------------------------------------------------

  function EncodeRequest(message: bytes): bytes { EncBytes(message) }

  function DecodeRequest(body: bytes): Option<bytes> { DecBytes(body) }

  function EncodeResponse(r: SignResponse): bytes {
    match r
    case Signature(sig) => EncVar(0) + EncBytes(sig)
    case Refusal => EncVar(1) + []
  }

  function DecodeResponse(body: bytes): Option<SignResponse> {
    match DecU32(body)
    case None => None
    case Some((tag, rest)) =>
      if tag == 0 then (match DecBytes(rest) case Some(sig) => Some(Signature(sig)) case None => None)
      else if tag == 1 then Some(Refusal)
      else None
  }

  lemma RequestRoundTrip(message: bytes)
    requires |EncodeRequest(message)| <= IPC_CAP
    ensures DecodeRequest(EncodeRequest(message)) == Some(message)
  {
    BytesRoundTrip(message);
  }

  lemma ResponseRoundTrip(r: SignResponse)
    requires |EncodeResponse(r)| <= IPC_CAP
    ensures DecodeResponse(EncodeResponse(r)) == Some(r)
  {
    match r
    case Signature(sig) =>
      TagRoundTrip(0, EncBytes(sig));
      BytesRoundTrip(sig);
    case Refusal =>
      TagRoundTrip(1, []);
  }

  /** `[length][body]`, as both ends write it. */
  function Frame(body: bytes): bytes
    requires |body| <= IPC_CAP
  {
    Frames.Prefix(|body|) + body
  }

  /** How many more bytes an exact read still asks for, having got `got`: first the
      prefix, then the body. Zero when a message is complete or over-long. */
  function Wanted(got: bytes): nat {
    if |got| < 4 then 4 - |got|
    else
      var len := Frames.Length(got[..4]);
      if len > IPC_CAP || |got| >= 4 + len then 0 else 4 + len - |got|
  }

  /** A prefix of a frame wants more exactly until it is the frame. */
  lemma WantedInFrame(body: bytes, got: bytes, more: bytes)
    requires |body| <= IPC_CAP && got + more == Frame(body)
    ensures Wanted(got) <= |more|
    ensures Wanted(got) == 0 <==> more == []
    ensures |got| >= 4 ==> Frames.Length(got[..4]) == |body| && Wanted(got) == |more|
    ensures more == [] ==> got[4..] == body
  {
    Frames.PrefixRoundTrip(|body|);
    var f := Frame(body);
    assert f[..4] == Frames.Prefix(|body|);
    assert f[4..] == body;
    if |got| >= 4 {
      assert got[..4] == f[..4];
    }
    if more == [] {
      assert got == f;
    }
  }

  // ---- the system ---------------------------------------------------------

  datatype Thread =
    | Idle
    | Writing(job: nat, left: bytes)
    | Reading(job: nat, got: bytes)
    | Stopped

  datatype Monitor =
    | Receiving(got: bytes)
    | Sending(left: bytes)
    | Gone

  /** `answered` only records what the monitor answered in the current exchange; no
      action looks at it. `results` is what each `sign` call returned to rustls:
      a signature or (None) an error. */
  datatype Sys = Sys(
    messages: map<nat, bytes>,
    queue: seq<nat>,
    thread: Thread,
    toMonitor: bytes,
    toWorker: bytes,
    monitor: Monitor,
    replies: map<nat, Option<bytes>>,
    results: map<nat, Option<bytes>>,
    answered: Option<SignResponse>)

  const INIT := Sys(map[], [], Idle, [], [], Receiving([]), map[], map[], None)

  datatype Action =
    | Submit(id: nat, message: bytes)
    | Pick
    | Write(n: nat)
    | Read(n: nat)
    | Finish
    | Break
    | MonitorRead(n: nat)
    | MonitorAnswer(resp: SignResponse)
    | MonitorWrite(n: nat)
    | MonitorBreak
    | Receive(id: nat)
    | GiveUp(id: nat)

  /** The thread reports failure for its job and stops for good. */
  function StopThread(s: Sys, job: nat): Sys {
    s.(thread := Stopped, replies := s.replies[job := None])
  }

  function DoSubmit(s: Sys, id: nat, message: bytes): Sys {
    if id in s.messages then s
    else
      var s1 := s.(messages := s.messages[id := message]);
      if s.thread.Stopped? then s1.(results := s1.results[id := None])
      else s1.(queue := s1.queue + [id])
  }

  function DoPick(s: Sys): Sys {
    if !s.thread.Idle? || s.queue == [] || s.queue[0] !in s.messages then s
    else
      var job := s.queue[0];
      var body := EncodeRequest(s.messages[job]);
      var s1 := s.(queue := s.queue[1..], answered := None);
      if |body| > IPC_CAP then StopThread(s1, job) else s1.(thread := Writing(job, Frame(body)))
  }

  function DoWrite(s: Sys, n: nat): Sys {
    if !s.thread.Writing? || !(1 <= n <= |s.thread.left|) then s
    else
      var t := s.thread;
      s.(toMonitor := s.toMonitor + t.left[..n],
         thread := if n == |t.left| then Reading(t.job, []) else Writing(t.job, t.left[n..]))
  }

  function DoRead(s: Sys, n: nat): Sys {
    if !s.thread.Reading? || n > |s.toWorker| || n > Wanted(s.thread.got) then s
    else s.(thread := s.thread.(got := s.thread.got + s.toWorker[..n]), toWorker := s.toWorker[n..])
  }

  function DoFinish(s: Sys): Sys {
    if !s.thread.Reading? || Wanted(s.thread.got) != 0 then s
    else
      var job, got := s.thread.job, s.thread.got;
      if Frames.Length(got[..4]) > IPC_CAP then StopThread(s, job)
      else match DecodeResponse(got[4..])
        case None => StopThread(s, job)
        case Some(Signature(sig)) => s.(thread := Idle, replies := s.replies[job := Some(sig)])
        case Some(Refusal) => s.(thread := Idle, replies := s.replies[job := None])
  }

  /** An I/O error, a time-out or an end of stream during an exchange. */
  function DoBreak(s: Sys): Sys {
    if s.thread.Writing? || s.thread.Reading? then StopThread(s, s.thread.job) else s
  }

  function DoMonitorRead(s: Sys, n: nat): Sys {
    if !s.monitor.Receiving? || n > |s.toMonitor| || n > Wanted(s.monitor.got) then s
    else s.(monitor := Receiving(s.monitor.got + s.toMonitor[..n]), toMonitor := s.toMonitor[n..])
  }

  /** The monitor answers a complete request: with a signature of that request's
      message, or with a refusal (rate limit, or the key could not sign). */
  function DoMonitorAnswer(key: Key, s: Sys, resp: SignResponse): Sys {
    if !s.monitor.Receiving? || Wanted(s.monitor.got) != 0 then s
    else
      var got := s.monitor.got;
      if Frames.Length(got[..4]) > IPC_CAP then s.(monitor := Gone)
      else match DecodeRequest(got[4..])
        case None => s.(monitor := Gone)
        case Some(message) =>
          if resp.Signature? && !key(message, resp.sig) then s
          else if |EncodeResponse(resp)| > IPC_CAP then s.(monitor := Gone)
          else s.(monitor := Sending(Frame(EncodeResponse(resp))), answered := Some(resp))
  }

  function DoMonitorWrite(s: Sys, n: nat): Sys {
    if !s.monitor.Sending? || !(1 <= n <= |s.monitor.left|) then s
    else
      var left := s.monitor.left;
      s.(toWorker := s.toWorker + left[..n],
         monitor := if n == |left| then Receiving([]) else Sending(left[n..]))
  }

  function Step(key: Key, s: Sys, a: Action): Sys {
    match a
    case Submit(id, message) => DoSubmit(s, id, message)
    case Pick => DoPick(s)
    case Write(n) => DoWrite(s, n)
    case Read(n) => DoRead(s, n)
    case Finish => DoFinish(s)
    case Break => DoBreak(s)
    case MonitorRead(n) => DoMonitorRead(s, n)
    case MonitorAnswer(resp) => DoMonitorAnswer(key, s, resp)
    case MonitorWrite(n) => DoMonitorWrite(s, n)
    case MonitorBreak => s.(monitor := Gone)
    case Receive(id) =>
      if id in s.messages && id !in s.results && id in s.replies
      then s.(results := s.results[id := s.replies[id]]) else s
    case GiveUp(id) =>
      if id in s.messages && id !in s.results then s.(results := s.results[id := None]) else s
  }

  function Run(key: Key, s: Sys, actions: seq<Action>): Sys {
    if actions == [] then s else Step(key, Run(key, s, actions[..|actions| - 1]), actions[|actions| - 1])
  }

  // ---- invariant ----------------------------------------------------------

  /** Every signature handed out is the key's signature of the message it was asked
      for. */
  ghost predicate Honest(key: Key, s: Sys) {
    && s.results.Keys <= s.messages.Keys && s.replies.Keys <= s.messages.Keys
    && (forall id :: id in s.replies && s.replies[id].Some? ==> key(s.messages[id], s.replies[id].value))
    && (forall id :: id in s.results && s.results[id].Some? ==> key(s.messages[id], s.results[id].value))
  }

  ghost predicate GoodAnswer(key: Key, message: bytes, r: SignResponse) {
    |EncodeResponse(r)| <= IPC_CAP && (r.Signature? ==> key(message, r.sig))
  }

  /** The bytes of the request still on their way to the monitor, when the thread has
      `left` of them to write. */
  ghost predicate Asking(message: bytes, s: Sys, left: bytes) {
    && |EncodeRequest(message)| <= IPC_CAP
    && s.toWorker == [] && s.answered == None
    && match s.monitor
       case Receiving(g) => g + (s.toMonitor + left) == Frame(EncodeRequest(message))
       case Sending(_) => false
       case Gone => true
  }

  /** The monitor has answered `r`; its bytes are on their way to the thread. */
  ghost predicate Answering(key: Key, message: bytes, s: Sys, got: bytes) {
    && s.answered.Some? && GoodAnswer(key, message, s.answered.value)
    && var frame := Frame(EncodeResponse(s.answered.value));
    match s.monitor
    case Receiving(g) => g == [] && s.toMonitor == [] && got + s.toWorker == frame
    case Sending(left) => s.toMonitor == [] && left != [] && got + (s.toWorker + left) == frame
    case Gone => got + s.toWorker <= frame
  }

  /** Where the current exchange stands, for as long as the thread is running. */
  ghost predicate InSync(key: Key, s: Sys) {
    match s.thread
    case Stopped => true
    case Idle => s.toWorker == [] && (s.monitor.Gone? || (s.toMonitor == [] && s.monitor == Receiving([])))
    case Writing(job, left) => job in s.messages && left != [] && Asking(s.messages[job], s, left)
    case Reading(job, got) =>
      job in s.messages && ((got == [] && Asking(s.messages[job], s, [])) || Answering(key, s.messages[job], s, got))
  }

  ghost predicate Inv(key: Key, s: Sys) {
    Honest(key, s) && InSync(key, s)
  }

  lemma KeepSubmit(key: Key, s: Sys, id: nat, message: bytes)
    requires Inv(key, s)
    ensures Inv(key, DoSubmit(s, id, message))
  {
  }

  lemma KeepPick(key: Key, s: Sys)
    requires Inv(key, s)
    ensures Inv(key, DoPick(s))
  {
    var s' := DoPick(s);
    if s'.thread.Writing? && s' != s {
      assert [] + ([] + s'.thread.left) == s'.thread.left;
    }
  }

  lemma KeepWrite(key: Key, s: Sys, n: nat)
    requires Inv(key, s)
    ensures Inv(key, DoWrite(s, n))
  {
    if s.thread.Writing? && 1 <= n <= |s.thread.left| && s.monitor.Receiving? {
      var g, left := s.monitor.got, s.thread.left;
      assert s.toMonitor + left == s.toMonitor + left[..n] + left[n..];
      if n == |left| {
        assert left[n..] == [];
      }
    }
  }

  lemma MoveBytes(a: bytes, b: bytes, c: bytes, n: nat)
    requires n <= |b|
    ensures (a + b[..n]) + (b[n..] + c) == a + (b + c)
    ensures (a + b[..n]) + b[n..] == a + b
  {
    assert b == b[..n] + b[n..];
  }

  lemma KeepRead(key: Key, s: Sys, n: nat)
    requires Inv(key, s)
    ensures Inv(key, DoRead(s, n))
  {
    if s.thread.Reading? && n <= |s.toWorker| && n <= Wanted(s.thread.got) {
      var job, got := s.thread.job, s.thread.got;
      var s' := DoRead(s, n);
      MoveBytes(got, s.toWorker, if s.monitor.Sending? then s.monitor.left else [], n);
      if got == [] && Asking(s.messages[job], s, []) {
        assert s' == s;
      } else {
        assert Answering(key, s.messages[job], s', s'.thread.got);
      }
    }
  }

  lemma KeepFinish(key: Key, s: Sys)
    requires Inv(key, s)
    ensures Inv(key, DoFinish(s))
  {
    if s.thread.Reading? && Wanted(s.thread.got) == 0 {
      var job, got := s.thread.job, s.thread.got;
      assert Answering(key, s.messages[job], s, got);
      var r := s.answered.value;
      var body := EncodeResponse(r);
      var more := Frame(body)[|got|..];
      assert got + more == Frame(body);
      WantedInFrame(body, got, more);
      ResponseRoundTrip(r);
    }
  }

  lemma KeepMonitorRead(key: Key, s: Sys, n: nat)
    requires Inv(key, s)
    ensures Inv(key, DoMonitorRead(s, n))
  {
    if s.monitor.Receiving? && n <= |s.toMonitor| && n <= Wanted(s.monitor.got) {
      var g, m := s.monitor.got, s.toMonitor;
      if n == 0 {
        assert g + m[..0] == g && m[0..] == m;
      } else if s.thread.Writing? {
        assert g + (m + s.thread.left) == g + m[..n] + (m[n..] + s.thread.left);
      } else if s.thread.Reading? {
        assert g + (m + []) == g + m[..n] + (m[n..] + []);
      }
    }
  }

  lemma KeepMonitorAnswer(key: Key, s: Sys, resp: SignResponse)
    requires Inv(key, s)
    ensures Inv(key, DoMonitorAnswer(key, s, resp))
  {
    if s.monitor.Receiving? && Wanted(s.monitor.got) == 0 {
      var g := s.monitor.got;
      if s.thread.Writing? {
        WantedInFrame(EncodeRequest(s.messages[s.thread.job]), g, s.toMonitor + s.thread.left);
      } else if s.thread.Reading? {
        var message := s.messages[s.thread.job];
        assert s.thread.got == [] && Asking(message, s, []);
        WantedInFrame(EncodeRequest(message), g, s.toMonitor + []);
        RequestRoundTrip(message);
        var s' := DoMonitorAnswer(key, s, resp);
        if s'.monitor.Sending? {
          assert [] + ([] + s'.monitor.left) == s'.monitor.left;
        }
      }
    }
  }

  lemma KeepMonitorWrite(key: Key, s: Sys, n: nat)
    requires Inv(key, s)
    ensures Inv(key, DoMonitorWrite(s, n))
  {
    if s.monitor.Sending? && 1 <= n <= |s.monitor.left| && s.thread.Reading? {
      var left := s.monitor.left;
      assert s.thread.got + (s.toWorker + left) == s.thread.got + (s.toWorker + left[..n] + left[n..]);
      if n == |left| {
        assert left[..n] == left;
      }
    }
  }

  lemma KeepMonitorBreak(key: Key, s: Sys)
    requires Inv(key, s)
    ensures Inv(key, s.(monitor := Gone))
  {
    if s.thread.Reading? && s.monitor.Sending? && s.answered.Some? {
      assert s.thread.got + (s.toWorker + s.monitor.left) == (s.thread.got + s.toWorker) + s.monitor.left;
    }
  }

  lemma StepKeepsInv(key: Key, s: Sys, a: Action)
    requires Inv(key, s)
    ensures Inv(key, Step(key, s, a))
  {
    match a
    case Submit(id, message) => KeepSubmit(key, s, id, message);
    case Pick => KeepPick(key, s);
    case Write(n) => KeepWrite(key, s, n);
    case Read(n) => KeepRead(key, s, n);
    case Finish => KeepFinish(key, s);
    case Break =>
    case MonitorRead(n) => KeepMonitorRead(key, s, n);
    case MonitorAnswer(resp) => KeepMonitorAnswer(key, s, resp);
    case MonitorWrite(n) => KeepMonitorWrite(key, s, n);
    case MonitorBreak => KeepMonitorBreak(key, s);
    case Receive(_) =>
    case GiveUp(_) =>
  }

  lemma {:induction false} RunKeepsInv(key: Key, actions: seq<Action>)
    ensures Inv(key, Run(key, INIT, actions))
  {
    if actions != [] {
      RunKeepsInv(key, actions[..|actions| - 1]);
      StepKeepsInv(key, Run(key, INIT, actions[..|actions| - 1]), actions[|actions| - 1]);
    }
  }

  /** For every schedule: a `sign(m)` that returns a signature returns the host key's
      signature of that same m. */
  lemma SignedMeansSigned(key: Key, actions: seq<Action>, id: nat)
    requires var s := Run(key, INIT, actions); id in s.results && s.results[id].Some?
    ensures var s := Run(key, INIT, actions); id in s.messages && key(s.messages[id], s.results[id].value)
  {
    RunKeepsInv(key, actions);
  }

  /** What stays as it is once the thread has stopped in `s`: no reply is added, and
      a call submitted later has failed. */
  ghost predicate NothingServed(s: Sys, s': Sys) {
    && s'.thread.Stopped? && s'.replies == s.replies
    && s.messages.Keys <= s'.messages.Keys
    && (forall id :: id in s'.messages && id !in s.messages ==> id in s'.results && s'.results[id] == None)
  }

  lemma StoppedStep(key: Key, s: Sys, s': Sys, a: Action)
    requires NothingServed(s, s')
    ensures NothingServed(s, Step(key, s', a))
  {
  }

  /** After the first broken exchange the thread never serves another job: no reply
      is ever given again and no call submitted later can succeed. */
  lemma {:induction false} StoppedForGood(key: Key, s: Sys, actions: seq<Action>)
    requires s.thread.Stopped?
    ensures NothingServed(s, Run(key, s, actions))
    decreases |actions|
  {
    if actions != [] {
      StoppedForGood(key, s, actions[..|actions| - 1]);
      StoppedStep(key, s, Run(key, s, actions[..|actions| - 1]), actions[|actions| - 1]);
    }
  }

  // ---- what stops the thread ----------------------------------------------

  /** Action `i` breaks an exchange: an I/O error, time-out or end of stream while the
      thread writes or reads, or a request that does not fit the cap. */
  ghost predicate Breaks(key: Key, actions: seq<Action>, i: nat)
    requires i < |actions|
  {
    var s := Run(key, INIT, actions[..i]);
    || (actions[i].Break? && (s.thread.Writing? || s.thread.Reading?))
    || (actions[i].Pick? && s.thread.Idle? && s.queue != [] && s.queue[0] in s.messages
        && |EncodeRequest(s.messages[s.queue[0]])| > IPC_CAP)
  }

  /** A complete answer never stops the thread, whatever it says: a refusal and a
      signature both end the job and leave the thread ready for the next. */
  lemma FinishServes(key: Key, s: Sys)
    requires Inv(key, s) && s.thread.Reading? && Wanted(s.thread.got) == 0
    ensures s.answered.Some?
    ensures DoFinish(s) == s.(thread := Idle, replies := s.replies[s.thread.job := Granted(s.answered.value)])
  {
    var got := s.thread.got;
    assert Answering(key, s.messages[s.thread.job], s, got);
    var body := EncodeResponse(s.answered.value);
    var more := Frame(body)[|got|..];
    assert got + more == Frame(body);
    WantedInFrame(body, got, more);
    ResponseRoundTrip(s.answered.value);
  }

  /** What an answer gives the caller. */
  function Granted(r: SignResponse): Option<bytes> {
    match r
    case Signature(sig) => Some(sig)
    case Refusal => None
  }

  lemma FinishNeverStops(key: Key, s: Sys)
    requires Inv(key, s)
    ensures DoFinish(s).thread.Stopped? <==> s.thread.Stopped?
  {
    if s.thread.Reading? && Wanted(s.thread.got) == 0 {
      FinishServes(key, s);
    }
  }

  lemma StopsOnlyBroken(key: Key, actions: seq<Action>, i: nat)
    requires i < |actions|
    ensures var s, s' := Run(key, INIT, actions[..i]), Step(key, Run(key, INIT, actions[..i]), actions[i]);
            s'.thread.Stopped? <==> s.thread.Stopped? || Breaks(key, actions, i)
  {
    if actions[i].Finish? {
      RunKeepsInv(key, actions[..i]);
      FinishNeverStops(key, Run(key, INIT, actions[..i]));
    }
  }

  /** In every run the thread has stopped if and only if some exchange was broken. */
  lemma {:induction false} StoppedExactly(key: Key, actions: seq<Action>)
    ensures Run(key, INIT, actions).thread.Stopped? <==> exists i: nat :: i < |actions| && Breaks(key, actions, i)
  {
    if actions != [] {
      var n := |actions| - 1;
      StoppedExactly(key, actions[..n]);
      StopsOnlyBroken(key, actions, n);
      forall i: nat | i < n ensures Breaks(key, actions[..n], i) == Breaks(key, actions, i) {
        assert actions[..n][..i] == actions[..i];
      }
      if Run(key, INIT, actions[..n]).thread.Stopped? {
        var i: nat :| i < n && Breaks(key, actions[..n], i);
        assert Breaks(key, actions, i);
      } else if Breaks(key, actions, n) {
        assert Run(key, INIT, actions).thread.Stopped?;
      }
    }
  }

  // ---- calls that go through ----------------------------------------------

  /** Nothing is under way. */
  ghost predicate Quiet(s: Sys) {
    s.thread.Idle? && s.queue == [] && s.toMonitor == [] && s.toWorker == [] && s.monitor == Receiving([])
  }

  /** One more action of a run. */
  lemma Extend(key: Key, actions: seq<Action>, a: Action) returns (more: seq<Action>)
    ensures Run(key, INIT, more) == Step(key, Run(key, INIT, actions), a)
  {
    more := actions + [a];
    assert more[..|actions|] == actions;
  }

  lemma ReadWhole(s: Sys, body: bytes)
    requires |body| <= IPC_CAP && s.thread.Reading? && s.thread.got == [] && s.toWorker == Frame(body)
    ensures DoRead(DoRead(s, 4), |body|) == s.(thread := s.thread.(got := Frame(body)), toWorker := [])
  {
    var f := Frame(body);
    var p, b := f[..4], f[4..];
    assert p + b == f && [] + p == p;
    WantedInFrame(body, p, b);
    var s1 := DoRead(s, 4);
    assert s1 == s.(thread := s.thread.(got := p), toWorker := b);
    assert b[..|body|] == b && b[|body|..] == [];
  }

  lemma MonitorReadWhole(s: Sys, body: bytes)
    requires |body| <= IPC_CAP && s.monitor == Receiving([]) && s.toMonitor == Frame(body)
    ensures DoMonitorRead(DoMonitorRead(s, 4), |body|) == s.(monitor := Receiving(Frame(body)), toMonitor := [])
  {
    var f := Frame(body);
    var p, b := f[..4], f[4..];
    assert p + b == f && [] + p == p;
    WantedInFrame(body, p, b);
    var s1 := DoMonitorRead(s, 4);
    assert s1 == s.(monitor := Receiving(p), toMonitor := b);
    assert b[..|body|] == b && b[|body|..] == [];
  }

  /** A call's request, handed to the thread and written out. */
  lemma Asks(key: Key, before: seq<Action>, s: Sys, id: nat, message: bytes, body: bytes)
    returns (actions: seq<Action>)
    requires Run(key, INIT, before) == s && Quiet(s) && id !in s.messages
    requires body == EncodeRequest(message) && |body| <= IPC_CAP
    ensures Run(key, INIT, actions) == s.(messages := s.messages[id := message], thread := Reading(id, []),
                                          toMonitor := Frame(body), answered := None)
  {
    var f := Frame(body);
    actions := Extend(key, before, Submit(id, message));
    assert [] + [id] == [id] && [id][1..] == [];
    actions := Extend(key, actions, Pick);
    assert Run(key, INIT, actions)
        == s.(messages := s.messages[id := message], thread := Writing(id, f), answered := None);
    actions := Extend(key, actions, Write(4 + |body|));
    assert [] + f[..4 + |body|] == f;
  }

  /** The monitor reads the request. */
  lemma Arrives(key: Key, before: seq<Action>, s: Sys, body: bytes) returns (actions: seq<Action>)
    requires Run(key, INIT, before) == s && |body| <= IPC_CAP
    requires s.monitor == Receiving([]) && s.toMonitor == Frame(body)
    ensures Run(key, INIT, actions) == s.(monitor := Receiving(Frame(body)), toMonitor := [])
  {
    MonitorReadWhole(s, body);
    actions := Extend(key, before, MonitorRead(4));
    actions := Extend(key, actions, MonitorRead(|body|));
  }

  lemma MonitorReplies(key: Key, s: Sys, message: bytes, r: SignResponse)
    requires GoodAnswer(key, message, r) && |EncodeRequest(message)| <= IPC_CAP
    requires s.monitor == Receiving(Frame(EncodeRequest(message)))
    ensures DoMonitorAnswer(key, s, r) == s.(monitor := Sending(Frame(EncodeResponse(r))), answered := Some(r))
  {
    var body := EncodeRequest(message);
    var f := Frame(body);
    assert f + [] == f;
    WantedInFrame(body, f, []);
    RequestRoundTrip(message);
  }

  /** The monitor's answer, written out. */
  lemma Answers(key: Key, before: seq<Action>, s: Sys, message: bytes, r: SignResponse) returns (actions: seq<Action>)
    requires Run(key, INIT, before) == s && GoodAnswer(key, message, r)
    requires |EncodeRequest(message)| <= IPC_CAP
    requires s.monitor == Receiving(Frame(EncodeRequest(message))) && s.toWorker == []
    ensures Run(key, INIT, actions)
         == s.(monitor := Receiving([]), toWorker := Frame(EncodeResponse(r)), answered := Some(r))
  {
    var f := Frame(EncodeResponse(r));
    MonitorReplies(key, s, message, r);
    actions := Extend(key, before, MonitorAnswer(r));
    actions := Extend(key, actions, MonitorWrite(|f|));
    assert [] + f[..|f|] == f;
  }

  /** The thread reads the answer. */
  lemma Collects(key: Key, before: seq<Action>, s: Sys, id: nat, body: bytes) returns (actions: seq<Action>)
    requires Run(key, INIT, before) == s && |body| <= IPC_CAP
    requires s.thread == Reading(id, []) && s.toWorker == Frame(body)
    ensures Run(key, INIT, actions) == s.(thread := Reading(id, Frame(body)), toWorker := [])
  {
    ReadWhole(s, body);
    actions := Extend(key, before, Read(4));
    actions := Extend(key, actions, Read(|body|));
  }

  /** The thread hands the outcome to the caller and is ready for the next job. */
  lemma Returns(key: Key, before: seq<Action>, s: Sys, id: nat, r: SignResponse) returns (actions: seq<Action>)
    requires Run(key, INIT, before) == s && s.answered == Some(r) && |EncodeResponse(r)| <= IPC_CAP
    requires s.thread == Reading(id, Frame(EncodeResponse(r))) && id in s.messages && id !in s.results
    ensures Run(key, INIT, actions) == s.(thread := Idle, replies := s.replies[id := Granted(r)],
                                          results := s.results[id := Granted(r)])
  {
    var f := Frame(EncodeResponse(r));
    assert f + [] == f;
    WantedInFrame(EncodeResponse(r), f, []);
    RunKeepsInv(key, before);
    FinishServes(key, s);
    actions := Extend(key, before, Finish);
    var s1 := s.(thread := Idle, replies := s.replies[id := Granted(r)]);
    assert Run(key, INIT, actions) == s1;
    actions := Extend(key, actions, Receive(id));
    assert Step(key, s1, Receive(id)) == s1.(results := s.results[id := Granted(r)]);
  }

  /** One whole exchange, from quiet to quiet: the caller gets what the monitor
      answered, and earlier calls keep what they got. */
  lemma Exchange(key: Key, before: seq<Action>, s: Sys, id: nat, message: bytes, r: SignResponse)
    returns (actions: seq<Action>)
    requires Run(key, INIT, before) == s && Quiet(s) && id !in s.messages && id !in s.results
    requires |EncodeRequest(message)| <= IPC_CAP && GoodAnswer(key, message, r)
    ensures var s' := Run(key, INIT, actions);
            && Quiet(s') && s'.messages == s.messages[id := message]
            && s'.results == s.results[id := Granted(r)]
  {
    var req, ans := EncodeRequest(message), EncodeResponse(r);
    actions := Asks(key, before, s, id, message, req);
    actions := Arrives(key, actions, Run(key, INIT, actions), req);
    actions := Answers(key, actions, Run(key, INIT, actions), message, r);
    actions := Collects(key, actions, Run(key, INIT, actions), id, ans);
    actions := Returns(key, actions, Run(key, INIT, actions), id, r);
  }

  /** Nothing above is vacuous: a call whose request and answer fit the cap gets its
      signature in the run where every party does its part. */
  lemma PromptExchangeSigns(key: Key, message: bytes, sig: bytes)
    requires |EncodeRequest(message)| <= IPC_CAP && GoodAnswer(key, message, Signature(sig))
    ensures exists actions ::
              Run(key, INIT, actions).messages == map[0 := message]
              && Run(key, INIT, actions).results == map[0 := Some(sig)]
  {
    var actions := Exchange(key, [], INIT, 0, message, Signature(sig));
  }

  /** A refused call fails, and the next one is still served. */
  lemma RefusalKeepsServing(key: Key, refused: bytes, message: bytes, sig: bytes)
    requires |EncodeRequest(refused)| <= IPC_CAP && |EncodeResponse(Refusal)| <= IPC_CAP
    requires |EncodeRequest(message)| <= IPC_CAP && GoodAnswer(key, message, Signature(sig))
    ensures exists actions ::
              Run(key, INIT, actions).messages == map[0 := refused, 1 := message]
              && Run(key, INIT, actions).results == map[0 := None, 1 := Some(sig)]
  {
    var first := Exchange(key, [], INIT, 0, refused, Refusal);
    var actions := Exchange(key, first, Run(key, INIT, first), 1, message, Signature(sig));
  }

  // ---- calls that fail ----------------------------------------------------

  /** The job whose exchange is broken gets its failure at once. */
  lemma BrokenJobFails(s: Sys)
    requires s.thread.Writing? || s.thread.Reading?
    ensures var s' := DoBreak(s);
            s'.thread.Stopped? && s.thread.job in s'.replies && s'.replies[s.thread.job] == None
  {
  }

  /** When the monitor goes away in the middle of an exchange, the call fails and the
      thread stops. */
  lemma LostMonitor(key: Key, message: bytes)
    requires |EncodeRequest(message)| <= IPC_CAP
    ensures exists actions ::
              var s := Run(key, INIT, actions);
              s.monitor.Gone? && s.thread.Stopped? && s.messages == map[0 := message] && s.results == map[0 := None]
  {
    var actions := Asks(key, [], INIT, 0, message, EncodeRequest(message));
    var s := Run(key, INIT, actions);
    actions := Extend(key, actions, MonitorBreak);
    assert Run(key, INIT, actions) == s.(monitor := Gone);
    actions := Extend(key, actions, Break);
    var s1 := s.(monitor := Gone, thread := Stopped, replies := map[0 := None]);
    assert Run(key, INIT, actions) == s1;
    actions := Extend(key, actions, Receive(0));
    assert Run(key, INIT, actions) == s1.(results := map[0 := None]);
  }

  /** A caller that gave up has failed for good: what arrives later does not reach it. */
  lemma LateReplyIsLost(key: Key, s: Sys, id: nat)
    requires id in s.messages && id !in s.results
    ensures var s' := Step(key, s, GiveUp(id));
            id in s'.results && s'.results[id] == None && Step(key, s', Receive(id)) == s'
  {
  }

  /** Writing in two pieces is writing the whole, for either party. */
  lemma WritesCompose(s: Sys, m: nat, n: nat)
    requires m >= 1 && n >= 1
    ensures s.thread.Writing? && m + n <= |s.thread.left| ==> DoWrite(DoWrite(s, m), n) == DoWrite(s, m + n)
    ensures s.monitor.Sending? && m + n <= |s.monitor.left| ==>
              DoMonitorWrite(DoMonitorWrite(s, m), n) == DoMonitorWrite(s, m + n)
  {
    if s.thread.Writing? && m + n <= |s.thread.left| {
      var left := s.thread.left;
      assert s.toMonitor + left[..m] + left[m..][..n] == s.toMonitor + left[..m + n];
      assert left[m..][n..] == left[m + n..];
    }
    if s.monitor.Sending? && m + n <= |s.monitor.left| {
      var left := s.monitor.left;
      assert s.toWorker + left[..m] + left[m..][..n] == s.toWorker + left[..m + n];
      assert left[m..][n..] == left[m + n..];
    }
  }
}
