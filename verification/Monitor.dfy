// The monitor's control loop. Each request is one atomic step over the state the
// monitor keeps; `Step` specifies a step on values, and the classes below update
// the state in place and are proved to do exactly what `Step` says.
module Monitor {
  import opened Base
  import opened Auth

  /** Nanoseconds a parked challenge stays resumable (60 s). */
  const CHALLENGE_TTL: int := 60_000_000_000

  datatype Answer = Answer(token: string, responses: seq<string>)

  datatype SpawnKind = Shell | Exec | Transfer | TransferWrite | Mkdir {
    predicate OpensPam() { Shell? || Exec? }
  }

  datatype Request =
    | Login(conn: nat, creds: Option<Credentials>, answer: Option<Answer>)
    | Spawn(conn: nat, kind: SpawnKind)
    | Reap(session: nat)
    | Close(conn: nat)
    | Signal(session: nat)

  datatype Reply =
    | Verdict(allowed: bool)
    | Challenged(token: string, prompts: seq<Prompt>)
    | Spawned(session: nat)
    | Exited(code: int)
    | Failed
    | Closed

  /** What the operating system and the clock answer during one request. */
  datatype Surroundings = Surroundings(
    auth: World,
    takeAt: int,
    parkAt: int,
    pamOpens: bool,
    forks: bool,
    exitCode: int)

  datatype Event = Event(req: Request, env: Surroundings)

  datatype Parked = Parked(state: ChallengeState, created: int)

  /** A running session process, known by the account it runs as. */
  datatype Child = Child(user: string)

  /** An open PAM login session, known by the account it was opened for. */
  datatype PamGuard = PamGuard(user: string)

  datatype Mon = Mon(
    users: map<nat, string>,
    sessions: map<nat, Child>,
    byConn: map<nat, seq<nat>>,
    challenges: map<nat, Parked>,
    nextSession: nat,
    pam: map<nat, PamGuard>)

  const INIT := Mon(map[], map[], map[], map[], 0, map[])

  /** What a step does to processes and PAM. */
  datatype Effect =
    | PamOpened
    | PamClosed
    | Forked(session: nat, conn: nat, user: string)
    | Reaped(session: nat)
    | Signalled(session: nat)

  datatype Outcome = Outcome(state: Mon, reply: Reply, effects: seq<Effect>)

  // ---- challenge store ----------------------------------------------------

  function TakeChallenge(store: map<nat, Parked>, conn: nat, token: string, now: int): Option<ChallengeState> {
    if conn !in store then None
    else if now - store[conn].created > CHALLENGE_TTL || store[conn].state.token != token then None
    else Some(store[conn].state)
  }

  class ChallengeStore {
    var inner: map<nat, Parked>

    constructor ()
      ensures inner == map[]
    {
      inner := map[];
    }

    method Insert(conn: nat, state: ChallengeState, now: int)
      modifies this
      ensures inner == old(inner)[conn := Parked(state, now)]
    {
      inner := inner[conn := Parked(state, now)];
    }

    /** Any attempt consumes the parked entry, matching or not. */
    method Take(conn: nat, token: string, now: int) returns (r: Option<ChallengeState>)
      modifies this
      ensures r == TakeChallenge(old(inner), conn, token, now)
      ensures inner == old(inner) - {conn}
    {
      if conn !in inner {
        return None;
      }
      var entry := inner[conn];
      inner := inner - {conn};
      if now - entry.created > CHALLENGE_TTL || entry.state.token != token {
        return None;
      }
      return Some(entry.state);
    }

    method Clear(conn: nat)
      modifies this
      ensures inner == old(inner) - {conn}
    {
      inner := inner - {conn};
    }
  }

  // ---- session index ------------------------------------------------------

  function ListOf(byConn: map<nat, seq<nat>>, conn: nat): seq<nat> {
    if conn in byConn then byConn[conn] else []
  }

  /** The list without any occurrence of `id`, order kept. */
  function Without(ids: seq<nat>, id: nat): (r: seq<nat>)
    ensures multiset(r) == multiset(ids)[id := 0]
    ensures forall x :: x in r <==> x in ids && x != id
  {
    if ids == [] then []
    else
      assert ids == [ids[0]] + ids[1..];
      if ids[0] == id then Without(ids[1..], id) else [ids[0]] + Without(ids[1..], id)
  }

  function ForgetId(byConn: map<nat, seq<nat>>, id: nat): map<nat, seq<nat>> {
    map c | c in byConn :: Without(byConn[c], id)
  }

  class SessionIndex {
    var sessionsByConn: map<nat, seq<nat>>

    constructor ()
      ensures sessionsByConn == map[]
    {
      sessionsByConn := map[];
    }

    method Insert(conn: nat, id: nat)
      modifies this
      ensures sessionsByConn == old(sessionsByConn)[conn := ListOf(old(sessionsByConn), conn) + [id]]
    {
      if conn !in sessionsByConn {
        sessionsByConn := sessionsByConn[conn := []];
      }
      sessionsByConn := sessionsByConn[conn := sessionsByConn[conn] + [id]];
    }

    method TakeConn(conn: nat) returns (ids: seq<nat>)
      modifies this
      ensures ids == ListOf(old(sessionsByConn), conn)
      ensures sessionsByConn == old(sessionsByConn) - {conn}
    {
      ids := if conn in sessionsByConn then sessionsByConn[conn] else [];
      sessionsByConn := sessionsByConn - {conn};
    }

    method Forget(id: nat)
      modifies this
      ensures sessionsByConn == ForgetId(old(sessionsByConn), id)
    {
      var todo := sessionsByConn.Keys;
      while todo != {}
        invariant todo <= sessionsByConn.Keys == old(sessionsByConn.Keys)
        invariant forall c :: c in todo ==> sessionsByConn[c] == old(sessionsByConn)[c]
        invariant forall c :: c in sessionsByConn && c !in todo
                    ==> sessionsByConn[c] == Without(old(sessionsByConn)[c], id)
        decreases |todo|
      {
        var c :| c in todo;
        sessionsByConn := sessionsByConn[c := Without(sessionsByConn[c], id)];
        todo := todo - {c};
      }
    }
  }

  // ---- one request --------------------------------------------------------

  function Resumed(s: Mon, conn: nat, answer: Option<Answer>, now: int): Option<ChallengeResponse> {
    match answer
    case None => None
    case Some(a) =>
      match TakeChallenge(s.challenges, conn, a.token, now)
      case None => None
      case Some(st) => Some(ChallengeResponse(st, a.responses))
  }

  /** The verdict a login request gets in state `s`. */
  function LoginVerdict(reg: Registry, s: Mon, e: Event): Auth.Verdict
    requires e.req.Login?
  {
    RegistryVerdict(reg, e.req.creds, Resumed(s, e.req.conn, e.req.answer, e.env.takeAt), e.env.auth)
  }

  function StepLogin(reg: Registry, s: Mon, e: Event): Outcome
    requires e.req.Login?
  {
    var c := e.req.conn;
    var left := if e.req.answer.Some? then s.challenges - {c} else s.challenges;
    match LoginVerdict(reg, s, e)
    case Allow(u) =>
      Outcome(s.(users := s.users[c := u], challenges := left), Verdict(true), [])
    case Challenge(st, prompts) =>
      Outcome(s.(challenges := left[c := Parked(st, e.env.parkAt)]), Challenged(st.token, prompts), [])
    case Deny =>
      Outcome(s.(challenges := left), Verdict(false), [])
  }

  function StepSpawn(s: Mon, e: Event): Outcome
    requires e.req.Spawn?
  {
    var c := e.req.conn;
    if c !in s.users then Outcome(s, Failed, [])
    else
      var user := s.users[c];
      var guarded := e.req.kind.OpensPam() && e.env.pamOpens;
      if e.env.forks then
        var id := s.nextSession + 1;
        Outcome(
          s.(nextSession := id,
             sessions := s.sessions[id := Child(user)],
             byConn := s.byConn[c := ListOf(s.byConn, c) + [id]],
             pam := if guarded then s.pam[id := PamGuard(user)] else s.pam),
          Spawned(id),
          if guarded then [PamOpened, Forked(id, c, user)] else [Forked(id, c, user)])
      else
        Outcome(s, Failed, if guarded then [PamOpened, PamClosed] else [])
  }

  function StepReap(s: Mon, e: Event): Outcome
    requires e.req.Reap?
  {
    var id := e.req.session;
    if id !in s.sessions then Outcome(s, Failed, [])
    else
      Outcome(
        s.(sessions := s.sessions - {id}, byConn := ForgetId(s.byConn, id), pam := s.pam - {id}),
        Exited(e.env.exitCode),
        if id in s.pam then [Reaped(id), PamClosed] else [Reaped(id)])
  }

  function Farewell(s: Mon, id: nat): seq<Effect> {
    (if id in s.sessions then [Reaped(id)] else []) + (if id in s.pam then [PamClosed] else [])
  }

  /** Reap every listed session in order, closing its PAM session. */
  function ReapAll(s: Mon, ids: seq<nat>): (Mon, seq<Effect>)
    decreases |ids|
  {
    if ids == [] then (s, [])
    else
      var (s1, earlier) := ReapAll(s, ids[..|ids| - 1]);
      var id := ids[|ids| - 1];
      (s1.(sessions := s1.sessions - {id}, pam := s1.pam - {id}), earlier + Farewell(s1, id))
  }

  function StepClose(s: Mon, e: Event): Outcome
    requires e.req.Close?
  {
    var c := e.req.conn;
    var s1 := s.(users := s.users - {c}, challenges := s.challenges - {c}, byConn := s.byConn - {c});
    var (s2, effects) := ReapAll(s1, ListOf(s.byConn, c));
    Outcome(s2, Closed, effects)
  }

  function Step(reg: Registry, s: Mon, e: Event): Outcome {
    match e.req
    case Login(_, _, _) => StepLogin(reg, s, e)
    case Spawn(_, _) => StepSpawn(s, e)
    case Reap(_) => StepReap(s, e)
    case Close(_) => StepClose(s, e)
    case Signal(id) => Outcome(s, Closed, if id in s.sessions then [Signalled(id)] else [])
  }

  // ---- the state, updated in place ----------------------------------------

  class State {
    var users: map<nat, string>
    var sessions: map<nat, Child>
    const connSessions: SessionIndex
    const challenges: ChallengeStore
    var nextSession: nat
    var pamSessions: map<nat, PamGuard>
    ghost var log: seq<Effect>

    constructor ()
      ensures Model() == INIT && log == []
      ensures fresh(connSessions) && fresh(challenges)
    {
      users, sessions, nextSession, pamSessions, log := map[], map[], 0, map[], [];
      connSessions := new SessionIndex();
      challenges := new ChallengeStore();
    }

    ghost function Model(): Mon
      reads this, connSessions, challenges
    {
      Mon(users, sessions, connSessions.sessionsByConn, challenges.inner, nextSession, pamSessions)
    }

    method Login(reg: Registry, e: Event) returns (reply: Reply)
      requires e.req.Login?
      modifies this, connSessions, challenges
      ensures Outcome(Model(), reply, []) == StepLogin(reg, old(Model()), e) && log == old(log)
    {
      var c := e.req.conn;
      var resumed: Option<ChallengeResponse> := None;
      if e.req.answer.Some? {
        var taken := challenges.Take(c, e.req.answer.value.token, e.env.takeAt);
        if taken.Some? {
          resumed := Some(ChallengeResponse(taken.value, e.req.answer.value.responses));
        }
      }
      var verdict := RegistryVerdict(reg, e.req.creds, resumed, e.env.auth);
      match verdict
      case Allow(u) =>
        users := users[c := u];
        reply := Verdict(true);
      case Challenge(st, prompts) =>
        challenges.Insert(c, st, e.env.parkAt);
        reply := Challenged(st.token, prompts);
      case Deny =>
        reply := Verdict(false);
    }

    method Alloc(conn: nat, child: Child) returns (id: nat)
      modifies this, connSessions
      ensures id == old(nextSession) + 1
      ensures Model() == old(Model()).(
        nextSession := id, sessions := old(sessions)[id := child],
        byConn := old(Model()).byConn[conn := ListOf(old(Model()).byConn, conn) + [id]])
      ensures log == old(log)
    {
      nextSession := nextSession + 1;
      id := nextSession;
      sessions := sessions[id := child];
      connSessions.Insert(conn, id);
    }

    method Spawn(e: Event) returns (reply: Reply)
      requires e.req.Spawn?
      modifies this, connSessions, challenges
      ensures Model() == StepSpawn(old(Model()), e).state && reply == StepSpawn(old(Model()), e).reply
      ensures log == old(log) + StepSpawn(old(Model()), e).effects
    {
      var c := e.req.conn;
      if c !in users {
        return Failed;
      }
      var user := users[c];
      var guard: Option<PamGuard> := None;
      if e.req.kind.OpensPam() && e.env.pamOpens {
        guard := Some(PamGuard(user));
        log := log + [PamOpened];
      }
      if e.env.forks {
        var id := Alloc(c, Child(user));
        log := log + [Forked(id, c, user)];
        if guard.Some? {
          pamSessions := pamSessions[id := guard.value];
        }
        reply := Spawned(id);
      } else {
        // The unused guard goes out of scope, which closes it.
        log := log + (if guard.Some? then [PamClosed] else []);
        reply := Failed;
      }
    }

    method Reap(e: Event) returns (reply: Reply)
      requires e.req.Reap?
      modifies this, connSessions, challenges
      ensures Model() == StepReap(old(Model()), e).state && reply == StepReap(old(Model()), e).reply
      ensures log == old(log) + StepReap(old(Model()), e).effects
    {
      var id := e.req.session;
      if id !in sessions {
        return Failed;
      }
      sessions := sessions - {id};
      connSessions.Forget(id);
      log := log + [Reaped(id)] + (if id in pamSessions then [PamClosed] else []);
      pamSessions := pamSessions - {id};
      reply := Exited(e.env.exitCode);
    }

    method ReapListed(ids: seq<nat>)
      modifies this
      ensures Model() == ReapAll(old(Model()), ids).0
      ensures log == old(log) + ReapAll(old(Model()), ids).1
    {
      ghost var before := Model();
      var k := 0;
      while k < |ids|
        invariant 0 <= k <= |ids|
        invariant Model() == ReapAll(before, ids[..k]).0
        invariant log == old(log) + ReapAll(before, ids[..k]).1
      {
        var sid := ids[k];
        assert ids[..k + 1][..k] == ids[..k];
        log := log + Farewell(Model(), sid);
        sessions := sessions - {sid};
        pamSessions := pamSessions - {sid};
        k := k + 1;
      }
      assert ids[..k] == ids;
    }

    method Close(e: Event) returns (reply: Reply)
      requires e.req.Close?
      modifies this, connSessions, challenges
      ensures Model() == StepClose(old(Model()), e).state && reply == StepClose(old(Model()), e).reply
      ensures log == old(log) + StepClose(old(Model()), e).effects
    {
      var c := e.req.conn;
      users := users - {c};
      challenges.Clear(c);
      var ids := connSessions.TakeConn(c);
      ReapListed(ids);
      reply := Closed;
    }

    /** One turn of the control loop. */
    method Serve(reg: Registry, e: Event) returns (reply: Reply)
      modifies this, connSessions, challenges
      ensures Model() == Step(reg, old(Model()), e).state && reply == Step(reg, old(Model()), e).reply
      ensures log == old(log) + Step(reg, old(Model()), e).effects
    {
      match e.req
      case Login(_, _, _) => reply := Login(reg, e);
      case Spawn(_, _) => reply := Spawn(e);
      case Reap(_) => reply := Reap(e);
      case Close(_) => reply := Close(e);
      case Signal(id) =>
        log := log + (if id in sessions then [Signalled(id)] else []);
        reply := Closed;
    }
  }
}
