// The session ledger: the reverse index always agrees with the child store, every
// spawned session is either live or was reaped exactly once, and PAM sessions
// balance.
module MonitorLedger {
  import opened Auth
  import opened Monitor
  import opened MonitorRuns

  ghost predicate Listed(byConn: map<nat, seq<nat>>, c: nat, id: nat) {
    c in byConn && id in byConn[c]
  }

  ghost predicate NoRepeat(ids: seq<nat>) {
    forall id :: multiset(ids)[id] <= 1
  }

  /** The index lists exactly `ids`, each in one list, once. */
  ghost predicate Indexed(byConn: map<nat, seq<nat>>, ids: set<nat>) {
    && (forall c, id :: Listed(byConn, c, id) ==> id in ids)
    && (forall id :: id in ids ==> exists c :: Listed(byConn, c, id))
    && (forall c, c', id :: Listed(byConn, c, id) && Listed(byConn, c', id) ==> c == c')
    && (forall c :: c in byConn ==> NoRepeat(byConn[c]))
  }

  /** The ids in the store are the ids in the index, each in one list, once, and none
      is above the counter; PAM guards are held for stored sessions only. */
  ghost predicate Ledger(s: Mon) {
    && Indexed(s.byConn, s.sessions.Keys)
    && (forall id :: id in s.sessions ==> 1 <= id <= s.nextSession)
    && s.pam.Keys <= s.sessions.Keys
  }

  ghost function SetOf(ids: seq<nat>): set<nat> { set id | id in ids }

  lemma {:induction false} ReapAllState(s: Mon, ids: seq<nat>)
    ensures ReapAll(s, ids).0 == s.(sessions := s.sessions - SetOf(ids), pam := s.pam - SetOf(ids))
    decreases |ids|
  {
    if ids == [] {
      assert s.sessions - SetOf(ids) == s.sessions && s.pam - SetOf(ids) == s.pam;
    } else {
      var init, id := ids[..|ids| - 1], ids[|ids| - 1];
      ReapAllState(s, init);
      assert ids == init + [id];
      assert SetOf(ids) == SetOf(init) + {id};
    }
  }

  lemma CloseState(s: Mon, e: Event)
    requires e.req.Close?
    ensures var c, ids := e.req.conn, SetOf(ListOf(s.byConn, e.req.conn));
            StepClose(s, e).state
              == Mon(s.users - {c}, s.sessions - ids, s.byConn - {c}, s.challenges - {c}, s.nextSession, s.pam - ids)
  {
    var c := e.req.conn;
    ReapAllState(s.(users := s.users - {c}, challenges := s.challenges - {c}, byConn := s.byConn - {c}),
                 ListOf(s.byConn, c));
  }

  ghost function Reaps(effects: seq<Effect>, id: nat): nat { multiset(effects)[Reaped(id)] }

  ghost function Opens(effects: seq<Effect>): nat { multiset(effects)[PamOpened] }

  ghost function Closes(effects: seq<Effect>): nat { multiset(effects)[PamClosed] }

  /** Removing one key costs one, when the key was there. */
  lemma SizeWithout(pam: map<nat, PamGuard>, id: nat)
    ensures |pam - {id}| == |pam| - (if id in pam then 1 else 0)
  {
    assert (pam - {id}).Keys == pam.Keys - {id};
  }

  lemma SizeWith(pam: map<nat, PamGuard>, id: nat, g: PamGuard)
    ensures id !in pam ==> |pam[id := g]| == |pam| + 1
  {
    assert pam[id := g].Keys == pam.Keys + {id};
  }

  lemma CountsAppend(a: seq<Effect>, b: seq<Effect>)
    ensures Opens(a + b) == Opens(a) + Opens(b) && Closes(a + b) == Closes(a) + Closes(b)
    ensures forall id :: Reaps(a + b, id) == Reaps(a, id) + Reaps(b, id)
  {
    assert multiset(a + b) == multiset(a) + multiset(b);
  }

  lemma FarewellCounts(s: Mon, id: nat)
    ensures var f := Farewell(s, id);
            && Opens(f) == 0 && Closes(f) == (if id in s.pam then 1 else 0)
            && (forall x :: Reaps(f, x) == if x == id && id in s.sessions then 1 else 0)
            && (forall ef :: ef in f ==> !ef.Forked?)
  {
  }

  /** What ending the listed sessions leaves on record. */
  ghost predicate Ended(s: Mon, ids: seq<nat>, s': Mon, effects: seq<Effect>) {
    && Opens(effects) == 0 && Closes(effects) + |s'.pam| == |s.pam|
    && (forall id :: Reaps(effects, id) == if id in s.sessions && id in ids then 1 else 0)
    && (forall ef :: ef in effects ==> !ef.Forked?)
  }

  lemma EndOneMore(s: Mon, init: seq<nat>, id: nat, s1: Mon, earlier: seq<Effect>, s': Mon)
    requires Ended(s, init, s1, earlier) && s1.sessions == s.sessions - SetOf(init)
    requires s'.pam == s1.pam - {id}
    ensures Ended(s, init + [id], s', earlier + Farewell(s1, id))
  {
    SizeWithout(s1.pam, id);
    FarewellCounts(s1, id);
    CountsAppend(earlier, Farewell(s1, id));
  }

  lemma ReapAllSnoc(s: Mon, init: seq<nat>, id: nat)
    ensures var (s1, earlier) := ReapAll(s, init);
            ReapAll(s, init + [id])
              == (s1.(sessions := s1.sessions - {id}, pam := s1.pam - {id}), earlier + Farewell(s1, id))
  {
    assert (init + [id])[..|init|] == init;
  }

  lemma EndNone(s: Mon)
    ensures Ended(s, [], s, [])
  {
  }

  lemma {:induction false} ReapAllEffects(s: Mon, ids: seq<nat>)
    ensures Ended(s, ids, ReapAll(s, ids).0, ReapAll(s, ids).1)
    decreases |ids|
  {
    if ids == [] {
      EndNone(s);
    } else {
      var init, id := ids[..|ids| - 1], ids[|ids| - 1];
      assert ids == init + [id];
      ReapAllEffects(s, init);
      ReapAllState(s, init);
      ReapAllSnoc(s, init, id);
      var (s1, earlier) := ReapAll(s, init);
      EndOneMore(s, init, id, s1, earlier, s1.(sessions := s1.sessions - {id}, pam := s1.pam - {id}));
    }
  }

  ghost predicate StepBalances(s: Mon, o: Outcome) {
    && (forall id :: Reaps(o.effects, id) == if id in s.sessions && id !in o.state.sessions then 1 else 0)
    && Opens(o.effects) + |s.pam| == Closes(o.effects) + |o.state.pam|
  }

  lemma NoRepeatSnoc(ids: seq<nat>, id: nat)
    requires NoRepeat(ids) && id !in ids
    ensures NoRepeat(ids + [id])
  {
    assert multiset(ids)[id] == 0;
  }

  lemma IndexAdd(byConn: map<nat, seq<nat>>, ids: set<nat>, c: nat, id: nat)
    requires Indexed(byConn, ids) && id !in ids
    ensures Indexed(byConn[c := ListOf(byConn, c) + [id]], ids + {id})
  {
    var byConn' := byConn[c := ListOf(byConn, c) + [id]];
    assert forall x :: x in ListOf(byConn, c) ==> Listed(byConn, c, x);
    forall d, x ensures Listed(byConn', d, x) <==> Listed(byConn, d, x) || (d == c && x == id) {
    }
    forall x | x in ids + {id} ensures exists d :: Listed(byConn', d, x) {
      if x == id {
        assert Listed(byConn', c, id);
      } else {
        var d :| Listed(byConn, d, x);
        assert Listed(byConn', d, x);
      }
    }
    NoRepeatSnoc(ListOf(byConn, c), id);
  }

  lemma SpawnKeepsLedger(s: Mon, e: Event)
    requires e.req.Spawn? && Ledger(s)
    ensures Ledger(StepSpawn(s, e).state)
  {
    var s' := StepSpawn(s, e).state;
    if s' != s {
      var id := s.nextSession + 1;
      IndexAdd(s.byConn, s.sessions.Keys, e.req.conn, id);
      assert s'.sessions.Keys == s.sessions.Keys + {id};
    }
  }

  lemma CountsOne(ef: Effect)
    ensures Opens([ef]) == (if ef == PamOpened then 1 else 0) && Closes([ef]) == (if ef == PamClosed then 1 else 0)
    ensures forall id :: Reaps([ef], id) == if ef == Reaped(id) then 1 else 0
  {
  }

  lemma CountsTwo(x: Effect, y: Effect)
    ensures Opens([x, y]) == Opens([x]) + Opens([y]) && Closes([x, y]) == Closes([x]) + Closes([y])
    ensures forall id :: Reaps([x, y], id) == Reaps([x], id) + Reaps([y], id)
  {
    CountsAppend([x], [y]);
    assert [x] + [y] == [x, y];
  }

  lemma SpawnedBalances(s: Mon, e: Event)
    requires e.req.Spawn? && Ledger(s) && StepSpawn(s, e).reply.Spawned?
    ensures StepBalances(s, StepSpawn(s, e))
  {
    var o := StepSpawn(s, e);
    var id, f := o.reply.session, Forked(o.reply.session, e.req.conn, s.users[e.req.conn]);
    CountsOne(PamOpened);
    CountsOne(f);
    CountsTwo(PamOpened, f);
    SizeWith(s.pam, id, PamGuard(s.users[e.req.conn]));
  }

  lemma SpawnBalances(s: Mon, e: Event)
    requires e.req.Spawn? && Ledger(s)
    ensures StepBalances(s, StepSpawn(s, e))
  {
    if StepSpawn(s, e).reply.Spawned? {
      SpawnedBalances(s, e);
    } else {
      CountsOne(PamOpened);
      CountsOne(PamClosed);
      CountsTwo(PamOpened, PamClosed);
    }
  }

  lemma IndexForget(byConn: map<nat, seq<nat>>, ids: set<nat>, id: nat)
    requires Indexed(byConn, ids)
    ensures Indexed(ForgetId(byConn, id), ids - {id})
  {
    var byConn' := ForgetId(byConn, id);
    forall c, x ensures Listed(byConn', c, x) <==> Listed(byConn, c, x) && x != id {
    }
    forall x | x in ids - {id} ensures exists c :: Listed(byConn', c, x) {
      var c :| Listed(byConn, c, x);
      assert Listed(byConn', c, x);
    }
  }

  lemma ReapKeepsLedger(s: Mon, e: Event)
    requires e.req.Reap? && Ledger(s)
    ensures Ledger(StepReap(s, e).state)
  {
    var s' := StepReap(s, e).state;
    if s' != s {
      IndexForget(s.byConn, s.sessions.Keys, e.req.session);
      assert s'.sessions.Keys == s.sessions.Keys - {e.req.session};
    }
  }

  lemma ReapBalances(s: Mon, e: Event)
    requires e.req.Reap?
    ensures StepBalances(s, StepReap(s, e))
  {
    SizeWithout(s.pam, e.req.session);
    CountsOne(Reaped(e.req.session));
    CountsOne(PamClosed);
    CountsTwo(Reaped(e.req.session), PamClosed);
  }

  lemma IndexDrop(byConn: map<nat, seq<nat>>, ids: set<nat>, c: nat)
    requires Indexed(byConn, ids)
    ensures Indexed(byConn - {c}, ids - SetOf(ListOf(byConn, c)))
  {
    var byConn' := byConn - {c};
    forall d, x ensures Listed(byConn', d, x) <==> Listed(byConn, d, x) && d != c {
    }
    forall x ensures x in SetOf(ListOf(byConn, c)) <==> Listed(byConn, c, x) {
    }
    forall x | x in ids - SetOf(ListOf(byConn, c)) ensures exists d :: Listed(byConn', d, x) {
      var d :| Listed(byConn, d, x);
      assert Listed(byConn', d, x);
    }
  }

  lemma CloseKeepsLedger(s: Mon, e: Event)
    requires e.req.Close? && Ledger(s)
    ensures Ledger(StepClose(s, e).state)
  {
    CloseState(s, e);
    IndexDrop(s.byConn, s.sessions.Keys, e.req.conn);
    assert StepClose(s, e).state.sessions.Keys == s.sessions.Keys - SetOf(ListOf(s.byConn, e.req.conn));
  }

  lemma CloseBalances(s: Mon, e: Event)
    requires e.req.Close?
    ensures StepBalances(s, StepClose(s, e))
  {
    var c := e.req.conn;
    CloseState(s, e);
    ReapAllEffects(s.(users := s.users - {c}, challenges := s.challenges - {c}, byConn := s.byConn - {c}),
                   ListOf(s.byConn, c));
  }

  /** Every request keeps the ledger. */
  lemma StepKeepsLedger(reg: Registry, s: Mon, e: Event)
    requires Ledger(s)
    ensures Ledger(Step(reg, s, e).state)
  {
    match e.req
    case Login(_, _, _) => SameStore(s, Step(reg, s, e).state);
    case Spawn(_, _) => SpawnKeepsLedger(s, e);
    case Reap(_) => ReapKeepsLedger(s, e);
    case Close(_) => CloseKeepsLedger(s, e);
    case Signal(_) =>
  }

  lemma SameStore(s: Mon, s': Mon)
    requires Ledger(s)
    requires s'.byConn == s.byConn && s'.sessions == s.sessions && s'.nextSession == s.nextSession && s'.pam == s.pam
    ensures Ledger(s')
  {
  }

  /** Every request balances processes and PAM sessions. */
  lemma StepBalancesAll(reg: Registry, s: Mon, e: Event)
    requires Ledger(s)
    ensures StepBalances(s, Step(reg, s, e))
  {
    match e.req
    case Login(_, _, _) =>
    case Spawn(_, _) => SpawnBalances(s, e);
    case Reap(_) => ReapBalances(s, e);
    case Close(_) => CloseBalances(s, e);
    case Signal(_) =>
  }

  /** What a whole run has done to processes and PAM sessions. */
  ghost predicate Accounts(s: Mon, log: seq<Effect>) {
    && (forall id: nat :: Reaps(log, id) == if 1 <= id <= s.nextSession && id !in s.sessions then 1 else 0)
    && Opens(log) == Closes(log) + |s.pam|
  }

  ghost predicate Grows(s: Mon, s': Mon) {
    || (s'.nextSession == s.nextSession && s'.sessions.Keys <= s.sessions.Keys)
    || (s'.nextSession == s.nextSession + 1 && s'.sessions.Keys == s.sessions.Keys + {s'.nextSession})
  }

  lemma StepGrows(reg: Registry, s: Mon, e: Event)
    requires Ledger(s)
    ensures Grows(s, Step(reg, s, e).state)
  {
    if e.req.Close? {
      CloseState(s, e);
    }
  }

  lemma AccountsGrow(s: Mon, o: Outcome, log: seq<Effect>)
    requires Accounts(s, log) && StepBalances(s, o) && Grows(s, o.state)
    requires forall id :: id in s.sessions ==> 1 <= id <= s.nextSession
    ensures Accounts(o.state, log + o.effects)
  {
    CountsAppend(log, o.effects);
  }

  /** In every reachable state the index agrees with the store; over the run each
      allocated id is live or was reaped exactly once, never-allocated ids were
      not reaped, and PAM opens equal closes plus held guards. */
  lemma {:induction false} EveryRunBalances(reg: Registry, evs: seq<Event>)
    ensures Ledger(After(reg, evs))
    ensures Accounts(After(reg, evs), Log(reg, evs))
  {
    if evs != [] {
      var init, e := evs[..|evs| - 1], evs[|evs| - 1];
      EveryRunBalances(reg, init);
      var s := After(reg, init);
      StepKeepsLedger(reg, s, e);
      StepBalancesAll(reg, s, e);
      StepGrows(reg, s, e);
      AccountsGrow(s, Step(reg, s, e), Log(reg, init));
    }
  }

  // ---- spawned sessions ---------------------------------------------------

  ghost function Forks(effects: seq<Effect>): seq<Effect> {
    if effects == [] then []
    else Forks(effects[..|effects| - 1]) + (if effects[|effects| - 1].Forked? then [effects[|effects| - 1]] else [])
  }

  lemma {:induction false} ForksAppend(a: seq<Effect>, b: seq<Effect>)
    ensures Forks(a + b) == Forks(a) + Forks(b)
    decreases |b|
  {
    if b == [] {
      assert a + b == a;
    } else {
      var b', x := b[..|b| - 1], b[|b| - 1];
      ForksAppend(a, b');
      assert (a + b)[..|a + b| - 1] == a + b' && (a + b)[|a + b| - 1] == x;
    }
  }

  lemma {:induction false} NoForks(effects: seq<Effect>)
    requires forall ef :: ef in effects ==> !ef.Forked?
    ensures Forks(effects) == []
    decreases |effects|
  {
    if effects != [] {
      NoForks(effects[..|effects| - 1]);
    }
  }

  lemma ForksLast(effects: seq<Effect>, f: Effect)
    requires f.Forked? && forall ef :: ef in effects ==> !ef.Forked?
    ensures Forks(effects + [f]) == [f]
  {
    NoForks(effects);
    assert (effects + [f])[..|effects|] == effects;
  }

  ghost predicate ForksSession(s: Mon, e: Event) {
    e.req.Spawn? && e.req.conn in s.users && e.env.forks
  }

  lemma SpawnForks(s: Mon, e: Event)
    requires ForksSession(s, e)
    ensures Forks(StepSpawn(s, e).effects) == [Forked(s.nextSession + 1, e.req.conn, s.users[e.req.conn])]
  {
    var effects := StepSpawn(s, e).effects;
    var f := Forked(s.nextSession + 1, e.req.conn, s.users[e.req.conn]);
    ForksLast(effects[..|effects| - 1], f);
    assert effects == effects[..|effects| - 1] + [f];
  }

  lemma CloseForks(s: Mon, e: Event)
    requires e.req.Close?
    ensures Forks(StepClose(s, e).effects) == []
  {
    var c := e.req.conn;
    var s1 := s.(users := s.users - {c}, challenges := s.challenges - {c}, byConn := s.byConn - {c});
    ReapAllEffects(s1, ListOf(s.byConn, c));
    NoForks(ReapAll(s1, ListOf(s.byConn, c)).1);
  }

  lemma StepForks(reg: Registry, s: Mon, e: Event)
    ensures Forks(Step(reg, s, e).effects) ==
            if ForksSession(s, e) then [Forked(s.nextSession + 1, e.req.conn, s.users[e.req.conn])] else []
  {
    if ForksSession(s, e) {
      SpawnForks(s, e);
    } else if e.req.Close? {
      CloseForks(s, e);
    } else {
      NoForks(Step(reg, s, e).effects);
    }
  }

  /** Session ids are handed out as 1, 2, 3, ... without reuse, and a live session
      is filed under the connection it was spawned for, as the user it was
      spawned as. */
  ghost predicate FiledAs(s: Mon, forks: seq<Effect>) {
    && |forks| == s.nextSession
    && (forall i :: 0 <= i < |forks| ==> forks[i].Forked? && forks[i].session == i + 1)
    && (forall i :: 0 <= i < |forks| && i + 1 in s.sessions ==>
          Listed(s.byConn, forks[i].conn, i + 1) && s.sessions[i + 1] == Child(forks[i].user))
  }

  ghost predicate Filed(s: Mon, log: seq<Effect>) { FiledAs(s, Forks(log)) }

  /** Sessions that survive a step stay where they were filed. */
  ghost predicate KeepsPlaces(s: Mon, s': Mon) {
    forall c: nat, id: nat :: Listed(s.byConn, c, id) && id in s.sessions && id in s'.sessions && id <= s.nextSession
      ==> Listed(s'.byConn, c, id) && s'.sessions[id] == s.sessions[id]
  }

  lemma StepKeepsPlaces(reg: Registry, s: Mon, e: Event)
    ensures KeepsPlaces(s, Step(reg, s, e).state)
  {
    if e.req.Close? {
      CloseState(s, e);
    }
  }

  lemma FiledSame(s: Mon, s': Mon, forks: seq<Effect>)
    requires FiledAs(s, forks) && KeepsPlaces(s, s')
    requires s'.nextSession == s.nextSession && s'.sessions.Keys <= s.sessions.Keys
    ensures FiledAs(s', forks)
  {
    forall i | 0 <= i < |forks| && i + 1 in s'.sessions
      ensures Listed(s'.byConn, forks[i].conn, i + 1) && s'.sessions[i + 1] == Child(forks[i].user)
    {
      assert Listed(s.byConn, forks[i].conn, i + 1);
    }
  }

  lemma FiledOneMore(s: Mon, s': Mon, forks: seq<Effect>, c: nat, u: string)
    requires FiledAs(s, forks) && KeepsPlaces(s, s')
    requires s'.nextSession == s.nextSession + 1 && s'.sessions.Keys == s.sessions.Keys + {s'.nextSession}
    requires Listed(s'.byConn, c, s'.nextSession) && s'.sessions[s'.nextSession] == Child(u)
    ensures FiledAs(s', forks + [Forked(s'.nextSession, c, u)])
  {
    forall i | 0 <= i < |forks| && i + 1 in s'.sessions
      ensures Listed(s'.byConn, forks[i].conn, i + 1) && s'.sessions[i + 1] == Child(forks[i].user)
    {
      assert Listed(s.byConn, forks[i].conn, i + 1);
    }
  }

  /** Without a fork no id is handed out and no session appears. */
  lemma NoForkNoSession(reg: Registry, s: Mon, e: Event)
    requires !ForksSession(s, e)
    ensures var s' := Step(reg, s, e).state;
            s'.nextSession == s.nextSession && s'.sessions.Keys <= s.sessions.Keys
  {
    if e.req.Close? {
      CloseState(s, e);
    }
  }

  lemma SpawnFiles(s: Mon, e: Event, forks: seq<Effect>)
    requires ForksSession(s, e) && FiledAs(s, forks) && KeepsPlaces(s, StepSpawn(s, e).state)
    ensures FiledAs(StepSpawn(s, e).state, forks + [Forked(s.nextSession + 1, e.req.conn, s.users[e.req.conn])])
  {
    var s' := StepSpawn(s, e).state;
    assert Listed(s'.byConn, e.req.conn, s'.nextSession);
    FiledOneMore(s, s', forks, e.req.conn, s.users[e.req.conn]);
  }

  lemma StepFiles(reg: Registry, s: Mon, e: Event, log: seq<Effect>)
    requires Filed(s, log)
    ensures Filed(Step(reg, s, e).state, log + Step(reg, s, e).effects)
  {
    StepForks(reg, s, e);
    StepKeepsPlaces(reg, s, e);
    ForksAppend(log, Step(reg, s, e).effects);
    if ForksSession(s, e) {
      SpawnFiles(s, e, Forks(log));
    } else {
      NoForkNoSession(reg, s, e);
      FiledSame(s, Step(reg, s, e).state, Forks(log));
      assert Forks(log) + [] == Forks(log);
    }
  }

  lemma {:induction false} EveryRunFiles(reg: Registry, evs: seq<Event>)
    ensures Filed(After(reg, evs), Log(reg, evs))
  {
    if evs != [] {
      var init := evs[..|evs| - 1];
      EveryRunFiles(reg, init);
      StepFiles(reg, After(reg, init), evs[|evs| - 1], Log(reg, init));
    }
  }

  // ---- after a connection is closed ---------------------------------------

  ghost predicate Gone(s: Mon, c: nat) {
    c !in s.users && c !in s.challenges && c !in s.byConn
  }

  lemma ClosedIsGone(reg: Registry, s: Mon, e: Event)
    requires e.req.Close?
    ensures Gone(Step(reg, s, e).state, e.req.conn)
  {
    CloseState(s, e);
  }

  lemma GoneStaysGone(reg: Registry, s: Mon, e: Event, c: nat)
    requires Gone(s, c)
    requires e.req.Login? && e.req.conn == c ==> Step(reg, s, e).reply == Verdict(false)
    ensures Gone(Step(reg, s, e).state, c)
  {
    if e.req.Close? {
      CloseState(s, e);
    }
  }

  /** Once `Close(c)` is served at event `i`, then for as long as no login on `c` is
      allowed or challenged, nothing is kept for `c`, and every session ever
      spawned for `c` has been reaped exactly once. */
  lemma {:induction false} CloseLeavesNothing(reg: Registry, evs: seq<Event>, i: nat, c: nat)
    requires i < |evs| && evs[i].req == Close(c)
    requires forall k :: i < k < |evs| && evs[k].req.Login? && evs[k].req.conn == c
               ==> At(reg, evs, k).reply == Verdict(false)
    ensures Gone(After(reg, evs), c)
    ensures forall f :: f in Forks(Log(reg, evs)) && f.Forked? && f.conn == c ==> Reaps(Log(reg, evs), f.session) == 1
  {
    GoneAfter(reg, evs, i, c);
    EveryRunBalances(reg, evs);
    EveryRunFiles(reg, evs);
    var s, log := After(reg, evs), Log(reg, evs);
    forall f | f in Forks(log) && f.Forked? && f.conn == c ensures Reaps(log, f.session) == 1 {
      var k :| 0 <= k < |Forks(log)| && Forks(log)[k] == f;
      assert !Listed(s.byConn, c, k + 1);
    }
  }

  lemma {:induction false} GoneAfter(reg: Registry, evs: seq<Event>, i: nat, c: nat)
    requires i < |evs| && evs[i].req == Close(c)
    requires forall k :: i < k < |evs| && evs[k].req.Login? && evs[k].req.conn == c
               ==> At(reg, evs, k).reply == Verdict(false)
    ensures Gone(After(reg, evs), c)
  {
    var n := |evs| - 1;
    var init := evs[..n];
    if i == n {
      ClosedIsGone(reg, After(reg, init), evs[n]);
    } else {
      forall k | i < k < n && init[k].req.Login? && init[k].req.conn == c
        ensures At(reg, init, k).reply == Verdict(false)
      {
        AtPrefix(reg, evs, n, k);
        assert evs[k].req == init[k].req;
      }
      GoneAfter(reg, init, i, c);
      GoneStaysGone(reg, After(reg, init), evs[n], c);
    }
  }
}
