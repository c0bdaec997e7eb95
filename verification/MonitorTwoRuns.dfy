// Two monitors that differ only in what their first-factor backend says (and in
// the enrolled secrets) cannot be told apart by their replies until one of them
// actually allows a password login.
module MonitorTwoRuns {
  import opened Auth
  import opened Monitor
  import opened MonitorRuns
  import opened MonitorLedger

  /** Same request, clock, token supply and surroundings; only the first factor and
      the secrets may differ. */
  ghost predicate SameButFirstFactor(e: Event, e': Event) {
    && e.req == e'.req
    && e'.env == e.env.(auth := e.env.auth.(firstFactor := e'.env.auth.firstFactor, secrets := e'.env.auth.secrets))
  }

  ghost predicate ParkedAlike(a: map<nat, Parked>, b: map<nat, Parked>) {
    && a.Keys == b.Keys
    && forall c :: c in a ==> a[c].state.token == b[c].state.token && a[c].created == b[c].created
  }

  /** Equal in everything but the pending users of parked challenges. */
  ghost predicate Alike(s: Mon, s': Mon) {
    && s' == s.(challenges := s'.challenges)
    && ParkedAlike(s.challenges, s'.challenges)
  }

  ghost predicate PasswordAllow(reg: Registry, s: Mon, e: Event) {
    && e.req.Login? && e.req.creds.Some? && e.req.creds.value.Password?
    && Step(reg, s, e).reply == Verdict(true)
  }

  lemma LoginAlike(reg: Registry, s: Mon, s': Mon, e: Event, e': Event)
    requires PasswordsNeedTotp(reg) && e.req.Login?
    requires Alike(s, s') && SameButFirstFactor(e, e')
    requires !PasswordAllow(reg, s, e) && !PasswordAllow(reg, s', e')
    ensures var v, v' := LoginVerdict(reg, s, e), LoginVerdict(reg, s', e');
            if v.Challenge? then v'.Challenge? && v.state.token == v'.state.token && v.prompts == v'.prompts
            else v == v'
  {
    var r := Resumed(s, e.req.conn, e.req.answer, e.env.takeAt);
    var r' := Resumed(s', e.req.conn, e.req.answer, e.env.takeAt);
    assert r.Some? == r'.Some?;
    if e.req.creds.Some? {
      var creds := e.req.creds.value;
      if !creds.Password? {
        DispatchOther(reg, reg.backends, creds, r, e.env.auth, e'.env.auth);
        DispatchOther(reg, reg.backends, creds, r', e'.env.auth, e'.env.auth);
      } else if r.Some? {
        RoundTwoOutcome(reg, creds, r.value, e.env.auth);
        RoundTwoOutcome(reg, creds, r'.value, e'.env.auth);
      } else {
        RoundOneAlwaysChallenges(reg, creds, e.env.auth);
        RoundOneAlwaysChallenges(reg, creds, e'.env.auth);
      }
    }
  }

  ghost predicate SameOutcome(o: Outcome, o': Outcome) {
    o.reply == o'.reply && o.effects == o'.effects && Alike(o.state, o'.state)
  }

  lemma LeftAlike(a: map<nat, Parked>, b: map<nat, Parked>, c: nat)
    requires ParkedAlike(a, b)
    ensures ParkedAlike(a - {c}, b - {c})
  {
    assert (a - {c}).Keys == a.Keys - {c} && (b - {c}).Keys == b.Keys - {c};
  }

  lemma ParkAlike(a: map<nat, Parked>, b: map<nat, Parked>, c: nat, p: Parked, q: Parked)
    requires ParkedAlike(a, b) && p.state.token == q.state.token && p.created == q.created
    ensures ParkedAlike(a[c := p], b[c := q])
  {
  }

  lemma LoginStepAlike(reg: Registry, s: Mon, s': Mon, e: Event, e': Event)
    requires PasswordsNeedTotp(reg) && e.req.Login?
    requires Alike(s, s') && SameButFirstFactor(e, e')
    requires !PasswordAllow(reg, s, e) && !PasswordAllow(reg, s', e')
    ensures SameOutcome(StepLogin(reg, s, e), StepLogin(reg, s', e'))
  {
    LoginAlike(reg, s, s', e, e');
    var v, v' := LoginVerdict(reg, s, e), LoginVerdict(reg, s', e');
    var c := e.req.conn;
    var left := if e.req.answer.Some? then s.challenges - {c} else s.challenges;
    var left' := if e.req.answer.Some? then s'.challenges - {c} else s'.challenges;
    LeftAlike(s.challenges, s'.challenges, c);
    if v.Challenge? {
      ParkAlike(left, left', c, Parked(v.state, e.env.parkAt), Parked(v'.state, e.env.parkAt));
    }
  }

  lemma SessionStepAlike(s: Mon, s': Mon, e: Event, e': Event)
    requires Alike(s, s') && SameButFirstFactor(e, e')
    ensures e.req.Spawn? ==> SameOutcome(StepSpawn(s, e), StepSpawn(s', e'))
    ensures e.req.Reap? ==> SameOutcome(StepReap(s, e), StepReap(s', e'))
  {
  }

  lemma CloseAlike(s: Mon, s': Mon, e: Event, e': Event)
    requires Alike(s, s') && SameButFirstFactor(e, e') && e.req.Close?
    ensures SameOutcome(StepClose(s, e), StepClose(s', e'))
  {
    var c := e.req.conn;
    CloseState(s, e);
    CloseState(s', e');
    var s1 := s.(users := s.users - {c}, challenges := s.challenges - {c}, byConn := s.byConn - {c});
    ReapAllIgnoresChallenges(s1, s'.challenges - {c}, ListOf(s.byConn, c));
  }

  lemma StepAlike(reg: Registry, s: Mon, s': Mon, e: Event, e': Event)
    requires PasswordsNeedTotp(reg)
    requires Alike(s, s') && SameButFirstFactor(e, e')
    requires !PasswordAllow(reg, s, e) && !PasswordAllow(reg, s', e')
    ensures SameOutcome(Step(reg, s, e), Step(reg, s', e'))
  {
    match e.req
    case Login(_, _, _) => LoginStepAlike(reg, s, s', e, e');
    case Close(_) => CloseAlike(s, s', e, e');
    case Signal(_) =>
    case _ => SessionStepAlike(s, s', e, e');
  }

  lemma {:induction false} ReapAllIgnoresChallenges(s: Mon, challenges: map<nat, Parked>, ids: seq<nat>)
    ensures ReapAll(s.(challenges := challenges), ids).1 == ReapAll(s, ids).1
    decreases |ids|
  {
    if ids != [] {
      var init := ids[..|ids| - 1];
      ReapAllIgnoresChallenges(s, challenges, init);
      ReapAllState(s, init);
      ReapAllState(s.(challenges := challenges), init);
    }
  }

  /** Event by event, the two runs get the same requests in the same surroundings. */
  ghost predicate SameRequests(evs: seq<Event>, evs': seq<Event>) {
    |evs| == |evs'| && forall k :: 0 <= k < |evs| ==> SameButFirstFactor(evs[k], evs'[k])
  }

  /** No event of the run allowed a password login. */
  ghost predicate NoPasswordAllow(reg: Registry, evs: seq<Event>) {
    evs == [] ||
    (NoPasswordAllow(reg, evs[..|evs| - 1]) && !PasswordAllow(reg, After(reg, evs[..|evs| - 1]), evs[|evs| - 1]))
  }

  /** As long as neither run allows a password login, both give the same reply to
      every request, spawn and reap the same sessions, and end in states equal but
      for the pending users of parked challenges. */
  lemma {:induction false} FirstFactorIsHidden(reg: Registry, evs: seq<Event>, evs': seq<Event>)
    requires PasswordsNeedTotp(reg) && SameRequests(evs, evs')
    requires NoPasswordAllow(reg, evs) && NoPasswordAllow(reg, evs')
    ensures Replies(reg, evs) == Replies(reg, evs')
    ensures Log(reg, evs) == Log(reg, evs')
    ensures Alike(After(reg, evs), After(reg, evs'))
    decreases |evs|
  {
    if evs != [] {
      var n := |evs| - 1;
      var init, init' := evs[..n], evs'[..n];
      FirstFactorIsHidden(reg, init, init');
      StepAlike(reg, After(reg, init), After(reg, init'), evs[n], evs'[n]);
    }
  }
}
