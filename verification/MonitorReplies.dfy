// What the monitor answers, over every run: each reply in terms of the events before
// it, and what each answered request left behind.
module MonitorReplies {
  import opened Base
  import opened Auth
  import opened Monitor
  import opened MonitorRuns
  import opened MonitorLedger
  import opened MonitorHistory

  lemma AfterNext(reg: Registry, evs: seq<Event>, i: nat)
    requires i < |evs|
    ensures After(reg, evs[..i + 1]) == At(reg, evs, i).state
  {
    assert evs[..i + 1][..i] == evs[..i];
  }

  // ---- logins -------------------------------------------------------------

  /** Event `i` bound its connection to a user. */
  ghost predicate Binds(reg: Registry, evs: seq<Event>, i: nat)
    requires i < |evs| && evs[i].req.Login?
  {
    var c, users := evs[i].req.conn, After(reg, evs[..i + 1]).users;
    c in users && LastAllow(reg, evs[..i + 1], c, i, users[c])
  }

  /** Event `i` parked a challenge on its connection. */
  ghost predicate Parks(reg: Registry, evs: seq<Event>, i: nat)
    requires i < |evs| && evs[i].req.Login?
  {
    LastPark(reg, evs[..i + 1], evs[i].req.conn, i)
  }

  lemma BindsMeaning(reg: Registry, evs: seq<Event>, i: nat)
    requires i < |evs| && evs[i].req.Login?
    ensures Binds(reg, evs, i) <==> VerdictAt(reg, evs, i).Allow?
    ensures Parks(reg, evs, i) <==> VerdictAt(reg, evs, i).Challenge?
  {
    VerdictAtPrefix(reg, evs, i + 1, i);
    AfterNext(reg, evs, i);
  }

  /** Every login is answered by what it did: allowed exactly when it bound the
      connection, challenged exactly when it parked a challenge, with that challenge's
      token, denied exactly when it did neither. */
  lemma LoginReply(reg: Registry, evs: seq<Event>, i: nat)
    requires i < |evs| && evs[i].req.Login?
    ensures var c, r, after := evs[i].req.conn, At(reg, evs, i).reply, After(reg, evs[..i + 1]);
            && (r == Verdict(true) <==> Binds(reg, evs, i))
            && (r == Verdict(false) <==> !Binds(reg, evs, i) && !Parks(reg, evs, i))
            && (r.Challenged? <==> Parks(reg, evs, i))
            && (r.Challenged? ==> c in after.challenges && after.challenges[c].state.token == r.token)
  {
    BindsMeaning(reg, evs, i);
    AfterNext(reg, evs, i);
  }

  /** Event `i` answers, in time and with its token, the challenge that event `j` parked
      on the same connection and nothing touched since. */
  ghost predicate Resumes(reg: Registry, evs: seq<Event>, i: nat, j: nat)
    requires i < |evs| && evs[i].req.Login?
  {
    var e := evs[i];
    && j < i && LoginOn(evs[j], e.req.conn) && VerdictAt(reg, evs, j).Challenge?
    && (forall k :: j < k < i ==> !Touches(reg, evs, k, e.req.conn))
    && e.req.answer.Some? && e.req.answer.value.token == evs[j].env.auth.freshToken
    && e.env.takeAt - evs[j].env.parkAt <= CHALLENGE_TTL
  }

  lemma ResumedExactly(reg: Registry, evs: seq<Event>, i: nat)
    requires PasswordsNeedTotp(reg) && i < |evs| && evs[i].req.Login?
    ensures Resumed(After(reg, evs[..i]), evs[i].req.conn, evs[i].req.answer, evs[i].env.takeAt).Some?
       <==> exists j :: Resumes(reg, evs, i, j)
  {
    var c := evs[i].req.conn;
    ChallengeHistory(reg, evs[..i], c);
    if j: nat :| LastPark(reg, evs[..i], c, j) {
      LastParkBefore(reg, evs, i, j, c);
      ResumedHistory(reg, evs, i, j);
      assert Resumed(After(reg, evs[..i]), c, evs[i].req.answer, evs[i].env.takeAt).Some? ==> Resumes(reg, evs, i, j);
    }
    if j: nat :| Resumes(reg, evs, i, j) {
      LastParkBefore(reg, evs, i, j, c);
      ResumedHistory(reg, evs, i, j);
    }
  }

  /** The reply to a password, over every run: a login that resumes no challenge is
      challenged with the fresh token, whatever the first factor said; one that resumes
      a challenge is told yes exactly when some user passed the first factor for it, the
      lists let that user in and the answer is a code of that user's key. */
  lemma PasswordReply(reg: Registry, evs: seq<Event>, i: nat)
    requires PasswordsNeedTotp(reg) && i < |evs|
    requires evs[i].req.Login? && evs[i].req.creds.Some? && evs[i].req.creds.value.Password?
    ensures var e, r := evs[i], At(reg, evs, i).reply;
            if exists j :: Resumes(reg, evs, i, j)
            then r == Verdict(exists u, j :: Answers(reg, evs, i, j, u) && AnswersCode(reg, e, KeyOf(e, u)))
            else r == Challenged(e.env.auth.freshToken, [Prompt("TOTP code: ", false)])
  {
    var e, s := evs[i], After(reg, evs[..i]);
    var resumed := Resumed(s, e.req.conn, e.req.answer, e.env.takeAt);
    ResumedExactly(reg, evs, i);
    if resumed.None? {
      RoundOneAlwaysChallenges(reg, e.req.creds.value, e.env.auth);
    } else {
      RoundTwoOutcome(reg, e.req.creds.value, resumed.value, e.env.auth);
      AllowedBySome(reg, evs, i);
    }
  }

  lemma AllowedBySome(reg: Registry, evs: seq<Event>, i: nat)
    requires PasswordsNeedTotp(reg) && i < |evs|
    requires evs[i].req.Login? && evs[i].req.creds.Some? && evs[i].req.creds.value.Password?
    ensures VerdictAt(reg, evs, i).Allow?
       <==> exists u, j :: Answers(reg, evs, i, j, u) && AnswersCode(reg, evs[i], KeyOf(evs[i], u))
  {
    if VerdictAt(reg, evs, i).Allow? {
      var u := VerdictAt(reg, evs, i).user;
      SecondFactorHistory(reg, evs, i, u);
      var j :| Answers(reg, evs, i, j, u);
    }
    if u, j :| Answers(reg, evs, i, j, u) && AnswersCode(reg, evs[i], KeyOf(evs[i], u)) {
      SecondFactorHistory(reg, evs, i, u);
    }
  }

  /** The reply to a token or to no credentials. */
  lemma TokenReply(reg: Registry, evs: seq<Event>, i: nat)
    requires i < |evs| && evs[i].req.Login?
    requires evs[i].req.creds.Some? ==> !evs[i].req.creds.value.Password?
    ensures var w := evs[i].env.auth;
            At(reg, evs, i).reply == Verdict(
              match evs[i].req.creds
              case Some(SignedToken(_)) =>
                PubkeyBackend in reg.backends && w.pubkeyUser.Some? && Auth.Listed(reg.policy, w.pubkeyUser.value)
              case Some(Jwt(_)) =>
                OidcBackend in reg.backends && w.oidcUser.Some? && Auth.Listed(reg.policy, w.oidcUser.value)
              case _ => false)
  {
    var e := evs[i];
    TokenOutcome(reg, e.req.creds,
                 Resumed(After(reg, evs[..i]), e.req.conn, e.req.answer, e.env.takeAt), e.env.auth);
  }

  // ---- sessions -----------------------------------------------------------

  /** Session `id` is live after `evs`: it was handed out and not reaped since. */
  ghost predicate Live(reg: Registry, evs: seq<Event>, id: nat) {
    1 <= id <= |Forks(Log(reg, evs))| && Reaps(Log(reg, evs), id) == 0
  }

  lemma LiveMeaning(reg: Registry, evs: seq<Event>, id: nat)
    ensures Live(reg, evs, id) <==> id in After(reg, evs).sessions
  {
    EveryRunBalances(reg, evs);
    EveryRunFiles(reg, evs);
    assert Reaps(Log(reg, evs), id)
        == if 1 <= id <= After(reg, evs).nextSession && id !in After(reg, evs).sessions then 1 else 0;
  }

  /** A spawn succeeds exactly when the connection is bound and the fork succeeds; it
      gets the next number and runs as the bound user. Shells and commands, and nothing
      else, open a PAM session first, which a failed fork closes again. */
  lemma SpawnReply(reg: Registry, evs: seq<Event>, i: nat)
    requires i < |evs| && evs[i].req.Spawn?
    ensures var e, o, users := evs[i], At(reg, evs, i), After(reg, evs[..i]).users;
            var c, id := e.req.conn, |Forks(Log(reg, evs[..i]))| + 1;
            var pam := c in users && (e.req.kind == Shell || e.req.kind == Exec) && e.env.pamOpens;
            && o.reply == (if c in users && e.env.forks then Spawned(id) else Failed)
            && o.effects == (if pam then [PamOpened] else [])
                 + (if c !in users then [] else if e.env.forks then [Forked(id, c, users[c])]
                    else if pam then [PamClosed] else [])
  {
    EveryRunFiles(reg, evs[..i]);
  }

  /** A reap of a live session returns that child's exit code; any other fails. */
  lemma ReapReply(reg: Registry, evs: seq<Event>, i: nat)
    requires i < |evs| && evs[i].req.Reap?
    ensures At(reg, evs, i).reply
         == if Live(reg, evs[..i], evs[i].req.session) then Exited(evs[i].env.exitCode) else Failed
  {
    LiveMeaning(reg, evs[..i], evs[i].req.session);
  }

  /** A signal reaches exactly a live session and changes nothing; signals and closes
      are always acknowledged. */
  lemma SignalReply(reg: Registry, evs: seq<Event>, i: nat)
    requires i < |evs| && (evs[i].req.Signal? || evs[i].req.Close?)
    ensures At(reg, evs, i).reply == Closed
    ensures evs[i].req.Signal? ==>
              && At(reg, evs, i).state == After(reg, evs[..i])
              && At(reg, evs, i).effects
                   == if Live(reg, evs[..i], evs[i].req.session) then [Signalled(evs[i].req.session)] else []
  {
    if evs[i].req.Signal? {
      LiveMeaning(reg, evs[..i], evs[i].req.session);
    }
  }

  /** Every held PAM session belongs to the user its session runs as. */
  ghost predicate GuardsMatch(s: Mon) {
    forall id :: id in s.pam ==> id in s.sessions && s.pam[id].user == s.sessions[id].user
  }

  lemma SpawnGuards(s: Mon, e: Event)
    requires e.req.Spawn? && GuardsMatch(s) && s.nextSession + 1 !in s.sessions
    ensures GuardsMatch(StepSpawn(s, e).state)
  {
  }

  lemma StepGuards(reg: Registry, s: Mon, e: Event)
    requires GuardsMatch(s) && s.nextSession + 1 !in s.sessions
    ensures GuardsMatch(Step(reg, s, e).state)
  {
    match e.req
    case Login(_, _, _) =>
    case Spawn(_, _) => SpawnGuards(s, e);
    case Reap(_) =>
    case Close(_) => CloseState(s, e);
    case Signal(_) =>
  }

  lemma {:induction false} EveryRunGuards(reg: Registry, evs: seq<Event>)
    ensures GuardsMatch(After(reg, evs))
  {
    if evs != [] {
      var init := evs[..|evs| - 1];
      var s := After(reg, init);
      EveryRunGuards(reg, init);
      assert s.nextSession + 1 !in s.sessions by { EveryRunBalances(reg, init); }
      StepGuards(reg, s, evs[|evs| - 1]);
    }
  }
}
