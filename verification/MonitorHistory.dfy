// What the monitor's state says about its past: which earlier events a parked
// challenge, a bound identity, a password login and a spawned session come from.
module MonitorHistory {
  import opened Base
  import opened Auth
  import opened Monitor
  import opened MonitorRuns
  import opened MonitorLedger

  ghost predicate LoginOn(e: Event, c: nat) { e.req.Login? && e.req.conn == c }

  ghost function VerdictAt(reg: Registry, evs: seq<Event>, i: nat): Auth.Verdict
    requires i < |evs| && evs[i].req.Login?
  {
    LoginVerdict(reg, After(reg, evs[..i]), evs[i])
  }

  lemma VerdictAtPrefix(reg: Registry, evs: seq<Event>, n: nat, i: nat)
    requires i < n <= |evs| && evs[i].req.Login?
    ensures VerdictAt(reg, evs[..n], i) == VerdictAt(reg, evs, i)
  {
    assert evs[..n][..i] == evs[..i];
  }

  // ---- challenges ---------------------------------------------------------

  /** Event `k` takes, replaces or clears whatever is parked on `c`. */
  ghost predicate Touches(reg: Registry, evs: seq<Event>, k: nat, c: nat)
    requires k < |evs|
  {
    || evs[k].req == Close(c)
    || (LoginOn(evs[k], c) && (evs[k].req.answer.Some? || VerdictAt(reg, evs, k).Challenge?))
  }

  /** Event `j` parked a challenge on `c` and nothing has touched it since. */
  ghost predicate LastPark(reg: Registry, evs: seq<Event>, c: nat, j: nat) {
    && j < |evs| && LoginOn(evs[j], c) && VerdictAt(reg, evs, j).Challenge?
    && forall k :: j < k < |evs| ==> !Touches(reg, evs, k, c)
  }

  ghost function ParkedBy(reg: Registry, evs: seq<Event>, j: nat): Parked
    requires j < |evs| && evs[j].req.Login? && VerdictAt(reg, evs, j).Challenge?
  {
    Parked(VerdictAt(reg, evs, j).state, evs[j].env.parkAt)
  }

  lemma LastParkExtends(reg: Registry, evs: seq<Event>, c: nat, j: nat)
    requires evs != []
    ensures var n := |evs| - 1;
            LastPark(reg, evs, c, j) <==>
              || (j == n && LoginOn(evs[n], c) && VerdictAt(reg, evs, n).Challenge?)
              || (j < n && LastPark(reg, evs[..n], c, j) && !Touches(reg, evs, n, c))
  {
    var n := |evs| - 1;
    var init := evs[..n];
    forall k | 0 <= k < n ensures Touches(reg, init, k, c) == Touches(reg, evs, k, c) {
      if evs[k].req.Login? { VerdictAtPrefix(reg, evs, n, k); }
    }
    if j < n && evs[j].req.Login? { VerdictAtPrefix(reg, evs, n, j); }
  }

  lemma StepChallenges(reg: Registry, s: Mon, e: Event, c: nat)
    ensures var after := Step(reg, s, e).state.challenges;
            if LoginOn(e, c) && LoginVerdict(reg, s, e).Challenge?
            then c in after && after[c] == Parked(LoginVerdict(reg, s, e).state, e.env.parkAt)
            else if e.req == Close(c) || (LoginOn(e, c) && e.req.answer.Some?)
            then c !in after
            else (c in after <==> c in s.challenges) && (c in after ==> after[c] == s.challenges[c])
  {
    if e.req.Close? {
      CloseState(s, e);
    }
  }

  /** A challenge is parked on `c` exactly when some event parked it there and
      nothing touched it since, and it is the one that event parked. */
  lemma {:induction false} ChallengeHistory(reg: Registry, evs: seq<Event>, c: nat)
    ensures c in After(reg, evs).challenges <==> exists j :: LastPark(reg, evs, c, j)
    ensures forall j :: LastPark(reg, evs, c, j) && c in After(reg, evs).challenges
              ==> After(reg, evs).challenges[c] == ParkedBy(reg, evs, j)
  {
    if evs != [] {
      var n := |evs| - 1;
      var init := evs[..n];
      ChallengeHistory(reg, init, c);
      StepChallenges(reg, After(reg, init), evs[n], c);
      forall j: nat ensures LastPark(reg, evs, c, j) <==>
          || (j == n && LoginOn(evs[n], c) && VerdictAt(reg, evs, n).Challenge?)
          || (j < n && LastPark(reg, init, c, j) && !Touches(reg, evs, n, c))
      {
        LastParkExtends(reg, evs, c, j);
      }
      forall j: nat | j < n && evs[j].req.Login? ensures VerdictAt(reg, init, j) == VerdictAt(reg, evs, j) {
        VerdictAtPrefix(reg, evs, n, j);
      }
      if c in After(reg, evs).challenges {
        if LoginOn(evs[n], c) && VerdictAt(reg, evs, n).Challenge? {
          assert LastPark(reg, evs, c, n);
        } else {
          var j :| LastPark(reg, init, c, j);
          assert LastPark(reg, evs, c, j);
        }
      }
    }
  }

  /** Only the first round of a password login parks a challenge. */
  lemma ChallengeIsRoundOne(reg: Registry, s: Mon, e: Event)
    requires PasswordsNeedTotp(reg) && e.req.Login? && LoginVerdict(reg, s, e).Challenge?
    ensures e.req.creds.Some? && e.req.creds.value.Password?
    ensures LoginVerdict(reg, s, e).state == ChallengeState(
              e.env.auth.freshToken,
              if e.env.auth.firstFactor.Allow? then Some(e.env.auth.firstFactor.user) else None)
  {
    var resumed := Resumed(s, e.req.conn, e.req.answer, e.env.takeAt);
    if e.req.creds.Some? {
      var creds := e.req.creds.value;
      if creds.Password? {
        match resumed
        case None => RoundOneAlwaysChallenges(reg, creds, e.env.auth);
        case Some(r) => RoundTwoOutcome(reg, creds, r, e.env.auth);
      } else {
        DispatchOther(reg, reg.backends, creds, resumed, e.env.auth, e.env.auth);
      }
    }
  }

  /** Event `i` answers the challenge that event `j` parked on the same connection:
      the first factor had validated `u`, the challenge was untouched in between
      and is not over age, the token is echoed, and the policy permits `u`. */
  ghost predicate Answers(reg: Registry, evs: seq<Event>, i: nat, j: nat, u: string)
    requires i < |evs| && evs[i].req.Login?
  {
    var e := evs[i];
    && j < i && LoginOn(evs[j], e.req.conn)
    && VerdictAt(reg, evs, j).Challenge? && evs[j].env.auth.firstFactor == Allow(u)
    && (forall k :: j < k < i ==> !Touches(reg, evs, k, e.req.conn))
    && e.req.answer.Some? && e.req.answer.value.token == evs[j].env.auth.freshToken
    && e.env.takeAt - evs[j].env.parkAt <= CHALLENGE_TTL
    && Auth.Listed(reg.policy, u)
  }

  /** It answers the challenge with a code that verifies under `u`'s effective key. */
  ghost predicate Completes(reg: Registry, evs: seq<Event>, i: nat, j: nat, u: string)
    requires i < |evs| && evs[i].req.Login?
  {
    var e := evs[i];
    && Answers(reg, evs, i, j, u)
    && CodeOk(reg.hmac, EffectiveKey(Some(u), e.env.auth), e.req.answer.value.responses, e.env.auth.unixNow)
  }

  lemma LastParkBefore(reg: Registry, evs: seq<Event>, i: nat, j: nat, c: nat)
    requires i < |evs|
    ensures LastPark(reg, evs[..i], c, j) <==>
              j < i && LoginOn(evs[j], c) && VerdictAt(reg, evs, j).Challenge?
              && forall k :: j < k < i ==> !Touches(reg, evs, k, c)
  {
    forall k | 0 <= k < i ensures Touches(reg, evs[..i], k, c) == Touches(reg, evs, k, c) {
      if evs[k].req.Login? { VerdictAtPrefix(reg, evs, i, k); }
    }
    if j < i && evs[j].req.Login? { VerdictAtPrefix(reg, evs, i, j); }
  }

  /** What a resumed answer amounts to, in terms of the past. */
  lemma ResumedHistory(reg: Registry, evs: seq<Event>, i: nat, j: nat)
    requires PasswordsNeedTotp(reg) && i < |evs| && evs[i].req.Login?
    requires LastPark(reg, evs[..i], evs[i].req.conn, j)
    ensures j < i && evs[j].req.Login? && VerdictAt(reg, evs, j).Challenge?
    ensures var e := evs[i];
            var st := VerdictAt(reg, evs, j).state;
            && st == ChallengeState(evs[j].env.auth.freshToken,
                 if evs[j].env.auth.firstFactor.Allow? then Some(evs[j].env.auth.firstFactor.user) else None)
            && Resumed(After(reg, evs[..i]), e.req.conn, e.req.answer, e.env.takeAt) ==
                 if e.req.answer.Some? && e.env.takeAt - evs[j].env.parkAt <= CHALLENGE_TTL
                    && e.req.answer.value.token == st.token
                 then Some(ChallengeResponse(st, e.req.answer.value.responses)) else None
  {
    var c := evs[i].req.conn;
    ChallengeHistory(reg, evs[..i], c);
    LastParkBefore(reg, evs, i, j, c);
    VerdictAtPrefix(reg, evs, i, j);
    ChallengeIsRoundOne(reg, After(reg, evs[..j]), evs[j]);
  }

  /** A password login is allowed as `u` exactly when it completes, in the sense
      above, a challenge parked earlier in the same run. */
  lemma PasswordAllowHistory(reg: Registry, evs: seq<Event>, i: nat, u: string)
    requires PasswordsNeedTotp(reg) && i < |evs|
    requires evs[i].req.Login? && evs[i].req.creds.Some? && evs[i].req.creds.value.Password?
    ensures VerdictAt(reg, evs, i) == Allow(u) <==> exists j :: Completes(reg, evs, i, j, u)
  {
    var e := evs[i];
    var c := e.req.conn;
    var s := After(reg, evs[..i]);
    ChallengeHistory(reg, evs[..i], c);
    if j :| Completes(reg, evs, i, j, u) {
      LastParkBefore(reg, evs, i, j, c);
      ResumedHistory(reg, evs, i, j);
      RoundTwoOutcome(reg, e.req.creds.value, Resumed(s, c, e.req.answer, e.env.takeAt).value, e.env.auth);
    }
    if VerdictAt(reg, evs, i) == Allow(u) {
      var resumed := Resumed(s, c, e.req.answer, e.env.takeAt);
      if resumed.None? {
        RoundOneAlwaysChallenges(reg, e.req.creds.value, e.env.auth);
      }
      var j :| LastPark(reg, evs[..i], c, j);
      LastParkBefore(reg, evs, i, j, c);
      ResumedHistory(reg, evs, i, j);
      RoundTwoOutcome(reg, e.req.creds.value, resumed.value, e.env.auth);
      assert Completes(reg, evs, i, j, u);
    }
  }

  /** The key of `u` at that event: the enrolled secret, or the empty key without one. */
  ghost function KeyOf(e: Event, u: string): bytes {
    if u in e.env.auth.secrets then e.env.auth.secrets[u] else []
  }

  /** The answer of a login event is a code that `key` shows in this 30 s step or a
      neighbouring one. */
  ghost predicate AnswersCode(reg: Registry, e: Event, key: bytes)
    requires e.req.Login?
  {
    e.req.answer.Some? && ShowsCode(reg.hmac, key, e.req.answer.value.responses, e.env.auth.unixNow)
  }

  /** In every run: a password login is allowed as `u` exactly when it answers a live
      challenge that `u` passed the first factor for, with a code of `u`'s own secret,
      or of the empty key when `u` has none. */
  lemma SecondFactorHistory(reg: Registry, evs: seq<Event>, i: nat, u: string)
    requires PasswordsNeedTotp(reg) && i < |evs|
    requires evs[i].req.Login? && evs[i].req.creds.Some? && evs[i].req.creds.value.Password?
    ensures VerdictAt(reg, evs, i) == Allow(u)
       <==> (exists j :: Answers(reg, evs, i, j, u)) && AnswersCode(reg, evs[i], KeyOf(evs[i], u))
  {
    PasswordAllowHistory(reg, evs, i, u);
    var e := evs[i];
    if e.req.answer.Some? {
      CodeOkExactly(reg.hmac, KeyOf(e, u), e.req.answer.value.responses, e.env.auth.unixNow);
    }
    forall j: nat
      ensures Completes(reg, evs, i, j, u) <==> Answers(reg, evs, i, j, u) && AnswersCode(reg, e, KeyOf(e, u))
    {
    }
    if (exists j :: Answers(reg, evs, i, j, u)) && AnswersCode(reg, e, KeyOf(e, u)) {
      var j :| Answers(reg, evs, i, j, u);
      assert Completes(reg, evs, i, j, u);
    }
  }

  /** A parked challenge is completed at most once. */
  lemma ChallengeCompletesOnce(reg: Registry, evs: seq<Event>, i: nat, i': nat, j: nat, u: string, u': string)
    requires i < |evs| && evs[i].req.Login? && Completes(reg, evs, i, j, u)
    requires i' < |evs| && evs[i'].req.Login? && Completes(reg, evs, i', j, u')
    ensures i == i' && u == u'
  {
    var c := evs[j].req.conn;
    if i < i' {
      assert Touches(reg, evs, i, c);
    } else if i' < i {
      assert Touches(reg, evs, i', c);
    }
  }

  // ---- identities ---------------------------------------------------------

  /** Event `k` changes the identity bound to `c`. */
  ghost predicate Rebinds(reg: Registry, evs: seq<Event>, k: nat, c: nat)
    requires k < |evs|
  {
    evs[k].req == Close(c) || (LoginOn(evs[k], c) && VerdictAt(reg, evs, k).Allow?)
  }

  /** Event `j` is the latest allow on `c`, for `u`, and `c` was not closed since. */
  ghost predicate LastAllow(reg: Registry, evs: seq<Event>, c: nat, j: nat, u: string) {
    && j < |evs| && LoginOn(evs[j], c) && VerdictAt(reg, evs, j) == Allow(u)
    && forall k :: j < k < |evs| ==> !Rebinds(reg, evs, k, c)
  }

  lemma LastAllowExtends(reg: Registry, evs: seq<Event>, c: nat, j: nat, u: string)
    requires evs != []
    ensures var n := |evs| - 1;
            LastAllow(reg, evs, c, j, u) <==>
              || (j == n && LoginOn(evs[n], c) && VerdictAt(reg, evs, n) == Allow(u))
              || (j < n && LastAllow(reg, evs[..n], c, j, u) && !Rebinds(reg, evs, n, c))
  {
    var n := |evs| - 1;
    var init := evs[..n];
    forall k | 0 <= k < n ensures Rebinds(reg, init, k, c) == Rebinds(reg, evs, k, c) {
      if evs[k].req.Login? { VerdictAtPrefix(reg, evs, n, k); }
    }
    if j < n && evs[j].req.Login? { VerdictAtPrefix(reg, evs, n, j); }
  }

  lemma StepUsers(reg: Registry, s: Mon, e: Event, c: nat)
    ensures var after := Step(reg, s, e).state.users;
            if LoginOn(e, c) && LoginVerdict(reg, s, e).Allow?
            then c in after && after[c] == LoginVerdict(reg, s, e).user
            else if e.req == Close(c) then c !in after
            else (c in after <==> c in s.users) && (c in after ==> after[c] == s.users[c])
  {
    if e.req.Close? {
      CloseState(s, e);
    }
  }

  /** The identity bound to `c` is that of the latest allow on `c` since its last
      close, whatever denials and challenges came between. */
  lemma {:induction false} IdentityHistory(reg: Registry, evs: seq<Event>, c: nat, u: string)
    ensures c in After(reg, evs).users && After(reg, evs).users[c] == u
       <==> exists j :: LastAllow(reg, evs, c, j, u)
  {
    if evs != [] {
      var n := |evs| - 1;
      var init := evs[..n];
      IdentityHistory(reg, init, c, u);
      StepUsers(reg, After(reg, init), evs[n], c);
      forall j: nat ensures LastAllow(reg, evs, c, j, u) <==>
          || (j == n && LoginOn(evs[n], c) && VerdictAt(reg, evs, n) == Allow(u))
          || (j < n && LastAllow(reg, init, c, j, u) && !Rebinds(reg, evs, n, c))
      {
        LastAllowExtends(reg, evs, c, j, u);
      }
      if c in After(reg, evs).users && After(reg, evs).users[c] == u {
        if LoginOn(evs[n], c) && VerdictAt(reg, evs, n).Allow? {
          assert LastAllow(reg, evs, c, n, u);
        } else {
          var j :| LastAllow(reg, init, c, j, u);
          assert LastAllow(reg, evs, c, j, u);
        }
      }
    }
  }

  /** The session `f` was spawned at event `i`, as the user of the latest allow. */
  ghost predicate SpawnedAt(reg: Registry, evs: seq<Event>, f: Effect, i: nat, j: nat) {
    && f.Forked? && i < |evs| && evs[i].req.Spawn? && evs[i].req.conn == f.conn
    && At(reg, evs, i).reply == Spawned(f.session)
    && LastAllow(reg, evs[..i], f.conn, j, f.user)
  }

  lemma SpawnedAtExtends(reg: Registry, evs: seq<Event>, n: nat, f: Effect, i: nat, j: nat)
    requires n <= |evs| && SpawnedAt(reg, evs[..n], f, i, j)
    ensures SpawnedAt(reg, evs, f, i, j)
  {
    AtPrefix(reg, evs, n, i);
    assert evs[..n][..i] == evs[..i];
  }

  lemma SpawnedNow(reg: Registry, evs: seq<Event>, n: nat, f: Effect)
    requires n < |evs|
    requires f in Forks(At(reg, evs, n).effects)
    ensures exists j: nat :: SpawnedAt(reg, evs, f, n, j)
  {
    StepForks(reg, After(reg, evs[..n]), evs[n]);
    IdentityHistory(reg, evs[..n], f.conn, f.user);
    var j :| LastAllow(reg, evs[..n], f.conn, j, f.user);
    assert SpawnedAt(reg, evs, f, n, j);
  }

  /** Every session ever spawned runs as the user of the most recent allow on its
      connection since the last close, and that user satisfies the policy. */
  lemma {:induction false} SessionsRunAsLastAllowed(reg: Registry, evs: seq<Event>, f: Effect)
    requires f in Forks(Log(reg, evs))
    ensures exists i: nat, j: nat :: SpawnedAt(reg, evs, f, i, j)
    ensures f.Forked? && f.user !in reg.policy.denyUsers
    ensures reg.policy.allowUsers == [] || f.user in reg.policy.allowUsers
  {
    var n := |evs| - 1;
    ForksAppend(Log(reg, evs[..n]), At(reg, evs, n).effects);
    if f in Forks(Log(reg, evs[..n])) {
      SessionsRunAsLastAllowed(reg, evs[..n], f);
      var i: nat, j: nat :| SpawnedAt(reg, evs[..n], f, i, j);
      SpawnedAtExtends(reg, evs, n, f, i, j);
    } else {
      SpawnedNow(reg, evs, n, f);
    }
  }
}
