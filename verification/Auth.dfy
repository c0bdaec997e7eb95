// The authentication registry: credentials, the operator policy, and the
// TOTP backend that turns a first factor into a two-round exchange.
module Auth {
  import opened Base
  import Text
  import Totp

  datatype Credentials =
    | Password(username: string, password: string)
    | SignedToken(token: string)
    | Jwt(jwt: string)

  datatype Prompt = Prompt(message: string, echo: bool)

  datatype ChallengeState = ChallengeState(token: string, pendingUser: Option<string>)

  datatype ChallengeResponse = ChallengeResponse(state: ChallengeState, responses: seq<string>)

  datatype Verdict =
    | Allow(user: string)
    | Challenge(state: ChallengeState, prompts: seq<Prompt>)
    | Deny

  datatype UserPolicy = UserPolicy(allowUsers: seq<string>, denyUsers: seq<string>) {
    predicate Permits(user: string) {
      if user in denyUsers then false else allowUsers == [] || user in allowUsers
    }
  }

  /** The compiled-in authentication methods. `TotpBackend` wraps the password
      method as its first factor. */
  datatype Backend = PubkeyBackend | PamBackend | TotpBackend | OidcBackend {
    predicate Supports(creds: Credentials) {
      match this
      case PubkeyBackend => creds.SignedToken?
      case PamBackend => creds.Password?
      case TotpBackend => creds.Password?
      case OidcBackend => creds.Jwt?
    }
  }

  datatype Registry = Registry(backends: seq<Backend>, policy: UserPolicy, hmac: Totp.Hmac)

  /** What lies outside the registry during one attempt: the answers of the
      library-backed methods, the enrolled secrets, a fresh token, the clock. */
  datatype World = World(
    pubkeyUser: Option<string>,
    firstFactor: Verdict,
    oidcUser: Option<string>,
    secrets: map<string, bytes>,
    freshToken: string,
    unixNow: nat)

  const U32_MAX: nat := 0xFFFF_FFFF

  const TOTP_PROMPT := Prompt("TOTP code: ", false)

  function OpenChallenge(pendingUser: Option<string>, w: World): Verdict {
    Challenge(ChallengeState(w.freshToken, pendingUser), [TOTP_PROMPT])
  }

  /** The HMAC key a pending user's code is checked under; a missing enrolment is
      the empty key. */
  function EffectiveKey(pendingUser: Option<string>, w: World): bytes {
    match pendingUser
    case Some(u) => if u in w.secrets then w.secrets[u] else []
    case None => []
  }

  predicate CodeOk(hmac: Totp.Hmac, key: bytes, responses: seq<string>, now: nat) {
    responses != []
    && match Text.ParseUnsigned(Text.Trim(responses[0]), U32_MAX)
       case Some(code) => Totp.VerifyAt(hmac, key, code, now)
       case None => false
  }

  function Complete(hmac: Totp.Hmac, resp: ChallengeResponse, w: World): Verdict {
    var key := EffectiveKey(resp.state.pendingUser, w);
    match (resp.state.pendingUser, CodeOk(hmac, key, resp.responses, w.unixNow))
    case (Some(user), true) => Allow(user)
    case _ => Deny
  }

  function AllowOrDeny(user: Option<string>): Verdict {
    match user
    case Some(u) => Allow(u)
    case None => Deny
  }

  function Authenticate(b: Backend, hmac: Totp.Hmac, answer: Option<ChallengeResponse>, w: World): Verdict {
    match b
    case PubkeyBackend => AllowOrDeny(w.pubkeyUser)
    case PamBackend => w.firstFactor
    case OidcBackend => AllowOrDeny(w.oidcUser)
    case TotpBackend =>
      match answer
      case Some(resp) => Complete(hmac, resp, w)
      case None =>
        OpenChallenge(match w.firstFactor case Allow(u) => Some(u) case _ => None, w)
  }

  /** The first backend that supports the credential answers; none means deny. */
  function Dispatch(reg: Registry, backends: seq<Backend>, creds: Credentials,
                    answer: Option<ChallengeResponse>, w: World): Verdict
  {
    if backends == [] then Deny
    else if backends[0].Supports(creds) then Authenticate(backends[0], reg.hmac, answer, w)
    else Dispatch(reg, backends[1..], creds, answer, w)
  }

  /** Whatever the backends say, an allowed user is not denied by name and is
      listed when there is a list. */
  function RegistryVerdict(reg: Registry, creds: Option<Credentials>,
                           answer: Option<ChallengeResponse>, w: World): (v: Verdict)
    ensures v.Allow? ==> v.user !in reg.policy.denyUsers
    ensures v.Allow? && reg.policy.allowUsers != [] ==> v.user in reg.policy.allowUsers
  {
    var v := match creds
      case Some(c) => Dispatch(reg, reg.backends, c, answer, w)
      case None => Deny;
    if v.Allow? && !reg.policy.Permits(v.user) then Deny else v
  }

  /** Passwords are answered by the TOTP backend and by no other. */
  predicate PasswordsNeedTotp(reg: Registry) {
    TotpBackend in reg.backends && PamBackend !in reg.backends
  }

  lemma {:induction false} DispatchPassword(reg: Registry, backends: seq<Backend>, creds: Credentials,
                                            answer: Option<ChallengeResponse>, w: World)
    requires creds.Password? && TotpBackend in backends && PamBackend !in backends
    ensures Dispatch(reg, backends, creds, answer, w) == Authenticate(TotpBackend, reg.hmac, answer, w)
  {
    if !backends[0].Supports(creds) {
      DispatchPassword(reg, backends[1..], creds, answer, w);
    }
  }

  lemma {:induction false} DispatchOther(reg: Registry, backends: seq<Backend>, creds: Credentials,
                                         answer: Option<ChallengeResponse>, w: World, w': World)
    requires !creds.Password?
    requires w'.pubkeyUser == w.pubkeyUser && w'.oidcUser == w.oidcUser
    ensures Dispatch(reg, backends, creds, answer, w) == Dispatch(reg, backends, creds, None, w')
    ensures !Dispatch(reg, backends, creds, answer, w).Challenge?
  {
    if backends != [] && !backends[0].Supports(creds) {
      DispatchOther(reg, backends[1..], creds, answer, w, w');
    }
  }

  /** Round one of a password login shows the same challenge whatever the first
      factor said; only the pending user, kept on the server, differs. */
  lemma RoundOneAlwaysChallenges(reg: Registry, creds: Credentials, w: World)
    requires creds.Password? && PasswordsNeedTotp(reg)
    ensures var v := RegistryVerdict(reg, Some(creds), None, w);
            && v.Challenge? && v.prompts == [TOTP_PROMPT] && v.state.token == w.freshToken
            && v.state.pendingUser == (if w.firstFactor.Allow? then Some(w.firstFactor.user) else None)
  {
    DispatchPassword(reg, reg.backends, creds, None, w);
  }

  /** Round two allows exactly a validated, permitted user with a code that
      verifies under that user's effective key; otherwise it denies. */
  lemma RoundTwoOutcome(reg: Registry, creds: Credentials, resp: ChallengeResponse, w: World)
    requires creds.Password? && PasswordsNeedTotp(reg)
    ensures var v := RegistryVerdict(reg, Some(creds), Some(resp), w);
            var u := resp.state.pendingUser;
            v == (if u.Some? && reg.policy.Permits(u.value)
                     && CodeOk(reg.hmac, EffectiveKey(u, w), resp.responses, w.unixNow)
                  then Allow(u.value) else Deny)
  {
    DispatchPassword(reg, reg.backends, creds, Some(resp), w);
  }

  /** The operator's lists let `u` in: not denied, and listed when there is a list. */
  ghost predicate Listed(p: UserPolicy, u: string) {
    u !in p.denyUsers && (p.allowUsers == [] || u in p.allowUsers)
  }

  /** The first answer, trimmed, is the decimal text of the code that `key` shows in this
      30 s step or a neighbouring one. */
  ghost predicate ShowsCode(hmac: Totp.Hmac, key: bytes, responses: seq<string>, now: nat) {
    && responses != []
    && exists t: nat :: -1 <= t / 30 - now / 30 <= 1
         && Text.ParseUnsigned(Text.Trim(responses[0]), U32_MAX) == Some(Totp.CodeAt(hmac, key, t))
  }

  lemma CodeOkExactly(hmac: Totp.Hmac, key: bytes, responses: seq<string>, now: nat)
    ensures CodeOk(hmac, key, responses, now) <==> ShowsCode(hmac, key, responses, now)
  {
    if responses != [] {
      var parsed := Text.ParseUnsigned(Text.Trim(responses[0]), U32_MAX);
      if parsed.Some? {
        Totp.VerifiesIffNeighbour(hmac, key, parsed.value, now);
      }
    }
  }

  /** Round two for a user with a secret: allowed exactly when the lists let the user in
      and the answer is a code of that secret, of this step or a neighbour. */
  lemma EnrolledOutcome(reg: Registry, creds: Credentials, resp: ChallengeResponse, w: World, u: string)
    requires creds.Password? && PasswordsNeedTotp(reg)
    requires resp.state.pendingUser == Some(u) && u in w.secrets
    ensures var v := RegistryVerdict(reg, Some(creds), Some(resp), w);
            v == (if Listed(reg.policy, u) && ShowsCode(reg.hmac, w.secrets[u], resp.responses, w.unixNow)
                  then Allow(u) else Deny)
  {
    RoundTwoOutcome(reg, creds, resp, w);
    CodeOkExactly(reg.hmac, w.secrets[u], resp.responses, w.unixNow);
  }

  /** A user without a secret is checked under the empty key: allowed exactly when the
      lists let the user in and the answer is a code of that key. */
  lemma UnenrolledOutcome(reg: Registry, creds: Credentials, resp: ChallengeResponse, w: World, u: string)
    requires creds.Password? && PasswordsNeedTotp(reg)
    requires resp.state.pendingUser == Some(u) && u !in w.secrets
    ensures var v := RegistryVerdict(reg, Some(creds), Some(resp), w);
            v == (if Listed(reg.policy, u) && ShowsCode(reg.hmac, [], resp.responses, w.unixNow)
                  then Allow(u) else Deny)
  {
    RoundTwoOutcome(reg, creds, resp, w);
    CodeOkExactly(reg.hmac, [], resp.responses, w.unixNow);
  }

  /** A user the first factor turned away is denied whatever the answer. */
  lemma BogusOutcome(reg: Registry, creds: Credentials, resp: ChallengeResponse, w: World)
    requires creds.Password? && PasswordsNeedTotp(reg) && resp.state.pendingUser == None
    ensures RegistryVerdict(reg, Some(creds), Some(resp), w) == Deny
  {
    RoundTwoOutcome(reg, creds, resp, w);
  }

  /** Typing the code that a key shows right now is accepted under that key. */
  lemma OwnCodeShows(hmac: Totp.Hmac, key: bytes, now: nat)
    ensures ShowsCode(hmac, key, [Text.PrintNat(Totp.CodeAt(hmac, key, now))], now)
  {
    var code := Totp.CodeAt(hmac, key, now);
    var text := Text.PrintNat(code);
    Text.ParsePrinted(code, U32_MAX);
    assert Text.IsDigit(text[0]) && Text.IsDigit(text[|text| - 1]);
    Text.TrimTrimmed(text);
    assert Text.ParseUnsigned(Text.Trim([text][0]), U32_MAX) == Some(Totp.CodeAt(hmac, key, now));
  }

  /** So an unenrolled, permitted user who passed the first factor is allowed on the
      code of the empty key, contrary to the comment that no code matches it. */
  lemma UnenrolledCanPass(reg: Registry, creds: Credentials, state: ChallengeState, w: World, u: string)
    requires creds.Password? && PasswordsNeedTotp(reg)
    requires state.pendingUser == Some(u) && u !in w.secrets && Listed(reg.policy, u)
    ensures var code := Totp.CodeAt(reg.hmac, [], w.unixNow);
            RegistryVerdict(reg, Some(creds), Some(ChallengeResponse(state, [Text.PrintNat(code)])), w) == Allow(u)
  {
    OwnCodeShows(reg.hmac, [], w.unixNow);
    UnenrolledOutcome(reg, creds,
                      ChallengeResponse(state, [Text.PrintNat(Totp.CodeAt(reg.hmac, [], w.unixNow))]), w, u);
  }

  // ---- the other credentials ----------------------------------------------

  /** What a user named by a backend gets. */
  ghost function Filtered(reg: Registry, user: Option<string>): Verdict {
    if user.Some? && Listed(reg.policy, user.value) then Allow(user.value) else Deny
  }

  lemma {:induction false} DispatchSole(reg: Registry, backends: seq<Backend>, creds: Credentials,
                                        answer: Option<ChallengeResponse>, w: World, b: Backend)
    requires forall x :: x in backends ==> (x.Supports(creds) <==> x == b)
    ensures Dispatch(reg, backends, creds, answer, w)
         == if b in backends then Authenticate(b, reg.hmac, answer, w) else Deny
  {
    if backends != [] {
      assert backends[0] in backends;
      if backends[0] != b {
        DispatchSole(reg, backends[1..], creds, answer, w, b);
      }
    }
  }

  /** A signed token is allowed as the user the public-key backend names, a JWT as the
      user the identity provider names, both only if the lists let that user in;
      without the backend, or without credentials, everyone is denied. */
  lemma TokenOutcome(reg: Registry, creds: Option<Credentials>, answer: Option<ChallengeResponse>, w: World)
    requires creds.Some? ==> !creds.value.Password?
    ensures RegistryVerdict(reg, creds, answer, w) ==
            match creds
            case Some(SignedToken(_)) => Filtered(reg, if PubkeyBackend in reg.backends then w.pubkeyUser else None)
            case Some(Jwt(_)) => Filtered(reg, if OidcBackend in reg.backends then w.oidcUser else None)
            case _ => Deny
  {
    if creds.Some? {
      var b := if creds.value.SignedToken? then PubkeyBackend else OidcBackend;
      DispatchSole(reg, reg.backends, creds.value, answer, w, b);
    }
  }

  /** Without the TOTP backend a password is allowed as the user the password backend
      names, if the lists let that user in. */
  lemma PlainPasswordOutcome(reg: Registry, creds: Credentials, answer: Option<ChallengeResponse>, w: World)
    requires creds.Password? && TotpBackend !in reg.backends && !w.firstFactor.Challenge?
    ensures RegistryVerdict(reg, Some(creds), answer, w)
         == Filtered(reg, if PamBackend in reg.backends && w.firstFactor.Allow? then Some(w.firstFactor.user) else None)
  {
    DispatchSole(reg, reg.backends, creds, answer, w, PamBackend);
  }
}
