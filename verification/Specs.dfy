// The client's command-line specs: forward tokens and connection targets
// (quish-client/src/main.rs) and copy endpoints (quish-client/src/cp.rs).
module Specs {
  import opened Base
  import opened Text

  datatype SpecError =
    | MissingClose
    | TextAfterBracket
    | InvalidPort
    | MissingHost
    | EmptyHost
    | ExpectedColon

  predicate StartsWith(s: string, c: char) { s != "" && s[0] == c }

  /** `split_once`: the text around the first `c`. */
  function SplitOnce(s: string, c: char): (r: Option<(string, string)>)
    ensures r.None? <==> c !in s
    ensures r.Some? ==> c !in r.value.0 && |r.value.1| < |s|
  {
    var k := Find(s, c);
    if k == |s| then None else Some((s[..k], s[k + 1..]))
  }

  /** Splitting at the first `c` undoes joining with `c`. */
  lemma SplitOnceIs(a: string, c: char, b: string)
    requires c !in a
    ensures SplitOnce(a + [c] + b, c) == Some((a, b))
  {
    var s := a + [c] + b;
    assert s[..|a|] == a;
    FindAt(s, c, |a|);
  }

  /** The text after an opening bracket, split at the closing one. */
  function Unbracket(s: string): (r: Option<(string, string)>)
    requires StartsWith(s, '[')
    ensures r.Some? ==> ']' !in r.value.0 && |r.value.1| < |s|
  {
    SplitOnce(s[1..], ']')
  }

  lemma UnbracketIs(inner: string, after: string)
    requires ']' !in inner
    ensures Unbracket(['['] + inner + [']'] + after) == Some((inner, after))
  {
    assert (['['] + inner + [']'] + after)[1..] == inner + [']'] + after;
    SplitOnceIs(inner, ']', after);
  }

  lemma ColonAssociates(before: string, more: string)
    ensures before + [':'] + more == before + ([':'] + more)
    ensures ([':'] + more)[1..] == more
  {
  }

  lemma UnbracketColon(inner: string, more: string)
    requires ']' !in inner
    ensures Unbracket(['['] + inner + [']'] + [':'] + more) == Some((inner, [':'] + more))
    ensures ([':'] + more)[1..] == more
  {
    ColonAssociates(['['] + inner + [']'], more);
    UnbracketIs(inner, [':'] + more);
  }

  /** The first occurrence in a concatenation. */
  lemma FindExtend(a: string, b: string, c: char)
    ensures Find(a + b, c) == if c in a then Find(a, c) else |a| + Find(b, c)
  {
    var k := Find(a + b, c);
    if c in a {
      var j := Find(a, c);
      assert (a + b)[..j] == a[..j];
      FindAt(a + b, c, j);
    } else if c in b {
      var j := Find(b, c);
      assert (a + b)[..|a| + j] == a + b[..j];
      FindAt(a + b, c, |a| + j);
    }
  }

  // ---- forward tokens -----------------------------------------------------

  function Cons(t: string, r: Result<seq<string>, SpecError>): Result<seq<string>, SpecError> {
    match r
    case Ok(ts) => Ok([t] + ts)
    case Err(e) => Err(e)
  }

  function Prepend(ts: seq<string>, r: Result<seq<string>, SpecError>): Result<seq<string>, SpecError> {
    match r
    case Ok(more) => Ok(ts + more)
    case Err(e) => Err(e)
  }

  datatype Cut = Last(token: string) | More(token: string, rest: string) | Bad(error: SpecError)

  /** The first token: in brackets it may hold colons, else it ends at one. */
  function CutToken(s: string): (c: Cut)
    ensures c.More? ==> |c.rest| < |s|
  {
    if StartsWith(s, '[') then
      match Unbracket(s)
      case None => Bad(MissingClose)
      case Some((token, after)) =>
        if after == "" then Last(token)
        else if after[0] == ':' then More(token, after[1..])
        else Bad(TextAfterBracket)
    else
      match SplitOnce(s, ':')
      case None => Last(s)
      case Some((token, rest)) => More(token, rest)
  }

  function Split(s: string): Result<seq<string>, SpecError>
    decreases |s|
  {
    match CutToken(s)
    case Last(token) => Ok([token])
    case More(token, rest) => Cons(token, Split(rest))
    case Bad(e) => Err(e)
  }

  lemma PrependCons(ts: seq<string>, t: string, r: Result<seq<string>, SpecError>)
    ensures Prepend(ts + [t], r) == Prepend(ts, Cons(t, r))
  {
    if r.Ok? {
      assert ts + [t] + r.value == ts + ([t] + r.value);
    }
  }

  /** The loop: cut a token off `rest` until nothing follows it. */
  method SplitForwardTokens(s: string) returns (r: Result<seq<string>, SpecError>)
    ensures r == Split(s)
  {
    var tokens: seq<string> := [];
    var rest := s;
    assert Split(s).Ok? ==> tokens + Split(s).value == Split(s).value;
    while true
      invariant Prepend(tokens, Split(rest)) == Split(s)
      decreases |rest|
    {
      match CutToken(rest)
      case Last(token) =>
        return Ok(tokens + [token]);
      case More(token, more) =>
        PrependCons(tokens, token, Split(more));
        tokens := tokens + [token];
        rest := more;
      case Bad(e) =>
        return Err(e);
    }
  }

  /** A token that has to be written in brackets. */
  predicate NeedsBrackets(t: string) { ':' in t || StartsWith(t, '[') }

  predicate Representable(t: string) { NeedsBrackets(t) ==> ']' !in t }

  function Quote(t: string): string {
    if NeedsBrackets(t) then ['['] + t + [']'] else t
  }

  function JoinTokens(ts: seq<string>): string {
    if ts == [] then "" else if |ts| == 1 then Quote(ts[0]) else Quote(ts[0]) + [':'] + JoinTokens(ts[1..])
  }

  lemma SplitQuotedLast(t: string)
    requires Representable(t)
    ensures Split(Quote(t)) == Ok([t])
  {
    if NeedsBrackets(t) {
      UnbracketIs(t, "");
      assert Quote(t) == ['['] + t + [']'] + "";
    }
  }

  lemma SplitQuoted(t: string, more: string)
    requires Representable(t)
    ensures Split(Quote(t) + [':'] + more) == Cons(t, Split(more))
  {
    if NeedsBrackets(t) {
      UnbracketColon(t, more);
    } else {
      SplitOnceIs(t, ':', more);
    }
  }

  lemma {:induction false} SplitJoined(ts: seq<string>)
    requires ts != [] && forall t :: t in ts ==> Representable(t)
    ensures Split(JoinTokens(ts)) == Ok(ts)
  {
    if |ts| == 1 {
      SplitQuotedLast(ts[0]);
      assert ts == [ts[0]];
    } else {
      SplitQuoted(ts[0], JoinTokens(ts[1..]));
      SplitJoined(ts[1..]);
      assert ts == [ts[0]] + ts[1..];
    }
  }

  lemma CutRange(s: string)
    ensures !CutToken(s).Bad? ==> Representable(CutToken(s).token)
  {
    if !StartsWith(s, '[') && ':' in s {
      var token := SplitOnce(s, ':').value.0;
      assert StartsWith(token, '[') ==> StartsWith(s, '[');
    }
  }

  /** Whatever is split, the tokens are never empty as a list and never need a
      bracket they contain: no other token list can come out of any text. */
  lemma {:induction false} SplitRange(s: string)
    ensures Split(s).Ok? ==> Split(s).value != [] && forall t :: t in Split(s).value ==> Representable(t)
    decreases |s|
  {
    CutRange(s);
    match CutToken(s)
    case Last(_) =>
    case More(_, rest) => SplitRange(rest);
    case Bad(_) =>
  }

  function Wrapped(t: string, bracketed: bool): string {
    if bracketed then ['['] + t + [']'] else t
  }

  /** The tokens joined with colons, each with or without brackets. */
  function Render(ts: seq<string>, brackets: seq<bool>): string
    requires |ts| == |brackets|
  {
    if ts == [] then ""
    else if |ts| == 1 then Wrapped(ts[0], brackets[0])
    else Wrapped(ts[0], brackets[0]) + [':'] + Render(ts[1..], brackets[1..])
  }

  lemma SplitOnceWhole(s: string, c: char, a: string, b: string)
    requires SplitOnce(s, c) == Some((a, b))
    ensures s == a + [c] + b
  {
  }

  lemma BracketAssociates(inner: string, after: string)
    ensures ['['] + inner + [']'] + after == ['['] + (inner + [']'] + after)
  {
  }

  lemma UnbracketWhole(s: string, inner: string, after: string)
    requires StartsWith(s, '[') && Unbracket(s) == Some((inner, after))
    ensures s == ['['] + inner + [']'] + after
  {
    SplitOnceWhole(s[1..], ']', inner, after);
    BracketAssociates(inner, after);
    assert s == ['['] + s[1..];
  }

  lemma ColonWhole(before: string, after: string)
    requires StartsWith(after, ':')
    ensures before + after == before + [':'] + after[1..]
  {
  }

  lemma CutLosesNothing(s: string)
    ensures CutToken(s).Last? ==> s == Wrapped(CutToken(s).token, StartsWith(s, '['))
    ensures CutToken(s).More? ==> s == Wrapped(CutToken(s).token, StartsWith(s, '[')) + [':'] + CutToken(s).rest
  {
    if StartsWith(s, '[') && Unbracket(s).Some? {
      var (inner, after) := Unbracket(s).value;
      UnbracketWhole(s, inner, after);
      if StartsWith(after, ':') {
        ColonWhole(Wrapped(inner, true), after);
      }
    }
  }

  /** A text that splits is its tokens joined with colons, some in brackets:
      nothing of it is dropped, and any other text is an error. */
  lemma {:induction false} SplitLosesNothing(s: string) returns (brackets: seq<bool>)
    requires Split(s).Ok?
    ensures |brackets| == |Split(s).value| && s == Render(Split(s).value, brackets)
    decreases |s|
  {
    CutLosesNothing(s);
    brackets := [StartsWith(s, '[')];
    if CutToken(s).More? {
      var rest := CutToken(s).rest;
      var more := SplitLosesNothing(rest);
      SplitRange(rest);
      brackets := brackets + more;
      assert brackets[1..] == more && Split(s).value[1..] == Split(rest).value;
    }
  }

  /** Joining then splitting gives the tokens back exactly for the lists that
      some text stands for. */
  lemma SplitUndoesJoin(ts: seq<string>)
    ensures Split(JoinTokens(ts)) == Ok(ts) <==> ts != [] && forall t :: t in ts ==> Representable(t)
  {
    SplitRange(JoinTokens(ts));
    if ts != [] && forall t :: t in ts ==> Representable(t) {
      SplitJoined(ts);
    }
  }

  // ---- connection targets -------------------------------------------------

  type u16 = n: nat | n < 65536

  datatype Target = Target(user: Option<string>, host: string, port: Option<u16>, path: Option<string>)

  /** Index of the last `c`, or `|s|` when there is none. */
  function FindLast(s: string, c: char): (k: nat)
    ensures k <= |s| && (k < |s| <==> c in s)
    ensures k < |s| ==> s[k] == c && c !in s[k + 1..]
  {
    if s == "" then 0
    else
      var rest := FindLast(s[1..], c);
      if rest < |s| - 1 then assert s[1..][rest + 1..] == s[rest + 2..]; rest + 1
      else if s[0] == c then 0
      else |s|
  }

  function ParsePort(s: string): Result<u16, SpecError> {
    match ParseUnsigned(s, 65535)
    case Some(n) => if n < 65536 then Ok(n) else Err(InvalidPort)
    case None => Err(InvalidPort)
  }

  function WithPort(host: string, port: string): Result<(string, Option<u16>), SpecError> {
    match ParsePort(port)
    case Ok(n) => Ok((host, Some(n)))
    case Err(e) => Err(e)
  }

  function ParseHostPort(s: string): Result<(string, Option<u16>), SpecError> {
    if StartsWith(s, '[') then
      match Unbracket(s)
      case None => Err(MissingClose)
      case Some((host, after)) =>
        if after == "" then Ok((host, None))
        else if after[0] == ':' then WithPort(host, after[1..])
        else Err(TextAfterBracket)
    else
      var k := FindLast(s, ':');
      if k == |s| || ':' in s[..k] then Ok((s, None)) else WithPort(s[..k], s[k + 1..])
  }

  function ParseRest(user: Option<string>, rest: string): Result<Target, SpecError> {
    var k := Find(rest, '/');
    var path := if k == |rest| then None else Some(rest[k..]);
    match ParseHostPort(rest[..k])
    case Err(e) => Err(e)
    case Ok(hp) => if hp.0 == "" then Err(MissingHost) else Ok(Target(user, hp.0, hp.1, path))
  }

  function ParseTarget(s: string): Result<Target, SpecError> {
    match SplitOnce(s, '@')
    case None => ParseRest(None, s)
    case Some((user, rest)) => ParseRest(Some(user), rest)
  }

  /** `host:port`, the form shared by the resolver, the pin key and the request
      authority; without a port, the host alone. */
  function SocketTarget(host: string, port: Option<u16>): string {
    (if ':' in host then ['['] + host + [']'] else host)
    + PortSuffix(port)
  }

  function Optional(s: Option<string>): string {
    match s case Some(x) => x case None => ""
  }

  function PrintTarget(t: Target): string {
    var rest := SocketTarget(t.host, t.port) + Optional(t.path);
    match t.user case Some(u) => u + ['@'] + rest case None => rest
  }

  predicate HostOk(host: string) { if ':' in host then ']' !in host else !StartsWith(host, '[') }

  ghost predicate TargetOk(t: Target) {
    && t.host != "" && '/' !in t.host && HostOk(t.host)
    && (t.path.Some? ==> StartsWith(t.path.value, '/'))
    && match t.user
       case Some(u) => '@' !in u
       case None => '@' !in t.host && '@' !in Optional(t.path)
  }

  lemma PortText(port: Option<u16>, c: char)
    requires !IsDigit(c)
    ensures port.Some? ==> c !in PrintNat(port.value) && ParsePort(PrintNat(port.value)) == Ok(port.value)
  {
    if port.Some? {
      ParsePrinted(port.value, 65535);
    }
  }

  function PortSuffix(port: Option<u16>): string {
    match port case Some(p) => [':'] + PrintNat(p) case None => ""
  }

  lemma BracketedHost(host: string, port: Option<u16>)
    requires ':' in host
    ensures ParseHostPort(SocketTarget(host, port)) == Ok((host, port)) <==> ']' !in host
  {
    if ']' !in host {
      UnbracketIs(host, PortSuffix(port));
      PortText(port, ']');
      if port.Some? {
        assert PortSuffix(port)[1..] == PrintNat(port.value);
      }
    }
  }

  lemma PlainHost(host: string, port: Option<u16>)
    requires ':' !in host && !StartsWith(host, '[') && host != ""
    ensures ParseHostPort(SocketTarget(host, port)) == Ok((host, port))
  {
    PortText(port, ':');
    var s := SocketTarget(host, port);
    if port.Some? {
      assert s == host + [':'] + PrintNat(port.value);
      LastIs(host, ':', PrintNat(port.value));
    } else {
      assert s == host;
    }
  }

  lemma LastIs(a: string, c: char, b: string)
    requires c !in b
    ensures var s := a + [c] + b; FindLast(s, c) == |a| && s[..|a|] == a && s[|a| + 1..] == b
  {
    var s := a + [c] + b;
    var k := FindLast(s, c);
    assert s[|a|] == c;
    assert s[|a| + 1..] == b;
  }

  /** A host that itself starts with a bracket is read as a bracketed one. */
  lemma BracketLookalike(host: string, port: Option<u16>)
    requires ':' !in host && StartsWith(host, '[')
    ensures ParseHostPort(SocketTarget(host, port)) != Ok((host, port))
  {
    PortText(port, ']');
    var s, after := SocketTarget(host, port), PortSuffix(port);
    assert s[1..] == host[1..] + after && ']' !in after;
    FindExtend(host[1..], after, ']');
  }

  lemma HostPortRoundTrip(host: string, port: Option<u16>)
    requires host != ""
    ensures ParseHostPort(SocketTarget(host, port)) == Ok((host, port)) <==> HostOk(host)
  {
    if ':' in host {
      BracketedHost(host, port);
    } else if StartsWith(host, '[') {
      BracketLookalike(host, port);
    } else {
      PlainHost(host, port);
    }
  }

  /** Two colons and no bracket make a bare IPv6 literal: all host, no port. */
  lemma BareLiteral(s: string, i: nat, j: nat)
    requires i < j < |s| && s[i] == ':' && s[j] == ':' && !StartsWith(s, '[')
    ensures ParseHostPort(s) == Ok((s, None))
  {
    var k := FindLast(s, ':');
    assert forall m :: k < m < |s| ==> s[m] == s[k + 1..][m - k - 1];
    assert s[..k][i] == ':';
  }

  /** One colon and no bracket separate the host from the port, which must be a number
      below 65536. */
  lemma HostColonPort(host: string, port: string)
    requires ':' !in host && ':' !in port && !StartsWith(host + [':'] + port, '[')
    ensures ParseHostPort(host + [':'] + port)
         == match ParseUnsigned(port, 65535) case Some(n) => Ok((host, Some(n))) case None => Err(InvalidPort)
  {
    LastIs(host, ':', port);
  }

  /** In brackets: the host ends at the first ']', and only a port or nothing follows. */
  lemma BracketColonPort(host: string, after: string)
    requires ']' !in host
    ensures ParseHostPort(['['] + host + [']'] + after)
         == if after == "" then Ok((host, None))
            else if after[0] != ':' then Err(TextAfterBracket)
            else match ParseUnsigned(after[1..], 65535)
              case Some(n) => Ok((host, Some(n)))
              case None => Err(InvalidPort)
    ensures ParseHostPort(['['] + host) == Err(MissingClose)
  {
    UnbracketIs(host, after);
    assert (['['] + host)[1..] == host;
  }

  /** What every parsed target satisfies. */
  lemma ParsedRest(user: Option<string>, rest: string)
    ensures var r := ParseRest(user, rest);
            r.Ok? ==> && r.value.user == user && r.value.host != "" && '/' !in r.value.host
                      && (r.value.path.Some? ==> StartsWith(r.value.path.value, '/'))
  {
    var hp := rest[..Find(rest, '/')];
    assert '/' !in hp;
    var r := ParseHostPort(hp);
    assert r.Ok? ==> forall c :: c in r.value.0 ==> c in hp;
  }

  lemma SocketTargetHas(host: string, port: Option<u16>, c: char)
    requires !IsDigit(c) && c != '[' && c != ']' && c != ':'
    ensures c in SocketTarget(host, port) <==> c in host
  {
    PortText(port, c);
  }

  lemma RestParts(hp: string, path: Option<string>)
    requires '/' !in hp && (path.Some? ==> StartsWith(path.value, '/'))
    ensures var rest := hp + Optional(path);
            var k := Find(rest, '/');
            rest[..k] == hp && path == if k == |rest| then None else Some(rest[k..])
  {
    FindExtend(hp, Optional(path), '/');
  }

  lemma RestRoundTrip(t: Target, hp: string)
    requires t.host != "" && '/' !in t.host && hp == SocketTarget(t.host, t.port)
    requires t.path.Some? ==> StartsWith(t.path.value, '/')
    ensures ParseRest(t.user, hp + Optional(t.path)) == Ok(t) <==> HostOk(t.host)
  {
    SocketTargetHas(t.host, t.port, '/');
    RestParts(hp, t.path);
    HostPortRoundTrip(t.host, t.port);
  }

  /** Parsing undoes printing for exactly the targets a printed text can name. */
  lemma TargetRoundTrip(t: Target)
    ensures ParseTarget(PrintTarget(t)) == Ok(t) <==> TargetOk(t)
  {
    var s, rest := PrintTarget(t), SocketTarget(t.host, t.port) + Optional(t.path);
    match SplitOnce(s, '@') {
      case None => ParsedRest(None, s);
      case Some((user, more)) => ParsedRest(Some(user), more);
    }
    if t.host != "" && '/' !in t.host && (t.path.Some? ==> StartsWith(t.path.value, '/')) {
      RestRoundTrip(t, SocketTarget(t.host, t.port));
      SocketTargetHas(t.host, t.port, '@');
      assert '@' in rest <==> '@' in t.host || '@' in Optional(t.path);
      if t.user.Some? && '@' !in t.user.value {
        SplitOnceIs(t.user.value, '@', rest);
      }
    }
  }

  // ---- copy endpoints -----------------------------------------------------

  datatype CpSpec = Local(text: string) | Remote(user: Option<string>, host: string, path: string)

  /** A `user@` prefix: an '@' before the first ':' and before the first '/'. */
  predicate EarlyAt(s: string) {
    Find(s, '@') < Find(s, ':') && Find(s, '@') < Find(s, '/')
  }

  function ParseCpRest(s: string, user: Option<string>, rest: string): Result<CpSpec, SpecError> {
    if StartsWith(rest, '[') then
      match Unbracket(rest)
      case None => Err(MissingClose)
      case Some((host, after)) =>
        if host == "" then Err(EmptyHost)
        else if StartsWith(after, ':') then Ok(Remote(user, host, after[1..]))
        else Err(ExpectedColon)
    else
      match SplitOnce(rest, ':')
      case None => Ok(Local(s))
      case Some((host, path)) =>
        if '/' in host then Ok(Local(s))
        else if host == "" then Err(EmptyHost)
        else Ok(Remote(user, host, path))
  }

  function CpUser(s: string): Option<string> {
    if EarlyAt(s) then Some(s[..Find(s, '@')]) else None
  }

  function CpRest(s: string): string {
    if EarlyAt(s) then s[Find(s, '@') + 1..] else s
  }

  function ParseCp(s: string): Result<CpSpec, SpecError> {
    ParseCpRest(s, CpUser(s), CpRest(s))
  }

  predicate CpBrackets(host: string) { ':' in host || '/' in host || StartsWith(host, '[') }

  function CpHost(host: string): string {
    if CpBrackets(host) then ['['] + host + [']'] else host
  }

  function PrintCp(user: Option<string>, host: string, path: string): string {
    var rest := CpHost(host) + [':'] + path;
    match user case Some(u) => u + ['@'] + rest case None => rest
  }

  predicate UserOk(u: string) { '@' !in u && ':' !in u && '/' !in u }

  ghost predicate CpOk(user: Option<string>, host: string) {
    && host != "" && (CpBrackets(host) ==> ']' !in host)
    && match user
       case Some(u) => UserOk(u)
       case None => !EarlyAt(host)
  }

  lemma CpBracketed(s: string, user: Option<string>, host: string, path: string, rest: string)
    requires CpBrackets(host) && rest == ['['] + host + [']'] + [':'] + path
    ensures ParseCpRest(s, user, rest) == Ok(Remote(user, host, path)) <==> ']' !in host
  {
    if ']' !in host {
      UnbracketColon(host, path);
    }
  }

  lemma CpPlain(s: string, user: Option<string>, host: string, path: string, rest: string)
    requires !CpBrackets(host) && rest == host + [':'] + path
    ensures ParseCpRest(s, user, rest) == Ok(Remote(user, host, path)) <==> host != ""
  {
    SplitOnceIs(host, ':', path);
  }

  lemma CpRestRoundTrip(s: string, user: Option<string>, host: string, path: string)
    ensures ParseCpRest(s, user, CpHost(host) + [':'] + path) == Ok(Remote(user, host, path))
            <==> host != "" && (CpBrackets(host) ==> ']' !in host)
  {
    var rest := CpHost(host) + [':'] + path;
    if CpBrackets(host) {
      CpBracketed(s, user, host, path, rest);
    } else {
      CpPlain(s, user, host, path, rest);
    }
  }

  /** What a remote spec is refused for, after any user prefix. */
  lemma CpErrors(s: string, user: Option<string>, host: string, after: string)
    requires ']' !in host
    ensures ParseCpRest(s, user, ['['] + host) == Err(MissingClose)
    ensures ParseCpRest(s, user, ['['] + host + [']'] + after)
         == if host == "" then Err(EmptyHost)
            else if StartsWith(after, ':') then Ok(Remote(user, host, after[1..]))
            else Err(ExpectedColon)
    ensures ParseCpRest(s, user, [':'] + after) == Err(EmptyHost)
  {
    assert (['['] + host)[1..] == host;
    UnbracketIs(host, after);
    SplitOnceIs("", ':', after);
    assert "" + [':'] + after == [':'] + after;
  }

  lemma ParsedUser(s: string)
    requires EarlyAt(s)
    ensures UserOk(s[..Find(s, '@')])
  {
  }

  /** What follows a ':' cannot put an '@' early. */
  lemma EarlyAtExtend(host: string, gap: string, tail: string)
    requires ':' in gap && '@' !in gap
    ensures EarlyAt(host + (gap + tail)) <==> EarlyAt(host)
  {
    FindExtend(host, gap + tail, '@');
    FindExtend(host, gap + tail, ':');
    FindExtend(host, gap + tail, '/');
    FindExtend(gap, tail, '@');
    FindExtend(gap, tail, ':');
  }

  lemma EarlyAtBracket(s: string)
    ensures EarlyAt(['['] + s) <==> EarlyAt(s)
  {
    FindExtend(['['], s, '@');
    FindExtend(['['], s, ':');
    FindExtend(['['], s, '/');
  }

  lemma EarlyAtPrinted(host: string, path: string)
    ensures EarlyAt(CpHost(host) + [':'] + path) <==> EarlyAt(host)
  {
    var s := CpHost(host) + [':'] + path;
    if CpBrackets(host) {
      assert s == ['['] + (host + ([']', ':'] + path));
      EarlyAtBracket(host + ([']', ':'] + path));
      EarlyAtExtend(host, [']', ':'], path);
    } else {
      assert s == host + ([':'] + path);
      EarlyAtExtend(host, [':'], path);
    }
  }

  lemma EarlyAtUser(u: string, more: string)
    requires UserOk(u) && StartsWith(more, '@')
    ensures EarlyAt(u + more)
  {
    FindExtend(u, more, '@');
    FindExtend(u, more, ':');
    FindExtend(u, more, '/');
  }

  lemma UserPrefix(u: string, rest: string)
    requires UserOk(u)
    ensures CpUser(u + ['@'] + rest) == Some(u) && CpRest(u + ['@'] + rest) == rest
  {
    var s := u + ['@'] + rest;
    assert s == u + (['@'] + rest);
    EarlyAtUser(u, ['@'] + rest);
    SplitOnceIs(u, '@', rest);
    assert SplitOnce(s, '@') == Some((s[..Find(s, '@')], s[Find(s, '@') + 1..]));
  }

  /** Parsing undoes printing of a remote endpoint for exactly the users and
      hosts that the text can carry; the path is arbitrary. */
  lemma CpRoundTrip(user: Option<string>, host: string, path: string)
    ensures ParseCp(PrintCp(user, host, path)) == Ok(Remote(user, host, path)) <==> CpOk(user, host)
  {
    var s, rest := PrintCp(user, host, path), CpHost(host) + [':'] + path;
    CpKeepsUser(s);
    CpRestRoundTrip(s, user, host, path);
    match user
    case Some(u) =>
      if UserOk(u) {
        UserPrefix(u, rest);
      } else if EarlyAt(s) {
        ParsedUser(s);
      }
    case None => EarlyAtPrinted(host, path);
  }

  lemma CpKeepsUser(s: string)
    ensures ParseCp(s).Ok? && ParseCp(s).value.Remote? ==> ParseCp(s).value.user == CpUser(s)
  {
  }

  /** A ':' before the first '/'. */
  predicate ColonFirst(s: string) { ':' in s && Find(s, ':') < Find(s, '/') }

  lemma ColonFirstExtend(user: string, rest: string)
    requires ':' !in user && '/' !in user
    ensures ColonFirst(user + rest) <==> ColonFirst(rest)
  {
    FindExtend(user, rest, ':');
    FindExtend(user, rest, '/');
  }

  lemma ColonFirstRest(s: string)
    ensures ColonFirst(CpRest(s)) <==> ColonFirst(s)
  {
    if EarlyAt(s) {
      ParsedUser(s);
      var k := Find(s, '@');
      var user := s[..k] + ['@'];
      assert s == user + s[k + 1..];
      ColonFirstExtend(user, s[k + 1..]);
    }
  }

  lemma SlashBefore(s: string, k: nat)
    requires k <= |s|
    ensures '/' in s[..k] <==> Find(s, '/') < k
  {
    var l := Find(s, '/');
    if l < k {
      assert s[..k][l] == '/';
    }
  }

  /** A spec is local exactly when no bracket opens the host and no ':' comes
      before the first '/'; it is then returned whole. */
  lemma LocalExactly(s: string)
    ensures ParseCp(s).Ok? && ParseCp(s).value.Local? <==> !StartsWith(CpRest(s), '[') && !ColonFirst(s)
    ensures ParseCp(s).Ok? && ParseCp(s).value.Local? ==> ParseCp(s) == Ok(Local(s))
  {
    ColonFirstRest(s);
    LocalRest(s, CpUser(s), CpRest(s));
  }

  lemma ColonFirstSplit(rest: string)
    ensures ColonFirst(rest) <==> SplitOnce(rest, ':').Some? && '/' !in SplitOnce(rest, ':').value.0
  {
    SlashBefore(rest, Find(rest, ':'));
  }

  lemma LocalRest(s: string, user: Option<string>, rest: string)
    ensures var r := ParseCpRest(s, user, rest);
            && (r.Ok? && r.value.Local? <==> !StartsWith(rest, '[') && !ColonFirst(rest))
            && (r.Ok? && r.value.Local? ==> r == Ok(Local(s)))
  {
    ColonFirstSplit(rest);
  }

  /** The bracket wins over the rule that a '/' before the ':' means local: a
      bracketed host that starts with '/' is still remote. */
  lemma BracketedSlashIsRemote(more: string, path: string)
    requires ']' !in more
    ensures var s := PrintCp(None, ['/'] + more, path);
            ParseCp(s) == Ok(Remote(None, ['/'] + more, path)) && !ColonFirst(s)
  {
    var host := ['/'] + more;
    var s := PrintCp(None, host, path);
    FindAt(host, '/', 0);
    CpRoundTrip(None, host, path);
    assert s[..2] == ['[', '/'];
    FindAt(s, '/', 1);
  }
}
