// The PAM environment handed from the monitor to the session helper, and the
// environment the helper execs the shell with (quish-server/src/ipc.rs and
// quish-server/src/privdrop.rs).
module PamEnv {
  import opened Base
  import Base64

  const NUL: byte := 0
  const NEWLINE: byte := 10
  const EQUALS: byte := 61

  datatype Var = Var(key: bytes, value: bytes)

  /** All `f(x)` for the elements in order, joined. */
  function Collect<S, T>(f: S -> seq<T>, xs: seq<S>): seq<T> {
    if xs == [] then [] else f(xs[0]) + Collect(f, xs[1..])
  }

  lemma CollectCons<S, T>(f: S -> seq<T>, x: S, xs: seq<S>)
    ensures Collect(f, [x] + xs) == f(x) + Collect(f, xs)
  {
    assert ([x] + xs)[1..] == xs;
  }

  lemma {:induction false} CollectAppend<S, T>(f: S -> seq<T>, a: seq<S>, b: seq<S>)
    ensures Collect(f, a + b) == Collect(f, a) + Collect(f, b)
  {
    if a == [] {
      assert a + b == b;
    } else {
      var first, rest := a[0], a[1..];
      assert a + b == [first] + (rest + b);
      CollectAppend(f, rest, b);
      CollectCons(f, first, rest + b);
    }
  }

  lemma CollectOne<S, T>(f: S -> seq<T>, x: S)
    ensures Collect(f, [x]) == f(x)
  {
    assert Collect(f, [x]) == f(x) + Collect(f, []);
  }

  lemma CollectSnoc<S, T>(f: S -> seq<T>, xs: seq<S>, k: nat)
    requires k < |xs|
    ensures Collect(f, xs[..k + 1]) == Collect(f, xs[..k]) + f(xs[k])
  {
    assert xs[..k + 1] == xs[..k] + [xs[k]];
    CollectAppend(f, xs[..k], [xs[k]]);
    CollectOne(f, xs[k]);
  }

  // ---- the blob -----------------------------------------------------------

  /** A variable that survives the line format. */
  predicate Representable(v: Var) {
    EQUALS !in v.key && NEWLINE !in v.key && NEWLINE !in v.value
  }

  function Assignment(v: Var): bytes { v.key + [EQUALS] + v.value }

  function Record(v: Var): bytes {
    if Representable(v) then Assignment(v) + [NEWLINE] else []
  }

  function Kept(v: Var): seq<Var> { if Representable(v) then [v] else [] }

  function Blob(env: seq<Var>): bytes { Collect(Record, env) }

  function EncodedEnv(env: seq<Var>): string { Base64.Encode(Blob(env)) }

  /** `split` on newlines: one piece more than there are newlines. */
  function Pieces(blob: bytes): seq<bytes>
    decreases |blob|
  {
    var k := Find(blob, NEWLINE);
    if k == |blob| then [blob] else [blob[..k]] + Pieces(blob[k + 1..])
  }

  /** The variable of one line, if it has an '='. */
  function Parsed(line: bytes): (vs: seq<Var>)
    ensures forall v :: v in vs ==> EQUALS !in v.key
  {
    var k := Find(line, EQUALS);
    if k == |line| then [] else [Var(line[..k], line[k + 1..])]
  }

  function DecodedBlob(blob: bytes): seq<Var> { Collect(Parsed, Pieces(blob)) }

  function DecodedEnv(text: string): seq<Var> {
    match Base64.Decode(text)
    case None => []
    case Some(blob) => DecodedBlob(blob)
  }

  method EncodePamEnv(env: seq<Var>) returns (text: string)
    ensures text == EncodedEnv(env)
  {
    var blob: bytes := [];
    for i := 0 to |env|
      invariant blob == Blob(env[..i])
    {
      CollectSnoc(Record, env, i);
      var v := env[i];
      if EQUALS in v.key || NEWLINE in v.key || NEWLINE in v.value {
        continue;
      }
      blob := blob + (v.key + [EQUALS] + v.value + [NEWLINE]);
    }
    assert env[..|env|] == env;
    text := Base64.Encode(blob);
  }

  method DecodePamEnv(text: string) returns (out: seq<Var>)
    ensures out == DecodedEnv(text)
  {
    out := [];
    var decoded := Base64.Decode(text);
    if decoded.None? {
      return;
    }
    var lines := Pieces(decoded.value);
    for i := 0 to |lines|
      invariant out == Collect(Parsed, lines[..i])
    {
      CollectSnoc(Parsed, lines, i);
      var line := lines[i];
      if line == [] {
        continue;
      }
      var k := Find(line, EQUALS);
      if k < |line| {
        out := out + [Var(line[..k], line[k + 1..])];
      }
    }
    assert lines[..|lines|] == lines;
  }

  // ---- round trip ---------------------------------------------------------

  lemma ParsedAssignment(v: Var)
    requires EQUALS !in v.key
    ensures Parsed(Assignment(v)) == [v]
  {
    var line := Assignment(v);
    assert line[..|v.key|] == v.key;
    FindAt(line, EQUALS, |v.key|);
    assert line[|v.key| + 1..] == v.value;
  }

  lemma PiecesOfLine(line: bytes, rest: bytes)
    requires NEWLINE !in line
    ensures Pieces(line + [NEWLINE] + rest) == [line] + Pieces(rest)
  {
    var blob := line + [NEWLINE] + rest;
    assert blob[..|line|] == line;
    FindAt(blob, NEWLINE, |line|);
    assert blob[|line| + 1..] == rest;
  }

  lemma DecodedLine(v: Var, rest: bytes)
    requires Representable(v)
    ensures DecodedBlob(Assignment(v) + [NEWLINE] + rest) == [v] + DecodedBlob(rest)
  {
    var line := Assignment(v);
    PiecesOfLine(line, rest);
    ParsedAssignment(v);
    CollectAppend(Parsed, [line], Pieces(rest));
    CollectOne(Parsed, line);
  }

  lemma {:induction false} BlobRoundTrip(env: seq<Var>)
    ensures DecodedBlob(Blob(env)) == Collect(Kept, env)
  {
    if env == [] {
      CollectOne(Parsed, []);
    } else {
      var rest := Blob(env[1..]);
      BlobRoundTrip(env[1..]);
      if Representable(env[0]) {
        DecodedLine(env[0], rest);
      } else {
        assert Blob(env) == rest;
      }
    }
  }

  /** What comes back is the sublist, in order, of the representable variables. */
  lemma PamEnvRoundTrip(env: seq<Var>)
    ensures DecodedEnv(EncodedEnv(env)) == Collect(Kept, env)
  {
    Base64.DecodeEncoded(Blob(env));
    BlobRoundTrip(env);
  }

  lemma {:induction false} PiecesHaveNoNewline(blob: bytes)
    ensures forall p :: p in Pieces(blob) ==> NEWLINE !in p
    decreases |blob|
  {
    var k := Find(blob, NEWLINE);
    if k < |blob| {
      PiecesHaveNoNewline(blob[k + 1..]);
    }
  }

  lemma {:induction false} ParsedLines(lines: seq<bytes>)
    requires forall p :: p in lines ==> NEWLINE !in p
    ensures forall v :: v in Collect(Parsed, lines) ==> Representable(v)
  {
    if lines != [] {
      ParsedLines(lines[1..]);
      assert NEWLINE !in lines[0];
      assert forall v :: v in Parsed(lines[0]) ==> Representable(v);
    }
  }

  /** Whatever text arrives, every decoded variable is representable; its key in
      particular holds no '='. */
  lemma DecodedAreRepresentable(text: string)
    ensures forall v :: v in DecodedEnv(text) ==> Representable(v)
  {
    if Base64.Decode(text).Some? {
      var blob := Base64.Decode(text).value;
      PiecesHaveNoNewline(blob);
      ParsedLines(Pieces(blob));
    }
  }

  lemma {:induction false} KeptAll(env: seq<Var>)
    requires forall v :: v in env ==> Representable(v)
    ensures Collect(Kept, env) == env
  {
    if env != [] {
      KeptAll(env[1..]);
      assert env == [env[0]] + env[1..];
    }
  }

  /** A list survives the handoff unchanged exactly when all of it is
      representable. */
  lemma SurvivesExactly(env: seq<Var>)
    ensures DecodedEnv(EncodedEnv(env)) == env <==> forall v :: v in env ==> Representable(v)
  {
    PamEnvRoundTrip(env);
    DecodedAreRepresentable(EncodedEnv(env));
    if forall v :: v in env ==> Representable(v) {
      KeptAll(env);
    }
  }

  // ---- the exec environment -----------------------------------------------

  const HOME: bytes := [72, 79, 77, 69]
  const USER: bytes := [85, 83, 69, 82]
  const LOGNAME: bytes := [76, 79, 71, 78, 65, 77, 69]
  const SHELL: bytes := [83, 72, 69, 76, 76]
  const TERM: bytes := [84, 69, 82, 77]
  const PATH: bytes := [80, 65, 84, 72]

  /** `/usr/local/bin:/usr/bin:/bin`. */
  const SEARCH_PATH: bytes :=
    [47, 117, 115, 114, 47, 108, 111, 99, 97, 108, 47, 98, 105, 110, 58,
     47, 117, 115, 114, 47, 98, 105, 110, 58, 47, 98, 105, 110]

  datatype Account = Account(home: bytes, user: bytes, shell: bytes, term: bytes)

  function HelperVars(a: Account): (vs: seq<Var>)
    ensures |vs| == 6
  {
    [Var(HOME, a.home), Var(USER, a.user), Var(LOGNAME, a.user), Var(SHELL, a.shell), Var(TERM, a.term),
     Var(PATH, SEARCH_PATH)]
  }

  predicate IsHelperKey(key: bytes) { key in [HOME, USER, LOGNAME, SHELL, TERM, PATH] }

  /** A PAM variable passes unless the helper owns its key or it holds a NUL. */
  function Passed(v: Var): seq<bytes> {
    if IsHelperKey(v.key) || NUL in Assignment(v) then [] else [Assignment(v)]
  }

  function Assigned(v: Var): seq<bytes> { [Assignment(v)] }

  function ExecEnv(pam: seq<Var>, account: Account): seq<bytes> {
    Collect(Passed, pam) + Collect(Assigned, HelperVars(account))
  }

  /** PAM variables first, skipping collisions, then the helper's six. */
  method BuildEnv(pam: seq<Var>, account: Account) returns (envp: seq<bytes>)
    ensures envp == ExecEnv(pam, account)
  {
    envp := [];
    for i := 0 to |pam|
      invariant envp == Collect(Passed, pam[..i])
    {
      CollectSnoc(Passed, pam, i);
      var v := pam[i];
      if IsHelperKey(v.key) {
        continue;
      }
      var entry := v.key + [EQUALS] + v.value;
      if NUL !in entry {
        envp := envp + [entry];
      }
    }
    assert pam[..|pam|] == pam;
    var helper := HelperVars(account);
    ghost var before := envp;
    for i := 0 to |helper|
      invariant envp == before + Collect(Assigned, helper[..i])
    {
      CollectSnoc(Assigned, helper, i);
      envp := envp + [Assignment(helper[i])];
    }
    assert helper[..|helper|] == helper;
  }

  /** The name `getenv` sees: what stands before the first '='. */
  function Name(entry: bytes): bytes { entry[..Find(entry, EQUALS)] }

  /** The entries of an environment under one name, in order. */
  function Named(envp: seq<bytes>, name: bytes): seq<bytes> {
    if envp == [] then []
    else if Name(envp[0]) == name then [envp[0]] + Named(envp[1..], name)
    else Named(envp[1..], name)
  }

  lemma NamedCons(entry: bytes, envp: seq<bytes>, name: bytes)
    ensures Named([entry] + envp, name)
         == if Name(entry) == name then [entry] + Named(envp, name) else Named(envp, name)
  {
    assert ([entry] + envp)[1..] == envp;
  }

  lemma {:induction false} NamedAppend(a: seq<bytes>, b: seq<bytes>, name: bytes)
    ensures Named(a + b, name) == Named(a, name) + Named(b, name)
  {
    if a == [] {
      assert a + b == b;
    } else {
      var first, rest := a[0], a[1..];
      assert a == [first] + rest && a + b == [first] + (rest + b);
      NamedAppend(rest, b, name);
      NamedCons(first, rest, name);
      NamedCons(first, rest + b, name);
    }
  }

  lemma NameOfAssignment(v: Var)
    requires EQUALS !in v.key
    ensures Name(Assignment(v)) == v.key
  {
    ParsedAssignment(v);
  }

  lemma NamedOne(v: Var, name: bytes)
    requires EQUALS !in v.key
    ensures Named([Assignment(v)], name) == if v.key == name then [Assignment(v)] else []
  {
    NameOfAssignment(v);
    assert Named([Assignment(v)][1..], name) == [];
  }

  /** No PAM variable reaches the environment under a name the helper owns. */
  lemma {:induction false} PamNeverShadows(pam: seq<Var>, name: bytes)
    requires IsHelperKey(name) && forall v :: v in pam ==> EQUALS !in v.key
    ensures Named(Collect(Passed, pam), name) == []
  {
    if pam != [] {
      PamNeverShadows(pam[1..], name);
      NamedAppend(Passed(pam[0]), Collect(Passed, pam[1..]), name);
      NamedOne(pam[0], name);
    }
  }

  /** The assignments of a list to one name, in order, without those that hold a NUL. */
  ghost function AssignedTo(pam: seq<Var>, name: bytes): seq<bytes> {
    if pam == [] then []
    else
      var v, rest := pam[0], AssignedTo(pam[1..], name);
      if v.key == name && NUL !in v.key && NUL !in v.value then [v.key + [EQUALS] + v.value] + rest else rest
  }

  lemma {:induction false} PamPassesThrough(pam: seq<Var>, name: bytes)
    requires !IsHelperKey(name) && forall v :: v in pam ==> EQUALS !in v.key
    ensures Named(Collect(Passed, pam), name) == AssignedTo(pam, name)
  {
    if pam != [] {
      PamPassesThrough(pam[1..], name);
      NamedAppend(Passed(pam[0]), Collect(Passed, pam[1..]), name);
      NamedOne(pam[0], name);
      assert NUL in Assignment(pam[0]) <==> NUL in pam[0].key || NUL in pam[0].value;
    }
  }

  ghost predicate DistinctKeys(vs: seq<Var>) {
    forall i, j :: 0 <= i < j < |vs| ==> vs[i].key != vs[j].key
  }

  lemma {:induction false} NamedAbsent(vs: seq<Var>, name: bytes)
    requires forall v :: v in vs ==> EQUALS !in v.key && v.key != name
    ensures Named(Collect(Assigned, vs), name) == []
  {
    if vs != [] {
      NamedAbsent(vs[1..], name);
      NamedAppend(Assigned(vs[0]), Collect(Assigned, vs[1..]), name);
      NamedOne(vs[0], name);
    }
  }

  lemma {:induction false} NamedOnce(vs: seq<Var>, i: nat)
    requires i < |vs| && DistinctKeys(vs) && forall v :: v in vs ==> EQUALS !in v.key
    ensures Named(Collect(Assigned, vs), vs[i].key) == [Assignment(vs[i])]
  {
    NamedAppend(Assigned(vs[0]), Collect(Assigned, vs[1..]), vs[i].key);
    NamedOne(vs[0], vs[i].key);
    if i == 0 {
      NamedAbsent(vs[1..], vs[0].key);
    } else {
      NamedOnce(vs[1..], i - 1);
    }
  }

  lemma HelperKeys(account: Account)
    ensures DistinctKeys(HelperVars(account))
    ensures forall v :: v in HelperVars(account) ==> EQUALS !in v.key && IsHelperKey(v.key)
  {
    var vs := HelperVars(account);
    assert vs[0].key[0] == 72 && vs[1].key[0] == 85 && vs[2].key[0] == 76;
    assert vs[3].key[0] == 83 && vs[4].key[0] == 84 && vs[5].key[0] == 80;
  }

  lemma HelperOnce(text: string, account: Account, i: nat)
    requires i < 6
    ensures var v := HelperVars(account)[i];
            Named(ExecEnv(DecodedEnv(text), account), v.key) == [Assignment(v)]
  {
    var vs, pam := HelperVars(account), DecodedEnv(text);
    HelperKeys(account);
    DecodedAreRepresentable(text);
    PamNeverShadows(pam, vs[i].key);
    NamedOnce(vs, i);
    NamedAppend(Collect(Passed, pam), Collect(Assigned, vs), vs[i].key);
  }

  /** Whatever text was handed over, the shell's environment has exactly one entry under
      each of the helper's six names, with the account's value. */
  lemma HelperAlwaysWins(text: string, account: Account)
    ensures var envp := ExecEnv(DecodedEnv(text), account);
            && Named(envp, HOME) == [HOME + [EQUALS] + account.home]
            && Named(envp, USER) == [USER + [EQUALS] + account.user]
            && Named(envp, LOGNAME) == [LOGNAME + [EQUALS] + account.user]
            && Named(envp, SHELL) == [SHELL + [EQUALS] + account.shell]
            && Named(envp, TERM) == [TERM + [EQUALS] + account.term]
            && Named(envp, PATH) == [PATH + [EQUALS] + SEARCH_PATH]
  {
    HelperOnce(text, account, 0);
    HelperOnce(text, account, 1);
    HelperOnce(text, account, 2);
    HelperOnce(text, account, 3);
    HelperOnce(text, account, 4);
    HelperOnce(text, account, 5);
  }

  /** Under any other name, the environment is what PAM set, in order, without NULs. */
  lemma OtherNamesPassThrough(text: string, account: Account, name: bytes)
    requires !IsHelperKey(name)
    ensures Named(ExecEnv(DecodedEnv(text), account), name) == AssignedTo(DecodedEnv(text), name)
  {
    var vs, pam := HelperVars(account), DecodedEnv(text);
    HelperKeys(account);
    DecodedAreRepresentable(text);
    PamPassesThrough(pam, name);
    NamedAbsent(vs, name);
    NamedAppend(Collect(Passed, pam), Collect(Assigned, vs), name);
  }
}
