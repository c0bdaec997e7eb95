// The per-connection failure cap. Request tasks of one connection read the shared
// counter, are judged by the monitor, and only then add to the counter, so several
// tasks can pass the check before any of them is counted.
module ConnFails {
  datatype Phase = Judging | Denied

  /** `tasks` are the requests in flight past the check; `denials` counts the
      attempts evaluated and denied so far. */
  datatype Conn = Conn(fails: nat, tasks: map<nat, Phase>, denials: nat)

  const INIT := Conn(0, map[], 0)

  datatype Action =
    | Check(task: nat)
    | Deny(task: nat)
    | Count(task: nat)
    | Leave(task: nat)

  /** At most `k` requests of the connection are in flight at once. A request over the
      cap is answered at once without being evaluated. */
  function Step(maxFails: nat, k: nat, s: Conn, a: Action): Conn {
    match a
    case Check(t) =>
      if t in s.tasks || |s.tasks| >= k || s.fails >= maxFails then s else s.(tasks := s.tasks[t := Judging])
    case Deny(t) =>
      if t in s.tasks && s.tasks[t].Judging? then s.(tasks := s.tasks[t := Denied], denials := s.denials + 1) else s
    case Count(t) =>
      if t in s.tasks && s.tasks[t].Denied? then s.(tasks := s.tasks - {t}, fails := s.fails + 1) else s
    case Leave(t) =>
      if t in s.tasks && s.tasks[t].Judging? then s.(tasks := s.tasks - {t}) else s
  }

  function Run(maxFails: nat, k: nat, actions: seq<Action>): Conn {
    if actions == [] then INIT
    else Step(maxFails, k, Run(maxFails, k, actions[..|actions| - 1]), actions[|actions| - 1])
  }

  ghost function Uncounted(s: Conn): set<nat> { set t | t in s.tasks && s.tasks[t].Denied? }

  ghost predicate Inv(maxFails: nat, k: nat, s: Conn) {
    && |s.tasks| <= k
    && s.denials == s.fails + |Uncounted(s)|
    && (s.fails + |s.tasks| <= maxFails + k - 1 || (s.fails == 0 && s.tasks == map[]))
  }

  lemma UncountedWithin(s: Conn)
    ensures |Uncounted(s)| <= |s.tasks|
  {
    Within(Uncounted(s), s.tasks.Keys);
  }

  lemma {:induction false} Within(a: set<nat>, b: set<nat>)
    requires a <= b
    ensures |a| <= |b|
    decreases a
  {
    if a != {} {
      var x :| x in a;
      Within(a - {x}, b - {x});
    }
  }

  lemma CheckKeeps(maxFails: nat, k: nat, s: Conn, t: nat)
    requires Inv(maxFails, k, s)
    ensures Inv(maxFails, k, Step(maxFails, k, s, Check(t)))
  {
    var s' := Step(maxFails, k, s, Check(t));
    if s' != s {
      assert s'.tasks.Keys == s.tasks.Keys + {t};
      assert Uncounted(s') == Uncounted(s);
    }
  }

  lemma DenyKeeps(maxFails: nat, k: nat, s: Conn, t: nat)
    requires Inv(maxFails, k, s)
    ensures Inv(maxFails, k, Step(maxFails, k, s, Deny(t)))
  {
    var s' := Step(maxFails, k, s, Deny(t));
    if s' != s {
      assert s'.tasks.Keys == s.tasks.Keys;
      assert Uncounted(s') == Uncounted(s) + {t};
    }
  }

  lemma RemovalKeeps(maxFails: nat, k: nat, s: Conn, t: nat)
    requires Inv(maxFails, k, s)
    ensures Inv(maxFails, k, Step(maxFails, k, s, Count(t)))
    ensures Inv(maxFails, k, Step(maxFails, k, s, Leave(t)))
  {
    if t in s.tasks {
      var rest := s.tasks - {t};
      assert rest.Keys == s.tasks.Keys - {t};
      assert Uncounted(s.(tasks := rest)) == Uncounted(s) - {t};
    }
  }

  lemma StepKeeps(maxFails: nat, k: nat, s: Conn, a: Action)
    requires Inv(maxFails, k, s)
    ensures Inv(maxFails, k, Step(maxFails, k, s, a))
  {
    match a
    case Check(t) => CheckKeeps(maxFails, k, s, t);
    case Deny(t) => DenyKeeps(maxFails, k, s, t);
    case Count(t) => RemovalKeeps(maxFails, k, s, t);
    case Leave(t) => RemovalKeeps(maxFails, k, s, t);
  }

  lemma {:induction false} RunKeeps(maxFails: nat, k: nat, actions: seq<Action>)
    ensures Inv(maxFails, k, Run(maxFails, k, actions))
  {
    if actions != [] {
      RunKeeps(maxFails, k, actions[..|actions| - 1]);
      StepKeeps(maxFails, k, Run(maxFails, k, actions[..|actions| - 1]), actions[|actions| - 1]);
    }
  }

  /** For every interleaving, at most maxFails + k - 1 attempts are evaluated and
      denied; with a cap of zero none is. */
  lemma DenialsBounded(maxFails: nat, k: nat, actions: seq<Action>)
    ensures maxFails >= 1 && k >= 1 ==> Run(maxFails, k, actions).denials <= maxFails + k - 1
    ensures maxFails == 0 ==> Run(maxFails, k, actions).denials == 0
  {
    RunKeeps(maxFails, k, actions);
    UncountedWithin(Run(maxFails, k, actions));
    if maxFails == 0 {
      NothingAdmitted(k, actions);
    }
  }

  lemma {:induction false} NothingAdmitted(k: nat, actions: seq<Action>)
    ensures Run(0, k, actions) == INIT
  {
    if actions != [] {
      NothingAdmitted(k, actions[..|actions| - 1]);
    }
  }

  // ---- the bound is reached -----------------------------------------------

  /** `n` requests one after another, each checked, denied and counted. */
  function OneByOne(n: nat): seq<Action> {
    if n == 0 then [] else OneByOne(n - 1) + [Check(0), Deny(0), Count(0)]
  }

  function ChecksThenDenials(n: nat): seq<Action> {
    if n == 0 then [] else [Check(n - 1)] + ChecksThenDenials(n - 1) + [Deny(n - 1)]
  }

  function Continue(maxFails: nat, k: nat, s: Conn, actions: seq<Action>): Conn {
    if actions == [] then s
    else Step(maxFails, k, Continue(maxFails, k, s, actions[..|actions| - 1]), actions[|actions| - 1])
  }

  lemma {:induction false} ContinueAppend(maxFails: nat, k: nat, s: Conn, a: seq<Action>, b: seq<Action>)
    ensures Continue(maxFails, k, s, a + b) == Continue(maxFails, k, Continue(maxFails, k, s, a), b)
    decreases |b|
  {
    if b == [] {
      assert a + b == a;
    } else {
      ContinueAppend(maxFails, k, s, a, b[..|b| - 1]);
      assert (a + b)[..|a + b| - 1] == a + b[..|b| - 1];
    }
  }

  lemma {:induction false} RunIsContinue(maxFails: nat, k: nat, actions: seq<Action>)
    ensures Run(maxFails, k, actions) == Continue(maxFails, k, INIT, actions)
  {
    if actions != [] {
      RunIsContinue(maxFails, k, actions[..|actions| - 1]);
    }
  }

  lemma Three(maxFails: nat, k: nat, s: Conn)
    requires k >= 1 && s.tasks == map[] && s.fails < maxFails
    ensures Continue(maxFails, k, s, [Check(0), Deny(0), Count(0)]) == Conn(s.fails + 1, map[], s.denials + 1)
  {
    var s1 := Step(maxFails, k, s, Check(0));
    var s2 := Step(maxFails, k, s1, Deny(0));
    assert s1.tasks == map[0 := Judging] && s2.tasks == map[0 := Denied];
    var all := [Check(0), Deny(0), Count(0)];
    assert all[..2] == [Check(0), Deny(0)] && all[..2][..1] == [Check(0)] && all[..2][..1][..0] == [];
    assert Continue(maxFails, k, s, all[..2][..1]) == s1;
    assert Continue(maxFails, k, s, all[..2]) == s2;
    assert Step(maxFails, k, s2, Count(0)).tasks == map[];
  }

  lemma {:induction false} SequentialDenials(maxFails: nat, k: nat, n: nat)
    requires k >= 1 && n <= maxFails
    ensures Continue(maxFails, k, INIT, OneByOne(n)) == Conn(n, map[], n)
  {
    if n > 0 {
      SequentialDenials(maxFails, k, n - 1);
      ContinueAppend(maxFails, k, INIT, OneByOne(n - 1), [Check(0), Deny(0), Count(0)]);
      Three(maxFails, k, Conn(n - 1, map[], n - 1));
    }
  }

  /** An action before and an action after a run. */
  lemma ContinueAround(maxFails: nat, k: nat, s: Conn, a: Action, inner: seq<Action>, b: Action)
    ensures Continue(maxFails, k, s, [a] + inner + [b])
         == Step(maxFails, k, Continue(maxFails, k, Step(maxFails, k, s, a), inner), b)
  {
    var s1 := Step(maxFails, k, s, a);
    assert Continue(maxFails, k, s, [a][..0]) == s;
    ContinueAppend(maxFails, k, s, [a], inner);
    assert ([a] + inner + [b])[..1 + |inner|] == [a] + inner;
  }

  /** `s'` has the tasks of `s` as they were, and `n` more denials. */
  ghost predicate Deniers(s: Conn, s': Conn, n: nat) {
    s'.denials == s.denials + n && forall t :: t in s.tasks ==> t in s'.tasks && s'.tasks[t] == s.tasks[t]
  }

  lemma CheckEnters(maxFails: nat, k: nat, s: Conn, t: nat)
    requires s.fails < maxFails && |s.tasks| < k && t !in s.tasks
    ensures var s1 := Step(maxFails, k, s, Check(t));
            s1 == s.(tasks := s.tasks[t := Judging]) && |s1.tasks| == |s.tasks| + 1
  {
    assert s.tasks[t := Judging].Keys == s.tasks.Keys + {t};
  }

  lemma DenyLast(maxFails: nat, k: nat, s: Conn, s1: Conn, s2: Conn, t: nat)
    requires t !in s.tasks && s1 == s.(tasks := s.tasks[t := Judging]) && Deniers(s1, s2, t)
    ensures Deniers(s, Step(maxFails, k, s2, Deny(t)), t + 1)
  {
    assert t in s1.tasks && s1.tasks[t] == Judging;
  }

  lemma DenyAround(maxFails: nat, k: nat, s: Conn, inner: seq<Action>, t: nat)
    requires s.fails < maxFails && |s.tasks| < k && t !in s.tasks
    requires var s1 := s.(tasks := s.tasks[t := Judging]); Deniers(s1, Continue(maxFails, k, s1, inner), t)
    ensures Deniers(s, Continue(maxFails, k, s, [Check(t)] + inner + [Deny(t)]), t + 1)
  {
    var s1 := s.(tasks := s.tasks[t := Judging]);
    CheckEnters(maxFails, k, s, t);
    ContinueAround(maxFails, k, s, Check(t), inner, Deny(t));
    DenyLast(maxFails, k, s, s1, Continue(maxFails, k, s1, inner), t);
  }

  lemma {:induction false} ConcurrentDenials(maxFails: nat, k: nat, s: Conn, n: nat)
    requires s.fails < maxFails && |s.tasks| + n <= k
    requires forall t :: t in s.tasks ==> t >= n
    ensures Deniers(s, Continue(maxFails, k, s, ChecksThenDenials(n)), n)
    decreases n
  {
    if n > 0 {
      var t := n - 1;
      CheckEnters(maxFails, k, s, t);
      ConcurrentDenials(maxFails, k, s.(tasks := s.tasks[t := Judging]), t);
      DenyAround(maxFails, k, s, ChecksThenDenials(t), t);
    }
  }

  /** The bound cannot be improved: some interleaving reaches it. */
  lemma BoundIsReached(maxFails: nat, k: nat)
    requires maxFails >= 1 && k >= 1
    ensures Run(maxFails, k, OneByOne(maxFails - 1) + ChecksThenDenials(k)).denials == maxFails + k - 1
  {
    var a, b := OneByOne(maxFails - 1), ChecksThenDenials(k);
    RunIsContinue(maxFails, k, a + b);
    ContinueAppend(maxFails, k, INIT, a, b);
    SequentialDenials(maxFails, k, maxFails - 1);
    ConcurrentDenials(maxFails, k, Conn(maxFails - 1, map[], maxFails - 1), k);
  }

  /** The same actions `n` times over. */
  function Repeated(round: seq<Action>, n: nat): seq<Action> {
    if n == 0 then [] else round + Repeated(round, n - 1)
  }

  lemma {:induction false} RepeatIsFree(maxFails: nat, k: nat, s: Conn, round: seq<Action>, n: nat)
    requires Continue(maxFails, k, s, round) == s
    ensures Continue(maxFails, k, s, Repeated(round, n)) == s
    decreases n
  {
    if n > 0 {
      var rest := Repeated(round, n - 1);
      RepeatIsFree(maxFails, k, s, round, n - 1);
      ContinueAppend(maxFails, k, s, round, rest);
      assert Repeated(round, n) == round + rest;
    }
  }

  /** Attempts that are not denied cost nothing: any number of them leaves the connection
      as it was. */
  lemma AllowedIsFree(maxFails: nat, k: nat, s: Conn, t: nat, n: nat)
    requires s.fails < maxFails && |s.tasks| < k && t !in s.tasks
    ensures Continue(maxFails, k, s, Repeated([Check(t), Leave(t)], n)) == s
  {
    OneVisit(maxFails, k, s, t);
    RepeatIsFree(maxFails, k, s, [Check(t), Leave(t)], n);
  }

  lemma OneVisit(maxFails: nat, k: nat, s: Conn, t: nat)
    requires s.fails < maxFails && |s.tasks| < k && t !in s.tasks
    ensures Continue(maxFails, k, s, [Check(t), Leave(t)]) == s
  {
    CheckEnters(maxFails, k, s, t);
    ContinueAround(maxFails, k, s, Check(t), [], Leave(t));
    assert [Check(t)] + [] + [Leave(t)] == [Check(t), Leave(t)];
    assert s.tasks[t := Judging] - {t} == s.tasks;
  }

  /** Once the counter has reached the cap nothing is evaluated any more. */
  lemma CapCloses(maxFails: nat, k: nat, s: Conn, t: nat)
    requires s.fails >= maxFails
    ensures Step(maxFails, k, s, Check(t)) == s
  {
  }
}
