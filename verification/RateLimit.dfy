// Per-IP limits of the accept path: a cap on live connections, released by guards,
// and an exponential backoff after failed logins. Times are nanoseconds.
module RateLimit {
  import opened Base

  const ENTRY_TTL: int := 600_000_000_000
  const U32_MAX: nat := 0xFFFF_FFFF
  /** The longest representable duration. */
  const DURATION_MAX: nat := 0xFFFF_FFFF_FFFF_FFFF * 1_000_000_000 + 999_999_999

  type Ip = nat

  datatype Entry = Entry(conns: nat, fails: nat, lastSeen: int)

  /** `entries` is the program's map; `guards` counts the guards alive per address. */
  datatype Limiter = Limiter(entries: map<Ip, Entry>, guards: multiset<Ip>)

  const INIT := Limiter(map[], multiset{})

  datatype Op =
    | Admit(ip: Ip, now: int)
    | DropGuard(ip: Ip, now: int)
    | Failure(ip: Ip, now: int)
    | Success(ip: Ip, now: int)

  /** The lazy sweep: idle entries go, entries with connections stay. */
  function Sweep(m: map<Ip, Entry>, now: int): map<Ip, Entry> {
    map ip | ip in m && (m[ip].conns > 0 || Since(m[ip].lastSeen, now) < ENTRY_TTL) :: m[ip]
  }

  function Since(earlier: int, now: int): int { if now <= earlier then 0 else now - earlier }

  function EntryOf(m: map<Ip, Entry>, ip: Ip, now: int): Entry {
    if ip in m then m[ip] else Entry(0, 0, now)
  }

  function Step(cap: nat, s: Limiter, op: Op): Limiter {
    match op
    case Admit(ip, now) =>
      var m := Sweep(s.entries, now);
      var e := EntryOf(m, ip, now);
      if e.conns >= cap then s.(entries := m[ip := e])
      else Limiter(m[ip := Entry(e.conns + 1, e.fails, now)], s.guards + multiset{ip})
    case DropGuard(ip, now) =>
      if ip !in s.guards then s
      else
        var rest := s.guards - multiset{ip};
        if ip !in s.entries then Limiter(s.entries, rest)
        else
          var e := s.entries[ip];
          Limiter(s.entries[ip := Entry(if e.conns > 0 then e.conns - 1 else 0, e.fails, now)], rest)
    case Failure(ip, now) =>
      var e := EntryOf(s.entries, ip, now);
      s.(entries := s.entries[ip := Entry(e.conns, if e.fails < U32_MAX then e.fails + 1 else e.fails, now)])
    case Success(ip, now) =>
      if ip in s.entries then s.(entries := s.entries[ip := Entry(s.entries[ip].conns, 0, now)]) else s
  }

  class RateLimiter {
    var inner: map<Ip, Entry>
    const maxConnsPerIp: nat
    const baseBackoff: nat
    const maxBackoff: nat
    ghost var guards: multiset<Ip>

    constructor (maxConnsPerIp: nat, baseBackoff: nat, maxBackoff: nat)
      ensures Model() == INIT
      ensures this.maxConnsPerIp == maxConnsPerIp && this.baseBackoff == baseBackoff && this.maxBackoff == maxBackoff
    {
      inner, guards := map[], multiset{};
      this.maxConnsPerIp, this.baseBackoff, this.maxBackoff := maxConnsPerIp, baseBackoff, maxBackoff;
    }

    ghost function Model(): Limiter
      reads this
    {
      Limiter(inner, guards)
    }

    method TryAdmit(ip: Ip, now: int) returns (admitted: bool)
      requires Inv(maxConnsPerIp, Model())
      modifies this
      ensures Model() == Step(maxConnsPerIp, old(Model()), Admit(ip, now))
      ensures admitted <==> old(guards)[ip] < maxConnsPerIp
      ensures guards == old(guards) + if admitted then multiset{ip} else multiset{}
      ensures Inv(maxConnsPerIp, Model())
    {
      AdmitsBelowCap(maxConnsPerIp, Model(), ip, now);
      StepKeeps(maxConnsPerIp, Model(), Admit(ip, now));
      inner := Sweep(inner, now);
      var e := EntryOf(inner, ip, now);
      Overwrite(inner, ip, e, Entry(e.conns + 1, e.fails, now));
      inner := inner[ip := e];
      if e.conns >= maxConnsPerIp {
        return false;
      }
      inner := inner[ip := Entry(e.conns + 1, e.fails, now)];
      guards := guards + multiset{ip};
      admitted := true;
    }

    /** The guard's drop. */
    method Release(ip: Ip, now: int)
      requires Inv(maxConnsPerIp, Model()) && ip in guards
      modifies this
      ensures Model() == Step(maxConnsPerIp, old(Model()), DropGuard(ip, now))
      ensures ip in old(inner) && ip in inner && inner[ip].conns == old(inner)[ip].conns - 1
      ensures guards == old(guards) - multiset{ip}
      ensures Inv(maxConnsPerIp, Model())
    {
      StepKeeps(maxConnsPerIp, Model(), DropGuard(ip, now));
      assert Conns(inner, ip) == guards[ip];
      if ip in inner {
        var e := inner[ip];
        inner := inner[ip := Entry(if e.conns > 0 then e.conns - 1 else 0, e.fails, now)];
      }
      guards := guards - multiset{ip};
    }

    method RecordFailure(ip: Ip, now: int)
      modifies this
      ensures Model() == Step(maxConnsPerIp, old(Model()), Failure(ip, now))
    {
      var e := EntryOf(inner, ip, now);
      inner := inner[ip := Entry(e.conns, if e.fails < U32_MAX then e.fails + 1 else e.fails, now)];
    }

    method RecordSuccess(ip: Ip, now: int)
      modifies this
      ensures Model() == Step(maxConnsPerIp, old(Model()), Success(ip, now))
    {
      if ip in inner {
        inner := inner[ip := Entry(inner[ip].conns, 0, now)];
      }
    }

    method CurrentBackoff(ip: Ip) returns (d: nat)
      ensures d == Backoff(baseBackoff, maxBackoff, if ip in inner then inner[ip].fails else 0)
    {
      var fails := if ip in inner then inner[ip].fails else 0;
      if fails == 0 {
        return 0;
      }
      var shift := Min(fails - 1, 16);
      d := Min(Min(baseBackoff * Pow2(shift), DURATION_MAX), maxBackoff);
    }
  }

  // ---- guards and counters ------------------------------------------------

  function Conns(m: map<Ip, Entry>, ip: Ip): nat { if ip in m then m[ip].conns else 0 }

  /** The counter of every address is its number of live guards, and within the cap. */
  ghost predicate Inv(cap: nat, s: Limiter) {
    forall ip: Ip :: Conns(s.entries, ip) == s.guards[ip] <= cap
  }

  /** The sweep never drops an entry with a live guard. */
  lemma SweepKeepsLive(cap: nat, s: Limiter, now: int)
    requires Inv(cap, s)
    ensures forall ip: Ip :: ip in s.guards ==> ip in Sweep(s.entries, now)
    ensures forall ip: Ip :: Conns(Sweep(s.entries, now), ip) == s.guards[ip]
  {
    forall ip: Ip
      ensures Conns(Sweep(s.entries, now), ip) == s.guards[ip]
      ensures ip in s.guards ==> ip in Sweep(s.entries, now)
    {
      assert Conns(s.entries, ip) == s.guards[ip];
    }
  }

  lemma Overwrite(m: map<Ip, Entry>, ip: Ip, e: Entry, e': Entry)
    ensures m[ip := e][ip := e'] == m[ip := e']
  {
  }

  lemma AdmitsBelowCap(cap: nat, s: Limiter, ip: Ip, now: int)
    requires Inv(cap, s)
    ensures EntryOf(Sweep(s.entries, now), ip, now).conns == s.guards[ip]
  {
    SweepKeepsLive(cap, s, now);
    assert Conns(Sweep(s.entries, now), ip) == s.guards[ip];
  }

  lemma StepKeeps(cap: nat, s: Limiter, op: Op)
    requires Inv(cap, s)
    ensures Inv(cap, Step(cap, s, op))
  {
    if op.Admit? {
      AdmitKeeps(cap, s, op.ip, op.now);
    } else {
      var s' := Step(cap, s, op);
      forall ip: Ip ensures Conns(s'.entries, ip) == s'.guards[ip] <= cap {
        assert Conns(s.entries, ip) == s.guards[ip] <= cap;
      }
    }
  }

  lemma AdmitKeeps(cap: nat, s: Limiter, ip: Ip, now: int)
    requires Inv(cap, s)
    ensures Inv(cap, Step(cap, s, Admit(ip, now)))
  {
    var s' := Step(cap, s, Admit(ip, now));
    SweepKeepsLive(cap, s, now);
    forall other: Ip ensures Conns(s'.entries, other) == s'.guards[other] <= cap {
      assert Conns(s.entries, other) == s.guards[other] <= cap;
      assert Conns(Sweep(s.entries, now), other) == s.guards[other];
    }
  }

  function Run(cap: nat, ops: seq<Op>): Limiter {
    if ops == [] then INIT else Step(cap, Run(cap, ops[..|ops| - 1]), ops[|ops| - 1])
  }

  /** In every reachable state, each address's counter equals its live guards and
      never exceeds the cap; hence every guard finds its entry, with a positive
      counter, when it is dropped. */
  lemma {:induction false} EveryRunCounts(cap: nat, ops: seq<Op>)
    ensures Inv(cap, Run(cap, ops))
    ensures var s := Run(cap, ops); forall ip :: ip in s.guards ==> ip in s.entries && s.entries[ip].conns >= 1
  {
    if ops != [] {
      EveryRunCounts(cap, ops[..|ops| - 1]);
      StepKeeps(cap, Run(cap, ops[..|ops| - 1]), ops[|ops| - 1]);
    }
    var s := Run(cap, ops);
    forall ip | ip in s.guards ensures ip in s.entries && s.entries[ip].conns >= 1 {
      assert Conns(s.entries, ip) == s.guards[ip];
    }
  }

  // ---- one address at a time ----------------------------------------------

  ghost function EntryFor(s: Limiter, ip: Ip): Option<Entry> {
    if ip in s.entries then Some(s.entries[ip]) else None
  }

  /** Nobody from `ip` is connected and nothing has been heard of it for ten minutes. */
  ghost predicate Idle(s: Limiter, ip: Ip, now: int) {
    s.guards[ip] == 0 && ip in s.entries && now - s.entries[ip].lastSeen >= 600_000_000_000
  }

  /** What is known of `ip` after the sweep that an arrival starts. */
  ghost function Kept(s: Limiter, op: Op, ip: Ip): Option<Entry> {
    if op.Admit? && Idle(s, ip, op.now) then None else EntryFor(s, ip)
  }

  ghost function Failed(e: Option<Entry>): nat { if e.Some? then e.value.fails else 0 }

  /** What one operation does to one address, in terms of its live guards: the others'
      operations only ever sweep it, its own count one guard, one failure or a reset, and
      mark it as seen. */
  ghost function Next(cap: nat, s: Limiter, op: Op, ip: Ip): Option<Entry> {
    var kept, n := Kept(s, op, ip), s.guards[ip];
    if op.ip != ip then kept
    else match op
      case Admit(_, now) =>
        if n < cap then Some(Entry(n + 1, Failed(kept), now))
        else if kept.Some? then kept else Some(Entry(0, 0, now))
      case DropGuard(_, now) => if n == 0 then kept else Some(Entry(n - 1, Failed(kept), now))
      case Failure(_, now) => Some(Entry(n, Min(Failed(kept) + 1, U32_MAX), now))
      case Success(_, now) => if kept.Some? then Some(Entry(n, 0, now)) else None
  }

  lemma AdmitStep(cap: nat, s: Limiter, who: Ip, now: int, ip: Ip)
    requires Inv(cap, s)
    ensures EntryFor(Step(cap, s, Admit(who, now)), ip) == Next(cap, s, Admit(who, now), ip)
    ensures Step(cap, s, Admit(who, now)).guards[ip]
         == s.guards[ip] + if who == ip && s.guards[ip] < cap then 1 else 0
  {
    SweepsIdle(cap, s, now, ip);
    AdmitsBelowCap(cap, s, who, now);
  }

  lemma OtherStep(cap: nat, s: Limiter, op: Op, ip: Ip)
    requires Inv(cap, s) && Failed(EntryFor(s, ip)) <= U32_MAX && !op.Admit?
    ensures EntryFor(Step(cap, s, op), ip) == Next(cap, s, op, ip)
    ensures Step(cap, s, op).guards[ip]
         == s.guards[ip] - if op.ip == ip && op.DropGuard? && s.guards[ip] > 0 then 1 else 0
  {
    assert Conns(s.entries, ip) == s.guards[ip];
  }

  lemma AddressStep(cap: nat, s: Limiter, op: Op, ip: Ip)
    requires Inv(cap, s) && Failed(EntryFor(s, ip)) <= U32_MAX
    ensures EntryFor(Step(cap, s, op), ip) == Next(cap, s, op, ip)
    ensures Step(cap, s, op).guards[ip] == s.guards[ip]
              + (if op.ip == ip && op.Admit? && s.guards[ip] < cap then 1 else 0)
              - (if op.ip == ip && op.DropGuard? && s.guards[ip] > 0 then 1 else 0)
  {
    if op.Admit? {
      AdmitStep(cap, s, op.ip, op.now, ip);
    } else {
      OtherStep(cap, s, op, ip);
    }
  }

  /** The sweep drops exactly the idle addresses. */
  lemma SweepsIdle(cap: nat, s: Limiter, now: int, ip: Ip)
    requires Inv(cap, s)
    ensures ip in Sweep(s.entries, now) <==> ip in s.entries && !Idle(s, ip, now)
  {
    assert Conns(s.entries, ip) == s.guards[ip];
  }

  /** The failures of `ip` since its last success, or since it was last forgotten. */
  ghost function RecentFailures(cap: nat, ops: seq<Op>, ip: Ip): nat {
    if ops == [] then 0
    else
      var init, op := ops[..|ops| - 1], ops[|ops| - 1];
      var before := RecentFailures(cap, init, ip);
      if op.Admit? && Idle(Run(cap, init), ip, op.now) then 0
      else if op.ip == ip && op.Success? then 0
      else if op.ip == ip && op.Failure? then before + 1
      else before
  }

  /** In every run the recorded failures of an address are its failures since its last
      success or since it was forgotten, up to the counter's largest value. */
  lemma {:induction false} EveryRunFails(cap: nat, ops: seq<Op>, ip: Ip)
    ensures Failed(EntryFor(Run(cap, ops), ip)) == Min(RecentFailures(cap, ops, ip), U32_MAX)
  {
    if ops != [] {
      var init := ops[..|ops| - 1];
      EveryRunFails(cap, init, ip);
      EveryRunCounts(cap, init);
      AddressStep(cap, Run(cap, init), ops[|ops| - 1], ip);
    }
  }

  // ---- backoff ------------------------------------------------------------

  function Min(a: nat, b: nat): nat { if a <= b then a else b }

  function Pow2(n: nat): nat { if n == 0 then 1 else 2 * Pow2(n - 1) }

  function Backoff(base: nat, max: nat, fails: nat): nat {
    if fails == 0 then 0 else Min(Min(base * Pow2(Min(fails - 1, 16)), DURATION_MAX), max)
  }

  /** The documented law: base * 2^(fails - 1), capped. */
  function DocumentedBackoff(base: nat, max: nat, fails: nat): nat {
    if fails == 0 then 0 else Min(base * Pow2(fails - 1), max)
  }

  lemma {:induction false} Pow2Grows(a: nat, b: nat)
    requires a <= b
    ensures 1 <= Pow2(a) <= Pow2(b)
    decreases b
  {
    if a < b {
      Pow2Grows(a, b - 1);
    } else if a > 0 {
      Pow2Grows(a - 1, a - 1);
    }
  }

  lemma ScaleGrows(base: nat, x: nat, y: nat)
    requires x <= y
    ensures base * x <= base * y
  {
  }

  /** More failures never mean a shorter wait. */
  lemma BackoffMonotone(base: nat, max: nat, f: nat, g: nat)
    requires f <= g
    ensures Backoff(base, max, f) <= Backoff(base, max, g)
  {
    if f > 0 {
      Pow2Grows(Min(f - 1, 16), Min(g - 1, 16));
      ScaleGrows(base, Pow2(Min(f - 1, 16)), Pow2(Min(g - 1, 16)));
    }
  }

  lemma BackoffAsDocumented(base: nat, max: nat, fails: nat)
    requires max <= DURATION_MAX && (base == 0 || base * Pow2(16) >= max)
    ensures Backoff(base, max, fails) == DocumentedBackoff(base, max, fails)
  {
    if fails > 17 {
      Pow2Grows(16, fails - 1);
      ScaleGrows(base, Pow2(16), Pow2(fails - 1));
    }
  }

  /** The code follows the documented law for every failure count exactly when the
      shift limit of 16 doublings already reaches the cap. */
  lemma BackoffExactly(base: nat, max: nat)
    requires max <= DURATION_MAX
    ensures (forall fails: nat :: Backoff(base, max, fails) == DocumentedBackoff(base, max, fails))
       <==> base == 0 || base * Pow2(16) >= max
  {
    if base == 0 || base * Pow2(16) >= max {
      forall fails: nat ensures Backoff(base, max, fails) == DocumentedBackoff(base, max, fails) {
        BackoffAsDocumented(base, max, fails);
      }
    } else {
      assert Pow2(17) == 2 * Pow2(16);
      Pow2Grows(0, 16);
      assert base * Pow2(17) == base * Pow2(16) + base * Pow2(16);
      ScaleGrows(base, 1, Pow2(16));
      assert Backoff(base, max, 18) != DocumentedBackoff(base, max, 18);
    }
  }
}
