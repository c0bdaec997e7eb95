// The token bucket in front of host-key signatures. The code refills lazily, when
// a request arrives; the reference below gains a token at every tick of a clock
// started with the bucket. Times are nanoseconds.
module SignThrottle {
  const SIGN_BURST: nat := 32
  const SIGN_REFILL: nat := 500_000_000
  const U32_MAX: nat := 0xFFFF_FFFF

  function Min(a: nat, b: nat): nat { if a <= b then a else b }

  // ---- the lazy bucket ----------------------------------------------------

  datatype Bucket = Bucket(tokens: nat, last: nat)

  /** Whole refill intervals since `last`; a clock reading before `last` counts as
      none. */
  function Intervals(b: Bucket, now: nat): nat {
    if now <= b.last then 0 else (now - b.last) / SIGN_REFILL
  }

  function Refill(b: Bucket, now: nat): Bucket {
    var gained := Min(Intervals(b, now), U32_MAX);
    if gained > 0
    then Bucket(Min(Min(b.tokens + gained, U32_MAX), SIGN_BURST), b.last + gained * SIGN_REFILL)
    else b
  }

  function Allow(b: Bucket, now: nat): (Bucket, bool) {
    var r := Refill(b, now);
    if r.tokens > 0 then (r.(tokens := r.tokens - 1), true) else (r, false)
  }

  /** The verdicts a bucket gives to requests at the given times. */
  function Verdicts(b: Bucket, times: seq<nat>): (v: seq<bool>)
    ensures |v| == |times|
    decreases |times|
  {
    if times == [] then []
    else var (b', ok) := Allow(b, times[0]); [ok] + Verdicts(b', times[1..])
  }

  class Throttle {
    var tokens: nat
    var last: nat

    constructor (now: nat)
      ensures tokens == SIGN_BURST && last == now
    {
      tokens, last := SIGN_BURST, now;
    }

    method TryAllow(now: nat) returns (ok: bool)
      modifies this
      ensures (Bucket(tokens, last), ok) == Allow(Bucket(old(tokens), old(last)), now)
    {
      var elapsed := if now <= last then 0 else now - last;
      var gained := Min(elapsed / SIGN_REFILL, U32_MAX);
      if gained > 0 {
        tokens := Min(Min(tokens + gained, U32_MAX), SIGN_BURST);
        last := last + gained * SIGN_REFILL;
      }
      if tokens > 0 {
        tokens := tokens - 1;
        ok := true;
      } else {
        ok := false;
      }
    }

    /** The signing loop's use of the bucket: one decision per request. */
    method Decide(times: seq<nat>) returns (v: seq<bool>)
      modifies this
      ensures v == Verdicts(Bucket(old(tokens), old(last)), times)
    {
      v := [];
      var k := 0;
      while k < |times|
        invariant 0 <= k <= |times|
        invariant v + Verdicts(Bucket(tokens, last), times[k..]) == Verdicts(Bucket(old(tokens), old(last)), times)
      {
        assert times[k..][0] == times[k] && times[k..][1..] == times[k + 1..];
        var ok := TryAllow(times[k]);
        v := v + [ok];
        k := k + 1;
      }
    }
  }

  // ---- the eager reference ------------------------------------------------

  /** Ticks of the reference clock, one every refill interval, up to `now`. */
  function Tick(start: nat, now: nat): nat
    requires start <= now
  {
    (now - start) / SIGN_REFILL
  }

  /** `n` ticks, each adding one token unless the bucket is full. */
  function AfterTicks(tokens: nat, n: nat): nat
    decreases n
  {
    if n == 0 then tokens else AfterTicks(if tokens < SIGN_BURST then tokens + 1 else tokens, n - 1)
  }

  lemma {:induction false} AfterTicksValue(tokens: nat, n: nat)
    requires tokens <= SIGN_BURST
    ensures AfterTicks(tokens, n) == Min(tokens + n, SIGN_BURST)
    decreases n
  {
    if n > 0 {
      AfterTicksValue(if tokens < SIGN_BURST then tokens + 1 else tokens, n - 1);
    }
  }

  /** Requests arrive in time order, none before `from`. */
  predicate Ordered(from: nat, times: seq<nat>)
    decreases |times|
  {
    times == [] || (from <= times[0] && Ordered(times[0], times[1..]))
  }

  /** The reference's verdicts; `seen` is the time up to which it has ticked. */
  function EagerVerdicts(start: nat, seen: nat, tokens: nat, times: seq<nat>): (v: seq<bool>)
    requires start <= seen && Ordered(seen, times)
    ensures |v| == |times|
    decreases |times|
  {
    if times == [] then []
    else
      var have := AfterTicks(tokens, Tick(start, times[0]) - Tick(start, seen));
      [have > 0] + EagerVerdicts(start, times[0], if have > 0 then have - 1 else have, times[1..])
  }

  // ---- refinement ---------------------------------------------------------

  /** The lazy bucket stands at the tick the reference has reached. */
  predicate InStep(b: Bucket, start: nat, seen: nat)
    requires start <= seen
  {
    b.tokens <= SIGN_BURST && b.last == start + Tick(start, seen) * SIGN_REFILL
  }

  /** No request comes 2^32 or more ticks after the one before it. */
  predicate NoClamp(start: nat, seen: nat, times: seq<nat>)
    requires start <= seen && Ordered(seen, times)
    decreases |times|
  {
    times == [] || (Tick(start, times[0]) - Tick(start, seen) <= U32_MAX && NoClamp(start, times[0], times[1..]))
  }

  lemma IntervalsAreTicks(b: Bucket, start: nat, seen: nat, now: nat)
    requires start <= seen <= now && InStep(b, start, seen)
    ensures Intervals(b, now) == Tick(start, now) - Tick(start, seen)
  {
    var k := Tick(start, seen);
    assert now - b.last == (now - start) - k * SIGN_REFILL;
    assert b.last <= seen;
  }

  /** One request: the lazy bucket gives the reference's verdict, and it is again at
      the reference's tick exactly when the gap was below 2^32 ticks. */
  lemma LazyStep(b: Bucket, start: nat, seen: nat, now: nat)
    requires start <= seen <= now && InStep(b, start, seen)
    ensures var have := AfterTicks(b.tokens, Tick(start, now) - Tick(start, seen));
            Allow(b, now).1 == (have > 0) && Allow(b, now).0.tokens == if have > 0 then have - 1 else have
    ensures InStep(Allow(b, now).0, start, now) <==> Tick(start, now) - Tick(start, seen) <= U32_MAX
  {
    IntervalsAreTicks(b, start, seen, now);
    AfterTicksValue(b.tokens, Tick(start, now) - Tick(start, seen));
  }

  /** The lazy bucket refines the eager one: same verdict for every request of
      every time-ordered sequence without a 2^32-tick gap. */
  lemma {:induction false} LazyRefinesEager(b: Bucket, start: nat, seen: nat, times: seq<nat>)
    requires start <= seen && Ordered(seen, times) && NoClamp(start, seen, times)
    requires InStep(b, start, seen)
    ensures Verdicts(b, times) == EagerVerdicts(start, seen, b.tokens, times)
    decreases |times|
  {
    if times != [] {
      var b', ok := Allow(b, times[0]).0, Allow(b, times[0]).1;
      LazyStep(b, start, seen, times[0]);
      LazyRefinesEager(b', start, times[0], times[1..]);
      assert Verdicts(b, times) == [ok] + Verdicts(b', times[1..]);
      var rest := EagerVerdicts(start, times[0], b'.tokens, times[1..]);
      assert EagerVerdicts(start, seen, b.tokens, times) == [ok] + rest;
    }
  }

  /** `n` requests at one instant. */
  function AtOnce(now: nat, n: nat): seq<nat> { if n == 0 then [] else [now] + AtOnce(now, n - 1) }

  lemma {:induction false} OrderedAtOnce(now: nat, n: nat)
    ensures |AtOnce(now, n)| == n && Ordered(now, AtOnce(now, n))
  {
    if n > 0 {
      OrderedAtOnce(now, n - 1);
    }
  }

  lemma {:induction false} EagerAtOnce(start: nat, now: nat, tokens: nat, n: nat)
    requires start <= now && tokens < n
    ensures |AtOnce(now, n)| == n && Ordered(now, AtOnce(now, n))
    ensures !EagerVerdicts(start, now, tokens, AtOnce(now, n))[tokens]
    decreases n
  {
    OrderedAtOnce(now, n);
    if tokens > 0 {
      EagerAtOnce(start, now, tokens - 1, n - 1);
    }
  }

  lemma {:induction false} LazyAtOnce(b: Bucket, now: nat, n: nat)
    requires 0 < n <= b.tokens <= SIGN_BURST
    ensures |AtOnce(now, n)| == n && Verdicts(b, AtOnce(now, n))[n - 1]
    decreases n
  {
    OrderedAtOnce(now, n);
    if n > 1 {
      LazyAtOnce(Allow(b, now).0, now, n - 1);
    }
  }

  lemma LazyAfterClamp(b: Bucket, now: nat)
    requires b.tokens == 31 && Intervals(b, now) >= 1
    ensures |AtOnce(now, 32)| == 32 && Verdicts(b, AtOnce(now, 32))[31]
  {
    OrderedAtOnce(now, 32);
    OrderedAtOnce(now, 31);
    var b2 := Allow(b, now).0;
    assert b2.tokens == 31;
    LazyAtOnce(b2, now, 31);
    assert AtOnce(now, 32)[1..] == AtOnce(now, 31);
    assert Verdicts(b, AtOnce(now, 32)) == [true] + Verdicts(b2, AtOnce(now, 31));
  }

  /** The bound on gaps is exact: after a longer gap, 33 requests at one instant
      are all allowed by the lazy bucket while the reference refuses the last. */
  lemma ClampIsVisible(b: Bucket, start: nat, seen: nat, now: nat)
    requires start <= seen <= now && InStep(b, start, seen)
    requires Tick(start, now) - Tick(start, seen) > U32_MAX
    ensures |AtOnce(now, 33)| == 33 && Ordered(now, AtOnce(now, 33))
    ensures Verdicts(b, AtOnce(now, 33))[32]
    ensures !EagerVerdicts(start, seen, b.tokens, AtOnce(now, 33))[32]
  {
    OrderedAtOnce(now, 33);
    assert AtOnce(now, 33)[1..] == AtOnce(now, 32);
    IntervalsAreTicks(b, start, seen, now);
    AfterTicksValue(b.tokens, Tick(start, now) - Tick(start, seen));
    EagerAtOnce(start, now, 31, 32);
    LazyAfterClamp(Allow(b, now).0, now);
  }

  // ---- consequences -------------------------------------------------------

  function Allowed(v: seq<bool>): nat {
    if v == [] then 0 else (if v[0] then 1 else 0) + Allowed(v[1..])
  }

  lemma {:induction false} LastInOrder(from: nat, times: seq<nat>)
    requires times != [] && Ordered(from, times)
    ensures from <= times[0] <= times[|times| - 1]
    decreases |times|
  {
    if |times| > 1 {
      LastInOrder(times[0], times[1..]);
    }
  }

  lemma {:induction false} EagerWindow(start: nat, seen: nat, tokens: nat, times: seq<nat>)
    requires start <= seen && times != [] && Ordered(seen, times) && tokens <= SIGN_BURST
    ensures start <= times[0] <= times[|times| - 1]
    ensures Allowed(EagerVerdicts(start, seen, tokens, times))
            <= Min(tokens + Tick(start, times[0]) - Tick(start, seen), SIGN_BURST)
               + Tick(start, times[|times| - 1]) - Tick(start, times[0])
    decreases |times|
  {
    LastInOrder(seen, times);
    var d := Tick(start, times[0]) - Tick(start, seen);
    AfterTicksValue(tokens, d);
    var have := AfterTicks(tokens, d);
    var v := EagerVerdicts(start, seen, tokens, times);
    var left: nat := if have > 0 then have - 1 else have;
    assert v[1..] == EagerVerdicts(start, times[0], left, times[1..]);
    if |times| > 1 {
      EagerWindow(start, times[0], left, times[1..]);
    }
  }

  lemma WindowBound(b: Bucket, start: nat, seen: nat, times: seq<nat>)
    requires start <= seen && times != [] && Ordered(seen, times) && NoClamp(start, seen, times)
    requires InStep(b, start, seen)
    ensures times[0] <= times[|times| - 1]
    ensures Allowed(Verdicts(b, times)) <= SIGN_BURST + (times[|times| - 1] - times[0]) / SIGN_REFILL + 1
  {
    LazyRefinesEager(b, start, seen, times);
    EagerWindow(start, seen, b.tokens, times);
  }

  lemma {:induction false} PrefixRun(b: Bucket, start: nat, seen: nat, times: seq<nat>, n: nat)
    requires start <= seen && n <= |times| && Ordered(seen, times) && NoClamp(start, seen, times)
    ensures Ordered(seen, times[..n]) && NoClamp(start, seen, times[..n])
    ensures Verdicts(b, times[..n]) == Verdicts(b, times)[..n]
    decreases n
  {
    if n > 0 {
      PrefixRun(Allow(b, times[0]).0, start, times[0], times[1..], n - 1);
      assert times[..n][1..] == times[1..][..n - 1];
    }
  }

  /** In any run, the requests `i` to `j` (at times s and t) get at most
      SIGN_BURST + floor((t - s) / SIGN_REFILL) + 1 signatures. */
  lemma {:induction false} AnyWindow(b: Bucket, start: nat, seen: nat, times: seq<nat>, i: nat, j: nat)
    requires start <= seen && Ordered(seen, times) && NoClamp(start, seen, times)
    requires InStep(b, start, seen) && i <= j < |times|
    ensures times[i] <= times[j]
    ensures Allowed(Verdicts(b, times)[i..j + 1]) <= SIGN_BURST + (times[j] - times[i]) / SIGN_REFILL + 1
    decreases i
  {
    if i == 0 {
      PrefixRun(b, start, seen, times, j + 1);
      WindowBound(b, start, seen, times[..j + 1]);
    } else {
      LazyStep(b, start, seen, times[0]);
      AnyWindow(Allow(b, times[0]).0, start, times[0], times[1..], i - 1, j - 1);
      assert Verdicts(b, times)[i..j + 1] == Verdicts(Allow(b, times[0]).0, times[1..])[i - 1..j];
    }
  }

  predicate Spaced(times: seq<nat>) {
    forall i :: 0 < i < |times| ==> times[i] >= times[i - 1] + SIGN_REFILL
  }

  /** Requests at least one refill interval apart are never refused. */
  lemma {:induction false} SpacedNeverRefused(b: Bucket, times: seq<nat>)
    requires b.tokens <= SIGN_BURST
    requires times != [] ==> b.tokens > 0 || b.last + SIGN_REFILL <= times[0]
    requires times != [] ==> b.last <= times[0]
    requires Spaced(times)
    ensures forall i :: 0 <= i < |times| ==> Verdicts(b, times)[i]
    decreases |times|
  {
    if times != [] {
      var b' := Allow(b, times[0]).0;
      assert b'.last <= times[0] by {
        var gained := Min(Intervals(b, times[0]), U32_MAX);
        assert gained * SIGN_REFILL <= times[0] - b.last;
      }
      SpacedNeverRefused(b', times[1..]);
    }
  }
}
