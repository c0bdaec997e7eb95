// Whole runs of the monitor: the state, the effect log and each reply as
// functions of the sequence of events served so far.
module MonitorRuns {
  import opened Auth
  import opened Monitor

  ghost function After(reg: Registry, evs: seq<Event>): Mon {
    if evs == [] then INIT
    else Step(reg, After(reg, evs[..|evs| - 1]), evs[|evs| - 1]).state
  }

  ghost function Log(reg: Registry, evs: seq<Event>): seq<Effect> {
    if evs == [] then []
    else Log(reg, evs[..|evs| - 1]) + Step(reg, After(reg, evs[..|evs| - 1]), evs[|evs| - 1]).effects
  }

  ghost function Replies(reg: Registry, evs: seq<Event>): seq<Reply> {
    if evs == [] then []
    else Replies(reg, evs[..|evs| - 1]) + [Step(reg, After(reg, evs[..|evs| - 1]), evs[|evs| - 1]).reply]
  }

  /** What happened at event `i` of the run. */
  ghost function At(reg: Registry, evs: seq<Event>, i: nat): Outcome
    requires i < |evs|
  {
    Step(reg, After(reg, evs[..i]), evs[i])
  }

  lemma OneMore(reg: Registry, evs: seq<Event>, e: Event)
    ensures After(reg, evs + [e]) == Step(reg, After(reg, evs), e).state
    ensures Log(reg, evs + [e]) == Log(reg, evs) + Step(reg, After(reg, evs), e).effects
    ensures Replies(reg, evs + [e]) == Replies(reg, evs) + [Step(reg, After(reg, evs), e).reply]
  {
    assert (evs + [e])[..|evs|] == evs;
  }

  /** A run's past does not depend on its future. */
  lemma AtPrefix(reg: Registry, evs: seq<Event>, n: nat, i: nat)
    requires i < n <= |evs|
    ensures At(reg, evs[..n], i) == At(reg, evs, i)
  {
    assert evs[..n][..i] == evs[..i];
  }

  lemma {:induction false} RepliesAt(reg: Registry, evs: seq<Event>, i: nat)
    requires i < |evs|
    ensures |Replies(reg, evs)| == |evs| && Replies(reg, evs)[i] == At(reg, evs, i).reply
  {
    var n := |evs| - 1;
    if n > 0 {
      RepliesAt(reg, evs[..n], if i < n then i else 0);
      if i < n {
        AtPrefix(reg, evs, n, i);
      }
    }
  }

  /** The control loop: serve every request in turn. The object ends in the state
      of the run and has performed exactly the run's effects. */
  method ServeControl(reg: Registry, evs: seq<Event>) returns (st: State, replies: seq<Reply>)
    ensures st.Model() == After(reg, evs) && st.log == Log(reg, evs)
    ensures replies == Replies(reg, evs)
  {
    st := new State();
    replies := [];
    var k := 0;
    while k < |evs|
      invariant 0 <= k <= |evs|
      invariant fresh(st) && fresh(st.connSessions) && fresh(st.challenges)
      invariant st.Model() == After(reg, evs[..k]) && st.log == Log(reg, evs[..k]) && replies == Replies(reg, evs[..k])
    {
      OneMore(reg, evs[..k], evs[k]);
      assert evs[..k + 1] == evs[..k] + [evs[k]];
      var reply := st.Serve(reg, evs[k]);
      replies := replies + [reply];
      k := k + 1;
    }
    assert evs[..k] == evs;
  }
}
