// Inbound connections of remote (`-R`) forwarding, parked until the client opens
// the matching data channel. Each action below is one atomic section of the code;
// a run is any interleaving of them.
module Parking {
  import opened Base

  const MAX_PARKED: nat := 128

  /** An accepted socket and the connection whose listener accepted it. */
  datatype Inbound = Inbound(conn: nat, socket: nat)

  /** How a socket left: handed to a data channel of connection `taker`, timed out,
      taken back by the listener, or refused because the table was full. */
  datatype Fate =
    | Bridged(ref: nat, taker: nat)
    | Expired(ref: nat)
    | Reclaimed(ref: nat)
    | Refused(ref: nat)

  /** `parked` and `nextRef` are the program's; the rest records every socket ever
      accepted by its reference number, which of them are not yet in the table,
      which timers are running, and how sockets left, in order. */
  datatype Park = Park(
    parked: map<nat, Inbound>,
    nextRef: nat,
    accepted: map<nat, Inbound>,
    arriving: set<nat>,
    timers: set<nat>,
    log: seq<Fate>)

  const INIT := Park(map[], 1, map[], {}, {}, [])

  datatype Action =
    | Accept(conn: nat, socket: nat)
    | Insert(ref: nat)
    | Take(conn: nat, ref: nat)
    | Timer(ref: nat)
    | HangUp(ref: nat)

  /** `take_conn`: the table entry, if it belongs to `conn`. */
  predicate Takes(parked: map<nat, Inbound>, conn: nat, ref: nat) {
    ref in parked && parked[ref].conn == conn
  }

  function Step(p: Park, a: Action): Park {
    match a
    case Accept(conn, socket) =>
      p.(nextRef := p.nextRef + 1,
         accepted := p.accepted[p.nextRef := Inbound(conn, socket)],
         arriving := p.arriving + {p.nextRef})
    case Insert(ref) =>
      if ref !in p.arriving || ref !in p.accepted then p
      else if |p.parked| >= MAX_PARKED then p.(arriving := p.arriving - {ref}, log := p.log + [Refused(ref)])
      else p.(arriving := p.arriving - {ref},
              parked := p.parked[ref := p.accepted[ref]],
              timers := p.timers + {ref})
    case Take(conn, ref) =>
      if Takes(p.parked, conn, ref) then p.(parked := p.parked - {ref}, log := p.log + [Bridged(ref, conn)]) else p
    case Timer(ref) =>
      if ref !in p.timers then p
      else if ref in p.parked
      then p.(timers := p.timers - {ref}, parked := p.parked - {ref}, log := p.log + [Expired(ref)])
      else p.(timers := p.timers - {ref})
    case HangUp(ref) =>
      // The listen loop could not signal the client: it takes back the socket it parked.
      if ref in p.accepted && Takes(p.parked, p.accepted[ref].conn, ref)
      then p.(parked := p.parked - {ref}, log := p.log + [Reclaimed(ref)])
      else p
  }

  function Run(actions: seq<Action>): Park {
    if actions == [] then INIT else Step(Run(actions[..|actions| - 1]), actions[|actions| - 1])
  }

  /** The table, updated in place under its lock. */
  class ParkTable {
    var parked: map<nat, Inbound>
    var nextRef: nat
    ghost var past: Park

    constructor ()
      ensures Model() == INIT
    {
      parked, nextRef, past := map[], 1, INIT;
    }

    ghost function Model(): Park
      reads this
    {
      past.(parked := parked, nextRef := nextRef)
    }

    /** First half of `park_conn`: number the socket. */
    method Reserve(conn: nat, socket: nat) returns (ref: nat)
      modifies this
      ensures ref == old(nextRef) && Model() == Step(old(Model()), Accept(conn, socket))
      ensures nextRef == old(nextRef) + 1 && parked == old(parked)
    {
      ref := nextRef;
      nextRef := nextRef + 1;
      past := Step(old(Model()), Accept(conn, socket));
    }

    /** Second half, under the lock: false when the table is full. */
    method ParkConn(ref: nat, conn: nat, socket: nat) returns (ok: bool)
      requires ref in Model().arriving && ref in Model().accepted && Model().accepted[ref] == Inbound(conn, socket)
      modifies this
      ensures Model() == Step(old(Model()), Insert(ref))
      ensures ok == (|old(parked)| < MAX_PARKED)
      ensures parked == if ok then old(parked)[ref := Inbound(conn, socket)] else old(parked)
    {
      past := Step(Model(), Insert(ref));
      if |parked| >= MAX_PARKED {
        return false;
      }
      parked := parked[ref := Inbound(conn, socket)];
      ok := true;
    }

    method TakeConn(conn: nat, ref: nat) returns (socket: Option<nat>)
      modifies this
      ensures Model() == Step(old(Model()), Take(conn, ref))
      ensures socket.Some? <==> ref in old(parked) && old(parked)[ref].conn == conn
      ensures socket.Some? ==> old(parked)[ref] == Inbound(conn, socket.value)
      ensures parked == if socket.Some? then old(parked) - {ref} else old(parked)
    {
      past := Step(Model(), Take(conn, ref));
      if ref in parked && parked[ref].conn == conn {
        socket := Some(parked[ref].socket);
        parked := parked - {ref};
      } else {
        socket := None;
      }
    }

    method Expire(ref: nat) returns (evicted: bool)
      requires ref in Model().timers
      modifies this
      ensures Model() == Step(old(Model()), Timer(ref))
      ensures evicted == (ref in old(parked)) && parked == old(parked) - {ref}
    {
      past := Step(Model(), Timer(ref));
      evicted := ref in parked;
      parked := parked - {ref};
    }
  }

  // ---- invariant ----------------------------------------------------------

  /** How often the socket numbered `ref` has left. */
  ghost function Left(log: seq<Fate>, ref: nat): nat {
    if log == [] then 0 else Left(log[..|log| - 1], ref) + (if log[|log| - 1].ref == ref then 1 else 0)
  }

  lemma LeftSnoc(log: seq<Fate>, f: Fate)
    ensures forall r :: Left(log + [f], r) == Left(log, r) + (if f.ref == r then 1 else 0)
  {
    assert (log + [f])[..|log|] == log;
  }

  /** Every socket ever accepted is about to be parked, parked, or has left once;
      never two of these, and a socket that was not accepted is none. */
  ghost predicate Conserved(p: Park) {
    forall r: nat ::
      (if r in p.arriving then 1 else 0) + (if r in p.parked then 1 else 0) + Left(p.log, r)
        == if r in p.accepted then 1 else 0
  }

  /** The table holds what was accepted under that number, and only the connection
      that accepted a socket has bridged it. */
  ghost predicate Owned(p: Park) {
    && (forall r :: r in p.parked ==> r in p.accepted && p.parked[r] == p.accepted[r])
    && (forall f :: f in p.log && f.Bridged? ==> f.ref in p.accepted && p.accepted[f.ref].conn == f.taker)
  }

  ghost predicate Inv(p: Park) {
    && Conserved(p) && Owned(p) && |p.parked| <= MAX_PARKED
    && 1 <= p.nextRef && (forall r :: r in p.accepted <==> 1 <= r < p.nextRef)
  }

  lemma SizeUpdate(m: map<nat, Inbound>, r: nat, x: Inbound)
    ensures |m[r := x]| <= |m| + 1
    ensures |m - {r}| <= |m|
  {
    assert m[r := x].Keys == m.Keys + {r};
    assert (m - {r}).Keys == m.Keys - {r};
  }

  lemma AcceptKeeps(p: Park, conn: nat, socket: nat)
    requires Inv(p)
    ensures Inv(Step(p, Accept(conn, socket)))
  {
  }

  lemma RefuseKeeps(p: Park, ref: nat)
    requires Inv(p) && ref in p.arriving
    ensures Inv(p.(arriving := p.arriving - {ref}, log := p.log + [Refused(ref)]))
  {
    LeftSnoc(p.log, Refused(ref));
  }

  lemma ParkKeeps(p: Park, ref: nat)
    requires Inv(p) && ref in p.arriving && ref in p.accepted && |p.parked| < MAX_PARKED
    ensures Inv(p.(
      arriving := p.arriving - {ref}, parked := p.parked[ref := p.accepted[ref]], timers := p.timers + {ref}))
  {
    var x := p.accepted[ref];
    SizeUpdate(p.parked, ref, x);
    var q := p.(arriving := p.arriving - {ref}, parked := p.parked[ref := x], timers := p.timers + {ref});
    assert Conserved(q) by {
      forall r: nat ensures (if r in q.arriving then 1 else 0) + (if r in q.parked then 1 else 0) + Left(q.log, r)
                         == if r in q.accepted then 1 else 0
      {
        assert (if r in p.arriving then 1 else 0) + (if r in p.parked then 1 else 0) + Left(p.log, r)
            == if r in p.accepted then 1 else 0;
      }
    }
  }

  lemma RemoveKeeps(p: Park, f: Fate, timers: set<nat>)
    requires Inv(p) && f.ref in p.parked && (f.Bridged? ==> f.taker == p.parked[f.ref].conn)
    ensures Inv(p.(parked := p.parked - {f.ref}, log := p.log + [f], timers := timers))
  {
    LeftSnoc(p.log, f);
    SizeUpdate(p.parked, f.ref, p.parked[f.ref]);
  }

  lemma StepKeeps(p: Park, a: Action)
    requires Inv(p)
    ensures Inv(Step(p, a))
  {
    match a
    case Accept(conn, socket) => AcceptKeeps(p, conn, socket);
    case Insert(ref) =>
      if ref in p.arriving && ref in p.accepted {
        if |p.parked| >= MAX_PARKED { RefuseKeeps(p, ref); } else { ParkKeeps(p, ref); }
      }
    case _ => DepartureKeeps(p, a);
  }

  lemma DepartureKeeps(p: Park, a: Action)
    requires Inv(p) && (a.Take? || a.Timer? || a.HangUp?)
    ensures Inv(Step(p, a))
  {
    if a.ref in p.parked {
      match a
      case Take(conn, ref) => if Takes(p.parked, conn, ref) { RemoveKeeps(p, Bridged(ref, conn), p.timers); }
      case Timer(ref) => RemoveKeeps(p, Expired(ref), p.timers - {ref});
      case HangUp(ref) => RemoveKeeps(p, Reclaimed(ref), p.timers);
    }
  }

  /** In every interleaving: each accepted socket is in exactly one place (arriving,
      parked, or gone by exactly one of the four fates); at most MAX_PARKED are
      parked; and a socket is bridged only by the connection that accepted it. */
  lemma {:induction false} EveryRunConserves(actions: seq<Action>)
    ensures Inv(Run(actions))
  {
    if actions != [] {
      EveryRunConserves(actions[..|actions| - 1]);
      StepKeeps(Run(actions[..|actions| - 1]), actions[|actions| - 1]);
    }
  }

  /** A timer removes at most the entry it was started for, and only while that entry
      is still waiting. */
  lemma TimerEvictsOnlyItsOwn(p: Park, ref: nat)
    requires Inv(p)
    ensures var q := Step(p, Timer(ref));
            && (forall r :: r in p.parked && r != ref ==> r in q.parked && q.parked[r] == p.parked[r])
            && q.log == (if ref in p.timers && ref in p.parked then p.log + [Expired(ref)] else p.log)
            && (Left(p.log, ref) > 0 ==> q.parked == p.parked && q.log == p.log)
            && q.timers == p.timers - {ref} && q.accepted == p.accepted && q.arriving == p.arriving
  {
    assert Left(p.log, ref) > 0 ==> ref !in p.parked;
  }

  lemma StepLogGrows(p: Park, a: Action)
    ensures p.log <= Step(p, a).log
  {
  }

  lemma {:induction false} LeftGrows(log: seq<Fate>, more: seq<Fate>, r: nat)
    requires log <= more
    ensures Left(log, r) <= Left(more, r)
    decreases |more|
  {
    if |log| < |more| {
      LeftGrows(log, more[..|more| - 1], r);
    } else {
      assert log == more;
    }
  }

  lemma {:induction false} LogGrows(actions: seq<Action>, n: nat)
    requires n <= |actions|
    ensures Run(actions[..n]).log <= Run(actions).log
    decreases |actions|
  {
    if n == |actions| {
      assert actions[..n] == actions;
    } else {
      var init := actions[..|actions| - 1];
      LogGrows(init, n);
      assert init[..n] == actions[..n];
      StepLogGrows(Run(init), actions[|actions| - 1]);
    }
  }

  /** A fate is final: a socket that has left by step `n` of a run has left once, and
      its number is never in the table again, so a late timer or a second take
      finds nothing. */
  lemma FateIsFinal(actions: seq<Action>, n: nat, r: nat)
    requires n <= |actions| && Left(Run(actions[..n]).log, r) > 0
    ensures Left(Run(actions).log, r) == 1 && r !in Run(actions).parked
  {
    EveryRunConserves(actions);
    LogGrows(actions, n);
    LeftGrows(Run(actions[..n]).log, Run(actions).log, r);
  }

  // ---- takes --------------------------------------------------------------

  /** Action `i` is a take that finds its socket. */
  ghost predicate Finds(actions: seq<Action>, i: nat) {
    && i < |actions| && actions[i].Take?
    && var p := Run(actions[..i]); actions[i].ref in p.parked && p.parked[actions[i].ref].conn == actions[i].conn
  }

  lemma RunNext(actions: seq<Action>, i: nat)
    requires i < |actions|
    ensures Run(actions[..i + 1]) == Step(Run(actions[..i]), actions[i])
  {
    assert actions[..i + 1][..i] == actions[..i];
  }

  /** In every run: a take finds its socket exactly when the socket is bridged by it, and
      it is the socket that this connection's listener accepted under that number; the
      table then no longer holds it, and otherwise the take changes nothing. */
  lemma TakeBridges(actions: seq<Action>, i: nat)
    requires i < |actions| && actions[i].Take?
    ensures var p, q := Run(actions[..i]), Run(actions[..i + 1]);
            var ref, conn := actions[i].ref, actions[i].conn;
            && (Finds(actions, i) <==> q.log == p.log + [Bridged(ref, conn)])
            && (Finds(actions, i) ==>
                  ref in p.accepted && p.accepted[ref] == p.parked[ref] && q.parked == p.parked - {ref})
            && (!Finds(actions, i) ==> q == p)
  {
    RunNext(actions, i);
    EveryRunConserves(actions[..i]);
    var p := Run(actions[..i]);
    assert |p.log + [Bridged(actions[i].ref, actions[i].conn)]| != |p.log|;
  }

  /** No two takes of a run find the same socket. */
  lemma TakesFindOnce(actions: seq<Action>, i: nat, j: nat)
    requires Finds(actions, i) && Finds(actions, j) && actions[i].ref == actions[j].ref
    ensures i == j
  {
    if i < j {
      FoundIsGone(actions, i, j);
    } else if j < i {
      FoundIsGone(actions, j, i);
    }
  }

  lemma FoundIsGone(actions: seq<Action>, i: nat, j: nat)
    requires Finds(actions, i) && i < j <= |actions|
    ensures actions[i].ref !in Run(actions[..j]).parked
  {
    var ref := actions[i].ref;
    TakeBridges(actions, i);
    LeftSnoc(Run(actions[..i]).log, Bridged(ref, actions[i].conn));
    assert actions[..j][..i + 1] == actions[..i + 1];
    FateIsFinal(actions[..j], i + 1, ref);
  }

  /** A socket accepted while there is room is parked under the next number, another
      connection's take does not find it, and its own connection's take does. */
  lemma ParkThenTake(p: Park, conn: nat, socket: nat, other: nat)
    requires Inv(p) && |p.parked| < MAX_PARKED && other != conn
    ensures var ref := p.nextRef;
            var q := Step(Step(p, Accept(conn, socket)), Insert(ref));
            && q.parked == p.parked[ref := Inbound(conn, socket)] && ref in q.timers && q.log == p.log
            && Step(q, Take(other, ref)) == q
            && Step(q, Take(conn, ref)).parked == p.parked
            && Step(q, Take(conn, ref)).log == p.log + [Bridged(ref, conn)]
            && Step(q, Timer(ref)).parked == p.parked && Step(q, Timer(ref)).log == p.log + [Expired(ref)]
            && Step(q, HangUp(ref)).parked == p.parked && Step(q, HangUp(ref)).log == p.log + [Reclaimed(ref)]
  {
    assert p.nextRef !in p.accepted && p.nextRef !in p.parked;
  }

  /** A full table refuses, for good. */
  lemma FullRefuses(p: Park, conn: nat, socket: nat)
    requires Inv(p) && |p.parked| == MAX_PARKED
    ensures var q := Step(Step(p, Accept(conn, socket)), Insert(p.nextRef));
            q.parked == p.parked && q.log == p.log + [Refused(p.nextRef)] && p.nextRef !in q.arriving
  {
  }
}
