// The client's known_hosts file: one `host fingerprint` line per pinned server
// (quish-client/src/connect.rs).  The file is a text; what it means is the map
// from hosts to fingerprints that `Lookup` reads out of it.
module KnownHosts {
  import opened Base
  import opened Text

  const NEWLINE := '\n'

  // ---- lines --------------------------------------------------------------

  function StripCr(s: string): string {
    if s != "" && s[|s| - 1] == '\r' then s[..|s| - 1] else s
  }

  /** `str::lines`: newline-terminated lines lose the newline and one carriage
      return before it; an unterminated last line is kept as it is. */
  function Lines(s: string): (ls: seq<string>)
    ensures forall l :: l in ls ==> NEWLINE !in l
  {
    var k := Find(s, NEWLINE);
    if s == "" then []
    else if k == |s| then [s]
    else [StripCr(s[..k])] + Lines(s[k + 1..])
  }

  /** Host and fingerprint of a line: split at the first space. */
  function Parsed(line: string): Option<(string, string)> {
    var k := Find(line, ' ');
    if k == |line| then None else Some((line[..k], Trim(line[k + 1..])))
  }

  predicate IsFor(line: string, host: string) {
    Parsed(line).Some? && Parsed(line).value.0 == host
  }

  function LookupIn(ls: seq<string>, host: string): Option<string> {
    if ls == [] then None
    else if IsFor(ls[0], host) then Some(Parsed(ls[0]).value.1)
    else LookupIn(ls[1..], host)
  }

  function Lookup(text: string, host: string): Option<string> {
    LookupIn(Lines(text), host)
  }

  function PinLine(host: string, fp: string): string { host + " " + fp }

  function Pinned(text: string, host: string, fp: string): string {
    text + PinLine(host, fp) + [NEWLINE]
  }

  function Keep(ls: seq<string>, host: string): (kept: seq<string>)
    ensures forall l :: l in kept ==> l in ls && !IsFor(l, host)
    ensures |kept| <= |ls|
  {
    if ls == [] then []
    else if IsFor(ls[0], host) then Keep(ls[1..], host)
    else [ls[0]] + Keep(ls[1..], host)
  }

  lemma KeepCons(l: string, ls: seq<string>, host: string)
    ensures Keep([l] + ls, host) == if IsFor(l, host) then Keep(ls, host) else [l] + Keep(ls, host)
  {
    assert ([l] + ls)[1..] == ls;
  }

  lemma ConsSnoc(first: string, rest: seq<string>, l: string)
    ensures [first] + rest + [l] == [first] + (rest + [l])
  {
  }

  lemma {:induction false} KeepSnoc(ls: seq<string>, l: string, host: string)
    ensures Keep(ls + [l], host) == if IsFor(l, host) then Keep(ls, host) else Keep(ls, host) + [l]
  {
    if ls == [] {
      KeepCons(l, [], host);
      assert ls + [l] == [l] + [];
    } else {
      var first, rest := ls[0], ls[1..];
      ConsSnoc(first, rest, l);
      assert ls == [first] + rest;
      KeepSnoc(rest, l, host);
      KeepCons(first, rest, host);
      KeepCons(first, rest + [l], host);
    }
  }

  /** `kept.join("\n")`. */
  function JoinLines(ls: seq<string>): string {
    if ls == [] then "" else if |ls| == 1 then ls[0] else ls[0] + [NEWLINE] + JoinLines(ls[1..])
  }

  function Body(ls: seq<string>): string {
    var body := JoinLines(ls);
    if body == "" then "" else body + [NEWLINE]
  }

  /** The file after removing `host`; it is rewritten only when a line goes. */
  function Removed(text: string, host: string): string {
    var kept := Keep(Lines(text), host);
    if |kept| == |Lines(text)| then text else Body(kept)
  }

  predicate Terminated(text: string) { text == "" || text[|text| - 1] == NEWLINE }

  // ---- the file in place --------------------------------------------------

  class File {
    var text: string

    constructor (contents: string)
      ensures text == contents
    {
      text := contents;
    }

    method Pin(host: string, fp: string)
      modifies this
      ensures text == Pinned(old(text), host, fp)
    {
      text := text + host + " " + fp + [NEWLINE];
      assert text == Pinned(old(text), host, fp);
    }

    /** Filter the lines while counting the ones dropped. */
    method RemoveHostLines(host: string) returns (body: string, removed: nat)
      ensures body == Body(Keep(Lines(text), host))
      ensures removed + |Keep(Lines(text), host)| == |Lines(text)|
    {
      var ls := Lines(text);
      var kept: seq<string> := [];
      removed := 0;
      var k := 0;
      while k < |ls|
        invariant 0 <= k <= |ls|
        invariant kept == Keep(ls[..k], host)
        invariant removed + |kept| == k
      {
        assert ls[..k + 1] == ls[..k] + [ls[k]];
        KeepSnoc(ls[..k], ls[k], host);
        if IsFor(ls[k], host) {
          removed := removed + 1;
        } else {
          kept := kept + [ls[k]];
        }
        k := k + 1;
      }
      assert ls[..k] == ls;
      body := JoinLines(kept);
      if body != "" {
        body := body + [NEWLINE];
      }
    }

    method Remove(host: string) returns (removed: nat)
      modifies this
      ensures text == Removed(old(text), host)
      ensures removed == 0 <==> Lookup(old(text), host) == None
    {
      var body;
      body, removed := RemoveHostLines(host);
      KeepAll(Lines(text), host);
      if removed != 0 {
        text := body;
      }
    }

    /** The verifier: a chain to a system root, else the pin, else the prompt. */
    method Verify(host: string, fp: string, chains: bool, accepted: bool) returns (ok: bool)
      modifies this
      ensures (text, ok) == Step(old(text), Connect(host, fp, chains, accepted))
    {
      if chains {
        return true;
      }
      var pinned := Lookup(text, host);
      match pinned
      case Some(known) => ok := known == fp;
      case None =>
        if !accepted {
          return false;
        }
        Pin(host, fp);
        ok := true;
    }
  }

  // ---- runs ---------------------------------------------------------------

  datatype Event =
    | Connect(host: string, fp: string, chains: bool, accepted: bool)
    | Remove(host: string)

  /** One event: the new file and, for a connect, whether the server is trusted. */
  function Step(text: string, e: Event): (string, bool) {
    match e
    case Connect(host, fp, chains, accepted) =>
      if chains then (text, true)
      else if Lookup(text, host).Some? then (text, Lookup(text, host).value == fp)
      else if accepted then (Pinned(text, host, fp), true)
      else (text, false)
    case Remove(host) => (Removed(text, host), true)
  }

  function Final(text: string, es: seq<Event>): string
    decreases |es|
  {
    if es == [] then text else Final(Step(text, es[0]).0, es[1..])
  }

  function Verdicts(text: string, es: seq<Event>): (vs: seq<bool>)
    ensures |vs| == |es|
    decreases |es|
  {
    if es == [] then [] else [Step(text, es[0]).1] + Verdicts(Step(text, es[0]).0, es[1..])
  }

  // ---- reading back what was written --------------------------------------

  /** A trailing carriage return is invisible to a lookup. */
  lemma CrInvisible(line: string)
    ensures Parsed(StripCr(line)) == Parsed(line)
  {
    var s := StripCr(line);
    if s != line {
      assert line == s + ['\r'];
      var k := Find(s, ' ');
      if k < |s| {
        assert line[..k] == s[..k];
        FindAt(line, ' ', k);
        assert line[k + 1..] == s[k + 1..] + ['\r'];
        TrimIgnoresTrailing(s[k + 1..], '\r');
      } else {
        assert ' ' !in line;
      }
    }
  }

  /** A lookup of a text that starts with one whole line. */
  lemma LookupHead(line: string, rest: string, host: string)
    requires NEWLINE !in line
    ensures Lookup(line + [NEWLINE] + rest, host) ==
            if IsFor(line, host) then Some(Parsed(line).value.1) else Lookup(rest, host)
  {
    var s := line + [NEWLINE] + rest;
    assert s[..|line|] == line;
    FindAt(s, NEWLINE, |line|);
    assert s[|line| + 1..] == rest;
    CrInvisible(line);
    assert Lines(s)[1..] == Lines(rest);
  }

  lemma FirstLine(a: string) returns (line: string, rest: string)
    requires Terminated(a) && a != ""
    ensures a == line + [NEWLINE] + rest && NEWLINE !in line && Terminated(rest)
  {
    var k := Find(a, NEWLINE);
    assert NEWLINE in a;
    line, rest := a[..k], a[k + 1..];
  }

  lemma Reassociate(line: string, rest: string, b: string)
    ensures (line + [NEWLINE] + rest) + b == line + [NEWLINE] + (rest + b)
  {
  }

  /** What a terminated text says is said first, then what follows it. */
  lemma {:induction false} LookupConcat(a: string, b: string, host: string)
    requires Terminated(a)
    ensures Lookup(a + b, host) == if Lookup(a, host).Some? then Lookup(a, host) else Lookup(b, host)
    decreases |a|
  {
    if a == "" {
      assert a + b == b;
    } else {
      var line, rest := FirstLine(a);
      Reassociate(line, rest, b);
      LookupHead(line, rest, host);
      LookupHead(line, rest + b, host);
      LookupConcat(rest, b, host);
    }
  }

  // ---- removal ------------------------------------------------------------

  lemma {:induction false} KeepLooksUp(ls: seq<string>, host: string, other: string)
    ensures LookupIn(Keep(ls, host), other) == if other == host then None else LookupIn(ls, other)
  {
    if ls != [] {
      KeepLooksUp(ls[1..], host, other);
      if !IsFor(ls[0], host) {
        assert Keep(ls, host)[1..] == Keep(ls[1..], host);
      }
    }
  }

  /** Nothing is dropped exactly when the host has no pin. */
  lemma {:induction false} KeepAll(ls: seq<string>, host: string)
    ensures |Keep(ls, host)| == |ls| <==> LookupIn(ls, host) == None
  {
    if ls != [] {
      KeepAll(ls[1..], host);
    }
  }

  lemma {:induction false} BodyLooksUp(ls: seq<string>, host: string)
    requires forall l :: l in ls ==> NEWLINE !in l
    ensures Lookup(JoinLines(ls) + [NEWLINE], host) == LookupIn(ls, host)
  {
    if ls == [] {
      LookupHead("", "", host);
      assert "" + [NEWLINE] + "" == [NEWLINE];
    } else {
      var rest := if |ls| == 1 then "" else JoinLines(ls[1..]) + [NEWLINE];
      assert JoinLines(ls) + [NEWLINE] == ls[0] + [NEWLINE] + rest;
      LookupHead(ls[0], rest, host);
      BodyLooksUp(ls[1..], host);
    }
  }

  /** Removing a host, from any file whatever: its pin is gone and every other
      host reads as before. */
  lemma RemovalIsExact(text: string, host: string, other: string)
    ensures Lookup(Removed(text, host), other) == if other == host then None else Lookup(text, other)
  {
    var kept := Keep(Lines(text), host);
    KeepAll(Lines(text), host);
    KeepLooksUp(Lines(text), host, other);
    BodyLooksUp(kept, other);
    LookupHead("", "", other);
    assert "" + [NEWLINE] + "" == "" + [NEWLINE];
  }

  /** The text of whole lines. */
  ghost function TextOf(ls: seq<string>): string {
    if ls == [] then "" else ls[0] + [NEWLINE] + TextOf(ls[1..])
  }

  /** Lines as the client writes them: no line ends inside, none is empty. */
  ghost predicate Proper(ls: seq<string>) {
    forall l :: l in ls ==> l != "" && NEWLINE !in l && StripCr(l) == l
  }

  lemma LinesOfHead(line: string, rest: string)
    requires NEWLINE !in line
    ensures Lines(line + [NEWLINE] + rest) == [StripCr(line)] + Lines(rest)
  {
    var s := line + [NEWLINE] + rest;
    assert s[..|line|] == line;
    FindAt(s, NEWLINE, |line|);
    assert s[|line| + 1..] == rest;
  }

  /** A carriage return before the newline is not part of the line. */
  lemma LinesOfCr(line: string, rest: string)
    requires NEWLINE !in line
    ensures Lines(line + ['\r', NEWLINE] + rest) == [line] + Lines(rest)
  {
    LinesOfHead(line + ['\r'], rest);
    assert line + ['\r', NEWLINE] + rest == line + ['\r'] + [NEWLINE] + rest;
  }

  lemma {:induction false} LinesOfText(ls: seq<string>)
    requires Proper(ls)
    ensures Lines(TextOf(ls)) == ls
  {
    if ls != [] {
      var line, rest := ls[0], ls[1..];
      assert line in ls && forall l :: l in rest ==> l in ls;
      LinesOfText(rest);
      LinesOfHead(line, TextOf(rest));
      assert ls == [line] + rest;
    }
  }

  lemma {:induction false} BodyOfLines(ls: seq<string>)
    requires Proper(ls)
    ensures ls != [] ==> JoinLines(ls) != "" && JoinLines(ls) + [NEWLINE] == TextOf(ls)
  {
    if |ls| > 1 {
      assert forall l :: l in ls[1..] ==> l in ls;
      BodyOfLines(ls[1..]);
      assert ls[0] + [NEWLINE] + JoinLines(ls[1..]) + [NEWLINE] == ls[0] + [NEWLINE] + (JoinLines(ls[1..]) + [NEWLINE]);
    } else if |ls| == 1 {
      assert ls[0] in ls && TextOf(ls[1..]) == "";
    }
  }

  /** On a file the client wrote, removing a host leaves every other line, in order and
      letter for letter, and nothing else. */
  lemma RemovalKeepsLines(ls: seq<string>, host: string)
    requires Proper(ls)
    ensures Removed(TextOf(ls), host) == TextOf(Keep(ls, host))
  {
    LinesOfText(ls);
    BodyOfLines(Keep(ls, host));
    KeepSame(ls, host);
  }

  lemma {:induction false} KeepSame(ls: seq<string>, host: string)
    ensures |Keep(ls, host)| == |ls| ==> Keep(ls, host) == ls
  {
    if ls != [] {
      KeepSame(ls[1..], host);
      assert ls == [ls[0]] + ls[1..];
    }
  }

  // ---- pinning ------------------------------------------------------------

  /** A fingerprint is hexadecimal: no newline, nothing for `trim` to take. */
  predicate Clean(fp: string) { NEWLINE !in fp && Trimmed(fp) }

  predicate Pinnable(host: string) { ' ' !in host && NEWLINE !in host }

  lemma PinLineParses(host: string, fp: string)
    requires Pinnable(host) && Clean(fp)
    ensures NEWLINE !in PinLine(host, fp) && Parsed(PinLine(host, fp)) == Some((host, fp))
  {
    var line := PinLine(host, fp);
    assert line[..|host|] == host;
    FindAt(line, ' ', |host|);
    assert line[|host| + 1..] == fp;
    TrimTrimmed(fp);
  }

  lemma PinOnTerminated(text: string, host: string, fp: string, other: string)
    requires Lookup(text, host) == None && Clean(fp) && Pinnable(host) && Terminated(text)
    ensures Lookup(Pinned(text, host, fp), other) == if other == host then Some(fp) else Lookup(text, other)
  {
    var line := PinLine(host, fp);
    var last := line + [NEWLINE] + "";
    assert Pinned(text, host, fp) == text + last;
    PinLineParses(host, fp);
    LookupHead(line, "", other);
    LookupConcat(text, last, other);
  }

  /** A host with a space or a newline is never found, in any file. */
  lemma {:induction false} UnpinnableIsNeverFound(ls: seq<string>, host: string)
    requires !Pinnable(host) && forall l :: l in ls ==> NEWLINE !in l
    ensures LookupIn(ls, host) == None
  {
    if ls != [] {
      UnpinnableIsNeverFound(ls[1..], host);
      var k := Find(ls[0], ' ');
      assert NEWLINE !in ls[0];
      assert Pinnable(ls[0][..k]);
    }
  }

  /** An unterminated text is whole lines and a last line without its newline. */
  lemma {:induction false} LastLine(text: string) returns (before: string, tail: string)
    requires !Terminated(text)
    ensures text == before + tail && tail != "" && NEWLINE !in tail && Terminated(before)
  {
    var init, last := text[..|text| - 1], [text[|text| - 1]];
    if Terminated(init) {
      before, tail := init, last;
    } else {
      before, tail := LastLine(init);
      assert text == before + (tail + last);
      tail := tail + last;
    }
  }

  /** Text glued in front of a pin hides it: the line then begins with something
      else, or belongs to whatever host the glued text names. */
  lemma GluedPin(tail: string, host: string, fp: string)
    requires tail != "" && NEWLINE !in tail && Pinnable(host) && !IsFor(tail, host)
    ensures !IsFor(tail + PinLine(host, fp), host)
  {
    var line := tail + PinLine(host, fp);
    var k := Find(tail, ' ');
    if k < |tail| {
      assert line[..k] == tail[..k];
      FindAt(line, ' ', k);
    } else {
      assert line[..|tail + host|] == tail + host;
      FindAt(line, ' ', |tail + host|);
    }
  }

  lemma LookupLast(line: string, host: string)
    requires line != "" && NEWLINE !in line
    ensures Lookup(line, host) == if IsFor(line, host) then Some(Parsed(line).value.1) else None
  {
    var ls := Lines(line);
    assert ls == [line] && LookupIn(ls[1..], host) == None;
  }

  lemma GluedText(before: string, tail: string, host: string, fp: string)
    ensures Pinned(before + tail, host, fp) == before + ((tail + PinLine(host, fp)) + [NEWLINE] + "")
  {
  }

  lemma GluedLookup(before: string, line: string, host: string)
    requires Terminated(before) && NEWLINE !in line && Lookup(before, host) == None && !IsFor(line, host)
    ensures Lookup(before + (line + [NEWLINE] + ""), host) == None
  {
    LookupHead(line, "", host);
    LookupConcat(before, line + [NEWLINE] + "", host);
  }

  lemma PinOnUnterminated(text: string, host: string, fp: string)
    requires Lookup(text, host) == None && Clean(fp) && Pinnable(host) && !Terminated(text)
    ensures Lookup(Pinned(text, host, fp), host) == None
  {
    var before, tail := LastLine(text);
    LookupConcat(before, tail, host);
    LookupLast(tail, host);
    GluedPin(tail, host, fp);
    PinLineParses(host, fp);
    GluedText(before, tail, host, fp);
    GluedLookup(before, tail + PinLine(host, fp), host);
  }

  /** The file reads exactly as the map `pins`. */
  ghost predicate Reads(text: string, pins: map<string, string>) {
    forall host :: Lookup(text, host) == if host in pins then Some(pins[host]) else None
  }

  /** Pinning a host that has no pin is the map update it is meant to be if and
      only if the host has no space or newline and the file is terminated. */
  lemma PinIsMapUpdate(text: string, pins: map<string, string>, host: string, fp: string)
    requires Reads(text, pins) && host !in pins && Clean(fp)
    ensures Reads(Pinned(text, host, fp), pins[host := fp]) <==> Pinnable(host) && Terminated(text)
  {
    var after := Pinned(text, host, fp);
    assert Lookup(text, host) == None;
    if !Pinnable(host) {
      UnpinnableIsNeverFound(Lines(after), host);
      assert Lookup(after, host) == None;
    } else if !Terminated(text) {
      PinOnUnterminated(text, host, fp);
    } else {
      forall other
        ensures Lookup(after, other) == if other in pins[host := fp] then Some(pins[host := fp][other]) else None
      {
        PinOnTerminated(text, host, fp, other);
      }
    }
  }

  /** A file that is one line without its newline: the pin of `b` lands on the line of
      `a`, so `b` stays unknown and `a` reads as a fingerprint never pinned for it. */
  lemma UnterminatedMisreads(a: string, f: string, b: string, g: string)
    requires Pinnable(a) && Clean(f) && f != "" && Pinnable(b) && Clean(g) && g != "" && a != b
    ensures var text := PinLine(a, f);
            && Lookup(text, a) == Some(f) && Lookup(text, b) == None
            && Lookup(Pinned(text, b, g), b) == None
            && Lookup(Pinned(text, b, g), a) == Some(f + PinLine(b, g))
  {
    var text, glued := PinLine(a, f), f + PinLine(b, g);
    PinLineParses(a, f);
    LookupLast(text, a);
    LookupLast(text, b);
    PinLineParses(b, g);
    assert Trimmed(glued) && NEWLINE !in glued;
    PinLineParses(a, glued);
    LookupHead(PinLine(a, glued), "", a);
    LookupHead(PinLine(a, glued), "", b);
    GluedLine(a, f, b, g);
  }

  lemma GluedLine(a: string, f: string, b: string, g: string)
    ensures Pinned(PinLine(a, f), b, g) == PinLine(a, f + PinLine(b, g)) + [NEWLINE] + ""
  {
  }

  // ---- whole runs ---------------------------------------------------------

  /** What trust on first use means, with no file: a map of pins. */
  function IdealStep(pins: map<string, string>, e: Event): (map<string, string>, bool) {
    match e
    case Connect(host, fp, chains, accepted) =>
      if chains then (pins, true)
      else if host in pins then (pins, pins[host] == fp)
      else if accepted then (pins[host := fp], true)
      else (pins, false)
    case Remove(host) => (pins - {host}, true)
  }

  function IdealFinal(pins: map<string, string>, es: seq<Event>): map<string, string>
    decreases |es|
  {
    if es == [] then pins else IdealFinal(IdealStep(pins, es[0]).0, es[1..])
  }

  function IdealVerdicts(pins: map<string, string>, es: seq<Event>): (vs: seq<bool>)
    ensures |vs| == |es|
    decreases |es|
  {
    if es == [] then [] else [IdealStep(pins, es[0]).1] + IdealVerdicts(IdealStep(pins, es[0]).0, es[1..])
  }

  ghost predicate Ordinary(e: Event) {
    e.Connect? ==> Pinnable(e.host) && Clean(e.fp)
  }

  lemma StepStaysTerminated(text: string, e: Event)
    requires Terminated(text)
    ensures Terminated(Step(text, e).0)
  {
  }

  lemma StepRefines(text: string, pins: map<string, string>, e: Event)
    requires Reads(text, pins) && Terminated(text) && Ordinary(e)
    ensures Reads(Step(text, e).0, IdealStep(pins, e).0)
    ensures Step(text, e).1 == IdealStep(pins, e).1
  {
    if e.Connect? {
      assert Lookup(text, e.host).Some? <==> e.host in pins;
      if e.host !in pins {
        PinIsMapUpdate(text, pins, e.host, e.fp);
      }
    } else {
      forall other
        ensures Lookup(Removed(text, e.host), other) == if other in pins - {e.host} then Some(pins[other]) else None
      {
        RemovalIsExact(text, e.host, other);
      }
    }
  }

  /** Every run on a terminated file gives the verdicts of the map of pins, ends
      in a file that reads as that map, and leaves the file terminated. */
  lemma {:induction false} FileRefinesMap(text: string, pins: map<string, string>, es: seq<Event>)
    requires Reads(text, pins) && Terminated(text) && forall e :: e in es ==> Ordinary(e)
    ensures Verdicts(text, es) == IdealVerdicts(pins, es)
    ensures Reads(Final(text, es), IdealFinal(pins, es)) && Terminated(Final(text, es))
    decreases |es|
  {
    if es != [] {
      StepRefines(text, pins, es[0]);
      StepStaysTerminated(text, es[0]);
      FileRefinesMap(Step(text, es[0]).0, IdealStep(pins, es[0]).0, es[1..]);
    }
  }

  /** The connect was trusted by the pinning branch. */
  ghost predicate TrustedByPin(es: seq<Event>, vs: seq<bool>, n: nat, host: string)
    requires |vs| == |es|
  {
    n < |es| && es[n].Connect? && es[n].host == host && !es[n].chains && vs[n]
  }

  /** A pin outlives every event but its own removal, whatever the other hosts. */
  lemma PinStays(text: string, e: Event, host: string)
    requires Terminated(text) && Lookup(text, host).Some? && e != Remove(host)
    ensures Lookup(Step(text, e).0, host) == Lookup(text, host)
  {
    match e
    case Connect(h, fp, _, _) =>
      var line := PinLine(h, fp) + [NEWLINE];
      LookupConcat(text, line, host);
      assert Pinned(text, h, fp) == text + line;
    case Remove(h) => RemovalIsExact(text, h, host);
  }

  /** While `host` is pinned and not removed, only the pinned key is trusted. */
  lemma {:induction false} PinnedIsTheOnlyKey(text: string, es: seq<Event>, host: string, n: nat)
    requires Terminated(text) && Lookup(text, host).Some?
    requires TrustedByPin(es, Verdicts(text, es), n, host)
    requires forall i :: 0 <= i < n ==> es[i] != Remove(host)
    ensures Lookup(text, host) == Some(es[n].fp)
    decreases |es|
  {
    if n > 0 {
      var next := Step(text, es[0]).0;
      PinStays(text, es[0], host);
      StepStaysTerminated(text, es[0]);
      assert forall i :: 0 <= i < n - 1 ==> es[1..][i] == es[i + 1];
      PinnedIsTheOnlyKey(next, es[1..], host, n - 1);
    }
  }

  /** A trusted key is the pin from then on. */
  lemma TrustedIsPinned(text: string, e: Event)
    requires Terminated(text) && e.Connect? && !e.chains && Pinnable(e.host) && Clean(e.fp) && Step(text, e).1
    ensures Lookup(Step(text, e).0, e.host) == Some(e.fp)
  {
    if Lookup(text, e.host) == None {
      PinOnTerminated(text, e.host, e.fp, e.host);
    }
  }

  /** Events `m` and `n` both trusted a key for `host` through the pinning branch,
      with no removal of it from one to the other. */
  ghost predicate TwoTrusted(text: string, es: seq<Event>, host: string, m: nat, n: nat) {
    && m < n && TrustedByPin(es, Verdicts(text, es), m, host) && TrustedByPin(es, Verdicts(text, es), n, host)
    && (forall i :: m <= i < n ==> es[i] != Remove(host))
    && Pinnable(host) && Clean(es[m].fp)
  }

  /** Dropping the first event shifts the run by one. */
  lemma TrustedShift(text: string, es: seq<Event>, host: string, n: nat)
    requires n > 0 && TrustedByPin(es, Verdicts(text, es), n, host)
    ensures TrustedByPin(es[1..], Verdicts(Step(text, es[0]).0, es[1..]), n - 1, host) && es[1..][n - 1] == es[n]
  {
  }

  lemma TwoTrustedShift(text: string, es: seq<Event>, host: string, m: nat, n: nat)
    requires m > 0 && TwoTrusted(text, es, host, m, n)
    ensures TwoTrusted(Step(text, es[0]).0, es[1..], host, m - 1, n - 1)
  {
    TrustedShift(text, es, host, m);
    TrustedShift(text, es, host, n);
    assert forall i :: m - 1 <= i < n - 1 ==> es[1..][i] == es[i + 1];
  }

  lemma FirstTrusted(text: string, es: seq<Event>, host: string, n: nat)
    requires Terminated(text) && TwoTrusted(text, es, host, 0, n)
    ensures es[0].fp == es[n].fp
  {
    TrustedIsPinned(text, es[0]);
    StepStaysTerminated(text, es[0]);
    TrustedShift(text, es, host, n);
    assert forall i :: 0 <= i < n - 1 ==> es[1..][i] == es[i + 1];
    PinnedIsTheOnlyKey(Step(text, es[0]).0, es[1..], host, n - 1);
  }

  /** All keys the pinning branch trusts for a host between two removals agree, in
      every run from any terminated file, whatever the other hosts are called. */
  lemma {:induction false} OneKeyBetweenRemovals(text: string, es: seq<Event>, host: string, m: nat, n: nat)
    requires Terminated(text) && TwoTrusted(text, es, host, m, n)
    ensures es[m].fp == es[n].fp
    decreases |es|
  {
    if m == 0 {
      FirstTrusted(text, es, host, n);
    } else {
      TwoTrustedShift(text, es, host, m, n);
      StepStaysTerminated(text, es[0]);
      OneKeyBetweenRemovals(Step(text, es[0]).0, es[1..], host, m - 1, n - 1);
    }
  }

  // ---- exactly when the guarantee holds -----------------------------------

  /** A host connecting for the first time, then again with another key. */
  function TwoConnects(host: string, f: string, g: string): seq<Event> {
    [Connect(host, f, false, true), Connect(host, g, false, true)]
  }

  lemma VerdictsOfTwo(text: string, a: Event, b: Event)
    ensures Verdicts(text, [a, b]) == [Step(text, a).1, Step(Step(text, a).0, b).1]
  {
    assert [a, b][1..] == [b] && [b][1..] == [];
  }

  /** First use: the second key is held to the first one if and only if the host has
      no space or newline and the file is terminated. Otherwise any key is trusted. */
  lemma FirstUseExactly(text: string, host: string, f: string, g: string)
    requires Lookup(text, host) == None && Clean(f)
    ensures Verdicts(text, TwoConnects(host, f, g)) == [true, f == g || !(Pinnable(host) && Terminated(text))]
  {
    var after := Pinned(text, host, f);
    VerdictsOfTwo(text, Connect(host, f, false, true), Connect(host, g, false, true));
    if !Pinnable(host) {
      UnpinnableIsNeverFound(Lines(after), host);
    } else if !Terminated(text) {
      PinOnUnterminated(text, host, f);
    } else {
      PinOnTerminated(text, host, f, host);
    }
  }

  /** A host no line of the text can name: it is longer than the text. */
  function FreshHost(text: string): string { seq(|text| + 1, _ => 'a') }

  lemma {:induction false} LookupShort(text: string, host: string)
    requires Lookup(text, host).Some?
    ensures |host| <= |text|
    decreases |text|
  {
    var k := Find(text, NEWLINE);
    if k < |text| {
      assert text == text[..k] + [NEWLINE] + text[k + 1..];
      LookupHead(text[..k], text[k + 1..], host);
      if !IsFor(text[..k], host) {
        LookupShort(text[k + 1..], host);
      }
    } else if text != "" {
      LookupLast(text, host);
    }
  }

  lemma FreshIsUnknown(text: string)
    ensures Lookup(text, FreshHost(text)) == None && Pinnable(FreshHost(text))
  {
    if Lookup(text, FreshHost(text)).Some? {
      LookupShort(text, FreshHost(text));
    }
  }

  /** Between two removals one key is trusted, in every run from `text`. */
  ghost predicate OneKey(text: string) {
    forall es: seq<Event>, host: string, m: nat, n: nat :: TwoTrusted(text, es, host, m, n) ==> es[m].fp == es[n].fp
  }

  /** The guarantee holds for all runs from a file if and only if the file is empty or
      ends in a newline. */
  lemma OneKeyExactly(text: string)
    ensures OneKey(text) <==> Terminated(text)
  {
    if Terminated(text) {
      forall es: seq<Event>, host: string, m: nat, n: nat | TwoTrusted(text, es, host, m, n)
        ensures es[m].fp == es[n].fp
      {
        OneKeyBetweenRemovals(text, es, host, m, n);
      }
    } else {
      var host := FreshHost(text);
      var es := TwoConnects(host, "1", "2");
      FreshIsUnknown(text);
      FirstUseExactly(text, host, "1", "2");
      assert TwoTrusted(text, es, host, 0, 1);
    }
  }

  ghost predicate AllOrdinary(es: seq<Event>) { forall e :: e in es ==> Ordinary(e) }

  /** Every run of ordinary events gets the verdicts of the map. */
  ghost predicate ActsAsMap(text: string, pins: map<string, string>) {
    forall es :: AllOrdinary(es) ==> Verdicts(text, es) == IdealVerdicts(pins, es)
  }

  lemma IdealOfTwo(pins: map<string, string>, host: string)
    requires host !in pins
    ensures IdealVerdicts(pins, TwoConnects(host, "1", "2")) == [true, false]
  {
    var es := TwoConnects(host, "1", "2");
    assert es[1..] == [Connect(host, "2", false, true)] && es[1..][1..] == [];
    assert pins[host := "1"][host] != "2";
  }

  lemma UnterminatedDiffers(text: string, pins: map<string, string>)
    requires Reads(text, pins) && !Terminated(text)
    ensures !ActsAsMap(text, pins)
  {
    var host := FreshHost(text);
    FreshIsUnknown(text);
    FirstUseExactly(text, host, "1", "2");
    IdealOfTwo(pins, host);
    assert AllOrdinary(TwoConnects(host, "1", "2"));
  }

  /** The file acts as the map it reads as if and only if it is empty or ends in a
      newline. */
  lemma ActsAsMapExactly(text: string, pins: map<string, string>)
    requires Reads(text, pins)
    ensures ActsAsMap(text, pins) <==> Terminated(text)
  {
    if Terminated(text) {
      forall es | AllOrdinary(es) ensures Verdicts(text, es) == IdealVerdicts(pins, es) {
        FileRefinesMap(text, pins, es);
      }
    } else {
      UnterminatedDiffers(text, pins);
    }
  }
}
