# quish, verified

A Dafny model of the parts of quish (a remote shell over HTTP/3) whose correctness
is not visible from any one function: the privileged monitor's control loop and its
two-round login, the remote signing proxy, channel framing and pumping, socket
parking, rate limits, and the client's recursive upload, known-hosts file, spec parsers
and environment handoff. `dafny verify dfyconfig.toml` checks everything.

## How it is modelled

- **Monitor.** `Monitor.State` is the control-loop state, updated in place by one
  method per request. Each method equals a step function on a value (`Mon`), and
  `MonitorRuns`, `MonitorLedger`, `MonitorHistory`, `MonitorReplies` and
  `MonitorTwoRuns` prove theorems over every request sequence from the empty state.
  What the loop asks of the outside (the clock, fresh tokens, the first-factor
  backend, enrolled secrets, whether PAM opens and a fork succeeds) is part of each
  event, so a theorem over all event sequences covers every answer the outside can
  give.
- **Effects** the monitor causes (forks, reaps, PAM opens and closes) go to a log.
- **Concurrency** is nondeterministic choice of steps: the signing thread, the socket
  buffers and the monitor's signing loop are one transition system; `select!` is an
  `if`-`case` with overlapping guards; parked sockets, their timers and the
  connections that take them are one transition system; in-flight login requests are
  tasks that check, are denied, and count in any order.
- **Bytes.** Channel messages are encoded as postcard does it (variable-length
  integers, zig-zag, variant tags), framed with a 4-byte big-endian length. A stream is
  the concatenation of whatever chunks the transport delivers.
- **Libraries.** HMAC-SHA1 is any function to 20-byte digests, the host key any
  relation between messages and signatures. Text primitives (`lines`, `trim`,
  `split_once`, integer parsing) and base64 are written out.
- Counters the program keeps in 64 bits (session ids, connection references) are
  unbounded here. The 32-bit counts that matter are explicit: the refill count of the
  signing throttle, the failure count and the backoff exponent.

## Where the code differs from its comments or from the simple rule

- A user without an enrolled TOTP secret is checked against the empty key. The comment
  says no real code matches it; the code computed from the empty key does, and
  `Auth.UnenrolledCanPass` proves it. `MonitorHistory.SecondFactorHistory` states
  exactly when such a user is allowed.
- An exec channel whose pump fails with a send error returns before the reap, so that
  session is reaped only when its connection closes. The comment says it is always
  reaped. `Pump.RunExec` states the count exactly.
- The lazy refill of the signing throttle agrees with one token per 500 ms tick unless
  a single gap exceeds 2^32-1 intervals. `SignThrottle.LazyStep` gives the condition,
  `SignThrottle.ClampIsVisible` a request pattern that tells the two apart beyond it.
- The backoff equals `min(base * 2^(fails-1), max)` for every failure count exactly
  when `base` is zero or `base * 2^16 >= max`, because the exponent stops at 16.
- `conn_fails` is read and incremented in two steps, so `k` concurrent requests can
  exceed the limit by `k - 1`, and some interleaving does (`ConnFails.BoundIsReached`).
- A pin appended to a known-hosts file whose last line lacks its newline joins that
  line. `KnownHosts.PinIsMapUpdate` gives the exact condition for a pin to work. From
  such a file two different keys are trusted for one host with no removal between them;
  `KnownHosts.OneKeyExactly` shows that the one-key guarantee holds exactly for files
  that are empty or end in a newline.
- A recursive upload sends each local mode and then works as the session user, so the
  modes decide whether it goes through. `UploadReplay.UploadRebuildsTree` gives the
  exact condition, `UploadReplay.UploadAgain` the one for repeating the upload, which
  the mkdir helper's comment calls idempotent.
- The exec pump waits for room in the stdin queue inside its `select!`, so a command
  that prints without reading can stall it. `ExecFlow` settles when.
- A copy spec with a bracketed host is remote even if a `/` precedes every `:`; the
  comment states the rule without that exception (`Specs.BracketedSlashIsRemote`).
- Token lists that no forward spec can denote (an empty list, or a token that needs
  brackets and contains `]`) do not survive joining and splitting; all others do.

## Model

| member | source | states |
|---|---|---|
| `Totp.CodeIsTruncatedHmac` | quish-auth/src/totp.rs:55-79 | the code at `t` is the 31-bit big-endian word of the HMAC of step `t`/30, at the offset named by its last nibble and inside the digest, in six digits (section 5.3 of RFC 4226) |
| `Totp.VerifiesIffNeighbour` | quish-auth/src/totp.rs:69-75 | a code verifies at `now` if and only if it is the code of some time whose 30 s step is this one or a neighbour |
| `Totp.SkewTolerance` | quish-auth/src/totp.rs:69-79 | a code minted within 30 s always verifies; a code that verifies was minted under 60 s away |
| `Auth.RegistryVerdict` | quish-auth/src/lib.rs:197-210 | whichever backend answers, an allowed user is not denied by policy and is on the allowlist when there is one |
| `Auth.RoundOneAlwaysChallenges` | quish-auth/src/totp.rs:139-150 | with TOTP-wrapped passwords, round one challenges with the same prompt whatever the first factor said; only the pending user differs |
| `Auth.EnrolledOutcome` | quish-auth/src/totp.rs:152-176 | round two allows a pending user with a secret exactly when the allow and deny lists let the user in and the first answer, trimmed, is the code of that secret in this 30 s step or a neighbour; otherwise it denies |
| `Auth.UnenrolledOutcome` | quish-auth/src/totp.rs:152-176 | a pending user without a secret is held to the same under the empty key |
| `Auth.BogusOutcome` | quish-auth/src/totp.rs:152-176 | a user the first factor turned away is denied whatever the answer |
| `Auth.UnenrolledCanPass` | quish-auth/src/totp.rs:152-176 | at every time such a code exists, so every permitted user without a secret can pass round two |
| `Auth.DispatchPassword` | quish-auth/src/lib.rs:216-225 | a password credential reaches the TOTP backend wherever it stands in the list |
| `Auth.DispatchOther` | quish-auth/src/lib.rs:216-225 | other credentials never see the challenge answer or the first factor, and are never challenged |
| `Auth.TokenOutcome` | quish-auth/src/lib.rs:197-225 | a signed token is allowed exactly as the user the public-key backend names, a JWT as the user the identity provider names, if the lists let that user in; without the backend or without credentials all are denied |
| `Auth.PlainPasswordOutcome` | quish-auth/src/lib.rs:197-225 | without the TOTP backend a password is allowed exactly as the user the password backend names, if the lists let that user in |
| `Monitor.ChallengeStore.Take` | quish-server/src/transport.rs:59-70 | the entry goes on every take; it is returned only when fresh enough and the token matches |
| `Monitor.State.Login` | quish-server/src/monitor.rs:435-476 | one authentication request refines the step function: challenge resumed or parked, user recorded, reply |
| `Monitor.State.Spawn` | quish-server/src/monitor.rs:478-666 | one spawn request of any kind refines the step function, including a fork that fails after PAM opened |
| `Monitor.State.Reap` | quish-server/src/monitor.rs:668-686 | one reap refines the step function: store, index and PAM guard go together |
| `Monitor.State.ReapListed` | quish-server/src/monitor.rs:688-701 | the loop over a closed connection's sessions equals the recursive reaping of the list |
| `Monitor.State.Close` | quish-server/src/monitor.rs:688-701 | one close refines the step function |
| `Monitor.State.Serve` | quish-server/src/monitor.rs:424-716 | every request refines the step function in state, reply and logged effects |
| `MonitorRuns.ServeControl` | quish-server/src/monitor.rs:424-722 | the loop over any request sequence ends in the state, log and replies of the run |
| `MonitorLedger.StepKeepsLedger` | quish-server/src/monitor.rs:403-422 | every request keeps the ledger: store ids equal index ids, each in one list once, none above the counter |
| `MonitorLedger.EveryRunBalances` | quish-server/src/monitor.rs:403-738 | in every run the ledger holds, every id handed out is live or was reaped exactly once, and PAM opens equal closes plus held guards |
| `MonitorLedger.EveryRunFiles` | quish-server/src/monitor.rs:724-738 | in every run ids are 1, 2, 3, ... without reuse, and each live session is filed under its connection as its user |
| `MonitorLedger.CloseState` | quish-server/src/monitor.rs:688-701 | closing removes exactly the connection's user, list, challenge, children and PAM guards |
| `MonitorLedger.CloseLeavesNothing` | quish-server/src/monitor.rs:688-701 | after a close, until a later login on it is not denied, nothing of the connection remains and each of its sessions was reaped exactly once |
| `MonitorHistory.ChallengeHistory` | quish-server/src/transport.rs:47-77 | a challenge is parked if and only if some round parked it and no answer, close or new challenge touched it since |
| `MonitorHistory.ResumedHistory` | quish-server/src/monitor.rs:435-476 | an answer resumes the latest parked challenge exactly when it is within the lifetime and echoes its token |
| `MonitorHistory.SecondFactorHistory` | quish-auth/src/totp.rs:139-200 | over every run a password login is allowed as `u` if and only if it answers, in time and with its token, an untouched challenge from a round whose first factor allowed `u`, the lists let `u` in, and the answer is a code of the secret of `u` (of the empty key without one) in this step or a neighbour |
| `MonitorHistory.ChallengeCompletesOnce` | quish-server/src/transport.rs:59-70 | no two logins of a run complete the same challenge |
| `MonitorHistory.IdentityHistory` | quish-server/src/monitor.rs:459-475 | a connection is recorded as `u` if and only if its last allow since its last close was `u` |
| `MonitorHistory.SessionsRunAsLastAllowed` | quish-server/src/monitor.rs:478-666 | every session of a run was spawned as the user of the latest allow on that connection, and policy permits that user |
| `MonitorReplies.LoginReply` | quish-server/src/monitor.rs:459-475 | over every run a login is answered yes exactly when it bound the connection, with a challenge exactly when it parked one, with its token, and no exactly when it did neither |
| `MonitorReplies.PasswordReply` | quish-server/src/monitor.rs:435-476 | the exact reply to every password: the fresh challenge unless a live one is resumed, then yes exactly when some user passed the first factor for it, is let in by the lists and answers with a code of that user's key |
| `MonitorReplies.TokenReply` | quish-server/src/monitor.rs:435-476 | the exact reply to tokens and to missing credentials |
| `MonitorReplies.SpawnReply` | quish-server/src/monitor.rs:478-666 | a spawn succeeds exactly when the connection is bound and the fork succeeds, with the next number and the bound user; shells and commands and nothing else open PAM, and a failed fork closes it |
| `MonitorReplies.ReapReply` | quish-server/src/monitor.rs:668-686 | a reap returns the exit code exactly for a session handed out and not yet reaped |
| `MonitorReplies.SignalReply` | quish-server/src/monitor.rs:703-716 | a signal reaches exactly a live session and changes nothing |
| `MonitorReplies.EveryRunGuards` | quish-server/src/monitor.rs:478-666 | in every run a held PAM session belongs to the user its session runs as |
| `MonitorTwoRuns.FirstFactorIsHidden` | quish-auth/src/totp.rs:139-200 | two runs that differ only in first-factor answers and secrets give equal replies and effects as long as neither allows a password login |
| `SignThrottle.Throttle.TryAllow` | quish-server/src/monitor.rs:277-294 | the in-place bucket refines the value-level one |
| `SignThrottle.Throttle.Decide` | quish-server/src/monitor.rs:300-335 | a sequence of requests gets the verdicts of the value-level bucket |
| `SignThrottle.LazyStep` | quish-server/src/monitor.rs:277-294 | one lazy decision equals the eager one, and the clocks stay in step if and only if the gap fits 32 bits |
| `SignThrottle.LazyRefinesEager` | quish-server/src/monitor.rs:249-295 | for every monotone request sequence without an oversized gap the lazy bucket gives the verdicts of one token per tick |
| `SignThrottle.ClampIsVisible` | quish-server/src/monitor.rs:277-294 | after any oversized gap, 33 requests at once get a different verdict from the two buckets |
| `SignThrottle.AnyWindow` | quish-server/src/monitor.rs:249-295 | any window of a run allows at most burst + floor(length / refill) + 1 signatures |
| `SignThrottle.SpacedNeverRefused` | quish-server/src/monitor.rs:249-295 | requests at least one refill apart are never refused |
| `Postcard.VarRoundTrip` | quish-proto/src/lib.rs:180-195 | variable-length integers decode to themselves and leave what follows, for every width |
| `Postcard.MessageRoundTrip` | quish-proto/src/lib.rs:130-195 | every channel message decodes to itself |
| `Postcard.VarInRange` | quish-proto/src/lib.rs:193-195 | a decoded number is always in the range of its type |
| `Postcard.MalformedIsRefused` | quish-proto/src/lib.rs:193-195 | unknown message kinds, unknown signals and data shorter than its length are refused |
| `Frames.ParseFramed` | quish-proto/src/lib.rs:180-226 | a framed list of bodies and an incomplete tail parse to exactly those bodies and that tail |
| `Frames.FrameReader.NextFrame` | quish-server/src/session.rs:560-572 | the result depends only on buffered plus incoming bytes: next body, too-large error or end, and the rest is kept |
| `Frames.FrameReader.ReadAll` | quish-client/src/main.rs:1081-1093 | the reading loop yields exactly the bodies of the parse and keeps its tail |
| `Frames.RechunkingIsInvisible` | quish-proto/src/lib.rs:180-226 | for every message list and every re-chunking of its bytes, exactly those messages come out, in order |
| `Frames.DataFitsExactly` | quish-proto/src/lib.rs:76-81 | a data message encodes under the cap if and only if it holds at most 65532 bytes |
| `Frames.UploadFile` | quish-client/src/cp.rs:450-466 | the chunking loop sends only non-empty data frames of at most 32 KiB, all under the cap, and however the bytes are cut in transit the receiver collects exactly the file |
| `Pump.PumpExec` | quish-server/src/session.rs:399-442 | in every interleaving output frames are prefixes of stdout and stderr, complete on drain; if the pump ends, it drained exactly when the client took every chunk; exactly the frames consumed were queued for stdin |
| `ExecFlow.StuckExactly` | quish-server/src/session.rs:426-429 | with the bounded queues and pipes, nobody can move while the pump waits for stdin room if and only if pump, writer, command and a reader wait for each other in a cycle |
| `ExecFlow.StuckForGood` | quish-server/src/session.rs:607-631 | that state is final |
| `ExecFlow.StuckNeedsFrames` | quish-server/src/worker.rs:420-427 | some run gets there if and only if the client sends at least pipe/chunk + 66 data frames, so a shorter input never stalls |
| `Pump.RunExec` | quish-server/src/worker.rs:413-443 | the exit status is the last frame, at most once, only after both streams are complete; the reap count is exact |
| `Pump.RunTransfer` | quish-server/src/worker.rs:449-471 | the client is sent the data frames and the status in order, up to where it stops taking them |
| `Pump.RunTransferWrite` | quish-server/src/worker.rs:478-514 | the data frames are queued for the helper up to where its writer stops, all of them if it never does; one reap, one status |
| `Download.DownloadOne` | quish-client/src/cp.rs:356-424 | the loop saves, refuses, breaks or leaves its part file exactly as the frames and the rename say, and breaks exactly when more data frames precede the status than the disk takes |
| `Download.DownloadIsAllOrNothing` | quish-client/src/cp.rs:352-424 | cut anywhere, a transfer leaves the destination alone unless every byte arrived, the status was zero and the rename succeeded; then it holds the whole file; only a failed flush or rename leaves the part file |
| `SignProxy.StepKeepsInv` | quish-server/src/signproxy.rs:52-118 | every step of any party keeps the exchange in sync: bytes in flight belong to the job being served |
| `SignProxy.SignedMeansSigned` | quish-server/src/signproxy.rs:149-161 | in every schedule, with replies late or missing, a returned signature is the host key's signature of that caller's message |
| `SignProxy.StoppedExactly` | quish-server/src/signproxy.rs:52-118 | in every run the thread has stopped if and only if an exchange was broken (I/O error, time-out, end of stream, or an over-long request); no complete answer, a refusal included, stops it |
| `SignProxy.StoppedForGood` | quish-server/src/signproxy.rs:52-88 | after a stop nothing is ever served again |
| `SignProxy.RefusalKeepsServing` | quish-server/src/signproxy.rs:63-78 | some run refuses one call and returns the next one's signature |
| `SignProxy.LostMonitor` | quish-server/src/signproxy.rs:71-76 | when the monitor goes away the call fails and the thread stops |
| `SignProxy.LateReplyIsLost` | quish-server/src/signproxy.rs:149-161 | a caller that gave up has failed for good |
| `SignProxy.PromptExchangeSigns` | quish-server/src/signproxy.rs:102-118 | when request and answer fit the cap, some run returns the signature to the caller |
| `Parking.ParkTable.ParkConn` | quish-server/src/session.rs:678-697 | parking succeeds exactly below the cap |
| `Parking.ParkTable.TakeConn` | quish-server/src/session.rs:699-705 | a socket is returned exactly to the connection that accepted it, and then its entry and no other is gone |
| `Parking.EveryRunConserves` | quish-server/src/session.rs:650-804 | in every interleaving each accepted socket is in exactly one place, at most 128 are parked, and only the accepting connection bridged it |
| `Parking.TakeBridges` | quish-server/src/session.rs:792-804 | in every run a take finds its socket exactly when that take bridges it; it is the socket accepted under that number, and the table no longer holds it |
| `Parking.TakesFindOnce` | quish-server/src/session.rs:699-705 | no two takes of a run find the same socket |
| `Parking.ParkThenTake` | quish-server/src/session.rs:678-705 | with room, an accepted socket is parked under the next number; only its connection's take, its timer or its listener removes it, each with its own fate |
| `Parking.FullRefuses` | quish-server/src/session.rs:680-684 | a full table refuses |
| `Parking.TimerEvictsOnlyItsOwn` | quish-server/src/session.rs:678-697 | a timer evicts at most its own entry, and nothing once that entry has left |
| `Parking.FateIsFinal` | quish-server/src/session.rs:650-804 | a socket that left the table never comes back and leaves only once |
| `RateLimit.RateLimiter.TryAdmit` | quish-server/src/ratelimit.rs:59-76 | a connection is admitted exactly when the address has fewer live guards than the cap |
| `RateLimit.RateLimiter.Release` | quish-server/src/ratelimit.rs:112-120 | dropping a guard always finds its entry and lowers the count by one: the decrement never saturates |
| `RateLimit.EveryRunCounts` | quish-server/src/ratelimit.rs:59-120 | in every run the count of an address equals its live guards and is within the cap |
| `RateLimit.AddressStep` | quish-server/src/ratelimit.rs:59-120 | what each operation does to each address, by its live guards: others only ever sweep it when idle, its own count one guard, one failure or a reset |
| `RateLimit.EveryRunFails` | quish-server/src/ratelimit.rs:78-104 | in every run the recorded failures of an address are those since its last success or since it was forgotten |
| `RateLimit.BackoffMonotone` | quish-server/src/ratelimit.rs:78-88 | more failures never shorten the delay |
| `RateLimit.BackoffExactly` | quish-server/src/ratelimit.rs:78-88 | the capped exponent gives the documented formula for all failure counts if and only if base is zero or base * 2^16 reaches the maximum |
| `ConnFails.DenialsBounded` | quish-server/src/transport.rs:373-404 | in every interleaving with at most `k` in flight, at most limit + k - 1 attempts are denied, and none when the limit is zero |
| `ConnFails.BoundIsReached` | quish-server/src/transport.rs:373-404 | for every limit and `k` some interleaving reaches that bound |
| `ConnFails.AllowedIsFree` | quish-server/src/transport.rs:390-404 | attempts that are not denied cost nothing, however many |
| `UploadTree.Collector.CollectDir` | quish-client/src/cp.rs:312-350 | the in-place walk appends exactly what the recursive definition lists |
| `UploadTree.Collector.CollectEntry` | quish-client/src/cp.rs:312-350 | a directory is pushed before what it holds; other kinds are skipped |
| `UploadTree.ListingOrderIrrelevant` | quish-client/src/cp.rs:312-350 | the order in which the operating system lists a directory does not matter |
| `UploadTree.TreeParentsFirst` | quish-client/src/cp.rs:303-350 | every listed path has its parent listed before it |
| `UploadTree.TreeLists` | quish-client/src/cp.rs:303-350 | the walk lists exactly the tree without its non-regular entries, no path twice |
| `UploadReplay.UploadWalk` | quish-client/src/cp.rs:499-533 | the upload loops stop at the first failure with its status and otherwise equal the whole replay |
| `UploadReplay.UploadRebuildsTree` | quish-client/src/cp.rs:499-533 | on any remote file system without the root, the upload succeeds if and only if the root can be created and every directory holding a regular entry gives its owner write and search; it then leaves exactly the tree; it never changes what was there |
| `UploadReplay.UploadAgain` | quish-server/src/privdrop.rs:346-415 | after a successful upload the same upload changes nothing and succeeds if and only if every file gives its owner write |
| `UploadReplay.SuccessMeansLanded` | quish-server/src/privdrop.rs:346-415 | on any remote file system, root or no root, an upload that reports success leaves every file with the local content (existing files keep their mode, new ones get the local one), every directory in place and everything outside the tree unchanged |
| `UploadReplay.ClosedDirectoryFails` | quish-server/src/privdrop.rs:387-415 | a directory without owner write or search (0555, say) that holds a file cannot be uploaded by an ordinary user |
| `UploadReplay.ReadOnlyFileFailsAgain` | quish-server/src/privdrop.rs:346-380 | a file without owner write (0444, say): the first upload succeeds, the second does not |
| `KnownHosts.File.RemoveHostLines` | quish-client/src/connect.rs:283-303 | the counting filter keeps exactly the other lines and counts the dropped ones |
| `KnownHosts.File.Remove` | quish-client/src/connect.rs:258-278 | the file is rewritten only when a line went; none went exactly when the host had no pin |
| `KnownHosts.File.Verify` | quish-client/src/connect.rs:90-124 | the verifier refines the step: system root, then pin, then prompt |
| `KnownHosts.RemovalIsExact` | quish-client/src/connect.rs:283-303 | for every file whatever, removing a host makes its lookup none and leaves every other lookup as it was |
| `KnownHosts.RemovalKeepsLines` | quish-client/src/connect.rs:283-303 | on a file the client wrote every other line stays, in order and letter for letter |
| `KnownHosts.PinIsMapUpdate` | quish-client/src/connect.rs:217-236 | a pin is the intended map update if and only if the host has no space or newline and the file is empty or newline-terminated |
| `KnownHosts.UnterminatedMisreads` | quish-client/src/connect.rs:226-236 | a one-line file without its newline: a new host stays unknown and the old one reads as a key never pinned for it |
| `KnownHosts.FileRefinesMap` | quish-client/src/connect.rs:99-124 | every run of connects and removals on a terminated text gives the verdicts of a map from hosts to keys, ends in a text that reads as that map, and keeps the text empty or newline-terminated |
| `KnownHosts.ActsAsMapExactly` | quish-client/src/connect.rs:99-124 | a file acts as the map it reads as, in all runs, if and only if it is empty or newline-terminated |
| `KnownHosts.FirstUseExactly` | quish-client/src/connect.rs:99-124 | after a first use the second key is held to the first if and only if the host has no space or newline and the file is terminated; otherwise any key is trusted |
| `KnownHosts.OneKeyBetweenRemovals` | quish-client/src/connect.rs:99-124 | from any terminated file all keys the pinning branch trusts for a host between two removals are equal, whatever other hosts do |
| `KnownHosts.OneKeyExactly` | quish-client/src/connect.rs:217-236 | that guarantee holds for all runs from a file if and only if the file is empty or newline-terminated |
| `Specs.SplitForwardTokens` | quish-client/src/main.rs:322-349 | the loop ends and equals the recursive splitting |
| `Specs.SplitRange` | quish-client/src/main.rs:322-349 | no text splits into an empty list or a token that needs brackets and holds `]` |
| `Specs.SplitLosesNothing` | quish-client/src/main.rs:322-349 | a text that splits is its tokens joined with colons, some in brackets; anything else is an error |
| `Specs.SplitUndoesJoin` | quish-client/src/main.rs:322-349 | joining then splitting is the identity if and only if the tokens are representable |
| `Specs.TargetRoundTrip` | quish-client/src/main.rs:132-172 | printing then parsing a target is the identity if and only if user, host and path are ones the text can carry |
| `Specs.BareLiteral` | quish-client/src/main.rs:154-160 | two colons and no bracket: all of it is the host, no port |
| `Specs.HostColonPort` | quish-client/src/main.rs:154-163 | one colon: host and port, or the port error |
| `Specs.BracketColonPort` | quish-client/src/main.rs:142-153 | the exact result, errors included, of every bracketed host |
| `Specs.CpRoundTrip` | quish-client/src/cp.rs:47-94 | printing then parsing a remote endpoint is the identity if and only if user and host are ones the text can carry; the path is arbitrary |
| `Specs.CpErrors` | quish-client/src/cp.rs:61-88 | what a remote spec is refused for: no closing bracket, empty host, no colon after the bracket |
| `Specs.LocalExactly` | quish-client/src/cp.rs:47-94 | a spec is local exactly when no bracket opens the host and no `:` precedes the first `/`, and is then returned whole |
| `Specs.BracketedSlashIsRemote` | quish-client/src/cp.rs:62-80 | a bracketed host starting with `/` is remote although no `:` comes first |
| `Base64.DecodeExactly` | quish-server/src/ipc.rs:93-118 | strict decoding accepts exactly the encoder's outputs and inverts it (section 4 of RFC 4648) |
| `PamEnv.EncodePamEnv` | quish-server/src/ipc.rs:93-110 | the loop encodes the concatenated records of the representable variables |
| `PamEnv.DecodePamEnv` | quish-server/src/ipc.rs:115-133 | the loop collects one variable per line with an `=`, nothing from a malformed blob |
| `PamEnv.PamEnvRoundTrip` | quish-server/src/ipc.rs:93-133 | decoding the encoding gives the in-order sublist of representable variables |
| `PamEnv.SurvivesExactly` | quish-server/src/ipc.rs:93-133 | a list survives unchanged if and only if all of it is representable |
| `PamEnv.DecodedAreRepresentable` | quish-server/src/ipc.rs:115-133 | whatever text arrives, no decoded key holds `=` or a newline |
| `PamEnv.BuildEnv` | quish-server/src/privdrop.rs:262-294 | the merge loop equals the filtered PAM entries followed by the helper's six |
| `PamEnv.HelperAlwaysWins` | quish-server/src/privdrop.rs:254-294 | for any handed-over text the environment has exactly one entry for HOME, USER, LOGNAME, SHELL, TERM and PATH, each with the account's value |
| `PamEnv.OtherNamesPassThrough` | quish-server/src/privdrop.rs:254-294 | under any other name the environment is what PAM set, in order, without NULs |

## Left out

- Header parsing, OIDC and public-key token validation, and all cryptography: backends and the host key are arbitrary functions or relations.
- QUIC, TLS, HTTP/3 and sockets: ordered byte streams and free choice of steps.
- Response-time floors and delays: only outcomes are modelled.
- A monitor call cancelled by its deadline: each call is one atomic step, and nothing is claimed about cancelled ones.
- Process signals, chroot, seccomp, real PAM and forking: their results are inputs, their effects log entries.
- The interactive shell pump, the two TCP forwarding pumps and the channel-open codec: they repeat the exec pump and the message codec with fewer cases.
- Pump.PumpExec: hands a frame over at once, so it speaks of pumps that end; `ExecFlow` models the bounded queues and pipes by counts, with a client that reads what it is sent, and settles when the pump can wait for ever.
- Umask, groups, access lists, symbolic links, races on the local tree and names that are not UTF-8: file names are distinct texts without `/`, entries get the mode that was sent, and the session user's rights are the owner bits of the modes (all rights for root).
- Configuration files, command-line structs, prompts, terminal handling and key generation.
- The signing thread, the parking timers and the login tasks are transition systems on values, so the layout of their shared memory is not modelled; the parking table, the limiter, the throttle and the monitor state are objects updated in place.
- Chunk boundaries of `read`: a source of output yields any sequence of chunks; `Frames.UploadFile` takes any chunk length from 1 to 32 KiB.
- Totp.VerifiesIffNeighbour: `now` is any natural number, so the wrap-around of the 64-bit counter at the end of time is not modelled.
- KnownHosts.FileRefinesMap: covers hosts without spaces or newlines and clean fingerprints on a terminated file; `KnownHosts.FirstUseExactly` and `KnownHosts.ActsAsMapExactly` prove that it fails outside them; read and write errors of the file are not modelled.
- Pump.RunTransferWrite: speaks of frames queued; frames still queued when the writer's write fails do not reach the helper.
