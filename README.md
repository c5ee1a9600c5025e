# Client session of the EPaxos key-value store, in Dafny

This project models the client access layer of a replicated key-value store
(`Parameters` in `src/bindings/bindings.go`). It covers:

- bootstrap against a ready replica list;
- the choice of the closest replica by measured latency;
- `Write`/`Read`/`Scan` building a `Propose` envelope tagged with a per-session
  command id;
- the routing rule that picks the submitting replica;
- the one-shot failure tracker. After the first failed reply, every later
  command goes to the leader. A second failed reply ends the process.

Two modules:

- `Wire` (`wire.dfy`) holds the message types the session builds and consumes:
  `Command`, `Propose`, the reply frame, and the integer widths. They come from
  the `state` and `genericsmrproto` packages, which are not part of this model.
  Only their fields are modelled.
- `Bindings` (`bindings.dfy`) holds the session. The pure rules are functions
  with the properties proved about them: host extraction, the selection
  predicate, id arithmetic, routing and the failure tracker. The session itself
  is the class `Session`, whose methods update its fields in place as the Go
  methods do. Their postconditions tie the new state to those rules.

Every `log.Fatal` becomes `Fatal(fault)` with the reason, and the field `halted`
becomes true. Nothing runs after that: every operation requires `!halted`. The
Go runtime panic when `b.writers[submitter]` has no such index is modelled the
same way (`NoSuchReplica`). That covers an operation before `Connect`, an empty
replica list, or a leader id out of range.

The model takes these as parameters:

- The latency probe is a function `ping(i, host)`: the outcome of the probe
  that the i-th iteration sends to `host`.
- The GetLeader RPC is its answer, or `None` when the call fails.
- Each reply is the frame that the submitter's reader yields.

The command id is an `int32`. Its increment wraps at 2^31 - 1, as Go's does.
`IdsCount` and `IdsDistinct` say where the ids are 1, 2, … and where they do not
repeat.

The code and its design description disagree in two places. This model follows
the code:

- In fast mode the design speaks of broadcasting the command to all replicas.
  The code exits with "NYIT" before it reaches that branch.
- The design says command ids are never reused. The 32-bit counter wraps, so
  ids repeat after 2^32 operations.

## Model

| member | source | states |
|---|---|---|
| `Bindings.BeforeFirstColon` | src/bindings/bindings.go:61 | `strings.Split(s, ":")[0]` is a prefix of `s` without a colon, and it ends where `s` ends or at a colon |
| `Bindings.BeforeFirstColonUnique` | src/bindings/bindings.go:61 | those three properties determine the field: any prefix that has them equals it |
| `Bindings.HostOf` | src/bindings/bindings.go:61-64 | the probed host is `127.0.0.1` when the address is empty or starts with a colon; otherwise it is the non-empty colon-free prefix that ends at the first colon or at the end |
| `Bindings.SelectionStep` | src/bindings/bindings.go:69-72 | one iteration of the strict `minLatency > latency` update keeps the loop invariant: the kept index is the first minimum of the probes seen so far, and the kept latency is that minimum |
| `Bindings.SelectClosest` | src/bindings/bindings.go:59-76 | it fails exactly when some probe could not run, and it names the first such replica. Otherwise the result is the index of a minimum latency with no earlier equal latency, and the reported latency is that minimum. When no latency is below `MaxFloat64` (this includes the empty list), the previous `ClosestReplica` is kept and the reported latency is `MaxFloat64` |
| `Bindings.FirstMinimumUnique` | src/bindings/bindings.go:69-72 | the first-minimum index is unique, so the selection is deterministic |
| `Bindings.ClosestInRange` | src/bindings/bindings.go:59-80 | with a non-empty list and a previous choice in range (a fresh session's 0), `0 <= ClosestReplica < N` |
| `Bindings.NextId` | src/bindings/bindings.go:108 | `id++` adds one below `MaxInt32` and wraps to `MinInt32` at it |
| `Bindings.NextIdWraps` | src/bindings/bindings.go:108 | `id++` is addition modulo 2^32 on two's-complement values |
| `Bindings.IdAfterWraps` | src/bindings/bindings.go:108-130 | after k operations since `Connect` reset the id, the id is k taken as a two's-complement 32-bit value |
| `Bindings.IdsCount` | src/bindings/bindings.go:108-130 | the k-th operation after `Connect` is tagged with k, for k up to 2^31 - 1 |
| `Bindings.IdsDistinct` | src/bindings/bindings.go:108-130 | among any 2^32 consecutive operations, no two get the same id |
| `Bindings.IdsWrapAfterMaxInt32` | src/bindings/bindings.go:30 | the operation after 2^31 - 1 operations gets id -2^31 |
| `Bindings.Submitter` | src/bindings/bindings.go:141-144 | every command goes to `Leader` once the session has failed; a PUT in leader-based mode goes to `Leader`; every other command of a healthy session goes to `ClosestReplica` |
| `Bindings.Dispatch` | src/bindings/bindings.go:137-150 | fast mode is fatal. Otherwise the command is sent to the submitter exactly when that index names a link; else the process exits with that index |
| `Bindings.ReadsGoToLeaderOnlyAfterFailure` | src/bindings/bindings.go:142 | when the leader and the closest replica differ, a GET or SCAN goes to the leader if and only if the session has failed |
| `Bindings.LeaderlessRouting` | src/bindings/bindings.go:142 | in leaderless mode, a healthy session sends every command to the closest replica and a failed session sends every command to `Leader` |
| `Bindings.Settle` | src/bindings/bindings.go:174-190 | an OK reply delivers its value and keeps the flag. A failed or undecodable reply delivers NIL and sets the flag when it was clear, and is fatal when it was already set. The flag never goes back to false |
| `Bindings.ReplayCountsFailures` | src/bindings/bindings.go:174-190 | over any run of replies, the session is healthy until a reply fails, failed after exactly one failure, and exited after a second |
| `Bindings.Session.constructor` | src/bindings/bindings.go:34 | `NewParameters`: every field is zero or false, and there are no links |
| `Bindings.Session.Connect` | src/bindings/bindings.go:36-105 | sets `IsLeaderless` and `IsFast` from its arguments and resets `id` to 0. Keeps `HasFailed`. Exits at the first probe that cannot run, leaving `N` and the links as they were. Otherwise it sets `ClosestReplica` by the selection rule, `N` to the list length, and one empty link per replica. In leader-based mode it exits when GetLeader fails and otherwise adopts the leader id it returns. In leaderless mode it leaves `Leader` unchanged |
| `Bindings.Session.Execute` | src/bindings/bindings.go:135-162 | leaves the routing fields unchanged. Either exits, as `Dispatch` says, or appends the proposal to the submitter's link and settles the reply, as `Settle` says. Returns the delivered value, or the fatal reason |
| `Bindings.Session.WaitReplies` | src/bindings/bindings.go:164-193 | hands back the value `Settle` delivers and updates `HasFailed` as `Settle` does, or exits with "cannot recover" |
| `Bindings.Session.Write` | src/bindings/bindings.go:107-115 | id rises by exactly one, and the proposal `{id, PUT, key, value, 0}` is executed |
| `Bindings.Session.Read` | src/bindings/bindings.go:117-124 | id rises by exactly one, and the proposal `{id, GET, key, NIL, 0}` is executed and its value returned |
| `Bindings.Session.Scan` | src/bindings/bindings.go:126-133 | id rises by exactly one, and the proposal `{id, SCAN, key, NIL, 0}` is executed and its value returned |

`Bindings.ThreeReplicaScenario` is a client of the class. It connects to three
replicas with leader 1 and latencies 5, 2 and 8. The write's reply cannot be
decoded. The read then goes to replica 1 and returns the value that replica
answers with. Its assertions follow from the contracts above alone.

## Left out

- The master RPCs (`rpc.DialHTTP`, the GetReplicaList poll-until-ready loop, lines 42-57) are network I/O. The model is given the ready replica list. The fatal exits when the master is unreachable or the list query fails are not modelled.
- The probe's process and its output parsing (`exec.Command("ping", …)`, `strings.Split(out, "/")[4]`, `ParseFloat`, lines 65-67) are an external process and float64 parsing. Each probe is a `Probe` value: a real latency, or `Unreachable`. NaN is not modelled. A latency at or above `MaxFloat64` (the `+Inf` that `ParseFloat` gives on overflow) is never selected, as in the code.
- Session.Connect: when a probe fails partway through, the model leaves `ClosestReplica` as it was. The code may already have updated it for earlier replicas, but the process exits at that point either way.
- Opening the links (`net.Dial`, `bufio.NewReader`/`NewWriter`, lines 82-94) is socket I/O. A link is the sequence of proposals written to it. A replica whose dial failed is only logged at line 90, and the model treats its link like any other.
- The wire encoding (`WriteByte(PROPOSE)`, `Marshal`, `Flush`, `Unmarshal`) belongs to `genericsmrproto`, which is not part of this model. A reply is a decoded OK byte and value, or `Undecodable`. A reply that fails to decode only after its OK byte was read is not modelled.
- `state.NIL()` is taken to be the empty value. `state` is not part of this model.
- The goroutine `go b.waitReplies`, the `done` channel and their happens-before ordering are concurrency. Here the reply is settled after the send, within the same call.
- The fast-path broadcast (lines 151-157) is unreachable, because `execute` exits in fast mode first.
- Logging (lines 68, 78, 90, 102, 171, 182) is left out.
