/** The client session of the replicated key-value store (`Parameters` in
    src/bindings/bindings.go): bootstrap against a ready replica list,
    closest-replica selection, command construction with a per-session id,
    the routing rule, and the one-shot failure tracker that redirects every
    later command to the leader. Network I/O, the latency probe and the
    master's RPCs are parameters of the model. */
module Bindings {
  import opened Wire

  datatype Option<T> = None | Some(value: T)

  /** Why the process exits: each `log.Fatal` of the session, plus the Go
      runtime panic when the submitter names no link. */
  datatype Fault =
    | CannotProbe(replica: string)   // the latency probe of a replica failed
    | LeaderQueryFailed               // the GetLeader RPC failed
    | FastPathUnimplemented           // "NYIT": fast mode is not implemented
    | NoSuchReplica(index: int)       // b.writers[submitter] is out of range
    | CannotRecover                   // a second reply failed

  /** The result of an operation: its value, or the fatal exit that ends the
      process. */
  datatype Outcome<T> = Done(value: T) | Fatal(fault: Fault)

  /** Forgets the value of an outcome, as `Write` does with `execute`'s. */
  function Discard(o: Outcome<Value>): Outcome<()>
  {
    match o
    case Done(_) => Done(())
    case Fatal(f) => Fatal(f)
  }

  // ---------------------------------------------------------------------
  // Host extraction
  // ---------------------------------------------------------------------

  /** The address probed when a replica's host field is empty. */
  const Loopback: string := "127.0.0.1"

  /** `strings.Split(s, ":")[0]`: the text of `s` before its first colon,
      or all of `s` when it has none. */
  function BeforeFirstColon(s: string): (p: string)
    ensures p <= s
    ensures ':' !in p
    ensures |p| < |s| ==> s[|p|] == ':'
  {
    if s == [] || s[0] == ':' then [] else [s[0]] + BeforeFirstColon(s[1..])
  }

  /** The three properties above pin the field down: any prefix without a
      colon that ends at a colon or at the end of `s` is that field. */
  lemma BeforeFirstColonUnique(s: string, q: string)
    requires q <= s && ':' !in q
    requires |q| < |s| ==> s[|q|] == ':'
    ensures q == BeforeFirstColon(s)
  {
  }

  /** The host a replica address is probed at: the field before the first
      colon, or the loopback address when that field is empty. */
  function HostOf(addr: string): (host: string)
    ensures addr == [] || addr[0] == ':' ==> host == Loopback
    ensures addr != [] && addr[0] != ':' ==>
              host != [] && host <= addr && ':' !in host &&
              (|host| < |addr| ==> addr[|host|] == ':')
  {
    var field := BeforeFirstColon(addr);
    if field == "" then Loopback else field
  }

  // ---------------------------------------------------------------------
  // Closest-replica selection
  // ---------------------------------------------------------------------

  /** `math.MaxFloat64`, the initial minimum latency, as an exact real. */
  const MaxFloat64: real := 179769313486231570814527423731704356798070567525844996598917476803157260780028538760589558632766878171540458953514382464234321326889464182768467546703537516986049910576551282076245490090389328944075868508455133942304583236903222948165808559332123348274797826204144723168738177180919299881250404026184124858368.0

  /** The outcome of probing one replica: the latency parsed from the
      probe's output, or a probe that could not run. */
  datatype Probe = Latency(ms: real) | Unreachable

  /** What the selection loop ends with: the closest replica and its
      latency, or the first replica whose probe could not run. */
  datatype Selection = Selected(closest: int, minLatency: real) | ProbeFailed(replica: nat)

  /** The probe outcomes in replica order; `ping(i, h)` is the outcome of
      the probe that the i-th iteration sends to host `h`. */
  function Probes(replicas: seq<string>, ping: (nat, string) -> Probe): seq<Probe>
  {
    seq(|replicas|, i requires 0 <= i < |replicas| => ping(i, HostOf(replicas[i])))
  }

  predicate Measured(ps: seq<Probe>)
  {
    forall j :: 0 <= j < |ps| ==> ps[j].Latency?
  }

  /** A probe that can replace the initial minimum `MaxFloat64`. */
  predicate BelowInitial(p: Probe)
  {
    p.Latency? && p.ms < MaxFloat64
  }

  /** `c` is the index of a minimum latency, and no earlier index has one
      as small (the strict comparison keeps the first index on ties). */
  predicate FirstMinimum(ps: seq<Probe>, c: int)
  {
    FirstMinimumAmong(ps, |ps|, c)
  }

  /** `FirstMinimum` over the first `n` probes. */
  predicate FirstMinimumAmong(ps: seq<Probe>, n: nat, c: int)
    requires n <= |ps|
  {
    0 <= c < n && BelowInitial(ps[c]) &&
    (forall j :: 0 <= j < n && ps[j].Latency? ==> ps[c].ms <= ps[j].ms) &&
    (forall j :: 0 <= j < c ==> ps[j].Latency? && ps[c].ms < ps[j].ms)
  }

  /** The replica the selection settles on when every probe ran: the first
      minimum when some latency is below the initial minimum, otherwise the
      replica that was closest before. */
  predicate ClosestIndex(ps: seq<Probe>, current: int, c: int)
  {
    Measured(ps) &&
    if exists j :: 0 <= j < |ps| && BelowInitial(ps[j]) then FirstMinimum(ps, c) else c == current
  }

  /** The minimum latency the selection reports alongside `c`. */
  predicate MinimumLatency(ps: seq<Probe>, c: int, m: real)
  {
    if 0 <= c < |ps| && BelowInitial(ps[c]) then m == ps[c].ms else m == MaxFloat64
  }

  /** `k` is the first replica whose probe could not run. */
  predicate FirstUnreachable(ps: seq<Probe>, k: nat)
  {
    k < |ps| && ps[k].Unreachable? && forall j :: 0 <= j < k ==> ps[j].Latency?
  }

  /** One iteration of the selection loop keeps its invariant. */
  lemma SelectionStep(ps: seq<Probe>, i: nat, current: int, closest: int, minLatency: real, found: bool)
    requires i < |ps| && forall j :: 0 <= j <= i ==> ps[j].Latency?
    requires found <==> exists j :: 0 <= j < i && BelowInitial(ps[j])
    requires found ==> FirstMinimumAmong(ps, i, closest) && minLatency == ps[closest].ms
    requires !found ==> closest == current && minLatency == MaxFloat64
    ensures var closest', minLatency', found' :=
              if minLatency > ps[i].ms then i else closest,
              if minLatency > ps[i].ms then ps[i].ms else minLatency,
              found || BelowInitial(ps[i]);
            (found' <==> exists j :: 0 <= j < i + 1 && BelowInitial(ps[j])) &&
            (found' ==> FirstMinimumAmong(ps, i + 1, closest') && minLatency' == ps[closest'].ms) &&
            (!found' ==> closest' == current && minLatency' == MaxFloat64)
  {
    if BelowInitial(ps[i]) {
      assert exists j :: 0 <= j < i + 1 && BelowInitial(ps[j]);
    }
  }

  /** The selection loop of `Connect`: probe the replicas in order, keep the
      strictly smaller latency, and stop at the first probe that fails. */
  method SelectClosest(replicas: seq<string>, ping: (nat, string) -> Probe, current: int)
    returns (s: Selection)
    ensures s.ProbeFailed? <==> !Measured(Probes(replicas, ping))
    ensures s.ProbeFailed? ==> FirstUnreachable(Probes(replicas, ping), s.replica)
    ensures s.Selected? ==> ClosestIndex(Probes(replicas, ping), current, s.closest)
    ensures s.Selected? ==> MinimumLatency(Probes(replicas, ping), s.closest, s.minLatency)
  {
    ghost var ps := Probes(replicas, ping);
    var closest, minLatency := current, MaxFloat64;
    ghost var found := false;
    var i := 0;
    while i < |replicas|
      invariant 0 <= i <= |replicas|
      invariant forall j :: 0 <= j < i ==> ps[j].Latency?
      invariant found <==> exists j :: 0 <= j < i && BelowInitial(ps[j])
      invariant found ==> FirstMinimumAmong(ps, i, closest) && minLatency == ps[closest].ms
      invariant !found ==> closest == current && minLatency == MaxFloat64
    {
      var addr := HostOf(replicas[i]);
      match ping(i, addr) {
        case Latency(latency) =>
          assert ps[i] == Latency(latency);
          SelectionStep(ps, i, current, closest, minLatency, found);
          if minLatency > latency {
            closest := i;
            minLatency := latency;
          }
          found := found || BelowInitial(ps[i]);
        case Unreachable =>
          assert ps[i].Unreachable?;
          return ProbeFailed(i);
      }
      i := i + 1;
    }
    return Selected(closest, minLatency);
  }

  /** Two indices that are both first minima are the same index. */
  lemma FirstMinimumUnique(ps: seq<Probe>, c1: int, c2: int)
    requires FirstMinimum(ps, c1) && FirstMinimum(ps, c2)
    ensures c1 == c2
  {
  }

  /** With a non-empty replica list and a previous choice in range (the
      fresh session's 0, say), the choice stays in range. */
  lemma ClosestInRange(ps: seq<Probe>, current: int, c: int)
    requires ClosestIndex(ps, current, c)
    requires 0 <= current < |ps|
    ensures 0 <= c < |ps|
  {
  }

  // ---------------------------------------------------------------------
  // Command ids
  // ---------------------------------------------------------------------

  /** The two's-complement 32-bit value of `x`. */
  function Wrap32(x: int): int32
  {
    ((x + 0x8000_0000) % 0x1_0000_0000 - 0x8000_0000) as int32
  }

  /** `b.id++` on an `int32`: one more, wrapping to the minimum. */
  function NextId(id: int32): (r: int32)
    ensures id == MaxInt32 ==> r == MinInt32
    ensures id < MaxInt32 ==> r as int == id as int + 1
  {
    if id == MaxInt32 then MinInt32 else id + 1
  }

  /** The id after `k` operations since `Connect` reset it to 0. */
  function IdAfter(k: nat): int32
  {
    if k == 0 then 0 else NextId(IdAfter(k - 1))
  }

  /** Adding one to a number adds one to its remainder modulo 2^32,
      except at 2^32 - 1, which goes round to 0. */
  lemma ModSucc(a: int)
    ensures (a + 1) % 0x1_0000_0000 ==
            if a % 0x1_0000_0000 == 0xffff_ffff then 0 else a % 0x1_0000_0000 + 1
  {
    var q, m := a / 0x1_0000_0000, a % 0x1_0000_0000;
    assert a == q * 0x1_0000_0000 + m;
    if m == 0xffff_ffff {
      assert a + 1 == (q + 1) * 0x1_0000_0000;
    } else {
      assert a + 1 == q * 0x1_0000_0000 + (m + 1);
    }
  }

  /** `NextId` is addition modulo 2^32 on two's-complement values. */
  lemma NextIdWraps(x: int)
    ensures NextId(Wrap32(x)) == Wrap32(x + 1)
  {
    ModSucc(x + 0x8000_0000);
  }

  lemma {:induction false} IdAfterWraps(k: nat)
    ensures IdAfter(k) == Wrap32(k)
  {
    if k > 0 {
      IdAfterWraps(k - 1);
      NextIdWraps(k - 1);
    }
  }

  /** The k-th operation after `Connect` carries id k, for k up to 2^31 - 1. */
  lemma IdsCount(k: nat)
    requires k <= MaxInt32 as int
    ensures IdAfter(k) as int == k
  {
    IdAfterWraps(k);
  }

  /** No two of 2^32 consecutive operations share an id. */
  lemma IdsDistinct(i: nat, j: nat)
    requires i < j < i + 0x1_0000_0000
    ensures IdAfter(i) != IdAfter(j)
  {
    IdAfterWraps(i);
    IdAfterWraps(j);
    var qi := (i + 0x8000_0000) / 0x1_0000_0000;
    var qj := (j + 0x8000_0000) / 0x1_0000_0000;
    var mi := (i + 0x8000_0000) % 0x1_0000_0000;
    var mj := (j + 0x8000_0000) % 0x1_0000_0000;
    assert i + 0x8000_0000 == qi * 0x1_0000_0000 + mi;
    assert j + 0x8000_0000 == qj * 0x1_0000_0000 + mj;
  }

  /** The id wraps to the most negative value after 2^31 - 1 operations. */
  lemma IdsWrapAfterMaxInt32()
    ensures IdAfter(MaxInt32 as int + 1) == MinInt32
  {
    IdAfterWraps(MaxInt32 as int + 1);
  }

  // ---------------------------------------------------------------------
  // Routing
  // ---------------------------------------------------------------------

  /** The replica `execute` submits to outside fast mode: the leader for a
      PUT in leader-based mode and for every command once the session has
      failed, the closest replica otherwise. */
  function Submitter(isLeaderless: bool, hasFailed: bool, op: Operation, leader: int, closest: int): (r: int)
    ensures hasFailed ==> r == leader
    ensures !isLeaderless && op == PUT ==> r == leader
    ensures !hasFailed && (isLeaderless || op != PUT) ==> r == closest
  {
    if (!isLeaderless && op == PUT) || hasFailed then leader else closest
  }

  /** What `execute` does before waiting: exit in fast mode; otherwise the
      submitter, or a runtime exit when the session has no link with that
      index (no `Connect` yet, an empty replica list, a leader id out of
      range). */
  function Dispatch(isFast: bool, isLeaderless: bool, hasFailed: bool, op: Operation,
                    leader: int, closest: int, n: int): (r: Outcome<nat>)
    ensures isFast ==> r == Fatal(FastPathUnimplemented)
    ensures !isFast && r.Done? ==> r.value < n && r.value as int == Submitter(isLeaderless, hasFailed, op, leader, closest)
    ensures !isFast && r.Fatal? ==> r.fault == NoSuchReplica(Submitter(isLeaderless, hasFailed, op, leader, closest))
    ensures !isFast ==> (r.Done? <==> 0 <= Submitter(isLeaderless, hasFailed, op, leader, closest) < n)
  {
    if isFast then Fatal(FastPathUnimplemented)
    else
      var to := Submitter(isLeaderless, hasFailed, op, leader, closest);
      if 0 <= to < n then Done(to) else Fatal(NoSuchReplica(to))
  }

  /** A GET or SCAN goes to the leader only after a failure, when the
      leader and the closest replica differ. */
  lemma ReadsGoToLeaderOnlyAfterFailure(isLeaderless: bool, hasFailed: bool, op: Operation, leader: int, closest: int)
    requires op != PUT && leader != closest
    ensures Submitter(isLeaderless, hasFailed, op, leader, closest) == leader <==> hasFailed
  {
  }

  /** In leaderless mode a healthy session sends every command to the
      closest replica; after a failure it sends them to `Leader`, which
      leaderless mode never sets and so stays at its initial 0. */
  lemma LeaderlessRouting(hasFailed: bool, op: Operation, leader: int, closest: int)
    ensures Submitter(true, hasFailed, op, leader, closest) == if hasFailed then leader else closest
  {
  }

  // ---------------------------------------------------------------------
  // Failure tracker
  // ---------------------------------------------------------------------

  /** What `waitReplies` leaves behind: the value handed to the caller and
      the new failure flag, or the unrecoverable second failure. */
  datatype Delivery = Delivered(value: Value, hasFailed: bool) | Unrecoverable

  /** The failure logic of `waitReplies`: an OK reply delivers its value; a
      failed one delivers NIL and marks the session failed, unless it had
      already failed, which is fatal. */
  function Settle(hasFailed: bool, reply: ReplyFrame): (d: Delivery)
    ensures IsOk(reply) ==> d == Delivered(reply.value, hasFailed)
    ensures !IsOk(reply) ==> (d.Delivered? <==> !hasFailed)
    ensures !IsOk(reply) && d.Delivered? ==> d == Delivered(Nil, true)
    ensures d.Delivered? && hasFailed ==> d.hasFailed
  {
    if IsOk(reply) then Delivered(reply.value, hasFailed)
    else if !hasFailed then Delivered(Nil, true)
    else Unrecoverable
  }

  /** The number of failed replies in a run. */
  function Failures(rs: seq<ReplyFrame>): nat
  {
    if rs == [] then 0 else (if IsOk(rs[0]) then 0 else 1) + Failures(rs[1..])
  }

  /** The failure flag after a run of replies, or None once one was fatal. */
  function Replay(hasFailed: bool, rs: seq<ReplyFrame>): Option<bool>
    decreases |rs|
  {
    if rs == [] then Some(hasFailed)
    else match Settle(hasFailed, rs[0])
      case Delivered(_, f) => Replay(f, rs[1..])
      case Unrecoverable => None
  }

  /** Over any run of replies the tracker is healthy while no reply failed,
      failed after exactly one failure, and has exited after two. */
  lemma {:induction false} ReplayCountsFailures(hasFailed: bool, rs: seq<ReplyFrame>)
    ensures var k := Failures(rs) + (if hasFailed then 1 else 0);
            Replay(hasFailed, rs) == if k == 0 then Some(false) else if k == 1 then Some(true) else None
    decreases |rs|
  {
    if rs != [] {
      match Settle(hasFailed, rs[0])
      case Delivered(_, f) => ReplayCountsFailures(f, rs[1..]);
      case Unrecoverable =>
    }
  }

  // ---------------------------------------------------------------------
  // The session
  // ---------------------------------------------------------------------

  /** `Parameters`: a client session. */
  class Session {
    var hasFailed: bool
    var closestReplica: int
    var leader: int
    var isLeaderless: bool
    var isFast: bool
    var n: int
    var id: int32
    /** What each replica's writer has been given, oldest first. */
    var outbound: seq<seq<Propose>>
    /** The process has exited through a fatal error. */
    var halted: bool
    /** Operations issued since the last `Connect`. */
    ghost var issued: nat

    ghost predicate Valid()
      reads this
    {
      |outbound| == n && id == IdAfter(issued)
    }

    /** `NewParameters`: everything zero, no links. */
    constructor ()
      ensures Valid() && issued == 0 && !halted
      ensures !hasFailed && closestReplica == 0 && leader == 0
      ensures !isLeaderless && !isFast && n == 0 && id == 0 && outbound == []
    {
      hasFailed, closestReplica, leader := false, 0, 0;
      isLeaderless, isFast, n, id := false, false, 0, 0;
      outbound, halted := [], false;
      issued := 0;
    }

    /** `Connect`, given the ready replica list, the probe, and the answer
        of the GetLeader RPC (None when it fails). */
    method Connect(replicas: seq<string>, ping: (nat, string) -> Probe, leaderless: bool, fast: bool,
                   leaderReply: Option<int>) returns (r: Outcome<()>)
      requires Valid() && !halted
      modifies this
      ensures Valid()
      ensures isLeaderless == leaderless && isFast == fast && id == 0 && issued == 0
      ensures hasFailed == old(hasFailed)
      ensures !Measured(Probes(replicas, ping)) ==>
                halted && r.Fatal? && r.fault.CannotProbe? &&
                (exists k: nat :: FirstUnreachable(Probes(replicas, ping), k) && r.fault.replica == replicas[k]) &&
                closestReplica == old(closestReplica) && leader == old(leader) &&
                n == old(n) && outbound == old(outbound)
      ensures Measured(Probes(replicas, ping)) ==>
                ClosestIndex(Probes(replicas, ping), old(closestReplica), closestReplica) &&
                n == |replicas| && (forall i :: 0 <= i < n ==> outbound[i] == [])
      ensures Measured(Probes(replicas, ping)) && leaderless ==>
                leader == old(leader) && r == Done(()) && !halted
      ensures Measured(Probes(replicas, ping)) && !leaderless ==>
                match leaderReply
                case None => leader == old(leader) && r == Fatal(LeaderQueryFailed) && halted
                case Some(l) => leader == l && r == Done(()) && !halted
    {
      isLeaderless := leaderless;
      isFast := fast;
      id := 0;
      issued := 0;

      var s := SelectClosest(replicas, ping, closestReplica);
      if s.ProbeFailed? {
        assert FirstUnreachable(Probes(replicas, ping), s.replica);
        halted := true;
        return Fatal(CannotProbe(replicas[s.replica]));
      }
      closestReplica := s.closest;

      n := |replicas|;
      outbound := seq(n, _ => []);

      if !leaderless {
        match leaderReply
        case None =>
          halted := true;
          return Fatal(LeaderQueryFailed);
        case Some(l) =>
          leader := l;
      }
      return Done(());
    }

    /** Where a command of kind `op` would go from the current state. */
    function Route(op: Operation): Outcome<nat>
      reads this
    {
      Dispatch(isFast, isLeaderless, hasFailed, op, leader, closestReplica, n)
    }

    /** What `execute` returns for a command of kind `op` whose submitter
        answers with `reply`. */
    ghost function ExecuteResult(op: Operation, reply: ReplyFrame): Outcome<Value>
      reads this
    {
      match Route(op)
      case Fatal(f) => Fatal(f)
      case Done(_) =>
        match Settle(hasFailed, reply)
        case Delivered(v, _) => Done(v)
        case Unrecoverable => Fatal(CannotRecover)
    }

    /** The state `execute` leaves: the routing fields are untouched; the
        proposal is appended to the submitter's link; the failure flag and
        the exit follow the failure tracker. */
    twostate predicate Executed(p: Propose, reply: ReplyFrame)
      reads this
    {
      closestReplica == old(closestReplica) && leader == old(leader) &&
      isLeaderless == old(isLeaderless) && isFast == old(isFast) && n == old(n) &&
      match old(Route(p.command.op))
      case Fatal(_) => halted && hasFailed == old(hasFailed) && outbound == old(outbound)
      case Done(to) =>
        to < |old(outbound)| &&
        outbound == old(outbound)[to := old(outbound)[to] + [p]] &&
        match Settle(old(hasFailed), reply)
        case Delivered(_, f) => hasFailed == f && !halted
        case Unrecoverable => halted && hasFailed == old(hasFailed)
    }

    /** `execute`: route the proposal, send it, and wait for the reply. */
    method Execute(p: Propose, reply: ReplyFrame) returns (r: Outcome<Value>)
      requires Valid() && !halted
      modifies this
      ensures Valid() && id == old(id) && issued == old(issued)
      ensures Executed(p, reply)
      ensures r == old(ExecuteResult(p.command.op, reply))
    {
      if isFast {
        halted := true;
        return Fatal(FastPathUnimplemented);
      }
      var submitter := closestReplica;
      if (!isLeaderless && p.command.op == PUT) || hasFailed {
        submitter := leader;
      }
      if !(0 <= submitter < n) {
        halted := true;
        return Fatal(NoSuchReplica(submitter));
      }
      outbound := outbound[submitter := outbound[submitter] + [p]];
      r := WaitReplies(reply);
    }

    /** `waitReplies`: hand the reply's value to the caller and track
        failures. */
    method WaitReplies(reply: ReplyFrame) returns (e: Outcome<Value>)
      requires !halted
      modifies this`hasFailed, this`halted
      ensures match Settle(old(hasFailed), reply)
              case Delivered(v, f) => e == Done(v) && hasFailed == f && !halted
              case Unrecoverable => e == Fatal(CannotRecover) && halted && hasFailed == old(hasFailed)
    {
      if IsOk(reply) {
        e := Done(reply.value);
      } else {
        e := Done(Nil);
        if !hasFailed {
          hasFailed := true;
        } else {
          halted := true;
          e := Fatal(CannotRecover);
        }
      }
    }

    /** `Write`: a PUT of `value` under `key`, tagged with the next id. */
    method Write(key: int64, value: Value, reply: ReplyFrame) returns (r: Outcome<()>)
      requires Valid() && !halted
      modifies this
      ensures Valid() && issued == old(issued) + 1 && id == NextId(old(id))
      ensures Executed(Propose(id, Command(PUT, key, value), 0), reply)
      ensures r == Discard(old(ExecuteResult(PUT, reply)))
    {
      id := NextId(id);
      issued := issued + 1;
      var args := Propose(id, Command(PUT, 0, Nil), 0);
      args := args.(commandId := id, command := args.command.(k := key, v := value, op := PUT));
      var e := Execute(args, reply);
      r := Discard(e);
    }

    /** `Read`: a GET of `key`, tagged with the next id. */
    method Read(key: int64, reply: ReplyFrame) returns (r: Outcome<Value>)
      requires Valid() && !halted
      modifies this
      ensures Valid() && issued == old(issued) + 1 && id == NextId(old(id))
      ensures Executed(Propose(id, Command(GET, key, Nil), 0), reply)
      ensures r == old(ExecuteResult(GET, reply))
    {
      id := NextId(id);
      issued := issued + 1;
      var args := Propose(id, Command(PUT, 0, Nil), 0);
      args := args.(commandId := id, command := args.command.(k := key, op := GET));
      r := Execute(args, reply);
    }

    /** `Scan`: a SCAN from `key`, tagged with the next id. */
    method Scan(key: int64, reply: ReplyFrame) returns (r: Outcome<Value>)
      requires Valid() && !halted
      modifies this
      ensures Valid() && issued == old(issued) + 1 && id == NextId(old(id))
      ensures Executed(Propose(id, Command(SCAN, key, Nil), 0), reply)
      ensures r == old(ExecuteResult(SCAN, reply))
    {
      id := NextId(id);
      issued := issued + 1;
      var args := Propose(id, Command(PUT, 0, Nil), 0);
      args := args.(commandId := id, command := args.command.(k := key, op := SCAN));
      r := Execute(args, reply);
    }
  }

  /** Three replicas, leader 1, latencies 5, 2 and 8: a write whose reply
      cannot be decoded degrades the session, and the following read goes
      to the leader and returns the value it answers with. */
  method ThreeReplicaScenario()
  {
    var s := new Session();
    var ping := (i: nat, h: string) => if i == 0 then Latency(5.0) else if i == 1 then Latency(2.0) else Latency(8.0);
    var replicas := ["10.0.0.1:7070", "10.0.0.2:7070", "10.0.0.3:7070"];
    ghost var ps := Probes(replicas, ping);
    assert ps == [Latency(5.0), Latency(2.0), Latency(8.0)];
    assert BelowInitial(ps[1]);
    var c := s.Connect(replicas, ping, false, false, Some(1));
    assert FirstMinimum(ps, s.closestReplica);
    FirstMinimumUnique(ps, s.closestReplica, 1);
    assert c == Done(()) && s.closestReplica == 1 && s.leader == 1;

    var v: Value := ['v' as int as uint8];
    var w := s.Write(42, v, Undecodable);
    assert w == Done(()) && s.hasFailed && !s.halted;
    assert s.outbound[1] == [Propose(1, Command(PUT, 42, v), 0)];

    var got := s.Read(42, Decoded(True, v));
    assert got == Done(v);
    assert s.outbound[1] == [Propose(1, Command(PUT, 42, v), 0), Propose(2, Command(GET, 42, Nil), 0)];
  }
}
