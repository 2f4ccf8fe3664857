/**
 * The presence check of index.js:51-142: for each registered user, look the
 * MAC address up in the ARP table, ping the address found, and record the
 * user in the attendance log when the host answers; when it does not, or
 * when the ARP table has no entry (then after a sweep of the subnet), try
 * again 20 seconds later. The shell, the ping library, the clock and the
 * date formatting are inputs.
 */
module Presence {
  import opened Options
  import opened NetworkPorts
  import opened ArpLine
  import opened SubnetSweep
  import opened TimeWindow
  import opened AttendanceLog

  /** The delay of the retry timer at index.js:98. */
  const RetryDelayMs: nat := 1000 * 20

  /** How a promise settles. */
  datatype Settlement = Fulfilled | Rejected | Pending

  /** `checkAlive(ip)`: a throw inside the promise executor rejects it; a
      rejected probe promise has no handler, so `checkAlive` never settles
      (the unhandled rejection is only a warning). */
  function CheckAlive(ip: string, probe: string -> ProbeResult): Settlement {
    match probe(ip)
    case Reply(alive) => if alive then Fulfilled else Rejected
    case Throws => Rejected
    case Fault => Pending
  }

  /** How the promise of `getIpWithArp` settles. */
  datatype Resolution =
    | Resolved(ip: string)     // fulfils: the address from the ARP line answered
    | Unreachable(ip: string)  // rejects: the address from the ARP line did not answer
    | NotOnSubnet              // rejects: grep matched nothing, after the sweep finished
    | Unsettled                // never settles

  /**
   * `getIpWithArp` for one ARP answer. A stdout line goes to the 'data'
   * handler, which pings the extracted address; a close with exit code 1
   * starts a sweep and rejects once every pending probe has fulfilled. With
   * no line and any other exit code neither handler settles the promise.
   */
  function Resolve(lookup: ArpLookup, probe: string -> ProbeResult): Resolution {
    match lookup.line
    case Some(data) =>
      var ip := ExtractIp(data);
      (match CheckAlive(ip, probe)
       case Fulfilled => Resolved(ip)
       case Rejected => Unreachable(ip)
       case Pending => Unsettled)
    case None =>
      if lookup.exitCode == 1 && SweepSettles(probe) then NotOnSubnet else Unsettled
  }

  /** The outcomes of `getIpWithArp`, case by case. */
  lemma ResolveOutcome(lookup: ArpLookup, probe: string -> ProbeResult)
    ensures var r := Resolve(lookup, probe);
      lookup.line.Some? ==>
      var ip := ExtractIp(lookup.line.value);
      && (r == Resolved(ip) <==> probe(ip) == Reply(true))
      && (r == Unreachable(ip) <==> probe(ip) == Reply(false) || probe(ip) == Throws)
      && (r == Unsettled <==> probe(ip) == Fault)
    ensures var r := Resolve(lookup, probe);
      lookup.line.None? ==>
      && (r == NotOnSubnet <==> lookup.exitCode == 1 && SweepSettles(probe))
      && (r == NotOnSubnet || r == Unsettled)
  {
    match lookup.line {
      case Some(data) =>
        var ip := ExtractIp(data);
        match probe(ip) {
          case Reply(alive) =>
          case Fault =>
          case Throws =>
        }
      case None =>
    }
  }

  /** The pings of one sweep, in loop order. */
  function SweepCalls(): (calls: seq<PortCall>)
    ensures |calls| == HostCount
    ensures forall i :: 0 <= i < HostCount ==> calls[i] == Ping(HostAddress(i))
  {
    seq(HostCount, i requires 0 <= i < HostCount => Ping(HostAddress(i)))
  }

  /** A sweep pings each address of the subnet exactly once. */
  lemma SweepCallsDistinct()
    ensures forall k, l :: 0 <= k < l < HostCount ==> SweepCalls()[k] != SweepCalls()[l]
  {
    forall k, l | 0 <= k < l < HostCount ensures SweepCalls()[k] != SweepCalls()[l] {
      HostAddressInjective(k, l);
    }
  }

  /** The port calls of one `getIpWithArp` with MAC address `mac`. */
  function AttemptCalls(mac: string, lookup: ArpLookup): seq<PortCall> {
    [ArpQuery(mac)] + (
      if lookup.line.Some? then [Ping(ExtractIp(lookup.line.value))]
      else if lookup.exitCode == 1 then SweepCalls()
      else [])
  }

  /** An attempt first queries the ARP table for the MAC address; then it
      pings the extracted address, or sweeps the subnet once, or stops. */
  lemma AttemptCallsShape(mac: string, lookup: ArpLookup)
    ensures var calls := AttemptCalls(mac, lookup);
      && 1 <= |calls| && calls[0] == ArpQuery(mac)
      && (forall k :: 1 <= k < |calls| ==> calls[k].Ping?)
      && (lookup.line.Some? ==> calls == [ArpQuery(mac), Ping(ExtractIp(lookup.line.value))])
      && (lookup.line.None? && lookup.exitCode != 1 ==> calls == [ArpQuery(mac)])
    ensures var calls := AttemptCalls(mac, lookup);
      lookup.line.None? && lookup.exitCode == 1 ==>
      && |calls| == 1 + HostCount
      && (forall i :: 0 <= i < HostCount ==> calls[i + 1] == Ping(HostAddress(i)))
      && (forall k, l :: 0 <= k < l < |calls| ==> calls[k] != calls[l])
  {
    var calls := AttemptCalls(mac, lookup);
    if lookup.line.None? && lookup.exitCode == 1 {
      SweepCallsDistinct();
      forall k, l | 0 <= k < l < |calls| ensures calls[k] != calls[l] {
        if k > 0 {
          assert calls[k] == SweepCalls()[k - 1] && calls[l] == SweepCalls()[l - 1];
        }
      }
    }
  }

  /** `getIpWithArp(username)`, for the user's MAC address `mac`. */
  method GetIpWithArp(mac: string, ports: Ports) returns (r: Resolution, calls: seq<PortCall>)
    ensures r == Resolve(ports.arp(mac), ports.probe)
    ensures calls == AttemptCalls(mac, ports.arp(mac))
  {
    var lookup := ports.arp(mac);
    calls := [ArpQuery(mac)];
    match lookup.line {
      case Some(data) =>
        var ip := ExtractIp(data);
        calls := calls + [Ping(ip)];
        match CheckAlive(ip, ports.probe) {
          case Fulfilled => r := Resolved(ip);
          case Rejected => r := Unreachable(ip);
          case Pending => r := Unsettled;
        }
      case None =>
        if lookup.exitCode == 1 {
          var probed, pending := AngryIpScan(ports.probe);
          calls := calls + seq(|probed|, i requires 0 <= i < |probed| => Ping(probed[i]));
          assert calls[1..] == SweepCalls();
          PendingSettle(probed, ports.probe);
          r := if forall a | a in pending :: ports.probe(a) != Fault then NotOnSubnet else Unsettled;
        } else {
          r := Unsettled;
        }
    }
  }

  /** What one call of `checkForUser` leads to. */
  datatype Step =
    | ProcessExit(code: int)   // `process.exit` was called
    | Logged(ip: string)       // the user was recorded; the promise fulfils
    | RetryScheduled(delayMs: nat)  // a retry timer was set; the promise fulfils
    | Waiting                  // the promise never settles

  /** Whether the promise `checkForUser` returns fulfils. */
  predicate Fulfils(step: Step) {
    step.Logged? || step.RetryScheduled?
  }

  /** `.then(logToFile).catch(setTimeout(checkForUser, 20000))` on a settled
      `getIpWithArp`: the catch handler returns normally, so the promise
      fulfils after a failed attempt as well as after a successful one. */
  function StepOf(r: Resolution): (s: Step)
    ensures s.Logged? <==> r.Resolved?
    ensures s.Logged? ==> s.ip == r.ip
    ensures s.RetryScheduled? <==> r.Unreachable? || r.NotOnSubnet?
    ensures s.RetryScheduled? ==> s.delayMs == RetryDelayMs
    ensures Fulfils(s) <==> !r.Unsettled?
  {
    match r
    case Resolved(ip) => Logged(ip)
    case Unreachable(_) => RetryScheduled(RetryDelayMs)
    case NotOnSubnet => RetryScheduled(RetryDelayMs)
    case Unsettled => Waiting
  }

  /** The clock reading for the gate, the stamp logged on success, and what
      the ports report, at one attempt. */
  datatype Attempt = Attempt(now: Clock, stamp: Stamp, ports: Ports)

  /** The step one attempt for MAC address `mac` leads to. */
  function AttemptStep(mac: string, at: Attempt): (s: Step)
    ensures !IsMorning(at.now) <==> s == ProcessExit(1)
    ensures s.RetryScheduled? ==> s == RetryScheduled(RetryDelayMs)
    ensures IsMorning(at.now) ==> s == StepOf(Resolve(at.ports.arp(mac), at.ports.probe))
  {
    if !IsMorning(at.now) then ProcessExit(1) else StepOf(Resolve(at.ports.arp(mac), at.ports.probe))
  }

  /**
   * `checkForUser(username)`. Outside the morning window the process exits
   * with code 1 before the ARP table is queried. Otherwise exactly one
   * attempt is made; a success logs the user once with the attempt's stamp,
   * any other outcome leaves the log untouched.
   */
  method CheckForUser(log: LogFile, users: map<string, string>, username: string, at: Attempt)
    returns (step: Step, calls: seq<PortCall>)
    requires username in users
    modifies log
    ensures step == AttemptStep(users[username], at)
    ensures !IsMorning(at.now) ==> calls == []
    ensures IsMorning(at.now) ==> calls == AttemptCalls(users[username], at.ports.arp(users[username]))
    ensures step.Logged? ==>
      && log.entries == Record(old(log.entries), username, at.stamp.date, at.stamp.time)
      && log.saved == log.entries
      && log.writes == old(log.writes) + 1
    ensures !step.Logged? ==>
      log.entries == old(log.entries) && log.saved == old(log.saved) && log.writes == old(log.writes)
  {
    if !IsMorning(at.now) {
      return ProcessExit(1), [];
    }
    var r;
    r, calls := GetIpWithArp(users[username], at.ports);
    match r {
      case Resolved(ip) =>
        log.LogToFile(username, at.stamp.date, at.stamp.time);
        step := Logged(ip);
      case Unreachable(_) =>
        step := RetryScheduled(RetryDelayMs);
      case NotOnSubnet =>
        step := RetryScheduled(RetryDelayMs);
      case Unsettled =>
        step := Waiting;
    }
  }

  /** How many of `attempts` a chain of retries for MAC address `mac` makes:
      it goes on while an attempt schedules a retry and attempts remain. */
  function ChainLength(mac: string, attempts: seq<Attempt>): nat
    requires attempts != []
  {
    if |attempts| == 1 || !AttemptStep(mac, attempts[0]).RetryScheduled? then 1
    else 1 + ChainLength(mac, attempts[1..])
  }

  /** A chain makes at least one attempt; every attempt before its last
      scheduled a retry, and it stops early only at an attempt that did not. */
  lemma {:induction false} ChainLengthSpec(mac: string, attempts: seq<Attempt>)
    requires attempts != []
    ensures var n := ChainLength(mac, attempts);
      && 1 <= n <= |attempts|
      && (forall k :: 0 <= k < n - 1 ==> AttemptStep(mac, attempts[k]) == RetryScheduled(RetryDelayMs))
      && (n < |attempts| ==> !AttemptStep(mac, attempts[n - 1]).RetryScheduled?)
  {
    if |attempts| > 1 && AttemptStep(mac, attempts[0]).RetryScheduled? {
      var rest := attempts[1..];
      ChainLengthSpec(mac, rest);
      var n := ChainLength(mac, attempts);
      forall k | 0 <= k < n - 1 ensures AttemptStep(mac, attempts[k]) == RetryScheduled(RetryDelayMs) {
        if k > 0 {
          assert attempts[k] == rest[k - 1];
        }
      }
      assert n < |attempts| ==> attempts[n - 1] == rest[n - 2];
    }
  }

  /**
   * One user's chain of attempts: the first call of `checkForUser` followed
   * by the calls its 20-second retry timer makes, one per element of
   * `attempts`, for as long as the process stays alive and attempts fail.
   * The chain ends at the first attempt that logs the user, exits the
   * process because the window has closed, or never settles
   * (`ChainLengthSpec`).
   */
  method FollowRetries(log: LogFile, users: map<string, string>, username: string, attempts: seq<Attempt>)
    returns (step: Step, made: nat)
    requires username in users
    requires attempts != []
    modifies log
    ensures made == ChainLength(users[username], attempts)
    ensures 1 <= made <= |attempts|
    ensures step == AttemptStep(users[username], attempts[made - 1])
    ensures step.Logged? ==>
      && log.entries == Record(old(log.entries), username, attempts[made - 1].stamp.date, attempts[made - 1].stamp.time)
      && log.saved == log.entries
      && log.writes == old(log.writes) + 1
    ensures !step.Logged? ==>
      log.entries == old(log.entries) && log.saved == old(log.saved) && log.writes == old(log.writes)
  {
    var calls;
    var mac := users[username];
    step, calls := CheckForUser(log, users, username, attempts[0]);
    made := 1;
    while step.RetryScheduled? && made < |attempts|
      invariant 1 <= made <= |attempts|
      invariant ChainLength(mac, attempts) == made - 1 + ChainLength(mac, attempts[made - 1..])
      invariant step == AttemptStep(mac, attempts[made - 1])
      invariant step.Logged? ==>
        && log.entries == Record(old(log.entries), username, attempts[made - 1].stamp.date, attempts[made - 1].stamp.time)
        && log.saved == log.entries
        && log.writes == old(log.writes) + 1
      invariant !step.Logged? ==>
        log.entries == old(log.entries) && log.saved == old(log.saved) && log.writes == old(log.writes)
      decreases |attempts| - made
    {
      assert attempts[made - 1..][1..] == attempts[made..];
      step, calls := CheckForUser(log, users, username, attempts[made]);
      made := made + 1;
    }
  }

  /**
   * How user `u`'s first attempt settles. Every attempt makes its own ARP
   * query and its own pings, at its own moment, so each user's first
   * attempt sees the network through its own `portsOf(u)`.
   */
  function FirstResolution(users: map<string, string>, portsOf: string -> Ports, u: string): Resolution
    requires u in users
  {
    Resolve(portsOf(u).arp(users[u]), portsOf(u).probe)
  }

  /** Whether user `u`'s first attempt resolves. */
  predicate Resolves(users: map<string, string>, portsOf: string -> Ports, u: string)
    requires u in users
  {
    FirstResolution(users, portsOf, u).Resolved?
  }

  /** The users whose first attempt resolves. */
  function Present(users: map<string, string>, portsOf: string -> Ports): (present: set<string>)
    ensures present <= users.Keys
    ensures forall u :: u in users ==> (u in present <==> Resolves(users, portsOf, u))
  {
    set u | u in users && Resolves(users, portsOf, u)
  }

  predicate Distinct(s: seq<string>) {
    forall k, l :: 0 <= k < l < |s| ==> s[k] != s[l]
  }

  /** `Object.keys(users)`: every registered username, each once. */
  predicate ListsKeys(order: seq<string>, users: map<string, string>) {
    && (forall k :: 0 <= k < |order| ==> order[k] in users)
    && (forall u :: u in users ==> u in order)
    && Distinct(order)
  }

  /** The users of `order` whose first attempt resolves, in that order. */
  function PresentIn(order: seq<string>, users: map<string, string>, portsOf: string -> Ports): (r: seq<string>)
    requires forall k :: 0 <= k < |order| ==> order[k] in users
    ensures forall u :: u in r <==> u in order && Resolves(users, portsOf, u)
    ensures Distinct(order) ==> Distinct(r)
  {
    if order == [] then []
    else
      var init, last := order[..|order| - 1], order[|order| - 1];
      assert forall u :: u in order <==> u in init || u == last;
      assert Distinct(order) ==> last !in init;
      var r := PresentIn(init, users, portsOf);
      if Resolves(users, portsOf, last) then r + [last] else r
  }

  /** Extending the key prefix by one key adds that user when it resolves. */
  lemma PresentInSnoc(order: seq<string>, i: nat, users: map<string, string>, portsOf: string -> Ports)
    requires i < |order| && forall k :: 0 <= k < |order| ==> order[k] in users
    ensures PresentIn(order[..i + 1], users, portsOf)
         == PresentIn(order[..i], users, portsOf) + (if Resolves(users, portsOf, order[i]) then [order[i]] else [])
  {
    assert order[..i + 1][..i] == order[..i];
  }

  /** A sequence without repetitions has as many elements as its set. */
  lemma {:induction false} DistinctCard(s: seq<string>)
    requires Distinct(s)
    ensures |set u | u in s| == |s|
  {
    if s != [] {
      var init, last := s[..|s| - 1], s[|s| - 1];
      DistinctCard(init);
      assert last !in init;
      assert (set u | u in s) == (set u | u in init) + {last};
    }
  }

  /** Over all registered users, the resolving ones form `Present`. */
  lemma PresentInAll(order: seq<string>, users: map<string, string>, portsOf: string -> Ports)
    requires ListsKeys(order, users)
    ensures (set u | u in PresentIn(order, users, portsOf)) == Present(users, portsOf)
    ensures Distinct(PresentIn(order, users, portsOf))
    ensures |PresentIn(order, users, portsOf)| == |Present(users, portsOf)|
  {
    var r := PresentIn(order, users, portsOf);
    assert (set u | u in r) == Present(users, portsOf);
    DistinctCard(r);
  }

  /** One user's first `checkForUser` while the window is open. */
  method FirstAttempt(log: LogFile, users: map<string, string>, u: string, now: Clock,
                      stampOf: string -> Stamp, portsOf: string -> Ports)
    returns (step: Step)
    requires u in users && IsMorning(now)
    modifies log
    ensures step == StepOf(FirstResolution(users, portsOf, u))
    ensures step.Logged? <==> Resolves(users, portsOf, u)
    ensures step.Logged? ==>
      && log.entries == Record(old(log.entries), u, stampOf(u).date, stampOf(u).time)
      && log.saved == log.entries
      && log.writes == old(log.writes) + 1
    ensures !step.Logged? ==>
      log.entries == old(log.entries) && log.saved == old(log.saved) && log.writes == old(log.writes)
  {
    var calls;
    step, calls := CheckForUser(log, users, u, Attempt(now, stampOf(u), portsOf(u)));
  }

  /**
   * The open-window part of `checkForUsers()`: one attempt per user of
   * `order`, recorded in the order the loop reaches them.
   */
  method CheckEachUser(log: LogFile, users: map<string, string>, order: seq<string>, now: Clock,
                       stampOf: string -> Stamp, portsOf: string -> Ports)
    returns (steps: seq<Step>)
    requires forall k :: 0 <= k < |order| ==> order[k] in users
    requires IsMorning(now)
    modifies log
    ensures |steps| == |order|
    ensures forall k :: 0 <= k < |order| ==> steps[k] == StepOf(FirstResolution(users, portsOf, order[k]))
    ensures log.entries == RecordSeq(old(log.entries), PresentIn(order, users, portsOf), stampOf)
    ensures log.writes == old(log.writes) + |PresentIn(order, users, portsOf)|
    ensures PresentIn(order, users, portsOf) == [] ==> log.saved == old(log.saved)
    ensures PresentIn(order, users, portsOf) != [] ==> log.saved == log.entries
  {
    steps := [];
    // The step each user's first attempt takes.
    ghost var expected := seq(|order|, k requires 0 <= k < |order| => StepOf(FirstResolution(users, portsOf, order[k])));
    ghost var logged: seq<string> := [];
    assert PresentIn(order[..0], users, portsOf) == [] by {
      assert order[..0] == [];
    }
    for i := 0 to |order|
      invariant |steps| == i
      invariant steps == expected[..i]
      invariant logged == PresentIn(order[..i], users, portsOf)
      invariant log.entries == RecordSeq(old(log.entries), logged, stampOf)
      invariant log.writes == old(log.writes) + |logged|
      invariant logged == [] ==> log.saved == old(log.saved)
      invariant logged != [] ==> log.saved == log.entries
    {
      var u := order[i];
      var step := FirstAttempt(log, users, u, now, stampOf, portsOf);
      PresentInSnoc(order, i, users, portsOf);
      if step.Logged? {
        RecordSeqSnoc(old(log.entries), logged, u, stampOf);
        logged := logged + [u];
      }
      steps := steps + [step];
    }
    assert order[..|order|] == order;
    assert steps == expected;
  }

  /**
   * `checkForUsers()`: one `checkForUser` per registered user, in the order
   * of `Object.keys(users)`, all at the same instant `now`; user `u`'s
   * attempt queries the ARP table and pings through its own `portsOf(u)`.
   * The gate reads the same for every user, so either the first one exits
   * the process or every user gets one attempt. The attempts run
   * concurrently; each records
   * a different user, so the order in which they settle does not change the
   * final log, which is stated without order through `RecordAll`.
   */
  method CheckForUsers(log: LogFile, users: map<string, string>, order: seq<string>, now: Clock,
                       stampOf: string -> Stamp, portsOf: string -> Ports)
    returns (steps: seq<Step>)
    requires ListsKeys(order, users)
    modifies log
    ensures !IsMorning(now) ==>
      && steps == (if order == [] then [] else [ProcessExit(1)])
      && log.entries == old(log.entries) && log.saved == old(log.saved) && log.writes == old(log.writes)
    ensures IsMorning(now) ==>
      && |steps| == |order|
      && (forall k :: 0 <= k < |order| ==> steps[k] == StepOf(FirstResolution(users, portsOf, order[k])))
      && log.entries == RecordAll(old(log.entries), Present(users, portsOf), stampOf)
      && log.writes == old(log.writes) + |Present(users, portsOf)|
      && (Present(users, portsOf) == {} ==> log.saved == old(log.saved))
      && (Present(users, portsOf) != {} ==> log.saved == log.entries)
  {
    steps := [];
    if !IsMorning(now) {
      // The first user's check exits the process; the others are never reached.
      if order != [] {
        var step, calls := CheckForUser(log, users, order[0], Attempt(now, stampOf(order[0]), portsOf(order[0])));
        steps := [step];
      }
      return;
    }
    steps := CheckEachUser(log, users, order, now, stampOf, portsOf);
    var found := PresentIn(order, users, portsOf);
    PresentInAll(order, users, portsOf);
    RecordSeqIsRecordAll(old(log.entries), found, stampOf);
    assert found == [] <==> Present(users, portsOf) == {} by {
      if found != [] {
        assert found[0] in Present(users, portsOf);
      }
    }
  }

  /** `Object.keys` lists nothing exactly for an empty registry. */
  lemma ListsKeysEmpty(order: seq<string>, users: map<string, string>)
    requires ListsKeys(order, users)
    ensures users == map[] <==> order == []
  {
    if order != [] {
      assert order[0] in users;
    }
    if users != map[] {
      var u :| u in users;
      assert u in order;
    }
  }

  /** With the window open, `Promise.all` over the first attempts fulfils
      exactly when no user's attempt is left unsettled; no step exits. */
  lemma AllSettled(users: map<string, string>, order: seq<string>, portsOf: string -> Ports, steps: seq<Step>)
    requires ListsKeys(order, users) && |steps| == |order|
    requires forall k :: 0 <= k < |order| ==> steps[k] == StepOf(FirstResolution(users, portsOf, order[k]))
    ensures (forall k :: 0 <= k < |steps| ==> Fulfils(steps[k]))
        <==> forall u :: u in users ==> !FirstResolution(users, portsOf, u).Unsettled?
    ensures forall k :: 0 <= k < |steps| ==> !steps[k].ProcessExit?
  {
    if forall k :: 0 <= k < |steps| ==> Fulfils(steps[k]) {
      forall u | u in users ensures !FirstResolution(users, portsOf, u).Unsettled? {
        var k :| 0 <= k < |order| && order[k] == u;
        assert Fulfils(steps[k]);
      }
    }
  }

  /** How the run path ends. */
  datatype RunEnd =
    | Exit(code: int)  // `process.exit(code)` is called
    | Crash            // a TypeError thrown synchronously: no user has ever been registered
    | NoExitCall       // the run path itself never calls `process.exit`

  /**
   * `checkForUsers().then(() => { process.exit(0); })` (index.js:67 and 70)
   * for a loaded registry `users`, whose keys `order` lists. A closed window
   * exits with 1 at the first user; an open one exits with 0 once every
   * first attempt has settled, which also drops the retry timers of the
   * users that were not found, and otherwise never calls `process.exit`.
   */
  method CheckForUsersThenExit(log: LogFile, users: map<string, string>, order: seq<string>, now: Clock,
                               stampOf: string -> Stamp, portsOf: string -> Ports)
    returns (end: RunEnd, steps: seq<Step>)
    requires ListsKeys(order, users)
    modifies log
    ensures users == map[] ==>
      && end == Exit(0)
      && log.entries == old(log.entries) && log.saved == old(log.saved) && log.writes == old(log.writes)
    ensures users != map[] && !IsMorning(now) ==>
      && end == Exit(1)
      && log.entries == old(log.entries) && log.saved == old(log.saved) && log.writes == old(log.writes)
    ensures IsMorning(now) ==>
      && |steps| == |order|
      && (forall k :: 0 <= k < |order| ==> steps[k] == StepOf(FirstResolution(users, portsOf, order[k])))
      && log.entries == RecordAll(old(log.entries), Present(users, portsOf), stampOf)
      && log.writes == old(log.writes) + |Present(users, portsOf)|
      && (Present(users, portsOf) == {} ==> log.saved == old(log.saved))
      && (Present(users, portsOf) != {} ==> log.saved == log.entries)
      && (end == Exit(0) <==> forall u :: u in users ==> !FirstResolution(users, portsOf, u).Unsettled?)
      && (end == Exit(0) || end == NoExitCall)
  {
    steps := CheckForUsers(log, users, order, now, stampOf, portsOf);
    ListsKeysEmpty(order, users);
    if IsMorning(now) {
      AllSettled(users, order, portsOf, steps);
    } else if order != [] {
      assert steps[0] == ProcessExit(1);
    }
    if exists k | 0 <= k < |steps| :: steps[k].ProcessExit? {
      end := Exit(1);
    } else if forall k | 0 <= k < |steps| :: Fulfils(steps[k]) {
      end := Exit(0);
    } else {
      end := NoExitCall;
    }
  }

  /**
   * The `--run` path of index.js:51-72 once the log file has been read and
   * `stored` (the registry's 'users' entry) loaded; `order` is what
   * `Object.keys` lists for it. With `force` the ARP cache is flushed (not
   * modelled) and the subnet swept first, through its own `sweepProbe`;
   * the users are checked only if every probe of that sweep fulfils. An
   * unset registry makes `Object.keys` throw: synchronously without
   * `force`, which crashes the process, and inside a `.then` callback with
   * it, which only rejects a promise nobody handles.
   */
  method RunDetection(log: LogFile, stored: Option<map<string, string>>, order: seq<string>, force: bool,
                      now: Clock, stampOf: string -> Stamp, sweepProbe: string -> ProbeResult, portsOf: string -> Ports)
    returns (end: RunEnd, steps: seq<Step>, swept: seq<string>)
    requires stored.Some? ==> ListsKeys(order, stored.value)
    modifies log
    ensures force ==> |swept| == HostCount && forall i :: 0 <= i < HostCount ==> swept[i] == HostAddress(i)
    ensures !force ==> swept == []
    ensures (force && !SweepSettles(sweepProbe)) || stored.None? ==>
      && end == (if force then NoExitCall else Crash)
      && steps == []
      && log.entries == old(log.entries) && log.saved == old(log.saved) && log.writes == old(log.writes)
    ensures (!force || SweepSettles(sweepProbe)) && stored.Some? ==>
      var users := stored.value;
      && (users == map[] ==>
        && end == Exit(0)
        && log.entries == old(log.entries) && log.saved == old(log.saved) && log.writes == old(log.writes))
      && (users != map[] && !IsMorning(now) ==>
        && end == Exit(1)
        && log.entries == old(log.entries) && log.saved == old(log.saved) && log.writes == old(log.writes))
      && (IsMorning(now) ==>
        && |steps| == |order|
        && (forall k :: 0 <= k < |order| ==> steps[k] == StepOf(FirstResolution(users, portsOf, order[k])))
        && log.entries == RecordAll(old(log.entries), Present(users, portsOf), stampOf)
        && log.writes == old(log.writes) + |Present(users, portsOf)|
        && (Present(users, portsOf) == {} ==> log.saved == old(log.saved))
        && (Present(users, portsOf) != {} ==> log.saved == log.entries)
        && (end == Exit(0) <==> forall u :: u in users ==> !FirstResolution(users, portsOf, u).Unsettled?)
        && (end == Exit(0) || end == NoExitCall))
  {
    swept, steps := [], [];
    if force {
      var pending;
      swept, pending := AngryIpScan(sweepProbe);
      PendingSettle(swept, sweepProbe);
      if !forall a | a in pending :: sweepProbe(a) != Fault {
        return NoExitCall, steps, swept;
      }
    }
    if stored.None? {
      // With `force`, `Object.keys` throws inside a `.then` callback: only
      // a warning about an unhandled rejection.
      return if force then NoExitCall else Crash, steps, swept;
    }
    end, steps := CheckForUsersThenExit(log, stored.value, order, now, stampOf, portsOf);
  }
}
