/** Which requests the loop drops are still followed by a check, and which are not. */
module Dropped {
  import opened Prelude
  import opened Protocol
  import opened SingleFlight

  /** A check of `n` is still to start. */
  predicate Waiting(s: State, n: Name) {
    s.loop == HandingOff(n) || n in s.chanWork
  }

  /** In the run from `s` a worker takes `n`. */
  predicate Starts(zones: Zones, s: State, run: seq<Action>, n: Name)
    requires IsRun(zones, s, run)
    decreases |run|
  {
    run != [] && ((run[0].Take? && s.chanWork[0] == n) || Starts(zones, Next(zones, s, run[0]), run[1..], n))
  }

  predicate CouldRequest(zones: Zones, cmd: Bytes, n: Name) {
    var args := Split(cmd);
    args[0] == "check" && |args| == 2 &&
    if args[1] == "all" then n in zones && zones[n].dnsNode else args[1] == n
  }

  lemma {:induction false} DnsNodeZonesOnly(zones: Zones, order: seq<Name>, n: Name)
    requires n in DnsNodeZones(zones, order)
    ensures n in zones && zones[n].dnsNode
  {
    if !(order[0] in zones && zones[order[0]].dnsNode) || n != order[0] { DnsNodeZonesOnly(zones, order[1..], n); }
  }

  lemma RequestsOnly(zones: Zones, cmd: Bytes, order: seq<Name>, n: Name)
    requires n in Requests(zones, cmd, order)
    ensures CouldRequest(zones, cmd, n)
  {
    if Split(cmd)[1] == "all" { DnsNodeZonesOnly(zones, order, n); }
  }

  predicate EventRequests(zones: Zones, e: Event, n: Name) {
    match e
    case MessageNew(m) => m == n
    case MessageDone(_) => false
    case MessageCLI(_, cmd, _) => CouldRequest(zones, cmd, n)
  }

  /** A request for `n` is on its way to the loop. */
  ghost predicate Requested(zones: Zones, s: State, n: Name) {
    || (exists e :: e in s.chanEvent && EventRequests(zones, e, n))
    || (exists c :: c in s.consoles && s.consoles[c].Submitting? && CouldRequest(zones, s.consoles[c].cmd, n))
    || (s.loop.Executing? && n in s.loop.requests)
  }

  /** Nobody asks for `n`. */
  predicate NoRequest(zones: Zones, run: seq<Action>, n: Name) {
    forall i :: 0 <= i < |run| ==> !Asks(zones, run[i], n)
  }

  predicate Asks(zones: Zones, a: Action, n: Name) {
    a == Notify(n) || (a.Submit? && CouldRequest(zones, a.cmd, n))
  }

  lemma {:induction false} StillWaiting(zones: Zones, s: State, run: seq<Action>, n: Name)
    requires IsRun(zones, s, run) && Waiting(s, n) && !Starts(zones, s, run, n)
    ensures Waiting(After(zones, s, run), n)
    decreases |run|
  {
    if run != [] {
      if run[0].Take? && n in s.chanWork { assert s.chanWork == [s.chanWork[0]] + s.chanWork[1..]; }
      StillWaiting(zones, Next(zones, s, run[0]), run[1..], n);
    }
  }

  lemma ReceiveUnrequested(zones: Zones, s: State, order: seq<Name>, n: Name)
    requires Enabled(zones, s, Receive(order)) && !Waiting(s, n) && !Requested(zones, s, n)
    ensures !Waiting(Next(zones, s, Receive(order)), n) && !Requested(zones, Next(zones, s, Receive(order)), n)
  {
    var e := s.chanEvent[0];
    assert e in s.chanEvent && !EventRequests(zones, e, n);
    assert forall d :: d in s.chanEvent[1..] ==> d in s.chanEvent;
    if e.MessageCLI? && n in Requests(zones, e.cmd, order) { RequestsOnly(zones, e.cmd, order, n); }
  }

  lemma StepUnrequested(zones: Zones, s: State, a: Action, n: Name)
    requires Enabled(zones, s, a) && !Waiting(s, n) && !Requested(zones, s, n) && !Asks(zones, a, n)
    ensures !Waiting(Next(zones, s, a), n) && !Requested(zones, Next(zones, s, a), n)
  {
    match a
    case Receive(order) => ReceiveUnrequested(zones, s, order, n);
    case _ =>
  }

  lemma {:induction false} NeverStarts(zones: Zones, s: State, run: seq<Action>, n: Name)
    requires IsRun(zones, s, run) && !Waiting(s, n) && !Requested(zones, s, n) && NoRequest(zones, run, n)
    ensures !Starts(zones, s, run, n)
    decreases |run|
  {
    if run != [] {
      StepUnrequested(zones, s, run[0], n);
      NeverStarts(zones, Next(zones, s, run[0]), run[1..], n);
    }
  }

  /** Without further requests: by the time that `n` no longer waits, a check of it has started iff it waited at first. */
  lemma StartsExactly(zones: Zones, s: State, run: seq<Action>, n: Name)
    requires IsRun(zones, s, run) && !Requested(zones, s, n) && NoRequest(zones, run, n)
    requires !Waiting(After(zones, s, run), n)
    ensures Starts(zones, s, run, n) <==> Waiting(s, n)
  {
    if Waiting(s, n) {
      if !Starts(zones, s, run, n) { StillWaiting(zones, s, run, n); }
    } else {
      NeverStarts(zones, s, run, n);
    }
  }

  /** The last request for `n` reaches the loop. A check that starts after it follows iff `n` is free or still in the work
      queue. Otherwise the request is dropped for good, because a worker has `n`, its report is queued, or it is lost. */
  lemma RequestFollowedExactly(zones: Zones, workers: nat, s: State, order: seq<Name>, run: seq<Action>, n: Name)
    requires Reachable(zones, workers, s) && Enabled(zones, s, Receive(order)) && s.chanEvent[0] == MessageNew(n)
    requires var t := Next(zones, s, Receive(order));
      && IsRun(zones, t, run) && !Requested(zones, t, n) && NoRequest(zones, run, n)
      && !Waiting(After(zones, t, run), n)
    ensures Starts(zones, Next(zones, s, Receive(order)), run, n) <==> n !in s.jobs || n in s.chanWork
    ensures n in s.jobs && n !in s.chanWork ==>
      Busy(s.workers, n) + Reported(s.chanEvent, n) + s.lost[n] == 1
  {
    StartsExactly(zones, Next(zones, s, Receive(order)), run, n);
    ReachableAccounted(zones, workers, s);
    assert Places(s, n) == One(n in s.jobs);
  }
}
