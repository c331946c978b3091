/** When the daemon stops: the console command that ends it, and runs without one. */
module Deadlock {
  import opened Prelude
  import opened Protocol
  import opened Progress

  // --- A command that sends more than fits ---------------------------------------------------------

  /** In no run does the loop ever receive another event or finish its command. */
  ghost predicate StopsForGood(zones: Zones, s: State) {
    forall run: seq<Action>, i: nat :: IsRun(zones, s, run) && i < |run| ==> !run[i].Receive? && !run[i].Finish?
  }

  predicate Overfull(s: State) {
    s.loop.Executing? && |s.chanEvent| <= CAPACITY < |s.chanEvent| + |s.loop.requests|
  }

  lemma StepOverfull(zones: Zones, s: State, a: Action)
    requires Overfull(s) && Enabled(zones, s, a)
    ensures !a.Receive? && !a.Finish? && Overfull(Next(zones, s, a))
  {
  }

  lemma {:induction false} OverfullStops(zones: Zones, s: State, run: seq<Action>, i: nat)
    requires Overfull(s) && IsRun(zones, s, run) && i < |run|
    ensures !run[i].Receive? && !run[i].Finish?
    decreases |run|
  {
    StepOverfull(zones, s, run[0]);
    if i > 0 { OverfullStops(zones, Next(zones, s, run[0]), run[1..], i - 1); }
  }

  /** If all requests fit, the loop can send them and finish. */
  lemma {:induction false} Finishes(zones: Zones, s: State) returns (run: seq<Action>)
    requires s.loop.Executing? && |s.chanEvent| + |s.loop.requests| <= CAPACITY
    ensures IsRun(zones, s, run) && run != [] && run[|run| - 1] == Finish
    decreases |s.loop.requests|
  {
    var a := if s.loop.requests == [] then Finish else Request;
    var rest := [];
    assert IsRun(zones, Next(zones, s, a), rest);
    if a.Request? { rest := Finishes(zones, Next(zones, s, a)); }
    run := [a] + rest;
    RunCons(zones, s, a, rest);
  }

  lemma {:induction false} RunFits(zones: Zones, s: State, run: seq<Action>)
    requires |s.chanEvent| <= CAPACITY && IsRun(zones, s, run)
    ensures |After(zones, s, run).chanEvent| <= CAPACITY
    decreases |run|
  {
    if run != [] { RunFits(zones, Next(zones, s, run[0]), run[1..]); }
  }

  lemma QueueFits(zones: Zones, workers: nat, s: State)
    requires Reachable(zones, workers, s)
    ensures |s.chanEvent| <= CAPACITY
  {
    var run :| IsRun(zones, Init(workers), run) && After(zones, Init(workers), run) == s;
    RunFits(zones, Init(workers), run);
  }

  /** While a command executes: the loop is lost, whatever happens, iff its requests do not fit in what is left of the
      event queue. Otherwise it can finish. */
  lemma StopsExactly(zones: Zones, workers: nat, s: State)
    requires Reachable(zones, workers, s) && s.loop.Executing?
    ensures StopsForGood(zones, s) <==> |s.chanEvent| + |s.loop.requests| > CAPACITY
  {
    QueueFits(zones, workers, s);
    if Overfull(s) {
      forall run: seq<Action>, i: nat | IsRun(zones, s, run) && i < |run| ensures !run[i].Receive? && !run[i].Finish? {
        OverfullStops(zones, s, run, i);
      }
    } else {
      var run := Finishes(zones, s);
      assert !(!run[|run| - 1].Receive? && !run[|run| - 1].Finish?);
    }
  }

  /** Before a command is executed: it ends the daemon iff it sends more events than there is room for besides those
      that are queued behind it. */
  lemma CommandStopsExactly(zones: Zones, workers: nat, s: State, order: seq<Name>)
    requires Reachable(zones, workers, s) && Enabled(zones, s, Receive(order)) && s.chanEvent[0].MessageCLI?
    ensures StopsForGood(zones, Next(zones, s, Receive(order))) <==>
            |s.chanEvent| - 1 + |Requests(zones, s.chanEvent[0].cmd, order)| > CAPACITY
  {
    ReachableNext(zones, workers, s, Receive(order));
    StopsExactly(zones, workers, Next(zones, s, Receive(order)));
  }

  // --- A command that fits can be overtaken ---------------------------------------------------------

  lemma {:induction false} Unused(ids: set<nat>) returns (n: nat)
    ensures forall m :: m in ids ==> m < n
    decreases ids
  {
    if ids == {} {
      n := 0;
    } else {
      var m :| m in ids;
      var k := Unused(ids - {m});
      n := if m < k then k else m + 1;
      forall j | j in ids ensures j < n {
        if j != m { assert j in ids - {m}; }
      }
    }
  }

  predicate NoFinish(run: seq<Action>) {
    forall i :: 0 <= i < |run| ==> !run[i].Finish?
  }

  predicate NoNotify(run: seq<Action>) {
    forall i :: 0 <= i < |run| ==> !run[i].Notify?
  }

  /** New consoles connect and send `k` commands, while the loop is where it is. */
  lemma {:induction false} Crowd(zones: Zones, s: State, k: nat) returns (run: seq<Action>)
    requires |s.chanEvent| + k <= CAPACITY
    ensures IsRun(zones, s, run) && NoFinish(run) && NoNotify(run)
    ensures var t := After(zones, s, run);
      |t.chanEvent| == |s.chanEvent| + k && t.loop == s.loop && t.workers == s.workers && t.chanWork == s.chanWork
    decreases k
  {
    if k == 0 {
      run := [];
    } else {
      var c := Unused(s.consoles.Keys);
      var s1 := Next(zones, s, Connect(c));
      var s2 := Next(zones, s1, Submit(c, []));
      var s3 := Next(zones, s2, Enqueue(c));
      var rest := Crowd(zones, s3, k - 1);
      RunCons(zones, s2, Enqueue(c), rest);
      RunCons(zones, s1, Submit(c, []), [Enqueue(c)] + rest);
      RunCons(zones, s, Connect(c), [Submit(c, [])] + ([Enqueue(c)] + rest));
      run := [Connect(c)] + ([Submit(c, [])] + ([Enqueue(c)] + rest));
    }
  }

  lemma {:induction false} NothingLeftToSend(zones: Zones, s: State, run: seq<Action>)
    requires s.loop.Executing? && s.loop.requests == [] && IsRun(zones, s, run) && NoFinish(run)
    ensures After(zones, s, run).loop == s.loop
    decreases |run|
  {
    if run != [] { NothingLeftToSend(zones, Next(zones, s, run[0]), run[1..]); }
  }

  lemma RunReachable(zones: Zones, workers: nat, s: State, run: seq<Action>)
    requires Reachable(zones, workers, s) && IsRun(zones, s, run)
    ensures Reachable(zones, workers, After(zones, s, run))
  {
    var first :| IsRun(zones, Init(workers), first) && After(zones, Init(workers), first) == s;
    RunAppend(zones, Init(workers), first, run);
  }

  /** While a command executes: there is a run in which it never finishes, and the daemon is lost, iff it has something
      left to send, however empty the queue is. */
  lemma CanStopExactly(zones: Zones, workers: nat, s: State)
    requires Reachable(zones, workers, s) && s.loop.Executing?
    ensures s.loop.requests != [] <==>
            exists run: seq<Action> :: IsRun(zones, s, run) && NoFinish(run) && StopsForGood(zones, After(zones, s, run))
  {
    QueueFits(zones, workers, s);
    if s.loop.requests != [] {
      var run := Crowd(zones, s, CAPACITY - |s.chanEvent|);
      RunReachable(zones, workers, s, run);
      StopsExactly(zones, workers, After(zones, s, run));
    } else {
      forall run: seq<Action> | IsRun(zones, s, run) && NoFinish(run) ensures !StopsForGood(zones, After(zones, s, run)) {
        NothingLeftToSend(zones, s, run);
        RunReachable(zones, workers, s, run);
        QueueFits(zones, workers, After(zones, s, run));
        StopsExactly(zones, workers, After(zones, s, run));
      }
    }
  }

  /** Before a command is executed: it can end the daemon iff it sends any event at all. */
  lemma CommandCanStopExactly(zones: Zones, workers: nat, s: State, order: seq<Name>)
    requires Reachable(zones, workers, s) && Enabled(zones, s, Receive(order)) && s.chanEvent[0].MessageCLI?
    ensures var t := Next(zones, s, Receive(order));
      Requests(zones, s.chanEvent[0].cmd, order) != [] <==>
      exists run: seq<Action> :: IsRun(zones, t, run) && NoFinish(run) && StopsForGood(zones, After(zones, t, run))
  {
    ReachableNext(zones, workers, s, Receive(order));
    CanStopExactly(zones, workers, Next(zones, s, Receive(order)));
  }

  // --- `check all` ---------------------------------------------------------------------------------

  function OnDnsNode(zones: Zones): set<Name> {
    set n | n in zones && zones[n].dnsNode
  }

  lemma {:induction false} DnsNodeZonesCount(zones: Zones, order: seq<Name>, n: Name)
    ensures multiset(DnsNodeZones(zones, order))[n] == if n in OnDnsNode(zones) then multiset(order)[n] else 0
  {
    if order != [] {
      DnsNodeZonesCount(zones, order[1..], n);
      assert order == [order[0]] + order[1..];
    }
  }

  /** `check all` requests each DnsNode zone once, whatever the order of the map. */
  lemma DnsNodeZonesExactly(zones: Zones, order: seq<Name>)
    requires multiset(order) == multiset(zones.Keys)
    ensures multiset(DnsNodeZones(zones, order)) == multiset(OnDnsNode(zones))
    ensures |DnsNodeZones(zones, order)| == |OnDnsNode(zones)|
  {
    forall n ensures multiset(DnsNodeZones(zones, order))[n] == multiset(OnDnsNode(zones))[n] {
      DnsNodeZonesCount(zones, order, n);
    }
    assert multiset(DnsNodeZones(zones, order)) == multiset(OnDnsNode(zones));
    assert |multiset(DnsNodeZones(zones, order))| == |multiset(OnDnsNode(zones))|;
  }

  lemma CheckAllRequests(zones: Zones, order: seq<Name>)
    ensures Requests(zones, "check all", order) == DnsNodeZones(zones, order)
  {
    assert "check all" == "check" + [' '] + "all";
    SplitAfterWord("check", "all");
    SplitWord("all");
  }

  /** `check all` with more than CAPACITY DnsNode zones ends the daemon in every run, with no notification needed. */
  lemma CheckAllStops(zones: Zones, workers: nat, s: State, order: seq<Name>)
    requires Reachable(zones, workers, s) && Enabled(zones, s, Receive(order))
    requires s.chanEvent[0].MessageCLI? && s.chanEvent[0].cmd == "check all" && |OnDnsNode(zones)| > CAPACITY
    ensures StopsForGood(zones, Next(zones, s, Receive(order)))
  {
    CheckAllRequests(zones, order);
    DnsNodeZonesExactly(zones, order);
    CommandStopsExactly(zones, workers, s, order);
  }

  // --- Runs that end stuck --------------------------------------------------------------------------

  lemma {:induction false} SplitWord(w: Bytes)
    requires ' ' !in w
    ensures Split(w) == [w]
  {
    if w != [] {
      SplitWord(w[1..]);
      assert [w[0]] + w[1..] == w;
    }
  }

  lemma {:induction false} SplitAfterWord(w: Bytes, rest: Bytes)
    requires ' ' !in w
    ensures Split(w + [' '] + rest) == [w] + Split(rest)
  {
    var s := w + [' '] + rest;
    if w == [] {
      assert s[1..] == rest;
    } else {
      SplitAfterWord(w[1..], rest);
      assert s[1..] == w[1..] + [' '] + rest;
      assert [w[0]] + w[1..] == w;
    }
  }

  lemma CheckRequests(zones: Zones, z: Name, order: seq<Name>)
    requires ' ' !in z && z != "all"
    ensures Requests(zones, "check " + z, order) == [z]
  {
    assert "check " + z == "check" + [' '] + z;
    SplitAfterWord("check", z);
    SplitWord(z);
  }

  /** A command is its first field and, behind a space, the rest; fields hold no space. */
  lemma {:induction false} SplitFirst(s: Bytes) returns (rest: Bytes)
    ensures ' ' !in Split(s)[0]
    ensures if |Split(s)| == 1 then s == Split(s)[0]
      else s == Split(s)[0] + ([' '] + rest) && Split(rest) == Split(s)[1..]
  {
    rest := [];
    if s != [] {
      if s[0] == ' ' {
        rest := s[1..];
        assert s == [] + ([' '] + rest);
      } else {
        rest := SplitFirst(s[1..]);
        Associative([s[0]], Split(s[1..])[0], [' '] + rest);
        assert s == [s[0]] + s[1..];
      }
    }
  }

  lemma SplitCheck(cmd: Bytes)
    requires Split(cmd)[0] == "check" && |Split(cmd)| == 2
    ensures cmd == "check " + Split(cmd)[1] && ' ' !in Split(cmd)[1]
  {
    var rest := SplitFirst(cmd);
    assert Split(rest) == [Split(cmd)[1]];
    var none := SplitFirst(rest);
    assert "check" + ([' '] + rest) == "check " + rest;
  }

  /** Only `check` and one word behind it request anything: `check all` each DnsNode zone as often as the iteration comes
      to it, `check` and another word that word. */
  lemma RequestsExactly(zones: Zones, cmd: Bytes, order: seq<Name>, n: Name)
    ensures var r := Requests(zones, cmd, order);
      && (r != [] ==> exists z :: ' ' !in z && cmd == "check " + z)
      && (cmd == "check all" ==> multiset(r)[n] == if n in zones && zones[n].dnsNode then multiset(order)[n] else 0)
      && forall z :: ' ' !in z && z != "all" && cmd == "check " + z ==> r == [z]
  {
    if Requests(zones, cmd, order) != [] { SplitCheck(cmd); }
    CheckAllRequests(zones, order);
    DnsNodeZonesCount(zones, order, n);
    forall z | ' ' !in z && z != "all" && cmd == "check " + z ensures Requests(zones, cmd, order) == [z] {
      CheckRequests(zones, z, order);
    }
  }

  predicate NoSubmits(run: seq<Action>) {
    forall i :: 0 <= i < |run| ==> !run[i].Submit?
  }

  lemma {:induction false} Flood(zones: Zones, s: State, z: Name, k: nat) returns (run: seq<Action>)
    requires Notifiable(zones, z) && |s.chanEvent| + k <= CAPACITY
    ensures IsRun(zones, s, run) && NoSubmits(run)
    ensures After(zones, s, run) == s.(chanEvent := s.chanEvent + seq(k, i => MessageNew(z)))
    decreases k
  {
    if k == 0 {
      run := [];
      assert s.chanEvent + seq(0, i => MessageNew(z)) == s.chanEvent;
    } else {
      var t := Next(zones, s, Notify(z));
      var rest := Flood(zones, t, z, k - 1);
      run := [Notify(z)] + rest;
      RunCons(zones, s, Notify(z), rest);
      assert t.chanEvent + seq(k - 1, i => MessageNew(z)) == s.chanEvent + seq(k, i => MessageNew(z));
    }
  }

  /** The first console has sent `cmd`. */
  function WithCommand(workers: nat, cmd: Bytes): State {
    Init(workers).(chanEvent := [MessageCLI(0, cmd, 0)], nextDone := 1, consoles := map[0 := Waiting(0)])
  }

  lemma Asked(zones: Zones, workers: nat, cmd: Bytes, rest: seq<Action>) returns (run: seq<Action>)
    requires IsRun(zones, WithCommand(workers, cmd), rest)
    ensures IsRun(zones, Init(workers), run) && run == [Connect(0), Submit(0, cmd), Enqueue(0)] + rest
    ensures After(zones, Init(workers), run) == After(zones, WithCommand(workers, cmd), rest)
  {
    var s0 := Init(workers);
    var s1 := s0.(consoles := map[0 := Editing]);
    var s2 := s0.(consoles := map[0 := Submitting(cmd)]);
    assert Next(zones, s0, Connect(0)) == s1 && Next(zones, s1, Submit(0, cmd)) == s2;
    assert s2.consoles[0 := Waiting(0)] == map[0 := Waiting(0)];
    assert s2.chanEvent + [MessageCLI(0, cmd, 0)] == [MessageCLI(0, cmd, 0)];
    assert Next(zones, s2, Enqueue(0)) == WithCommand(workers, cmd);
    RunCons(zones, s2, Enqueue(0), rest);
    RunCons(zones, s1, Submit(0, cmd), [Enqueue(0)] + rest);
    RunCons(zones, s0, Connect(0), [Submit(0, cmd)] + ([Enqueue(0)] + rest));
    run := [Connect(0)] + ([Submit(0, cmd)] + ([Enqueue(0)] + rest));
  }

  /** The loop takes it. */
  lemma Commanded(zones: Zones, workers: nat, cmd: Bytes, order: seq<Name>) returns (run: seq<Action>)
    requires multiset(order) == multiset(zones.Keys)
    ensures IsRun(zones, Init(workers), run) && NoNotify(run)
    ensures var s := After(zones, Init(workers), run);
      && s.loop == Executing(0, Requests(zones, cmd, order), 0) && s.chanEvent == [] && s.chanWork == []
      && s.workers == Init(workers).workers
  {
    var s := WithCommand(workers, cmd);
    var rest := [];
    assert IsRun(zones, Next(zones, s, Receive(order)), rest);
    RunCons(zones, s, Receive(order), rest);
    run := Asked(zones, workers, cmd, [Receive(order)] + rest);
  }

  /** With more than CAPACITY DnsNode zones the first command after the start can end the daemon. */
  lemma CheckAllCanStop(zones: Zones, workers: nat) returns (run: seq<Action>)
    requires |OnDnsNode(zones)| > CAPACITY
    ensures IsRun(zones, Init(workers), run) && StopsForGood(zones, After(zones, Init(workers), run))
    ensures NoNotify(run)
  {
    var order := SomeOrder(zones.Keys);
    CheckAllRequests(zones, order);
    DnsNodeZonesExactly(zones, order);
    run := CommandedTooMuch(zones, workers, "check all", order);
  }

  lemma CommandedTooMuch(zones: Zones, workers: nat, cmd: Bytes, order: seq<Name>) returns (run: seq<Action>)
    requires multiset(order) == multiset(zones.Keys) && |Requests(zones, cmd, order)| > CAPACITY
    ensures IsRun(zones, Init(workers), run) && StopsForGood(zones, After(zones, Init(workers), run))
    ensures NoNotify(run)
  {
    run := Commanded(zones, workers, cmd, order);
    StopsExactly(zones, workers, After(zones, Init(workers), run));
  }

  /** In any configuration, also one without zones, and with no notification: one console check and CAPACITY commands
      from other consoles leave the daemon stuck, with every worker idle. */
  lemma ConsoleCheckCanDeadlock(zones: Zones, workers: nat, z: Name) returns (run: seq<Action>)
    requires ' ' !in z && z != "all"
    ensures IsRun(zones, Init(workers), run) && NoNotify(run)
    ensures var s := After(zones, Init(workers), run);
      Outstanding(s) && Stuck(zones, s) && forall w :: 0 <= w < |s.workers| ==> s.workers[w].Idle?
  {
    var order := SomeOrder(zones.Keys);
    var first := Commanded(zones, workers, "check " + z, order);
    CheckRequests(zones, z, order);
    var s := After(zones, Init(workers), first);
    var crowd := Crowd(zones, s, CAPACITY);
    RunAppend(zones, Init(workers), first, crowd);
    run := first + crowd;
    BlockedIsStuck(zones, After(zones, Init(workers), run));
  }

  // --- Runs without a console check ------------------------------------------------------------------

  predicate IsCheck(cmd: Bytes) {
    Split(cmd)[0] == "check" && |Split(cmd)| == 2
  }

  predicate NoChecks(run: seq<Action>) {
    forall i :: 0 <= i < |run| && run[i].Submit? ==> !IsCheck(run[i].cmd)
  }

  function Notifiables(zones: Zones): set<Name> {
    set n | n in zones && Notifiable(zones, n)
  }

  /** Only notifications have asked for zones, and no command has. */
  ghost predicate OnlyNotified(zones: Zones, s: State) {
    && s.jobs <= Notifiables(zones)
    && (forall e :: e in s.chanEvent && e.MessageNew? ==> e.name in Notifiables(zones))
    && (forall e :: e in s.chanEvent && e.MessageCLI? ==> !IsCheck(e.cmd))
    && (forall c :: c in s.consoles && s.consoles[c].Submitting? ==> !IsCheck(s.consoles[c].cmd))
    && (s.loop.Executing? ==> s.loop.requests == [])
  }

  lemma {:induction false} RunOnlyNotified(zones: Zones, s: State, run: seq<Action>)
    requires OnlyNotified(zones, s) && IsRun(zones, s, run) && NoChecks(run)
    ensures OnlyNotified(zones, After(zones, s, run))
    decreases |run|
  {
    if run != [] {
      StepOnlyNotified(zones, s, run[0]);
      RunOnlyNotified(zones, Next(zones, s, run[0]), run[1..]);
    }
  }

  lemma StepOnlyNotified(zones: Zones, s: State, a: Action)
    requires OnlyNotified(zones, s) && Enabled(zones, s, a) && (a.Submit? ==> !IsCheck(a.cmd))
    ensures OnlyNotified(zones, Next(zones, s, a))
  {
    if a.Receive? { assert s.chanEvent[0] in s.chanEvent; }
  }

  lemma StuckNeedsZones(zones: Zones, workers: nat, run: seq<Action>)
    requires workers > 0 && IsRun(zones, Init(workers), run) && NoChecks(run)
    requires Outstanding(After(zones, Init(workers), run)) && Stuck(zones, After(zones, Init(workers), run))
    ensures |Notifiables(zones)| > CAPACITY + workers
  {
    var s := After(zones, Init(workers), run);
    RunOnlyNotified(zones, Init(workers), run);
    WorkersStay(zones, Init(workers), run);
    StuckIsBlocked(zones, s);
    HandOffBlockedJobs(zones, workers, s);
    SubsetSize(s.jobs, Notifiables(zones));
  }

  /** A zone is notified, taken in hand and handed over. */
  lemma Started(zones: Zones, s: State, z: Name) returns (run: seq<Action>)
    requires Notifiable(zones, z) && z !in s.jobs && s.chanEvent == [] && s.loop.Receiving? && HasRoom(s.chanWork)
    ensures IsRun(zones, s, run) && NoSubmits(run)
    ensures After(zones, s, run) == s.(jobs := s.jobs + {z}, chanWork := s.chanWork + [z],
                                       handled := s.handled + 1, handedOff := s.handedOff + 1)
  {
    var order := SomeOrder(zones.Keys);
    var s1 := Next(zones, s, Notify(z));
    var s2 := Next(zones, s1, Receive(order));
    var s3 := Next(zones, s2, HandOff);
    assert IsRun(zones, s3, []);
    RunCons(zones, s2, HandOff, []);
    RunCons(zones, s1, Receive(order), [HandOff] + []);
    RunCons(zones, s, Notify(z), [Receive(order)] + ([HandOff] + []));
    run := [Notify(z)] + ([Receive(order)] + ([HandOff] + []));
  }

  /** A zone is started, and the check by worker `w` ends. */
  lemma Ended(zones: Zones, s: State, z: Name, w: nat, posts: bool) returns (run: seq<Action>)
    requires Notifiable(zones, z) && z !in s.jobs && s.chanEvent == [] && s.loop.Receiving? && s.chanWork == []
    requires w < |s.workers| && s.workers[w].Idle?
    ensures IsRun(zones, s, run) && NoSubmits(run)
    ensures After(zones, s, run) == s.(jobs := s.jobs + {z}, handled := s.handled + 1, handedOff := s.handedOff + 1,
                                       workers := s.workers[w := if posts then Posting(z) else Idle],
                                       lost := s.lost + if posts then multiset{} else multiset{z})
  {
    var first := Started(zones, s, z);
    var t := After(zones, s, first);
    assert t.chanWork == [z];
    var t1 := Next(zones, t, Take(w));
    var t2 := Next(zones, t1, End(w, posts));
    assert t2.workers == s.workers[w := if posts then Posting(z) else Idle];
    assert IsRun(zones, t2, []);
    RunCons(zones, t1, End(w, posts), []);
    RunCons(zones, t, Take(w), [End(w, posts)] + []);
    RunAppend(zones, s, first, [Take(w)] + ([End(w, posts)] + []));
    run := first + ([Take(w)] + ([End(w, posts)] + []));
  }

  /** A check can be lost: from the start, for any zone that may be notified. */
  lemma CheckCanBeLost(zones: Zones, workers: nat, z: Name) returns (run: seq<Action>)
    requires Notifiable(zones, z) && workers > 0
    ensures IsRun(zones, Init(workers), run) && After(zones, Init(workers), run).lost == multiset{z}
  {
    run := Ended(zones, Init(workers), z, 0, false);
  }

  predicate Distinct(names: seq<Name>) {
    forall i, j :: 0 <= i < j < |names| ==> names[i] != names[j]
  }

  lemma {:induction false} Pick(u: set<Name>, k: nat) returns (names: seq<Name>)
    requires k <= |u|
    ensures |names| == k && Distinct(names) && forall n :: n in names ==> n in u
  {
    if k == 0 {
      names := [];
    } else {
      var n :| n in u;
      var rest := Pick(u - {n}, k - 1);
      names := [n] + rest;
    }
  }

  /** Nothing is queued and the loop receives; no job is among `names`. */
  predicate Ready(zones: Zones, s: State, names: seq<Name>) {
    && s.chanEvent == [] && s.loop.Receiving?
    && Distinct(names) && forall n :: n in names ==> Notifiable(zones, n) && n !in s.jobs
  }

  lemma ReadyNext(zones: Zones, s: State, names: seq<Name>, t: State)
    requires Ready(zones, s, names) && names != []
    requires t.chanEvent == [] && t.loop.Receiving? && t.jobs == s.jobs + {names[0]}
    ensures Ready(zones, t, names[1..])
  {
    forall n | n in names[1..] ensures Notifiable(zones, n) && n !in t.jobs {
      assert n in names;
    }
  }

  /** Every worker from `w` on gets a zone that it cannot report. */
  lemma {:induction false} AllPosting(zones: Zones, s: State, w: nat, names: seq<Name>) returns (run: seq<Action>)
    requires w <= |s.workers| && |s.workers| - w <= |names| && Ready(zones, s, names) && s.chanWork == []
    requires forall v :: 0 <= v < |s.workers| ==> if v < w then s.workers[v].Posting? else s.workers[v].Idle?
    ensures IsRun(zones, s, run) && NoSubmits(run)
    ensures var t := After(zones, s, run);
      && Ready(zones, t, names[|s.workers| - w..]) && t.chanWork == []
      && |t.workers| == |s.workers| && forall v :: 0 <= v < |t.workers| ==> t.workers[v].Posting?
    decreases |s.workers| - w
  {
    if w == |s.workers| {
      run := [];
      assert names[0..] == names;
    } else {
      assert names[0] in names;
      var first := Ended(zones, s, names[0], w, true);
      var t := After(zones, s, first);
      ReadyNext(zones, s, names, t);
      var rest := AllPosting(zones, t, w + 1, names[1..]);
      RunAppend(zones, s, first, rest);
      run := first + rest;
      assert names[1..][|s.workers| - (w + 1)..] == names[|s.workers| - w..];
    }
  }

  lemma {:induction false} WorkFills(zones: Zones, s: State, k: nat, names: seq<Name>) returns (run: seq<Action>)
    requires |s.chanWork| + k == CAPACITY && k <= |names| && Ready(zones, s, names)
    ensures IsRun(zones, s, run) && NoSubmits(run)
    ensures var t := After(zones, s, run);
      Ready(zones, t, names[k..]) && |t.chanWork| == CAPACITY && t.workers == s.workers
    decreases k
  {
    if k == 0 {
      run := [];
      assert names[0..] == names;
    } else {
      assert names[0] in names;
      var first := Started(zones, s, names[0]);
      var t := After(zones, s, first);
      ReadyNext(zones, s, names, t);
      var rest := WorkFills(zones, t, k - 1, names[1..]);
      RunAppend(zones, s, first, rest);
      run := first + rest;
      assert names[1..][k - 1..] == names[k..];
    }
  }

  /** The loop takes one more zone in hand, and notifications fill its queue. */
  lemma OneTooMany(zones: Zones, s: State, z: Name) returns (run: seq<Action>)
    requires Ready(zones, s, [z]) && |s.chanWork| == CAPACITY
    ensures IsRun(zones, s, run) && NoSubmits(run)
    ensures var t := After(zones, s, run);
      t.loop == HandingOff(z) && |t.chanEvent| == CAPACITY && t.chanWork == s.chanWork && t.workers == s.workers
  {
    var order := SomeOrder(zones.Keys);
    assert z in [z];
    var s1 := Next(zones, s, Notify(z));
    var s2 := Next(zones, s1, Receive(order));
    var burst := Flood(zones, s2, z, CAPACITY);
    RunCons(zones, s1, Receive(order), burst);
    RunCons(zones, s, Notify(z), [Receive(order)] + burst);
    run := [Notify(z)] + ([Receive(order)] + burst);
  }

  /** Notifications for more than CAPACITY + workers zones can leave the daemon stuck handing over a zone. */
  lemma HandOffCanDeadlock(zones: Zones, workers: nat) returns (run: seq<Action>)
    requires |Notifiables(zones)| > CAPACITY + workers
    ensures IsRun(zones, Init(workers), run) && NoSubmits(run)
    ensures var s := After(zones, Init(workers), run); s.loop.HandingOff? && Outstanding(s) && Stuck(zones, s)
  {
    var names := Pick(Notifiables(zones), CAPACITY + workers + 1);
    var s0 := Init(workers);
    var r1 := AllPosting(zones, s0, 0, names);
    var s1 := After(zones, s0, r1);
    var r2 := WorkFills(zones, s1, CAPACITY, names[workers..]);
    var s2 := After(zones, s1, r2);
    var z := names[workers + CAPACITY];
    assert names[workers..][CAPACITY..] == [z];
    var r3 := OneTooMany(zones, s2, z);
    RunAppend(zones, s1, r2, r3);
    RunAppend(zones, s0, r1, r2 + r3);
    run := r1 + (r2 + r3);
    BlockedIsStuck(zones, After(zones, s0, run));
  }

  /** Without console checks the daemon can get stuck iff more than CAPACITY + workers zones may be notified. */
  lemma StuckWithoutChecksExactly(zones: Zones, workers: nat)
    requires workers > 0
    ensures |Notifiables(zones)| > CAPACITY + workers <==>
            exists run :: IsRun(zones, Init(workers), run) && NoChecks(run) &&
                          Outstanding(After(zones, Init(workers), run)) && Stuck(zones, After(zones, Init(workers), run))
  {
    if |Notifiables(zones)| > CAPACITY + workers {
      var run := HandOffCanDeadlock(zones, workers);
      assert NoChecks(run);
    }
    if run :| IsRun(zones, Init(workers), run) && NoChecks(run) &&
              Outstanding(After(zones, Init(workers), run)) && Stuck(zones, After(zones, Init(workers), run)) {
      StuckNeedsZones(zones, workers, run);
    }
  }
}
