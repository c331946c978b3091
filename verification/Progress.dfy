/** Where the daemon can block, when it is stuck, and that it drains. */
module Progress {
  import opened Prelude
  import opened Protocol
  import opened SingleFlight

  // --- The send to the workers never blocks while at most CAPACITY zones are requested --------------

  /** Every zone for which the console command `cmd` requests a check is in `u`. */
  predicate Asks(zones: Zones, u: set<Name>, cmd: Bytes) {
    var args := Split(cmd);
    args[0] == "check" && |args| == 2 ==>
      if args[1] == "all" then forall n :: n in zones && zones[n].dnsNode ==> n in u else args[1] in u
  }

  /** Every zone that a NOTIFY can request is in `u`. */
  predicate NotifiesWithin(zones: Zones, u: set<Name>) {
    forall n :: n in zones && Notifiable(zones, n) ==> n in u
  }

  predicate EventWithin(zones: Zones, u: set<Name>, e: Event) {
    match e
    case MessageNew(n) => n in u
    case MessageDone(_) => true
    case MessageCLI(_, cmd, _) => Asks(zones, u, cmd)
  }

  ghost predicate Within(zones: Zones, u: set<Name>, s: State) {
    && s.jobs <= u
    && (forall e :: e in s.chanEvent ==> EventWithin(zones, u, e))
    && (s.loop.Executing? ==> forall n :: n in s.loop.requests ==> n in u)
    && (forall c :: c in s.consoles && s.consoles[c].Submitting? ==> Asks(zones, u, s.consoles[c].cmd))
  }

  predicate RunAsks(zones: Zones, u: set<Name>, run: seq<Action>) {
    forall i :: 0 <= i < |run| && run[i].Submit? ==> Asks(zones, u, run[i].cmd)
  }

  lemma {:induction false} DnsNodeZonesWithin(zones: Zones, order: seq<Name>)
    ensures forall n :: n in DnsNodeZones(zones, order) ==> n in zones && zones[n].dnsNode
  {
    if order != [] { DnsNodeZonesWithin(zones, order[1..]); }
  }

  lemma StepWithin(zones: Zones, u: set<Name>, s: State, a: Action)
    requires NotifiesWithin(zones, u) && Within(zones, u, s) && Enabled(zones, s, a)
    requires a.Submit? ==> Asks(zones, u, a.cmd)
    ensures Within(zones, u, Next(zones, s, a))
  {
    if a.Receive? {
      assert EventWithin(zones, u, s.chanEvent[0]);
      if s.chanEvent[0].MessageCLI? { DnsNodeZonesWithin(zones, a.order); }
    }
  }

  lemma {:induction false} RunWithin(zones: Zones, u: set<Name>, s: State, run: seq<Action>)
    requires NotifiesWithin(zones, u) && Within(zones, u, s) && IsRun(zones, s, run) && RunAsks(zones, u, run)
    ensures Within(zones, u, After(zones, s, run))
    decreases |run|
  {
    if run != [] {
      StepWithin(zones, u, s, run[0]);
      RunWithin(zones, u, Next(zones, s, run[0]), run[1..]);
    }
  }

  lemma SubsetSize<T>(a: set<T>, b: set<T>)
    requires a <= b
    ensures |a| <= |b|
  {
    assert b == a + (b - a);
  }

  /** If the zones that can be notified and those requested on the consoles are at most CAPACITY in all, however many are
      configured, the loop always finds room in the work queue. */
  lemma HandOffNeverBlocks(zones: Zones, workers: nat, u: set<Name>, run: seq<Action>)
    requires NotifiesWithin(zones, u) && |u| <= CAPACITY
    requires IsRun(zones, Init(workers), run) && RunAsks(zones, u, run)
    ensures var s := After(zones, Init(workers), run);
      && |s.chanWork| <= |s.jobs| <= |u|
      && (s.loop.HandingOff? ==> Enabled(zones, s, HandOff))
  {
    var s := After(zones, Init(workers), run);
    RunWithin(zones, u, Init(workers), run);
    Conservation(zones, workers, s);
    SubsetSize(s.jobs, u);
  }

  // --- Deadlock ----------------------------------------------------------------------------------

  ghost predicate Outstanding(s: State) {
    || s.chanEvent != []
    || s.chanWork != []
    || !s.loop.Receiving?
    || exists w :: 0 <= w < |s.workers| && !s.workers[w].Idle?
  }

  ghost predicate Stuck(zones: Zones, s: State) {
    forall a :: Internal(a) ==> !Enabled(zones, s, a)
  }

  /** The loop waits for room that only it, or a worker waiting for it, could make. */
  predicate LoopBlocked(s: State) {
    !HasRoom(s.chanEvent) &&
    match s.loop
    case Receiving => false
    case HandingOff(_) => !HasRoom(s.chanWork)
    case Executing(_, requests, _) => requests != []
  }

  predicate WorkersBlocked(s: State) {
    forall w :: 0 <= w < |s.workers| ==> s.workers[w].Posting? || (s.workers[w].Idle? && s.chanWork == [])
  }

  lemma BlockedIsStuck(zones: Zones, s: State)
    requires LoopBlocked(s) && WorkersBlocked(s)
    ensures Stuck(zones, s)
  {
  }

  lemma StuckIsBlocked(zones: Zones, s: State)
    requires |s.workers| > 0 && Outstanding(s) && Stuck(zones, s)
    ensures LoopBlocked(s) && WorkersBlocked(s)
  {
    var order := SomeOrder(zones.Keys);
    assert !Enabled(zones, s, Receive(order)) && !Enabled(zones, s, HandOff);
    assert !Enabled(zones, s, Request) && !Enabled(zones, s, Finish);
    forall w | 0 <= w < |s.workers|
      ensures s.workers[w].Posting? || (s.workers[w].Idle? && s.chanWork == [])
      ensures s.workers[w].Posting? ==> !HasRoom(s.chanEvent)
    {
      assert !Enabled(zones, s, Take(w)) && !Enabled(zones, s, End(w, true)) && !Enabled(zones, s, Post(w));
    }
    assert s.workers[0].Posting? || s.chanWork == [];
  }

  /** A state with work left and at least one worker is stuck exactly when the event queue is full and the loop
      itself is sending: to that queue for a console command, or to a full work queue. */
  lemma StuckExactlyWhenBlocked(zones: Zones, s: State)
    requires |s.workers| > 0 && Outstanding(s)
    ensures Stuck(zones, s) <==> LoopBlocked(s) && WorkersBlocked(s)
  {
    if LoopBlocked(s) && WorkersBlocked(s) { BlockedIsStuck(zones, s); }
    if Stuck(zones, s) { StuckIsBlocked(zones, s); }
  }

  lemma {:induction false} WorkersStay(zones: Zones, s: State, run: seq<Action>)
    requires IsRun(zones, s, run)
    ensures |After(zones, s, run).workers| == |s.workers|
    decreases |run|
  {
    if run != [] { WorkersStay(zones, Next(zones, s, run[0]), run[1..]); }
  }

  lemma {:induction false} AllBusy(ws: seq<Worker>)
    requires forall w :: 0 <= w < |ws| ==> !ws[w].Idle?
    ensures Occupied(ws) == |ws|
  {
    if ws != [] { AllBusy(ws[1..]); }
  }

  /** A loop that is blocked with a zone in hand has that zone, a full work queue, and a zone with every worker. */
  lemma HandOffBlockedJobs(zones: Zones, workers: nat, s: State)
    requires workers > 0 && Reachable(zones, workers, s)
    requires s.loop.HandingOff? && !HasRoom(s.chanWork) && WorkersBlocked(s)
    ensures |s.jobs| > CAPACITY + workers
  {
    var run :| IsRun(zones, Init(workers), run) && After(zones, Init(workers), run) == s;
    WorkersStay(zones, Init(workers), run);
    ReachableAccounted(zones, workers, s);
    AllBusy(s.workers);
  }

  /** With at most CAPACITY + workers zones that can be requested, the only deadlock is the loop sending to its own full
      queue. */
  lemma OnlyConsoleChecksDeadlock(zones: Zones, workers: nat, u: set<Name>, run: seq<Action>)
    requires workers > 0 && NotifiesWithin(zones, u) && |u| <= CAPACITY + workers
    requires IsRun(zones, Init(workers), run) && RunAsks(zones, u, run)
    requires Outstanding(After(zones, Init(workers), run))
    ensures var s := After(zones, Init(workers), run);
      Stuck(zones, s) <==>
        s.loop.Executing? && s.loop.requests != [] && !HasRoom(s.chanEvent) && WorkersBlocked(s)
  {
    var s := After(zones, Init(workers), run);
    WorkersStay(zones, Init(workers), run);
    StuckExactlyWhenBlocked(zones, s);
    RunWithin(zones, u, Init(workers), run);
    SubsetSize(s.jobs, u);
    if s.loop.HandingOff? && !HasRoom(s.chanWork) && WorkersBlocked(s) { HandOffBlockedJobs(zones, workers, s); }
  }

  // --- Draining ----------------------------------------------------------------------------------

  function EventWeight(zones: Zones, e: Event): nat {
    match e
    case MessageNew(_) => 6
    case MessageDone(_) => 1
    case MessageCLI(_, _, _) => 7 * (1 + |zones.Keys|) + 2
  }

  function QueueWeight(zones: Zones, q: seq<Event>): nat {
    if q == [] then 0 else EventWeight(zones, q[0]) + QueueWeight(zones, q[1..])
  }

  function LoopWeight(l: Loop): nat {
    match l
    case Receiving => 0
    case HandingOff(_) => 5
    case Executing(_, requests, _) => 7 * |requests| + 1
  }

  function WorkerWeight(w: Worker): nat {
    match w
    case Idle => 0
    case Checking(_) => 3
    case Posting(_) => 2
  }

  function PoolWeight(ws: seq<Worker>): nat {
    if ws == [] then 0 else WorkerWeight(ws[0]) + PoolWeight(ws[1..])
  }

  /** An upper bound on how many more actions the loop and the workers can take by themselves. */
  function Backlog(zones: Zones, s: State): nat {
    QueueWeight(zones, s.chanEvent) + LoopWeight(s.loop) + 4 * |s.chanWork| + PoolWeight(s.workers)
  }

  lemma {:induction false} QueueWeightPush(zones: Zones, q: seq<Event>, e: Event)
    ensures QueueWeight(zones, q + [e]) == QueueWeight(zones, q) + EventWeight(zones, e)
  {
    if q != [] {
      QueueWeightPush(zones, q[1..], e);
      assert (q + [e])[1..] == q[1..] + [e];
    }
  }

  lemma {:induction false} PoolWeightReplace(ws: seq<Worker>, w: nat, x: Worker)
    requires w < |ws|
    ensures PoolWeight(ws[w := x]) + WorkerWeight(ws[w]) == PoolWeight(ws) + WorkerWeight(x)
  {
    if w == 0 {
      assert ws[w := x][1..] == ws[1..];
    } else {
      PoolWeightReplace(ws[1..], w - 1, x);
      assert ws[w := x][1..] == ws[1..][w - 1 := x];
    }
  }

  lemma OrderLength(order: seq<Name>, names: set<Name>)
    requires multiset(order) == multiset(names)
    ensures |order| == |names|
  {
    assert |order| == |multiset(order)| == |multiset(names)|;
  }

  lemma ReceiveDrains(zones: Zones, s: State, order: seq<Name>)
    requires Enabled(zones, s, Receive(order))
    ensures Backlog(zones, Next(zones, s, Receive(order))) < Backlog(zones, s)
  {
    OrderLength(order, zones.Keys);
  }

  lemma WorkerDrains(zones: Zones, s: State, a: Action)
    requires Enabled(zones, s, a) && (a.Take? || a.End? || a.Post?)
    ensures Backlog(zones, Next(zones, s, a)) < Backlog(zones, s)
  {
    PoolWeightReplace(s.workers, a.worker, Next(zones, s, a).workers[a.worker]);
    if a.Post? { QueueWeightPush(zones, s.chanEvent, MessageDone(s.workers[a.worker].name)); }
  }

  /** Without outside events every action brings the daemon closer to rest. */
  lemma StepDrains(zones: Zones, s: State, a: Action)
    requires Internal(a) && Enabled(zones, s, a)
    ensures Backlog(zones, Next(zones, s, a)) < Backlog(zones, s)
  {
    match a
    case Receive(order) => ReceiveDrains(zones, s, order);
    case HandOff =>
    case Request => QueueWeightPush(zones, s.chanEvent, MessageNew(s.loop.requests[0]));
    case Finish =>
    case _ => WorkerDrains(zones, s, a);
  }

  /** Every run of the loop and the workers alone is shorter than the backlog it starts from. */
  lemma {:induction false} RunDrains(zones: Zones, s: State, run: seq<Action>)
    requires IsRun(zones, s, run) && forall i :: 0 <= i < |run| ==> Internal(run[i])
    ensures |run| + Backlog(zones, After(zones, s, run)) <= Backlog(zones, s)
    decreases |run|
  {
    if run != [] {
      StepDrains(zones, s, run[0]);
      RunDrains(zones, Next(zones, s, run[0]), run[1..]);
    }
  }

  /** Where such a run ends: unless the loop is blocked, nothing is queued or running, and the zones still in
      `jobs` are exactly the lost ones. So the daemon comes to rest with no job iff no check was lost. */
  lemma RestsExactlyOnLostJobs(zones: Zones, workers: nat, s: State)
    requires workers > 0 && Reachable(zones, workers, s) && Stuck(zones, s) && !LoopBlocked(s)
    ensures !Outstanding(s)
    ensures multiset(s.jobs) == s.lost
    ensures s.jobs == {} <==> s.lost == multiset{}
  {
    var run :| IsRun(zones, Init(workers), run) && After(zones, Init(workers), run) == s;
    WorkersStay(zones, Init(workers), run);
    if Outstanding(s) { StuckIsBlocked(zones, s); }
    ReachableAccounted(zones, workers, s);
    forall n ensures multiset(s.jobs)[n] == s.lost[n] {
      AllIdle(s.workers, n);
      assert Places(s, n) == One(n in s.jobs);
    }
    assert s.jobs == {} <==> multiset(s.jobs) == multiset{} by {
      if s.jobs != {} {
        var n :| n in s.jobs;
        assert n in multiset(s.jobs);
      }
    }
  }

  /** Every ended check frees its job, in a run that leaves the daemon at rest, iff none of its checks ended
      without posting a MessageDone. */
  lemma CleanRunFreesEveryJob(zones: Zones, workers: nat, run: seq<Action>)
    requires workers > 0 && IsRun(zones, Init(workers), run)
    requires Stuck(zones, After(zones, Init(workers), run)) && !LoopBlocked(After(zones, Init(workers), run))
    ensures After(zones, Init(workers), run).jobs == {} <==>
            forall i :: 0 <= i < |run| && run[i].End? ==> run[i].posts
  {
    RestsExactlyOnLostJobs(zones, workers, After(zones, Init(workers), run));
    LostGrows(zones, Init(workers), run);
  }
}
