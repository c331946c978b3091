/** The hand-off between a console session and the event loop: a session sends one command, waits on that
    command's own channel, and the loop closes the channel after the command's output. */
module ConsoleHandOff {
  import opened Prelude
  import opened Protocol
  import opened SingleFlight

  function Queued(q: seq<Event>, d: DoneId): nat {
    if q == [] then 0 else One(q[0].MessageCLI? && q[0].done == d) + Queued(q[1..], d)
  }

  function QueuedBy(q: seq<Event>, c: ConnId): nat {
    if q == [] then 0 else One(q[0].MessageCLI? && q[0].conn == c) + QueuedBy(q[1..], c)
  }

  /** How many commands of connection `c` are queued or executing. */
  function Pending(s: State, c: ConnId): nat {
    QueuedBy(s.chanEvent, c) + One(s.loop.Executing? && s.loop.conn == c)
  }

  predicate WaitsFor(s: State, c: ConnId, d: DoneId) {
    c in s.consoles && s.consoles[c] == Waiting(d)
  }

  /** The places of a channel: with a queued command, with the executing one, or closed. */
  function Held(s: State, d: DoneId): nat {
    Queued(s.chanEvent, d) + One(s.loop.Executing? && s.loop.done == d) + s.closed[d]
  }

  /** Each channel made so far is in one place, and no other. */
  ghost predicate ClosedOnce(s: State) {
    forall d: DoneId :: Held(s, d) == One(d < s.nextDone)
  }

  ghost predicate SendersWait(s: State) {
    && (forall e :: e in s.chanEvent && e.MessageCLI? ==> WaitsFor(s, e.conn, e.done))
    && (s.loop.Executing? ==> WaitsFor(s, s.loop.conn, s.loop.done))
    && (forall c: ConnId, d: DoneId :: WaitsFor(s, c, d) ==> d < s.nextDone)
    && (forall b: ConnId, c: ConnId, d: DoneId :: WaitsFor(s, b, d) && WaitsFor(s, c, d) ==> b == c)
  }

  lemma {:induction false} QueuedPush(q: seq<Event>, e: Event, d: DoneId)
    ensures Queued(q + [e], d) == Queued(q, d) + One(e.MessageCLI? && e.done == d)
  {
    if q != [] {
      QueuedPush(q[1..], e, d);
      assert (q + [e])[1..] == q[1..] + [e];
    }
  }

  lemma {:induction false} QueuedExists(q: seq<Event>, d: DoneId)
    ensures Queued(q, d) > 0 <==> exists e :: e in q && e.MessageCLI? && e.done == d
  {
    if q != [] {
      QueuedExists(q[1..], d);
      assert q == [q[0]] + q[1..];
    }
  }

  /** If all of `c`'s queued commands carry the channel `d`, there are no more of them than of that channel. */
  lemma {:induction false} QueuedByAtMost(q: seq<Event>, c: ConnId, d: DoneId)
    requires forall e :: e in q && e.MessageCLI? && e.conn == c ==> e.done == d
    ensures QueuedBy(q, c) <= Queued(q, d)
  {
    if q != [] {
      assert q == [q[0]] + q[1..];
      assert q[0] in q;
      QueuedByAtMost(q[1..], c, d);
    }
  }

  lemma {:induction false} QueuedByExists(q: seq<Event>, c: ConnId)
    ensures QueuedBy(q, c) > 0 <==> exists e :: e in q && e.MessageCLI? && e.conn == c
  {
    if q != [] {
      QueuedByExists(q[1..], c);
      assert q == [q[0]] + q[1..];
    }
  }

  /** Only the submission of a command makes a new channel; every other action just moves channels. */
  lemma StepHeld(zones: Zones, s: State, a: Action, d: DoneId)
    requires Enabled(zones, s, a)
    ensures Held(Next(zones, s, a), d) == Held(s, d) + One(a.Enqueue? && d == s.nextDone)
  {
    match a
    case Notify(n) => QueuedPush(s.chanEvent, MessageNew(n), d);
    case Enqueue(c) => QueuedPush(s.chanEvent, MessageCLI(c, s.consoles[c].cmd, s.nextDone), d);
    case Request => QueuedPush(s.chanEvent, MessageNew(s.loop.requests[0]), d);
    case Post(w) => QueuedPush(s.chanEvent, MessageDone(s.workers[w].name), d);
    case _ =>
  }

  lemma StepClosedOnce(zones: Zones, s: State, a: Action)
    requires ClosedOnce(s) && Enabled(zones, s, a)
    ensures ClosedOnce(Next(zones, s, a))
  {
    var t := Next(zones, s, a);
    assert t.nextDone == if a.Enqueue? then s.nextDone + 1 else s.nextDone;
    forall d: DoneId ensures Held(t, d) == One(d < t.nextDone) {
      StepHeld(zones, s, a, d);
    }
  }

  lemma NotPending(s: State, c: ConnId)
    requires ClosedOnce(s) && SendersWait(s)
    requires !(c in s.consoles && s.consoles[c].Waiting? && s.consoles[c].done !in s.closed)
    ensures forall e :: e in s.chanEvent && e.MessageCLI? ==> e.conn != c
    ensures !(s.loop.Executing? && s.loop.conn == c)
  {
    if c in s.consoles && s.consoles[c].Waiting? {
      assert Held(s, s.consoles[c].done) == One(s.consoles[c].done < s.nextDone);
      QueuedExists(s.chanEvent, s.consoles[c].done);
    }
  }

  /** A session with nothing pending changes its own state only. */
  lemma SessionStep(zones: Zones, s: State, a: Action, c: ConnId)
    requires ClosedOnce(s) && SendersWait(s) && Enabled(zones, s, a)
    requires a == Connect(c) || a == Disconnect(c) || a == Resume(c) || (a.Submit? && a.conn == c)
    ensures SendersWait(Next(zones, s, a))
  {
    NotPending(s, c);
    assert forall b: ConnId, d: DoneId :: WaitsFor(Next(zones, s, a), b, d) ==> WaitsFor(s, b, d) && b != c;
  }

  lemma EnqueueStep(zones: Zones, s: State, c: ConnId)
    requires ClosedOnce(s) && SendersWait(s) && Enabled(zones, s, Enqueue(c))
    ensures SendersWait(Next(zones, s, Enqueue(c)))
  {
    NotPending(s, c);
    assert forall b: ConnId, d: DoneId :: WaitsFor(Next(zones, s, Enqueue(c)), b, d) <==>
      if b == c then d == s.nextDone else WaitsFor(s, b, d);
  }

  lemma StepSendersWait(zones: Zones, s: State, a: Action)
    requires ClosedOnce(s) && SendersWait(s) && Enabled(zones, s, a)
    ensures SendersWait(Next(zones, s, a))
  {
    match a
    case Connect(c) => SessionStep(zones, s, a, c);
    case Submit(c, _) => SessionStep(zones, s, a, c);
    case Disconnect(c) => SessionStep(zones, s, a, c);
    case Resume(c) => SessionStep(zones, s, a, c);
    case Enqueue(c) => EnqueueStep(zones, s, c);
    case _ => assert forall b: ConnId, d: DoneId :: WaitsFor(Next(zones, s, a), b, d) <==> WaitsFor(s, b, d);
  }

  lemma {:induction false} RunHandsOff(zones: Zones, s: State, run: seq<Action>)
    requires ClosedOnce(s) && SendersWait(s) && IsRun(zones, s, run)
    ensures ClosedOnce(After(zones, s, run)) && SendersWait(After(zones, s, run))
    decreases |run|
  {
    if run != [] {
      StepClosedOnce(zones, s, run[0]);
      StepSendersWait(zones, s, run[0]);
      RunHandsOff(zones, Next(zones, s, run[0]), run[1..]);
    }
  }

  lemma ReachableHandsOff(zones: Zones, workers: nat, s: State)
    requires Reachable(zones, workers, s)
    ensures ClosedOnce(s) && SendersWait(s)
  {
    var run :| IsRun(zones, Init(workers), run) && After(zones, Init(workers), run) == s;
    RunHandsOff(zones, Init(workers), run);
  }

  /** A connection has at most one command queued or executing, and while it has one, its session can do
      nothing: it neither echoes a key, nor submits, nor quits, nor has been woken. */
  lemma PendingConsoleIsSilent(zones: Zones, workers: nat, s: State, c: ConnId, cmd: Bytes)
    requires Reachable(zones, workers, s)
    ensures Pending(s, c) <= 1
    ensures Pending(s, c) == 1 ==>
      && !Enabled(zones, s, Edit(c)) && !Enabled(zones, s, Submit(c, cmd)) && !Enabled(zones, s, Disconnect(c))
      && !Enabled(zones, s, Enqueue(c)) && !Enabled(zones, s, Resume(c))
  {
    ReachableHandsOff(zones, workers, s);
    QueuedByExists(s.chanEvent, c);
    if c in s.consoles && s.consoles[c].Waiting? {
      var d := s.consoles[c].done;
      QueuedByAtMost(s.chanEvent, c, d);
      assert Held(s, d) == One(d < s.nextDone);
      QueuedExists(s.chanEvent, d);
    }
  }

  /** No channel is closed twice, and a waiting session with nothing pending has been woken. */
  lemma DoneClosedExactlyOnce(zones: Zones, workers: nat, s: State, d: DoneId)
    requires Reachable(zones, workers, s)
    ensures s.closed[d] <= 1
    ensures forall c: ConnId :: WaitsFor(s, c, d) ==> (s.closed[d] == 1 <==> Pending(s, c) == 0)
  {
    ReachableHandsOff(zones, workers, s);
    assert Held(s, d) == One(d < s.nextDone);
    QueuedExists(s.chanEvent, d);
    forall c: ConnId | WaitsFor(s, c, d) ensures s.closed[d] == 1 <==> Pending(s, c) == 0 {
      QueuedByExists(s.chanEvent, c);
      QueuedByAtMost(s.chanEvent, c, d);
    }
  }

  /** With nothing queued or executing every channel made so far has been closed exactly once, and every waiting session
      can go on. */
  lemma AtRestAllClosed(zones: Zones, workers: nat, s: State)
    requires Reachable(zones, workers, s) && s.chanEvent == [] && !s.loop.Executing?
    ensures forall d: DoneId :: s.closed[d] == One(d < s.nextDone)
    ensures forall c :: c in s.consoles && s.consoles[c].Waiting? ==> Enabled(zones, s, Resume(c))
  {
    ReachableHandsOff(zones, workers, s);
    forall d: DoneId ensures s.closed[d] == One(d < s.nextDone) {
      assert Held(s, d) == One(d < s.nextDone);
    }
    forall c | c in s.consoles && s.consoles[c].Waiting? ensures Enabled(zones, s, Resume(c)) {
      assert WaitsFor(s, c, s.consoles[c].done);
    }
  }

  predicate BySession(a: Action, c: ConnId) {
    a == Edit(c) || a == Resume(c) || a == Disconnect(c) || a == Enqueue(c) || (a.Submit? && a.conn == c)
  }

  lemma StepKeepsPending(zones: Zones, s: State, a: Action, c: ConnId)
    requires ClosedOnce(s) && SendersWait(s) && Enabled(zones, s, a) && Pending(s, c) > 0
    requires !(a.Finish? && s.loop.conn == c)
    ensures Pending(Next(zones, s, a), c) > 0
  {
    QueuedByExists(s.chanEvent, c);
    QueuedByExists(Next(zones, s, a).chanEvent, c);
    if QueuedBy(s.chanEvent, c) > 0 {
      var e :| e in s.chanEvent && e.MessageCLI? && e.conn == c;
      if a.Receive? && e != s.chanEvent[0] { assert e in s.chanEvent[1..]; }
      if !a.Receive? { assert e in Next(zones, s, a).chanEvent; }
    }
  }

  /** Between a command's arrival on the queue and its own `close(Done)`, the session of that connection takes
      no action in any run: its next action comes after a Finish of that connection's command. */
  lemma {:induction false} SessionActsOnlyAfterFinish(
    zones: Zones, workers: nat, s: State, run: seq<Action>, c: ConnId, i: nat) returns (j: nat)
    requires Reachable(zones, workers, s) && Pending(s, c) == 1 && IsRun(zones, s, run)
    requires i < |run| && BySession(run[i], c)
    ensures j < i && run[j] == Finish && IsRun(zones, s, run[..j])
    ensures After(zones, s, run[..j]).loop.Executing? && After(zones, s, run[..j]).loop.conn == c
    decreases i
  {
    var a := run[0];
    if a.Finish? && s.loop.conn == c {
      j := 0;
      assert run[..0] == [];
      ReachableHandsOff(zones, workers, s);
    } else {
      SilentStep(zones, workers, s, a, c);
      var k := SessionActsOnlyAfterFinish(zones, workers, Next(zones, s, a), run[1..], c, i - 1);
      j := k + 1;
      RunCons(zones, s, a, run[1..][..k]);
      FirstActions(run, j);
    }
  }

  /** While a command of `c` is pending, another action leaves it pending and is not by the session. */
  lemma SilentStep(zones: Zones, workers: nat, s: State, a: Action, c: ConnId)
    requires Reachable(zones, workers, s) && Pending(s, c) == 1 && Enabled(zones, s, a)
    requires !(a.Finish? && s.loop.conn == c)
    ensures !BySession(a, c) && Reachable(zones, workers, Next(zones, s, a)) && Pending(Next(zones, s, a), c) == 1
  {
    PendingConsoleIsSilent(zones, workers, s, c, if a.Submit? then a.cmd else []);
    ReachableHandsOff(zones, workers, s);
    StepKeepsPending(zones, s, a, c);
    ReachableNext(zones, workers, s, a);
    PendingConsoleIsSilent(zones, workers, Next(zones, s, a), c, []);
  }

  lemma FirstActions(run: seq<Action>, j: nat)
    requires 0 < j <= |run|
    ensures run[..j] == [run[0]] + run[1..][..j - 1]
  {
  }
}
