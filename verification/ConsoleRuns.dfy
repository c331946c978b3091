/** The console sessions in the runs of the daemon: what the event loop executes for a connection are the messages of its
    session, in order and each once. */
module ConsoleRuns {
  import opened Prelude
  import opened Telnet
  import opened Editing
  import opened Session
  import opened ConsoleHandOff
  import P = Protocol

  /** The session of a connection between two lines: its history, and the tokens to come. */
  datatype Feed = Feed(history: seq<Bytes>, ls: seq<Lexeme>)

  function NextLine(keys: Keymap, f: Feed): Read {
    ReadFrom(keys, Fresh(f.history), f.ls)
  }

  predicate HandsOver(keys: Keymap, f: Feed) {
    NextLine(keys, f).result.Line? && !Quits(Trim(NextLine(keys, f).result.line))
  }

  function Rest(keys: Keymap, f: Feed): Feed {
    Feed(NextLine(keys, f).ed.history, f.ls[NextLine(keys, f).used..])
  }

  /** In the run the connection `c` is served by `HandleTelnetClient`: it submits the line that is read next, and ends if
      that is not to be handed over. */
  predicate Serves(keys: Keymap, c: P.ConnId, f: Feed, run: seq<P.Action>)
    decreases |run|
  {
    run == [] ||
    match run[0]
    case Submit(d, cmd) =>
      if d != c then Serves(keys, c, f, run[1..])
      else HandsOver(keys, f) && cmd == Trim(NextLine(keys, f).result.line) && Serves(keys, c, Rest(keys, f), run[1..])
    case Disconnect(d) => (d == c ==> !HandsOver(keys, f)) && Serves(keys, c, f, run[1..])
    case _ => Serves(keys, c, f, run[1..])
  }

  /** The commands that `c` submits in the run. */
  function Submitted(c: P.ConnId, run: seq<P.Action>): seq<Bytes> {
    if run == [] then []
    else (if run[0].Submit? && run[0].conn == c then [run[0].cmd] else []) + Submitted(c, run[1..])
  }

  /** The commands of `c` that the event loop takes from its queue in the run from `s`. */
  function Executed(zones: P.Zones, s: P.State, c: P.ConnId, run: seq<P.Action>): seq<Bytes>
    requires P.IsRun(zones, s, run)
    decreases |run|
  {
    if run == [] then []
    else
      (if run[0].Receive? then Commands([s.chanEvent[0]], c) else []) +
        Executed(zones, P.Next(zones, s, run[0]), c, run[1..])
  }

  /** The commands of `c` among the events `q`. */
  function Commands(q: seq<P.Event>, c: P.ConnId): (cmds: seq<Bytes>)
    ensures |cmds| == QueuedBy(q, c)
  {
    if q == [] then []
    else (if q[0].MessageCLI? && q[0].conn == c then [q[0].cmd] else []) + Commands(q[1..], c)
  }

  /** The commands of `c` that have been submitted and not yet taken by the loop. */
  function Underway(s: P.State, c: P.ConnId): seq<Bytes> {
    Commands(s.chanEvent, c) + ToSend(s.consoles, c)
  }

  function ToSend(consoles: map<P.ConnId, P.Console>, c: P.ConnId): seq<Bytes> {
    if c in consoles && consoles[c].Submitting? then [consoles[c].cmd] else []
  }

  // --- What is submitted are the messages of the session ----------------------------------------------------

  /** A closed console stays closed. */
  lemma {:induction false} ClosedSubmitsNothing(zones: P.Zones, s: P.State, c: P.ConnId, run: seq<P.Action>)
    requires P.IsRun(zones, s, run) && c in s.consoles && s.consoles[c].Closed?
    ensures Submitted(c, run) == []
    decreases |run|
  {
    if run != [] { ClosedSubmitsNothing(zones, P.Next(zones, s, run[0]), c, run[1..]); }
  }

  predicate Ended(c: P.ConnId, run: seq<P.Action>) {
    exists i :: 0 <= i < |run| && run[i] == P.Disconnect(c)
  }

  lemma EndedLater(c: P.ConnId, run: seq<P.Action>)
    requires run != [] && run[0] != P.Disconnect(c)
    ensures Ended(c, run) <==> Ended(c, run[1..])
  {
    if i :| 0 <= i < |run| && run[i] == P.Disconnect(c) { assert run[1..][i - 1] == P.Disconnect(c); }
    if i :| 0 <= i < |run[1..]| && run[1..][i] == P.Disconnect(c) { assert run[i + 1] == P.Disconnect(c); }
  }

  /** The commands that a connection submits are the messages of its session: a first part of them, and all of them once
      it has ended. */
  lemma {:induction false} SubmitsItsMessages(
    zones: P.Zones, s: P.State, keys: Keymap, c: P.ConnId, f: Feed, run: seq<P.Action>)
    requires P.IsRun(zones, s, run) && Serves(keys, c, f, run)
    ensures Submitted(c, run) <= TraceFrom(keys, f.history, f.ls).messages
    ensures Ended(c, run) ==> Submitted(c, run) == TraceFrom(keys, f.history, f.ls).messages
    decreases |run|
  {
    if run != [] {
      var a, t := run[0], P.Next(zones, s, run[0]);
      if a == P.Disconnect(c) {
        ClosedSubmitsNothing(zones, t, c, run[1..]);
      } else {
        EndedLater(c, run);
        if a.Submit? && a.conn == c {
          SubmitsItsMessages(zones, t, keys, c, Rest(keys, f), run[1..]);
        } else {
          SubmitsItsMessages(zones, t, keys, c, f, run[1..]);
        }
      }
    }
  }

  // --- What is submitted is executed ---------------------------------------------------------------------------

  lemma {:induction false} CommandsAppend(q: seq<P.Event>, e: P.Event, c: P.ConnId)
    ensures Commands(q + [e], c) == Commands(q, c) + (if e.MessageCLI? && e.conn == c then [e.cmd] else [])
  {
    if q != [] {
      CommandsAppend(q[1..], e, c);
      assert (q + [e])[1..] == q[1..] + [e];
    }
  }

  lemma CommandsHead(q: seq<P.Event>, c: P.ConnId)
    requires q != []
    ensures Commands(q, c) == Commands([q[0]], c) + Commands(q[1..], c)
  {
    assert Commands([q[0]][1..], c) == [];
  }

  lemma ReceiveUnderway(zones: P.Zones, s: P.State, order: seq<P.Name>, c: P.ConnId)
    requires P.Enabled(zones, s, P.Receive(order))
    ensures Underway(s, c) == Commands([s.chanEvent[0]], c) + Underway(P.Next(zones, s, P.Receive(order)), c)
  {
    var t := P.Next(zones, s, P.Receive(order));
    assert t.chanEvent == s.chanEvent[1..] && t.consoles == s.consoles;
    CommandsHead(s.chanEvent, c);
    Associative(Commands([s.chanEvent[0]], c), Commands(t.chanEvent, c), ToSend(s.consoles, c));
  }

  lemma EnqueueUnderway(zones: P.Zones, s: P.State, d: P.ConnId, c: P.ConnId)
    requires P.Enabled(zones, s, P.Enqueue(d))
    ensures Underway(s, c) == Underway(P.Next(zones, s, P.Enqueue(d)), c)
  {
    CommandsAppend(s.chanEvent, P.MessageCLI(d, s.consoles[d].cmd, s.nextDone), c);
  }

  /** One action takes the first of the commands under way, or adds one at the end. */
  lemma StepUnderway(zones: P.Zones, s: P.State, a: P.Action, c: P.ConnId)
    requires P.Enabled(zones, s, a)
    ensures Underway(s, c) + (if a.Submit? && a.conn == c then [a.cmd] else []) ==
            (if a.Receive? then Commands([s.chanEvent[0]], c) else []) + Underway(P.Next(zones, s, a), c)
  {
    match a
    case Receive(order) => ReceiveUnderway(zones, s, order, c);
    case Enqueue(d) => EnqueueUnderway(zones, s, d, c);
    case Notify(n) => CommandsAppend(s.chanEvent, P.MessageNew(n), c);
    case Request => CommandsAppend(s.chanEvent, P.MessageNew(s.loop.requests[0]), c);
    case Post(w) => CommandsAppend(s.chanEvent, P.MessageDone(s.workers[w].name), c);
    case _ =>
  }

  /** In every run the loop takes the commands of a connection in the order of their submission, and each once. */
  lemma {:induction false} ExecutesInOrder(zones: P.Zones, s: P.State, c: P.ConnId, run: seq<P.Action>)
    requires P.IsRun(zones, s, run)
    ensures Underway(s, c) + Submitted(c, run) ==
            Executed(zones, s, c, run) + Underway(P.After(zones, s, run), c)
    decreases |run|
  {
    if run != [] {
      var a, t := run[0], P.Next(zones, s, run[0]);
      var first := if a.Submit? && a.conn == c then [a.cmd] else [];
      var taken := if a.Receive? then Commands([s.chanEvent[0]], c) else [];
      StepUnderway(zones, s, a, c);
      ExecutesInOrder(zones, t, c, run[1..]);
      Associative(Underway(s, c), first, Submitted(c, run[1..]));
      Associative(taken, Underway(t, c), Submitted(c, run[1..]));
      Associative(taken, Executed(zones, t, c, run[1..]), Underway(P.After(zones, s, run), c));
    }
  }

  /** A closed console has nothing under way, and no other has more than one command. */
  lemma AtMostOneUnderway(zones: P.Zones, workers: nat, s: P.State, c: P.ConnId)
    requires P.Reachable(zones, workers, s)
    ensures |Underway(s, c)| <= 1
    ensures c in s.consoles && s.consoles[c].Closed? ==> Underway(s, c) == []
  {
    PendingConsoleIsSilent(zones, workers, s, c, []);
    ReachableHandsOff(zones, workers, s);
    QueuedByExists(s.chanEvent, c);
  }

  lemma {:induction false} EndedIsClosed(zones: P.Zones, s: P.State, c: P.ConnId, run: seq<P.Action>)
    requires P.IsRun(zones, s, run)
    requires Ended(c, run) || (c in s.consoles && s.consoles[c].Closed?)
    ensures var t := P.After(zones, s, run); c in t.consoles && t.consoles[c].Closed?
    decreases |run|
  {
    if run != [] {
      if run[0] != P.Disconnect(c) { EndedLater(c, run); }
      EndedIsClosed(zones, P.Next(zones, s, run[0]), c, run[1..]);
    }
  }

  /** In every run of the daemon, with whatever else goes on: what the event loop executes for a connection are the
      messages of its session, in order and each once, at most one of the submitted ones still to come; all of them once
      the session has ended. */
  lemma LoopExecutesMessages(zones: P.Zones, workers: nat, keys: Keymap, c: P.ConnId, ls: seq<Lexeme>, run: seq<P.Action>)
    requires P.IsRun(zones, P.Init(workers), run) && Serves(keys, c, Feed([], ls), run)
    ensures var executed := Executed(zones, P.Init(workers), c, run);
      && executed <= TraceFrom(keys, [], ls).messages
      && |Submitted(c, run)| <= |executed| + 1
      && (Ended(c, run) ==> executed == TraceFrom(keys, [], ls).messages)
  {
    var t := P.After(zones, P.Init(workers), run);
    ExecutesInOrder(zones, P.Init(workers), c, run);
    assert Submitted(c, run) == Executed(zones, P.Init(workers), c, run) + Underway(t, c);
    SubmitsItsMessages(zones, P.Init(workers), keys, c, Feed([], ls), run);
    AtMostOneUnderway(zones, workers, t, c);
    if Ended(c, run) { EndedIsClosed(zones, P.Init(workers), c, run); }
  }

  /** What is executed for a session that has ended is determined by its keys, up to commands that do nothing: it does not
      depend on how the network cuts its stream, nor on anything else that the daemon does. */
  lemma ExecutionDependsOnKeys(zones: P.Zones, workers: nat, names: seq<Bytes>, stream: Bytes,
                               c: P.ConnId, arrived: nat -> bool, run: seq<P.Action>,
                               d: P.ConnId, other: nat -> bool, otherRun: seq<P.Action>)
    requires P.IsRun(zones, P.Init(workers), run) && Ended(c, run)
    requires P.IsRun(zones, P.Init(workers), otherRun) && Ended(d, otherRun)
    requires Serves(Keys(names), c, Feed([], Lex(stream, 0, arrived)), run)
    requires Serves(Keys(names), d, Feed([], Lex(stream, 0, other)), otherRun)
    ensures NonBlank(Executed(zones, P.Init(workers), c, run)) == NonBlank(Executed(zones, P.Init(workers), d, otherRun))
  {
    LoopExecutesMessages(zones, workers, Keys(names), c, Lex(stream, 0, arrived), run);
    LoopExecutesMessages(zones, workers, Keys(names), d, Lex(stream, 0, other), otherRun);
    ChunkingIndependent(names, [], stream, arrived, other);
    var s, t := SessionOn(names, [], stream, arrived), SessionOn(names, [], stream, other);
    assert Observable(s).messages == NonBlank(s.messages) && Observable(t).messages == NonBlank(t.messages);
  }
}
