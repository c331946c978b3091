/** The daemon's shared variables and the code that changes them. Each method is one action of the state machine
    in Protocol: a stretch of one goroutine between two channel operations that may block, so the precondition
    of a method that sends or receives is that the channel is ready. */
module DaemonProcess {
  import opened Prelude
  import opened Protocol
  import SingleFlight
  import Propagation

  datatype RunningJob = RunningJob(name: Name)

  /** The names of the NOTIFY questions that reach the event queue. */
  function Notified(zones: Zones, questions: seq<Bytes>): (names: seq<Name>)
    ensures forall n :: n in names ==> Notifiable(zones, n)
  {
    if questions == [] then []
    else
      var k := |questions| - 1;
      var name := Propagation.TrimDot(questions[k]);
      Notified(zones, questions[..k]) + (if Notifiable(zones, name) then [name] else [])
  }

  lemma {:induction false} NotifiedPositions(zones: Zones, questions: seq<Bytes>) returns (from: seq<nat>)
    ensures Increasing(from, |questions|) && |from| == |Notified(zones, questions)|
    ensures forall i :: 0 <= i < |from| ==> Notified(zones, questions)[i] == Propagation.TrimDot(questions[from[i]])
    ensures forall q :: 0 <= q < |questions| ==> (Notifiable(zones, Propagation.TrimDot(questions[q])) <==> q in from)
  {
    from := [];
    if questions != [] {
      var n := |questions| - 1;
      var before := NotifiedPositions(zones, questions[..n]);
      OnePositionMore(before, n);
      from := if Notifiable(zones, Propagation.TrimDot(questions[n])) then before + [n] else before;
      forall q | 0 <= q < n
        ensures Notifiable(zones, Propagation.TrimDot(questions[q])) <==> q in before
      {
        assert questions[..n][q] == questions[q];
      }
    }
  }

  /** Names are sent for exactly the questions that are a configured zone on DnsNode to be checked for propagation, with
      or without a final dot: the zone's name, in the order of the questions. */
  lemma NotifiedExactly(zones: Zones, questions: seq<Bytes>) returns (from: seq<nat>)
    ensures Increasing(from, |questions|) && |from| == |Notified(zones, questions)|
    ensures forall i :: 0 <= i < |from| ==>
      var q, n := questions[from[i]], Notified(zones, questions)[i];
      q == n + "." || (q == n && (n == [] || n[|n| - 1] != '.'))
    ensures forall k :: 0 <= k < |questions| ==>
      (k in from <==>
        exists n ::
          && n in zones && zones[n].checkPropagation && zones[n].dnsNode
          && (questions[k] == n + "." || (questions[k] == n && (n == [] || n[|n| - 1] != '.'))))
  {
    from := NotifiedPositions(zones, questions);
    forall k | 0 <= k < |questions|
      ensures Propagation.NamedAs(questions[k], Propagation.TrimDot(questions[k]))
      ensures Notifiable(zones, Propagation.TrimDot(questions[k])) <==>
        exists n :: n in zones && zones[n].checkPropagation && zones[n].dnsNode && Propagation.NamedAs(questions[k], n)
    {
      QuestionFor(zones, questions[k]);
    }
    forall i | 0 <= i < |from| ensures Propagation.NamedAs(questions[from[i]], Notified(zones, questions)[i]) {
      assert from[i] in from;
    }
  }

  lemma QuestionFor(zones: Zones, question: Bytes)
    ensures Propagation.NamedAs(question, Propagation.TrimDot(question))
    ensures Notifiable(zones, Propagation.TrimDot(question)) <==>
      exists n :: n in zones && zones[n].checkPropagation && zones[n].dnsNode && Propagation.NamedAs(question, n)
  {
    Propagation.TrimDotExactly(question, Propagation.TrimDot(question));
    forall n | Propagation.NamedAs(question, n) ensures n == Propagation.TrimDot(question) {
      Propagation.TrimDotExactly(question, n);
    }
  }

  /** What a check of the zone asks the network: the DnsNode API or the name servers. */
  function Polls(zone: Zone, network: Propagation.World): Propagation.World {
    network.(dnsNode := zone.dnsNode)
  }

  class Daemon {
    const zones: Zones
    var jobs: map<Name, RunningJob>
    var chanEvent: seq<Event>
    var chanWork: seq<Name>
    var loop: Loop
    var workers: seq<Worker>
    var consoles: map<ConnId, Console>
    var nextDone: DoneId
    ghost var closed: multiset<DoneId>
    ghost var lost: multiset<Name>
    ghost var handled: nat
    ghost var dropped: nat
    ghost var handedOff: nat
    ghost var freed: nat
    ghost var internalErrors: nat

    ghost function Now(): State
      reads this
    {
      State(jobs.Keys, chanEvent, chanWork, loop, workers, consoles, nextDone, closed, lost,
            handled, dropped, handedOff, freed, internalErrors)
    }

    /** The daemon has got here by a run of the state machine. */
    ghost predicate Valid()
      reads this
    {
      Reachable(zones, |workers|, Now())
    }

    constructor (zones: Zones, maxWorkers: int)
      ensures Valid() && this.zones == zones
      ensures Now() == Init(if maxWorkers < 1 then 1 else maxWorkers)
    {
      this.zones := zones;
      var n := if maxWorkers < 1 then 1 else maxWorkers;
      jobs, chanEvent, chanWork, loop := map[], [], [], Receiving;
      workers, consoles, nextDone := seq(n, i => Idle), map[], 0;
      closed, lost, handled, dropped, handedOff, freed, internalErrors := multiset{}, multiset{}, 0, 0, 0, 0, 0;
      new;
      assert IsRun(zones, Init(n), []) && After(zones, Init(n), []) == Now();
    }

    /** `handleDNSRequest`: which names it sends, each by its own Notify, and for which questions. */
    method HandleDNSRequest(isNotify: bool, questions: seq<Bytes>) returns (names: seq<Name>, ghost from: seq<nat>)
      ensures Increasing(from, |questions|) && |from| == |names|
      ensures forall i :: 0 <= i < |from| ==>
        var q, n := questions[from[i]], names[i];
        q == n + "." || (q == n && (n == [] || n[|n| - 1] != '.'))
      ensures forall k :: 0 <= k < |questions| ==>
        (k in from <==>
          isNotify &&
          exists n ::
            && n in zones && zones[n].checkPropagation && zones[n].dnsNode
            && (questions[k] == n + "." || (questions[k] == n && (n == [] || n[|n| - 1] != '.'))))
      ensures forall n :: n in names ==> Notifiable(zones, n)
    {
      names, from := [], [];
      if isNotify {
        for i := 0 to |questions|
          invariant names == Notified(zones, questions[..i])
        {
          var name := Propagation.TrimDot(questions[i]);
          assert questions[..i + 1][..i] == questions[..i];
          if name in zones && zones[name].checkPropagation && zones[name].dnsNode {
            names := names + [name];
          }
        }
        assert questions[..|questions|] == questions;
        from := NotifiedExactly(zones, questions);
      }
    }

    method SendNotify(name: Name)
      requires Valid() && Enabled(zones, Now(), Notify(name))
      modifies this
      ensures Valid() && Now() == Next(zones, old(Now()), Notify(name))
    {
      ReachableNext(zones, |workers|, Now(), Notify(name));
      chanEvent := chanEvent + [MessageNew(name)];
    }

    /** One iteration of `eventLoop` up to its first send. `order` is the order in which the zone map is iterated. */
    method ReceiveEvent(order: seq<Name>)
      requires Valid() && Enabled(zones, Now(), Receive(order))
      modifies this
      ensures Valid() && Now() == Next(zones, old(Now()), Receive(order))
      ensures old(chanEvent[0]).MessageDone? ==> old(chanEvent[0].name in jobs)
      ensures internalErrors == 0
    {
      SingleFlight.DoneFindsItsJob(zones, |workers|, Now());
      ReachableNext(zones, |workers|, Now(), Receive(order));
      var event := chanEvent[0];
      chanEvent := chanEvent[1..];
      match event
      case MessageNew(_) => HandleNew(event, order);
      case MessageDone(_) => HandleDone(event, order);
      case MessageCLI(_, _, _) => HandleCLI(event, order);
    }

    method HandleNew(event: Event, ghost order: seq<Name>)
      requires event.MessageNew?
      modifies this`jobs, this`loop, this`handled, this`dropped
      ensures Now() == Handle(zones, old(Now()), event, order)
    {
      var name := event.name;
      handled := handled + 1;
      if name in jobs {
        dropped := dropped + 1;
      } else {
        jobs := jobs[name := RunningJob(name)];
        assert jobs.Keys == old(jobs.Keys) + {name};
        loop := HandingOff(name);
      }
    }

    method HandleDone(event: Event, ghost order: seq<Name>)
      requires event.MessageDone?
      modifies this`jobs, this`freed, this`internalErrors
      ensures Now() == Handle(zones, old(Now()), event, order)
    {
      var name := event.name;
      if name in jobs {
        jobs := jobs - {name};
        freed := freed + 1;
      } else {
        internalErrors := internalErrors + 1;
      }
    }

    method HandleCLI(event: Event, order: seq<Name>)
      requires event.MessageCLI?
      modifies this`loop
      ensures Now() == Handle(zones, old(Now()), event, order)
    {
      var requests := CLI(event.cmd, order);
      loop := Executing(event.conn, requests, event.done);
    }

    /** The `check` branch of `CLI`: what it sends to the loop's own queue. */
    method CLI(cmd: Bytes, order: seq<Name>) returns (requests: seq<Name>)
      ensures requests == Requests(zones, cmd, order)
    {
      requests := [];
      var args := Split(cmd);
      if args[0] == "check" && |args| == 2 {
        if args[1] == "all" {
          for i := 0 to |order|
            invariant requests + DnsNodeZones(zones, order[i..]) == DnsNodeZones(zones, order)
          {
            assert order[i..][1..] == order[i + 1..];
            if order[i] in zones && zones[order[i]].dnsNode {
              requests := requests + [order[i]];
            }
          }
        } else {
          requests := [args[1]];
        }
      }
    }

    method SendWork()
      requires Valid() && Enabled(zones, Now(), HandOff)
      modifies this
      ensures Valid() && Now() == Next(zones, old(Now()), HandOff)
    {
      ReachableNext(zones, |workers|, Now(), HandOff);
      chanWork := chanWork + [loop.name];
      loop := Receiving;
      handedOff := handedOff + 1;
    }

    method SendRequest()
      requires Valid() && Enabled(zones, Now(), Request)
      modifies this
      ensures Valid() && Now() == Next(zones, old(Now()), Request)
    {
      ReachableNext(zones, |workers|, Now(), Request);
      chanEvent := chanEvent + [MessageNew(loop.requests[0])];
      loop := loop.(requests := loop.requests[1..]);
    }

    method CloseDone()
      requires Valid() && Enabled(zones, Now(), Finish)
      modifies this
      ensures Valid() && Now() == Next(zones, old(Now()), Finish)
    {
      ReachableNext(zones, |workers|, Now(), Finish);
      closed := closed + multiset{loop.done};
      loop := Receiving;
    }

    method TakeWork(w: nat)
      requires Valid() && Enabled(zones, Now(), Take(w))
      modifies this
      ensures Valid() && Now() == Next(zones, old(Now()), Take(w))
      ensures forall v :: 0 <= v < |workers| && v != w && !workers[v].Idle? ==> workers[v].name != workers[w].name
    {
      ReachableNext(zones, |workers|, Now(), Take(w));
      workers := workers[w := Checking(chanWork[0])];
      chanWork := chanWork[1..];
      forall v | 0 <= v < |workers| && v != w && !workers[v].Idle? ensures workers[v].name != workers[w].name {
        SingleFlight.NoTwoWorkersOnOneZone(zones, |workers|, Now(), if v < w then v else w, if v < w then w else v);
      }
    }

    /** The worker runs `checkZone`: whether it will post a MessageDone depends on the answers of the network. A zone is
        polled through DnsNode iff its configuration says so. */
    method RunCheck(w: nat, soa: Option<Propagation.Serial>, ns: Option<seq<Bytes>>, network: Propagation.World)
      returns (report: Option<Propagation.Report>, ix: nat, sites: map<Bytes, nat>)
      requires Valid() && w < |workers| && workers[w].Checking?
      modifies this
      ensures Valid()
      ensures var posts := old(workers[w].name) !in zones || (soa.Some? && ns.Some?);
        && Enabled(zones, old(Now()), End(w, posts))
        && Now() == Next(zones, old(Now()), End(w, posts))
      ensures report.Some? ==>
        && old(workers[w].name) in zones && soa.Some? && ns.Some?
        && var world := network.(dnsNode := zones[old(workers[w].name)].dnsNode, servers := ns.value);
        && Propagation.Explains(world, soa.value, ix, sites)
        && report.value.returnCode == if exists t :: 1 <= t <= 75 && Propagation.Right(world, soa.value, t) then 0 else 1
    {
      var name := workers[w].name;
      ReachableNext(zones, |workers|, Now(), End(w, name !in zones || (soa.Some? && ns.Some?)));
      var posted;
      posted, report, ix, sites :=
        Propagation.CheckZone(name in zones, soa, ns, if name in zones then Polls(zones[name], network) else network);
      if posted.Some? {
        workers := workers[w := Posting(name)];
      } else {
        lost := lost + multiset{name};
        workers := workers[w := Idle];
      }
    }

    method SendDone(w: nat)
      requires Valid() && Enabled(zones, Now(), Post(w))
      modifies this
      ensures Valid() && Now() == Next(zones, old(Now()), Post(w))
    {
      ReachableNext(zones, |workers|, Now(), Post(w));
      chanEvent := chanEvent + [MessageDone(workers[w].name)];
      workers := workers[w := Idle];
    }

    /** `HandleTelnetClient`: the line has been read, the event is sent, and the session waits on `done`. */
    method SendCommand(conn: ConnId)
      requires Valid() && Enabled(zones, Now(), Enqueue(conn))
      modifies this
      ensures Valid() && Now() == Next(zones, old(Now()), Enqueue(conn))
    {
      ReachableNext(zones, |workers|, Now(), Enqueue(conn));
      var done := nextDone;
      nextDone := nextDone + 1;
      chanEvent := chanEvent + [MessageCLI(conn, consoles[conn].cmd, done)];
      consoles := consoles[conn := Waiting(done)];
    }

    /** `TelnetServer` accepts a connection. */
    method AcceptConsole(conn: ConnId)
      requires Valid() && Enabled(zones, Now(), Connect(conn))
      modifies this
      ensures Valid() && Now() == Next(zones, old(Now()), Connect(conn))
    {
      ReachableNext(zones, |workers|, Now(), Connect(conn));
      consoles := consoles[conn := Editing];
    }

    /** `ReadLine` has returned a line that does not end the session. */
    method HaveLine(conn: ConnId, cmd: Bytes)
      requires Valid() && Enabled(zones, Now(), Submit(conn, cmd))
      modifies this
      ensures Valid() && Now() == Next(zones, old(Now()), Submit(conn, cmd))
    {
      ReachableNext(zones, |workers|, Now(), Submit(conn, cmd));
      consoles := consoles[conn := Submitting(cmd)];
    }

    /** The session's `Done` channel has been closed. */
    method WakeConsole(conn: ConnId)
      requires Valid() && Enabled(zones, Now(), Resume(conn))
      modifies this
      ensures Valid() && Now() == Next(zones, old(Now()), Resume(conn))
    {
      ReachableNext(zones, |workers|, Now(), Resume(conn));
      consoles := consoles[conn := Editing];
    }

    /** The session has ended. */
    method CloseConsole(conn: ConnId)
      requires Valid() && Enabled(zones, Now(), Disconnect(conn))
      modifies this
      ensures Valid() && Now() == Next(zones, old(Now()), Disconnect(conn))
    {
      ReachableNext(zones, |workers|, Now(), Disconnect(conn));
      consoles := consoles[conn := Closed];
    }
  }
}
