/** The daemon's goroutines as a state machine: DNS NOTIFY handlers and console sessions put events on
    one bounded queue, a single event loop filters them by zone, and a fixed pool of workers takes the
    zones from a second bounded queue. An action is what one goroutine does between two points where it
    may block; a run is any interleaving of actions. */
module Protocol {
  import opened Prelude

  type Name = Bytes
  type ConnId = nat
  type DoneId = nat

  /** The buffer of both channels. */
  const CAPACITY: nat := 500

  datatype Zone = Zone(dnsNode: bool, checkPropagation: bool)
  type Zones = map<Name, Zone>

  /** `done` identifies the channel that the console session waits on; each submission makes a new one. */
  datatype Event =
    | MessageNew(name: Name)
    | MessageDone(name: Name)
    | MessageCLI(conn: ConnId, cmd: Bytes, done: DoneId)

  datatype Loop =
    | Receiving
    | HandingOff(name: Name)
    | Executing(conn: ConnId, requests: seq<Name>, done: DoneId)

  datatype Worker = Idle | Checking(name: Name) | Posting(name: Name)

  datatype Console = Editing | Submitting(cmd: Bytes) | Waiting(done: DoneId) | Closed

  /** `lost`, `closed` and the counters only record what has happened; nothing reads them. */
  datatype State = State(
    jobs: set<Name>,
    chanEvent: seq<Event>,
    chanWork: seq<Name>,
    loop: Loop,
    workers: seq<Worker>,
    consoles: map<ConnId, Console>,
    nextDone: DoneId,
    closed: multiset<DoneId>,
    lost: multiset<Name>,
    handled: nat,
    dropped: nat,
    handedOff: nat,
    freed: nat,
    internalErrors: nat)

  datatype Action =
    | Notify(name: Name)
    | Connect(conn: ConnId)
    | Edit(conn: ConnId)
    | Submit(conn: ConnId, cmd: Bytes)
    | Disconnect(conn: ConnId)
    | Enqueue(conn: ConnId)
    | Resume(conn: ConnId)
    | Receive(order: seq<Name>)
    | HandOff
    | Request
    | Finish
    | Take(worker: nat)
    | End(worker: nat, posts: bool)
    | Post(worker: nat)

  function Init(workers: nat): State {
    State({}, [], [], Receiving, seq(workers, i => Idle), map[], 0, multiset{}, multiset{}, 0, 0, 0, 0, 0)
  }

  /** `strings.Split(s, " ")`: always at least one field. */
  function Split(s: Bytes): (fields: seq<Bytes>)
    ensures |fields| > 0
  {
    if s == [] then [[]]
    else
      var rest := Split(s[1..]);
      if s[0] == ' ' then [[]] + rest else [[s[0]] + rest[0]] + rest[1..]
  }

  function DnsNodeZones(zones: Zones, order: seq<Name>): (r: seq<Name>)
    ensures |r| <= |order|
  {
    if order == [] then []
    else
      var rest := DnsNodeZones(zones, order[1..]);
      if order[0] in zones && zones[order[0]].dnsNode then [order[0]] + rest else rest
  }

  /** The zones for which the console command `cmd` sends a MessageNew to the loop's own queue.
      `order` is the order in which the zone map happens to be iterated. */
  function Requests(zones: Zones, cmd: Bytes, order: seq<Name>): (r: seq<Name>)
    ensures |r| <= 1 + |order|
  {
    var args := Split(cmd);
    if args[0] != "check" || |args| != 2 then []
    else if args[1] == "all" then DnsNodeZones(zones, order)
    else [args[1]]
  }

  /** What a NOTIFY must name to be put on the queue. */
  predicate Notifiable(zones: Zones, name: Name) {
    name in zones && zones[name].checkPropagation && zones[name].dnsNode
  }

  predicate HasRoom<T>(q: seq<T>) { |q| < CAPACITY }

  predicate Enabled(zones: Zones, s: State, a: Action) {
    match a
    case Notify(n) => Notifiable(zones, n) && HasRoom(s.chanEvent)
    case Connect(c) => c !in s.consoles
    case Edit(c) => c in s.consoles && s.consoles[c].Editing?
    case Submit(c, _) => c in s.consoles && s.consoles[c].Editing?
    case Disconnect(c) => c in s.consoles && s.consoles[c].Editing?
    case Enqueue(c) => c in s.consoles && s.consoles[c].Submitting? && HasRoom(s.chanEvent)
    case Resume(c) => c in s.consoles && s.consoles[c].Waiting? && s.consoles[c].done in s.closed
    case Receive(order) => s.loop.Receiving? && s.chanEvent != [] && multiset(order) == multiset(zones.Keys)
    case HandOff => s.loop.HandingOff? && HasRoom(s.chanWork)
    case Request => s.loop.Executing? && s.loop.requests != [] && HasRoom(s.chanEvent)
    case Finish => s.loop.Executing? && s.loop.requests == []
    case Take(w) => w < |s.workers| && s.workers[w].Idle? && s.chanWork != []
    case End(w, posts) =>
      w < |s.workers| && s.workers[w].Checking? && (!posts ==> s.workers[w].name in zones)
    case Post(w) => w < |s.workers| && s.workers[w].Posting? && HasRoom(s.chanEvent)
  }

  /** The body of the event loop for the event at the head of the queue, up to the first send. */
  function Handle(zones: Zones, s: State, e: Event, order: seq<Name>): State {
    match e
    case MessageNew(n) =>
      if n in s.jobs then s.(handled := s.handled + 1, dropped := s.dropped + 1)
      else s.(handled := s.handled + 1, jobs := s.jobs + {n}, loop := HandingOff(n))
    case MessageDone(n) =>
      if n in s.jobs then s.(jobs := s.jobs - {n}, freed := s.freed + 1)
      else s.(internalErrors := s.internalErrors + 1)
    case MessageCLI(c, cmd, d) => s.(loop := Executing(c, Requests(zones, cmd, order), d))
  }

  function Next(zones: Zones, s: State, a: Action): State
    requires Enabled(zones, s, a)
  {
    match a
    case Notify(n) => s.(chanEvent := s.chanEvent + [MessageNew(n)])
    case Connect(c) => s.(consoles := s.consoles[c := Editing])
    case Edit(c) => s
    case Submit(c, cmd) => s.(consoles := s.consoles[c := Submitting(cmd)])
    case Disconnect(c) => s.(consoles := s.consoles[c := Closed])
    case Enqueue(c) =>
      s.(chanEvent := s.chanEvent + [MessageCLI(c, s.consoles[c].cmd, s.nextDone)],
         consoles := s.consoles[c := Waiting(s.nextDone)],
         nextDone := s.nextDone + 1)
    case Resume(c) => s.(consoles := s.consoles[c := Editing])
    case Receive(order) => Handle(zones, s.(chanEvent := s.chanEvent[1..]), s.chanEvent[0], order)
    case HandOff =>
      s.(chanWork := s.chanWork + [s.loop.name], loop := Receiving, handedOff := s.handedOff + 1)
    case Request =>
      s.(chanEvent := s.chanEvent + [MessageNew(s.loop.requests[0])],
         loop := s.loop.(requests := s.loop.requests[1..]))
    case Finish => s.(closed := s.closed + multiset{s.loop.done}, loop := Receiving)
    case Take(w) => s.(chanWork := s.chanWork[1..], workers := s.workers[w := Checking(s.chanWork[0])])
    case End(w, posts) =>
      if posts then s.(workers := s.workers[w := Posting(s.workers[w].name)])
      else s.(workers := s.workers[w := Idle], lost := s.lost + multiset{s.workers[w].name})
    case Post(w) =>
      s.(chanEvent := s.chanEvent + [MessageDone(s.workers[w].name)], workers := s.workers[w := Idle])
  }

  /** The actions of the loop and the workers, which need nobody outside the daemon. */
  predicate Internal(a: Action) {
    a.Receive? || a.HandOff? || a.Request? || a.Finish? || a.Take? || a.End? || a.Post?
  }

  /** `run` is a sequence of enabled actions from `s`. */
  predicate IsRun(zones: Zones, s: State, run: seq<Action>)
    decreases |run|
  {
    run == [] || (Enabled(zones, s, run[0]) && IsRun(zones, Next(zones, s, run[0]), run[1..]))
  }

  function After(zones: Zones, s: State, run: seq<Action>): State
    requires IsRun(zones, s, run)
    decreases |run|
  {
    if run == [] then s else After(zones, Next(zones, s, run[0]), run[1..])
  }

  ghost predicate Reachable(zones: Zones, workers: nat, s: State) {
    exists run :: IsRun(zones, Init(workers), run) && After(zones, Init(workers), run) == s
  }

  lemma RunCons(zones: Zones, s: State, a: Action, rest: seq<Action>)
    requires Enabled(zones, s, a) && IsRun(zones, Next(zones, s, a), rest)
    ensures IsRun(zones, s, [a] + rest) && After(zones, s, [a] + rest) == After(zones, Next(zones, s, a), rest)
  {
    assert ([a] + rest)[1..] == rest;
  }

  lemma {:induction false} RunAppend(zones: Zones, s: State, a: seq<Action>, b: seq<Action>)
    requires IsRun(zones, s, a) && IsRun(zones, After(zones, s, a), b)
    ensures IsRun(zones, s, a + b) && After(zones, s, a + b) == After(zones, After(zones, s, a), b)
    decreases |a|
  {
    if a == [] {
      assert a + b == b;
    } else {
      RunAppend(zones, Next(zones, s, a[0]), a[1..], b);
      RunCons(zones, s, a[0], a[1..] + b);
      assert a + b == [a[0]] + (a[1..] + b);
    }
  }

  lemma {:induction false} SomeOrder(names: set<Name>) returns (order: seq<Name>)
    ensures multiset(order) == multiset(names)
    decreases names
  {
    if names == {} {
      order := [];
    } else {
      var n :| n in names;
      var rest := SomeOrder(names - {n});
      order := [n] + rest;
      assert names == (names - {n}) + {n};
    }
  }

  lemma ReachableNext(zones: Zones, workers: nat, s: State, a: Action)
    requires Reachable(zones, workers, s) && Enabled(zones, s, a)
    ensures Reachable(zones, workers, Next(zones, s, a)) && |Next(zones, s, a).workers| == |s.workers|
  {
    var run :| IsRun(zones, Init(workers), run) && After(zones, Init(workers), run) == s;
    assert IsRun(zones, Next(zones, s, a), []);
    RunCons(zones, s, a, []);
    RunAppend(zones, Init(workers), run, [a]);
    assert [a] + [] == [a];
  }
}
