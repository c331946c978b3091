/** Every zone in `jobs` is in exactly one place, in every run. */
module SingleFlight {
  import opened Protocol

  function One(b: bool): nat { if b then 1 else 0 }

  /** How many workers check or report `n`. */
  function Busy(ws: seq<Worker>, n: Name): nat {
    if ws == [] then 0 else One(!ws[0].Idle? && ws[0].name == n) + Busy(ws[1..], n)
  }

  function Occupied(ws: seq<Worker>): nat {
    if ws == [] then 0 else One(!ws[0].Idle?) + Occupied(ws[1..])
  }

  /** How many MessageDone for `n` are queued. */
  function Reported(q: seq<Event>, n: Name): nat {
    if q == [] then 0 else One(q[0] == MessageDone(n)) + Reported(q[1..], n)
  }

  function Reports(q: seq<Event>): nat {
    if q == [] then 0 else One(q[0].MessageDone?) + Reports(q[1..])
  }

  /** In how many places a check of `n` is: the loop's hand, the work queue, a worker, a report, or lost. */
  function Places(s: State, n: Name): nat {
    One(s.loop == HandingOff(n)) + multiset(s.chanWork)[n] + Busy(s.workers, n) + Reported(s.chanEvent, n) + s.lost[n]
  }

  /** All places taken together. */
  function Total(s: State): nat {
    One(s.loop.HandingOff?) + |s.chanWork| + Occupied(s.workers) + Reports(s.chanEvent) + |s.lost|
  }

  ghost predicate EachInOnePlace(s: State) {
    forall n :: Places(s, n) == One(n in s.jobs)
  }

  ghost predicate Balanced(s: State) {
    && s.internalErrors == 0
    && Total(s) == |s.jobs|
    && s.handled == s.dropped + s.handedOff + One(s.loop.HandingOff?)
    && s.handedOff + One(s.loop.HandingOff?) == s.freed + |s.jobs|
  }

  /** Single flight: each zone in `jobs` is in exactly one place, and no other zone is anywhere. */
  ghost predicate Accounted(s: State) {
    EachInOnePlace(s) && Balanced(s)
  }

  lemma {:induction false} Pushed(q: seq<Event>, e: Event, n: Name)
    ensures Reported(q + [e], n) == Reported(q, n) + One(e == MessageDone(n))
    ensures Reports(q + [e]) == Reports(q) + One(e.MessageDone?)
  {
    if q != [] {
      Pushed(q[1..], e, n);
      assert (q + [e])[1..] == q[1..] + [e];
    }
  }

  lemma {:induction false} Replaced(ws: seq<Worker>, w: nat, x: Worker, n: Name)
    requires w < |ws|
    ensures Busy(ws[w := x], n) + One(!ws[w].Idle? && ws[w].name == n) ==
            Busy(ws, n) + One(!x.Idle? && x.name == n)
    ensures Occupied(ws[w := x]) + One(!ws[w].Idle?) == Occupied(ws) + One(!x.Idle?)
  {
    if w == 0 {
      assert ws[w := x][1..] == ws[1..];
    } else {
      Replaced(ws[1..], w - 1, x, n);
      assert ws[w := x][1..] == ws[1..][w - 1 := x];
    }
  }

  lemma {:induction false} AllIdle(ws: seq<Worker>, n: Name)
    requires forall i :: 0 <= i < |ws| ==> ws[i].Idle?
    ensures Busy(ws, n) == 0 && Occupied(ws) == 0
  {
    if ws != [] { AllIdle(ws[1..], n); }
  }

  lemma {:induction false} BusyWorker(ws: seq<Worker>, w: nat)
    requires w < |ws| && !ws[w].Idle?
    ensures Busy(ws, ws[w].name) >= 1
  {
    if w > 0 { BusyWorker(ws[1..], w - 1); }
  }

  lemma {:induction false} TwoBusyWorkers(ws: seq<Worker>, v: nat, w: nat)
    requires v < w < |ws| && !ws[v].Idle? && !ws[w].Idle? && ws[v].name == ws[w].name
    ensures Busy(ws, ws[w].name) >= 2
  {
    if v == 0 {
      BusyWorker(ws[1..], w - 1);
    } else {
      TwoBusyWorkers(ws[1..], v - 1, w - 1);
    }
  }

  lemma NewPlaces(zones: Zones, s: State, order: seq<Name>, n: Name)
    requires Accounted(s) && Enabled(zones, s, Receive(order)) && s.chanEvent[0].MessageNew?
    ensures var t := Next(zones, s, Receive(order)); Places(t, n) == One(n in t.jobs) && Balanced(t)
  {
    assert Places(s, n) == One(n in s.jobs);
    var name := s.chanEvent[0].name;
    if name !in s.jobs { assert |s.jobs + {name}| == |s.jobs| + 1; }
  }

  lemma DonePlaces(zones: Zones, s: State, order: seq<Name>, n: Name)
    requires Accounted(s) && Enabled(zones, s, Receive(order)) && s.chanEvent[0].MessageDone?
    ensures var t := Next(zones, s, Receive(order)); Places(t, n) == One(n in t.jobs) && Balanced(t)
  {
    assert Places(s, n) == One(n in s.jobs);
    assert Places(s, s.chanEvent[0].name) == One(s.chanEvent[0].name in s.jobs);
  }

  lemma ReceivePlaces(zones: Zones, s: State, order: seq<Name>, n: Name)
    requires Accounted(s) && Enabled(zones, s, Receive(order))
    ensures var t := Next(zones, s, Receive(order)); Places(t, n) == One(n in t.jobs) && Balanced(t)
  {
    if s.chanEvent[0].MessageNew? {
      NewPlaces(zones, s, order, n);
    } else if s.chanEvent[0].MessageDone? {
      DonePlaces(zones, s, order, n);
    } else {
      assert Places(s, n) == One(n in s.jobs);
    }
  }

  lemma HandOffPlaces(zones: Zones, s: State, n: Name)
    requires Accounted(s) && Enabled(zones, s, HandOff)
    ensures Places(Next(zones, s, HandOff), n) == One(n in s.jobs)
    ensures Balanced(Next(zones, s, HandOff))
  {
    assert Places(s, n) == One(n in s.jobs);
  }

  lemma CommandPlaces(zones: Zones, s: State, a: Action, n: Name)
    requires Accounted(s) && Enabled(zones, s, a) && (a.Request? || a.Finish?)
    ensures Places(Next(zones, s, a), n) == One(n in s.jobs)
    ensures Balanced(Next(zones, s, a))
  {
    assert Places(s, n) == One(n in s.jobs);
    if a.Request? { Pushed(s.chanEvent, MessageNew(s.loop.requests[0]), n); }
  }

  lemma TakePlaces(zones: Zones, s: State, w: nat, n: Name)
    requires Accounted(s) && Enabled(zones, s, Take(w))
    ensures Places(Next(zones, s, Take(w)), n) == One(n in s.jobs)
    ensures Balanced(Next(zones, s, Take(w)))
  {
    assert Places(s, n) == One(n in s.jobs);
    Replaced(s.workers, w, Checking(s.chanWork[0]), n);
    assert s.chanWork == [s.chanWork[0]] + s.chanWork[1..];
  }

  lemma EndPlaces(zones: Zones, s: State, w: nat, posts: bool, n: Name)
    requires Accounted(s) && Enabled(zones, s, End(w, posts))
    ensures Places(Next(zones, s, End(w, posts)), n) == One(n in s.jobs)
    ensures Balanced(Next(zones, s, End(w, posts)))
  {
    assert Places(s, n) == One(n in s.jobs);
    Replaced(s.workers, w, if posts then Posting(s.workers[w].name) else Idle, n);
  }

  lemma PostPlaces(zones: Zones, s: State, w: nat, n: Name)
    requires Accounted(s) && Enabled(zones, s, Post(w))
    ensures Places(Next(zones, s, Post(w)), n) == One(n in s.jobs)
    ensures Balanced(Next(zones, s, Post(w)))
  {
    assert Places(s, n) == One(n in s.jobs);
    Replaced(s.workers, w, Idle, n);
    Pushed(s.chanEvent, MessageDone(s.workers[w].name), n);
  }

  lemma OutsidePlaces(zones: Zones, s: State, a: Action, n: Name)
    requires Accounted(s) && Enabled(zones, s, a) && !Internal(a)
    ensures Places(Next(zones, s, a), n) == One(n in s.jobs)
    ensures Balanced(Next(zones, s, a))
  {
    assert Places(s, n) == One(n in s.jobs);
    match a
    case Notify(name) => Pushed(s.chanEvent, MessageNew(name), n);
    case Enqueue(c) => Pushed(s.chanEvent, MessageCLI(c, s.consoles[c].cmd, s.nextDone), n);
    case _ =>
  }

  /** The effect of one action on the places of one zone. */
  lemma StepPlaces(zones: Zones, s: State, a: Action, n: Name)
    requires Accounted(s) && Enabled(zones, s, a)
    ensures Places(Next(zones, s, a), n) == One(n in Next(zones, s, a).jobs)
    ensures Balanced(Next(zones, s, a))
  {
    match a
    case Receive(order) => ReceivePlaces(zones, s, order, n);
    case Take(w) => TakePlaces(zones, s, w, n);
    case End(w, posts) => EndPlaces(zones, s, w, posts, n);
    case Post(w) => PostPlaces(zones, s, w, n);
    case HandOff => HandOffPlaces(zones, s, n);
    case Request => CommandPlaces(zones, s, a, n);
    case Finish => CommandPlaces(zones, s, a, n);
    case _ => OutsidePlaces(zones, s, a, n);
  }

  lemma StepAccounted(zones: Zones, s: State, a: Action)
    requires Accounted(s) && Enabled(zones, s, a)
    ensures Accounted(Next(zones, s, a))
  {
    StepPlaces(zones, s, a, []);
    forall n ensures Places(Next(zones, s, a), n) == One(n in Next(zones, s, a).jobs) {
      StepPlaces(zones, s, a, n);
    }
  }

  lemma {:induction false} RunAccounted(zones: Zones, s: State, run: seq<Action>)
    requires Accounted(s) && IsRun(zones, s, run)
    ensures Accounted(After(zones, s, run))
    decreases |run|
  {
    if run != [] {
      StepAccounted(zones, s, run[0]);
      RunAccounted(zones, Next(zones, s, run[0]), run[1..]);
    }
  }

  lemma ReachableAccounted(zones: Zones, workers: nat, s: State)
    requires Reachable(zones, workers, s)
    ensures Accounted(s)
  {
    forall n ensures Places(Init(workers), n) == 0 && Total(Init(workers)) == 0 {
      AllIdle(Init(workers).workers, n);
    }
    assert Places(Init(workers), []) == 0;
    var run :| IsRun(zones, Init(workers), run) && After(zones, Init(workers), run) == s;
    RunAccounted(zones, Init(workers), run);
  }

  /** No two workers ever check, or report, the same zone. */
  lemma NoTwoWorkersOnOneZone(zones: Zones, workers: nat, s: State, v: nat, w: nat)
    requires Reachable(zones, workers, s)
    requires v < w < |s.workers| && !s.workers[v].Idle? && !s.workers[w].Idle?
    ensures s.workers[v].name != s.workers[w].name
    ensures s.workers[v].name in s.jobs && s.workers[w].name in s.jobs
  {
    ReachableAccounted(zones, workers, s);
    BusyWorker(s.workers, v);
    BusyWorker(s.workers, w);
    assert Places(s, s.workers[v].name) == One(s.workers[v].name in s.jobs);
    assert Places(s, s.workers[w].name) == One(s.workers[w].name in s.jobs);
    if s.workers[v].name == s.workers[w].name { TwoBusyWorkers(s.workers, v, w); }
  }

  /** The loop's "INTERNAL ERROR" branch is never taken: a MessageDone always finds its job. */
  lemma DoneFindsItsJob(zones: Zones, workers: nat, s: State)
    requires Reachable(zones, workers, s)
    ensures s.internalErrors == 0
    ensures s.chanEvent != [] && s.chanEvent[0].MessageDone? ==> s.chanEvent[0].name in s.jobs
  {
    ReachableAccounted(zones, workers, s);
    if s.chanEvent != [] && s.chanEvent[0].MessageDone? {
      assert Places(s, s.chanEvent[0].name) == One(s.chanEvent[0].name in s.jobs);
    }
  }

  /** Conservation: each MessageNew the loop handled was dropped or handed to the workers (or is in the loop's
      hand), and each job handed over was freed or is still queued, checked, reported or lost. */
  lemma Conservation(zones: Zones, workers: nat, s: State)
    requires Reachable(zones, workers, s)
    ensures s.handled == s.dropped + s.handedOff + One(s.loop.HandingOff?)
    ensures s.handedOff == s.freed + |s.chanWork| + Occupied(s.workers) + Reports(s.chanEvent) + |s.lost|
    ensures |s.chanWork| + One(s.loop.HandingOff?) <= |s.jobs|
  {
    ReachableAccounted(zones, workers, s);
  }

  // --- The two ends of checkZone that post no MessageDone -----------------------------------------

  lemma {:induction false} LostGrows(zones: Zones, s: State, run: seq<Action>)
    requires IsRun(zones, s, run)
    ensures s.lost <= After(zones, s, run).lost
    ensures After(zones, s, run).lost == s.lost <==>
            forall i :: 0 <= i < |run| && run[i].End? ==> run[i].posts
    decreases |run|
  {
    if run != [] {
      var t := Next(zones, s, run[0]);
      LostGrows(zones, t, run[1..]);
      assert run == [run[0]] + run[1..];
      if run[0].End? && !run[0].posts {
        var n := s.workers[run[0].worker].name;
        assert After(zones, s, run).lost[n] >= t.lost[n] == s.lost[n] + 1;
      } else {
        assert t.lost == s.lost;
      }
    }
  }

  /** `n` counts as running although nothing is left that could free it. */
  ghost predicate Stranded(s: State, n: Name) {
    && n in s.jobs
    && s.loop != HandingOff(n)
    && n !in s.chanWork
    && Busy(s.workers, n) == 0
    && Reported(s.chanEvent, n) == 0
  }

  lemma LostIsStranded(s: State, n: Name)
    requires Accounted(s) && s.lost[n] >= 1
    ensures Stranded(s, n)
  {
    assert Places(s, n) == One(n in s.jobs);
    assert multiset(s.chanWork)[n] == 0;
  }

  /** A zone whose check ended on a failed SOA or NS query is never checked again: in every later state it
      is still in `jobs` and in no queue or worker, so the next MessageNew for it is dropped. */
  lemma LostForever(zones: Zones, workers: nat, s: State, run: seq<Action>, n: Name, order: seq<Name>)
    requires Reachable(zones, workers, s) && n in s.lost && IsRun(zones, s, run)
    ensures Stranded(After(zones, s, run), n)
    ensures var t := After(zones, s, run);
      t.chanEvent != [] && t.chanEvent[0] == MessageNew(n) && Enabled(zones, t, Receive(order)) ==>
        Next(zones, t, Receive(order)) ==
        t.(chanEvent := t.chanEvent[1..], handled := t.handled + 1, dropped := t.dropped + 1)
  {
    ReachableAccounted(zones, workers, s);
    RunAccounted(zones, s, run);
    LostGrows(zones, s, run);
    assert s.lost[n] <= After(zones, s, run).lost[n];
    LostIsStranded(After(zones, s, run), n);
  }
}
