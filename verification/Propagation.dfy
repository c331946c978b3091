/** `checkZone`: poll every server of a zone up to 75 times until all have the target serial, and report
    when each of them was last seen wrong. */
module Propagation {
  import opened Prelude

  type Serial = nat

  /** One try polls at most this often, every PERIOD seconds. */
  const TRIES: nat := 75
  const PERIOD: nat := 4

  const OK: nat := 0
  const WARNING: nat := 1

  datatype Site = Site(name: Bytes, serial: Serial, timestamp: int)
  datatype Primary = Primary(address: Bytes, serial: Serial)
  datatype Status = Status(distPrimaries: seq<Primary>, sites: seq<Site>, currentTimestamp: int)

  /** What the network answers, as functions of the try: the DnsNode status (None: the API call failed)
      and the SOA query to the i-th name server (None: the query failed). */
  datatype World = World(
    dnsNode: bool,
    servers: seq<Bytes>,
    status: nat -> Option<Status>,
    soa: (nat, nat) -> Option<Serial>)

  datatype Line =
    | Master(serial: Serial)
    | Distmaster(address: Bytes, serial: Serial)
    | SiteSerial(name: Bytes, serial: Serial)
    | QueryError(host: Bytes)
    | ServerSerial(host: Bytes, serial: Serial)

  /** One polled server: its key in `sites`, and the output line if it is wrong. */
  datatype Observation = Observation(key: Bytes, complaint: Option<Line>)

  /** `sites` is initialised to 0 by a negative value and set by any other. */
  function SetSitePropagation(sites: map<Bytes, nat>, key: Bytes, val: int): map<Bytes, nat> {
    if val < 0 then (if key !in sites then sites[key := 0] else sites) else sites[key := val]
  }

  // --- The poll history, without reference to the loop --------------------------------------------

  function SeePrimary(p: Primary, target: Serial): Observation {
    Observation(p.address, if p.serial != target then Some(Distmaster(p.address, p.serial)) else None)
  }

  function SeeSite(s: Site, target: Serial): Observation {
    Observation(s.name, if s.serial != target then Some(SiteSerial(s.name, s.serial)) else None)
  }

  function TrimDot(host: Bytes): Bytes {
    if host != [] && host[|host| - 1] == '.' then host[..|host| - 1] else host
  }

  function SeeServer(host: Bytes, answer: Option<Serial>, target: Serial): Observation {
    Observation(host,
      match answer
      case None => Some(QueryError(host))
      case Some(n) => if n != target then Some(ServerSerial(host, n)) else None)
  }

  function SeePrimaries(ps: seq<Primary>, target: Serial): (obs: seq<Observation>)
    ensures |obs| == |ps| && forall i :: 0 <= i < |ps| ==> obs[i] == SeePrimary(ps[i], target)
  {
    seq(|ps|, i requires 0 <= i < |ps| => SeePrimary(ps[i], target))
  }

  function SeeSites(sites: seq<Site>, target: Serial): (obs: seq<Observation>)
    ensures |obs| == |sites| && forall i :: 0 <= i < |sites| ==> obs[i] == SeeSite(sites[i], target)
  {
    seq(|sites|, i requires 0 <= i < |sites| => SeeSite(sites[i], target))
  }

  function SeeServers(w: World, target: Serial, t: nat): (obs: seq<Observation>)
    ensures |obs| == |w.servers|
    ensures forall i :: 0 <= i < |w.servers| ==> obs[i] == SeeServer(TrimDot(w.servers[i]), w.soa(t, i), target)
  {
    seq(|w.servers|, i requires 0 <= i < |w.servers| => SeeServer(TrimDot(w.servers[i]), w.soa(t, i), target))
  }

  /** All servers polled in try `t`, in order. A failed API call shows nothing. */
  function Seen(w: World, target: Serial, t: nat): seq<Observation> {
    if !w.dnsNode then SeeServers(w, target, t)
    else if w.status(t).None? then []
    else SeePrimaries(w.status(t).value.distPrimaries, target) + SeeSites(w.status(t).value.sites, target)
  }

  predicate SeenIn(obs: seq<Observation>, k: Bytes) {
    exists i :: 0 <= i < |obs| && obs[i].key == k
  }

  predicate WrongIn(obs: seq<Observation>, k: Bytes) {
    exists i :: 0 <= i < |obs| && obs[i].key == k && obs[i].complaint.Some?
  }

  predicate AnyWrong(obs: seq<Observation>) {
    exists i :: 0 <= i < |obs| && obs[i].complaint.Some?
  }

  function Complaints(obs: seq<Observation>): seq<Line> {
    if obs == [] then []
    else
      var n := |obs| - 1;
      Complaints(obs[..n]) + (if obs[n].complaint.Some? then [obs[n].complaint.value] else [])
  }

  /** What the tries 1..n showed. */
  function Polled(w: World, target: Serial, n: nat): (h: seq<seq<Observation>>)
    ensures |h| == n
  {
    if n == 0 then [] else Polled(w, target, n - 1) + [Seen(w, target, n)]
  }

  /** In the history `h` of tries 1..|h|, `v` is the last try in which `k` was wrong, 0 if there is none. */
  ghost predicate LastWrong(h: seq<seq<Observation>>, k: Bytes, v: nat) {
    && v <= |h|
    && (v > 0 ==> WrongIn(h[v - 1], k))
    && forall t :: v <= t < |h| ==> !WrongIn(h[t], k)
  }

  ghost predicate EverSeen(h: seq<seq<Observation>>, k: Bytes) {
    exists t :: 0 <= t < |h| && SeenIn(h[t], k)
  }

  /** `sites` tells the history: every server seen, with the last try in which it was wrong. */
  ghost predicate Tells(h: seq<seq<Observation>>, sites: map<Bytes, nat>) {
    && (forall k :: k in sites <==> EverSeen(h, k))
    && (forall k :: k in sites ==> LastWrong(h, k, sites[k]))
  }

  ghost predicate AllWrong(h: seq<seq<Observation>>) {
    forall t :: 0 <= t < |h| ==> AnyWrong(h[t])
  }

  predicate Failed(w: World, t: nat) {
    w.dnsNode && w.status(t).None?
  }

  /** The loop counter after the history `h`: one past the last try if that was wrong too. */
  ghost predicate EndsAt(h: seq<seq<Observation>>, ix: nat) {
    && 1 <= ix <= TRIES + 1
    && |h| == Last(ix)
    && (if ix <= TRIES then AllWrong(h[..ix - 1]) && !AnyWrong(h[ix - 1]) else AllWrong(h))
  }

  function Last(ix: nat): nat { if ix <= TRIES then ix else TRIES }

  // --- One observation at a time ------------------------------------------------------------------

  /** `sites` after the observations `obs` of try `ix`. */
  function Record(sites: map<Bytes, nat>, obs: seq<Observation>, ix: nat): map<Bytes, nat> {
    if obs == [] then sites
    else
      var n := |obs| - 1;
      var sites' := SetSitePropagation(Record(sites, obs[..n], ix), obs[n].key, -1);
      if obs[n].complaint.Some? then SetSitePropagation(sites', obs[n].key, ix) else sites'
  }

  lemma {:induction false} RecordMeaning(sites: map<Bytes, nat>, obs: seq<Observation>, ix: nat)
    ensures var r := Record(sites, obs, ix);
      && (forall k :: k in r <==> k in sites || SeenIn(obs, k))
      && (forall k :: k in r ==> r[k] == if WrongIn(obs, k) then ix else if k in sites then sites[k] else 0)
  {
    if obs != [] {
      var n := |obs| - 1;
      RecordMeaning(sites, obs[..n], ix);
      var r, r' := Record(sites, obs, ix), Record(sites, obs[..n], ix);
      forall k
        ensures SeenIn(obs, k) <==> SeenIn(obs[..n], k) || obs[n].key == k
        ensures WrongIn(obs, k) <==> WrongIn(obs[..n], k) || (obs[n].key == k && obs[n].complaint.Some?)
      {
        SnocIn(obs, k);
      }
    }
  }

  lemma SnocIn(obs: seq<Observation>, k: Bytes)
    requires obs != []
    ensures var n := |obs| - 1;
      && (SeenIn(obs, k) <==> SeenIn(obs[..n], k) || obs[n].key == k)
      && (WrongIn(obs, k) <==> WrongIn(obs[..n], k) || (obs[n].key == k && obs[n].complaint.Some?))
  {
    var n := |obs| - 1;
    if SeenIn(obs[..n], k) {
      var i :| 0 <= i < n && obs[..n][i].key == k;
      assert obs[i].key == k;
    }
    if WrongIn(obs[..n], k) {
      var i :| 0 <= i < n && obs[..n][i].key == k && obs[..n][i].complaint.Some?;
      assert obs[i].key == k;
    }
    if SeenIn(obs, k) && obs[n].key != k {
      var i :| 0 <= i < |obs| && obs[i].key == k;
      assert obs[..n][i].key == k;
    }
    if WrongIn(obs, k) && !(obs[n].key == k && obs[n].complaint.Some?) {
      var i :| 0 <= i < |obs| && obs[i].key == k && obs[i].complaint.Some?;
      assert obs[..n][i].key == k;
    }
  }

  lemma TellsNext(h: seq<seq<Observation>>, sites: map<Bytes, nat>, obs: seq<Observation>)
    requires Tells(h, sites)
    ensures Tells(h + [obs], Record(sites, obs, |h| + 1))
  {
    var g, r := h + [obs], Record(sites, obs, |h| + 1);
    RecordMeaning(sites, obs, |h| + 1);
    forall k ensures k in r <==> EverSeen(g, k) {
      SeenNext(h, obs, k);
    }
    forall k: Bytes {:trigger r[k]} | k in r ensures LastWrong(g, k, r[k]) {
      NeverWrong(h, sites, k);
      LastWrongNext(h, obs, k, if k in sites then sites[k] else 0);
    }
  }

  lemma SeenNext(h: seq<seq<Observation>>, obs: seq<Observation>, k: Bytes)
    ensures EverSeen(h + [obs], k) <==> EverSeen(h, k) || SeenIn(obs, k)
  {
    var g := h + [obs];
    assert g[|h|] == obs;
    if t :| 0 <= t < |h| && SeenIn(h[t], k) { assert SeenIn(g[t], k); }
  }

  lemma LastWrongNext(h: seq<seq<Observation>>, obs: seq<Observation>, k: Bytes, v: nat)
    requires LastWrong(h, k, v)
    ensures LastWrong(h + [obs], k, if WrongIn(obs, k) then |h| + 1 else v)
  {
    assert forall t :: 0 <= t < |h| ==> (h + [obs])[t] == h[t];
  }

  lemma NeverWrong(h: seq<seq<Observation>>, sites: map<Bytes, nat>, k: Bytes)
    requires Tells(h, sites)
    ensures LastWrong(h, k, if k in sites then sites[k] else 0)
  {
    if k !in sites {
      forall t | 0 <= t < |h| ensures !WrongIn(h[t], k) {
        assert !SeenIn(h[t], k);
      }
    }
  }

  lemma {:induction false} ComplaintsAny(obs: seq<Observation>)
    ensures Complaints(obs) != [] <==> AnyWrong(obs)
  {
    if obs != [] {
      var n := |obs| - 1;
      ComplaintsAny(obs[..n]);
      if AnyWrong(obs[..n]) {
        var i :| 0 <= i < n && obs[..n][i].complaint.Some?;
        assert obs[i].complaint.Some?;
      }
      if AnyWrong(obs) && !obs[n].complaint.Some? {
        var i :| 0 <= i < |obs| && obs[i].complaint.Some?;
        assert obs[..n][i].complaint.Some?;
      }
    }
  }

  // --- What the loop's result means ----------------------------------------------------------------

  /** `ix` and `sites` are determined by what the servers answered. */
  lemma OutcomeUnique(h: seq<seq<Observation>>, g: seq<seq<Observation>>, ix: nat, jx: nat,
                      sites: map<Bytes, nat>, others: map<Bytes, nat>)
    requires h <= g || g <= h
    requires EndsAt(h, ix) && EndsAt(g, jx) && Tells(h, sites) && Tells(g, others)
    ensures ix == jx && sites == others
  {
    assert h == g;
    forall k | k in sites || k in others ensures k in sites && k in others && sites[k] == others[k] {
      LastWrongUnique(h, k, sites[k], others[k]);
    }
  }

  lemma LastWrongUnique(h: seq<seq<Observation>>, k: Bytes, v: nat, u: nat)
    requires LastWrong(h, k, v) && LastWrong(h, k, u)
    ensures v == u
  {
  }

  /** The largest entry of `sites` is the number of wrong tries, so no reported response time exceeds
      TRIES * PERIOD seconds. */
  lemma LargestEntry(h: seq<seq<Observation>>, ix: nat, sites: map<Bytes, nat>)
    requires EndsAt(h, ix) && Tells(h, sites)
    ensures forall k :: k in sites ==> sites[k] <= ix - 1 && sites[k] * PERIOD <= 300
    ensures if sites == map[] then ix == 1 else exists k :: k in sites && sites[k] == ix - 1
  {
    forall k | k in sites ensures sites[k] <= ix - 1 {
      assert LastWrong(h, k, sites[k]);
      if sites[k] == ix { WrongInAny(h[ix - 1], k); }
    }
    if ix > 1 {
      var obs := h[ix - 2];
      assert AnyWrong(obs);
      var i :| 0 <= i < |obs| && obs[i].complaint.Some?;
      var k := obs[i].key;
      assert SeenIn(obs, k) && WrongIn(obs, k);
      assert k in sites;
      assert LastWrong(h, k, sites[k]);
    } else if sites != map[] {
      var k :| k in sites;
    }
  }

  lemma WrongInAny(obs: seq<Observation>, k: Bytes)
    requires WrongIn(obs, k)
    ensures AnyWrong(obs)
  {
    var i :| 0 <= i < |obs| && obs[i].key == k && obs[i].complaint.Some?;
    assert obs[i].complaint.Some?;
  }

  // --- The loop --------------------------------------------------------------------------------------

  /** The loop of `checkZone`. `failed` means the DnsNode API failed in try `ix`. */
  method Poll(w: World, target: Serial)
    returns (ix: nat, sites: map<Bytes, nat>, wrongSerial: bool, output: seq<Line>, failed: bool)
    ensures failed ==>
      1 <= ix <= TRIES && Failed(w, ix) && AllWrong(Polled(w, target, ix - 1))
    ensures !failed && ix <= TRIES ==> !Failed(w, ix)
    ensures !failed ==>
      && EndsAt(Polled(w, target, Last(ix)), ix)
      && Tells(Polled(w, target, Last(ix)), sites)
      && (wrongSerial <==> ix == TRIES + 1)
      && output == [Master(target)] + Complaints(Seen(w, target, Last(ix)))
  {
    sites, output, wrongSerial, failed := map[], [], false, false;
    ix := 1;
    while ix <= TRIES
      invariant 1 <= ix <= TRIES + 1
      invariant Tells(Polled(w, target, ix - 1), sites)
      invariant AllWrong(Polled(w, target, ix - 1))
      invariant ix > 1 ==> wrongSerial && output == [Master(target)] + Complaints(Seen(w, target, ix - 1))
    {
      if Failed(w, ix) {
        failed := true;
        return;
      }
      wrongSerial, output, sites := Try(w, target, sites, ix);
      if !wrongSerial {
        return;
      }
      ix := ix + 1;
    }
  }

  method Try(w: World, target: Serial, before: map<Bytes, nat>, ix: nat)
    returns (wrongSerial: bool, output: seq<Line>, sites: map<Bytes, nat>)
    requires 1 <= ix <= TRIES && !Failed(w, ix)
    requires Tells(Polled(w, target, ix - 1), before) && AllWrong(Polled(w, target, ix - 1))
    ensures Tells(Polled(w, target, ix), sites)
    ensures output == [Master(target)] + Complaints(Seen(w, target, ix))
    ensures if wrongSerial then AllWrong(Polled(w, target, ix)) else EndsAt(Polled(w, target, ix), ix)
  {
    wrongSerial, output, sites := PollAll(w, target, before, ix);
    TryDone(Polled(w, target, ix - 1), Seen(w, target, ix), Polled(w, target, ix), target, before,
            Round(wrongSerial, output, sites));
  }

  /** After a try that showed `obs`: the history goes from `h` to `g`. */
  lemma TryDone(h: seq<seq<Observation>>, obs: seq<Observation>, g: seq<seq<Observation>>, target: Serial,
                before: map<Bytes, nat>, r: Round)
    requires Tells(h, before) && AllWrong(h) && |h| < TRIES && g == h + [obs]
    requires r == Recorded(Start(before, target), obs, |h| + 1)
    ensures Tells(g, r.sites)
    ensures r.output == [Master(target)] + Complaints(obs)
    ensures if r.wrongSerial then AllWrong(g) else EndsAt(g, |h| + 1)
  {
    RecordedMeaning(before, target, obs, |h| + 1);
    TellsNext(h, before, obs);
    ComplaintsAny(obs);
    LastTry(h, obs);
  }

  lemma LastTry(h: seq<seq<Observation>>, obs: seq<Observation>)
    requires AllWrong(h) && |h| < TRIES
    ensures if AnyWrong(obs) then AllWrong(h + [obs]) else EndsAt(h + [obs], |h| + 1)
  {
    assert (h + [obs])[..|h|] == h;
  }

  /** The loops over the servers of one try. */
  method PollAll(w: World, target: Serial, before: map<Bytes, nat>, ix: nat)
    returns (wrongSerial: bool, output: seq<Line>, sites: map<Bytes, nat>)
    requires !Failed(w, ix)
    ensures Round(wrongSerial, output, sites) == Recorded(Start(before, target), Seen(w, target, ix), ix)
  {
    if w.dnsNode {
      var status := w.status(ix).value;
      wrongSerial, output, sites := PollPrimaries(status, target, before, ix);
      wrongSerial, output, sites := PollSites(status, target, ix, wrongSerial, output, sites);
      RecordedAppend(Start(before, target), SeePrimaries(status.distPrimaries, target),
                     SeeSites(status.sites, target), ix);
    } else {
      wrongSerial, output, sites := PollServers(w, target, before, ix);
    }
  }

  /** The loop variables of one try. */
  datatype Round = Round(wrongSerial: bool, output: seq<Line>, sites: map<Bytes, nat>)

  function Note(r: Round, o: Observation, ix: nat): Round {
    var seen := SetSitePropagation(r.sites, o.key, -1);
    if o.complaint.None? then r.(sites := seen)
    else Round(true, r.output + [o.complaint.value], SetSitePropagation(seen, o.key, ix))
  }

  function Start(before: map<Bytes, nat>, target: Serial): Round {
    Round(false, [Master(target)], before)
  }

  /** The loop variables after the observations `obs`. */
  function Recorded(r: Round, obs: seq<Observation>, ix: nat): Round {
    if obs == [] then r else Note(Recorded(r, obs[..|obs| - 1], ix), obs[|obs| - 1], ix)
  }

  lemma RecordedNext(r: Round, obs: seq<Observation>, i: nat, ix: nat)
    requires i < |obs|
    ensures Recorded(r, obs[..i + 1], ix) == Note(Recorded(r, obs[..i], ix), obs[i], ix)
  {
    assert obs[..i + 1][..i] == obs[..i];
  }

  lemma {:induction false} RecordedAppend(r: Round, a: seq<Observation>, b: seq<Observation>, ix: nat)
    ensures Recorded(Recorded(r, a, ix), b, ix) == Recorded(r, a + b, ix)
  {
    if b == [] {
      assert a + b == a;
    } else {
      var n := |b| - 1;
      RecordedAppend(r, a, b[..n], ix);
      assert (a + b)[..|a + b| - 1] == a + b[..n] && (a + b)[|a + b| - 1] == b[n];
    }
  }

  lemma {:induction false} RecordedMeaning(before: map<Bytes, nat>, target: Serial, obs: seq<Observation>, ix: nat)
    ensures var r := Recorded(Start(before, target), obs, ix);
      && r.output == [Master(target)] + Complaints(obs)
      && r.sites == Record(before, obs, ix)
      && (r.wrongSerial <==> Complaints(obs) != [])
  {
    if obs != [] {
      var n := |obs| - 1;
      RecordedMeaning(before, target, obs[..n], ix);
      if obs[n].complaint.Some? { Associative([Master(target)], Complaints(obs[..n]), [obs[n].complaint.value]); }
    }
  }

  method PollPrimaries(status: Status, target: Serial, before: map<Bytes, nat>, ix: nat)
    returns (wrongSerial: bool, output: seq<Line>, sites: map<Bytes, nat>)
    ensures Round(wrongSerial, output, sites) ==
            Recorded(Start(before, target), SeePrimaries(status.distPrimaries, target), ix)
  {
    sites, output, wrongSerial := before, [Master(target)], false;
    ghost var obs := SeePrimaries(status.distPrimaries, target);
    var i := 0;
    while i < |status.distPrimaries|
      invariant 0 <= i <= |status.distPrimaries|
      invariant Round(wrongSerial, output, sites) == Recorded(Start(before, target), obs[..i], ix)
    {
      var distmaster := status.distPrimaries[i];
      RecordedNext(Start(before, target), obs, i, ix);
      sites := SetSitePropagation(sites, distmaster.address, -1);
      if distmaster.serial != target {
        output := output + [Distmaster(distmaster.address, distmaster.serial)];
        wrongSerial := true;
        sites := SetSitePropagation(sites, distmaster.address, ix);
      }
      i := i + 1;
    }
    assert obs[..i] == obs;
  }

  /** The loop over the sites goes on from what the loop over the primaries left. */
  method PollSites(status: Status, target: Serial, ix: nat, wrong: bool, lines: seq<Line>, known: map<Bytes, nat>)
    returns (wrongSerial: bool, output: seq<Line>, sites: map<Bytes, nat>)
    ensures Round(wrongSerial, output, sites) == Recorded(Round(wrong, lines, known), SeeSites(status.sites, target), ix)
  {
    sites, output, wrongSerial := known, lines, wrong;
    ghost var obs := SeeSites(status.sites, target);
    var i := 0;
    while i < |status.sites|
      invariant 0 <= i <= |status.sites|
      invariant Round(wrongSerial, output, sites) == Recorded(Round(wrong, lines, known), obs[..i], ix)
    {
      var site := status.sites[i];
      RecordedNext(Round(wrong, lines, known), obs, i, ix);
      sites := SetSitePropagation(sites, site.name, -1);
      if site.serial != target {
        output := output + [SiteSerial(site.name, site.serial)];
        wrongSerial := true;
        sites := SetSitePropagation(sites, site.name, ix);
      }
      i := i + 1;
    }
    assert obs[..i] == obs;
  }

  // --- In terms of the answers -------------------------------------------------------------------------

  /** `host` is `name`, with or without a final dot. */
  predicate NamedAs(host: Bytes, name: Bytes) {
    host == name + "." || (host == name && (name == [] || name[|name| - 1] != '.'))
  }

  lemma TrimDotExactly(host: Bytes, name: Bytes)
    ensures TrimDot(host) == name <==> NamedAs(host, name)
  {
    if host != [] { assert host == host[..|host| - 1] + [host[|host| - 1]]; }
    if host == name + "." { assert host[..|host| - 1] == name; }
  }

  /** Every name server has answered with the target serial. */
  predicate ServersRight(w: World, target: Serial, t: nat) {
    forall i :: 0 <= i < |w.servers| ==> w.soa(t, i) == Some(target)
  }

  /** DnsNode has the target serial at every primary and every site. */
  predicate StatusRight(status: Status, target: Serial) {
    && (forall i :: 0 <= i < |status.distPrimaries| ==> status.distPrimaries[i].serial == target)
    && (forall i :: 0 <= i < |status.sites| ==> status.sites[i].serial == target)
  }

  predicate Right(w: World, target: Serial, t: nat) {
    if w.dnsNode then w.status(t).Some? && StatusRight(w.status(t).value, target) else ServersRight(w, target, t)
  }

  predicate ServerNamed(w: World, k: Bytes) {
    exists i :: 0 <= i < |w.servers| && NamedAs(w.servers[i], k)
  }

  /** A name server of this name has not answered with the target serial. */
  predicate WrongServer(w: World, target: Serial, t: nat, k: Bytes) {
    exists i :: 0 <= i < |w.servers| && NamedAs(w.servers[i], k) && w.soa(t, i) != Some(target)
  }

  predicate InStatus(s: Status, k: Bytes) {
    || (exists i :: 0 <= i < |s.distPrimaries| && s.distPrimaries[i].address == k)
    || (exists i :: 0 <= i < |s.sites| && s.sites[i].name == k)
  }

  predicate WrongInStatus(s: Status, target: Serial, k: Bytes) {
    || (exists i :: 0 <= i < |s.distPrimaries| && s.distPrimaries[i].address == k && s.distPrimaries[i].serial != target)
    || (exists i :: 0 <= i < |s.sites| && s.sites[i].name == k && s.sites[i].serial != target)
  }

  /** `k` is asked in try `t`. */
  predicate AskedAt(w: World, t: nat, k: Bytes) {
    if !w.dnsNode then ServerNamed(w, k)
    else w.status(t).Some? && InStatus(w.status(t).value, k)
  }

  /** The answer of `k` in try `t` is not the target serial. */
  predicate WrongAt(w: World, target: Serial, t: nat, k: Bytes) {
    if !w.dnsNode then WrongServer(w, target, t, k)
    else w.status(t).Some? && WrongInStatus(w.status(t).value, target, k)
  }

  lemma ServerSeen(w: World, target: Serial, t: nat, i: nat)
    requires i < |w.servers|
    ensures var o := SeeServers(w, target, t)[i];
      && (forall k :: o.key == k <==> NamedAs(w.servers[i], k))
      && (o.complaint.Some? <==> w.soa(t, i) != Some(target))
  {
    forall k ensures SeeServers(w, target, t)[i].key == k <==> NamedAs(w.servers[i], k) {
      TrimDotExactly(w.servers[i], k);
    }
  }

  lemma ServersSeen(w: World, target: Serial, t: nat, k: Bytes)
    ensures SeenIn(SeeServers(w, target, t), k) <==> ServerNamed(w, k)
    ensures WrongIn(SeeServers(w, target, t), k) <==> WrongServer(w, target, t, k)
    ensures AnyWrong(SeeServers(w, target, t)) <==> !ServersRight(w, target, t)
  {
    var obs := SeeServers(w, target, t);
    forall i: nat | i < |w.servers|
      ensures (obs[i].key == k <==> NamedAs(w.servers[i], k)) && (obs[i].complaint.Some? <==> w.soa(t, i) != Some(target))
    {
      ServerSeen(w, target, t, i);
    }
  }

  lemma Either(a: seq<Observation>, b: seq<Observation>, k: Bytes)
    ensures SeenIn(a + b, k) <==> SeenIn(a, k) || SeenIn(b, k)
    ensures WrongIn(a + b, k) <==> WrongIn(a, k) || WrongIn(b, k)
    ensures AnyWrong(a + b) <==> AnyWrong(a) || AnyWrong(b)
  {
    var c := a + b;
    assert forall i :: 0 <= i < |a| ==> c[i] == a[i];
    assert forall i :: 0 <= i < |b| ==> c[|a| + i] == b[i];
    assert forall i :: |a| <= i < |c| ==> c[i] == b[i - |a|];
  }

  lemma StatusSeen(w: World, target: Serial, t: nat, k: Bytes)
    requires w.dnsNode
    ensures SeenIn(Seen(w, target, t), k) <==> AskedAt(w, t, k)
    ensures WrongIn(Seen(w, target, t), k) <==> WrongAt(w, target, t, k)
    ensures w.status(t).Some? ==> (AnyWrong(Seen(w, target, t)) <==> !Right(w, target, t))
  {
    if w.status(t).Some? {
      var s := w.status(t).value;
      Either(SeePrimaries(s.distPrimaries, target), SeeSites(s.sites, target), k);
    }
  }

  lemma AnswersSeen(w: World, target: Serial, t: nat, k: Bytes)
    ensures SeenIn(Seen(w, target, t), k) <==> AskedAt(w, t, k)
    ensures WrongIn(Seen(w, target, t), k) <==> WrongAt(w, target, t, k)
    ensures !Failed(w, t) ==> (AnyWrong(Seen(w, target, t)) <==> !Right(w, target, t))
  {
    if w.dnsNode { StatusSeen(w, target, t, k); } else { ServersSeen(w, target, t, k); }
  }

  lemma {:induction false} PolledTry(w: World, target: Serial, n: nat, t: nat)
    requires 1 <= t <= n
    ensures Polled(w, target, n)[t - 1] == Seen(w, target, t)
  {
    if t < n { PolledTry(w, target, n - 1, t); }
  }

  /** A try that showed a wrong server has not failed. */
  lemma WrongBefore(w: World, target: Serial, n: nat, t: nat)
    requires AllWrong(Polled(w, target, n)) && 1 <= t <= n
    ensures !Failed(w, t) && !Right(w, target, t)
  {
    PolledTry(w, target, n, t);
    assert AnyWrong(Polled(w, target, n)[t - 1]);
    AnswersSeen(w, target, t, []);
  }

  /** What the loop counter means. */
  lemma CounterExactly(w: World, target: Serial, ix: nat)
    requires EndsAt(Polled(w, target, Last(ix)), ix) && (ix <= TRIES ==> !Failed(w, ix))
    ensures forall t :: 1 <= t < ix ==> !Right(w, target, t) && !Failed(w, t)
    ensures ix <= TRIES ==> Right(w, target, ix)
  {
    var h := Polled(w, target, Last(ix));
    assert AllWrong(Polled(w, target, ix - 1)) by {
      if ix <= TRIES { assert h[..ix - 1] == Polled(w, target, ix - 1); }
    }
    forall t | 1 <= t < ix ensures !Right(w, target, t) && !Failed(w, t) {
      WrongBefore(w, target, ix - 1, t);
    }
    if ix <= TRIES {
      PolledTry(w, target, ix, ix);
      AnswersSeen(w, target, ix, []);
    }
  }

  /** What the entries of `sites` mean. */
  lemma EntriesExactly(w: World, target: Serial, n: nat, sites: map<Bytes, nat>, k: Bytes)
    requires Tells(Polled(w, target, n), sites)
    ensures k in sites <==> exists t :: 1 <= t <= n && AskedAt(w, t, k)
    ensures k in sites ==>
      && sites[k] <= n
      && (sites[k] > 0 ==> WrongAt(w, target, sites[k], k))
      && forall t :: sites[k] < t <= n ==> !WrongAt(w, target, t, k)
  {
    var h := Polled(w, target, n);
    forall t | 1 <= t <= n
      ensures (SeenIn(h[t - 1], k) <==> AskedAt(w, t, k)) && (WrongIn(h[t - 1], k) <==> WrongAt(w, target, t, k))
    {
      PolledTry(w, target, n, t);
      AnswersSeen(w, target, t, k);
    }
    assert k in sites <==> EverSeen(h, k);
    if u :| 0 <= u < |h| && SeenIn(h[u], k) { assert AskedAt(w, u + 1, k); }
    if t :| 1 <= t <= n && AskedAt(w, t, k) { assert SeenIn(h[t - 1], k); }
    if k in sites {
      assert LastWrong(h, k, sites[k]);
      forall t | sites[k] < t <= n ensures !WrongAt(w, target, t, k) { assert !WrongIn(h[t - 1], k); }
    }
  }

  lemma ServersRecorded(w: World, target: Serial, before: map<Bytes, nat>, ix: nat)
    ensures var r := Recorded(Start(before, target), SeeServers(w, target, ix), ix);
      && (r.wrongSerial <==> !ServersRight(w, target, ix))
      && (forall k :: k in r.sites <==> k in before || ServerNamed(w, k))
      && forall k :: k in r.sites ==>
           r.sites[k] == if WrongServer(w, target, ix, k) then ix else if k in before then before[k] else 0
  {
    var obs := SeeServers(w, target, ix);
    RecordedMeaning(before, target, obs, ix);
    ComplaintsAny(obs);
    RecordMeaning(before, obs, ix);
    forall k
      ensures SeenIn(obs, k) <==> ServerNamed(w, k)
      ensures WrongIn(obs, k) <==> WrongServer(w, target, ix, k)
    {
      ServersSeen(w, target, ix, k);
    }
    ServersSeen(w, target, ix, []);
  }

  /** The loop over the zone's NS records. */
  method PollServers(w: World, target: Serial, before: map<Bytes, nat>, ix: nat)
    returns (wrongSerial: bool, output: seq<Line>, sites: map<Bytes, nat>)
    ensures Round(wrongSerial, output, sites) == Recorded(Start(before, target), SeeServers(w, target, ix), ix)
    ensures wrongSerial <==> !ServersRight(w, target, ix)
    ensures forall k :: k in sites <==> k in before || ServerNamed(w, k)
    ensures forall k :: k in sites ==>
      sites[k] == if WrongServer(w, target, ix, k) then ix else if k in before then before[k] else 0
  {
    sites, output, wrongSerial := before, [Master(target)], false;
    ghost var obs := SeeServers(w, target, ix);
    var i := 0;
    while i < |w.servers|
      invariant 0 <= i <= |w.servers|
      invariant Round(wrongSerial, output, sites) == Recorded(Start(before, target), obs[..i], ix)
    {
      var host := TrimDot(w.servers[i]);
      var answer := w.soa(ix, i);
      RecordedNext(Start(before, target), obs, i, ix);
      sites := SetSitePropagation(sites, host, -1);
      if answer.None? {
        output := output + [QueryError(host)];
        wrongSerial := true;
        sites := SetSitePropagation(sites, host, ix);
      } else if answer.value != target {
        output := output + [ServerSerial(host, answer.value)];
        wrongSerial := true;
        sites := SetSitePropagation(sites, host, ix);
      }
      i := i + 1;
    }
    assert obs[..i] == obs;
    ServersRecorded(w, target, before, ix);
  }

  // --- The output --------------------------------------------------------------------------------------

  lemma {:induction false} ComplaintsFrom(obs: seq<Observation>) returns (from: seq<nat>)
    ensures Increasing(from, |obs|) && |from| == |Complaints(obs)|
    ensures forall q :: 0 <= q < |obs| ==> (obs[q].complaint.Some? <==> q in from)
    ensures forall i :: 0 <= i < |from| ==> obs[from[i]].complaint == Some(Complaints(obs)[i])
  {
    from := [];
    if obs != [] {
      var n := |obs| - 1;
      var before := ComplaintsFrom(obs[..n]);
      OnePositionMore(before, n);
      from := if obs[n].complaint.Some? then before + [n] else before;
      var lines := Complaints(obs[..n]);
      assert Complaints(obs) == if obs[n].complaint.Some? then lines + [obs[n].complaint.value] else lines;
      forall i | 0 <= i < |from| ensures obs[from[i]].complaint == Some(Complaints(obs)[i]) {
        if i < |before| {
          assert obs[..n][before[i]] == obs[before[i]];
          assert from[i] == before[i] && Complaints(obs)[i] == lines[i];
        }
      }
      forall q | 0 <= q < |obs| ensures obs[q].complaint.Some? <==> q in from {
        if q < n { assert obs[..n][q] == obs[q]; }
      }
    }
  }

  lemma {:induction false} ComplaintsAppend(a: seq<Observation>, b: seq<Observation>)
    ensures Complaints(a + b) == Complaints(a) + Complaints(b)
  {
    if b == [] {
      assert a + b == a;
    } else {
      var n := |b| - 1;
      ComplaintsAppend(a, b[..n]);
      assert (a + b)[..|a + b| - 1] == a + b[..n] && (a + b)[|a + b| - 1] == b[n];
    }
  }

  /** The output line for a name server whose answer is not the target serial. */
  predicate ServerLine(line: Line, server: Bytes, answer: Option<Serial>) {
    match answer
    case None => line.QueryError? && NamedAs(server, line.host)
    case Some(n) => line.ServerSerial? && NamedAs(server, line.host) && line.serial == n
  }

  /** One line for each name server whose answer is not the target serial, in their order. */
  lemma ServerLines(w: World, target: Serial, t: nat) returns (from: seq<nat>)
    requires !w.dnsNode
    ensures Increasing(from, |w.servers|) && |from| == |Complaints(Seen(w, target, t))|
    ensures forall q :: 0 <= q < |w.servers| ==> (w.soa(t, q) != Some(target) <==> q in from)
    ensures forall i :: 0 <= i < |from| ==>
      ServerLine(Complaints(Seen(w, target, t))[i], w.servers[from[i]], w.soa(t, from[i]))
  {
    var obs := SeeServers(w, target, t);
    from := ComplaintsFrom(obs);
    forall i | 0 <= i < |from| ensures ServerLine(Complaints(obs)[i], w.servers[from[i]], w.soa(t, from[i])) {
      assert from[i] in from;
      TrimDotExactly(w.servers[from[i]], TrimDot(w.servers[from[i]]));
    }
  }

  /** With DnsNode: one line for each primary without the target serial, and then one for each such site. */
  lemma StatusLines(status: Status, target: Serial) returns (ps: seq<nat>, ss: seq<nat>)
    ensures Increasing(ps, |status.distPrimaries|) && Increasing(ss, |status.sites|)
    ensures forall q :: 0 <= q < |status.distPrimaries| ==> (status.distPrimaries[q].serial != target <==> q in ps)
    ensures forall q :: 0 <= q < |status.sites| ==> (status.sites[q].serial != target <==> q in ss)
    ensures var out := Complaints(SeePrimaries(status.distPrimaries, target) + SeeSites(status.sites, target));
      && |out| == |ps| + |ss|
      && (forall i :: 0 <= i < |ps| ==>
            out[i] == Distmaster(status.distPrimaries[ps[i]].address, status.distPrimaries[ps[i]].serial))
      && (forall i :: 0 <= i < |ss| ==>
            out[|ps| + i] == SiteSerial(status.sites[ss[i]].name, status.sites[ss[i]].serial))
  {
    var a, b := SeePrimaries(status.distPrimaries, target), SeeSites(status.sites, target);
    ps := ComplaintsFrom(a);
    ss := ComplaintsFrom(b);
    ComplaintsAppend(a, b);
    forall i | 0 <= i < |ps| ensures a[ps[i]] == SeePrimary(status.distPrimaries[ps[i]], target) {
      assert ps[i] in ps;
    }
    forall i | 0 <= i < |ss| ensures b[ss[i]] == SeeSite(status.sites[ss[i]], target) {
      assert ss[i] in ss;
    }
  }

  // --- The whole check --------------------------------------------------------------------------------

  /** The MessageDone that `checkZone` posts. */
  datatype Done = Done(error: bool)

  datatype Report = Report(returnCode: nat, output: seq<Line>, delays: seq<(Bytes, int)>, responseTimes: map<Bytes, nat>)

  function DelayOf(site: Site, now: int): (Bytes, int) {
    (site.name, site.timestamp - now)
  }

  /** The delay of every anycast site that has the target serial. */
  function Delays(sites: seq<Site>, target: Serial, now: int): seq<(Bytes, int)> {
    if sites == [] then []
    else
      var n := |sites| - 1;
      Delays(sites[..n], target, now) +
        (if sites[n].serial == target then [DelayOf(sites[n], now)] else [])
  }

  lemma {:induction false} DelayPositions(sites: seq<Site>, target: Serial, now: int) returns (from: seq<nat>)
    ensures Increasing(from, |sites|) && |from| == |Delays(sites, target, now)|
    ensures forall i :: 0 <= i < |from| ==> Delays(sites, target, now)[i] == DelayOf(sites[from[i]], now)
    ensures forall q :: 0 <= q < |sites| ==> (sites[q].serial == target <==> q in from)
  {
    from := [];
    if sites != [] {
      var n := |sites| - 1;
      var before := DelayPositions(sites[..n], target, now);
      OnePositionMore(before, n);
      from := if sites[n].serial == target then before + [n] else before;
      var delays := Delays(sites, target, now);
      assert delays == Delays(sites[..n], target, now) +
        (if sites[n].serial == target then [DelayOf(sites[n], now)] else []);
      forall i | 0 <= i < |from| ensures delays[i] == DelayOf(sites[from[i]], now) {
        if i < |before| { assert sites[..n][before[i]] == sites[before[i]]; }
      }
      forall q | 0 <= q < |sites| ensures sites[q].serial == target <==> q in from {
        if q < n { assert sites[..n][q] == sites[q]; }
      }
    }
  }

  /** Delays are reported for exactly the sites that have the target serial, in the order of the status. */
  lemma DelaysExactly(sites: seq<Site>, target: Serial, now: int) returns (from: seq<nat>)
    ensures Increasing(from, |sites|) && |from| == |Delays(sites, target, now)|
    ensures forall i :: 0 <= i < |from| ==>
      Delays(sites, target, now)[i] == (sites[from[i]].name, sites[from[i]].timestamp - now)
    ensures forall q :: 0 <= q < |sites| ==> (sites[q].serial == target <==> q in from)
  {
    from := DelayPositions(sites, target, now);
  }

  /** The contents of the report, from the loop's results. */
  ghost predicate ReportFits(w: World, target: Serial, ix: nat, sites: map<Bytes, nat>, report: Report) {
    && EndsAt(Polled(w, target, Last(ix)), ix)
    && Tells(Polled(w, target, Last(ix)), sites)
    && report.output == [Master(target)] + Complaints(Seen(w, target, Last(ix)))
    && report.responseTimes == (if ix > 1 then map k | k in sites :: sites[k] * 4 else map[])
    && (forall k :: k in report.responseTimes ==> report.responseTimes[k] <= 300)
    && report.delays == if ix > 1 && w.dnsNode && w.status(Last(ix)).Some? then
         Delays(w.status(Last(ix)).value.sites, target, w.status(Last(ix)).value.currentTimestamp) else []
  }

  /** The last try of a report. */
  function LastTryOf(ix: nat): nat { if ix <= 75 then ix else 75 }

  /** What `ix` and `sites` say of the servers. */
  ghost predicate Explains(w: World, target: Serial, ix: nat, sites: map<Bytes, nat>) {
    && (forall t :: 1 <= t < ix ==> !Right(w, target, t))
    && (ix <= 75 ==> Right(w, target, ix))
    && (forall k :: k in sites <==> exists t :: 1 <= t <= LastTryOf(ix) && AskedAt(w, t, k))
    && (forall k :: k in sites ==>
          && sites[k] <= LastTryOf(ix)
          && (sites[k] > 0 ==> WrongAt(w, target, sites[k], k))
          && forall t :: sites[k] < t <= LastTryOf(ix) ==> !WrongAt(w, target, t, k))
  }

  lemma Explained(w: World, target: Serial, ix: nat, sites: map<Bytes, nat>)
    requires EndsAt(Polled(w, target, Last(ix)), ix) && (ix <= TRIES ==> !Failed(w, ix))
    requires Tells(Polled(w, target, Last(ix)), sites)
    ensures Explains(w, target, ix, sites)
    ensures forall t :: 1 <= t < ix ==> !Failed(w, t)
  {
    CounterExactly(w, target, ix);
    forall k
      ensures k in sites <==> exists t :: 1 <= t <= LastTryOf(ix) && AskedAt(w, t, k)
      ensures k in sites ==>
        && sites[k] <= LastTryOf(ix)
        && (sites[k] > 0 ==> WrongAt(w, target, sites[k], k))
        && forall t :: sites[k] < t <= LastTryOf(ix) ==> !WrongAt(w, target, t, k)
    {
      EntriesExactly(w, target, Last(ix), sites, k);
    }
  }

  lemma FirstRight(w: World, target: Serial, ix: nat, sites: map<Bytes, nat>)
    requires Explains(w, target, ix, sites) && 1 <= ix <= 76
    ensures ix <= 75 <==> exists t :: 1 <= t <= 75 && Right(w, target, t)
  {
  }

  /** `checkZone`. `known`: the zone is configured; `soa` and `ns` are the answers of its primary. A MessageDone is
      posted except when the SOA or NS query of a known zone fails. `ix` and `sites` are the loop's results. */
  method CheckZone(known: bool, soa: Option<Serial>, ns: Option<seq<Bytes>>, network: World)
    returns (posted: Option<Done>, report: Option<Report>, ix: nat, sites: map<Bytes, nat>)
    ensures posted.None? <==> known && (soa.None? || ns.None?)
    ensures report.Some? ==> posted == Some(Done(false)) && known && soa.Some? && ns.Some?
    ensures posted == Some(Done(false)) ==> report.Some?
    ensures known && soa.Some? && ns.Some? ==>
      var w, target := network.(servers := ns.value), soa.value;
      && 1 <= ix <= 76
      && (forall t :: 1 <= t < ix && t <= 75 ==> !Right(w, target, t) && (w.dnsNode ==> w.status(t).Some?))
      && (report.None? <==> ix <= 75 && w.dnsNode && w.status(ix).None?)
    ensures report.Some? ==>
      var w, target := network.(servers := ns.value), soa.value;
      && Explains(w, target, ix, sites)
      && report.value.returnCode == (if exists t :: 1 <= t <= 75 && Right(w, target, t) then 0 else 1)
    ensures report.Some? ==> ReportFits(network.(servers := ns.value), soa.value, ix, sites, report.value)
  {
    posted, report, ix, sites := None, None, 1, map[];
    if !known {
      posted := Some(Done(true));
      return;
    }
    if soa.None? || ns.None? {
      return;
    }
    report, ix, sites := CheckServers(network.(servers := ns.value), soa.value);
    posted := Some(Done(report.None?));
  }

  /** The part of `checkZone` behind the queries to the primary. No report: the DnsNode API failed in try `ix`. */
  method CheckServers(w: World, target: Serial) returns (report: Option<Report>, ix: nat, sites: map<Bytes, nat>)
    ensures 1 <= ix <= 76
    ensures forall t :: 1 <= t < ix && t <= 75 ==> !Right(w, target, t) && (w.dnsNode ==> w.status(t).Some?)
    ensures report.None? <==> ix <= 75 && w.dnsNode && w.status(ix).None?
    ensures report.Some? ==>
      && Explains(w, target, ix, sites)
      && report.value.returnCode == (if exists t :: 1 <= t <= 75 && Right(w, target, t) then 0 else 1)
    ensures report.Some? ==> ReportFits(w, target, ix, sites, report.value)
  {
    report := None;
    var wrongSerial, output, failed;
    ix, sites, wrongSerial, output, failed := Poll(w, target);
    if failed {
      forall t | 1 <= t < ix ensures !Right(w, target, t) && (w.dnsNode ==> w.status(t).Some?) {
        WrongBefore(w, target, ix - 1, t);
      }
      return;
    }
    Explained(w, target, ix, sites);
    forall t | 1 <= t < ix && t <= 75 ensures w.dnsNode ==> w.status(t).Some? {
      assert !Failed(w, t);
    }
    FirstRight(w, target, ix, sites);
    var result := MakeReport(w, target, ix, sites, wrongSerial, output);
    report := Some(result);
  }

  /** The part of `checkZone` behind the loop. */
  method MakeReport(w: World, target: Serial, ix: nat, sites: map<Bytes, nat>, wrongSerial: bool, output: seq<Line>)
    returns (report: Report)
    requires EndsAt(Polled(w, target, Last(ix)), ix) && Tells(Polled(w, target, Last(ix)), sites)
    requires output == [Master(target)] + Complaints(Seen(w, target, Last(ix)))
    ensures report.returnCode == (if wrongSerial then WARNING else OK) && ReportFits(w, target, ix, sites, report)
  {
    LargestEntry(Polled(w, target, Last(ix)), ix, sites);
    var delays, responseTimes := [], map[];
    if ix > 1 {
      if w.dnsNode && w.status(Last(ix)).Some? {
        delays := CollectDelays(w.status(Last(ix)).value, target);
      }
      responseTimes := map k | k in sites :: sites[k] * PERIOD;
    }
    report := Report(if wrongSerial then WARNING else OK, output, delays, responseTimes);
  }

  method CollectDelays(status: Status, target: Serial) returns (delays: seq<(Bytes, int)>)
    ensures delays == Delays(status.sites, target, status.currentTimestamp)
  {
    delays := [];
    for i := 0 to |status.sites|
      invariant delays == Delays(status.sites[..i], target, status.currentTimestamp)
    {
      var site := status.sites[i];
      assert status.sites[..i + 1][..i] == status.sites[..i];
      if target == site.serial {
        delays := delays + [(site.name, site.timestamp - status.currentTimestamp)];
      }
    }
    assert status.sites[..|status.sites|] == status.sites;
  }
}
