/** The BECS client's session: a login before the first request that needs one, and request ids. */
module Becs {
  import opened Prelude

  const LOGIN: Bytes := "sessionLogin"
  const LOGOUT: Bytes := "sessionLogout"
  const RDR_GET: Bytes := "rdrGet"

  /** A request as sent; `header` is the session id in its "_header". */
  datatype Request = Request(operation: Bytes, id: nat, header: Option<Bytes>)

  /** What comes back: an error of any kind, a result without a usable session id, or one with. */
  datatype Reply = Failure | Plain | SessionReply(sessionID: Bytes)

  /** The server's reply to the n-th request. */
  type Server = nat -> Reply

  /** The session held after the requests `log`: that of the last successful login, until a logout. */
  function Session(server: Server, log: seq<Request>): Bytes {
    if log == [] then []
    else
      var r := log[|log| - 1];
      if r.operation == LOGOUT then []
      else if r.operation == LOGIN && server(r.id).SessionReply? then server(r.id).sessionID
      else Session(server, log[..|log| - 1])
  }

  function Push(server: Server, log: seq<Request>, operation: Bytes): seq<Request> {
    var s := Session(server, log);
    log + [Request(operation, |log| + 1, if s == [] then None else Some(s))]
  }

  /** The requests after an operation that needs a session. */
  function Perform(server: Server, log: seq<Request>, operation: Bytes): seq<Request> {
    if Session(server, log) != [] then Push(server, log, operation)
    else
      var loggedIn := Push(server, log, LOGIN);
      if Session(server, loggedIn) == [] then loggedIn else Push(server, loggedIn, operation)
  }

  function LogOut(server: Server, log: seq<Request>): seq<Request> {
    if Session(server, log) == [] then log else Push(server, log, LOGOUT)
  }

  /** Requests are numbered 1, 2, 3, ...; a login is sent exactly when no session is held; every other request
      carries the session of the last successful login. */
  ghost predicate Disciplined(server: Server, log: seq<Request>) {
    forall i :: 0 <= i < |log| ==>
      var s := Session(server, log[..i]);
      && log[i].id == i + 1
      && (log[i].operation == LOGIN <==> s == [])
      && log[i].header == if s == [] then None else Some(s)
  }

  lemma PushDisciplined(server: Server, log: seq<Request>, operation: Bytes)
    requires Disciplined(server, log) && (operation == LOGIN <==> Session(server, log) == [])
    ensures Disciplined(server, Push(server, log, operation))
  {
    var more := Push(server, log, operation);
    forall i | 0 <= i < |more|
      ensures more[..i] == log[..i] && (i < |log| ==> more[i] == log[i])
    {
    }
    assert log[..|log|] == log;
  }

  datatype Operation = Query | Logout

  function Trace(server: Server, ops: seq<Operation>): seq<Request> {
    if ops == [] then []
    else
      var log := Trace(server, ops[..|ops| - 1]);
      if ops[|ops| - 1].Query? then Perform(server, log, RDR_GET) else LogOut(server, log)
  }

  /** Over any sequence of queries and logouts, whatever the server replies. */
  lemma {:induction false} SessionTrace(server: Server, ops: seq<Operation>)
    ensures Disciplined(server, Trace(server, ops))
  {
    if ops != [] {
      var log := Trace(server, ops[..|ops| - 1]);
      SessionTrace(server, ops[..|ops| - 1]);
      if ops[|ops| - 1].Logout? {
        if Session(server, log) != [] { PushDisciplined(server, log, LOGOUT); }
      } else if Session(server, log) != [] {
        PushDisciplined(server, log, RDR_GET);
      } else {
        var loggedIn := Push(server, log, LOGIN);
        PushDisciplined(server, log, LOGIN);
        if Session(server, loggedIn) != [] { PushDisciplined(server, loggedIn, RDR_GET); }
      }
    }
  }

  /** Request `i` was the login that gave the session `s`, with no other such login and no logout since. */
  ghost predicate HeldSince(server: Server, log: seq<Request>, i: nat, s: Bytes) {
    && i < |log| && log[i].operation == LOGIN && server(log[i].id) == SessionReply(s)
    && forall j :: i < j < |log| ==>
         log[j].operation != LOGOUT && (log[j].operation == LOGIN ==> !server(log[j].id).SessionReply?)
  }

  lemma {:induction false} SessionExactly(server: Server, log: seq<Request>, s: Bytes)
    requires s != []
    ensures Session(server, log) == s <==> exists i :: HeldSince(server, log, i, s)
  {
    if log != [] {
      var n := |log| - 1;
      SessionExactly(server, log[..n], s);
      if Session(server, log) == s {
        if log[n].operation == LOGIN && server(log[n].id).SessionReply? {
          assert HeldSince(server, log, n, s);
        } else {
          var i: nat :| HeldSince(server, log[..n], i, s);
          assert HeldSince(server, log, i, s);
        }
      }
      if i: nat :| HeldSince(server, log, i, s) {
        if i < n { assert HeldSince(server, log[..n], i, s); }
      }
    }
  }

  function CountOf(log: seq<Request>, operation: Bytes): nat {
    if log == [] then 0
    else CountOf(log[..|log| - 1], operation) + (if log[|log| - 1].operation == operation then 1 else 0)
  }

  lemma PushCount(server: Server, log: seq<Request>, operation: Bytes)
    ensures var more := Push(server, log, operation);
      && log <= more && |more| == |log| + 1 && more[|log|].operation == operation
      && forall o :: CountOf(more, o) == CountOf(log, o) + if o == operation then 1 else 0
  {
    var more := Push(server, log, operation);
    assert more[..|more| - 1] == log;
  }

  /** Each query sends one login if no session is held, and then, iff a session is held after that, itself as its last
      request; a logout sends one request iff a session is held, which is gone then. Nothing is ever taken back. */
  lemma RequestsExactly(server: Server, ops: seq<Operation>, q: nat)
    requires q < |ops|
    ensures var before, after := Trace(server, ops[..q]), Trace(server, ops[..q + 1]);
      var held := Session(server, before) != [];
      && before <= after
      && (ops[q].Query? ==>
            var sent := Session(server, after) != [];
            && (sent ==> after[|after| - 1].operation == RDR_GET)
            && (held ==> sent)
            && CountOf(after, RDR_GET) == CountOf(before, RDR_GET) + (if sent then 1 else 0)
            && CountOf(after, LOGIN) == CountOf(before, LOGIN) + (if held then 0 else 1)
            && |after| == |before| + (if held then 0 else 1) + (if sent then 1 else 0))
      && (ops[q].Logout? ==>
            && (held ==> |after| == |before| + 1 && after[|before|].operation == LOGOUT)
            && (!held ==> after == before)
            && Session(server, after) == [])
  {
    assert ops[..q + 1][..q] == ops[..q];
    var before := Trace(server, ops[..q]);
    PushCount(server, before, LOGIN);
    PushCount(server, before, RDR_GET);
    PushCount(server, before, LOGOUT);
    PushCount(server, Push(server, before, LOGIN), RDR_GET);
    SessionAfter(server, before);
    SessionAfter(server, Push(server, before, LOGIN));
  }

  lemma SessionAfter(server: Server, log: seq<Request>)
    ensures Session(server, Push(server, log, RDR_GET)) == Session(server, log)
    ensures Session(server, Push(server, log, LOGOUT)) == []
  {
    assert Push(server, log, RDR_GET)[..|log|] == log;
  }

  // --- The code ----------------------------------------------------------------------------------------

  class BecsClient {
    const server: Server
    var sessionID: Bytes
    var nextID: nat
    ghost var log: seq<Request>

    ghost predicate Valid()
      reads this
    {
      nextID == |log| && sessionID == Session(server, log)
    }

    constructor (server: Server)
      ensures Valid() && this.server == server && log == []
    {
      this.server := server;
      sessionID, nextID, log := [], 0, [];
    }

    /** `call`. With no session it logs in first, except for the login itself, so the two methods that call each
        other come to an end. */
    method Call(operation: Bytes) returns (reply: Reply)
      requires Valid()
      modifies this
      ensures nextID == |log| && old(log) <= log
      ensures operation == LOGIN ==>
        sessionID == old(sessionID) && log == Push(server, old(log), LOGIN) && reply == server(nextID)
      ensures operation != LOGIN ==>
        && log == Perform(server, old(log), operation)
        && (operation != LOGOUT ==> sessionID == Session(server, log))
        && (sessionID == [] ==> reply == Failure)
        && (sessionID != [] ==> reply == server(nextID))
      ensures operation != LOGIN && sessionID != [] ==>
        log != [] && log[|log| - 1] == Request(operation, nextID, Some(sessionID)) && reply == server(nextID)
      ensures operation != LOGIN && old(sessionID) != [] ==> sessionID == old(sessionID) && nextID == old(nextID) + 1
      ensures operation != LOGIN && old(sessionID) == [] ==>
        && nextID == old(nextID) + (if sessionID == [] then 1 else 2)
        && log[|old(log)|] == Request(LOGIN, old(nextID) + 1, None)
        && (sessionID == [] <==>
              !server(old(nextID) + 1).SessionReply? || server(old(nextID) + 1).sessionID == [])
        && (sessionID != [] ==> server(old(nextID) + 1) == SessionReply(sessionID))
      decreases if operation == LOGIN then 0 else 2
    {
      if operation != LOGIN && sessionID == [] {
        var failed := Login();
        if failed {
          return Failure;
        }
      }
      var header := if sessionID != [] then Some(sessionID) else None;
      nextID := nextID + 1;
      log := log + [Request(operation, nextID, header)];
      reply := server(nextID);
      assert log[..|log| - 1] + [log[|log| - 1]] == log;
    }

    method Login() returns (failed: bool)
      requires Valid() && sessionID == []
      modifies this
      ensures Valid() && log == Push(server, old(log), LOGIN)
      ensures nextID == old(nextID) + 1 && log == old(log) + [Request(LOGIN, nextID, None)]
      ensures failed <==> !server(nextID).SessionReply? || server(nextID).sessionID == []
      ensures sessionID == if failed then [] else server(nextID).sessionID
      decreases 1
    {
      var reply := Call(LOGIN);
      assert log[..|log| - 1] == old(log);
      if reply.SessionReply? && reply.sessionID != [] {
        sessionID := reply.sessionID;
        failed := false;
      } else {
        failed := true;
      }
    }

    /** `rdrGet` as far as the session is concerned. */
    method RdrGet() returns (reply: Reply)
      requires Valid()
      modifies this
      ensures Valid() && log == Perform(server, old(log), RDR_GET) && old(log) <= log
      ensures reply == if sessionID == [] then Failure else server(nextID)
      ensures sessionID != [] ==> log != [] && log[|log| - 1] == Request(RDR_GET, nextID, Some(sessionID))
      ensures if old(sessionID) != [] then sessionID == old(sessionID) && nextID == old(nextID) + 1
        else
          && nextID == old(nextID) + (if sessionID == [] then 1 else 2)
          && log[|old(log)|] == Request(LOGIN, old(nextID) + 1, None)
          && (sessionID == [] <==>
                !server(old(nextID) + 1).SessionReply? || server(old(nextID) + 1).sessionID == [])
    {
      reply := Call(RDR_GET);
    }

    /** The reply to the logout does not matter: the session is given up. */
    method Logout()
      requires Valid()
      modifies this
      ensures Valid() && sessionID == [] && log == LogOut(server, old(log))
      ensures log == if old(sessionID) == [] then old(log)
        else old(log) + [Request(LOGOUT, old(nextID) + 1, Some(old(sessionID)))]
    {
      if sessionID == [] {
        return;
      }
      var _ := Call(LOGOUT);
      sessionID := [];
    }
  }
}
