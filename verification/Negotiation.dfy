/** Option negotiation between the server, which answers without remembering anything and writes through `crlfConn`,
    and any peer that follows RFC 854, "General Considerations": it answers a request only if that is for a mode it is
    not in. */
module Negotiation {
  import opened Prelude
  import opened Telnet
  import opened Crlf
  import Editing

  datatype Message = Message(verb: Byte, opt: Byte)

  /** `remote` and `local`: the options that the peer takes to be in effect at the server's and at its own side;
      `wantsRemote` and `wantsLocal`: those it has asked for, `endsRemote` and `endsLocal`: those it has asked to end, and
      had no answer. `budget`: how many requests of its own the peer will still make. `sent`: how many messages have been
      sent in all. The server has no state: it echoes and suppresses go-aheads whatever `remote` is. */
  datatype State = State(
    toPeer: seq<Message>,
    toServer: seq<Message>,
    remote: set<Byte>,
    wantsRemote: set<Byte>,
    endsRemote: set<Byte>,
    local: set<Byte>,
    wantsLocal: set<Byte>,
    endsLocal: set<Byte>,
    budget: nat,
    sent: nat)

  datatype Action =
    | ServerReads
    | PeerReads(agrees: bool)
    | PeerAsks(m: Message)

  /** The negotiations that the peer finds among the tokens of what it is sent. */
  function Negotiations(toks: seq<Token>): seq<Message> {
    if toks == [] then [] else NegotiationOf(toks[0]) + Negotiations(toks[1..])
  }

  function NegotiationOf(tok: Token): seq<Message> {
    match tok
    case Cmd(Negotiate(verb, opt)) => [Message(verb, opt)]
    case _ => []
  }

  function Decoded(wire: Bytes): seq<Message> {
    Negotiations(Tokens(wire))
  }

  /** After `negotiateTelnet`. */
  function Init(k: nat): State {
    State([Message(WILL, OPT_ECHO), Message(WILL, OPT_SGA), Message(DO, OPT_SGA)], [], {}, {}, {}, {}, {}, {}, k, 3)
  }

  /** The option of an answer as the peer reads it: the connection makes CR LF of a LF. */
  function Received(opt: Byte): Byte {
    if opt == LF then CR else opt
  }

  /** The server's answer as it reaches the peer: ECHO and SUPPRESS-GO-AHEAD are agreed to and everything else is
      refused, but under option 13 if it is 10. */
  function Answer(m: Message): seq<Message> {
    if m.verb == DO then [Message(if Agreed(m.opt) then WILL else WONT, Received(m.opt))]
    else if m.verb == WILL then [Message(DONT, Received(m.opt))]
    else []
  }

  lemma DecodedOne(verb: Byte, opt: Byte)
    requires IsVerb(verb)
    ensures Decoded(Rewrite([IAC, verb, opt])) == [Message(verb, Received(opt))]
    ensures WholeTokens(Rewrite([IAC, verb, opt]))
  {
    RewriteThree(IAC, verb, opt);
    var w, tok := Rewrite([IAC, verb, opt]), Cmd(Negotiate(verb, Received(opt)));
    assert TokenLength(w) == Some(3) && TokenAt(w) == tok;
    var rest := w[3..];
    assert rest == if opt == LF then [LF] else [];
    assert Tokens(rest) == if opt == LF then [Key(LF)] else [];
    assert ([tok] + Tokens(rest))[1..] == Tokens(rest);
    assert Negotiations(Tokens(rest)) == [];
  }

  /** That is what the peer finds in the editor's writes, as the connection rewrites them. */
  lemma AnswerDecoded(m: Message)
    ensures Answer(m) == Decoded(Editing.Wire(Editing.Reply(m.verb, m.opt)))
  {
    Editing.WireOne([]);
    if m.verb == DO || m.verb == WILL {
      var verb := if m.verb == WILL then DONT else if Agreed(m.opt) then WILL else WONT;
      assert Editing.Reply(m.verb, m.opt) == [[IAC, verb, m.opt]];
      Editing.WireOne([IAC, verb, m.opt]);
      DecodedOne(verb, m.opt);
    }
  }

  lemma {:induction false} NegotiationsAppend(a: seq<Token>, b: seq<Token>)
    ensures Negotiations(a + b) == Negotiations(a) + Negotiations(b)
  {
    if a == [] {
      assert a + b == b;
    } else {
      NegotiationsAppend(a[1..], b);
      assert (a + b)[1..] == a[1..] + b;
      Associative(NegotiationOf(a[0]), Negotiations(a[1..]), Negotiations(b));
    }
  }

  /** The initial messages are what the peer finds in the bytes of `negotiateTelnet`, whatever follows them. */
  lemma OpeningDecoded(k: nat, rest: Bytes)
    ensures Decoded(Rewrite([IAC, WILL, OPT_ECHO]) +
                    (Rewrite([IAC, WILL, OPT_SGA]) + (Rewrite([IAC, DO, OPT_SGA]) + rest))) ==
            Init(k).toPeer + Decoded(rest)
  {
    DecodedThen(WILL, OPT_ECHO, Rewrite([IAC, WILL, OPT_SGA]) + (Rewrite([IAC, DO, OPT_SGA]) + rest));
    DecodedThen(WILL, OPT_SGA, Rewrite([IAC, DO, OPT_SGA]) + rest);
    DecodedThen(DO, OPT_SGA, rest);
  }

  lemma DecodedThen(verb: Byte, opt: Byte, rest: Bytes)
    requires IsVerb(verb)
    ensures Decoded(Rewrite([IAC, verb, opt]) + rest) == [Message(verb, Received(opt))] + Decoded(rest)
  {
    DecodedOne(verb, opt);
    TokensAppend(Rewrite([IAC, verb, opt]), rest);
    NegotiationsAppend(Tokens(Rewrite([IAC, verb, opt])), Tokens(rest));
  }

  /** A peer's own request is for a change. */
  predicate MayAsk(s: State, m: Message) {
    s.budget > 0 &&
    if m.verb == DO then m.opt !in s.remote && m.opt !in s.wantsRemote
    else if m.verb == DONT then m.opt in s.remote
    else if m.verb == WILL then m.opt !in s.local && m.opt !in s.wantsLocal
    else m.verb == WONT && m.opt in s.local
  }

  predicate Enabled(s: State, a: Action) {
    match a
    case ServerReads => s.toServer != []
    case PeerReads(_) => s.toPeer != []
    case PeerAsks(m) => MayAsk(s, m)
  }

  function PeerSends(s: State, verb: Byte, opt: Byte): State {
    s.(toServer := s.toServer + [Message(verb, opt)], sent := s.sent + 1)
  }

  /** A WONT or DONT also answers the peer's own request to end the option. */
  function PeerHandles(s: State, m: Message, agrees: bool): State {
    var o := m.opt;
    if m.verb == WILL then
      if o in s.remote then s
      else if o in s.wantsRemote then s.(remote := s.remote + {o}, wantsRemote := s.wantsRemote - {o})
      else if agrees then PeerSends(s.(remote := s.remote + {o}), DO, o)
      else PeerSends(s, DONT, o)
    else if m.verb == WONT then
      var t := s.(endsRemote := s.endsRemote - {o});
      if o in s.wantsRemote then t.(wantsRemote := s.wantsRemote - {o})
      else if o in s.remote then PeerSends(t.(remote := s.remote - {o}), DONT, o)
      else t
    else if m.verb == DO then
      if o in s.local then s
      else if o in s.wantsLocal then s.(local := s.local + {o}, wantsLocal := s.wantsLocal - {o})
      else if agrees then PeerSends(s.(local := s.local + {o}), WILL, o)
      else PeerSends(s, WONT, o)
    else
      var t := s.(endsLocal := s.endsLocal - {o});
      if o in s.wantsLocal then t.(wantsLocal := s.wantsLocal - {o})
      else if o in s.local then PeerSends(t.(local := s.local - {o}), WONT, o)
      else t
  }

  function Next(s: State, a: Action): State
    requires Enabled(s, a)
  {
    match a
    case ServerReads =>
      var answer := Answer(s.toServer[0]);
      s.(toServer := s.toServer[1..], toPeer := s.toPeer + answer, sent := s.sent + |answer|)
    case PeerReads(agrees) => PeerHandles(s.(toPeer := s.toPeer[1..]), s.toPeer[0], agrees)
    case PeerAsks(m) =>
      var t := PeerSends(s.(budget := s.budget - 1), m.verb, m.opt);
      if m.verb == DO then t.(wantsRemote := t.wantsRemote + {m.opt})
      else if m.verb == DONT then t.(remote := t.remote - {m.opt}, endsRemote := t.endsRemote + {m.opt})
      else if m.verb == WILL then t.(wantsLocal := t.wantsLocal + {m.opt})
      else t.(local := t.local - {m.opt}, endsLocal := t.endsLocal + {m.opt})
  }

  predicate IsRun(s: State, run: seq<Action>)
    decreases |run|
  {
    run == [] || (Enabled(s, run[0]) && IsRun(Next(s, run[0]), run[1..]))
  }

  function After(s: State, run: seq<Action>): State
    requires IsRun(s, run)
    decreases |run|
  {
    if run == [] then s else After(Next(s, run[0]), run[1..])
  }

  // --- A bound on the exchange -----------------------------------------------------------------------------

  predicate Agreed(o: Byte) { o == OPT_ECHO || o == OPT_SGA }

  /** The server agrees to nothing but ECHO and SUPPRESS-GO-AHEAD, asks for nothing but the latter, and never gets a
      message about option 10 through. */
  predicate ServerMessage(m: Message) {
    && IsVerb(m.verb) && m.opt != LF
    && (m.verb == WILL ==> Agreed(m.opt))
    && (m.verb == WONT ==> !Agreed(m.opt))
    && (m.verb == DO ==> m.opt == OPT_SGA)
  }

  ghost predicate FromServer(s: State) {
    && (forall m :: m in s.toPeer ==> ServerMessage(m))
    && (forall o :: o in s.remote || o in s.endsRemote ==> Agreed(o))
  }

  function ToPeerWeight(m: Message): nat { if m.verb == DO then 4 else 2 }

  function ToServerWeight(m: Message): nat { if m.verb == DO || m.verb == WILL then 3 else 1 }

  function ToPeerWeights(q: seq<Message>): nat {
    if q == [] then 0 else ToPeerWeight(q[0]) + ToPeerWeights(q[1..])
  }

  function ToServerWeights(q: seq<Message>): nat {
    if q == [] then 0 else ToServerWeight(q[0]) + ToServerWeights(q[1..])
  }

  function Off(s: State, o: Byte): nat { if o in s.remote then 0 else 2 }

  /** An upper bound on how many more steps there can be. */
  function Potential(s: State): nat {
    ToPeerWeights(s.toPeer) + ToServerWeights(s.toServer) + Off(s, OPT_ECHO) + Off(s, OPT_SGA) + 4 * s.budget
  }

  lemma {:induction false} ToPeerPush(q: seq<Message>, m: Message)
    ensures ToPeerWeights(q + [m]) == ToPeerWeights(q) + ToPeerWeight(m)
  {
    if q != [] {
      ToPeerPush(q[1..], m);
      assert (q + [m])[1..] == q[1..] + [m];
    }
  }

  lemma {:induction false} ToServerPush(q: seq<Message>, m: Message)
    ensures ToServerWeights(q + [m]) == ToServerWeights(q) + ToServerWeight(m)
  {
    if q != [] {
      ToServerPush(q[1..], m);
      assert (q + [m])[1..] == q[1..] + [m];
    }
  }

  lemma ServerStep(s: State)
    requires FromServer(s) && s.toServer != []
    ensures var t := Next(s, ServerReads);
      FromServer(t) && Potential(t) < Potential(s) && s.sent <= t.sent <= s.sent + 1
  {
    var answer := Answer(s.toServer[0]);
    if answer == [] {
      assert s.toPeer + answer == s.toPeer;
    } else {
      ToPeerPush(s.toPeer, answer[0]);
      assert s.toPeer + answer == s.toPeer + [answer[0]];
    }
  }

  /** The peer reads about an option at the server's side. */
  lemma PeerReadsOffer(s: State, agrees: bool)
    requires FromServer(s) && s.toPeer != [] && (s.toPeer[0].verb == WILL || s.toPeer[0].verb == WONT)
    ensures var t := Next(s, PeerReads(agrees));
      FromServer(t) && Potential(t) < Potential(s) && s.sent <= t.sent <= s.sent + 1
  {
    var m := s.toPeer[0];
    assert ServerMessage(m);
    ToServerPush(s.toServer, Message(DO, m.opt));
    ToServerPush(s.toServer, Message(DONT, m.opt));
  }

  lemma PeerStep(s: State, agrees: bool)
    requires FromServer(s) && s.toPeer != []
    ensures var t := Next(s, PeerReads(agrees));
      FromServer(t) && Potential(t) < Potential(s) && s.sent <= t.sent <= s.sent + 1
  {
    var m := s.toPeer[0];
    if m.verb == WILL || m.verb == WONT {
      PeerReadsOffer(s, agrees);
    } else {
      ToServerPush(s.toServer, Message(WILL, m.opt));
      ToServerPush(s.toServer, Message(WONT, m.opt));
    }
  }

  lemma AskStep(s: State, m: Message)
    requires FromServer(s) && MayAsk(s, m)
    ensures var t := Next(s, PeerAsks(m));
      FromServer(t) && Potential(t) < Potential(s) && s.sent <= t.sent <= s.sent + 1
  {
    ToServerPush(s.toServer, m);
  }

  lemma {:induction false} RunBounded(s: State, run: seq<Action>)
    requires FromServer(s) && IsRun(s, run)
    ensures var t := After(s, run);
      FromServer(t) && |run| + Potential(t) <= Potential(s) && t.sent <= s.sent + |run|
    decreases |run|
  {
    if run != [] {
      match run[0] {
        case ServerReads => ServerStep(s);
        case PeerReads(agrees) => PeerStep(s, agrees);
        case PeerAsks(m) => AskStep(s, m);
      }
      RunBounded(Next(s, run[0]), run[1..]);
    }
  }

  /** No acknowledgement loop: with a peer that makes `k` requests of its own, whatever it agrees to, at most
      4 * k + 15 messages are ever sent. */
  lemma NegotiationTerminates(k: nat, run: seq<Action>)
    requires IsRun(Init(k), run)
    ensures |run| <= 4 * k + 12 && After(Init(k), run).sent <= 4 * k + 15
  {
    var will1, will3, do3 := Message(WILL, OPT_ECHO), Message(WILL, OPT_SGA), Message(DO, OPT_SGA);
    ToPeerPush([], will1);
    ToPeerPush([will1], will3);
    ToPeerPush([will1, will3], do3);
    assert [] + [will1] == [will1] && [will1] + [will3] == [will1, will3];
    assert Init(k).toPeer == [will1, will3] + [do3];
    RunBounded(Init(k), run);
  }

  // --- Where it ends ---------------------------------------------------------------------------------------

  /** For every option but 10: whatever the peer does, wants to do or has asked to end at its own side, a refusal of it is
      on its way, and whatever it has asked the server to do, an answer. It does nothing about option 10 at its own
      side. */
  ghost predicate AnswersComing(s: State) {
    && s.local !! s.wantsLocal && s.remote !! s.wantsRemote && LF !in s.local && LF !in s.endsLocal
    && (forall o :: InvolvedLocal(s, o) && o != LF ==> RefusalComing(s, o))
    && (forall o :: o in s.wantsRemote && o != LF ==> AnswerComing(s, o))
  }

  predicate InvolvedLocal(s: State, o: Byte) {
    o in s.local || o in s.wantsLocal || o in s.endsLocal
  }

  predicate RefusalComing(s: State, o: Byte) {
    Message(WILL, o) in s.toServer || Message(DONT, o) in s.toPeer
  }

  predicate AnswerComing(s: State, o: Byte) {
    Message(DO, o) in s.toServer || Message(WILL, o) in s.toPeer || Message(WONT, o) in s.toPeer
  }

  lemma QueueHead<T>(q: seq<T>, x: T)
    requires q != [] && x in q
    ensures x == q[0] || x in q[1..]
  {
  }

  lemma ServerAnswers(s: State)
    requires AnswersComing(s) && s.toServer != []
    ensures AnswersComing(Next(s, ServerReads))
  {
    var t, m := Next(s, ServerReads), s.toServer[0];
    forall o | InvolvedLocal(t, o) && o != LF ensures RefusalComing(t, o) {
      assert InvolvedLocal(s, o);
      if Message(WILL, o) in s.toServer { QueueHead(s.toServer, Message(WILL, o)); }
      if m == Message(WILL, o) { assert Message(DONT, o) in Answer(m); }
    }
    forall o | o in t.wantsRemote && o != LF ensures AnswerComing(t, o) {
      if Message(DO, o) in s.toServer { QueueHead(s.toServer, Message(DO, o)); }
      if m == Message(DO, o) { assert Message(if Agreed(o) then WILL else WONT, o) in Answer(m); }
    }
  }

  lemma PeerAnswered(s: State, agrees: bool)
    requires FromServer(s) && AnswersComing(s) && s.toPeer != []
    ensures AnswersComing(Next(s, PeerReads(agrees)))
  {
    var t, m := Next(s, PeerReads(agrees)), s.toPeer[0];
    assert ServerMessage(m);
    forall o | InvolvedLocal(t, o) && o != LF ensures RefusalComing(t, o) {
      if InvolvedLocal(s, o) {
        if Message(DONT, o) in s.toPeer { QueueHead(s.toPeer, Message(DONT, o)); }
      }
    }
    forall o | o in t.wantsRemote && o != LF ensures AnswerComing(t, o) {
      if Message(WILL, o) in s.toPeer { QueueHead(s.toPeer, Message(WILL, o)); }
      if Message(WONT, o) in s.toPeer { QueueHead(s.toPeer, Message(WONT, o)); }
    }
  }

  lemma AskAnswered(s: State, m: Message)
    requires AnswersComing(s) && MayAsk(s, m)
    ensures AnswersComing(Next(s, PeerAsks(m)))
  {
    var t := Next(s, PeerAsks(m));
    forall o | InvolvedLocal(t, o) && o != LF ensures RefusalComing(t, o) {
      assert InvolvedLocal(s, o) || m == Message(WILL, o);
    }
    forall o | o in t.wantsRemote && o != LF ensures AnswerComing(t, o) {
      assert o in s.wantsRemote || m == Message(DO, o);
    }
  }

  /** What the peer has asked about option 10, or asked the server to end, stays open for ever, and is open only if it
      has asked. */
  lemma StepLeavesOpen(s: State, a: Action)
    requires FromServer(s) && Enabled(s, a)
    ensures LF in Next(s, a).wantsLocal <==> LF in s.wantsLocal || a == PeerAsks(Message(WILL, LF))
    ensures LF in Next(s, a).wantsRemote <==> LF in s.wantsRemote || a == PeerAsks(Message(DO, LF))
    ensures forall o :: o in Next(s, a).endsRemote <==> o in s.endsRemote || a == PeerAsks(Message(DONT, o))
  {
    if a.PeerReads? { assert ServerMessage(s.toPeer[0]); }
  }

  lemma StepAnswers(s: State, a: Action)
    requires FromServer(s) && AnswersComing(s) && Enabled(s, a)
    ensures FromServer(Next(s, a)) && AnswersComing(Next(s, a))
  {
    match a
    case ServerReads =>
      ServerStep(s);
      ServerAnswers(s);
    case PeerReads(agrees) =>
      PeerStep(s, agrees);
      PeerAnswered(s, agrees);
    case PeerAsks(m) =>
      AskStep(s, m);
      AskAnswered(s, m);
  }

  lemma {:induction false} RunAnswers(s: State, run: seq<Action>)
    requires FromServer(s) && AnswersComing(s) && IsRun(s, run)
    ensures var t := After(s, run);
      && FromServer(t) && AnswersComing(t)
      && (LF in t.wantsLocal <==> LF in s.wantsLocal || PeerAsks(Message(WILL, LF)) in run)
      && (LF in t.wantsRemote <==> LF in s.wantsRemote || PeerAsks(Message(DO, LF)) in run)
      && (forall o :: o in t.endsRemote <==> o in s.endsRemote || PeerAsks(Message(DONT, o)) in run)
    decreases |run|
  {
    if run != [] {
      StepAnswers(s, run[0]);
      StepLeavesOpen(s, run[0]);
      RunAnswers(Next(s, run[0]), run[1..]);
      assert run == [run[0]] + run[1..];
    }
  }

  /** When all messages have been read: the peer performs nothing, for even SUPPRESS-GO-AHEAD, which the server asked it
      for, is refused when the peer agrees to it, and it takes the server to perform at most ECHO and SUPPRESS-GO-AHEAD.
      Of the peer's requests exactly these have had no answer: those for option 10, and all to end an option at the
      server's side. */
  lemma AtRestExactly(k: nat, run: seq<Action>)
    requires IsRun(Init(k), run) && After(Init(k), run).toPeer == [] && After(Init(k), run).toServer == []
    ensures var t := After(Init(k), run);
      && t.local == {} && t.remote <= {OPT_ECHO, OPT_SGA}
      && t.wantsLocal == (if PeerAsks(Message(WILL, LF)) in run then {LF} else {})
      && t.wantsRemote == (if PeerAsks(Message(DO, LF)) in run then {LF} else {})
      && (forall o :: o in t.endsRemote <==> PeerAsks(Message(DONT, o)) in run)
      && t.endsLocal == {}
  {
    RunAnswers(Init(k), run);
    var t := After(Init(k), run);
    forall o: Byte | o != LF
      ensures o !in t.local && o !in t.wantsLocal && o !in t.endsLocal && o !in t.wantsRemote
    {
      assert !RefusalComing(t, o) && !AnswerComing(t, o);
      assert !InvolvedLocal(t, o);
    }
  }

  /** Such a run: a peer that agrees to the echo, refuses the rest, and asks for an end of the echo. The last message is
      its DONT, which the server reads and neither answers nor obeys: the editor is as it was. */
  lemma EndOfEchoStaysOpen() returns (run: seq<Action>)
    ensures IsRun(Init(1), run) && PeerAsks(Message(DONT, OPT_ECHO)) in run
    ensures var t := After(Init(1), run);
      t.toPeer == [] && t.toServer == [] && t.endsRemote == {OPT_ECHO} && t.remote == {} && t.sent == 8
    ensures forall ed: Editing.Ed :: Editing.Obey(ed, Negotiate(DONT, OPT_ECHO)) == Editing.Effect(ed, [], Editing.More)
  {
    var echo, sga := OPT_ECHO, OPT_SGA;
    var asked := State([], [Message(DONT, echo)], {}, {}, {echo}, {}, {}, {}, 0, 8);
    assert Next(asked, ServerReads) == asked.(toServer := []);
    assert IsRun(asked.(toServer := []), []);
    run := RunFrom(asked, ServerReads, []);
    var echoing := State([], [], {echo}, {}, {}, {}, {}, {}, 1, 7);
    assert Next(echoing, PeerAsks(Message(DONT, echo))) == asked;
    run := RunFrom(echoing, PeerAsks(Message(DONT, echo)), run);
    run := ServerAgreesToEcho(run);
    run := PeerAgreesToEcho(run);
  }

  /** After the peer has read the three offers. */
  function EchoWanted(): State {
    State([], [Message(DO, OPT_ECHO), Message(DONT, OPT_SGA), Message(WONT, OPT_SGA)],
          {OPT_ECHO}, {}, {}, {}, {}, {}, 1, 6)
  }

  lemma PeerAgreesToEcho(rest: seq<Action>) returns (run: seq<Action>)
    requires IsRun(EchoWanted(), rest)
    ensures IsRun(Init(1), run) && After(Init(1), run) == After(EchoWanted(), rest)
    ensures forall a :: a in rest ==> a in run
  {
    var s1 := State(Init(1).toPeer[1..], EchoWanted().toServer[..1], {OPT_ECHO}, {}, {}, {}, {}, {}, 1, 4);
    var s2 := State(Init(1).toPeer[2..], EchoWanted().toServer[..2], {OPT_ECHO}, {}, {}, {}, {}, {}, 1, 5);
    assert Next(Init(1), PeerReads(true)) == s1;
    assert Next(s1, PeerReads(false)) == s2;
    assert Next(s2, PeerReads(false)) == EchoWanted();
    run := RunFrom(s2, PeerReads(false), rest);
    run := RunFrom(s1, PeerReads(false), run);
    run := RunFrom(Init(1), PeerReads(true), run);
  }

  lemma ServerAgreesToEcho(rest: seq<Action>) returns (run: seq<Action>)
    requires IsRun(State([], [], {OPT_ECHO}, {}, {}, {}, {}, {}, 1, 7), rest)
    ensures IsRun(EchoWanted(), run) && forall a :: a in rest ==> a in run
    ensures After(EchoWanted(), run) == After(State([], [], {OPT_ECHO}, {}, {}, {}, {}, {}, 1, 7), rest)
  {
    var s4 := State([Message(WILL, OPT_ECHO)], EchoWanted().toServer[1..], {OPT_ECHO}, {}, {}, {}, {}, {}, 1, 7);
    var s5 := s4.(toServer := EchoWanted().toServer[2..]);
    var s6 := s4.(toServer := []);
    assert Next(EchoWanted(), ServerReads) == s4;
    assert Next(s4, ServerReads) == s5 && Next(s5, ServerReads) == s6;
    assert Next(s6, PeerReads(true)) == s6.(toPeer := []);
    run := RunFrom(s6, PeerReads(true), rest);
    run := RunFrom(s5, ServerReads, run);
    run := RunFrom(s4, ServerReads, run);
    run := RunFrom(EchoWanted(), ServerReads, run);
  }

  /** Another: a peer that asks to perform option 10 and refuses what it is offered. */
  lemma OptionTenStaysOpen() returns (run: seq<Action>)
    ensures IsRun(Init(1), run) && PeerAsks(Message(WILL, LF)) in run
    ensures var t := After(Init(1), run); t.toPeer == [] && t.toServer == [] && t.wantsLocal == {LF}
  {
    var last := State([Message(DONT, CR)], [], {}, {}, {}, {}, {LF}, {}, 0, 8);
    assert Next(last, PeerReads(false)) == last.(toPeer := []);
    assert IsRun(last.(toPeer := []), []);
    var rest := RunFrom(last, PeerReads(false), []);
    rest := ServerReadsAll(rest);
    run := PeerRefusesAll(rest);
  }

  /** After the peer's request and its three refusals. */
  function Refused(): State {
    State([], [Message(WILL, LF), Message(DONT, OPT_ECHO), Message(DONT, OPT_SGA), Message(WONT, OPT_SGA)],
          {}, {}, {}, {}, {LF}, {}, 0, 7)
  }

  lemma PeerRefusesAll(rest: seq<Action>) returns (run: seq<Action>)
    requires IsRun(Refused(), rest)
    ensures run != [] && run[0] == PeerAsks(Message(WILL, LF))
    ensures IsRun(Init(1), run) && After(Init(1), run) == After(Refused(), rest)
  {
    var will1, will3, do3 := Message(WILL, OPT_ECHO), Message(WILL, OPT_SGA), Message(DO, OPT_SGA);
    var s1 := State([will1, will3, do3], Refused().toServer[..1], {}, {}, {}, {}, {LF}, {}, 0, 4);
    var s2 := State([will3, do3], Refused().toServer[..2], {}, {}, {}, {}, {LF}, {}, 0, 5);
    var s3 := State([do3], Refused().toServer[..3], {}, {}, {}, {}, {LF}, {}, 0, 6);
    assert Next(Init(1), PeerAsks(Message(WILL, LF))) == s1;
    assert Next(s1, PeerReads(false)) == s2;
    assert Next(s2, PeerReads(false)) == s3;
    assert Next(s3, PeerReads(false)) == Refused();
    run := RunFrom(s3, PeerReads(false), rest);
    run := RunFrom(s2, PeerReads(false), run);
    run := RunFrom(s1, PeerReads(false), run);
    run := RunFrom(Init(1), PeerAsks(Message(WILL, LF)), run);
  }

  lemma ServerReadsAll(rest: seq<Action>) returns (run: seq<Action>)
    requires IsRun(State([Message(DONT, CR)], [], {}, {}, {}, {}, {LF}, {}, 0, 8), rest)
    ensures IsRun(Refused(), run)
    ensures After(Refused(), run) == After(State([Message(DONT, CR)], [], {}, {}, {}, {}, {LF}, {}, 0, 8), rest)
  {
    var s5 := State([Message(DONT, CR)], Refused().toServer[1..], {}, {}, {}, {}, {LF}, {}, 0, 8);
    var s6 := s5.(toServer := Refused().toServer[2..]);
    var s7 := s5.(toServer := Refused().toServer[3..]);
    assert Next(Refused(), ServerReads) == s5;
    assert Next(s5, ServerReads) == s6 && Next(s6, ServerReads) == s7;
    run := RunFrom(s7, ServerReads, rest);
    run := RunFrom(s6, ServerReads, run);
    run := RunFrom(s5, ServerReads, run);
    run := RunFrom(Refused(), ServerReads, run);
  }

  lemma RunFrom(s: State, a: Action, rest: seq<Action>) returns (run: seq<Action>)
    requires Enabled(s, a) && IsRun(Next(s, a), rest)
    ensures run == [a] + rest && IsRun(s, run) && After(s, run) == After(Next(s, a), rest)
  {
    run := [a] + rest;
    assert run[1..] == rest;
  }
}
