/** A console session: lines are read, trimmed and handed to the event loop until the user quits or disconnects. */
module Session {
  import opened Prelude
  import opened Telnet
  import opened Crlf
  import opened Editing

  const GOODBYE: Bytes := "Disconnecting, bye!\n"

  predicate Quits(message: Bytes) { message == "quit" || message == "q" }

  // --- What is handed to the event loop ------------------------------------------------------------------

  datatype End = QuitKey | QuitCommand | Lost

  /** The messages sent to the event loop, the history at the end, and why the session ended. */
  datatype Trace = Trace(messages: seq<Bytes>, history: seq<Bytes>, end: End)

  function TraceFrom(keys: Keymap, history: seq<Bytes>, ls: seq<Lexeme>): Trace
    decreases |ls|
  {
    var r := ReadFrom(keys, Fresh(history), ls);
    if r.result.Line? && !Quits(Trim(r.result.line)) then
      Handed(Trim(r.result.line), TraceFrom(keys, r.ed.history, ls[r.used..]))
    else Trace([], r.ed.history, EndOf(r.result))
  }

  function Handed(message: Bytes, rest: Trace): Trace {
    rest.(messages := [message] + rest.messages)
  }

  /** Why a session ends with this result of ReadLine; a line that ends it is "quit" or "q". */
  function EndOf(result: Result): End {
    match result
    case Line(_) => QuitCommand
    case CtrlD => QuitKey
    case Disconnected => Lost
  }

  /** An empty message does nothing in `CLI`. */
  function NonBlank(messages: seq<Bytes>): seq<Bytes> {
    if messages == [] then []
    else (if messages[0] == [] then [] else [messages[0]]) + NonBlank(messages[1..])
  }

  function Observable(trace: Trace): Trace {
    trace.(messages := NonBlank(trace.messages))
  }

  // --- Keys alone decide it --------------------------------------------------------------------------------

  /** The session as a function of its keys: no packets, no swallowed byte after a CR, no blank messages. */
  function Replay(keys: Keymap, ed: Ed, toks: seq<Token>): Trace
    decreases |toks|, 0
  {
    if toks == [] then Trace([], ed.history, Lost)
    else
      var e := keys(ed, toks[0]);
      if e.outcome.More? then Replay(keys, e.ed, toks[1..])
      else ReplayAfter(keys, Ending(e.outcome).value, e.ed.history, toks[1..])
  }

  /** How the replay continues after one ReadLine. */
  function ReplayAfter(keys: Keymap, result: Result, history: seq<Bytes>, toks: seq<Token>): Trace
    decreases |toks|, 1
  {
    if result.Line? && !Quits(Trim(result.line)) then
      if Trim(result.line) == [] then Replay(keys, Fresh(history), toks)
      else Handed(Trim(result.line), Replay(keys, Fresh(history), toks))
    else Trace([], history, EndOf(result))
  }

  /** At the start of a line a LF submits a blank line and a NUL is ignored; a telnet command other than an
      escaped 255 leaves the editor as it is. */
  ghost predicate Transparent(keys: Keymap) {
    && (forall history :: keys(Fresh(history), Key(LF)) == Effect(Fresh(history), ["\r\n"], Submitted([])))
    && (forall history :: keys(Fresh(history), Key(NUL)) == Effect(Fresh(history), [], More))
    && (forall ed: Ed, cmd: Command {:trigger keys(ed, Cmd(cmd))} :: !cmd.EscapedIAC? ==>
          keys(ed, Cmd(cmd)).ed == ed && keys(ed, Cmd(cmd)).outcome == More)
  }

  lemma KeysTransparent(zones: seq<Bytes>)
    ensures Transparent(Keys(zones))
  {
    assert Trim([]) == [];
  }

  lemma SkipAfterCR(keys: Keymap, history: seq<Bytes>, toks: seq<Token>)
    requires Transparent(keys) && toks != [] && (toks[0] == Key(LF) || toks[0] == Key(NUL))
    ensures Replay(keys, Fresh(history), toks) == Replay(keys, Fresh(history), toks[1..])
  {
    assert Trim([]) == [];
  }

  lemma {:induction false} TokensOfSuffix(ls: seq<Lexeme>, k: nat)
    requires k <= |ls|
    ensures TokensOf(ls[k..]) == TokensOf(ls)[k..]
    ensures k < |ls| ==> TokensOf(ls)[k] == ls[k].tok
  {
    if k > 0 {
      TokensOfSuffix(ls[1..], k - 1);
      assert ls[1..][k - 1..] == ls[k..];
      assert TokensOf(ls)[1..] == TokensOf(ls[1..]);
    }
  }

  /** A line that is submitted: the swallowed byte makes no difference. */
  lemma LineReplays(keys: Keymap, result: Result, history: seq<Bytes>, ls: seq<Lexeme>)
    requires Transparent(keys) && ls != []
    ensures ReplayAfter(keys, result, history, TokensOf(ls)[1..]) ==
            ReplayAfter(keys, result, history, TokensOf(ls[1 + Swallowed(ls)..]))
  {
    TokensOfSuffix(ls, 1);
    if Swallowed(ls) == 1 {
      TokensOfSuffix(ls, 2);
      TokensOfSuffix(ls[1..], 0);
      SkipAfterCR(keys, history, TokensOf(ls)[1..]);
    }
  }

  /** The replay of a stream is one ReadLine, and then the replay of what is left. */
  lemma {:induction false} ReadLineReplays(keys: Keymap, ed: Ed, ls: seq<Lexeme>)
    requires Transparent(keys)
    ensures var r := ReadFrom(keys, ed, ls);
      Replay(keys, ed, TokensOf(ls)) == ReplayAfter(keys, r.result, r.ed.history, TokensOf(ls[r.used..]))
    decreases |ls|
  {
    if ls != [] {
      var e := keys(ed, ls[0].tok);
      TokensOfSuffix(ls, 1);
      if e.outcome.More? {
        var r := ReadFrom(keys, e.ed, ls[1..]);
        ReadLineReplays(keys, e.ed, ls[1..]);
        assert ls[1..][r.used..] == ls[1 + r.used..];
      } else if e.outcome.Submitted? {
        LineReplays(keys, Line(e.outcome.line), e.ed.history, ls);
      }
    }
  }

  lemma ObservableHanded(message: Bytes, rest: Trace)
    ensures Observable(Handed(message, rest)) ==
            if message == [] then Observable(rest) else Handed(message, Observable(rest))
  {
    assert ([message] + rest.messages)[1..] == rest.messages;
  }

  /** What a session hands to the event loop is determined by its keys. */
  lemma {:induction false} SessionReplays(keys: Keymap, history: seq<Bytes>, ls: seq<Lexeme>)
    requires Transparent(keys)
    ensures Observable(TraceFrom(keys, history, ls)) == Replay(keys, Fresh(history), TokensOf(ls))
    decreases |ls|
  {
    var r := ReadFrom(keys, Fresh(history), ls);
    ReadLineReplays(keys, Fresh(history), ls);
    if r.result.Line? && !Quits(Trim(r.result.line)) {
      SessionReplays(keys, r.ed.history, ls[r.used..]);
      ObservableHanded(Trim(r.result.line), TraceFrom(keys, r.ed.history, ls[r.used..]));
    }
  }

  /** The session on a byte stream, of which the bytes at the positions `arrived` have arrived in time. */
  function SessionOn(zones: seq<Bytes>, history: seq<Bytes>, s: Bytes, arrived: nat -> bool): Trace {
    TraceFrom(Keys(zones), history, Lex(s, 0, arrived))
  }

  lemma SessionFromTokens(zones: seq<Bytes>, history: seq<Bytes>, s: Bytes, arrived: nat -> bool)
    ensures Observable(SessionOn(zones, history, s, arrived)) == Replay(Keys(zones), Fresh(history), Tokens(s))
  {
    KeysTransparent(zones);
    SessionReplays(Keys(zones), history, Lex(s, 0, arrived));
    LexTokens(s, 0, arrived);
  }

  /** Chunking independence: the messages, the history and the end of a session do not depend on how its stream is
      cut into packets. */
  lemma ChunkingIndependent(zones: seq<Bytes>, history: seq<Bytes>, s: Bytes, arrived: nat -> bool, other: nat -> bool)
    ensures Observable(SessionOn(zones, history, s, arrived)) == Observable(SessionOn(zones, history, s, other))
  {
    SessionFromTokens(zones, history, s, arrived);
    SessionFromTokens(zones, history, s, other);
  }

  /** A token that leaves the editor as it is, whatever it writes. */
  ghost predicate Ignored(keys: Keymap, tok: Token) {
    forall ed: Ed :: keys(ed, tok).ed == ed && keys(ed, tok).outcome == More
  }

  lemma {:induction false} ReplayIgnores(keys: Keymap, ed: Ed, before: seq<Token>, tok: Token, after: seq<Token>)
    requires Ignored(keys, tok)
    ensures Replay(keys, ed, before + ([tok] + after)) == Replay(keys, ed, before + after)
    decreases |before|
  {
    var with := before + ([tok] + after);
    if before == [] {
      assert with == [tok] + after && with[1..] == after && before + after == after;
    } else {
      assert with[1..] == before[1..] + ([tok] + after);
      assert (before + after)[1..] == before[1..] + after;
      var e := keys(ed, before[0]);
      ReplayIgnores(keys, if e.outcome.More? then e.ed else Fresh(e.ed.history), before[1..], tok, after);
    }
  }

  /** Command transparency: a telnet command between two keys changes nothing, wherever the packets are cut. */
  lemma CommandTransparent(zones: seq<Bytes>, history: seq<Bytes>, a: Bytes, cmd: Command, b: Bytes,
                           arrived: nat -> bool, other: nat -> bool)
    requires WholeTokens(a) && WellFormed(cmd) && !cmd.EscapedIAC?
    ensures Observable(SessionOn(zones, history, a + (EncodeCommand(cmd) + b), arrived)) ==
            Observable(SessionOn(zones, history, a + b, other))
  {
    var d := TokensAround(a, cmd, b);
    KeysTransparent(zones);
    ReplayIgnores(Keys(zones), Fresh(history), Tokens(a), Cmd(d), Tokens(b));
    SessionFromTokens(zones, history, a + (EncodeCommand(cmd) + b), arrived);
    SessionFromTokens(zones, history, a + b, other);
  }

  lemma TokensAround(a: Bytes, cmd: Command, b: Bytes) returns (d: Command)
    requires WholeTokens(a) && WellFormed(cmd) && !cmd.EscapedIAC?
    ensures !d.EscapedIAC?
    ensures Tokens(a + (EncodeCommand(cmd) + b)) == Tokens(a) + ([Cmd(d)] + Tokens(b))
    ensures Tokens(a + b) == Tokens(a) + Tokens(b)
  {
    TokensOfCommand(cmd, b);
    d :| Tokens(EncodeCommand(cmd)) == [Cmd(d)] && !d.EscapedIAC?;
    TokensAppend(a, b);
    TokensAppend(EncodeCommand(cmd), b);
    TokensAppend(a, EncodeCommand(cmd) + b);
  }

  /** An escape sequence other than `ESC [ A` and `ESC [ B`, or ESC and another byte. */
  predicate OtherEscape(e: Bytes) {
    && |e| >= 2 && e[0] == ESC
    && if e[1] == '[' then |e| == 3 && e[2] != 'A' && e[2] != 'B' else |e| == 2
  }

  lemma EscapeTokens(e: Bytes, rest: Bytes)
    requires OtherEscape(e)
    ensures Tokens(e + rest) == [if |e| == 2 then EscapeOther(e[1]) else Arrow(e[2])] + Tokens(rest)
  {
    assert (e + rest)[|e|..] == rest;
  }

  /** The same holds for escape sequences that are not Up or Down. */
  lemma EscapeTransparent(zones: seq<Bytes>, history: seq<Bytes>, a: Bytes, e: Bytes, b: Bytes,
                          arrived: nat -> bool, other: nat -> bool)
    requires WholeTokens(a) && OtherEscape(e)
    ensures Observable(SessionOn(zones, history, a + (e + b), arrived)) ==
            Observable(SessionOn(zones, history, a + b, other))
  {
    var tok := if |e| == 2 then EscapeOther(e[1]) else Arrow(e[2]);
    EscapeTokens(e, b);
    TokensAppend(a, e + b);
    TokensAppend(a, b);
    ReplayIgnores(Keys(zones), Fresh(history), Tokens(a), tok, Tokens(b));
    SessionFromTokens(zones, history, a + (e + b), arrived);
    SessionFromTokens(zones, history, a + b, other);
  }

  // --- What is sent to the peer --------------------------------------------------------------------------

  /** The output of the n-th console command handed over. */
  type Console = nat -> Bytes

  /** The session's editor, all it has sent, how many lines it has handed over, and whether it goes on. */
  datatype Live = Live(ed: Ed, wire: Bytes, handed: nat, open: bool)

  /** After `negotiateTelnet`, the banner and the first prompt. */
  function Opening(banner: Bytes): Live {
    Live(Fresh([]),
         Rewrite([IAC, WILL, OPT_ECHO]) + Rewrite([IAC, WILL, OPT_SGA]) + Rewrite([IAC, DO, OPT_SGA]) +
           Rewrite(banner) + PROMPT,
         0, true)
  }

  /** One key. */
  function Advance(keys: Keymap, output: Console, l: Live, ls: seq<Lexeme>): Live
    requires ls != []
  {
    AdvanceWith(output, l, keys(l.ed, ls[0].tok))
  }

  /** A key with the effect `e`. */
  function AdvanceWith(output: Console, l: Live, e: Effect): Live {
    var m := Live(e.ed, l.wire + Wire(e.writes), l.handed, true);
    if e.outcome.More? then m else AfterLine(output, Ending(e.outcome).value, m)
  }

  /** After a line the console command writes its output, and ReadLine prompts again. */
  function AfterLine(output: Console, result: Result, l: Live): Live {
    if result.Line? && !Quits(Trim(result.line)) then
      Live(Fresh(l.ed.history), l.wire + Rewrite(output(l.handed)) + PROMPT, l.handed + 1, true)
    else if result.Disconnected? then l.(open := false)
    else l.(wire := l.wire + Rewrite(GOODBYE), open := false)
  }

  /** The rest of a session, key by key. */
  function Drive(keys: Keymap, output: Console, l: Live, ls: seq<Lexeme>): Live
    decreases |ls|
  {
    if !l.open then l
    else if ls == [] then l.(open := false)
    else Drive(keys, output, Advance(keys, output, l, ls), ls[Consumed(ls, keys(l.ed, ls[0].tok))..])
  }

  /** The rest of a session is one ReadLine, and then what is left. */
  lemma {:induction false} DriveByLine(keys: Keymap, output: Console, l: Live, ls: seq<Lexeme>)
    requires l.open
    ensures var r := ReadFrom(keys, l.ed, ls);
      var m := Live(r.ed, l.wire + Wire(r.writes), l.handed, true);
      Drive(keys, output, l, ls) == Drive(keys, output, AfterLine(output, r.result, m), ls[r.used..])
    decreases |ls|
  {
    if ls == [] {
      assert l.wire + Wire([]) == l.wire;
    } else {
      var e := keys(l.ed, ls[0].tok);
      if e.outcome.More? {
        var m := Live(e.ed, l.wire + Wire(e.writes), l.handed, true);
        var r := ReadFrom(keys, e.ed, ls[1..]);
        DriveByLine(keys, output, m, ls[1..]);
        WireAfter(l.wire, e.writes, r.writes);
        assert ls[1..][r.used..] == ls[1 + r.used..];
      }
    }
  }
}
