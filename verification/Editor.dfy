/** The line editor's behaviour: what each key does, and how a call of ReadLine ends. */
module Editing {
  import opened Prelude
  import opened Telnet
  import opened Crlf
  import Completion

  const PROMPT: Bytes := "> "

  // --- What each key does ------------------------------------------------------------------------------

  /** `histPos` is the history entry being shown; |history| means none. */
  datatype Ed = Ed(buf: Bytes, history: seq<Bytes>, histPos: int)

  datatype Outcome = More | Submitted(line: Bytes) | Quit

  /** The editor after a key, its writes to the connection one by one, and whether ReadLine goes on. */
  datatype Effect = Effect(ed: Ed, writes: seq<Bytes>, outcome: Outcome)

  function Fresh(history: seq<Bytes>): Ed {
    Ed([], history, |history|)
  }

  function TrimLeft(s: Bytes): Bytes {
    if s != [] && s[0] == ' ' then TrimLeft(s[1..]) else s
  }

  function TrimRight(s: Bytes): Bytes {
    if s != [] && s[|s| - 1] == ' ' then TrimRight(s[..|s| - 1]) else s
  }

  /** `strings.TrimSpace`; a line never holds white space other than the space. */
  function Trim(s: Bytes): Bytes {
    TrimRight(TrimLeft(s))
  }

  lemma {:induction false} TrimLeftExactly(s: Bytes) returns (a: nat)
    ensures s == Blanks(a) + TrimLeft(s)
    ensures TrimLeft(s) != [] ==> TrimLeft(s)[0] != ' '
  {
    a := 0;
    if s != [] && s[0] == ' ' {
      var k := TrimLeftExactly(s[1..]);
      a := k + 1;
      assert s == [' '] + (Blanks(k) + TrimLeft(s[1..]));
    }
  }

  lemma {:induction false} TrimRightExactly(s: Bytes) returns (b: nat)
    ensures s == TrimRight(s) + Blanks(b)
    ensures TrimRight(s) != [] ==> TrimRight(s)[|TrimRight(s)| - 1] != ' '
  {
    b := 0;
    if s != [] && s[|s| - 1] == ' ' {
      var k := TrimRightExactly(s[..|s| - 1]);
      b := k + 1;
      assert s == (TrimRight(s[..|s| - 1]) + Blanks(k)) + [' '];
    }
  }

  /** What is trimmed is all the space at both ends, and nothing else. */
  lemma TrimExactly(s: Bytes) returns (a: nat, b: nat)
    ensures s == Blanks(a) + Trim(s) + Blanks(b)
    ensures Trim(s) != [] ==> Trim(s)[0] != ' ' && Trim(s)[|Trim(s)| - 1] != ' '
  {
    var t := TrimLeft(s);
    a := TrimLeftExactly(s);
    b := TrimRightExactly(t);
    if Trim(s) != [] { assert t[0] == Trim(s)[0]; }
  }

  function Remember(history: seq<Bytes>, line: Bytes): seq<Bytes> {
    if Trim(line) != [] && (history == [] || history[|history| - 1] != line) then history + [line] else history
  }

  function Submit(ed: Ed): Effect {
    Effect(ed.(history := Remember(ed.history, ed.buf)), ["\r\n"], Submitted(ed.buf))
  }

  function Backspace(ed: Ed): Effect {
    if ed.buf == [] then Effect(ed, [], More)
    else Effect(ed.(buf := ed.buf[..|ed.buf| - 1]), [[BS, ' ', BS]], More)
  }

  function SetLine(ed: Ed, s: Bytes): Effect {
    var pad := if |ed.buf| > |s| then Blanks(|ed.buf| - |s|) else [];
    Effect(ed.(buf := s), [[CR] + PROMPT + s + pad + [CR] + PROMPT + s], More)
  }

  function Clamp(pos: int, n: nat): nat {
    if pos < 0 then 0 else if pos > n then n else pos
  }

  function HistoryMove(ed: Ed, delta: int): Effect {
    if ed.history == [] then Effect(ed, [], More)
    else
      var pos := Clamp(ed.histPos + delta, |ed.history|);
      SetLine(ed.(histPos := pos), if pos < |ed.history| then ed.history[pos] else [])
  }

  function CompleteWith(ed: Ed, newLine: Bytes, candidates: seq<Bytes>): Effect {
    if |candidates| > 1 then
      Effect(ed.(buf := newLine), ["\r\n" + Completion.Join(candidates, "  ") + "\r\n" + PROMPT + newLine], More)
    else if candidates == [] then Effect(ed, [[BEL]], More)
    else if newLine != ed.buf then SetLine(ed, newLine)
    else Effect(ed, [], More)
  }

  function Complete(ed: Ed, zones: seq<Bytes>): Effect {
    var (newLine, candidates) := Completion.CliComplete(ed.buf, zones);
    CompleteWith(ed, newLine, candidates)
  }

  lemma CompleteGoesOn(ed: Ed, zones: seq<Bytes>)
    ensures Complete(ed, zones).outcome.More?
  {
    var (newLine, candidates) := Completion.CliComplete(ed.buf, zones);
    assert Complete(ed, zones) == CompleteWith(ed, newLine, candidates);
  }

  /** The answer to a negotiation: ECHO and SUPPRESS-GO-AHEAD are agreed to, everything else is refused. */
  function Reply(verb: Byte, opt: Byte): seq<Bytes> {
    if verb == DO then (if opt == OPT_ECHO || opt == OPT_SGA then [[IAC, WILL, opt]] else [[IAC, WONT, opt]])
    else if verb == WILL then [[IAC, DONT, opt]]
    else []
  }

  function Obey(ed: Ed, cmd: Command): Effect {
    match cmd
    case Negotiate(verb, opt) => Effect(ed, Reply(verb, opt), More)
    case EscapedIAC => Effect(ed.(buf := ed.buf + [IAC]), [], More)
    case _ => Effect(ed, [], More)
  }

  function Press(ed: Ed, b: Byte, zones: seq<Bytes>): Effect {
    if b == '\t' || b == '?' then Complete(ed, zones) else PressOther(ed, b)
  }

  /** The keys that do not look for candidates. */
  function PressOther(ed: Ed, b: Byte): Effect {
    if b == CR || b == LF then Submit(ed)
    else if b == DEL || b == BS then Backspace(ed)
    else if b == EOT then Effect(ed, [], if ed.buf == [] then Quit else More)
    else if b < ' ' then Effect(ed, [], More)
    else Effect(ed.(buf := ed.buf + [b]), [[b]], More)
  }

  function Step(ed: Ed, t: Token, zones: seq<Bytes>): Effect {
    match t
    case Key(b) => Press(ed, b, zones)
    case Cmd(cmd) => Obey(ed, cmd)
    case EscapeOther(_) => Effect(ed, [], More)
    case Arrow(b) =>
      if b == 'A' then HistoryMove(ed, -1) else if b == 'B' then HistoryMove(ed, 1) else Effect(ed, [], More)
  }

  /** The editor as a value: what a key does in a state. What follows holds of any such function. */
  type Keymap = (Ed, Token) -> Effect

  function Keys(zones: seq<Bytes>): Keymap {
    (ed: Ed, t: Token) => Step(ed, t, zones)
  }

  // --- Reading a line ----------------------------------------------------------------------------------

  /** A token, and whether its first byte had arrived when the reader stood before it. */
  datatype Lexeme = Lexeme(tok: Token, arrived: bool)

  /** The complete tokens of the remaining stream `s`, which starts at position `pos`. */
  function Lex(s: Bytes, pos: nat, arrived: nat -> bool): seq<Lexeme>
    decreases |s|
  {
    match TokenLength(s)
    case None => []
    case Some(n) => [Lexeme(TokenAt(s), arrived(pos))] + Lex(s[n..], pos + n, arrived)
  }

  function TokensOf(ls: seq<Lexeme>): (toks: seq<Token>)
    ensures |toks| == |ls|
  {
    if ls == [] then [] else [ls[0].tok] + TokensOf(ls[1..])
  }

  lemma TokensOfCons(x: Lexeme, rest: seq<Lexeme>)
    ensures TokensOf([x] + rest) == [x.tok] + TokensOf(rest)
  {
    assert ([x] + rest)[1..] == rest;
  }

  /** Packets do not change the tokens. */
  lemma {:induction false} LexTokens(s: Bytes, pos: nat, arrived: nat -> bool)
    ensures TokensOf(Lex(s, pos, arrived)) == Tokens(s)
    decreases |s|
  {
    var n := TokenLength(s);
    if n.Some? {
      LexTokens(s[n.value..], pos + n.value, arrived);
      TokensOfCons(Lexeme(TokenAt(s), arrived(pos)), Lex(s[n.value..], pos + n.value, arrived));
    }
  }

  datatype Result = Line(line: Bytes) | CtrlD | Disconnected

  /** How a call of ReadLine ends: `used` tokens are consumed and `writes` are written, after the prompt. */
  datatype Read = Read(result: Result, ed: Ed, used: nat, writes: seq<Bytes>)

  /** After a CR, a LF or NUL that has already arrived belongs to it. */
  function Swallowed(ls: seq<Lexeme>): (n: nat)
    ensures n == 1 ==> |ls| > 1
  {
    if |ls| > 1 && ls[0].tok == Key(CR) && ls[1].arrived && (ls[1].tok == Key(LF) || ls[1].tok == Key(NUL)) then 1 else 0
  }

  /** The number of tokens consumed with the first, whose effect is `e`. */
  function Consumed(ls: seq<Lexeme>, e: Effect): (n: nat)
    requires ls != []
    ensures 0 < n <= |ls|
  {
    if e.outcome.Submitted? then 1 + Swallowed(ls) else 1
  }

  /** Only a CR can swallow the byte after it. */
  lemma LexKey(s: Bytes, at: nat, arrived: nat -> bool)
    requires s != [] && s[0] != CR
    ensures var ls := Lex(s, at, arrived); ls != [] ==> forall e: Effect :: Consumed(ls, e) == 1
  {
  }

  lemma LexToken(stream: Bytes, at: nat, arrived: nat -> bool)
    requires at < |stream|
    ensures var s := stream[at..];
      var ls := Lex(s, at, arrived);
      if TokenLength(s).None? then ls == [] else ls != [] && ls[0].tok == TokenAt(s)
  {
  }

  /** What is left when the reader has gone from `at` to `pos`: past the token, or to the end of the stream. */
  lemma LexRest(stream: Bytes, at: nat, pos: nat, arrived: nat -> bool)
    requires at < |stream|
    requires pos == if TokenLength(stream[at..]).None? then |stream| else at + TokenLength(stream[at..]).value
    ensures var ls := Lex(stream[at..], at, arrived);
      Lex(stream[pos..], pos, arrived) == if ls == [] then [] else ls[1..]
  {
    if TokenLength(stream[at..]).Some? {
      assert stream[at..][TokenLength(stream[at..]).value..] == stream[pos..];
    }
  }

  lemma LexNewline(s: Bytes, at: nat, arrived: nat -> bool)
    ensures var ls := Lex(s, at, arrived);
      && (s != [] && (s[0] == LF || s[0] == NUL) ==>
            ls == [Lexeme(Key(s[0]), arrived(at))] + Lex(s[1..], at + 1, arrived))
      && (ls != [] && (ls[0].tok == Key(LF) || ls[0].tok == Key(NUL)) ==>
            s != [] && (s[0] == LF || s[0] == NUL) && ls[0].arrived == arrived(at))
  {
  }

  function Ending(outcome: Outcome): Option<Result> {
    match outcome
    case More => None
    case Submitted(line) => Some(Line(line))
    case Quit => Some(CtrlD)
  }

  /** ReadLine from the editor state `ed`, with the tokens `ls` to come. */
  function ReadFrom(keys: Keymap, ed: Ed, ls: seq<Lexeme>): (r: Read)
    ensures r.used <= |ls|
    ensures r.result.Line? ==> r.used > 0
    decreases |ls|
  {
    if ls == [] then Read(Disconnected, ed, 0, [])
    else
      var e := keys(ed, ls[0].tok);
      if e.outcome.More? then
        var r := ReadFrom(keys, e.ed, ls[1..]);
        Read(r.result, r.ed, 1 + r.used, e.writes + r.writes)
      else Read(Ending(e.outcome).value, e.ed, Consumed(ls, e), e.writes)
  }

  /** What the peer is sent for a series of writes. */
  function Wire(writes: seq<Bytes>): Bytes {
    if writes == [] then [] else Rewrite(writes[0]) + Wire(writes[1..])
  }

  lemma {:induction false} WireAppend(a: seq<Bytes>, b: seq<Bytes>)
    ensures Wire(a + b) == Wire(a) + Wire(b)
  {
    if a == [] {
      assert a + b == b;
    } else {
      WireAppend(a[1..], b);
      assert (a + b)[1..] == a[1..] + b;
      Associative(Rewrite(a[0]), Wire(a[1..]), Wire(b));
    }
  }

  lemma WireAfter(sent: Bytes, a: seq<Bytes>, b: seq<Bytes>)
    ensures sent + Wire(a) + Wire(b) == sent + Wire(a + b)
  {
    WireAppend(a, b);
    Associative(sent, Wire(a), Wire(b));
  }

  lemma WireOne(w: Bytes)
    ensures Wire([w]) == Rewrite(w) && Wire([]) == []
  {
    assert [w][1..] == [];
    assert Rewrite(w) + [] == Rewrite(w);
  }
}
