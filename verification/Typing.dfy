/** What a user gets for the bytes typed: the line that ReadLine returns, and the messages of a session. */
module Typing {
  import opened Prelude
  import opened Telnet
  import opened Crlf
  import opened Editing
  import opened Session
  import Completion

  /** A byte that is put in the line and echoed. */
  predicate Plain(b: Byte) {
    b >= ' ' && b != '?' && b != DEL && b != IAC
  }

  /** A byte that neither ends the line nor completes it nor begins a sequence: DEL, BS, EOT and other control characters
      are among these. */
  predicate Keyed(b: Byte) {
    Plain(b) || b == DEL || (b < ' ' && b != CR && b != LF && b != '\t' && b != ESC)
  }

  predicate AllKeyed(s: Bytes) {
    forall i :: 0 <= i < |s| ==> Keyed(s[i])
  }

  /** The line after one more byte. */
  function Edited(line: Bytes, b: Byte): Bytes {
    if b == DEL || b == BS then (if line == [] then [] else line[..|line| - 1])
    else if b < ' ' then line
    else line + [b]
  }

  function TypedFrom(line: Bytes, s: Bytes): Bytes
    decreases |s|
  {
    if s == [] then line else TypedFrom(Edited(line, s[0]), s[1..])
  }

  /** What is in the line after these bytes. */
  function Typed(s: Bytes): Bytes {
    TypedFrom([], s)
  }

  /** What is sent for one byte, and for all. */
  function Echoed(line: Bytes, b: Byte): Bytes {
    if b == DEL || b == BS then (if line == [] then [] else [BS, ' ', BS])
    else if b < ' ' then []
    else [b]
  }

  function EchoFrom(line: Bytes, s: Bytes): Bytes
    decreases |s|
  {
    if s == [] then [] else Echoed(line, s[0]) + EchoFrom(Edited(line, s[0]), s[1..])
  }

  /** An EOT comes when the line is empty. */
  predicate QuitsFrom(line: Bytes, s: Bytes)
    decreases |s|
  {
    s != [] && ((s[0] == EOT && line == []) || QuitsFrom(Edited(line, s[0]), s[1..]))
  }

  predicate QuitsIn(s: Bytes) {
    QuitsFrom([], s)
  }

  // --- What typing means -----------------------------------------------------------------------------------

  /** Plain bytes are the line, and are echoed as they are. */
  lemma {:induction false} PlainTyped(line: Bytes, s: Bytes)
    requires forall i :: 0 <= i < |s| ==> s[i] >= ' ' && s[i] != '?' && s[i] != DEL && s[i] != IAC
    ensures TypedFrom(line, s) == line + s && EchoFrom(line, s) == s && !QuitsFrom(line, s)
    decreases |s|
  {
    if s == [] {
      assert line + [] == line;
    } else {
      PlainTyped(line + [s[0]], s[1..]);
      Associative(line, [s[0]], s[1..]);
      assert [s[0]] + s[1..] == s;
    }
  }

  lemma {:induction false} TypedAppend(line: Bytes, a: Bytes, b: Bytes)
    ensures TypedFrom(line, a + b) == TypedFrom(TypedFrom(line, a), b)
    decreases |a|
  {
    if a == [] {
      assert a + b == b;
    } else {
      assert (a + b)[1..] == a[1..] + b;
      TypedAppend(Edited(line, a[0]), a[1..], b);
    }
  }

  /** A plain byte is added at the end; a DEL or BS takes back exactly the last byte there is; anything else leaves the
      line as it is. So a plain byte and a DEL behind it make no difference. */
  lemma TypedExactly(s: Bytes, b: Byte)
    requires b != CR && b != LF && b != '\t' && b != ESC && b != '?' && b != IAC
    ensures b >= ' ' && b != DEL ==> Typed(s + [b]) == Typed(s) + [b]
    ensures b == DEL || b == BS ==>
      Typed(s) == Typed(s + [b]) + (if Typed(s) == [] then [] else [Typed(s)[|Typed(s)| - 1]])
    ensures b < ' ' && b != BS ==> Typed(s + [b]) == Typed(s)
    ensures b >= ' ' && b != DEL ==> Typed(s + [b] + [DEL]) == Typed(s) == Typed(s + [b] + [BS])
  {
    TypedOne(s, b);
    TypedOne(s + [b], DEL);
    TypedOne(s + [b], BS);
  }

  lemma TypedOne(s: Bytes, b: Byte)
    ensures Typed(s + [b]) == Edited(Typed(s), b)
  {
    TypedAppend([], s, [b]);
    assert [b][1..] == [];
  }

  lemma {:induction false} QuitsExactly(line: Bytes, s: Bytes)
    ensures QuitsFrom(line, s) <==> exists i :: 0 <= i < |s| && s[i] == EOT && TypedFrom(line, s[..i]) == []
    decreases |s|
  {
    if s != [] {
      var next := Edited(line, s[0]);
      QuitsExactly(next, s[1..]);
      forall i | 0 <= i < |s| - 1 ensures TypedFrom(next, s[1..][..i]) == TypedFrom(line, s[..i + 1]) {
        assert s[..i + 1][1..] == s[1..][..i];
      }
      assert TypedFrom(line, s[..0]) == line;
      if i :| 0 <= i < |s| && s[i] == EOT && TypedFrom(line, s[..i]) == [] {
        if i > 0 { assert s[1..][i - 1] == EOT && TypedFrom(next, s[1..][..i - 1]) == []; }
      }
      if i :| 0 <= i < |s[1..]| && s[1..][i] == EOT && TypedFrom(next, s[1..][..i]) == [] {
        assert s[i + 1] == EOT && TypedFrom(line, s[..i + 1]) == [];
      }
    }
  }

  /** A message is blank iff the line holds nothing but spaces. */
  lemma BlankExactly(s: Bytes)
    ensures Trim(s) == [] <==> forall i :: 0 <= i < |s| ==> s[i] == ' '
  {
    var a, b := TrimExactly(s);
    if Trim(s) != [] { assert s[a] == Trim(s)[0]; }
  }

  // --- One line ----------------------------------------------------------------------------------------------

  /** The bytes before the first CR or LF. */
  function Entered(stream: Bytes): (s: Bytes)
    ensures s <= stream && CR !in s && LF !in s
    ensures |s| < |stream| ==> stream[|s|] == CR || stream[|s|] == LF
  {
    if stream == [] || stream[0] == CR || stream[0] == LF then [] else [stream[0]] + Entered(stream[1..])
  }

  /** What the bytes of a line do. */
  ghost predicate Types(keys: Keymap) {
    forall ed: Ed, b: Byte {:trigger keys(ed, Key(b))} :: Keyed(b) ==>
      var e := keys(ed, Key(b));
      if b == EOT && ed.buf == [] then e == Effect(ed, [], Quit)
      else e.outcome == More && e.ed == ed.(buf := Edited(ed.buf, b)) && Wire(e.writes) == Echoed(ed.buf, b)
  }

  lemma KeysType(zones: seq<Bytes>)
    ensures Types(Keys(zones))
  {
    forall ed: Ed, b: Byte {:trigger Keys(zones)(ed, Key(b))} | Keyed(b)
      ensures var e := Keys(zones)(ed, Key(b));
        if b == EOT && ed.buf == [] then e == Effect(ed, [], Quit)
        else e.outcome == More && e.ed == ed.(buf := Edited(ed.buf, b)) && Wire(e.writes) == Echoed(ed.buf, b)
    {
      PressTypes(zones, ed, b);
    }
  }

  lemma PressTypes(zones: seq<Bytes>, ed: Ed, b: Byte)
    requires Keyed(b)
    ensures var e := Press(ed, b, zones);
      if b == EOT && ed.buf == [] then e == Effect(ed, [], Quit)
      else e.outcome == More && e.ed == ed.(buf := Edited(ed.buf, b)) && Wire(e.writes) == Echoed(ed.buf, b)
  {
    WireOne([BS, ' ', BS]);
    WireOne([b]);
    RewritePlain([BS, ' ', BS]);
    RewritePlain([b]);
  }

  /** The keys of the bytes `s`, of which the first is at `pos`. */
  function KeysOf(s: Bytes, pos: nat, arrived: nat -> bool): (ls: seq<Lexeme>)
    ensures |ls| == |s|
    decreases |s|
  {
    if s == [] then [] else [Lexeme(Key(s[0]), arrived(pos))] + KeysOf(s[1..], pos + 1, arrived)
  }

  /** A byte that begins no sequence is a token by itself. */
  lemma OneKey(s: Bytes, pos: nat, arrived: nat -> bool)
    requires s != [] && s[0] != IAC && s[0] != ESC
    ensures Lex(s, pos, arrived) == [Lexeme(Key(s[0]), arrived(pos))] + Lex(s[1..], pos + 1, arrived)
    ensures Tokens(s) == [Key(s[0])] + Tokens(s[1..])
  {
  }

  lemma OneKeyMore(s: Bytes, rest: Bytes, pos: nat, arrived: nat -> bool)
    requires s != [] && s[0] != IAC && s[0] != ESC
    ensures Lex(s + rest, pos, arrived) == [Lexeme(Key(s[0]), arrived(pos))] + Lex(s[1..] + rest, pos + 1, arrived)
    ensures Tokens(s + rest) == [Key(s[0])] + Tokens(s[1..] + rest)
  {
    OneKey(s + rest, pos, arrived);
    assert (s + rest)[1..] == s[1..] + rest;
  }

  lemma {:induction false} KeyedLex(s: Bytes, rest: Bytes, pos: nat, arrived: nat -> bool)
    requires AllKeyed(s)
    ensures Lex(s + rest, pos, arrived) == KeysOf(s, pos, arrived) + Lex(rest, pos + |s|, arrived)
    decreases |s|
  {
    if s == [] {
      assert s + rest == rest;
    } else {
      KeyedLex(s[1..], rest, pos + 1, arrived);
      KeyedLexStep(s, rest, pos, arrived, Lex(rest, pos + |s|, arrived));
    }
  }

  lemma KeyedLexStep(s: Bytes, rest: Bytes, pos: nat, arrived: nat -> bool, ls: seq<Lexeme>)
    requires s != [] && Keyed(s[0])
    requires Lex(s[1..] + rest, pos + 1, arrived) == KeysOf(s[1..], pos + 1, arrived) + ls
    ensures Lex(s + rest, pos, arrived) == KeysOf(s, pos, arrived) + ls
  {
    OneKeyMore(s, rest, pos, arrived);
    Associative([Lexeme(Key(s[0]), arrived(pos))], KeysOf(s[1..], pos + 1, arrived), ls);
  }

  /** A call of ReadLine: its result, the editor, what it sends, and how many tokens it consumes. */
  datatype Call = Call(result: Result, ed: Ed, wire: Bytes, used: nat)

  function Calls(keys: Keymap, ed: Ed, ls: seq<Lexeme>): Call {
    var r := ReadFrom(keys, ed, ls);
    Call(r.result, r.ed, Wire(r.writes), r.used)
  }

  function After(n: nat, wire: Bytes, c: Call): Call {
    c.(wire := wire + c.wire, used := n + c.used)
  }

  lemma CallStep(keys: Keymap, ed: Ed, x: Lexeme, ls: seq<Lexeme>)
    ensures var e := keys(ed, x.tok);
      Calls(keys, ed, [x] + ls) ==
        if e.outcome.More? then After(1, Wire(e.writes), Calls(keys, e.ed, ls))
        else Call(Ending(e.outcome).value, e.ed, Wire(e.writes), Consumed([x] + ls, e))
  {
    var e := keys(ed, x.tok);
    assert ([x] + ls)[1..] == ls;
    if e.outcome.More? { WireAppend(e.writes, ReadFrom(keys, e.ed, ls).writes); }
  }

  lemma KeyedCall(keys: Keymap, ed: Ed, b: Byte, arrived: bool, ls: seq<Lexeme>)
    requires Types(keys) && Keyed(b)
    ensures var l := Calls(keys, ed, [Lexeme(Key(b), arrived)] + ls);
      if b == EOT && ed.buf == [] then l.result == CtrlD && l.ed == ed
      else l == After(1, Echoed(ed.buf, b), Calls(keys, ed.(buf := Edited(ed.buf, b)), ls))
  {
    CallStep(keys, ed, Lexeme(Key(b), arrived), ls);
  }

  lemma {:induction false} ReadQuits(keys: Keymap, ed: Ed, s: Bytes, pos: nat, arrived: nat -> bool, ls: seq<Lexeme>)
    requires Types(keys) && AllKeyed(s) && QuitsFrom(ed.buf, s)
    ensures var l := Calls(keys, ed, KeysOf(s, pos, arrived) + ls);
      l.result == CtrlD && l.ed.history == ed.history
    decreases |s|
  {
    var x, more := Lexeme(Key(s[0]), arrived(pos)), KeysOf(s[1..], pos + 1, arrived);
    Associative([x], more, ls);
    KeyedCall(keys, ed, s[0], arrived(pos), more + ls);
    if !(s[0] == EOT && ed.buf == []) {
      ReadQuits(keys, ed.(buf := Edited(ed.buf, s[0])), s[1..], pos + 1, arrived, ls);
    }
  }

  /** Without an EOT on an empty line, reading goes on behind the bytes typed. */
  lemma {:induction false} ReadTyped(keys: Keymap, ed: Ed, s: Bytes, pos: nat, arrived: nat -> bool, ls: seq<Lexeme>)
    requires Types(keys) && AllKeyed(s) && !QuitsFrom(ed.buf, s)
    ensures Calls(keys, ed, KeysOf(s, pos, arrived) + ls) ==
            After(|s|, EchoFrom(ed.buf, s), Calls(keys, ed.(buf := TypedFrom(ed.buf, s)), ls))
    decreases |s|
  {
    if s == [] {
      assert [] + ls == ls;
      AfterNothing(Calls(keys, ed, ls));
    } else {
        var x, more := Lexeme(Key(s[0]), arrived(pos)), KeysOf(s[1..], pos + 1, arrived);
      Associative([x], more, ls);
      KeyedCall(keys, ed, s[0], arrived(pos), more + ls);
      ReadTyped(keys, ed.(buf := Edited(ed.buf, s[0])), s[1..], pos + 1, arrived, ls);
      AfterAfter(1, Echoed(ed.buf, s[0]), |s| - 1, EchoFrom(Edited(ed.buf, s[0]), s[1..]),
                   Calls(keys, ed.(buf := TypedFrom(ed.buf, s)), ls));
    }
  }

  lemma AfterNothing(c: Call)
    ensures After(0, [], c) == c
  {
    assert [] + c.wire == c.wire;
  }

  lemma AfterAfter(n: nat, a: Bytes, m: nat, b: Bytes, c: Call)
    ensures After(n, a, After(m, b, c)) == After(n + m, a + b, c)
  {
    Associative(a, b, c.wire);
  }

  /** What is in the history after a line: it is added unless it is blank or the last entry. */
  function Recorded(history: seq<Bytes>, line: Bytes): seq<Bytes> {
    if (exists i :: 0 <= i < |line| && line[i] != ' ') && (history == [] || history[|history| - 1] != line)
    then history + [line] else history
  }

  lemma RememberExactly(history: seq<Bytes>, line: Bytes)
    ensures Remember(history, line) == Recorded(history, line)
  {
    BlankExactly(line);
  }

  lemma SubmitExactly(zones: seq<Bytes>, ed: Ed, b: Byte)
    requires b == CR || b == LF
    ensures var e := Keys(zones)(ed, Key(b));
      e.ed == ed.(history := Recorded(ed.history, ed.buf)) && Wire(e.writes) == "\r\n" && e.outcome == Submitted(ed.buf)
  {
    assert Keys(zones)(ed, Key(b)) == Submit(ed);
    RememberExactly(ed.history, ed.buf);
    WireOne("\r\n");
    RewriteNewline([]);
    assert [] + [CR, LF] == "\r\n";
  }

  ghost predicate Submits(keys: Keymap) {
    forall ed: Ed, b: Byte {:trigger keys(ed, Key(b))} :: b == CR || b == LF ==>
      var e := keys(ed, Key(b));
      e.ed == ed.(history := Recorded(ed.history, ed.buf)) && Wire(e.writes) == "\r\n" && e.outcome == Submitted(ed.buf)
  }

  lemma KeysSubmit(zones: seq<Bytes>)
    ensures Submits(Keys(zones))
  {
    forall ed: Ed, b: Byte {:trigger Keys(zones)(ed, Key(b))} | b == CR || b == LF
      ensures var e := Keys(zones)(ed, Key(b));
        e.ed == ed.(history := Recorded(ed.history, ed.buf)) && Wire(e.writes) == "\r\n" && e.outcome == Submitted(ed.buf)
    {
      SubmitExactly(zones, ed, b);
    }
  }

  /** The first of `ls` submits the line. */
  lemma ReadReturn(keys: Keymap, ed: Ed, ls: seq<Lexeme>)
    requires Submits(keys) && ls != [] && (ls[0].tok == Key(CR) || ls[0].tok == Key(LF))
    ensures Calls(keys, ed, ls) ==
      Call(Line(ed.buf), ed.(history := Recorded(ed.history, ed.buf)), "\r\n", 1 + Swallowed(ls))
  {
    CallStep(keys, ed, ls[0], ls[1..]);
    assert [ls[0]] + ls[1..] == ls;
  }

  lemma ReadToEnd(keys: Keymap, ed: Ed)
    ensures Calls(keys, ed, []) == Call(Disconnected, ed, [], 0)
  {
  }

  /** How a call of ReadLine ends that gets the bytes `s` and then the tokens `ls`. */
  lemma ReadEntry(keys: Keymap, history: seq<Bytes>, s: Bytes, pos: nat, arrived: nat -> bool, ls: seq<Lexeme>,
                  all: seq<Lexeme>)
    requires Types(keys) && Submits(keys) && AllKeyed(s) && !QuitsIn(s) && all == KeysOf(s, pos, arrived) + ls
    ensures var c := Calls(keys, Fresh(history), all);
      && (ls == [] ==> c == Call(Disconnected, Ed(Typed(s), history, |history|), EchoFrom([], s), |s|))
      && (ls != [] && (ls[0].tok == Key(CR) || ls[0].tok == Key(LF)) ==>
            c == Call(Line(Typed(s)), Ed(Typed(s), Recorded(history, Typed(s)), |history|), EchoFrom([], s) + "\r\n",
                      |s| + 1 + Swallowed(ls)))
  {
    var ed := Ed(Typed(s), history, |history|);
    ReadTyped(keys, Fresh(history), s, pos, arrived, ls);
    if ls == [] {
      ReadToEnd(keys, ed);
      assert EchoFrom([], s) + [] == EchoFrom([], s);
    } else if ls[0].tok == Key(CR) || ls[0].tok == Key(LF) {
      ReadReturn(keys, ed, ls);
    }
  }

  /** The bytes taken with a CR or LF: a LF or NUL behind a CR is, if it has arrived. */
  function Taken(stream: Bytes, pos: nat, arrived: nat -> bool): nat
    requires stream != []
  {
    if stream[0] == CR && |stream| > 1 && (stream[1] == LF || stream[1] == NUL) && arrived(pos + 1) then 2 else 1
  }

  lemma TakenExactly(stream: Bytes, pos: nat, arrived: nat -> bool)
    requires stream != [] && (stream[0] == CR || stream[0] == LF)
    ensures var ls := Lex(stream, pos, arrived);
      ls != [] && ls[0].tok == Key(stream[0]) && 1 + Swallowed(ls) == Taken(stream, pos, arrived)
  {
    OneKey(stream, pos, arrived);
    LexNewline(stream[1..], pos + 1, arrived);
  }

  lemma LineTyped(keys: Keymap, history: seq<Bytes>, s: Bytes, rest: Bytes, pos: nat, arrived: nat -> bool)
    requires Types(keys) && Submits(keys) && AllKeyed(s) && !QuitsIn(s) && rest != [] && (rest[0] == CR || rest[0] == LF)
    ensures Calls(keys, Fresh(history), Lex(s + rest, pos, arrived)) ==
            Call(Line(Typed(s)), Ed(Typed(s), Recorded(history, Typed(s)), |history|), EchoFrom([], s) + "\r\n",
                 |s| + Taken(rest, pos + |s|, arrived))
  {
    KeyedLex(s, rest, pos, arrived);
    TakenExactly(rest, pos + |s|, arrived);
    ReadEntry(keys, history, s, pos, arrived, Lex(rest, pos + |s|, arrived), Lex(s + rest, pos, arrived));
  }

  lemma LastTyped(keys: Keymap, history: seq<Bytes>, s: Bytes, pos: nat, arrived: nat -> bool)
    requires Types(keys) && Submits(keys) && AllKeyed(s) && !QuitsIn(s)
    ensures Calls(keys, Fresh(history), Lex(s, pos, arrived)) ==
            Call(Disconnected, Ed(Typed(s), history, |history|), EchoFrom([], s), |s|)
  {
    assert s + [] == s;
    KeyedLex(s, [], pos, arrived);
    ReadEntry(keys, history, s, pos, arrived, [], Lex(s, pos, arrived));
  }

  lemma QuitTyped(keys: Keymap, history: seq<Bytes>, s: Bytes, rest: Bytes, pos: nat, arrived: nat -> bool)
    requires Types(keys) && AllKeyed(s) && QuitsIn(s)
    ensures var c := Calls(keys, Fresh(history), Lex(s + rest, pos, arrived));
      c.result == CtrlD && c.ed.history == history
  {
    KeyedLex(s, rest, pos, arrived);
    ReadQuits(keys, Fresh(history), s, pos, arrived, Lex(rest, pos + |s|, arrived));
  }

  /** What ReadLine returns for the bytes `s`, which a CR or LF follows, or nothing. */
  function ResultOf(s: Bytes, ended: bool): Result {
    if QuitsIn(s) then CtrlD else if ended then Line(Typed(s)) else Disconnected
  }

  /** How a call of ReadLine ends for the bytes before the first CR or LF: at an EOT on an empty line; or with the line
      that the bytes make, which is remembered; or with the stream. */
  lemma ReadLineTyped(zones: seq<Bytes>, history: seq<Bytes>, s: Bytes, rest: Bytes, pos: nat, arrived: nat -> bool)
    requires AllKeyed(s) && (rest == [] || rest[0] == CR || rest[0] == LF)
    ensures var c := Calls(Keys(zones), Fresh(history), Lex(s + rest, pos, arrived));
      && c.result == ResultOf(s, rest != [])
      && c.ed.history == (if c.result.Line? then Recorded(history, Typed(s)) else history)
      && (!c.result.CtrlD? ==> c.wire == EchoFrom([], s) + (if rest == [] then [] else "\r\n"))
      && (c.result.Line? ==> c.used == |s| + Taken(rest, pos + |s|, arrived))
  {
    KeysType(zones);
    KeysSubmit(zones);
    if QuitsIn(s) {
      QuitTyped(Keys(zones), history, s, rest, pos, arrived);
    } else if rest == [] {
      assert s + rest == s && EchoFrom([], s) + [] == EchoFrom([], s);
      LastTyped(Keys(zones), history, s, pos, arrived);
    } else {
      LineTyped(Keys(zones), history, s, rest, pos, arrived);
    }
  }

  /** What ReadLine does with a stream: its result, the history after it, and what is sent after the prompt. */
  ghost predicate Serves(stream: Bytes, before: seq<Bytes>, result: Result, history: seq<Bytes>, sent: Bytes) {
    var s := Entered(stream);
    && (AllKeyed(s) ==> result == ResultOf(s, s != stream))
    && (AllKeyed(s) ==> history == if result.Line? then Recorded(before, Typed(s)) else before)
    && (AllKeyed(s) && !QuitsIn(s) ==> sent == EchoFrom([], s) + (if s == stream then [] else "\r\n"))
    && ((forall i :: 0 <= i < |s| ==> s[i] >= ' ' && s[i] != '?' && s[i] != DEL && s[i] != IAC) && s != stream ==>
          result == Line(s) && sent == s + "\r\n")
  }

  lemma ReadServes(zones: seq<Bytes>, history: seq<Bytes>, stream: Bytes, pos: nat, arrived: nat -> bool)
    ensures var r := ReadFrom(Keys(zones), Fresh(history), Lex(stream, pos, arrived));
      Serves(stream, history, r.result, r.ed.history, Wire(r.writes))
  {
    var s := Entered(stream);
    if AllKeyed(s) {
      assert stream == s + stream[|s|..];
      ReadLineTyped(zones, history, s, stream[|s|..], pos, arrived);
      if forall i :: 0 <= i < |s| ==> s[i] >= ' ' && s[i] != '?' && s[i] != DEL && s[i] != IAC { PlainTyped([], s); }
    }
  }

  // --- Tab and '?' -------------------------------------------------------------------------------------------

  lemma PressCompletes(ed: Ed, b: Byte, zones: seq<Bytes>, e: Effect)
    requires (b == '\t' || b == '?') && e == Complete(ed, zones)
    ensures Press(ed, b, zones) == e
  {
  }

  lemma KeyCompletes(zones: seq<Bytes>, ed: Ed, b: Byte, e: Effect)
    requires (b == '\t' || b == '?') && e == Complete(ed, zones)
    ensures Keys(zones)(ed, Key(b)) == e
  {
    PressCompletes(ed, b, zones, e);
  }

  lemma CompletesWith(zones: seq<Bytes>, ed: Ed)
    ensures var (line, candidates) := Completion.CliComplete(ed.buf, zones);
      Complete(ed, zones) == CompleteWith(ed, line, candidates) && (candidates == [] ==> line == ed.buf)
  {
    var (line, candidates) := Completion.CliComplete(ed.buf, zones);
    assert Complete(ed, zones) == CompleteWith(ed, line, candidates);
    Completion.CandidatesExact(ed.buf, zones);
  }

  /** More than one candidate: they are listed and the line is shown again behind them. One: the line is drawn again,
      padded over the old one, if it has changed. None: a bell, and the line stays. */
  lemma CompleteWithExactly(ed: Ed, line: Bytes, candidates: seq<Bytes>)
    requires candidates == [] ==> line == ed.buf
    ensures var e := CompleteWith(ed, line, candidates);
      && e.outcome == More && e.ed == ed.(buf := line)
      && e.writes ==
         if |candidates| > 1 then ["\r\n" + Completion.Join(candidates, "  ") + "\r\n> " + line]
         else if candidates == [] then [[BEL]]
         else if line == ed.buf then []
         else ["\r> " + line + Blanks(if |ed.buf| > |line| then |ed.buf| - |line| else 0) + "\r> " + line]
  {
    if |candidates| > 1 {
      ListingText("\r\n" + Completion.Join(candidates, "  "), line);
    } else {
      Drawn(line, Blanks(if |ed.buf| > |line| then |ed.buf| - |line| else 0));
      assert Blanks(0) == [];
    }
  }

  lemma ListingText(listing: Bytes, line: Bytes)
    ensures listing + "\r\n" + PROMPT + line == listing + "\r\n> " + line
  {
  }

  lemma Drawn(s: Bytes, pad: Bytes)
    ensures [CR] + PROMPT + s + pad + [CR] + PROMPT + s == "\r> " + s + pad + "\r> " + s
  {
    assert [CR] + PROMPT == "\r> ";
    assert [CR] + PROMPT + s + pad + [CR] + PROMPT == [CR] + PROMPT + s + pad + "\r> ";
  }

  /** The line after Tab or '?' is the completed one. */
  lemma CompletedLine(zones: seq<Bytes>, ed: Ed, b: Byte) returns (line: Bytes)
    requires b == '\t' || b == '?'
    ensures line == Completion.CliComplete(ed.buf, zones).0
    ensures Keys(zones)(ed, Key(b)).outcome == More && Keys(zones)(ed, Key(b)).ed == ed.(buf := line)
  {
    var candidates := Completion.CliComplete(ed.buf, zones).1;
    line := Completion.CliComplete(ed.buf, zones).0;
    CompletesWith(zones, ed);
    KeyCompletes(zones, ed, b, CompleteWith(ed, line, candidates));
    CompleteWithExactly(ed, line, candidates);
  }

  lemma ReadCompleted(keys: Keymap, history: seq<Bytes>, s: Bytes, line: Bytes, pos: nat, arrived: nat -> bool,
                      x: Lexeme, ls: seq<Lexeme>, all: seq<Lexeme>)
    requires Types(keys) && Submits(keys) && AllKeyed(s) && !QuitsIn(s)
    requires var e := keys(Ed(Typed(s), history, |history|), x.tok);
      e.outcome == More && e.ed == Ed(line, history, |history|)
    requires ls != [] && (ls[0].tok == Key(CR) || ls[0].tok == Key(LF))
    requires all == KeysOf(s, pos, arrived) + ([x] + ls)
    ensures Calls(keys, Fresh(history), all).result == Line(line)
  {
    ReadTyped(keys, Fresh(history), s, pos, arrived, [x] + ls);
    CallStep(keys, Ed(Typed(s), history, |history|), x, ls);
    ReadReturn(keys, Ed(line, history, |history|), ls);
  }

  lemma KeyBefore(b: Byte, rest: Bytes, pos: nat, arrived: nat -> bool)
    requires b != IAC && b != ESC
    ensures Lex([b] + rest, pos, arrived) == [Lexeme(Key(b), arrived(pos))] + Lex(rest, pos + 1, arrived)
  {
    OneKey([b] + rest, pos, arrived);
    assert ([b] + rest)[1..] == rest;
  }

  lemma CompletedLex(s: Bytes, b: Byte, rest: Bytes, pos: nat, arrived: nat -> bool) returns (x: Lexeme, ls: seq<Lexeme>)
    requires AllKeyed(s) && b != IAC && b != ESC && rest != [] && (rest[0] == CR || rest[0] == LF)
    ensures Lex(s + ([b] + rest), pos, arrived) == KeysOf(s, pos, arrived) + ([x] + ls)
    ensures x.tok == Key(b) && ls != [] && (ls[0].tok == Key(CR) || ls[0].tok == Key(LF))
  {
    x, ls := Lexeme(Key(b), arrived(pos + |s|)), Lex(rest, pos + |s| + 1, arrived);
    KeyedLex(s, [b] + rest, pos, arrived);
    KeyBefore(b, rest, pos + |s|, arrived);
    TakenExactly(rest, pos + |s| + 1, arrived);
  }

  /** Bytes typed, Tab or '?', and a CR or LF: ReadLine returns the completion of what was typed. */
  lemma TabTyped(zones: seq<Bytes>, history: seq<Bytes>, s: Bytes, b: Byte, rest: Bytes, pos: nat, arrived: nat -> bool)
    requires AllKeyed(s) && !QuitsIn(s) && (b == '\t' || b == '?') && rest != [] && (rest[0] == CR || rest[0] == LF)
    ensures Calls(Keys(zones), Fresh(history), Lex(s + ([b] + rest), pos, arrived)).result ==
            Line(Completion.CliComplete(Typed(s), zones).0)
  {
    var line := CompletedLine(zones, Ed(Typed(s), history, |history|), b);
    var x, ls := CompletedLex(s, b, rest, pos, arrived);
    KeysType(zones);
    KeysSubmit(zones);
    ReadCompleted(Keys(zones), history, s, line, pos, arrived, x, ls, Lex(s + ([b] + rest), pos, arrived));
  }
}
