/** Every byte that a session sends for the bytes typed. */
module Sending {
  import opened Prelude
  import opened Telnet
  import opened Crlf
  import opened Editing
  import opened Session
  import opened Typing

  /** Lines typed, each with a CR behind it. */
  function Keystrokes(lines: seq<Bytes>): Bytes {
    if lines == [] then [] else lines[0] + ([CR] + Keystrokes(lines[1..]))
  }

  /** What is sent for them: the echo, a newline, the output of the command, and the next prompt. */
  function Answers(output: Console, n: nat, lines: seq<Bytes>): Bytes
    decreases |lines|
  {
    if lines == [] then []
    else EchoFrom([], lines[0]) + "\r\n" + Rewrite(output(n)) + "> " + Answers(output, n + 1, lines[1..])
  }

  /** A line that does not end the session, and that the CR before it takes nothing of. */
  predicate Command(s: Bytes) {
    && AllKeyed(s) && !QuitsIn(s) && (s == [] || s[0] != NUL)
    && Trim(Typed(s)) != "quit" && Trim(Typed(s)) != "q"
  }

  predicate AllCommands(lines: seq<Bytes>) {
    forall i :: 0 <= i < |lines| ==> Command(lines[i])
  }

  /** The last bytes typed are `s`, and then nothing more, or a CR or LF that ends a line "quit" or "q", or an EOT on the
      empty line. */
  predicate Leaving(s: Bytes, rest: Bytes, end: End) {
    && AllKeyed(s) && !QuitsIn(s) && (s == [] || s[0] != NUL)
    && match end
       case Lost => rest == []
       case QuitCommand =>
         rest != [] && (rest[0] == CR || rest[0] == LF) && (Trim(Typed(s)) == "quit" || Trim(Typed(s)) == "q")
       case QuitKey => rest != [] && rest[0] == EOT && Typed(s) == []
  }

  function Farewell(end: End): Bytes {
    match end
    case Lost => []
    case QuitCommand => "\r\nDisconnecting, bye!\r\n"
    case QuitKey => "Disconnecting, bye!\r\n"
  }

  lemma GoodbyeSent()
    ensures Rewrite(GOODBYE) == "Disconnecting, bye!\r\n"
  {
    var text: Bytes := "Disconnecting, bye!";
    RewritePlain(text);
    RewriteSnoc(text, LF);
    assert GOODBYE == text + [LF] && text + [CR, LF] == "Disconnecting, bye!\r\n";
  }

  // --- One line, as keys ---------------------------------------------------------------------------------------

  lemma LineSends(keys: Keymap, output: Console, l: Live, s: Bytes, pos: nat, arrived: nat -> bool, x: Lexeme,
                  ls: seq<Lexeme>, all: seq<Lexeme>)
    requires Types(keys) && Submits(keys) && AtPrompt(l) && Command(s) && x.tok == Key(CR) && Untaken(ls)
    requires all == KeysOf(s, pos, arrived) + ([x] + ls)
    ensures Drive(keys, output, l, all) == Drive(keys, output, OnLine(output, l, s), ls)
  {
    var c := CallOf(l.ed.history, s);
    ReadEntry(keys, l.ed.history, s, pos, arrived, [x] + ls, all);
    Behind(KeysOf(s, pos, arrived), x, ls, all);
    DriveByCall(keys, output, l, all, c, ls);
    AfterCommand(output, l, s);
  }

  /** The call of ReadLine that returns the line typed. */
  function CallOf(history: seq<Bytes>, s: Bytes): Call {
    Call(Result.Line(Typed(s)), Ed(Typed(s), Recorded(history, Typed(s)), |history|), EchoFrom([], s) + "\r\n", |s| + 1)
  }

  lemma AfterCommand(output: Console, l: Live, s: Bytes)
    requires Command(s)
    ensures var c := CallOf(l.ed.history, s);
      AfterLine(output, c.result, Live(c.ed, l.wire + c.wire, l.handed, true)) == OnLine(output, l, s)
  {
  }

  lemma Behind(a: seq<Lexeme>, x: Lexeme, ls: seq<Lexeme>, all: seq<Lexeme>)
    requires all == a + ([x] + ls)
    ensures |all| > |a| && all[|a| + 1..] == ls
  {
  }

  /** The rest of a session after one call of ReadLine. */
  lemma DriveByCall(keys: Keymap, output: Console, l: Live, ls: seq<Lexeme>, c: Call, rest: seq<Lexeme>)
    requires l.open && c == Calls(keys, l.ed, ls) && c.used <= |ls| && rest == ls[c.used..]
    ensures Drive(keys, output, l, ls) ==
            Drive(keys, output, AfterLine(output, c.result, Live(c.ed, l.wire + c.wire, l.handed, true)), rest)
  {
    DriveByLine(keys, output, l, ls);
  }

  lemma EndSends(keys: Keymap, output: Console, history: seq<Bytes>, wire: Bytes, n: nat, s: Bytes, pos: nat,
                 arrived: nat -> bool, ls: seq<Lexeme>, all: seq<Lexeme>)
    requires Types(keys) && Submits(keys) && AllKeyed(s) && !QuitsIn(s)
    requires all == KeysOf(s, pos, arrived) + ls
    ensures var l := Live(Fresh(history), wire, n, true);
      && (ls == [] ==> Drive(keys, output, l, all).wire == wire + EchoFrom([], s))
      && (ls != [] && (ls[0].tok == Key(CR) || ls[0].tok == Key(LF)) && Quits(Trim(Typed(s))) ==>
            Drive(keys, output, l, all).wire == wire + (EchoFrom([], s) + "\r\n") + Rewrite(GOODBYE))
  {
    ReadEntry(keys, history, s, pos, arrived, ls, all);
    DriveByLine(keys, output, Live(Fresh(history), wire, n, true), all);
  }

  lemma ReadQuit(keys: Keymap, history: seq<Bytes>, s: Bytes, pos: nat, arrived: nat -> bool, x: Lexeme, ls: seq<Lexeme>)
    requires Types(keys) && AllKeyed(s) && !QuitsIn(s) && Typed(s) == [] && x.tok == Key(EOT)
    ensures var c := Calls(keys, Fresh(history), KeysOf(s, pos, arrived) + ([x] + ls));
      c.result == CtrlD && c.wire == EchoFrom([], s)
  {
    ReadTyped(keys, Fresh(history), s, pos, arrived, [x] + ls);
    CallStep(keys, Ed([], history, |history|), x, ls);
    WireOne([]);
    assert EchoFrom([], s) + [] == EchoFrom([], s);
  }

  lemma QuitSends(keys: Keymap, output: Console, history: seq<Bytes>, wire: Bytes, n: nat, s: Bytes, pos: nat,
                  arrived: nat -> bool, x: Lexeme, ls: seq<Lexeme>, all: seq<Lexeme>)
    requires Types(keys) && AllKeyed(s) && !QuitsIn(s) && Typed(s) == [] && x.tok == Key(EOT)
    requires all == KeysOf(s, pos, arrived) + ([x] + ls)
    ensures Drive(keys, output, Live(Fresh(history), wire, n, true), all).wire ==
            wire + EchoFrom([], s) + Rewrite(GOODBYE)
  {
    ReadQuit(keys, history, s, pos, arrived, x, ls);
    DriveByLine(keys, output, Live(Fresh(history), wire, n, true), all);
  }

  // --- Any number of lines -------------------------------------------------------------------------------------

  /** The keys of lines typed, of which the first is at `pos`. */
  function LineKeys(lines: seq<Bytes>, pos: nat, arrived: nat -> bool): seq<Lexeme>
    decreases |lines|
  {
    if lines == [] then []
    else
      var s := lines[0];
      KeysOf(s, pos, arrived) +
        ([Lexeme(Key(CR), arrived(pos + |s|))] + LineKeys(lines[1..], pos + |s| + 1, arrived))
  }

  /** The CR before it takes nothing of this. */
  predicate Untaken(ls: seq<Lexeme>) {
    ls == [] || (ls[0].tok != Key(LF) && ls[0].tok != Key(NUL))
  }

  /** A tokenizer, as far as lines typed go. */
  ghost predicate LexesLines(lex: (Bytes, nat) -> seq<Lexeme>, arrived: nat -> bool) {
    forall s: Bytes, more: Bytes, pos: nat {:trigger lex(s + ([CR] + more), pos)} :: AllKeyed(s) ==>
      lex(s + ([CR] + more), pos) ==
      KeysOf(s, pos, arrived) + ([Lexeme(Key(CR), arrived(pos + |s|))] + lex(more, pos + |s| + 1))
  }

  lemma LexLine(s: Bytes, more: Bytes, pos: nat, arrived: nat -> bool)
    requires AllKeyed(s)
    ensures Lex(s + ([CR] + more), pos, arrived) ==
            KeysOf(s, pos, arrived) + ([Lexeme(Key(CR), arrived(pos + |s|))] + Lex(more, pos + |s| + 1, arrived))
  {
    KeyedLex(s, [CR] + more, pos, arrived);
    KeyBefore(CR, more, pos + |s|, arrived);
  }

  lemma {:induction false} LexLines(lex: (Bytes, nat) -> seq<Lexeme>, lines: seq<Bytes>, tail: Bytes, pos: nat,
                                    arrived: nat -> bool)
    requires LexesLines(lex, arrived) && AllCommands(lines)
    ensures lex(Keystrokes(lines) + tail, pos) ==
            LineKeys(lines, pos, arrived) + lex(tail, pos + |Keystrokes(lines)|)
    decreases |lines|
  {
    if lines == [] {
      assert Keystrokes(lines) + tail == tail;
    } else {
      var s, more := lines[0], Keystrokes(lines[1..]);
      assert Command(s);
      Regroup(s, [CR], more, tail);
      LexLines(lex, lines[1..], tail, pos + |s| + 1, arrived);
      Regroup(KeysOf(s, pos, arrived), [Lexeme(Key(CR), arrived(pos + |s|))],
              LineKeys(lines[1..], pos + |s| + 1, arrived),
              lex(tail, pos + |Keystrokes(lines)|));
    }
  }

  lemma Regroup<T>(a: seq<T>, b: seq<T>, c: seq<T>, d: seq<T>)
    ensures a + (b + c) + d == a + (b + (c + d))
  {
  }

  lemma FirstUntaken(lines: seq<Bytes>, pos: nat, arrived: nat -> bool, ls: seq<Lexeme>)
    requires AllCommands(lines) && Untaken(ls)
    ensures Untaken(LineKeys(lines, pos, arrived) + ls)
  {
    if lines != [] { assert Command(lines[0]); }
  }

  /** The session awaits the first key of a line. */
  predicate AtPrompt(l: Live) {
    l.open && l.ed == Fresh(l.ed.history)
  }

  function OnLine(output: Console, l: Live, s: Bytes): Live {
    Live(Fresh(Recorded(l.ed.history, Typed(s))),
         l.wire + (EchoFrom([], s) + "\r\n") + Rewrite(output(l.handed)) + PROMPT, l.handed + 1, true)
  }

  function OnLines(output: Console, l: Live, lines: seq<Bytes>): Live
    decreases |lines|
  {
    if lines == [] then l else OnLines(output, OnLine(output, l, lines[0]), lines[1..])
  }

  /** The rest of a session, as far as lines typed go. */
  ghost predicate ServesLines(drive: (Live, seq<Lexeme>) -> Live, output: Console, arrived: nat -> bool) {
    forall l: Live, s: Bytes, pos: nat, x: Lexeme, ls: seq<Lexeme>
      {:trigger drive(l, KeysOf(s, pos, arrived) + ([x] + ls))} ::
      AtPrompt(l) && Command(s) && x.tok == Key(CR) && Untaken(ls) ==>
        drive(l, KeysOf(s, pos, arrived) + ([x] + ls)) == drive(OnLine(output, l, s), ls)
  }

  lemma FirstLineSends(drive: (Live, seq<Lexeme>) -> Live, output: Console, l: Live, lines: seq<Bytes>, pos: nat,
                       arrived: nat -> bool, ls: seq<Lexeme>)
    requires ServesLines(drive, output, arrived) && AtPrompt(l) && lines != [] && AllCommands(lines) && Untaken(ls)
    ensures drive(l, LineKeys(lines, pos, arrived) + ls) ==
            drive(OnLine(output, l, lines[0]), LineKeys(lines[1..], pos + |lines[0]| + 1, arrived) + ls)
  {
    var s, at := lines[0], pos + |lines[0]| + 1;
    var x, more := Lexeme(Key(CR), arrived(pos + |s|)), LineKeys(lines[1..], at, arrived);
    assert Command(s);
    FirstUntaken(lines[1..], at, arrived, ls);
    Regroup(KeysOf(s, pos, arrived), [x], more, ls);
  }

  lemma {:induction false} LinesSend(drive: (Live, seq<Lexeme>) -> Live, output: Console, l: Live, lines: seq<Bytes>,
                                     pos: nat, arrived: nat -> bool, ls: seq<Lexeme>)
    requires ServesLines(drive, output, arrived) && AtPrompt(l) && AllCommands(lines) && Untaken(ls)
    ensures drive(l, LineKeys(lines, pos, arrived) + ls) == drive(OnLines(output, l, lines), ls)
    decreases |lines|
  {
    if lines == [] {
      assert LineKeys(lines, pos, arrived) + ls == ls;
    } else {
      FirstLineSends(drive, output, l, lines, pos, arrived, ls);
      LinesSend(drive, output, OnLine(output, l, lines[0]), lines[1..], pos + |lines[0]| + 1, arrived, ls);
    }
  }

  lemma {:induction false} OnLinesPrompt(output: Console, l: Live, lines: seq<Bytes>)
    requires AtPrompt(l)
    ensures AtPrompt(OnLines(output, l, lines))
    decreases |lines|
  {
    if lines != [] { OnLinesPrompt(output, OnLine(output, l, lines[0]), lines[1..]); }
  }

  lemma {:induction false} OnLinesWire(output: Console, l: Live, lines: seq<Bytes>)
    ensures OnLines(output, l, lines).wire == l.wire + Answers(output, l.handed, lines)
    decreases |lines|
  {
    if lines == [] {
      assert l.wire + [] == l.wire;
    } else {
      var m := OnLine(output, l, lines[0]);
      assert m.handed == l.handed + 1;
      OnLinesWire(output, m, lines[1..]);
      OneAnswer(output, l, lines);
    }
  }

  lemma OneAnswer(output: Console, l: Live, lines: seq<Bytes>)
    requires lines != []
    ensures OnLine(output, l, lines[0]).wire + Answers(output, l.handed + 1, lines[1..]) ==
            l.wire + Answers(output, l.handed, lines)
  {
    SentParts(l.wire, EchoFrom([], lines[0]), Rewrite(output(l.handed)), Answers(output, l.handed + 1, lines[1..]));
  }

  lemma SentParts(wire: Bytes, echo: Bytes, output: Bytes, more: Bytes)
    ensures wire + (echo + "\r\n") + output + PROMPT + more == wire + (echo + "\r\n" + output + "> " + more)
  {
  }

  lemma TailSends(keys: Keymap, output: Console, history: seq<Bytes>, wire: Bytes, n: nat, s: Bytes, rest: Bytes,
                  end: End, pos: nat, arrived: nat -> bool, ls: seq<Lexeme>, all: seq<Lexeme>)
    requires Types(keys) && Submits(keys) && Leaving(s, rest, end)
    requires all == KeysOf(s, pos, arrived) + ls && (rest == [] ==> ls == [])
    requires rest != [] ==> ls != [] && ls[0].tok == Key(rest[0])
    ensures Drive(keys, output, Live(Fresh(history), wire, n, true), all).wire ==
            wire + EchoFrom([], s) + Farewell(end)
  {
    GoodbyeSent();
    match end
    case Lost =>
      EndSends(keys, output, history, wire, n, s, pos, arrived, ls, all);
      assert wire + EchoFrom([], s) + [] == wire + EchoFrom([], s);
    case QuitCommand =>
      EndSends(keys, output, history, wire, n, s, pos, arrived, ls, all);
      QuitParts(wire, EchoFrom([], s));
    case QuitKey =>
      assert ls == [ls[0]] + ls[1..];
      QuitSends(keys, output, history, wire, n, s, pos, arrived, ls[0], ls[1..], all);
  }

  /** The tokens of what is typed last. */
  lemma LexTail(s: Bytes, rest: Bytes, end: End, pos: nat, arrived: nat -> bool) returns (ls: seq<Lexeme>)
    requires Leaving(s, rest, end)
    ensures Lex(s + rest, pos, arrived) == KeysOf(s, pos, arrived) + ls
    ensures if rest == [] then ls == [] else ls != [] && ls[0].tok == Key(rest[0])
    ensures Untaken(KeysOf(s, pos, arrived) + ls)
  {
    ls := Lex(rest, pos + |s|, arrived);
    KeyedLex(s, rest, pos, arrived);
    if rest != [] { OneKey(rest, pos + |s|, arrived); }
  }

  lemma QuitParts(wire: Bytes, echo: Bytes)
    ensures wire + (echo + "\r\n") + "Disconnecting, bye!\r\n" == wire + echo + "\r\nDisconnecting, bye!\r\n"
  {
    assert "\r\n" + "Disconnecting, bye!\r\n" == "\r\nDisconnecting, bye!\r\n";
  }

  // --- A whole session -----------------------------------------------------------------------------------------

  function DriverOf(zones: seq<Bytes>, output: Console): (Live, seq<Lexeme>) -> Live {
    (l: Live, ls: seq<Lexeme>) => Drive(Keys(zones), output, l, ls)
  }

  lemma DriverServes(zones: seq<Bytes>, output: Console, arrived: nat -> bool)
    ensures ServesLines(DriverOf(zones, output), output, arrived)
  {
    var drive := DriverOf(zones, output);
    forall l: Live, s: Bytes, pos: nat, x: Lexeme, ls: seq<Lexeme>
      {:trigger drive(l, KeysOf(s, pos, arrived) + ([x] + ls))} |
      AtPrompt(l) && Command(s) && x.tok == Key(CR) && Untaken(ls)
      ensures drive(l, KeysOf(s, pos, arrived) + ([x] + ls)) == drive(OnLine(output, l, s), ls)
    {
      KeysType(zones);
      KeysSubmit(zones);
      LineSends(Keys(zones), output, l, s, pos, arrived, x, ls, KeysOf(s, pos, arrived) + ([x] + ls));
    }
  }

  function LexerOf(arrived: nat -> bool): (Bytes, nat) -> seq<Lexeme> {
    (s: Bytes, pos: nat) => Lex(s, pos, arrived)
  }

  lemma LexerLexes(arrived: nat -> bool)
    ensures LexesLines(LexerOf(arrived), arrived)
  {
    var lex := LexerOf(arrived);
    forall s: Bytes, more: Bytes, pos: nat {:trigger lex(s + ([CR] + more), pos)} | AllKeyed(s)
      ensures lex(s + ([CR] + more), pos) ==
              KeysOf(s, pos, arrived) + ([Lexeme(Key(CR), arrived(pos + |s|))] + lex(more, pos + |s| + 1))
    {
      LexLine(s, more, pos, arrived);
    }
  }

  lemma LexSession(lines: seq<Bytes>, s: Bytes, rest: Bytes, end: End, pos: nat, at: nat, arrived: nat -> bool)
    returns (ls: seq<Lexeme>)
    requires AllCommands(lines) && Leaving(s, rest, end) && at == pos + |Keystrokes(lines)|
    ensures Lex(Keystrokes(lines) + (s + rest), pos, arrived) ==
            LineKeys(lines, pos, arrived) + (KeysOf(s, at, arrived) + ls)
    ensures if rest == [] then ls == [] else ls != [] && ls[0].tok == Key(rest[0])
    ensures Untaken(KeysOf(s, at, arrived) + ls)
  {
    var lex := LexerOf(arrived);
    LexerLexes(arrived);
    LexLines(lex, lines, s + rest, pos, arrived);
    assert lex(Keystrokes(lines) + (s + rest), pos) == Lex(Keystrokes(lines) + (s + rest), pos, arrived);
    ls := LexTail(s, rest, end, at, arrived);
    assert lex(s + rest, at) == Lex(s + rest, at, arrived);
  }

  lemma KeysSend(zones: seq<Bytes>, output: Console, l: Live, lines: seq<Bytes>, s: Bytes, rest: Bytes, end: End,
                 pos: nat, at: nat, arrived: nat -> bool, ls: seq<Lexeme>, all: seq<Lexeme>)
    requires AtPrompt(l) && AllCommands(lines) && Leaving(s, rest, end) && Untaken(KeysOf(s, at, arrived) + ls)
    requires if rest == [] then ls == [] else ls != [] && ls[0].tok == Key(rest[0])
    requires all == LineKeys(lines, pos, arrived) + (KeysOf(s, at, arrived) + ls)
    ensures Drive(Keys(zones), output, l, all).wire ==
            l.wire + Answers(output, l.handed, lines) + EchoFrom([], s) + Farewell(end)
  {
    var drive, last := DriverOf(zones, output), KeysOf(s, at, arrived) + ls;
    DriverServes(zones, output, arrived);
    LinesSend(drive, output, l, lines, pos, arrived, last);
    OnLinesPrompt(output, l, lines);
    OnLinesWire(output, l, lines);
    var m := OnLines(output, l, lines);
    assert drive(l, all) == Drive(Keys(zones), output, l, all) && drive(m, last) == Drive(Keys(zones), output, m, last);
    KeysType(zones);
    KeysSubmit(zones);
    TailSends(Keys(zones), output, m.ed.history, m.wire, m.handed, s, rest, end, at, arrived, ls, last);
  }

  /** All that is sent: the negotiation, the banner and the first prompt; for each line its echo, a newline, the output of
      its command and the next prompt; and the echo of what is typed last, with a farewell if that ends the session. */
  lemma SessionSends(zones: seq<Bytes>, output: Console, banner: Bytes, lines: seq<Bytes>, s: Bytes, rest: Bytes,
                     end: End, pos: nat, arrived: nat -> bool)
    requires AllCommands(lines) && Leaving(s, rest, end)
    ensures Drive(Keys(zones), output, Opening(banner), Lex(Keystrokes(lines) + (s + rest), pos, arrived)).wire ==
            Opening(banner).wire + Answers(output, 0, lines) + EchoFrom([], s) + Farewell(end)
  {
    var at := pos + |Keystrokes(lines)|;
    var ls := LexSession(lines, s, rest, end, pos, at, arrived);
    KeysSend(zones, output, Opening(banner), lines, s, rest, end, pos, at, arrived, ls,
             Lex(Keystrokes(lines) + (s + rest), pos, arrived));
  }
}
