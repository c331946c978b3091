/** A whole session in terms of the bytes typed: which messages are handed over, and how it ends. */
module Conversation {
  import opened Prelude
  import opened Telnet
  import opened Editing
  import opened Session
  import opened Typing

  /** A line as typed, and the bytes that end it. */
  type Line = (Bytes, Bytes)

  predicate EndsLine(e: Bytes) {
    e == [CR] || e == [LF] || e == [CR, LF] || e == [CR, NUL]
  }

  function Stream(lines: seq<Line>): Bytes {
    if lines == [] then [] else lines[0].0 + (lines[0].1 + Stream(lines[1..]))
  }

  /** A line that does not end the session. */
  predicate Said(line: Line) {
    && AllKeyed(line.0) && !QuitsIn(line.0) && EndsLine(line.1)
    && Trim(Typed(line.0)) != "quit" && Trim(Typed(line.0)) != "q"
  }

  predicate AllSaid(lines: seq<Line>) {
    forall i :: 0 <= i < |lines| ==> Said(lines[i])
  }

  function Messages(lines: seq<Line>): (ms: seq<Bytes>)
    ensures |ms| == |lines| && forall i :: 0 <= i < |lines| ==> ms[i] == Trim(Typed(lines[i].0))
  {
    if lines == [] then [] else [Trim(Typed(lines[0].0))] + Messages(lines[1..])
  }

  /** What a session ends on: the end of the stream; a line "quit" or "q", with spaces around it or not; an EOT on an
      empty line. */
  predicate EndsOn(tail: Bytes, end: End) {
    var s := Entered(tail);
    && AllKeyed(s)
    && match end
       case Lost => s == tail && !QuitsIn(s)
       case QuitCommand => s != tail && !QuitsIn(s) && (Trim(Typed(s)) == "quit" || Trim(Typed(s)) == "q")
       case QuitKey => QuitsIn(s)
  }

  // --- Keys ----------------------------------------------------------------------------------------------------

  function KeyTokens(s: Bytes): (toks: seq<Token>)
    ensures |toks| == |s|
  {
    if s == [] then [] else [Key(s[0])] + KeyTokens(s[1..])
  }

  lemma {:induction false} KeyTokensAppend(a: Bytes, b: Bytes)
    ensures KeyTokens(a + b) == KeyTokens(a) + KeyTokens(b)
  {
    if a == [] {
      assert a + b == b;
    } else {
      assert (a + b)[1..] == a[1..] + b;
      KeyTokensAppend(a[1..], b);
    }
  }

  predicate Single(s: Bytes) {
    forall i :: 0 <= i < |s| ==> s[i] != IAC && s[i] != ESC
  }

  lemma {:induction false} TokensOfKeys(s: Bytes, rest: Bytes)
    requires Single(s)
    ensures Tokens(s + rest) == KeyTokens(s) + Tokens(rest)
  {
    if s == [] {
      assert s + rest == rest;
    } else {
      TokensOfKeys(s[1..], rest);
      OneKeyMore(s, rest, 0, i => false);
      Associative([Key(s[0])], KeyTokens(s[1..]), Tokens(rest));
    }
  }

  lemma {:induction false} StreamSingle(lines: seq<Line>)
    requires AllSaid(lines)
    ensures Single(Stream(lines))
  {
    if lines != [] {
      assert Said(lines[0]);
      StreamSingle(lines[1..]);
    }
  }

  // --- One line --------------------------------------------------------------------------------------------------

  lemma {:induction false} ReplayTyped(keys: Keymap, ed: Ed, s: Bytes, toks: seq<Token>)
    requires Types(keys) && AllKeyed(s) && !QuitsFrom(ed.buf, s)
    ensures Replay(keys, ed, KeyTokens(s) + toks) == Replay(keys, ed.(buf := TypedFrom(ed.buf, s)), toks)
    decreases |s|
  {
    var all := KeyTokens(s) + toks;
    if s == [] {
      assert all == toks && ed.(buf := ed.buf) == ed;
    } else {
      assert all[0] == Key(s[0]) && all[1..] == KeyTokens(s[1..]) + toks;
      ReplayTyped(keys, ed.(buf := Edited(ed.buf, s[0])), s[1..], toks);
    }
  }

  lemma {:induction false} ReplayQuits(keys: Keymap, ed: Ed, s: Bytes, toks: seq<Token>)
    requires Types(keys) && AllKeyed(s) && QuitsFrom(ed.buf, s)
    ensures Replay(keys, ed, KeyTokens(s) + toks) == Trace([], ed.history, QuitKey)
    decreases |s|
  {
    var all := KeyTokens(s) + toks;
    assert all[0] == Key(s[0]) && all[1..] == KeyTokens(s[1..]) + toks;
    if !(s[0] == EOT && ed.buf == []) {
      ReplayQuits(keys, ed.(buf := Edited(ed.buf, s[0])), s[1..], toks);
    }
  }

  /** One byte that ends the line. */
  lemma ReplayReturn(keys: Keymap, ed: Ed, b: Byte, toks: seq<Token>)
    requires Submits(keys) && (b == CR || b == LF)
    ensures Replay(keys, ed, [Key(b)] + toks) ==
            ReplayAfter(keys, Result.Line(ed.buf), Recorded(ed.history, ed.buf), toks)
  {
    assert ([Key(b)] + toks)[1..] == toks;
  }

  /** A LF or NUL behind a CR makes no difference. */
  lemma ReplayNewline(keys: Keymap, ed: Ed, b: Byte, toks: seq<Token>)
    requires Submits(keys) && Transparent(keys) && (b == LF || b == NUL)
    ensures Replay(keys, ed, [Key(CR)] + ([Key(b)] + toks)) ==
            ReplayAfter(keys, Result.Line(ed.buf), Recorded(ed.history, ed.buf), toks)
  {
    var more := [Key(b)] + toks;
    ReplayReturn(keys, ed, CR, more);
    SkipAfterCR(keys, Recorded(ed.history, ed.buf), more);
    assert more[1..] == toks;
  }

  lemma ReplayEnd(keys: Keymap, ed: Ed, e: Bytes, toks: seq<Token>)
    requires Submits(keys) && Transparent(keys) && EndsLine(e)
    ensures Replay(keys, ed, KeyTokens(e) + toks) ==
            ReplayAfter(keys, Result.Line(ed.buf), Recorded(ed.history, ed.buf), toks)
  {
    EndTokens(e, toks);
    if |e| == 1 { ReplayReturn(keys, ed, e[0], toks); } else { ReplayNewline(keys, ed, e[1], toks); }
  }

  lemma EndTokens(e: Bytes, toks: seq<Token>)
    requires EndsLine(e)
    ensures KeyTokens(e) + toks == if |e| == 1 then [Key(e[0])] + toks else [Key(CR)] + ([Key(e[1])] + toks)
  {
    if |e| == 2 { assert KeyTokens(e[1..]) == [Key(e[1])]; }
  }

  lemma ReplaySaid(keys: Keymap, history: seq<Bytes>, line: Line, toks: seq<Token>)
    requires Types(keys) && Submits(keys) && Transparent(keys) && Said(line)
    ensures var m, rest := Trim(Typed(line.0)), Replay(keys, Fresh(Recorded(history, Typed(line.0))), toks);
      Replay(keys, Fresh(history), KeyTokens(line.0) + (KeyTokens(line.1) + toks)) ==
      if m == [] then rest else Handed(m, rest)
  {
    ReplayTyped(keys, Fresh(history), line.0, KeyTokens(line.1) + toks);
    ReplayEnd(keys, Ed(Typed(line.0), history, |history|), line.1, toks);
  }

  // --- Any number of lines -------------------------------------------------------------------------------------

  /** The history after these lines. */
  function Remembered(history: seq<Bytes>, lines: seq<Line>): seq<Bytes>
    decreases |lines|
  {
    if lines == [] then history else Remembered(Recorded(history, Typed(lines[0].0)), lines[1..])
  }

  function Led(messages: seq<Bytes>, rest: Trace): Trace {
    rest.(messages := messages + rest.messages)
  }

  lemma {:induction false} ReplayLines(keys: Keymap, history: seq<Bytes>, lines: seq<Line>, toks: seq<Token>)
    requires Types(keys) && Submits(keys) && Transparent(keys) && AllSaid(lines)
    ensures Replay(keys, Fresh(history), KeyTokens(Stream(lines)) + toks) ==
            Led(NonBlank(Messages(lines)), Replay(keys, Fresh(Remembered(history, lines)), toks))
    decreases |lines|
  {
    if lines == [] {
      assert KeyTokens([]) + toks == toks;
      var r := Replay(keys, Fresh(history), toks);
      assert [] + r.messages == r.messages;
    } else {
      var line, more := lines[0], KeyTokens(Stream(lines[1..])) + toks;
      var h := Recorded(history, Typed(line.0));
      assert Said(line);
      StreamTokens(lines, toks);
      ReplaySaid(keys, history, line, more);
      ReplayLines(keys, h, lines[1..], toks);
      LedMore(Trim(Typed(line.0)), Messages(lines[1..]), Replay(keys, Fresh(Remembered(h, lines[1..])), toks));
      assert Messages(lines) == [Trim(Typed(line.0))] + Messages(lines[1..]);
    }
  }

  lemma StreamTokens(lines: seq<Line>, toks: seq<Token>)
    requires lines != []
    ensures KeyTokens(Stream(lines)) + toks ==
            KeyTokens(lines[0].0) + (KeyTokens(lines[0].1) + (KeyTokens(Stream(lines[1..])) + toks))
  {
    KeyTokensAppend(lines[0].0, lines[0].1 + Stream(lines[1..]));
    KeyTokensAppend(lines[0].1, Stream(lines[1..]));
    FourParts(KeyTokens(lines[0].0), KeyTokens(lines[0].1), KeyTokens(Stream(lines[1..])), toks);
  }

  lemma FourParts<T>(a: seq<T>, b: seq<T>, c: seq<T>, d: seq<T>)
    ensures a + (b + c) + d == a + (b + (c + d))
  {
  }

  lemma LedMore(m: Bytes, ms: seq<Bytes>, rest: Trace)
    ensures Led(NonBlank([m] + ms), rest) ==
            if m == [] then Led(NonBlank(ms), rest) else Handed(m, Led(NonBlank(ms), rest))
  {
    assert ([m] + ms)[1..] == ms;
    Associative([m], NonBlank(ms), rest.messages);
  }

  lemma ReplayTail(keys: Keymap, history: seq<Bytes>, tail: Bytes, end: End)
    requires Types(keys) && Submits(keys) && Transparent(keys) && EndsOn(tail, end)
    ensures Replay(keys, Fresh(history), Tokens(tail)).messages == []
    ensures Replay(keys, Fresh(history), Tokens(tail)).end == end
  {
    var s := Entered(tail);
    var rest := tail[|s|..];
    assert tail == s + rest;
    TokensOfKeys(s, rest);
    if end.QuitKey? {
      ReplayQuits(keys, Fresh(history), s, Tokens(rest));
    } else {
      ReplayTyped(keys, Fresh(history), s, Tokens(rest));
      if end.QuitCommand? {
        OneKey(rest, 0, i => false);
        ReplayReturn(keys, Ed(Typed(s), history, |history|), rest[0], Tokens(rest[1..]));
      }
    }
  }

  /** The messages of a session are what its lines make, without the space around them, and blank ones aside: a plain line
      is itself. It ends at the first of a line "quit" or "q", an EOT on an empty line, and the end of the stream. */
  lemma SessionTyped(zones: seq<Bytes>, history: seq<Bytes>, lines: seq<Line>, tail: Bytes, end: End, ls: seq<Lexeme>)
    requires AllSaid(lines) && EndsOn(tail, end) && TokensOf(ls) == Tokens(Stream(lines) + tail)
    ensures var t := Observable(TraceFrom(Keys(zones), history, ls));
      t.messages == NonBlank(Messages(lines)) && t.end == end
  {
    var keys := Keys(zones);
    KeysType(zones);
    KeysSubmit(zones);
    KeysTransparent(zones);
    SessionReplays(keys, history, ls);
    StreamSingle(lines);
    TokensOfKeys(Stream(lines), tail);
    ReplayLines(keys, history, lines, Tokens(tail));
    ReplayTail(keys, Remembered(history, lines), tail, end);
  }

  /** The messages and the end are those that the stream says, in whatever way it is cut into lines. */
  ghost predicate Agrees(stream: Bytes, trace: Trace) {
    forall lines: seq<Line>, tail: Bytes, end: End {:trigger Stream(lines), EndsOn(tail, end)} ::
      stream == Stream(lines) + tail && AllSaid(lines) && EndsOn(tail, end) ==>
        NonBlank(trace.messages) == NonBlank(Messages(lines)) && trace.end == end
  }

  lemma SessionAgrees(zones: seq<Bytes>, history: seq<Bytes>, stream: Bytes, pos: nat, arrived: nat -> bool)
    ensures Agrees(stream, TraceFrom(Keys(zones), history, Lex(stream, pos, arrived)))
  {
    var ls := Lex(stream, pos, arrived);
    LexTokens(stream, pos, arrived);
    forall lines: seq<Line>, tail: Bytes, end: End {:trigger Stream(lines), EndsOn(tail, end)} |
      stream == Stream(lines) + tail && AllSaid(lines) && EndsOn(tail, end)
      ensures NonBlank(TraceFrom(Keys(zones), history, ls).messages) == NonBlank(Messages(lines))
      ensures TraceFrom(Keys(zones), history, ls).end == end
    {
      SessionTyped(zones, history, lines, tail, end, ls);
    }
  }

  /** Exactly the blank messages are left out. */
  lemma {:induction false} NonBlankExactly(a: seq<Bytes>, m: Bytes, b: seq<Bytes>)
    ensures NonBlank(a + ([m] + b)) == NonBlank(a) + ((if m == [] then [] else [m]) + NonBlank(b))
    ensures NonBlank([]) == []
  {
    var all := a + ([m] + b);
    if a == [] {
      assert all == [m] + b && all[1..] == b;
    } else {
      assert all[1..] == a[1..] + ([m] + b);
      NonBlankExactly(a[1..], m, b);
      Associative(if a[0] == [] then [] else [a[0]], NonBlank(a[1..]), (if m == [] then [] else [m]) + NonBlank(b));
    }
  }
}
