/** The history: what it holds after any session, and what the arrow keys show of it. */
module HistoryMachine {
  import opened Prelude
  import opened Telnet
  import opened Editing
  import opened Session
  import Completion

  /** No entry is blank and no two neighbours are equal. */
  predicate Distinctive(history: seq<Bytes>) {
    && (forall i :: 0 <= i < |history| ==> Trim(history[i]) != [])
    && (forall i :: 0 < i < |history| ==> history[i - 1] != history[i])
  }

  predicate Consistent(ed: Ed) {
    0 <= ed.histPos <= |ed.history| && Distinctive(ed.history)
  }

  lemma SubmitKeepsHistory(ed: Ed)
    requires Consistent(ed)
    ensures var e := Submit(ed).ed;
      Consistent(e) && (e.history == ed.history || e.history == ed.history + [ed.buf])
  {
  }

  lemma CompleteKeepsHistory(zones: seq<Bytes>, ed: Ed)
    ensures Complete(ed, zones).ed.history == ed.history && Complete(ed, zones).ed.histPos == ed.histPos
  {
    var (newLine, candidates) := Completion.CliComplete(ed.buf, zones);
    assert Complete(ed, zones) == CompleteWith(ed, newLine, candidates);
  }

  lemma PressKeepsHistory(zones: seq<Bytes>, ed: Ed, b: Byte)
    ensures var e := Editing.Press(ed, b, zones);
      if b == CR || b == LF then e == Submit(ed)
      else e.ed.history == ed.history && e.ed.histPos == ed.histPos
  {
    var e := Editing.Press(ed, b, zones);
    if b == CR || b == LF {
    } else if b == DEL || b == BS {
      assert e == Backspace(ed);
    } else if b == EOT {
    } else if b == '\t' || b == '?' {
      assert e == Complete(ed, zones);
      CompleteKeepsHistory(zones, ed);
      CompleteGoesOn(ed, zones);
    } else if b < ' ' {
    } else {
      assert e.ed == ed.(buf := ed.buf + [b]);
    }
  }

  /** One key keeps the history consistent, and at most appends the submitted line to it. */
  lemma StepKeepsHistory(zones: seq<Bytes>, ed: Ed, tok: Token)
    requires Consistent(ed)
    ensures var e := Step(ed, tok, zones);
      && Consistent(e.ed)
      && (e.ed.history == ed.history || (e.outcome == Submitted(ed.buf) && e.ed.history == ed.history + [ed.buf]))
  {
    match tok
    case Key(b) =>
      PressKeepsHistory(zones, ed, b);
      SubmitKeepsHistory(ed);
    case _ =>
  }

  /** Over any keys, any number of lines and any console output: the position stays within the history, which only
      grows at its end and never holds a blank entry or two equal neighbours. */
  lemma {:induction false} SessionKeepsHistory(zones: seq<Bytes>, output: Console, l: Live, ls: seq<Lexeme>)
    requires Consistent(l.ed)
    ensures var m := Drive(Keys(zones), output, l, ls);
      Consistent(m.ed) && l.ed.history <= m.ed.history
    decreases |ls|
  {
    if l.open && ls != [] {
      StepKeepsHistory(zones, l.ed, ls[0].tok);
      var e := Keys(zones)(l.ed, ls[0].tok);
      SessionKeepsHistory(zones, output, Advance(Keys(zones), output, l, ls), ls[Consumed(ls, e)..]);
    }
  }

  // --- The arrow keys --------------------------------------------------------------------------------------

  const UP := Arrow('A')
  const DOWN := Arrow('B')

  function Press(keys: Keymap, ed: Ed, toks: seq<Token>): Ed {
    if toks == [] then ed
    else keys(Press(keys, ed, toks[..|toks| - 1]), toks[|toks| - 1]).ed
  }

  /** The entry at a position; behind the last one the line is empty. */
  function Entry(history: seq<Bytes>, pos: nat): Bytes {
    if pos < |history| then history[pos] else []
  }

  function Min(a: int, b: int): int { if a <= b then a else b }
  function Max(a: int, b: int): int { if a >= b then a else b }

  /** `k` times up and then `j` times down. */
  function UpsDowns(k: nat, j: nat): seq<Token> {
    if j > 0 then UpsDowns(k, j - 1) + [DOWN]
    else if k > 0 then UpsDowns(k - 1, 0) + [UP]
    else []
  }

  /** `ed` shows the history entry at `pos`. */
  predicate At(ed: Ed, history: seq<Bytes>, pos: nat) {
    ed.history == history && ed.histPos == pos && pos <= |history| && ed.buf == Entry(history, pos)
  }

  lemma MoveOnce(zones: seq<Bytes>, ed: Ed, history: seq<Bytes>, pos: nat)
    requires At(ed, history, pos)
    ensures At(Step(ed, UP, zones).ed, history, Max(0, pos - 1))
    ensures At(Step(ed, DOWN, zones).ed, history, Min(|history|, pos + 1))
  {
  }

  /** The line is the entry at the editor's position. */
  predicate Shown(ed: Ed) {
    0 <= ed.histPos && At(ed, ed.history, ed.histPos)
  }

  /** The arrow keys move in the history and go on with the line. */
  ghost predicate Moves(keys: Keymap) {
    forall ed: Ed, tok {:trigger keys(ed, tok)} :: (tok == UP || tok == DOWN) && Shown(ed) ==>
      && keys(ed, tok).outcome.More?
      && At(keys(ed, tok).ed, ed.history,
            if tok == UP then Max(0, ed.histPos - 1) else Min(|ed.history|, ed.histPos + 1))
  }

  lemma KeysMove(zones: seq<Bytes>)
    ensures Moves(Keys(zones))
  {
    forall ed: Ed, tok {:trigger Keys(zones)(ed, tok)} | (tok == UP || tok == DOWN) && Shown(ed)
      ensures Keys(zones)(ed, tok).outcome.More?
      ensures At(Keys(zones)(ed, tok).ed, ed.history,
                 if tok == UP then Max(0, ed.histPos - 1) else Min(|ed.history|, ed.histPos + 1))
    {
      MoveOnce(zones, ed, ed.history, ed.histPos);
    }
  }

  lemma OneMore(keys: Keymap, history: seq<Bytes>, toks: seq<Token>, pos: nat)
    requires Moves(keys) && At(Press(keys, Fresh(history), toks), history, pos)
    ensures At(Press(keys, Fresh(history), toks + [UP]), history, Max(0, pos - 1))
    ensures At(Press(keys, Fresh(history), toks + [DOWN]), history, Min(|history|, pos + 1))
  {
    assert (toks + [UP])[..|toks|] == toks && (toks + [DOWN])[..|toks|] == toks;
    assert Shown(Press(keys, Fresh(history), toks));
  }

  lemma {:induction false} PressUpsDowns(keys: Keymap, history: seq<Bytes>, k: nat, j: nat)
    requires Moves(keys)
    ensures At(Press(keys, Fresh(history), UpsDowns(k, j)), history, Min(|history|, Max(0, |history| - k) + j))
    decreases k + j
  {
    var n := |history|;
    if j > 0 {
      PressUpsDowns(keys, history, k, j - 1);
      OneMore(keys, history, UpsDowns(k, j - 1), Min(n, Max(0, n - k) + (j - 1)));
    } else if k > 0 {
      PressUpsDowns(keys, history, k - 1, 0);
      OneMore(keys, history, UpsDowns(k - 1, 0), Max(0, n - (k - 1)));
    }
  }

  /** On a fresh line with n entries, k Ups and then j Downs show entry min(n, max(0, n - k) + j), or the empty line
      when that is n. */
  lemma UpsThenDowns(zones: seq<Bytes>, history: seq<Bytes>, k: nat, j: nat)
    ensures At(Press(Keys(zones), Fresh(history), UpsDowns(k, j)), history, Min(|history|, Max(0, |history| - k) + j))
  {
    KeysMove(zones);
    PressUpsDowns(Keys(zones), history, k, j);
  }

  // --- As bytes ------------------------------------------------------------------------------------------

  /** `ESC [ A` and `ESC [ B` are the arrow keys; `ESC [` and another byte, and ESC and another byte, are keys that do
      nothing. */
  lemma EscapeExactly(zones: seq<Bytes>, ed: Ed, b: Byte, rest: Bytes)
    ensures Tokens([ESC, '[', b] + rest) == [Arrow(b)] + Tokens(rest)
    ensures b != '[' ==> Tokens([ESC, b] + rest) == [EscapeOther(b)] + Tokens(rest)
    ensures b != 'A' && b != 'B' ==> Keys(zones)(ed, Arrow(b)) == Effect(ed, [], More) == Keys(zones)(ed, EscapeOther(b))
  {
    assert ([ESC, '[', b] + rest)[3..] == rest && ([ESC, b] + rest)[2..] == rest;
  }

  /** `k` times up and then `j` times down, as sent. */
  function Arrows(k: nat, j: nat): Bytes
    decreases k + j
  {
    if k > 0 then [ESC, '[', 'A'] + Arrows(k - 1, j)
    else if j > 0 then [ESC, '[', 'B'] + Arrows(0, j - 1)
    else []
  }

  /** The arrow keys, of which the first is at `pos`. */
  function ArrowKeys(k: nat, j: nat, pos: nat, arrived: nat -> bool): seq<Lexeme>
    decreases k + j
  {
    if k > 0 then [Lexeme(UP, arrived(pos))] + ArrowKeys(k - 1, j, pos + 3, arrived)
    else if j > 0 then [Lexeme(DOWN, arrived(pos))] + ArrowKeys(0, j - 1, pos + 3, arrived)
    else []
  }

  lemma OneArrow(s: Bytes, pos: nat, arrived: nat -> bool)
    requires |s| >= 3 && s[0] == ESC && s[1] == '['
    ensures Lex(s, pos, arrived) == [Lexeme(Arrow(s[2]), arrived(pos))] + Lex(s[3..], pos + 3, arrived)
  {
  }

  lemma FirstArrow(k: nat, j: nat, rest: Bytes)
    requires k + j > 0
    ensures var s := Arrows(k, j) + rest;
      && |s| >= 3 && s[0] == ESC && s[1] == '[' && s[2] == (if k > 0 then 'A' else 'B')
      && s[3..] == (if k > 0 then Arrows(k - 1, j) else Arrows(0, j - 1)) + rest
  {
  }

  lemma {:induction false} LexArrows(k: nat, j: nat, s: Bytes, rest: Bytes, pos: nat, arrived: nat -> bool)
    requires s == Arrows(k, j) + rest
    ensures Lex(s, pos, arrived) == ArrowKeys(k, j, pos, arrived) + Lex(rest, pos + 3 * (k + j), arrived)
    decreases k + j
  {
    if k + j == 0 {
      assert s == rest;
    } else {
      var kk, jj := if k > 0 then k - 1 else 0, if k > 0 then j else j - 1;
      FirstArrow(k, j, rest);
      OneArrow(s, pos, arrived);
      LexArrows(kk, jj, s[3..], rest, pos + 3, arrived);
      Associative([Lexeme(Arrow(s[2]), arrived(pos))], ArrowKeys(kk, jj, pos + 3, arrived),
                  Lex(rest, pos + 3 * (k + j), arrived));
    }
  }

  lemma {:induction false} ReadArrows(keys: Keymap, ed: Ed, k: nat, j: nat, pos: nat, arrived: nat -> bool,
                                      ls: seq<Lexeme>)
    returns (e: Ed)
    requires Moves(keys) && Shown(ed)
    ensures At(e, ed.history, Min(|ed.history|, Max(0, ed.histPos - k) + j))
    ensures ReadFrom(keys, ed, ArrowKeys(k, j, pos, arrived) + ls).result == ReadFrom(keys, e, ls).result
    decreases k + j
  {
    e := ed;
    if k + j == 0 {
      assert ArrowKeys(k, j, pos, arrived) + ls == ls;
    } else {
      var kk, jj, tok := if k > 0 then k - 1 else 0, if k > 0 then j else j - 1, if k > 0 then UP else DOWN;
      var more := ArrowKeys(kk, jj, pos + 3, arrived) + ls;
      Associative([Lexeme(tok, arrived(pos))], ArrowKeys(kk, jj, pos + 3, arrived), ls);
      assert ([Lexeme(tok, arrived(pos))] + more)[1..] == more;
      e := ReadArrows(keys, keys(ed, tok).ed, kk, jj, pos + 3, arrived, ls);
    }
  }

  /** On a fresh line with n entries, the bytes of k Ups and j Downs and then a CR or LF make ReadLine return entry
      min(n, max(0, n - k) + j), or the empty line when that is n. */
  lemma ArrowsRecall(zones: seq<Bytes>, history: seq<Bytes>, k: nat, j: nat, rest: Bytes, pos: nat, arrived: nat -> bool)
    requires rest != [] && (rest[0] == CR || rest[0] == LF)
    ensures ReadFrom(Keys(zones), Fresh(history), Lex(Arrows(k, j) + rest, pos, arrived)).result ==
            Line(Entry(history, Min(|history|, Max(0, |history| - k) + j)))
  {
    var ls := Lex(rest, pos + 3 * (k + j), arrived);
    LexArrows(k, j, Arrows(k, j) + rest, rest, pos, arrived);
    var e := KeysReadArrows(zones, history, k, j, pos, arrived, ls, Lex(Arrows(k, j) + rest, pos, arrived));
    ReturnAtOnce(zones, e, rest, pos + 3 * (k + j), arrived);
  }

  lemma KeysReadArrows(zones: seq<Bytes>, history: seq<Bytes>, k: nat, j: nat, pos: nat, arrived: nat -> bool,
                       ls: seq<Lexeme>, all: seq<Lexeme>) returns (e: Ed)
    requires all == ArrowKeys(k, j, pos, arrived) + ls
    ensures e.buf == Entry(history, Min(|history|, Max(0, |history| - k) + j))
    ensures ReadFrom(Keys(zones), Fresh(history), all).result == ReadFrom(Keys(zones), e, ls).result
  {
    KeysMove(zones);
    e := ReadArrows(Keys(zones), Fresh(history), k, j, pos, arrived, ls);
  }

  lemma ReturnAtOnce(zones: seq<Bytes>, ed: Ed, stream: Bytes, pos: nat, arrived: nat -> bool)
    requires stream != [] && (stream[0] == CR || stream[0] == LF)
    ensures ReadFrom(Keys(zones), ed, Lex(stream, pos, arrived)).result == Line(ed.buf)
  {
    assert TokenAt(stream) == Key(stream[0]);
    assert Keys(zones)(ed, Key(stream[0])) == Submit(ed);
  }
}
