/** The screen always shows the edit buffer, and exactly when it does not. */
module ScreenAgreement {
  import opened Prelude
  import opened Telnet
  import opened Crlf
  import opened Editing
  import opened Screen
  import opened Session
  import DevClient
  import Completion
  import Sorting

  predicate AllLinesPrintable(lines: seq<Bytes>) {
    forall i :: 0 <= i < |lines| ==> AllPrintable(lines[i])
  }

  predicate Clean(ed: Ed) {
    AllPrintable(ed.buf) && AllLinesPrintable(ed.history)
  }

  /** What the lexer produces: an IAC or ESC is never a key of its own. */
  predicate WellFormedToken(t: Token) {
    match t
    case Key(b) => b != IAC && b != ESC
    case Cmd(Negotiate(verb, _)) => IsVerb(verb)
    case _ => true
  }

  /** The keys after which the screen is wrong: an escaped 255 is put in the buffer without an echo, and the
      answer to DO or WILL of option 10 becomes a line feed on its way through `crlfConn`. */
  predicate Disturbing(t: Token) {
    match t
    case Cmd(EscapedIAC) => true
    case Cmd(Negotiate(verb, opt)) => opt == LF && (verb == DO || verb == WILL)
    case _ => false
  }

  // --- Completed lines are printable -------------------------------------------------------------------

  lemma {:induction false} FieldsPrintable(s: Bytes)
    requires AllPrintable(s)
    ensures AllLinesPrintable(Completion.Fields(s))
    decreases |s|
  {
    if s != [] {
      if s[0] == ' ' {
        FieldsPrintable(s[1..]);
      } else {
        var w := Completion.FirstWord(s);
        assert AllPrintable(w) by { assert w == s[..|w|]; }
        FieldsPrintable(s[|w|..]);
      }
    }
  }

  lemma {:induction false} JoinPrintable(words: seq<Bytes>, sep: Bytes)
    requires AllLinesPrintable(words) && AllPrintable(sep)
    ensures AllPrintable(Completion.Join(words, sep))
  {
    if |words| > 1 {
      JoinPrintable(words[1..], sep);
      assert AllPrintable(words[0]);
    }
  }

  lemma TopCommandsPrintable()
    ensures AllLinesPrintable(Completion.TOP_COMMANDS)
  {
  }

  lemma DebugPrintable()
    ensures AllLinesPrintable(["all", "check", "dnsnode"])
  {
  }

  lemma LogLevelPrintable()
    ensures AllLinesPrintable(["error", "warning", "info", "debug"])
  {
  }

  lemma ShowPrintable()
    ensures AllLinesPrintable(["clients", "jobs", "status", "zone", "zones"])
  {
  }

  lemma SubCommandsPrintable(cmd: Bytes)
    ensures AllLinesPrintable(Completion.SubCommands(cmd))
  {
    DebugPrintable();
    LogLevelPrintable();
    ShowPrintable();
  }

  lemma ZoneNamesPrintable(zones: seq<Bytes>)
    requires AllLinesPrintable(zones)
    ensures AllLinesPrintable(Completion.ZoneNames(zones))
  {
    var names := Completion.ZoneNames(zones);
    Sorting.SameElements(names, Completion.Visible(zones));
    forall i | 0 <= i < |names| ensures AllPrintable(names[i]) {
      assert names[i] in Completion.Visible(zones);
    }
  }

  lemma OptionsPrintable(fields: seq<Bytes>, zones: seq<Bytes>)
    requires AllLinesPrintable(zones)
    ensures AllLinesPrintable(Completion.Options(fields, zones))
  {
    ZoneNamesPrintable(zones);
    TopCommandsPrintable();
    SubCommandsPrintable(if fields == [] then [] else fields[0]);
  }

  lemma PrefixPrintable(p: Bytes, s: Bytes)
    requires p <= s && AllPrintable(s)
    ensures AllPrintable(p)
  {
    assert forall i :: 0 <= i < |p| ==> p[i] == s[i];
  }

  lemma CandidatesPrintable(line: Bytes, zones: seq<Bytes>)
    requires AllLinesPrintable(zones)
    ensures AllLinesPrintable(Completion.CliComplete(line, zones).1)
  {
    var candidates := Completion.CliComplete(line, zones).1;
    var options := Completion.Options(Completion.Parse(line).0, zones);
    OptionsPrintable(Completion.Parse(line).0, zones);
    Completion.CandidatesExact(line, zones);
    forall i | 0 <= i < |candidates| ensures AllPrintable(candidates[i]) {
      assert candidates[i] in candidates;
      assert candidates[i] in options;
    }
  }

  lemma WordsPrintable(line: Bytes)
    requires AllPrintable(line)
    ensures AllLinesPrintable(Completion.Parse(line).0)
  {
    FieldsPrintable(line);
  }

  lemma AppendPrintable(a: Bytes, b: Bytes)
    requires AllPrintable(a) && AllPrintable(b)
    ensures AllPrintable(a + b)
  {
  }

  lemma CompletionPrintable(line: Bytes, zones: seq<Bytes>)
    requires AllPrintable(line) && AllLinesPrintable(zones)
    ensures AllPrintable(Completion.CliComplete(line, zones).0)
  {
    var candidates := Completion.CliComplete(line, zones).1;
    if candidates != [] {
      var fields, token := Completion.Parse(line).0, Completion.CommonPrefix(candidates);
      WordsPrintable(line);
      CandidatesPrintable(line, zones);
      Completion.CompletionExtends(line, zones);
      assert candidates[0] in candidates;
      PrefixPrintable(token, candidates[0]);
      JoinPrintable(fields + [token], " ");
      AppendPrintable(Completion.Join(fields + [token], " "), if |candidates| == 1 then " " else []);
    }
  }

  // --- One key -----------------------------------------------------------------------------------------

  lemma CompleteWithAgrees(t: Terminal, ed: Ed, newLine: Bytes, candidates: seq<Bytes>)
    requires Shows(t, ed.buf) && Clean(ed) && AllPrintable(newLine) && AllLinesPrintable(candidates)
    ensures var e := CompleteWith(ed, newLine, candidates);
      Clean(e.ed) && Shows(Display(t, Wire(e.writes)), e.ed.buf) && DevClient.CleanEnd(Wire(e.writes))
  {
    WireOne([]);
    if |candidates| > 1 {
      var listing := Completion.Join(candidates, "  ");
      JoinPrintable(candidates, "  ");
      ListingShows(t, listing, newLine);
      WireOne("\r\n" + listing + "\r\n" + PROMPT + newLine);
    } else if candidates == [] {
      WireOne([BEL]);
      PlainWrite(t, [BEL]);
      ShowOne(t, BEL);
    } else if newLine != ed.buf {
      SetLineAgrees(t, ed, newLine);
    }
  }

  lemma CompleteAgrees(t: Terminal, ed: Ed, zones: seq<Bytes>)
    requires Shows(t, ed.buf) && Clean(ed) && AllLinesPrintable(zones)
    ensures var e := Complete(ed, zones);
      Clean(e.ed) && Shows(Display(t, Wire(e.writes)), e.ed.buf) && DevClient.CleanEnd(Wire(e.writes))
  {
    CompletionPrintable(ed.buf, zones);
    CandidatesPrintable(ed.buf, zones);
    CompleteWithAgrees(t, ed, Completion.CliComplete(ed.buf, zones).0, Completion.CliComplete(ed.buf, zones).1);
  }

  lemma SetLineAgrees(t: Terminal, ed: Ed, s: Bytes)
    requires Shows(t, ed.buf) && AllPrintable(s)
    ensures var e := SetLine(ed, s);
      Shows(Display(t, Wire(e.writes)), s) && DevClient.CleanEnd(Wire(e.writes))
  {
    var pad := if |ed.buf| > |s| then Blanks(|ed.buf| - |s|) else [];
    RedrawShows(t, ed.buf, s, pad);
    WireOne([CR] + PROMPT + s + pad + [CR] + PROMPT + s);
  }

  lemma HistoryAgrees(t: Terminal, ed: Ed, delta: int)
    requires Shows(t, ed.buf) && Clean(ed)
    ensures var e := HistoryMove(ed, delta);
      Clean(e.ed) && Shows(Display(t, Wire(e.writes)), e.ed.buf) && DevClient.CleanEnd(Wire(e.writes))
  {
    if ed.history == [] {
      WireOne([]);
    } else {
      var pos := Clamp(ed.histPos + delta, |ed.history|);
      SetLineAgrees(t, ed.(histPos := pos), if pos < |ed.history| then ed.history[pos] else []);
    }
  }

  lemma BackspaceAgrees(t: Terminal, ed: Ed)
    requires Shows(t, ed.buf) && Clean(ed)
    ensures var e := Backspace(ed);
      Clean(e.ed) && Shows(Display(t, Wire(e.writes)), e.ed.buf) && DevClient.CleanEnd(Wire(e.writes))
  {
    WireOne([]);
    if ed.buf != [] {
      BackspaceShows(t, ed.buf);
      WireOne([BS, ' ', BS]);
    }
  }

  lemma PressAgrees(t: Terminal, ed: Ed, b: Byte, zones: seq<Bytes>)
    requires Shows(t, ed.buf) && Clean(ed) && AllLinesPrintable(zones)
    requires b != IAC && Press(ed, b, zones).outcome.More?
    ensures var e := Press(ed, b, zones);
      Clean(e.ed) && Shows(Display(t, Wire(e.writes)), e.ed.buf) && DevClient.CleanEnd(Wire(e.writes))
  {
    WireOne([]);
    if b == DEL || b == BS {
      BackspaceAgrees(t, ed);
    } else if b == '\t' || b == '?' {
      CompleteAgrees(t, ed, zones);
    } else if b >= ' ' {
      EchoShows(t, ed.buf, b);
      WireOne([b]);
    }
  }

  lemma ObeyAgrees(t: Terminal, ed: Ed, cmd: Command)
    requires Shows(t, ed.buf) && Clean(ed) && WellFormedToken(Cmd(cmd))
    ensures var e := Obey(ed, cmd);
      && (Shows(Display(t, Wire(e.writes)), e.ed.buf) <==> !Disturbing(Cmd(cmd)))
      && (!cmd.EscapedIAC? ==> Clean(e.ed))
      && DevClient.CleanEnd(Wire(e.writes))
  {
    WireOne([]);
    assert Display(t, []) == t;
    if cmd.Negotiate? && Reply(cmd.verb, cmd.opt) != [] {
      var verb := Reply(cmd.verb, cmd.opt)[0][1];
      assert Reply(cmd.verb, cmd.opt) == [[IAC, verb, cmd.opt]] && (verb == WILL ==> cmd.opt != LF);
      WireOne([IAC, verb, cmd.opt]);
      ReplyShows(t, verb, cmd.opt);
      LineFeedHides(t, ed.buf);
    }
  }

  lemma LineFeedHides(t: Terminal, buf: Bytes)
    ensures !Shows(Show(t, LF), buf)
  {
  }

  /** After a key that does not end the line, the screen shows the new buffer exactly when the key is not one of
      the two disturbing ones. */
  lemma StepAgreesExactly(t: Terminal, ed: Ed, tok: Token, zones: seq<Bytes>)
    requires Shows(t, ed.buf) && Clean(ed) && AllLinesPrintable(zones)
    requires WellFormedToken(tok) && Step(ed, tok, zones).outcome.More?
    ensures var e := Step(ed, tok, zones);
      && (Shows(Display(t, Wire(e.writes)), e.ed.buf) <==> !Disturbing(tok))
      && (!Disturbing(tok) ==> Clean(e.ed) && DevClient.CleanEnd(Wire(e.writes)))
  {
    match tok
    case Key(b) => PressAgrees(t, ed, b, zones);
    case Cmd(cmd) => ObeyAgrees(t, ed, cmd);
    case EscapeOther(_) => WireOne([]);
    case Arrow(b) =>
      WireOne([]);
      if b == 'A' { HistoryAgrees(t, ed, -1); }
      if b == 'B' { HistoryAgrees(t, ed, 1); }
  }

  // --- A whole session ---------------------------------------------------------------------------------

  predicate WellFormedTokens(ls: seq<Lexeme>) {
    forall i :: 0 <= i < |ls| ==> WellFormedToken(ls[i].tok)
  }

  lemma {:induction false} LexWellFormed(s: Bytes, pos: nat, arrived: nat -> bool)
    ensures WellFormedTokens(Lex(s, pos, arrived))
    decreases |s|
  {
    var n := TokenLength(s);
    if n.Some? { LexWellFormed(s[n.value..], pos + n.value, arrived); }
  }

  /** Console output is complete lines without an IAC. */
  predicate CompleteLines(output: Bytes) {
    IAC !in output && (output != [] ==> output[|output| - 1] == LF)
  }

  /** Whenever the session awaits a key, the screen shows the buffer. */
  ghost predicate AlwaysShows(keys: Keymap, output: Console, t: Terminal, l: Live, ls: seq<Lexeme>)
    decreases |ls|
  {
    l.open ==>
      && Shows(Display(t, l.wire), l.ed.buf)
      && (ls != [] ==> AlwaysShows(keys, output, t, Advance(keys, output, l, ls), Rest(keys, l, ls)))
  }

  /** No disturbing key is read. */
  ghost predicate Undisturbed(keys: Keymap, output: Console, l: Live, ls: seq<Lexeme>)
    decreases |ls|
  {
    l.open && ls != [] ==>
      !Disturbing(ls[0].tok) && Undisturbed(keys, output, Advance(keys, output, l, ls), Rest(keys, l, ls))
  }

  function Rest(keys: Keymap, l: Live, ls: seq<Lexeme>): (rest: seq<Lexeme>)
    requires ls != []
    ensures |rest| < |ls|
    ensures WellFormedTokens(ls) ==> WellFormedTokens(rest)
  {
    ls[Consumed(ls, keys(l.ed, ls[0].tok))..]
  }

  ghost predicate Good(t: Terminal, l: Live) {
    Shows(Display(t, l.wire), l.ed.buf) && Clean(l.ed) && DevClient.CleanEnd(l.wire)
  }

  /** What the next prompt needs, whatever the current row shows. */
  predicate Steady(l: Live) {
    Clean(l.ed) && DevClient.CleanEnd(l.wire)
  }

  lemma PromptAfter(t: Terminal, wire: Bytes, history: seq<Bytes>)
    requires DevClient.CleanEnd(wire) && FreshRow(Display(t, wire)) && AllLinesPrintable(history)
    ensures forall handed: nat :: Good(t, Live(Fresh(history), wire + PROMPT, handed, true))
  {
    PromptShows(Display(t, wire));
    DevClient.PlainRelay(PROMPT);
    DisplayAppend(t, wire, PROMPT);
  }

  lemma OutputAfter(t: Terminal, wire: Bytes, output: Bytes)
    requires DevClient.CleanEnd(wire) && CompleteLines(output)
    requires output == [] ==> FreshRow(Display(t, wire))
    ensures DevClient.CleanEnd(wire + Rewrite(output)) && FreshRow(Display(t, wire + Rewrite(output)))
  {
    if output == [] {
      assert wire + Rewrite(output) == wire;
    } else {
      OutputLeavesFreshRow(Display(t, wire), output);
      DisplayAppend(t, wire, Rewrite(output));
    }
  }

  lemma NewLineAfter(t: Terminal, wire: Bytes)
    requires DevClient.CleanEnd(wire)
    ensures DevClient.CleanEnd(wire + Wire(["\r\n"])) && FreshRow(Display(t, wire + Wire(["\r\n"])))
  {
    WireOne("\r\n");
    PlainWrite(Display(t, wire), "\r\n");
    assert "\r\n" == [CR, LF];
    NewLine(Display(t, wire));
    DisplayAppend(t, wire, Wire(["\r\n"]));
  }

  lemma SubmitLeavesPrompt(t: Terminal, l: Live, output: Bytes)
    requires Steady(l) && CompleteLines(output)
    ensures var e := Submit(l.ed);
      Good(t, Live(Fresh(e.ed.history), l.wire + Wire(e.writes) + Rewrite(output) + PROMPT, l.handed + 1, true))
  {
    var e := Submit(l.ed);
    NewLineAfter(t, l.wire);
    OutputAfter(t, l.wire + Wire(e.writes), output);
    assert AllLinesPrintable(e.ed.history);
    PromptAfter(t, l.wire + Wire(e.writes) + Rewrite(output), e.ed.history);
  }

  /** A key that does not end the line, by what it does on the screen. */
  lemma MoreGood(t: Terminal, l: Live, e: Effect, disturbing: bool)
    requires Good(t, l)
    requires Shows(Display(Display(t, l.wire), Wire(e.writes)), e.ed.buf) <==> !disturbing
    requires !disturbing ==> Clean(e.ed) && DevClient.CleanEnd(Wire(e.writes))
    ensures var m := Live(e.ed, l.wire + Wire(e.writes), l.handed, true);
      if disturbing then !Shows(Display(t, m.wire), m.ed.buf) else Good(t, m)
  {
    DisplayAppend(t, l.wire, Wire(e.writes));
  }

  lemma OnlySubmits(ed: Ed, b: Byte, zones: seq<Bytes>)
    ensures var e := Press(ed, b, zones); e.outcome.Submitted? ==> e == Submit(ed)
  {
    if b == CR || b == LF {
    } else if b == '\t' || b == '?' {
      assert Press(ed, b, zones) == Complete(ed, zones);
      CompleteGoesOn(ed, zones);
    } else {
    }
  }

  /** Only a key ends a line, and no key disturbs. */
  lemma OnlyKeysEnd(ed: Ed, tok: Token, zones: seq<Bytes>)
    ensures !Step(ed, tok, zones).outcome.More? ==> tok.Key?
  {
    match tok
    case Arrow(b) =>
      assert HistoryMove(ed, -1).outcome.More? && HistoryMove(ed, 1).outcome.More?;
    case _ =>
  }

  lemma GoodWith(output: Console, t: Terminal, l: Live, e: Effect, disturbing: bool)
    requires Good(t, l) && forall k :: CompleteLines(output(k))
    requires e.outcome.More? ==>
      && (Shows(Display(Display(t, l.wire), Wire(e.writes)), e.ed.buf) <==> !disturbing)
      && (!disturbing ==> Clean(e.ed) && DevClient.CleanEnd(Wire(e.writes)))
    requires !e.outcome.More? ==> !disturbing
    requires e.outcome.Submitted? ==> e == Submit(l.ed)
    ensures var m := AdvanceWith(output, l, e);
      if disturbing then m.open && !Shows(Display(t, m.wire), m.ed.buf) else m.open ==> Good(t, m)
  {
    if e.outcome.More? {
      MoreGood(t, l, e, disturbing);
    } else if e.outcome.Submitted? {
      SubmitLeavesPrompt(t, l, output(l.handed));
    }
  }

  lemma AdvanceGood(zones: seq<Bytes>, output: Console, t: Terminal, l: Live, ls: seq<Lexeme>)
    requires Good(t, l) && l.open && AllLinesPrintable(zones) && ls != [] && WellFormedToken(ls[0].tok)
    requires forall k :: CompleteLines(output(k))
    ensures var m := Advance(Keys(zones), output, l, ls);
      if Disturbing(ls[0].tok) then m.open && !Shows(Display(t, m.wire), m.ed.buf) else m.open ==> Good(t, m)
  {
    var tok := ls[0].tok;
    var e := Keys(zones)(l.ed, tok);
    OnlyKeysEnd(l.ed, tok, zones);
    if e.outcome.More? {
      StepAgreesExactly(Display(t, l.wire), l.ed, tok, zones);
    } else {
      OnlySubmits(l.ed, tok.b, zones);
    }
    GoodWith(output, t, l, e, Disturbing(tok));
  }

  /** Screen agreement: whatever is typed and however it arrives, and whatever the console prints, the screen shows
      the buffer whenever the session awaits a key, if and only if no disturbing key is read. */
  lemma {:induction false} ShowsExactly(zones: seq<Bytes>, output: Console, t: Terminal, l: Live, ls: seq<Lexeme>)
    requires Good(t, l) && AllLinesPrintable(zones) && WellFormedTokens(ls)
    requires forall k :: CompleteLines(output(k))
    ensures AlwaysShows(Keys(zones), output, t, l, ls) <==> Undisturbed(Keys(zones), output, l, ls)
    decreases |ls|
  {
    if l.open && ls != [] {
      var m := Advance(Keys(zones), output, l, ls);
      AdvanceGood(zones, output, t, l, ls);
      if !Disturbing(ls[0].tok) && m.open {
        ShowsExactly(zones, output, t, m, Rest(Keys(zones), l, ls));
      }
    }
  }

  /** The same for a whole session on the byte stream `s`, on a terminal that shows anything at first. */
  lemma ScreenShowsBufferExactly(zones: seq<Bytes>, output: Console, banner: Bytes, t: Terminal,
                                 s: Bytes, arrived: nat -> bool)
    requires AllLinesPrintable(zones) && banner != [] && CompleteLines(banner)
    requires forall k :: CompleteLines(output(k))
    ensures AlwaysShows(Keys(zones), output, t, Opening(banner), Lex(s, 0, arrived)) <==>
            Undisturbed(Keys(zones), output, Opening(banner), Lex(s, 0, arrived))
  {
    LexWellFormed(s, 0, arrived);
    SessionStartsGood(t, banner);
    ShowsExactly(zones, output, t, Opening(banner), Lex(s, 0, arrived));
  }

  /** The session starts well on any terminal: negotiation and banner leave a fresh row for the prompt. */
  lemma SessionStartsGood(t: Terminal, banner: Bytes)
    requires banner != [] && CompleteLines(banner)
    ensures Good(t, Opening(banner))
  {
    ReplyShows(t, WILL, OPT_ECHO);
    ReplyShows(t, WILL, OPT_SGA);
    ReplyShows(t, DO, OPT_SGA);
    var w1 := Rewrite([IAC, WILL, OPT_ECHO]);
    var w2 := w1 + Rewrite([IAC, WILL, OPT_SGA]);
    var w3 := w2 + Rewrite([IAC, DO, OPT_SGA]);
    DisplayAppend(t, w1, Rewrite([IAC, WILL, OPT_SGA]));
    DisplayAppend(t, w2, Rewrite([IAC, DO, OPT_SGA]));
    OutputAfter(t, w3, banner);
    PromptAfter(t, w3 + Rewrite(banner), []);
  }

  // --- After a disturbing key ----------------------------------------------------------------------------

  predicate NoEscapedIAC(ls: seq<Lexeme>) {
    forall i :: 0 <= i < |ls| ==> ls[i].tok != Cmd(EscapedIAC)
  }

  lemma StepSteady(ed: Ed, tok: Token, zones: seq<Bytes>)
    requires Clean(ed) && AllLinesPrintable(zones) && WellFormedToken(tok) && tok != Cmd(EscapedIAC)
    requires Step(ed, tok, zones).outcome.More?
    ensures Clean(Step(ed, tok, zones).ed) && DevClient.CleanEnd(Wire(Step(ed, tok, zones).writes))
  {
    var t := Terminal([], PROMPT + ed.buf, |PROMPT| + |ed.buf|);
    assert Shows(t, ed.buf);
    if tok.Cmd? { ObeyAgrees(t, ed, tok.cmd); } else { StepAgreesExactly(t, ed, tok, zones); }
  }

  lemma SteadyWith(output: Console, t: Terminal, l: Live, e: Effect)
    requires Steady(l) && forall k :: CompleteLines(output(k))
    requires e.outcome.More? ==> Clean(e.ed) && DevClient.CleanEnd(Wire(e.writes))
    requires e.outcome.Submitted? ==> e == Submit(l.ed)
    ensures var m := AdvanceWith(output, l, e);
      m.open ==> Steady(m) && (e.outcome.Submitted? ==> Good(t, m))
  {
    if e.outcome.More? {
      DevClient.RelayAppend(l.wire, Wire(e.writes));
    } else if e.outcome.Submitted? {
      SubmitLeavesPrompt(t, l, output(l.handed));
    }
  }

  lemma AdvanceSteady(zones: seq<Bytes>, output: Console, t: Terminal, l: Live, ls: seq<Lexeme>)
    requires Steady(l) && l.open && AllLinesPrintable(zones) && ls != [] && WellFormedToken(ls[0].tok)
    requires ls[0].tok != Cmd(EscapedIAC) && forall k :: CompleteLines(output(k))
    ensures var m := Advance(Keys(zones), output, l, ls);
      m.open ==> Steady(m) && (Keys(zones)(l.ed, ls[0].tok).outcome.Submitted? ==> Good(t, m))
  {
    var tok := ls[0].tok;
    var e := Keys(zones)(l.ed, tok);
    OnlyKeysEnd(l.ed, tok, zones);
    if e.outcome.More? {
      StepSteady(l.ed, tok, zones);
    } else {
      OnlySubmits(l.ed, tok.b, zones);
    }
    SteadyWith(output, t, l, e);
  }

  /** At every prompt after a line the screen shows the empty buffer. */
  ghost predicate PromptsShow(keys: Keymap, output: Console, t: Terminal, l: Live, ls: seq<Lexeme>)
    decreases |ls|
  {
    l.open && ls != [] ==>
      var m := Advance(keys, output, l, ls);
      && (m.open && keys(l.ed, ls[0].tok).outcome.Submitted? ==> Shows(Display(t, m.wire), m.ed.buf))
      && PromptsShow(keys, output, t, m, Rest(keys, l, ls))
  }

  /** A request for option 10 disturbs the screen only until the line ends: every prompt shows the buffer again, in any
      session without an escaped 255. */
  lemma {:induction false} RecoversAtPrompt(zones: seq<Bytes>, output: Console, t: Terminal, l: Live, ls: seq<Lexeme>)
    requires Steady(l) && AllLinesPrintable(zones) && WellFormedTokens(ls) && NoEscapedIAC(ls)
    requires forall k :: CompleteLines(output(k))
    ensures PromptsShow(Keys(zones), output, t, l, ls)
    decreases |ls|
  {
    if l.open && ls != [] {
      var m := Advance(Keys(zones), output, l, ls);
      AdvanceSteady(zones, output, t, l, ls);
      if m.open { RecoversAtPrompt(zones, output, t, m, Rest(Keys(zones), l, ls)); }
    }
  }

  /** An escaped 255 is remembered with its line. */
  lemma EscapedIsRemembered(ed: Ed, p: Bytes)
    requires ed.buf == p
    ensures var history := Submit(Obey(ed, EscapedIAC).ed).ed.history;
      history != [] && history[|history| - 1] == p + [IAC]
  {
    BlankLine(p + [IAC]);
    assert (p + [IAC])[|p|] == IAC;
  }

  lemma BlankLine(line: Bytes)
    ensures Trim(line) == [] ==> forall i :: 0 <= i < |line| ==> line[i] == ' '
  {
    var a, b := TrimExactly(line);
    assert Trim(line) == [] ==> line == Blanks(a) + Blanks(b);
  }

  /** The arrow keys bring it back as a raw IAC: what the peer is sent ends within a command, so the next byte that is
      sent is not shown. */
  lemma EscapedComesBackRaw(ed: Ed, delta: int, p: Bytes)
    requires ed.history != [] && AllPrintable(p)
    requires var pos := Clamp(ed.histPos + delta, |ed.history|); pos < |ed.history| && ed.history[pos] == p + [IAC]
    ensures !DevClient.CleanEnd(Wire(HistoryMove(ed, delta).writes))
  {
    var s := p + [IAC];
    var pad := if |ed.buf| > |s| then Blanks(|ed.buf| - |s|) else [];
    RawRedraw(p, pad);
    WireOne([CR] + PROMPT + s + pad + [CR] + PROMPT + s);
  }

  lemma RawRedraw(p: Bytes, pad: Bytes)
    requires AllPrintable(p) && forall i :: 0 <= i < |pad| ==> pad[i] == ' '
    ensures !DevClient.CleanEnd(Rewrite([CR] + PROMPT + (p + [IAC]) + pad + [CR] + PROMPT + (p + [IAC])))
  {
    var before, after := [CR] + PROMPT + p, pad + [CR] + PROMPT + p;
    var w := [CR] + PROMPT + (p + [IAC]) + pad + [CR] + PROMPT + (p + [IAC]);
    RedrawnAs(p, pad);
    RewritePlain(w);
    RawEnd(before, after);
  }

  lemma RedrawnAs(p: Bytes, pad: Bytes)
    requires AllPrintable(p) && forall i :: 0 <= i < |pad| ==> pad[i] == ' '
    ensures var before, after := [CR] + PROMPT + p, pad + [CR] + PROMPT + p;
      var w := [CR] + PROMPT + (p + [IAC]) + pad + [CR] + PROMPT + (p + [IAC]);
      && w == before + ([IAC, after[0]] + (after[1..] + [IAC])) && LF !in w
      && IAC !in before && IAC !in after && (after[0] == CR || after[0] == ' ')
  {
    var before, after := [CR] + PROMPT + p, pad + [CR] + PROMPT + p;
    assert [IAC, after[0]] + (after[1..] + [IAC]) == [IAC] + after + [IAC];
  }

  lemma RawEnd(before: Bytes, after: Bytes)
    requires IAC !in before && IAC !in after && after != [] && !IsVerb(after[0]) && after[0] != SB
    ensures !DevClient.CleanEnd(before + ([IAC, after[0]] + (after[1..] + [IAC])))
  {
    var tail := after[1..];
    DevClient.PlainRelay(before);
    DevClient.PlainRelay(tail);
    DevClient.RelayAppend(before, [IAC, after[0]] + (tail + [IAC]));
    assert DevClient.UnitLength([IAC, after[0]]) == Some(2);
    assert DevClient.CleanEnd([IAC, after[0]][2..]);
    DevClient.RelayAppend([IAC, after[0]], tail + [IAC]);
    DevClient.RelayAppend(tail, [IAC]);
    assert DevClient.UnitLength([IAC]) == None;
  }
}
