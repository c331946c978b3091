/** The line editor's code: `lineEditor` and its methods, over a reader and a connection. */
module LineEditing {
  import opened Prelude
  import opened Telnet
  import opened Reading
  import opened Crlf
  import opened Editing
  import Completion
  import Typing

  class LineEditor {
    const conn: CrlfConn
    const reader: Reader
    const zones: seq<Bytes>
    var buf: Bytes
    var history: seq<Bytes>
    var histPos: int

    ghost function Now(): Ed
      reads this
    {
      Ed(buf, history, histPos)
    }

    constructor (conn: CrlfConn, reader: Reader, zones: seq<Bytes>)
      ensures this.conn == conn && this.reader == reader && this.zones == zones
      ensures Now() == Fresh([])
    {
      this.conn, this.reader, this.zones := conn, reader, zones;
      buf, history, histPos := [], [], 0;
    }

    method Submit() returns (line: Bytes)
      modifies this`history, conn
      ensures var e := Editing.Submit(old(Now()));
        Now() == e.ed && conn.wire == old(conn.wire) + Wire(e.writes) && e.outcome == Submitted(line)
    {
      line := buf;
      WireOne("\r\n");
      conn.Send("\r\n");
      if Trim(line) != [] {
        var n := |history|;
        if n == 0 || history[n - 1] != line {
          history := history + [line];
        }
      }
    }

    method Backspace()
      modifies this`buf, conn
      ensures var e := Editing.Backspace(old(Now()));
        Now() == e.ed && conn.wire == old(conn.wire) + Wire(e.writes)
    {
      if |buf| == 0 {
        return;
      }
      buf := buf[..|buf| - 1];
      WireOne([BS, ' ', BS]);
      conn.Send([BS, ' ', BS]);
    }

    method SetLine(s: Bytes)
      modifies this`buf, conn
      ensures var e := Editing.SetLine(old(Now()), s);
        Now() == e.ed && conn.wire == old(conn.wire) + Wire(e.writes)
    {
      var oldLen := |buf|;
      buf := s;
      var pad: Bytes := [];
      if oldLen > |s| {
        pad := Blanks(oldLen - |s|);
      }
      WireOne([CR] + PROMPT + s + pad + [CR] + PROMPT + s);
      conn.Send([CR] + PROMPT + s + pad + [CR] + PROMPT + s);
    }

    method HistoryMove(delta: int)
      modifies this`buf, this`histPos, conn
      ensures var e := Editing.HistoryMove(old(Now()), delta);
        Now() == e.ed && conn.wire == old(conn.wire) + Wire(e.writes)
    {
      if |history| == 0 {
        return;
      }
      var newPos := histPos + delta;
      if newPos < 0 {
        newPos := 0;
      }
      if newPos > |history| {
        newPos := |history|;
      }
      histPos := newPos;
      var newLine: Bytes := [];
      if histPos < |history| {
        newLine := history[histPos];
      }
      SetLine(newLine);
    }

    method Complete()
      modifies this`buf, conn
      ensures var e := Editing.Complete(old(Now()), zones);
        Now() == e.ed && conn.wire == old(conn.wire) + Wire(e.writes)
    {
      var newLine, candidates := Completion.Complete(buf, zones);
      if |candidates| > 1 {
        var listing := "\r\n" + Completion.Join(candidates, "  ") + "\r\n" + PROMPT + newLine;
        WireOne(listing);
        conn.Send(listing);
        buf := newLine;
        return;
      }
      if |candidates| == 0 {
        WireOne([BEL]);
        conn.Send([BEL]);
        return;
      }
      if newLine != buf {
        SetLine(newLine);
      }
    }

    /** After an IAC: consumes exactly CommandLength bytes, as `skipTelnetIACSequence` does, and answers. */
    method HandleTelnetCommand() returns (failed: bool)
      requires reader.Valid()
      modifies this`buf, reader`pos, conn
      ensures reader.Valid()
      ensures failed <==> CommandLength(old(reader.Rest())).None?
      ensures failed ==> Now() == old(Now()) && conn.wire == old(conn.wire) && reader.pos == |reader.stream|
      ensures !failed ==>
        var e := Obey(old(Now()), CommandAt(old(reader.Rest())));
        && reader.pos == old(reader.pos) + CommandLength(old(reader.Rest())).value
        && Now() == e.ed && conn.wire == old(conn.wire) + Wire(e.writes)
    {
      failed := false;
      var cmd := reader.ReadByte();
      if cmd.None? {
        failed := true;
      } else if IsVerb(cmd.value) {
        failed := Answer(cmd.value);
      } else if cmd.value == SB {
        failed := DiscardSubnegotiation();
      } else if cmd.value == IAC {
        buf := buf + [IAC];
      }
    }

    method Answer(verb: Byte) returns (failed: bool)
      requires reader.Valid() && IsVerb(verb)
      modifies reader`pos, conn
      ensures reader.Valid()
      ensures failed <==> old(reader.Rest()) == []
      ensures failed ==> reader.pos == old(reader.pos) && conn.wire == old(conn.wire)
      ensures !failed ==> reader.pos == old(reader.pos) + 1
      ensures !failed ==> conn.wire == old(conn.wire) + Wire(Reply(verb, old(reader.Rest())[0]))
    {
      var opt := reader.ReadByte();
      failed := opt.None?;
      if !failed {
        WireOne([IAC, WILL, opt.value]);
        WireOne([IAC, WONT, opt.value]);
        WireOne([IAC, DONT, opt.value]);
        if verb == DO {
          if opt.value == OPT_ECHO || opt.value == OPT_SGA {
            conn.Send([IAC, WILL, opt.value]);
          } else {
            conn.Send([IAC, WONT, opt.value]);
          }
        } else if verb == WILL {
          conn.Send([IAC, DONT, opt.value]);
        }
      }
    }

    method DiscardSubnegotiation() returns (failed: bool)
      requires reader.Valid()
      modifies reader`pos
      ensures reader.Valid()
      ensures failed <==> SubLength(old(reader.Rest())).None?
      ensures failed ==> reader.pos == |reader.stream|
      ensures !failed ==> reader.pos == old(reader.pos) + SubLength(old(reader.Rest())).value
    {
      failed := false;
      ghost var payload, start := reader.Rest(), reader.pos;
      while true
        invariant reader.Valid() && start <= reader.pos
        invariant SubLength(payload) ==
          match SubLength(reader.Rest()) { case None => None case Some(n) => Some(reader.pos - start + n) }
        decreases |reader.stream| - reader.pos
      {
        var bb := reader.ReadByte();
        if bb.None? {
          failed := true;
          return;
        }
        if bb.value != IAC {
          continue;
        }
        var se := reader.ReadByte();
        if se.None? {
          failed := true;
          return;
        }
        if se.value == SE {
          return;
        }
      }
    }

    /** After an ESC: at most two more bytes. */
    method HandleEscape() returns (failed: bool)
      requires reader.Valid()
      requires reader.pos > 0 && reader.stream[reader.pos - 1] == ESC
      modifies this`buf, this`histPos, reader`pos, conn
      ensures reader.Valid()
      ensures var s := old(reader.stream[reader.pos - 1..]);
        && (failed <==> TokenLength(s).None?)
        && (failed ==> Now() == old(Now()) && conn.wire == old(conn.wire) && reader.pos == |reader.stream|)
        && (!failed ==>
              var e := Step(old(Now()), TokenAt(s), zones);
              && reader.pos == old(reader.pos) - 1 + TokenLength(s).value
              && e.outcome.More? && Now() == e.ed && conn.wire == old(conn.wire) + Wire(e.writes))
    {
      failed := false;
      var b1 := reader.ReadByte();
      if b1.None? {
        failed := true;
        return;
      }
      if b1.value != '[' {
        return;
      }
      var b2 := reader.ReadByte();
      if b2.None? {
        failed := true;
        return;
      }
      if b2.value == 'A' {
        HistoryMove(-1);
      } else if b2.value == 'B' {
        HistoryMove(1);
      }
    }

    /** The branches of ReadLine for a byte other than CR, which has just been read. */
    method Dispatch(b: Byte) returns (outcome: Outcome, failed: bool)
      requires reader.Valid() && b != CR
      requires reader.pos > 0 && reader.stream[reader.pos - 1] == b
      modifies this`buf, this`history, this`histPos, reader`pos, conn
      ensures reader.Valid()
      ensures var s := old(reader.stream[reader.pos - 1..]);
        && (failed <==> TokenLength(s).None?)
        && (failed ==> Now() == old(Now()) && conn.wire == old(conn.wire) && reader.pos == |reader.stream|)
        && (!failed ==>
              var e := Step(old(Now()), TokenAt(s), zones);
              && reader.pos == old(reader.pos) - 1 + TokenLength(s).value
              && outcome == e.outcome && Now() == e.ed && conn.wire == old(conn.wire) + Wire(e.writes))
    {
      outcome, failed := More, false;
      assert reader.stream[reader.pos - 1..][1..] == reader.Rest();
      if b == IAC {
        failed := HandleTelnetCommand();
      } else if b == ESC {
        failed := HandleEscape();
      } else {
        outcome := PressKey(b);
      }
    }

    /** The branches for a byte that is a key by itself. */
    method PressKey(b: Byte) returns (outcome: Outcome)
      requires b != CR && b != IAC && b != ESC
      modifies this`buf, this`history, conn
      ensures var e := Press(old(Now()), b, zones);
        outcome == e.outcome && Now() == e.ed && conn.wire == old(conn.wire) + Wire(e.writes)
      ensures b >= ' ' && b != '?' && b != DEL ==>
        outcome == More && buf == old(buf) + [b] && conn.wire == old(conn.wire) + [b]
      ensures b == DEL || b == BS ==>
        && outcome == More && buf == (if old(buf) == [] then [] else old(buf)[..|old(buf)| - 1])
        && conn.wire == old(conn.wire) + (if old(buf) == [] then [] else [BS, ' ', BS])
      ensures b < ' ' && b != LF && b != BS && b != '\t' ==>
        && outcome == (if b == EOT && old(buf) == [] then Quit else More)
        && buf == old(buf) && conn.wire == old(conn.wire)
    {
      if Typing.Keyed(b) { Typing.PressTypes(zones, Now(), b); }
      outcome := More;
      if b == LF {
        var line := Submit();
        outcome := Submitted(line);
      } else if b == DEL || b == BS {
        Backspace();
      } else if b == EOT {
        if |buf| == 0 {
          outcome := Quit;
        }
      } else if b == '\t' || b == '?' {
        Complete();
        CompleteGoesOn(old(Now()), zones);
      } else if b < ' ' {
        // other control characters are ignored
      } else {
        buf := buf + [b];
        WireOne([b]);
        RewritePlain([b]);
        conn.Send([b]);
      }
    }

    /** The tokens to come. */
    ghost function Coming(): seq<Lexeme>
      requires reader.Valid()
      reads reader
    {
      Lex(reader.Rest(), reader.pos, reader.arrived)
    }

    /** One iteration of the loop in ReadLine: one token, and the end of the line if there is one. */
    method ReadToken() returns (result: Option<Result>)
      requires reader.Valid()
      modifies this`buf, this`history, this`histPos, reader`pos, conn
      ensures reader.Valid()
      ensures old(Coming()) == [] ==>
        && result == Some(Disconnected) && Coming() == []
        && Now() == old(Now()) && conn.wire == old(conn.wire)
      ensures old(Coming()) != [] ==>
        var e := Step(old(Now()), old(Coming())[0].tok, zones);
        && result == Ending(e.outcome) && reader.pos > old(reader.pos)
        && Now() == e.ed && conn.wire == old(conn.wire) + Wire(e.writes)
        && Coming() == old(Coming())[Consumed(old(Coming()), e)..]
    {
      ghost var s, at := reader.Rest(), reader.pos;
      var b := reader.ReadByte();
      if b.None? {
        return Some(Disconnected);
      }
      if b.value == CR {
        assert Lex(s, at, reader.arrived) == [Lexeme(Key(CR), reader.arrived(at))] + Coming();
        var line := Return();
        return Some(Line(line));
      }
      LexKey(s, at, reader.arrived);
      assert reader.stream[reader.pos - 1..] == s;
      result := ReadOther(b.value);
    }

    /** The other branches: one token that begins with the byte `b`, which has just been read. */
    method ReadOther(b: Byte) returns (result: Option<Result>)
      requires reader.Valid() && b != CR
      requires reader.pos > 0 && reader.stream[reader.pos - 1] == b
      modifies this`buf, this`history, this`histPos, reader`pos, conn
      ensures reader.Valid() && reader.pos >= old(reader.pos)
      ensures var ls := Lex(old(reader.stream[reader.pos - 1..]), old(reader.pos) - 1, reader.arrived);
        if ls == [] then
          && result == Some(Disconnected) && Coming() == []
          && Now() == old(Now()) && conn.wire == old(conn.wire)
        else
          var e := Step(old(Now()), ls[0].tok, zones);
          && result == Ending(e.outcome) && Coming() == ls[1..]
          && Now() == e.ed && conn.wire == old(conn.wire) + Wire(e.writes)
    {
      ghost var at := reader.pos - 1;
      LexToken(reader.stream, at, reader.arrived);
      var outcome, failed := Dispatch(b);
      LexRest(reader.stream, at, reader.pos, reader.arrived);
      result := if failed then Some(Disconnected) else Ending(outcome);
    }

    /** After a CR: swallow a LF or NUL that has already arrived, and submit. */
    method Return() returns (line: Bytes)
      requires reader.Valid()
      modifies this`history, reader`pos, conn
      ensures reader.Valid() && reader.pos >= old(reader.pos)
      ensures var e := Editing.Submit(old(Now()));
        Now() == e.ed && conn.wire == old(conn.wire) + Wire(e.writes) && e.outcome == Submitted(line)
      ensures forall a :: var ls := [Lexeme(Key(CR), a)] + old(Coming()); Coming() == ls[1 + Swallowed(ls)..]
    {
      var next := reader.PeekBuffered();
      LexNewline(reader.Rest(), reader.pos, reader.arrived);
      if next == Some(LF) || next == Some(NUL) {
        var _ := reader.ReadByte();
      }
      line := Submit();
    }

    /** `sent` is what is sent after the prompt. */
    method ReadLine() returns (result: Result, ghost sent: Bytes)
      requires reader.Valid()
      modifies this`buf, this`history, this`histPos, reader`pos, conn
      ensures reader.Valid()
      ensures var r := ReadFrom(Keys(zones), Fresh(old(history)), old(Coming()));
        && result == r.result
        && Now() == r.ed
        && Coming() == old(Coming())[r.used..]
        && sent == Wire(r.writes)
      ensures conn.wire == old(conn.wire) + PROMPT + sent
      ensures Typing.Serves(old(reader.Rest()), old(history), result, history, sent)
    {
      Typing.ReadServes(zones, history, reader.Rest(), reader.pos, reader.arrived);
      Begin();
      sent := Wire(ReadFrom(Keys(zones), Now(), Coming()).writes);
      result := ReadTokens();
    }

    /** An empty line, the position behind the history, and the prompt. */
    method Begin()
      modifies this`buf, this`histPos, conn
      ensures Now() == Fresh(old(history)) && conn.wire == old(conn.wire) + PROMPT
    {
      buf := [];
      histPos := |history|;
      RewritePlain(PROMPT);
      conn.Send(PROMPT);
    }

    /** The loop of ReadLine. */
    method ReadTokens() returns (result: Result)
      requires reader.Valid()
      modifies this`buf, this`history, this`histPos, reader`pos, conn
      ensures reader.Valid()
      ensures var r := ReadFrom(Keys(zones), old(Now()), old(Coming()));
        && result == r.result
        && Now() == r.ed
        && Coming() == old(Coming())[r.used..]
        && conn.wire == old(conn.wire) + Wire(r.writes)
    {
      ghost var whole := ReadFrom(Keys(zones), Now(), Coming());
      ghost var rest := whole;
      ghost var used := 0;
      while true
        invariant reader.Valid()
        invariant used <= |old(Coming())| && Coming() == old(Coming())[used..]
        invariant rest == ReadFrom(Keys(zones), Now(), Coming())
        invariant rest.result == whole.result && rest.ed == whole.ed && used + rest.used == whole.used
        invariant conn.wire + Wire(rest.writes) == old(conn.wire) + Wire(whole.writes)
        decreases |reader.stream| - reader.pos
      {
        var ending;
        ending, rest := Iterate(rest);
        if ending.Some? {
          return ending.value;
        }
        used := used + 1;
      }
    }

    method Iterate(ghost rest: Read) returns (ending: Option<Result>, ghost next: Read)
      requires reader.Valid()
      requires rest == ReadFrom(Keys(zones), Now(), Coming())
      modifies this`buf, this`history, this`histPos, reader`pos, conn
      ensures reader.Valid()
      ensures ending.Some? ==>
        && ending.value == rest.result && Now() == rest.ed
        && Coming() == old(Coming())[rest.used..] && conn.wire == old(conn.wire) + Wire(rest.writes)
      ensures ending.None? ==>
        && reader.pos > old(reader.pos) && old(Coming()) != [] && Coming() == old(Coming())[1..]
        && next == ReadFrom(Keys(zones), Now(), Coming())
        && next.result == rest.result && next.ed == rest.ed && 1 + next.used == rest.used
        && conn.wire + Wire(next.writes) == old(conn.wire) + Wire(rest.writes)
    {
      ghost var ed, ls := Now(), Coming();
      ending := ReadToken();
      next := ReadFrom(Keys(zones), Now(), Coming());
      if ls == [] {
        WireOne([]);
        assert conn.wire + [] == conn.wire;
      } else {
        ghost var e := Keys(zones)(ed, ls[0].tok);
        if e.outcome.More? { WireAfter(old(conn.wire), e.writes, next.writes); }
      }
    }
  }
}
