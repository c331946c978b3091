/** The code of one console connection. */
module TelnetServer {
  import opened Prelude
  import opened Telnet
  import opened Reading
  import opened Crlf
  import opened Editing
  import opened LineEditing
  import opened Session
  import Conversation

  method NegotiateTelnet(conn: CrlfConn)
    modifies conn
    ensures conn.wire == old(conn.wire) +
      Rewrite([IAC, WILL, OPT_ECHO]) + Rewrite([IAC, WILL, OPT_SGA]) + Rewrite([IAC, DO, OPT_SGA])
  {
    conn.Send([IAC, WILL, OPT_ECHO]);
    conn.Send([IAC, WILL, OPT_SGA]);
    conn.Send([IAC, DO, OPT_SGA]);
  }

  method Greet(conn: CrlfConn, banner: Bytes)
    requires conn.wire == []
    modifies conn
    ensures conn.wire + PROMPT == Opening(banner).wire
  {
    NegotiateTelnet(conn);
    conn.Send(banner);
  }

  /** One turn of the session loop: a line is read, and unless it ends the session its command writes `output(n)`. */
  method ServeLine(le: LineEditor, output: Console, n: nat) returns (message: Option<Bytes>, end: End)
    requires le.reader.Valid()
    modifies le, le.reader`pos, le.conn
    ensures le.reader.Valid()
    ensures var r := ReadFrom(Keys(le.zones), Fresh(old(le.history)), old(le.Coming()));
      var m := AfterLine(output, r.result, Live(r.ed, old(le.conn.wire) + PROMPT + Wire(r.writes), n, true));
      && le.Coming() == old(le.Coming())[r.used..] && le.history == r.ed.history
      && (message.Some? <==> r.result.Line? && !Quits(Trim(r.result.line)))
      && (message.Some? ==>
            message.value == Trim(r.result.line) && m == Live(Fresh(le.history), le.conn.wire + PROMPT, n + 1, true))
      && (message.None? ==> end == EndOf(r.result) && le.conn.wire == m.wire && !m.open)
  {
    var result, _ := le.ReadLine();
    message, end := None, EndOf(result);
    if result.CtrlD? {
      le.conn.Send(GOODBYE);
    } else if result.Line? {
      var text := Trim(result.line);
      if text == "quit" || text == "q" {
        le.conn.Send(GOODBYE);
      } else {
        le.conn.Send(output(n));
        message := Some(text);
      }
    }
  }

  /** `HandleTelnetClient`. Handing a message to the event loop and waiting for `Done` is its n-th command writing
      `output(n)`; the banner's lines are one write. */
  method HandleTelnetClient(reader: Reader, zones: seq<Bytes>, output: Console, banner: Bytes)
    returns (messages: seq<Bytes>, history: seq<Bytes>, end: End, wire: Bytes)
    requires reader.Valid()
    modifies reader`pos
    ensures reader.Valid()
    ensures var ls := old(Lex(reader.Rest(), reader.pos, reader.arrived));
      && Trace(messages, history, end) == TraceFrom(Keys(zones), [], ls)
      && wire == Drive(Keys(zones), output, Opening(banner), ls).wire
    ensures Conversation.Agrees(old(reader.Rest()), Trace(messages, history, end))
  {
    Conversation.SessionAgrees(zones, [], reader.Rest(), reader.pos, reader.arrived);
    var conn := new CrlfConn();
    Greet(conn, banner);
    var le := new LineEditor(conn, reader, zones);
    messages := [];
    ghost var keys, all := Keys(zones), le.Coming();
    ghost var l, trace := Opening(banner), TraceFrom(keys, [], all);
    while true
      invariant reader.Valid() && fresh(conn) && fresh(le)
      invariant le.conn == conn && le.reader == reader && le.zones == zones
      invariant l == Live(Fresh(le.history), conn.wire + PROMPT, |messages|, true)
      invariant trace == TraceFrom(keys, le.history, le.Coming())
      invariant Prepend(messages, trace) == TraceFrom(keys, [], all)
      invariant Drive(keys, output, l, le.Coming()) == Drive(keys, output, Opening(banner), all)
      decreases |le.Coming()|
    {
      DriveByLine(keys, output, l, le.Coming());
      ghost var r := ReadFrom(keys, Fresh(le.history), le.Coming());
      var message;
      message, end := ServeLine(le, output, |messages|);
      if message.None? {
        return messages, le.history, end, conn.wire;
      }
      l := AfterLine(output, r.result, Live(r.ed, l.wire + Wire(r.writes), l.handed, true));
      trace := TraceFrom(keys, le.history, le.Coming());
      PrependNext(messages, message.value, trace);
      messages := messages + [message.value];
    }
  }

  ghost function Prepend(messages: seq<Bytes>, trace: Trace): Trace {
    trace.(messages := messages + trace.messages)
  }

  lemma PrependNext(messages: seq<Bytes>, message: Bytes, rest: Trace)
    ensures Prepend(messages, Handed(message, rest)) == Prepend(messages + [message], rest)
  {
    assert messages + ([message] + rest.messages) == (messages + [message]) + rest.messages;
  }
}
