/** What the person at the console sees: the editor's writes pass `crlfConn`, the network, the local console's
    `relayConnToStdout` and a terminal. */
module Screen {
  import opened Prelude
  import opened Telnet
  import opened Crlf
  import opened Editing
  import DevClient

  // --- A terminal: one column per byte, rows of unbounded width, nothing below the current row ----------

  datatype Terminal = Terminal(above: seq<Bytes>, row: Bytes, col: nat)

  function Put(row: Bytes, col: nat, b: Byte): Bytes {
    if col < |row| then row[col := b] else row + Blanks(col - |row|) + [b]
  }

  predicate Printable(b: Byte) { b >= ' ' && b != DEL && b != IAC }

  predicate AllPrintable(s: Bytes) {
    forall i :: 0 <= i < |s| ==> Printable(s[i])
  }

  function Show(t: Terminal, b: Byte): Terminal {
    if b == CR then t.(col := 0)
    else if b == LF then t.(above := t.above + [t.row], row := [])
    else if b == BS then t.(col := if t.col > 0 then t.col - 1 else 0)
    else if b >= ' ' && b != DEL then t.(row := Put(t.row, t.col, b), col := t.col + 1)
    else t
  }

  function ShowAll(t: Terminal, s: Bytes): Terminal
    decreases |s|
  {
    if s == [] then t else ShowAll(Show(t, s[0]), s[1..])
  }

  /** The terminal after the peer was sent `wire`. */
  function Display(t: Terminal, wire: Bytes): Terminal {
    ShowAll(t, DevClient.RelayData(wire))
  }

  /** The current row is the prompt and `buf` followed by blanks, and the cursor is behind `buf`. */
  predicate Shows(t: Terminal, buf: Bytes) {
    && t.col == |PROMPT| + |buf|
    && PROMPT + buf <= t.row
    && forall i :: t.col <= i < |t.row| ==> t.row[i] == ' '
  }

  predicate FreshRow(t: Terminal) {
    t.row == [] && t.col == 0
  }

  // --- Typing text -----------------------------------------------------------------------------------------

  lemma {:induction false} ShowAppend(t: Terminal, a: Bytes, b: Bytes)
    ensures ShowAll(t, a + b) == ShowAll(ShowAll(t, a), b)
    decreases |a|
  {
    if a == [] {
      assert a + b == b;
    } else {
      ShowAppend(Show(t, a[0]), a[1..], b);
      assert (a + b)[1..] == a[1..] + b;
    }
  }

  lemma ShowOne(t: Terminal, b: Byte)
    ensures ShowAll(t, [b]) == Show(t, b)
  {
    assert [b][1..] == [];
  }

  /** `s` written over `row` from column `col`, which is not beyond its end. */
  function Overwrite(row: Bytes, col: nat, s: Bytes): Bytes
    requires col <= |row|
  {
    row[..col] + s + (if col + |s| < |row| then row[col + |s|..] else [])
  }

  lemma OverwriteNext(row: Bytes, col: nat, s: Bytes)
    requires col <= |row| && s != []
    ensures Overwrite(Overwrite(row, col, [s[0]]), col + 1, s[1..]) == Overwrite(row, col, s)
  {
  }

  lemma {:induction false} ShowText(t: Terminal, s: Bytes)
    requires AllPrintable(s) && t.col <= |t.row|
    ensures ShowAll(t, s) == t.(row := Overwrite(t.row, t.col, s), col := t.col + |s|)
    decreases |s|
  {
    if s == [] {
      assert Overwrite(t.row, t.col, s) == t.row;
    } else {
      var u := Show(t, s[0]);
      assert u.row == Overwrite(t.row, t.col, [s[0]]);
      ShowText(u, s[1..]);
      OverwriteNext(t.row, t.col, s);
    }
  }

  /** Writes that end no command half-way are seen one after the other. */
  lemma DisplayAppend(t: Terminal, a: Bytes, b: Bytes)
    requires DevClient.CleanEnd(a)
    ensures Display(t, a + b) == Display(Display(t, a), b)
    ensures DevClient.CleanEnd(a + b) <==> DevClient.CleanEnd(b)
  {
    DevClient.RelayAppend(a, b);
    ShowAppend(t, DevClient.RelayData(a), DevClient.RelayData(b));
  }

  // --- One write at a time -----------------------------------------------------------------------------

  lemma PlainWrite(t: Terminal, w: Bytes)
    requires IAC !in w && NoBareLF(w)
    ensures Display(t, Rewrite(w)) == ShowAll(t, w) && DevClient.CleanEnd(Rewrite(w))
  {
    RewriteCharacterized(w, w);
    DevClient.PlainRelay(w);
  }

  lemma EchoShows(t: Terminal, buf: Bytes, b: Byte)
    requires Shows(t, buf) && Printable(b)
    ensures Shows(Display(t, Rewrite([b])), buf + [b])
    ensures DevClient.CleanEnd(Rewrite([b]))
  {
    PlainWrite(t, [b]);
    ShowText(t, [b]);
    assert PROMPT + (buf + [b]) == (PROMPT + buf) + [b];
    assert t.row[..t.col] == PROMPT + buf;
  }

  lemma BackspaceShows(t: Terminal, buf: Bytes)
    requires Shows(t, buf) && buf != []
    ensures Shows(Display(t, Rewrite([BS, ' ', BS])), buf[..|buf| - 1])
    ensures DevClient.CleanEnd(Rewrite([BS, ' ', BS]))
  {
    PlainWrite(t, [BS, ' ', BS]);
    var u := Show(t, BS);
    assert [BS, ' ', BS] == [BS] + ([' '] + [BS]);
    ShowAppend(t, [BS], [' '] + [BS]);
    ShowAppend(u, [' '], [BS]);
    ShowOne(t, BS);
    ShowOne(u, ' ');
    ShowOne(Show(u, ' '), BS);
    assert (PROMPT + buf)[..|PROMPT| + |buf| - 1] == PROMPT + buf[..|buf| - 1];
  }

  lemma PromptShows(t: Terminal)
    requires FreshRow(t)
    ensures Shows(Display(t, PROMPT), [])
  {
    DevClient.PlainRelay(PROMPT);
    ShowText(t, PROMPT);
    assert PROMPT + [] == PROMPT;
  }

  lemma Prompted(t: Terminal, s: Bytes)
    requires FreshRow(t) && AllPrintable(s)
    ensures Shows(ShowAll(t, PROMPT + s), s)
  {
    ShowText(t, PROMPT + s);
  }

  lemma NewLine(t: Terminal)
    ensures FreshRow(ShowAll(t, [CR, LF]))
  {
    assert [CR, LF] == [CR] + [LF];
    ShowAppend(t, [CR], [LF]);
    ShowOne(t, CR);
    ShowOne(Show(t, CR), LF);
  }

  lemma ShowFromStart(t: Terminal, s: Bytes)
    requires AllPrintable(s)
    ensures ShowAll(t, [CR] + s) == t.(row := Overwrite(t.row, 0, s), col := |s|)
  {
    ShowAppend(t, [CR], s);
    ShowOne(t, CR);
    ShowText(Show(t, CR), s);
  }

  lemma ShowTwice(t: Terminal, first: Bytes, second: Bytes)
    requires AllPrintable(first) && AllPrintable(second)
    ensures ShowAll(t, ([CR] + first) + ([CR] + second)) ==
            t.(row := Overwrite(Overwrite(t.row, 0, first), 0, second), col := |second|)
  {
    ShowAppend(t, [CR] + first, [CR] + second);
    ShowFromStart(t, first);
    ShowFromStart(ShowAll(t, [CR] + first), second);
  }

  /** Redrawing the line covers the whole old one. */
  lemma RedrawShows(t: Terminal, buf: Bytes, s: Bytes, pad: Bytes)
    requires Shows(t, buf) && AllPrintable(s)
    requires pad == if |buf| > |s| then Blanks(|buf| - |s|) else []
    ensures Shows(Display(t, Rewrite([CR] + PROMPT + s + pad + [CR] + PROMPT + s)), s)
    ensures DevClient.CleanEnd(Rewrite([CR] + PROMPT + s + pad + [CR] + PROMPT + s))
  {
    var first, second := PROMPT + s + pad, PROMPT + s;
    var w := [CR] + PROMPT + s + pad + [CR] + PROMPT + s;
    assert w == ([CR] + first) + ([CR] + second);
    TwiceWritten(t, first, second);
    Covered(t.row, first, second, |PROMPT| + |buf|);
  }

  lemma TwiceWritten(t: Terminal, first: Bytes, second: Bytes)
    requires AllPrintable(first) && AllPrintable(second)
    ensures var w := ([CR] + first) + ([CR] + second);
      && DevClient.CleanEnd(Rewrite(w))
      && Display(t, Rewrite(w)) == t.(row := Overwrite(Overwrite(t.row, 0, first), 0, second), col := |second|)
  {
    PlainWrite(t, ([CR] + first) + ([CR] + second));
    ShowTwice(t, first, second);
  }

  lemma Covered(row: Bytes, first: Bytes, second: Bytes, n: nat)
    requires second <= first && n <= |first| && n <= |row|
    requires forall i :: |second| <= i < |first| ==> first[i] == ' '
    requires forall i :: n <= i < |row| ==> row[i] == ' '
    ensures var r := Overwrite(Overwrite(row, 0, first), 0, second);
      second <= r && forall i :: |second| <= i < |r| ==> r[i] == ' '
  {
  }

  /** Listing the candidates moves to a new row that shows the completed line. */
  lemma ListingShows(t: Terminal, listing: Bytes, s: Bytes)
    requires AllPrintable(listing) && AllPrintable(s)
    ensures Shows(Display(t, Rewrite("\r\n" + listing + "\r\n" + PROMPT + s)), s)
    ensures DevClient.CleanEnd(Rewrite("\r\n" + listing + "\r\n" + PROMPT + s))
  {
    var w := "\r\n" + listing + "\r\n" + PROMPT + s;
    ListingText(listing, s);
    PlainWrite(t, w);
    ShowAppend(t, [CR, LF], listing + ([CR, LF] + (PROMPT + s)));
    ListingShown(ShowAll(t, [CR, LF]), listing, s);
  }

  lemma ListingText(listing: Bytes, s: Bytes)
    requires AllPrintable(listing) && AllPrintable(s)
    ensures var w := "\r\n" + listing + "\r\n" + PROMPT + s;
      w == [CR, LF] + (listing + ([CR, LF] + (PROMPT + s))) && IAC !in w && NoBareLF(w)
  {
  }

  lemma ListingShown(t: Terminal, listing: Bytes, s: Bytes)
    requires AllPrintable(s)
    ensures Shows(ShowAll(t, listing + ([CR, LF] + (PROMPT + s))), s)
  {
    var u := ShowAll(t, listing);
    ShowAppend(t, listing, [CR, LF] + (PROMPT + s));
    ShowAppend(u, [CR, LF], PROMPT + s);
    NewLine(u);
    Prompted(ShowAll(u, [CR, LF]), s);
  }

  /** A negotiation is invisible, except that the connection breaks one for option 10 into a visible LF. */
  lemma ReplyShows(t: Terminal, verb: Byte, opt: Byte)
    requires IsVerb(verb)
    ensures Display(t, Rewrite([IAC, verb, opt])) == if opt == LF then Show(t, LF) else t
    ensures DevClient.CleanEnd(Rewrite([IAC, verb, opt]))
  {
    RewriteThree(IAC, verb, opt);
    if opt == LF {
      var c := Negotiate(verb, CR);
      assert [IAC, verb, CR, LF] == DevClient.EncodeItem(DevClient.Control(c)) + [LF];
      DevClient.ItemDecodes(DevClient.Control(c), [LF]);
      DevClient.PlainRelay([LF]);
      assert DevClient.RelayData([IAC, verb, CR, LF]) == [LF];
      ShowOne(t, LF);
    } else {
      var c := Negotiate(verb, opt);
      assert [IAC, verb, opt] == DevClient.EncodeItem(DevClient.Control(c)) + [];
      DevClient.ItemDecodes(DevClient.Control(c), []);
    }
  }

  /** Console output that ends its last line leaves a fresh row, whatever was on the screen. */
  lemma OutputLeavesFreshRow(t: Terminal, text: Bytes)
    requires IAC !in text && text != [] && text[|text| - 1] == LF
    ensures FreshRow(Display(t, Rewrite(text))) && DevClient.CleanEnd(Rewrite(text))
  {
    var w := Rewrite(text);
    RewriteNoBareLF(text);
    RewriteEnd(text);
    RewritePreserves(text);
    DevClient.PlainRelay(w);
    NewLineLast(t, w);
  }

  lemma NewLineLast(t: Terminal, w: Bytes)
    requires NoBareLF(w) && w != [] && w[|w| - 1] == LF
    ensures FreshRow(ShowAll(t, w))
  {
    var body := w[..|w| - 2];
    assert w == body + [CR, LF];
    ShowAppend(t, body, [CR, LF]);
    NewLine(ShowAll(t, body));
  }

  lemma {:induction false} RewritePreserves(p: Bytes)
    requires IAC !in p
    ensures IAC !in Rewrite(p)
  {
    if p != [] { RewritePreserves(p[..|p| - 1]); }
  }
}
