/** Lines that come back from the history: the screen shows one exactly if it holds no byte 255. */
module Recall {
  import opened Prelude
  import opened Telnet
  import opened Crlf
  import opened Editing
  import opened DevClient
  import opened Screen
  import ScreenAgreement

  /** What the edit buffer can hold. */
  predicate AllVisible(s: Bytes) {
    forall i :: 0 <= i < |s| ==> s[i] >= ' ' && s[i] != DEL
  }

  /** How many bytes 255. */
  function Count(s: Bytes): nat {
    multiset(s)[IAC]
  }

  lemma CountSplit(s: Bytes, k: nat)
    requires k <= |s|
    ensures Count(s) == Count(s[..k]) + Count(s[k..])
  {
    assert s == s[..k] + s[k..];
  }

  lemma CountHead(s: Bytes)
    requires s != []
    ensures Count(s) == Count(s[1..]) + (if s[0] == IAC then 1 else 0)
  {
    assert s == [s[0]] + s[1..];
  }

  lemma NoneCounted(s: Bytes)
    ensures IAC in s <==> Count(s) > 0
  {
    assert IAC in s <==> IAC in multiset(s);
  }

  // --- What the relay makes of raw bytes 255 ---------------------------------------------------------------

  /** A unit takes two bytes 255 for each that it shows, and a command at least one for none. */
  lemma UnitCount(s: Bytes)
    requires UnitLength(s).Some?
    ensures var n := UnitLength(s).value;
      && 2 * Count(UnitData(s)) <= Count(s[..n])
      && (s[0] == IAC && UnitData(s) == [] ==> Count(s[..n]) > 0)
      && |UnitData(s)| <= n && (s[0] == IAC ==> |UnitData(s)| < n)
  {
    var unit := s[..UnitLength(s).value];
    CountHead(unit);
    if s[0] == IAC && UnitData(s) != [] { CountHead(unit[1..]); }
  }

  lemma {:induction false} RelayCount(s: Bytes)
    ensures 2 * Count(RelayData(s)) <= Count(s)
    decreases |s|
  {
    if UnitLength(s).Some? {
      var n := UnitLength(s).value;
      UnitCount(s);
      RelayCount(s[n..]);
      CountSplit(s, n);
    }
  }

  /** Text behind an unfinished command is drawn into it, so not every byte 255 is one of a pair. */
  lemma {:induction false} BrokenCount(a: Bytes, b: Bytes)
    requires !CleanEnd(a) && b != [] && b[0] != IAC
    ensures 2 * Count(RelayData(a + b)) < Count(a + b)
    decreases |a|
  {
    if UnitLength(a).Some? {
      var n := UnitLength(a).value;
      FirstUnit(a, b);
      UnitCount(a);
      BrokenCount(a[n..], b);
      CountSplit(a, n);
    } else {
      var s := a + b;
      assert s[0] == IAC && s[1] == if |a| > 1 then a[1] else b[0];
      CountHead(s);
      if UnitLength(s).Some? {
        var n := UnitLength(s).value;
        UnitCount(s);
        RelayCount(s[n..]);
        CountSplit(s, n);
      }
    }
  }

  lemma {:induction false} RelayShorter(s: Bytes)
    ensures |RelayData(s)| <= |s|
    ensures IAC in s ==> |RelayData(s)| < |s|
    decreases |s|
  {
    if UnitLength(s).Some? {
      UnitCount(s);
      RelayShorter(s[UnitLength(s).value..]);
      assert s[0] != IAC ==> s == [s[0]] + s[1..];
    }
  }

  lemma {:induction false} RelayVisible(s: Bytes)
    requires AllVisible(s)
    ensures AllVisible(RelayData(s))
    decreases |s|
  {
    if UnitLength(s).Some? { RelayVisible(s[UnitLength(s).value..]); }
  }

  // --- What the terminal makes of it -------------------------------------------------------------------------

  lemma {:induction false} RowCount(t: Terminal, s: Bytes)
    ensures Count(ShowAll(t, s).row) <= Count(t.row) + Count(s)
    decreases |s|
  {
    if s != [] {
      ShowCount(t, s[0]);
      RowCount(Show(t, s[0]), s[1..]);
      CountHead(s);
    }
  }

  lemma ShowCount(t: Terminal, b: Byte)
    ensures Count(Show(t, b).row) <= Count(t.row) + if b == IAC then 1 else 0
  {
    if t.col < |t.row| {
      assert t.row == t.row[..t.col] + [t.row[t.col]] + t.row[t.col + 1..];
      assert t.row[t.col := b] == t.row[..t.col] + [b] + t.row[t.col + 1..];
    } else {
      NoneCounted(Blanks(t.col - |t.row|));
    }
  }

  lemma {:induction false} TextColumns(t: Terminal, s: Bytes)
    requires AllVisible(s)
    ensures ShowAll(t, s).col == t.col + |s|
    decreases |s|
  {
    if s != [] { TextColumns(Show(t, s[0]), s[1..]); }
  }

  lemma ShowsCount(t: Terminal, s: Bytes)
    requires Shows(t, s)
    ensures Count(t.row) >= Count(s)
  {
    assert t.row == PROMPT + s + t.row[|PROMPT| + |s|..];
  }

  // --- The redraw ----------------------------------------------------------------------------------------------

  /** The first and the second half of what `setLine` writes. */
  function FirstHalf(s: Bytes, pad: Bytes): Bytes { [CR] + PROMPT + s + pad }

  function SecondHalf(s: Bytes): Bytes { [CR] + PROMPT + s }

  lemma HalvesCount(s: Bytes, pad: Bytes)
    requires IAC !in pad
    ensures Count(FirstHalf(s, pad) + SecondHalf(s)) == 2 * Count(s)
  {
    NoneCounted(pad);
    NoneCounted([CR] + PROMPT);
    assert FirstHalf(s, pad) == ([CR] + PROMPT) + s + pad && SecondHalf(s) == ([CR] + PROMPT) + s;
  }

  /** If the first half leaves the relay between two units, the second shows fewer columns than `s` has bytes. */
  lemma SecondHalfColumns(t: Terminal, s: Bytes, pad: Bytes)
    requires AllVisible(s) && CleanEnd(FirstHalf(s, pad))
    ensures Display(t, FirstHalf(s, pad) + SecondHalf(s)).col == |PROMPT| + |RelayData(s)|
  {
    var first := RelayData(FirstHalf(s, pad));
    RelayAppend(FirstHalf(s, pad), SecondHalf(s));
    RelaySecondHalf(s);
    ShowAppend(t, first, [CR] + (PROMPT + RelayData(s)));
    RelayVisible(s);
    LineColumns(ShowAll(t, first), PROMPT + RelayData(s));
  }

  lemma RelaySecondHalf(s: Bytes)
    ensures RelayData(SecondHalf(s)) == [CR] + (PROMPT + RelayData(s))
  {
    PlainRelay([CR] + PROMPT);
    RelayAppend([CR] + PROMPT, s);
    Associative([CR], PROMPT, RelayData(s));
  }

  lemma LineColumns(t: Terminal, s: Bytes)
    requires AllVisible(s)
    ensures ShowAll(t, [CR] + s).col == |s|
  {
    ShowAppend(t, [CR], s);
    ShowOne(t, CR);
    TextColumns(Show(t, CR), s);
  }

  lemma RawNotShown(t: Terminal, s: Bytes, pad: Bytes)
    requires AllVisible(s) && IAC in s && IAC !in pad && IAC !in t.row
    ensures !Shows(Display(t, FirstHalf(s, pad) + SecondHalf(s)), s)
  {
    var w := FirstHalf(s, pad) + SecondHalf(s);
    if CleanEnd(FirstHalf(s, pad)) {
      SecondHalfColumns(t, s, pad);
      RelayShorter(s);
    } else {
      BrokenCount(FirstHalf(s, pad), SecondHalf(s));
      HalvesCount(s, pad);
      RowCount(t, RelayData(w));
      NoneCounted(t.row);
      if Shows(Display(t, w), s) { ShowsCount(Display(t, w), s); }
    }
  }

  lemma RowOf(t: Terminal, buf: Bytes)
    requires Shows(t, buf) && IAC !in buf
    ensures IAC !in t.row
  {
    forall i | 0 <= i < |t.row| ensures t.row[i] != IAC {
      if i < t.col { assert t.row[i] == (PROMPT + buf)[i]; }
    }
  }

  lemma RedrawPlain(s: Bytes, pad: Bytes)
    requires AllVisible(s) && forall i :: 0 <= i < |pad| ==> pad[i] == ' '
    ensures var w := [CR] + PROMPT + s + pad + [CR] + PROMPT + s;
      w == FirstHalf(s, pad) + SecondHalf(s) && LF !in w && IAC !in pad
  {
  }

  /** A line is recalled on a screen that shows the buffer: it shows the line iff that holds no byte 255. */
  lemma RecallShowsExactly(t: Terminal, ed: Ed, delta: int)
    requires Shows(t, ed.buf) && IAC !in ed.buf
    requires forall i :: 0 <= i < |ed.history| ==> AllVisible(ed.history[i])
    ensures var e := HistoryMove(ed, delta);
      Shows(Display(t, Wire(e.writes)), e.ed.buf) <==> IAC !in e.ed.buf
  {
    if ed.history == [] {
      WireOne([]);
      assert Display(t, []) == t;
    } else {
      var pos := Clamp(ed.histPos + delta, |ed.history|);
      var line := if pos < |ed.history| then ed.history[pos] else [];
      assert HistoryMove(ed, delta) == SetLine(ed.(histPos := pos), line);
      RedrawShowsExactly(t, ed.(histPos := pos), line);
    }
  }

  lemma RedrawShowsExactly(t: Terminal, ed: Ed, s: Bytes)
    requires Shows(t, ed.buf) && IAC !in ed.buf && AllVisible(s)
    ensures Shows(Display(t, Wire(SetLine(ed, s).writes)), s) <==> IAC !in s
  {
    if IAC in s {
      var pad := if |ed.buf| > |s| then Blanks(|ed.buf| - |s|) else [];
      var w := [CR] + PROMPT + s + pad + [CR] + PROMPT + s;
      RowOf(t, ed.buf);
      RedrawPlain(s, pad);
      WireOne(w);
      RewritePlain(w);
      RawNotShown(t, s, pad);
    } else {
      ScreenAgreement.SetLineAgrees(t, ed, s);
    }
  }
}
