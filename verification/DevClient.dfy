/** The local console: what `relayConnToStdout` shows of a telnet stream. */
module DevClient {
  import opened Prelude
  import opened Telnet
  import opened Reading

  /** The length of the data byte or command at the head of `s`; None if `s` is empty or ends within it. */
  function UnitLength(s: Bytes): (n: Option<nat>)
    ensures n.Some? ==> 1 <= n.value <= |s|
  {
    if s == [] then None
    else if s[0] != IAC then Some(1)
    else if CommandLength(s[1..]).None? then None
    else Some(CommandLength(s[1..]).value + 1)
  }

  /** What it shows: a data byte, or 255 for IAC IAC; no other command is data. */
  function UnitData(s: Bytes): Bytes
    requires s != []
  {
    if s[0] != IAC then [s[0]] else CommandData(s[1..])
  }

  function CommandData(s: Bytes): Bytes {
    if s != [] && s[0] == IAC then [IAC] else []
  }

  /** The bytes written to stdout for the stream `s`, whether or not it ends within a command. */
  function RelayData(s: Bytes): Bytes
    decreases |s|
  {
    if UnitLength(s).None? then [] else UnitData(s) + RelayData(s[UnitLength(s).value..])
  }

  /** The stream does not end within a command. */
  predicate CleanEnd(s: Bytes)
    decreases |s|
  {
    s == [] || (UnitLength(s).Some? && CleanEnd(s[UnitLength(s).value..]))
  }

  lemma FirstUnit(s: Bytes, more: Bytes)
    requires UnitLength(s).Some?
    ensures var n := UnitLength(s).value;
      && RelayData(s + more) == UnitData(s) + RelayData(s[n..] + more)
      && (CleanEnd(s + more) <==> CleanEnd(s[n..] + more))
  {
    if s[0] == IAC {
      CommandStable(s[1..], more);
      assert (s + more)[1..] == s[1..] + more;
    }
    assert (s + more)[UnitLength(s).value..] == s[UnitLength(s).value..] + more;
  }

  lemma {:induction false} RelayAppend(a: Bytes, b: Bytes)
    requires CleanEnd(a)
    ensures RelayData(a + b) == RelayData(a) + RelayData(b)
    ensures CleanEnd(a + b) <==> CleanEnd(b)
    decreases |a|
  {
    if a == [] {
      assert a + b == b;
    } else {
      var d, rest := UnitData(a), a[UnitLength(a).value..];
      FirstUnit(a, b);
      RelayAppend(rest, b);
      assert d + (RelayData(rest) + RelayData(b)) == (d + RelayData(rest)) + RelayData(b);
    }
  }

  lemma {:induction false} PlainRelay(s: Bytes)
    requires IAC !in s
    ensures CleanEnd(s) && RelayData(s) == s
  {
    if s != [] {
      PlainRelay(s[1..]);
      assert s == [s[0]] + s[1..];
    }
  }

  // --- Decoding inverts encoding ---------------------------------------------------------------------

  datatype Item = Data(b: Byte) | Control(cmd: Command)

  predicate WellFormedItem(x: Item) {
    x.Control? ==> WellFormed(x.cmd) && !x.cmd.EscapedIAC?
  }

  function EncodeItem(x: Item): Bytes {
    match x
    case Data(b) => if b == IAC then [IAC, IAC] else [b]
    case Control(cmd) => EncodeCommand(cmd)
  }

  function Encode(xs: seq<Item>): Bytes {
    if xs == [] then [] else EncodeItem(xs[0]) + Encode(xs[1..])
  }

  function DataOf(xs: seq<Item>): Bytes {
    if xs == [] then [] else (if xs[0].Data? then [xs[0].b] else []) + DataOf(xs[1..])
  }

  lemma ItemDecodes(x: Item, rest: Bytes)
    requires WellFormedItem(x)
    ensures RelayData(EncodeItem(x) + rest) == (if x.Data? then [x.b] else []) + RelayData(rest)
    ensures CleanEnd(EncodeItem(x) + rest) <==> CleanEnd(rest)
  {
    var e := EncodeItem(x);
    if x.Control? {
      CommandLengthOfEncoded(x.cmd, []);
      assert e[1..] + [] == e[1..];
    }
    assert UnitLength(e) == Some(|e|);
    FirstUnit(e, rest);
    assert e[|e|..] + rest == rest;
  }

  /** The console shows exactly the data bytes of any mix of data and well-formed commands. */
  lemma {:induction false} DecodeInvertsEncode(xs: seq<Item>)
    requires forall i :: 0 <= i < |xs| ==> WellFormedItem(xs[i])
    ensures RelayData(Encode(xs)) == DataOf(xs) && CleanEnd(Encode(xs))
  {
    if xs != [] {
      ItemDecodes(xs[0], Encode(xs[1..]));
      DecodeInvertsEncode(xs[1..]);
    }
  }

  // --- The code ----------------------------------------------------------------------------------------

  /** After an IAC SB: up to and including the IAC SE. */
  method SkipSubnegotiation(r: Reader) returns (failed: bool)
    requires r.Valid()
    modifies r`pos
    ensures r.Valid()
    ensures failed <==> SubLength(old(r.Rest())).None?
    ensures failed ==> r.pos == |r.stream|
    ensures !failed ==> r.pos == old(r.pos) + SubLength(old(r.Rest())).value
  {
    failed := false;
    ghost var payload, start := r.Rest(), r.pos;
    while true
      invariant r.Valid() && start <= r.pos
      invariant SubLength(payload) ==
        match SubLength(r.Rest()) { case None => None case Some(n) => Some(r.pos - start + n) }
      decreases |r.stream| - r.pos
    {
      var bb := r.ReadByte();
      if bb.None? {
        failed := true;
        return;
      }
      if bb.value != IAC {
        continue;
      }
      var se := r.ReadByte();
      if se.None? {
        failed := true;
        return;
      }
      if se.value == SE {
        return;
      }
    }
  }

  /** After an IAC: consumes exactly CommandLength bytes, or reports the end of the stream within the command. */
  method SkipTelnetIACSequence(r: Reader) returns (stdout: Bytes, failed: bool)
    requires r.Valid()
    modifies r`pos
    ensures r.Valid()
    ensures failed <==> CommandLength(old(r.Rest())).None?
    ensures failed ==> r.pos == |r.stream|
    ensures !failed ==> r.pos == old(r.pos) + CommandLength(old(r.Rest())).value
    ensures stdout == if failed then [] else CommandData(old(r.Rest()))
  {
    stdout, failed := [], false;
    var cmd := r.ReadByte();
    if cmd.None? {
      failed := true;
    } else if IsVerb(cmd.value) {
      var opt := r.ReadByte();
      failed := opt.None?;
    } else if cmd.value == SB {
      failed := SkipSubnegotiation(r);
    } else if cmd.value == IAC {
      stdout := [IAC];
    }
  }

  const NOTICE: Bytes := "Disconnected from server.\n"

  /** What is shown of `s`, after `shown`, when its first unit has been read and `rest` is left. */
  lemma UnitShown(shown: Bytes, s: Bytes, out: Bytes, rest: Bytes)
    requires UnitLength(s).Some? && rest == s[UnitLength(s).value..] && out == UnitData(s)
    ensures shown + RelayData(s) == (shown + out) + RelayData(rest)
    ensures CleanEnd(s) <==> CleanEnd(rest)
  {
    Associative(shown, out, RelayData(rest));
  }

  /** One iteration of the relay loop: one byte or command, or the end of the stream. */
  method RelayUnit(r: Reader) returns (stdout: Bytes, ended: bool, failed: bool)
    requires r.Valid()
    modifies r`pos
    ensures r.Valid() && (!ended && !failed ==> r.pos > old(r.pos))
    ensures ended <==> old(r.Rest()) == []
    ensures ended || failed <==> UnitLength(old(r.Rest())).None?
    ensures ended || failed ==> stdout == [] && r.pos == |r.stream|
    ensures !ended && !failed ==>
      stdout == UnitData(old(r.Rest())) && r.Rest() == old(r.Rest())[UnitLength(old(r.Rest())).value..]
  {
    var b := r.ReadByte();
    stdout, ended, failed := [], b.None?, false;
    if b.Some? {
      stdout := [b.value];
      if b.value == IAC {
        stdout, failed := SkipTelnetIACSequence(r);
      }
    }
  }

  method RelayConnToStdout(r: Reader) returns (stdout: Bytes)
    requires r.Valid()
    modifies r`pos
    ensures r.Valid() && r.pos == |r.stream|
    ensures stdout == RelayData(old(r.Rest())) + if CleanEnd(old(r.Rest())) then NOTICE else []
  {
    stdout := [];
    ghost var whole := r.Rest();
    while true
      invariant r.Valid()
      invariant RelayData(whole) == stdout + RelayData(r.Rest())
      invariant CleanEnd(whole) <==> CleanEnd(r.Rest())
      decreases |r.stream| - r.pos
    {
      ghost var s := r.Rest();
      var out, ended, failed := RelayUnit(r);
      if ended {
        stdout := stdout + NOTICE;
        return;
      }
      if failed {
        return;
      }
      UnitShown(stdout, s, out, r.Rest());
      stdout := stdout + out;
    }
  }
}
