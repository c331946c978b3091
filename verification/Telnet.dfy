/** Telnet commands in a byte stream (RFC 854, "TELNET Command Structure"; RFC 855 for subnegotiation), and the
    keys that the line editor sees between them. */
module Telnet {
  import opened Prelude

  const IAC: Byte := '\U{FF}'
  const DONT: Byte := '\U{FE}'
  const DO: Byte := '\U{FD}'
  const WONT: Byte := '\U{FC}'
  const WILL: Byte := '\U{FB}'
  const SB: Byte := '\U{FA}'
  const SE: Byte := '\U{F0}'
  const OPT_ECHO: Byte := '\U{1}'
  const OPT_SGA: Byte := '\U{3}'

  predicate IsVerb(b: Byte) {
    b == WILL || b == WONT || b == DO || b == DONT
  }

  datatype Command =
    | Negotiate(verb: Byte, opt: Byte)
    | Subnegotiation(payload: Bytes)
    | EscapedIAC
    | Simple(code: Byte)

  predicate WellFormed(c: Command) {
    match c
    case Negotiate(verb, _) => IsVerb(verb)
    case Subnegotiation(_) => true
    case EscapedIAC => true
    case Simple(code) => !IsVerb(code) && code != SB && code != IAC
  }

  // --- Encoding ------------------------------------------------------------------------------------

  /** RFC 855: an IAC in a subnegotiation, as in data, is sent twice. */
  function Doubled(s: Bytes): Bytes {
    if s == [] then [] else (if s[0] == IAC then [IAC, IAC] else [s[0]]) + Doubled(s[1..])
  }

  function EncodeCommand(c: Command): Bytes {
    match c
    case Negotiate(verb, opt) => [IAC, verb, opt]
    case Subnegotiation(payload) => [IAC, SB] + Doubled(payload) + [IAC, SE]
    case EscapedIAC => [IAC, IAC]
    case Simple(code) => [IAC, code]
  }

  // --- Parsing -------------------------------------------------------------------------------------

  /** The number of bytes from `s` up to and including the IAC SE that ends a subnegotiation. */
  function SubLength(s: Bytes): (n: Option<nat>)
    ensures n.Some? ==> 2 <= n.value <= |s|
  {
    if s == [] then None
    else if s[0] != IAC then
      match SubLength(s[1..])
      case None => None
      case Some(n) => Some(n + 1)
    else if |s| == 1 then None
    else if s[1] == SE then Some(2)
    else
      match SubLength(s[2..])
      case None => None
      case Some(n) => Some(n + 2)
  }

  /** The number of bytes of the command that follows an IAC already read; None if the stream ends within it. */
  function CommandLength(s: Bytes): (n: Option<nat>)
    ensures n.Some? ==> 1 <= n.value <= |s|
  {
    if s == [] then None
    else if IsVerb(s[0]) then (if |s| == 1 then None else Some(2))
    else if s[0] == SB then
      match SubLength(s[1..])
      case None => None
      case Some(n) => Some(n + 1)
    else Some(1)
  }

  /** What the server has to know of a command: negotiations are answered, IAC IAC is data. */
  function CommandAt(s: Bytes): Command
    requires CommandLength(s).Some?
  {
    if IsVerb(s[0]) then Negotiate(s[0], s[1])
    else if s[0] == SB then Subnegotiation(s[1..CommandLength(s).value])
    else if s[0] == IAC then EscapedIAC
    else Simple(s[0])
  }

  lemma {:induction false} SubLengthOfDoubled(payload: Bytes, rest: Bytes)
    ensures SubLength(Doubled(payload) + [IAC, SE] + rest) == Some(|Doubled(payload)| + 2)
  {
    var s := Doubled(payload) + [IAC, SE] + rest;
    if payload != [] {
      SubLengthOfDoubled(payload[1..], rest);
      var t := Doubled(payload[1..]) + [IAC, SE] + rest;
      if payload[0] == IAC {
        assert s[2..] == t;
      } else {
        assert s[1..] == t;
      }
    }
  }

  /** The parser consumes exactly one encoded command, whatever follows it. */
  lemma CommandLengthOfEncoded(c: Command, rest: Bytes)
    requires WellFormed(c)
    ensures EncodeCommand(c)[0] == IAC
    ensures CommandLength(EncodeCommand(c)[1..] + rest) == Some(|EncodeCommand(c)| - 1)
  {
    match c
    case Subnegotiation(payload) =>
      var body := Doubled(payload) + [IAC, SE];
      var s := EncodeCommand(c)[1..] + rest;
      SubLengthOfDoubled(payload, rest);
      assert s == [SB] + (body + rest);
      assert s[1..] == body + rest;
    case Negotiate(verb, opt) => assert EncodeCommand(c)[1..] == [verb, opt];
    case _ =>
  }

  lemma {:induction false} SubLengthStable(s: Bytes, more: Bytes)
    requires SubLength(s).Some?
    ensures SubLength(s + more) == SubLength(s)
  {
    if s[0] != IAC {
      SubLengthStable(s[1..], more);
      assert (s + more)[1..] == s[1..] + more;
    } else if s[1] != SE {
      SubLengthStable(s[2..], more);
      assert (s + more)[2..] == s[2..] + more;
    }
  }

  lemma CommandStable(s: Bytes, more: Bytes)
    requires CommandLength(s).Some?
    ensures CommandLength(s + more) == CommandLength(s)
    ensures CommandAt(s + more) == CommandAt(s)
  {
    if s[0] == SB {
      SubLengthStable(s[1..], more);
      assert (s + more)[1..] == s[1..] + more;
      assert (s + more)[1..CommandLength(s).value] == s[1..CommandLength(s).value];
    }
  }

  // --- Tokens: what the line editor reads at a time --------------------------------------------------

  datatype Token =
    | Key(b: Byte)
    | Cmd(cmd: Command)
    | EscapeOther(b: Byte)
    | Arrow(b: Byte)

  /** The length of the token at the head of `s`; None if `s` is empty or the stream ends within the token. */
  function TokenLength(s: Bytes): (n: Option<nat>)
    ensures n.Some? ==> 1 <= n.value <= |s|
  {
    if s == [] then None
    else if s[0] == IAC then
      match CommandLength(s[1..])
      case None => None
      case Some(n) => Some(n + 1)
    else if s[0] == ESC then
      if |s| == 1 then None
      else if s[1] != '[' then Some(2)
      else if |s| == 2 then None
      else Some(3)
    else Some(1)
  }

  function TokenAt(s: Bytes): Token
    requires TokenLength(s).Some?
  {
    if s[0] == IAC then Cmd(CommandAt(s[1..]))
    else if s[0] == ESC then (if s[1] != '[' then EscapeOther(s[1]) else Arrow(s[2]))
    else Key(s[0])
  }

  /** All complete tokens of a stream. */
  function Tokens(s: Bytes): seq<Token>
    decreases |s|
  {
    match TokenLength(s)
    case None => []
    case Some(n) => [TokenAt(s)] + Tokens(s[n..])
  }

  /** The stream does not end within a token. */
  predicate WholeTokens(s: Bytes)
    decreases |s|
  {
    s == [] ||
    match TokenLength(s)
    case None => false
    case Some(n) => WholeTokens(s[n..])
  }

  lemma TokenStable(s: Bytes, more: Bytes)
    requires TokenLength(s).Some?
    ensures TokenLength(s + more) == TokenLength(s)
    ensures TokenAt(s + more) == TokenAt(s)
  {
    if s[0] == IAC {
      CommandStable(s[1..], more);
      assert (s + more)[1..] == s[1..] + more;
    }
  }

  lemma FirstToken(s: Bytes, more: Bytes)
    requires TokenLength(s).Some?
    ensures var n := TokenLength(s).value;
      && Tokens(s + more) == [TokenAt(s)] + Tokens(s[n..] + more)
      && (WholeTokens(s + more) <==> WholeTokens(s[n..] + more))
  {
    TokenStable(s, more);
    assert (s + more)[TokenLength(s).value..] == s[TokenLength(s).value..] + more;
  }

  lemma {:induction false} TokensAppend(s: Bytes, more: Bytes)
    requires WholeTokens(s)
    ensures Tokens(s + more) == Tokens(s) + Tokens(more)
    ensures WholeTokens(s + more) <==> WholeTokens(more)
    decreases |s|
  {
    if s == [] {
      assert s + more == more;
    } else {
      var n := TokenLength(s).value;
      FirstToken(s, more);
      TokensAppend(s[n..], more);
    }
  }

  lemma TokensOfCommand(c: Command, rest: Bytes)
    requires WellFormed(c)
    ensures TokenLength(EncodeCommand(c) + rest) == Some(|EncodeCommand(c)|)
    ensures WholeTokens(EncodeCommand(c))
    ensures exists d :: Tokens(EncodeCommand(c)) == [Cmd(d)] && (d.EscapedIAC? <==> c.EscapedIAC?)
    ensures c.Negotiate? || c.Simple? ==> Tokens(EncodeCommand(c)) == [Cmd(c)]
  {
    var e := EncodeCommand(c);
    CommandLengthOfEncoded(c, rest);
    CommandLengthOfEncoded(c, []);
    assert (e + rest)[1..] == e[1..] + rest;
    assert e[1..] + [] == e[1..];
    assert e[|e|..] == [];
    assert Tokens(e) == [TokenAt(e)] + Tokens([]);
    assert Tokens(e) == [Cmd(CommandAt(e[1..]))];
  }
}
