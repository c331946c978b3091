/** `crlfConn`: every write has its bare LF turned into the CR LF that RFC 854 asks for. */
module Crlf {
  import opened Prelude
  import opened Telnet

  function Rewrite(p: Bytes): Bytes {
    if p == [] then []
    else
      var n := |p| - 1;
      Rewrite(p[..n]) + (if p[n] == LF && (n == 0 || p[n - 1] != CR) then [CR, LF] else [p[n]])
  }

  // --- What it means ---------------------------------------------------------------------------------

  predicate NoBareLF(p: Bytes) {
    forall i :: 0 <= i < |p| && p[i] == LF ==> i > 0 && p[i - 1] == CR
  }

  /** `p` without the CR before each LF: the lines, however they were ended. */
  function Lines(p: Bytes): Bytes {
    if p == [] then []
    else
      var n := |p| - 1;
      if p[n] == LF && n > 0 && p[n - 1] == CR then Lines(p[..n - 1]) + [LF]
      else Lines(p[..n]) + [p[n]]
  }

  lemma {:induction false} RewriteEnd(p: Bytes)
    requires p != []
    ensures Rewrite(p) != [] && Rewrite(p)[|Rewrite(p)| - 1] == p[|p| - 1]
  {
  }

  lemma {:induction false} RewriteNoBareLF(p: Bytes)
    ensures NoBareLF(Rewrite(p))
  {
    if p != [] {
      var n := |p| - 1;
      RewriteNoBareLF(p[..n]);
      if n > 0 { RewriteEnd(p[..n]); }
    }
  }

  lemma {:induction false} LinesEnd(p: Bytes)
    requires p != []
    ensures Lines(p) != [] && Lines(p)[|Lines(p)| - 1] == p[|p| - 1]
  {
  }

  lemma LinesSnoc(p: Bytes, x: Byte)
    requires !(x == LF && EndsInCR(p))
    ensures Lines(p + [x]) == Lines(p) + [x]
  {
    var q := p + [x];
    assert q[|p|] == x && q[..|p|] == p;
    if p != [] { assert q[|p| - 1] == p[|p| - 1]; }
  }

  lemma LinesNewline(p: Bytes)
    ensures Lines(p + [CR, LF]) == Lines(p) + [LF]
  {
    var q := p + [CR, LF];
    assert q[|p|] == CR && q[|p| + 1] == LF && q[..|p|] == p;
  }

  /** What is added for one more byte `x`, after a CR or not. */
  function Added(x: Byte, afterCR: bool): Bytes {
    if x == LF && !afterCR then [CR, LF] else [x]
  }

  predicate EndsInCR(s: Bytes) { s != [] && s[|s| - 1] == CR }

  lemma RewriteSnoc(s: Bytes, x: Byte)
    ensures Rewrite(s + [x]) == Rewrite(s) + Added(x, EndsInCR(s))
  {
    var p := s + [x];
    assert p[..|s|] == s && p[|s|] == x;
    if s != [] { assert p[|s| - 1] == s[|s| - 1]; }
  }

  lemma RewriteNewline(s: Bytes)
    ensures Rewrite(s + [CR, LF]) == Rewrite(s) + [CR, LF]
  {
    RewriteSnoc(s, CR);
    RewriteSnoc(s + [CR], LF);
    assert s + [CR, LF] == (s + [CR]) + [LF];
    assert Rewrite(s) + [CR, LF] == (Rewrite(s) + [CR]) + [LF];
  }

  lemma {:induction false} RewriteKeepsLines(p: Bytes)
    ensures Lines(Rewrite(p)) == Lines(p)
  {
    if p != [] {
      var c, x := p[..|p| - 1], p[|p| - 1];
      if x == LF && EndsInCR(c) {
        var b := c[..|c| - 1];
        assert p == b + [CR, LF];
        RewriteKeepsLines(b);
        RewriteNewline(b);
        LinesNewline(Rewrite(b));
        LinesNewline(b);
      } else {
        assert p == c + [x];
        RewriteKeepsLines(c);
        RewriteSnoc(c, x);
        LinesSnoc(c, x);
        if x == LF { LinesNewline(Rewrite(c)); } else { LinesSnoc(Rewrite(c), x); }
      }
    }
  }

  lemma SameEnd(a: Bytes, x: Byte, b: Bytes, y: Byte)
    requires a + [x] == b + [y]
    ensures a == b && x == y
  {
    assert (a + [x])[..|a|] == a && (b + [y])[..|b|] == b;
    assert (a + [x])[|a|] == x && (b + [y])[|b|] == y;
  }

  lemma PrefixNoBareLF(p: Bytes, k: nat)
    requires NoBareLF(p) && k <= |p|
    ensures NoBareLF(p[..k])
  {
  }

  /** The last line end or byte of `p`, and what is before it. */
  lemma LastUnit(p: Bytes) returns (init: Bytes, x: Byte)
    requires NoBareLF(p) && p != []
    ensures NoBareLF(init) && |init| < |p| && Lines(p) == Lines(init) + [x]
    ensures p == init + if x == LF then [CR, LF] else [x]
  {
    var n := |p| - 1;
    x := p[n];
    if x == LF {
      init := p[..n - 1];
      assert p == init + [CR, LF];
      LinesNewline(init);
    } else {
      init := p[..n];
      assert p == init + [x];
      LinesSnoc(init, x);
    }
    PrefixNoBareLF(p, |init|);
  }

  lemma {:induction false} LinesDetermine(p: Bytes, q: Bytes)
    requires NoBareLF(p) && NoBareLF(q) && Lines(p) == Lines(q)
    ensures p == q
    decreases |p|
  {
    if p != [] && q != [] {
      var a, x := LastUnit(p);
      var b, y := LastUnit(q);
      SameEnd(Lines(a), x, Lines(b), y);
      LinesDetermine(a, b);
    } else {
      if p != [] { LinesEnd(p); }
      if q != [] { LinesEnd(q); }
    }
  }

  /** The rewriting is the only byte string with the lines of `p` and no bare LF. In particular it is idempotent. */
  lemma RewriteCharacterized(p: Bytes, q: Bytes)
    ensures q == Rewrite(p) <==> NoBareLF(q) && Lines(q) == Lines(p)
    ensures Rewrite(Rewrite(p)) == Rewrite(p)
  {
    RewriteNoBareLF(p);
    RewriteKeepsLines(p);
    if NoBareLF(q) && Lines(q) == Lines(p) { LinesDetermine(q, Rewrite(p)); }
    RewriteNoBareLF(Rewrite(p));
    RewriteKeepsLines(Rewrite(p));
    LinesDetermine(Rewrite(Rewrite(p)), Rewrite(p));
  }

  /** A CR and its LF are on the two sides of the cut. */
  predicate CutsNewline(a: Bytes, b: Bytes) {
    EndsInCR(a) && b != [] && b[0] == LF
  }

  lemma {:induction false} RewriteAppend(a: Bytes, b: Bytes)
    requires !CutsNewline(a, b)
    ensures Rewrite(a + b) == Rewrite(a) + Rewrite(b)
  {
    if b == [] {
      assert a + b == a && Rewrite(a) + [] == Rewrite(a);
    } else {
      var c, x := b[..|b| - 1], b[|b| - 1];
      var more := Added(x, EndsInCR(c));
      assert b == c + [x];
      Associative(a, c, [x]);
      RewriteSnoc(c, x);
      RewriteSnoc(a + c, x);
      if c == [] {
        assert a + c == a && Rewrite(a) + [] == Rewrite(a);
      } else {
        assert (a + c)[|a + c| - 1] == c[|c| - 1];
        RewriteAppend(a, c);
      }
      assert Rewrite(a + b) == (Rewrite(a) + Rewrite(c)) + more;
      Associative(Rewrite(a), Rewrite(c), more);
    }
  }

  lemma {:induction false} RewriteCutLength(a: Bytes, b: Bytes)
    requires CutsNewline(a, b)
    ensures |Rewrite(a + b)| + 1 == |Rewrite(a)| + |Rewrite(b)|
  {
    var c, x := b[..|b| - 1], b[|b| - 1];
    assert b == c + [x];
    Associative(a, c, [x]);
    RewriteSnoc(c, x);
    RewriteSnoc(a + c, x);
    if c == [] {
      assert a + c == a;
    } else {
      assert (a + c)[|a + c| - 1] == c[|c| - 1];
      RewriteCutLength(a, c);
    }
  }

  /** Splitting a write changes what is sent exactly when it separates a CR from its LF. */
  lemma SplitWriteExactly(a: Bytes, b: Bytes)
    ensures Rewrite(a + b) == Rewrite(a) + Rewrite(b) <==> !CutsNewline(a, b)
  {
    if CutsNewline(a, b) {
      RewriteCutLength(a, b);
    } else {
      RewriteAppend(a, b);
    }
  }

  /** Negotiations pass unchanged exactly when the option is not 10, the code of LF. */
  lemma NegotiationPassesExactly(verb: Byte, opt: Byte)
    requires IsVerb(verb)
    ensures Rewrite([IAC, verb, opt]) == [IAC, verb, opt] <==> opt != LF
    ensures Rewrite([IAC, verb, LF]) == [IAC, verb, CR, LF]
  {
    RewriteThree(IAC, verb, opt);
    RewriteThree(IAC, verb, LF);
  }

  lemma RewriteThree(a: Byte, b: Byte, c: Byte)
    requires a != LF && b != LF && b != CR
    ensures Rewrite([a, b, c]) == if c == LF then [a, b, CR, LF] else [a, b, c]
  {
    assert [a, b, c][..2] == [a, b];
    assert [a, b][..1] == [a];
    assert [a][..0] == [];
    assert Rewrite([a]) == [a];
    assert Rewrite([a, b]) == [a, b];
  }

  lemma {:induction false} RewritePlain(p: Bytes)
    requires LF !in p
    ensures Rewrite(p) == p
  {
    if p != [] {
      var n := |p| - 1;
      RewritePlain(p[..n]);
      assert p == p[..n] + [p[n]];
    }
  }

  // --- Partial writes ----------------------------------------------------------------------------------

  /** How many bytes of `p` are sent whole in the first `taken` bytes of the rewriting. */
  function Delivered(p: Bytes, taken: nat): (k: nat)
    ensures k <= |p| && |Rewrite(p[..k])| <= taken
    ensures k < |p| ==> |Rewrite(p[..k + 1])| > taken
  {
    if |Rewrite(p)| <= taken then
      assert p[..|p|] == p;
      |p|
    else
      assert p != [];
      var n := |p| - 1;
      var k := Delivered(p[..n], taken);
      assert p[..n][..k] == p[..k];
      assert k < n ==> p[..n][..k + 1] == p[..k + 1];
      assert k == n ==> p[..k + 1] == p;
      k
  }

  lemma {:induction false} RewriteGrows(p: Bytes)
    ensures |Rewrite(p)| >= |p|
    ensures |Rewrite(p)| == |p| <==> Rewrite(p) == p
  {
    if p != [] {
      var n := |p| - 1;
      RewriteGrows(p[..n]);
      assert p == p[..n] + [p[n]];
    }
  }

  lemma {:induction false} RewritePrefix(p: Bytes, k: nat)
    requires k <= |p|
    ensures Rewrite(p[..k]) <= Rewrite(p)
  {
    if k < |p| {
      RewritePrefix(p[..|p| - 1], k);
      assert p[..|p| - 1][..k] == p[..k];
    } else {
      assert p[..k] == p;
    }
  }

  /** The length that is reported for a partial write. */
  function Reported(p: Bytes, taken: nat): nat {
    if taken > |p| then |p| else taken
  }

  /** The bytes sent are those of the first `k` of `p`, and perhaps the CR added before the next. */
  lemma SentSoFar(p: Bytes, taken: nat) returns (k: nat, sent: Bytes)
    requires taken < |Rewrite(p)|
    ensures k == Delivered(p, taken) < |p| && sent == Rewrite(p[..k]) && |sent| >= k
    ensures Rewrite(p)[..taken] == if taken == |sent| then sent else sent + [CR]
    ensures taken != |sent| ==> p[k] == LF
  {
    k := Delivered(p, taken);
    assert k < |p| by { assert p[..|p|] == p; }
    sent := Rewrite(p[..k]);
    RewriteGrows(p[..k]);
    OneByteMore(p, k, p[..k]);
    RewritePrefix(p, k + 1);
    CutOff(Rewrite(p), Rewrite(p[..k + 1]), sent, Added(p[k], EndsInCR(p[..k])), taken);
  }

  lemma OneByteMore(p: Bytes, k: nat, c: Bytes)
    requires k < |p| && c == p[..k]
    ensures Rewrite(p[..k + 1]) == Rewrite(c) + Added(p[k], EndsInCR(c))
  {
    assert p[..k + 1] == c + [p[k]];
    RewriteSnoc(c, p[k]);
  }

  lemma CutOff(all: Bytes, upTo: Bytes, sent: Bytes, added: Bytes, taken: nat)
    requires upTo <= all && upTo == sent + added && |sent| <= taken < |upTo|
    requires |added| == 1 || (|added| == 2 && added[0] == CR)
    ensures all[..taken] == if taken == |sent| then sent else sent + [CR]
  {
    assert all[..taken] == upTo[..taken];
    if taken > |sent| { assert upTo[..taken] == sent + added[..1]; }
  }

  lemma OverReportedExactly(p: Bytes, taken: nat)
    requires taken < |Rewrite(p)|
    ensures Delivered(p, taken) <= Reported(p, taken)
    ensures Reported(p, taken) > Delivered(p, taken) <==> !(Rewrite(p)[..taken] <= p)
  {
    var k, sent := SentSoFar(p, taken);
    if |sent| > k {
      if Rewrite(p)[..taken] <= p { NoCRAdded(p, k); }
    } else {
      RewriteGrows(p[..k]);
      if taken != |sent| { assert Rewrite(p)[..taken][k] != p[k]; }
    }
  }

  /** A rewriting that begins as its input does has nothing added in that part. */
  lemma {:induction false} NoCRAdded(p: Bytes, k: nat)
    requires k <= |p| && Rewrite(p[..k]) <= p
    ensures |Rewrite(p[..k])| == k
  {
    if k > 0 {
      assert p[..k][..k - 1] == p[..k - 1];
      NoCRAdded(p, k - 1);
    }
  }

  // --- The connection ----------------------------------------------------------------------------------

  class CrlfConn {
    // The bytes the peer has been sent.
    var wire: Bytes

    constructor ()
      ensures wire == []
    {
      wire := [];
    }

    /** `Write`. The underlying connection takes the first `taken` bytes; fewer than all is an error, and there may be an
        error after all of them. Without an error the whole of `p` is reported; with one, more than what was sent of it
        exactly when a CR was added to that. */
    method Write(p: Bytes, taken: nat, broken: bool) returns (n: nat, failed: bool)
      requires taken <= |Rewrite(p)| && (taken < |Rewrite(p)| ==> broken)
      modifies this
      ensures wire == old(wire) + Rewrite(p)[..taken]
      ensures failed <==> broken
      ensures !failed ==> n == |p|
      ensures failed ==> n == if taken > |p| then |p| else taken
      ensures failed && taken < |Rewrite(p)| ==> Delivered(p, taken) <= n
      ensures failed && taken < |Rewrite(p)| ==> (n > Delivered(p, taken) <==> !(Rewrite(p)[..taken] <= p))
    {
      if taken < |Rewrite(p)| { OverReportedExactly(p, taken); }
      var out := p;
      if LF !in p {
        RewritePlain(p);
      } else {
        out := Translate(p);
      }
      wire := wire + out[..taken];
      failed := broken;
      n := taken;
      if n > |p| { n := |p|; }
      if !failed { n := |p|; }
    }

    /** A write that the underlying connection takes in full. */
    method Send(p: Bytes)
      modifies this
      ensures wire == old(wire) + Rewrite(p)
    {
      var n, failed := Write(p, |Rewrite(p)|, false);
      assert Rewrite(p)[..|Rewrite(p)|] == Rewrite(p);
    }

    method Translate(p: Bytes) returns (out: Bytes)
      ensures out == Rewrite(p)
    {
      out := [];
      for i := 0 to |p|
        invariant out == Rewrite(p[..i])
      {
        assert p[..i + 1][..i] == p[..i];
        if p[i] == LF && (i == 0 || p[i - 1] != CR) {
          out := out + [CR];
        }
        out := out + [p[i]];
      }
      assert p[..|p|] == p;
    }
  }
}
