/** Tab completion of console commands. The only white space considered is the space. */
module Completion {
  import opened Prelude
  import opened Sorting

  const TOP_COMMANDS: seq<Bytes> := ["check", "debug", "help", "loglevel", "quit", "show", "undebug"]

  function SubCommands(cmd: Bytes): seq<Bytes> {
    if cmd == "debug" || cmd == "undebug" then ["all", "check", "dnsnode"]
    else if cmd == "loglevel" then ["error", "warning", "info", "debug"]
    else if cmd == "show" then ["clients", "jobs", "status", "zone", "zones"]
    else []
  }

  // --- Words -------------------------------------------------------------------------------------------

  function FirstWord(s: Bytes): (w: Bytes)
    ensures w <= s && ' ' !in w
    ensures |w| < |s| ==> s[|w|] == ' '
    ensures s != [] && s[0] != ' ' ==> w != []
  {
    if s == [] || s[0] == ' ' then [] else [s[0]] + FirstWord(s[1..])
  }

  /** `strings.Fields`. */
  function Fields(s: Bytes): seq<Bytes>
    decreases |s|
  {
    if s == [] then []
    else if s[0] == ' ' then Fields(s[1..])
    else [FirstWord(s)] + Fields(s[|FirstWord(s)|..])
  }

  /** `strings.Join(words, sep)`. */
  function Join(words: seq<Bytes>, sep: Bytes): Bytes {
    if words == [] then []
    else if |words| == 1 then words[0]
    else words[0] + sep + Join(words[1..], sep)
  }

  predicate IsWord(w: Bytes) { w != [] && ' ' !in w }

  predicate AreWords(ws: seq<Bytes>) {
    forall i :: 0 <= i < |ws| ==> IsWord(ws[i])
  }

  lemma {:induction false} FieldsAreWords(s: Bytes)
    ensures AreWords(Fields(s))
    decreases |s|
  {
    if s != [] {
      if s[0] == ' ' { FieldsAreWords(s[1..]); } else { FieldsAreWords(s[|FirstWord(s)|..]); }
    }
  }

  lemma {:induction false} FirstWordOf(w: Bytes, rest: Bytes)
    requires ' ' !in w && (rest != [] ==> rest[0] == ' ')
    ensures FirstWord(w + rest) == w
  {
    if w != [] {
      FirstWordOf(w[1..], rest);
      assert (w + rest)[1..] == w[1..] + rest;
    }
  }

  lemma FieldsOfWord(w: Bytes, rest: Bytes)
    requires IsWord(w)
    ensures Fields(w + [' '] + rest) == [w] + Fields(rest)
    ensures Fields(w) == [w]
  {
    var s := w + [' '] + rest;
    assert s == w + ([' '] + rest) && w + [] == w;
    FirstWordOf(w, [' '] + rest);
    FirstWordOf(w, []);
    assert s[|w|..] == [' '] + rest;
    assert ([' '] + rest)[1..] == rest;
  }

  /** Joining words and splitting again gives the words back; an empty last word is not seen. */
  lemma {:induction false} FieldsOfJoin(ws: seq<Bytes>, token: Bytes)
    requires AreWords(ws) && ' ' !in token
    ensures Fields(Join(ws + [token], " ")) == if token == [] then ws else ws + [token]
  {
    if ws == [] {
      if token != [] { FieldsOfWord(token, []); }
    } else {
      var line := Join(ws[1..] + [token], " ");
      assert (ws + [token])[1..] == ws[1..] + [token];
      FieldsOfWord(ws[0], line);
      FieldsOfJoin(ws[1..], token);
    }
  }

  lemma {:induction false} JoinEnd(ws: seq<Bytes>, token: Bytes)
    requires AreWords(ws) && ' ' !in token
    ensures var line := Join(ws + [token], " ");
      line != [] && line[|line| - 1] == ' ' <==> ws != [] && token == []
  {
    if ws != [] {
      var line := Join(ws[1..] + [token], " ");
      assert (ws + [token])[1..] == ws[1..] + [token];
      JoinEnd(ws[1..], token);
      assert Join(ws + [token], " ") == ws[0] + " " + line;
    }
  }

  /** The finished words of a line, and the word being typed (empty after a space). */
  function Parse(line: Bytes): (seq<Bytes>, Bytes) {
    var trailingSpace := line != [] && line[|line| - 1] == ' ';
    var fields := Fields(line);
    if !trailingSpace && fields != [] then (fields[..|fields| - 1], fields[|fields| - 1]) else (fields, [])
  }

  lemma ParseWords(line: Bytes)
    ensures AreWords(Parse(line).0) && ' ' !in Parse(line).1
  {
    FieldsAreWords(line);
  }

  lemma ParseJoin(ws: seq<Bytes>, token: Bytes)
    requires AreWords(ws) && ' ' !in token
    ensures Parse(Join(ws + [token], " ")) == (ws, token)
  {
    FieldsOfJoin(ws, token);
    JoinEnd(ws, token);
    assert (ws + [token])[..|ws|] == ws;
  }

  /** The words with gaps before, between and behind them. */
  function Spaced(gaps: seq<nat>, words: seq<Bytes>): Bytes
    requires |gaps| == |words| + 1
  {
    if words == [] then Blanks(gaps[0]) else Blanks(gaps[0]) + (words[0] + Spaced(gaps[1..], words[1..]))
  }

  lemma {:induction false} FieldsOfBlanks(n: nat, rest: Bytes)
    ensures Fields(Blanks(n) + rest) == Fields(rest)
  {
    var s := Blanks(n) + rest;
    if n == 0 {
      assert s == rest;
    } else {
      FieldsOfBlanks(n - 1, rest);
      assert s[1..] == Blanks(n - 1) + rest;
    }
  }

  lemma FieldsOfFirst(w: Bytes, rest: Bytes)
    requires IsWord(w) && (rest != [] ==> rest[0] == ' ')
    ensures Fields(w + rest) == [w] + Fields(rest)
  {
    FirstWordOf(w, rest);
    assert (w + rest)[|w|..] == rest;
  }

  /** Every line is words with gaps, of which those between words are not empty. Splitting gives the words; the word being
      typed is the last one if there is no gap behind it. */
  lemma {:induction false} FieldsExactly(gaps: seq<nat>, words: seq<Bytes>)
    requires |gaps| == |words| + 1 && AreWords(words) && forall i :: 0 < i < |words| ==> gaps[i] > 0
    ensures Fields(Spaced(gaps, words)) == words
  {
    if words == [] {
      FieldsOfBlanks(gaps[0], []);
      assert Blanks(gaps[0]) + [] == Blanks(gaps[0]);
    } else {
      var rest := Spaced(gaps[1..], words[1..]);
      FieldsExactly(gaps[1..], words[1..]);
      FieldsOfBlanks(gaps[0], words[0] + rest);
      FieldsOfFirst(words[0], rest);
    }
  }

  lemma {:induction false} SpacedEnd(gaps: seq<nat>, words: seq<Bytes>)
    requires |gaps| == |words| + 1 && AreWords(words)
    ensures var s := Spaced(gaps, words);
      s != [] && s[|s| - 1] == ' ' <==> gaps[|words|] > 0
  {
    if words != [] { SpacedEnd(gaps[1..], words[1..]); }
  }

  lemma ParseExactly(gaps: seq<nat>, words: seq<Bytes>)
    requires |gaps| == |words| + 1 && AreWords(words) && forall i :: 0 < i < |words| ==> gaps[i] > 0
    ensures Parse(Spaced(gaps, words)) ==
            if words != [] && gaps[|words|] == 0 then (words[..|words| - 1], words[|words| - 1]) else (words, [])
  {
    FieldsExactly(gaps, words);
    SpacedEnd(gaps, words);
    ParseOf(Spaced(gaps, words), words);
  }

  lemma ParseOf(s: Bytes, words: seq<Bytes>)
    requires Fields(s) == words
    ensures Parse(s) == if words != [] && !(s != [] && s[|s| - 1] == ' ') then (words[..|words| - 1], words[|words| - 1])
      else (words, [])
  {
  }

  /** The gaps and words of a line. */
  lemma {:induction false} IsSpaced(s: Bytes) returns (gaps: seq<nat>, words: seq<Bytes>)
    ensures |gaps| == |words| + 1 && AreWords(words) && (forall i :: 0 < i < |words| ==> gaps[i] > 0)
    ensures s == Spaced(gaps, words) && (s != [] && s[0] != ' ' ==> gaps[0] == 0)
    decreases |s|
  {
    if s == [] {
      gaps, words := [0], [];
    } else if s[0] == ' ' {
      gaps, words := IsSpaced(s[1..]);
      OneGapMore(gaps, words);
      gaps := gaps[0 := gaps[0] + 1];
      assert s == [' '] + s[1..];
    } else {
      var w := FirstWord(s);
      gaps, words := IsSpaced(s[|w|..]);
      assert s == w + s[|w|..];
      if words != [] && gaps[0] == 0 { FirstOfSpaced(gaps, words); }
      assert ([0] + gaps)[1..] == gaps && ([w] + words)[1..] == words;
      gaps, words := [0] + gaps, [w] + words;
      assert Blanks(0) == [];
    }
  }

  lemma OneGapMore(gaps: seq<nat>, words: seq<Bytes>)
    requires |gaps| == |words| + 1
    ensures Spaced(gaps[0 := gaps[0] + 1], words) == [' '] + Spaced(gaps, words)
  {
    assert gaps[0 := gaps[0] + 1][1..] == gaps[1..];
    assert Blanks(gaps[0] + 1) == [' '] + Blanks(gaps[0]);
  }

  lemma FirstOfSpaced(gaps: seq<nat>, words: seq<Bytes>)
    requires |gaps| == |words| + 1 && AreWords(words) && words != [] && gaps[0] == 0
    ensures Spaced(gaps, words) != [] && Spaced(gaps, words)[0] != ' '
  {
    assert words[0][0] in words[0];
  }

  // --- Candidates --------------------------------------------------------------------------------------

  function Filter(options: seq<Bytes>, prefix: Bytes): (r: seq<Bytes>)
    ensures forall x :: x in r <==> x in options && prefix <= x
  {
    if options == [] then []
    else
      var n := |options| - 1;
      Filter(options[..n], prefix) + (if prefix <= options[n] then [options[n]] else [])
  }

  /** The configured zone names that are offered; `zones` is the zone map's keys in some order. */
  function ZoneNames(zones: seq<Bytes>): (r: seq<Bytes>) {
    Sort(Visible(zones))
  }

  function Visible(zones: seq<Bytes>): (r: seq<Bytes>)
    ensures forall x :: x in r <==> x in zones && !("__" <= x)
  {
    if zones == [] then []
    else
      var n := |zones| - 1;
      Visible(zones[..n]) + (if "__" <= zones[n] then [] else [zones[n]])
  }

  function Options(fields: seq<Bytes>, zones: seq<Bytes>): seq<Bytes> {
    OptionsWith(fields, ZoneNames(zones))
  }

  function OptionsWith(fields: seq<Bytes>, zoneNames: seq<Bytes>): seq<Bytes> {
    if |fields| == 0 then TOP_COMMANDS
    else if |fields| == 1 then (if fields[0] == "check" then ["all"] + zoneNames else SubCommands(fields[0]))
    else if |fields| == 2 && fields[0] == "show" && fields[1] == "zone" then zoneNames
    else []
  }

  predicate PrefixOfAll(p: Bytes, items: seq<Bytes>) {
    forall i :: 0 <= i < |items| ==> p <= items[i]
  }

  /** `p` is a prefix of every item, and every prefix of every item is a prefix of `p`. */
  ghost predicate GreatestCommonPrefix(p: Bytes, items: seq<Bytes>) {
    PrefixOfAll(p, items) && forall q :: PrefixOfAll(q, items) ==> q <= p
  }

  function Shared(a: Bytes, b: Bytes): (p: Bytes)
    ensures p <= a && p <= b
  {
    if a == [] || b == [] || a[0] != b[0] then [] else [a[0]] + Shared(a[1..], b[1..])
  }

  lemma {:induction false} SharedGreatest(a: Bytes, b: Bytes, q: Bytes)
    requires q <= a && q <= b
    ensures q <= Shared(a, b)
  {
    if q != [] {
      assert q[1..] <= a[1..] && q[1..] <= b[1..];
      SharedGreatest(a[1..], b[1..], q[1..]);
      assert q == [a[0]] + q[1..];
    }
  }

  function CommonPrefix(items: seq<Bytes>): Bytes {
    if items == [] then []
    else if |items| == 1 then items[0]
    else Shared(CommonPrefix(items[..|items| - 1]), items[|items| - 1])
  }

  lemma {:induction false} CommonPrefixGreatest(items: seq<Bytes>)
    requires items != []
    ensures GreatestCommonPrefix(CommonPrefix(items), items)
  {
    var n := |items| - 1;
    if n > 0 {
      CommonPrefixGreatest(items[..n]);
      assert items == items[..n] + [items[n]];
      GreatestSnoc(CommonPrefix(items[..n]), items[..n], items[n]);
    }
  }

  lemma GreatestSnoc(p: Bytes, items: seq<Bytes>, x: Bytes)
    requires GreatestCommonPrefix(p, items)
    ensures GreatestCommonPrefix(Shared(p, x), items + [x])
  {
    var more := items + [x];
    forall i | 0 <= i < |more| ensures Shared(p, x) <= more[i] {
      if i < |items| { assert p <= items[i]; }
    }
    forall q | PrefixOfAll(q, more) ensures q <= Shared(p, x) {
      assert PrefixOfAll(q, items) by {
        forall i | 0 <= i < |items| ensures q <= items[i] { assert q <= more[i]; }
      }
      assert q <= more[|items|];
      SharedGreatest(p, x, q);
    }
  }

  lemma GreatestUnique(p: Bytes, q: Bytes, a: seq<Bytes>, b: seq<Bytes>)
    requires GreatestCommonPrefix(p, a) && GreatestCommonPrefix(q, b)
    requires forall x :: x in a <==> x in b
    ensures p == q
  {
    forall i | 0 <= i < |b| ensures p <= b[i] { assert b[i] in a; }
    forall i | 0 <= i < |a| ensures q <= a[i] { assert a[i] in b; }
    assert PrefixOfAll(p, b) && PrefixOfAll(q, a);
  }

  /** The order of the items, and repetitions, do not matter. */
  lemma CommonPrefixOrder(a: seq<Bytes>, b: seq<Bytes>)
    requires a != [] && forall x :: x in a <==> x in b
    ensures CommonPrefix(a) == CommonPrefix(b)
  {
    assert a[0] in b;
    CommonPrefixGreatest(a);
    CommonPrefixGreatest(b);
    GreatestUnique(CommonPrefix(a), CommonPrefix(b), a, b);
  }

  // --- Completion --------------------------------------------------------------------------------------

  function CliComplete(line: Bytes, zones: seq<Bytes>): (Bytes, seq<Bytes>) {
    var (fields, prefix) := Parse(line);
    var candidates := Sort(Filter(Options(fields, zones), prefix));
    if candidates == [] then (line, [])
    else
      var newLine := Join(fields + [CommonPrefix(candidates)], " ");
      (if |candidates| == 1 then newLine + " " else newLine, candidates)
  }

  /** What is offered: exactly the options that extend the word being typed, sorted. */
  lemma CandidatesExact(line: Bytes, zones: seq<Bytes>)
    ensures var (fields, prefix) := Parse(line);
      var candidates := CliComplete(line, zones).1;
      && Sorted(candidates)
      && multiset(candidates) == multiset(Filter(Options(fields, zones), prefix))
      && (forall x :: multiset(candidates)[x] == if prefix <= x then multiset(Options(fields, zones))[x] else 0)
      && (candidates == [] ==> CliComplete(line, zones).0 == line)
      && forall x :: x in candidates <==> x in Options(fields, zones) && prefix <= x
  {
    var (fields, prefix) := Parse(line);
    SortedMatches(Options(fields, zones), prefix);
  }

  lemma SortedMatches(options: seq<Bytes>, prefix: Bytes)
    ensures var r := Sort(Filter(options, prefix));
      && Sorted(r)
      && multiset(r) == multiset(Filter(options, prefix))
      && (forall x :: multiset(r)[x] == if prefix <= x then multiset(options)[x] else 0)
      && forall x :: x in r <==> x in options && prefix <= x
  {
    var matches := Filter(options, prefix);
    SortSorted(matches);
    SameElements(Sort(matches), matches);
    forall x ensures multiset(matches)[x] == if prefix <= x then multiset(options)[x] else 0 {
      FilterCount(options, prefix, x);
    }
  }

  lemma {:induction false} FilterCount(options: seq<Bytes>, prefix: Bytes, x: Bytes)
    ensures multiset(Filter(options, prefix))[x] == if prefix <= x then multiset(options)[x] else 0
  {
    if options != [] {
      var n := |options| - 1;
      assert options == options[..n] + [options[n]];
      FilterCount(options[..n], prefix, x);
    }
  }

  /** Words that begin with different letters differ. */
  predicate Different(words: seq<Bytes>) {
    && (forall i :: 0 <= i < |words| ==> words[i] != [])
    && forall i, j :: 0 <= i < j < |words| ==> words[i][0] != words[j][0]
  }

  lemma {:induction false} CountOnce(words: seq<Bytes>, x: Bytes)
    requires Different(words)
    ensures multiset(words)[x] == if x in words then 1 else 0
  {
    if words != [] {
      var n := |words| - 1;
      assert words == words[..n] + [words[n]];
      CountOnce(words[..n], x);
    }
  }

  lemma PairCount(a: Bytes, b: Bytes, x: Bytes)
    requires |a| != |b|
    ensures multiset([a, b])[x] == if x == a || x == b then 1 else 0
  {
  }

  /** Without a word before it: the commands, each once. */
  lemma CommandsExactly(zones: seq<Bytes>, x: Bytes)
    ensures multiset(Options([], zones))[x] ==
            if x in ["check", "debug", "help", "loglevel", "quit", "show", "undebug"] then 1 else 0
  {
    CommandCount(x);
  }

  lemma CommandCount(x: Bytes)
    ensures multiset(TOP_COMMANDS)[x] == if x in TOP_COMMANDS then 1 else 0
  {
    CountOnce(TOP_COMMANDS, x);
  }

  lemma DebugCount(x: Bytes)
    ensures multiset(SubCommands("debug"))[x] == if x in ["all", "check", "dnsnode"] then 1 else 0
  {
    CountOnce(["all", "check", "dnsnode"], x);
  }

  lemma LoglevelCount(x: Bytes)
    ensures multiset(SubCommands("loglevel"))[x] == if x in ["error", "warning", "info", "debug"] then 1 else 0
  {
    var words: seq<Bytes> := ["error", "warning", "info", "debug"];
    CountOnce(words, x);
    assert SubCommands("loglevel") == words;
  }

  lemma NotBoth(a: seq<Bytes>, b: seq<Bytes>, x: Bytes)
    requires forall i, j :: 0 <= i < |a| && 0 <= j < |b| ==> a[i] != b[j]
    requires multiset(a)[x] == (if x in a then 1 else 0) && multiset(b)[x] == if x in b then 1 else 0
    ensures multiset(a + b)[x] == if x in a + b then 1 else 0
  {
  }

  lemma ShowCount(x: Bytes)
    ensures multiset(SubCommands("show"))[x] == if x in ["clients", "jobs", "status", "zone", "zones"] then 1 else 0
  {
    var first: seq<Bytes>, last: seq<Bytes> := ["clients", "jobs", "status"], ["zone", "zones"];
    CountOnce(first, x);
    PairCount("zone", "zones", x);
    assert SubCommands("show") == first + last;
    NotBoth(first, last, x);
  }

  /** Behind a command: its arguments, each once; the zones that are not hidden, as often as they are there. */
  lemma ArgumentsExactly(cmd: Bytes, zones: seq<Bytes>, x: Bytes)
    ensures var n := multiset(Options([cmd], zones))[x];
      if cmd == "check" then
        n == (if x == "all" then 1 else 0) + (if "__" <= x then 0 else multiset(zones)[x])
      else if cmd == "debug" || cmd == "undebug" then n == if x in ["all", "check", "dnsnode"] then 1 else 0
      else if cmd == "loglevel" then n == if x in ["error", "warning", "info", "debug"] then 1 else 0
      else if cmd == "show" then n == if x in ["clients", "jobs", "status", "zone", "zones"] then 1 else 0
      else n == 0
  {
    if cmd == "check" {
      ZoneNamesCount(zones, x);
      assert multiset(["all"] + ZoneNames(zones)) == multiset(["all"]) + multiset(ZoneNames(zones));
    } else if cmd == "debug" || cmd == "undebug" {
      DebugCount(x);
    } else if cmd == "loglevel" {
      LoglevelCount(x);
    } else if cmd == "show" {
      ShowCount(x);
    }
  }

  /** Behind two words or more: the zones for `show zone`. */
  lemma ZonesExactly(fields: seq<Bytes>, zones: seq<Bytes>, x: Bytes)
    requires |fields| >= 2
    ensures multiset(Options(fields, zones))[x] ==
            if |fields| == 2 && fields[0] == "show" && fields[1] == "zone" && !("__" <= x) then multiset(zones)[x] else 0
  {
    ZoneNamesCount(zones, x);
  }

  lemma ZoneNamesCount(zones: seq<Bytes>, x: Bytes)
    ensures multiset(ZoneNames(zones))[x] == if "__" <= x then 0 else multiset(zones)[x]
  {
    VisibleCount(zones, x);
  }

  lemma TokenExtends(prefix: Bytes, candidates: seq<Bytes>)
    requires candidates != [] && forall x :: x in candidates ==> prefix <= x
    ensures prefix <= CommonPrefix(candidates)
    ensures forall x :: x in candidates ==> CommonPrefix(candidates) <= x
  {
    CommonPrefixGreatest(candidates);
    forall i | 0 <= i < |candidates| ensures prefix <= candidates[i] { assert candidates[i] in candidates; }
    assert PrefixOfAll(prefix, candidates);
  }

  /** Every candidate starts with the completed word, which extends what was typed; the earlier words are kept. */
  lemma CompletionExtends(line: Bytes, zones: seq<Bytes>)
    requires CliComplete(line, zones).1 != []
    ensures var (fields, prefix) := Parse(line);
      var (newLine, candidates) := CliComplete(line, zones);
      var token := CommonPrefix(candidates);
      && prefix <= token
      && (forall x :: x in candidates ==> token <= x)
      && newLine == Join(fields + [token], " ") + (if |candidates| == 1 then " " else [])
      && (' ' !in token ==> Parse(Join(fields + [token], " ")) == (fields, token))
  {
    var (fields, prefix) := Parse(line);
    var candidates := CliComplete(line, zones).1;
    CandidatesExact(line, zones);
    TokenExtends(prefix, candidates);
    ParseWords(line);
    if ' ' !in CommonPrefix(candidates) { ParseJoin(fields, CommonPrefix(candidates)); }
    var newLine := Join(fields + [CommonPrefix(candidates)], " ");
    assert newLine + [] == newLine;
  }

  lemma {:induction false} FilterAgain(options: seq<Bytes>, prefix: Bytes, token: Bytes)
    requires prefix <= token
    requires forall i :: 0 <= i < |options| && prefix <= options[i] ==> token <= options[i]
    ensures Filter(options, token) == Filter(options, prefix)
  {
    if options != [] {
      var n := |options| - 1;
      FilterAgain(options[..n], prefix, token);
      assert token <= options[n] <==> prefix <= options[n];
    }
  }

  /** Lines with the same words and the same matches complete to the same line. */
  lemma SameMatches(a: Bytes, b: Bytes, zones: seq<Bytes>)
    requires Parse(a).0 == Parse(b).0
    requires Filter(Options(Parse(a).0, zones), Parse(a).1) == Filter(Options(Parse(b).0, zones), Parse(b).1)
    requires Filter(Options(Parse(a).0, zones), Parse(a).1) != []
    ensures CliComplete(a, zones) == CliComplete(b, zones)
  {
  }

  /** An ambiguous completion is a fixed point: pressing Tab again changes nothing and lists the same candidates.
      All that is needed of the option words is that the part they share has no space. */
  lemma AmbiguousIsFixedPoint(line: Bytes, zones: seq<Bytes>)
    requires |CliComplete(line, zones).1| > 1 && ' ' !in CommonPrefix(CliComplete(line, zones).1)
    ensures CliComplete(CliComplete(line, zones).0, zones) == CliComplete(line, zones)
  {
    var (fields, prefix) := Parse(line);
    var newLine := CliComplete(line, zones).0;
    var token := CommonPrefix(CliComplete(line, zones).1);
    CandidatesExact(line, zones);
    CompletionExtends(line, zones);
    assert Parse(newLine) == (fields, token) by { assert newLine == Join(fields + [token], " "); }
    FilterAgain(Options(fields, zones), prefix, token) by {
      forall i | 0 <= i < |Options(fields, zones)| && prefix <= Options(fields, zones)[i]
        ensures token <= Options(fields, zones)[i]
      {
        assert Options(fields, zones)[i] in CliComplete(line, zones).1;
      }
    }
    SameMatches(line, newLine, zones);
  }

  // --- The zone map is iterated in any order -------------------------------------------------------------

  lemma {:induction false} VisibleCount(zones: seq<Bytes>, x: Bytes)
    ensures multiset(Visible(zones))[x] == if "__" <= x then 0 else multiset(zones)[x]
  {
    if zones != [] {
      var n := |zones| - 1;
      assert zones == zones[..n] + [zones[n]];
      VisibleCount(zones[..n], x);
    }
  }

  lemma ZoneNamesOrder(zones: seq<Bytes>, others: seq<Bytes>)
    requires multiset(zones) == multiset(others)
    ensures ZoneNames(zones) == ZoneNames(others)
  {
    forall x ensures multiset(Visible(zones))[x] == multiset(Visible(others))[x] {
      VisibleCount(zones, x);
      VisibleCount(others, x);
    }
    assert multiset(Visible(zones)) == multiset(Visible(others));
    SortCanonical(Visible(zones), Visible(others));
  }

  /** Completion does not depend on the order in which Go iterates the zone map. */
  lemma ZoneOrderIrrelevant(line: Bytes, zones: seq<Bytes>, others: seq<Bytes>)
    requires multiset(zones) == multiset(others)
    ensures CliComplete(line, zones) == CliComplete(line, others)
  {
    var (fields, prefix) := Parse(line);
    OptionsOrder(fields, zones, others);
    assert Filter(Options(fields, zones), prefix) == Filter(Options(fields, others), prefix);
  }

  lemma OptionsOrder(fields: seq<Bytes>, zones: seq<Bytes>, others: seq<Bytes>)
    requires multiset(zones) == multiset(others)
    ensures Options(fields, zones) == Options(fields, others)
  {
    ZoneNamesOrder(zones, others);
  }

  // --- The code ----------------------------------------------------------------------------------------

  method MatchPrefix(options: seq<Bytes>, prefix: Bytes) returns (matches: seq<Bytes>)
    ensures matches == Sort(Filter(options, prefix))
  {
    matches := [];
    for i := 0 to |options|
      invariant matches == Filter(options[..i], prefix)
    {
      assert options[..i + 1][..i] == options[..i];
      if prefix <= options[i] {
        matches := matches + [options[i]];
      }
    }
    assert options[..|options|] == options;
    matches := Sort(matches);
  }

  method ListZones(zones: seq<Bytes>) returns (names: seq<Bytes>)
    ensures names == ZoneNames(zones)
  {
    names := [];
    for i := 0 to |zones|
      invariant names == Visible(zones[..i])
    {
      assert zones[..i + 1][..i] == zones[..i];
      if !("__" <= zones[i]) {
        names := names + [zones[i]];
      }
    }
    assert zones[..|zones|] == zones;
    names := Sort(names);
  }

  /** Shortens `p` until it is a prefix of `s`. */
  method Shorten(p: Bytes, s: Bytes) returns (r: Bytes)
    ensures r == Shared(p, s)
  {
    r := p;
    while !(r <= s)
      invariant Shared(p, s) <= r <= p
      decreases |r|
    {
      assert r != Shared(p, s);
      r := r[..|r| - 1];
    }
    SharedGreatest(p, s, r);
  }

  lemma CommonPrefixNext(items: seq<Bytes>, i: nat)
    requires 0 < i < |items|
    ensures CommonPrefix(items[..i + 1]) == Shared(CommonPrefix(items[..i]), items[i])
  {
    assert items[..i + 1][..i] == items[..i];
  }

  method FindCommonPrefix(items: seq<Bytes>) returns (p: Bytes)
    ensures items == [] ==> p == []
    ensures items != [] ==> GreatestCommonPrefix(p, items)
    ensures p == CommonPrefix(items)
  {
    if items == [] {
      return [];
    }
    p := ShortenAll(items);
    CommonPrefixGreatest(items);
  }

  /** The loop of `commonPrefix`, which ends early when nothing is left. */
  method ShortenAll(items: seq<Bytes>) returns (p: Bytes)
    requires items != []
    ensures p == CommonPrefix(items)
  {
    p := items[0];
    for i := 1 to |items|
      invariant p == CommonPrefix(items[..i])
    {
      CommonPrefixNext(items, i);
      p := Shorten(p, items[i]);
      if p == [] {
        PrefixesShrink(items, i + 1);
        return;
      }
    }
    assert items[..|items|] == items;
  }

  lemma PrefixesShrink(items: seq<Bytes>, i: nat)
    requires 0 < i <= |items|
    ensures CommonPrefix(items) <= CommonPrefix(items[..i])
    ensures CommonPrefix(items[..i]) == [] ==> CommonPrefix(items) == []
  {
    CommonPrefixGreatest(items);
    CommonPrefixGreatest(items[..i]);
    assert PrefixOfAll(CommonPrefix(items), items[..i]);
  }

  method Complete(line: Bytes, zones: seq<Bytes>) returns (newLine: Bytes, candidates: seq<Bytes>)
    ensures (newLine, candidates) == CliComplete(line, zones)
  {
    var trailingSpace := line != [] && line[|line| - 1] == ' ';
    var fields := Fields(line);
    var prefix := [];
    if !trailingSpace && fields != [] {
      prefix := fields[|fields| - 1];
      fields := fields[..|fields| - 1];
    }
    candidates := [];
    if |fields| == 0 {
      candidates := MatchPrefix(TOP_COMMANDS, prefix);
    } else if |fields| == 1 {
      if fields[0] == "check" {
        var names := ListZones(zones);
        candidates := MatchPrefix(["all"] + names, prefix);
      } else {
        candidates := MatchPrefix(SubCommands(fields[0]), prefix);
      }
    } else if |fields| == 2 && fields[0] == "show" && fields[1] == "zone" {
      var names := ListZones(zones);
      candidates := MatchPrefix(names, prefix);
    }
    if candidates == [] {
      return line, [];
    }
    var token := FindCommonPrefix(candidates);
    newLine := Join(fields + [token], " ");
    if |candidates| == 1 {
      newLine := newLine + " ";
    }
  }
}
