/** What the zones file holds, piece by piece: where each text begins and ends, and which zone it is for. */
module Rendering {
  import opened Prelude
  import opened Sorting
  import opened IcingaConf

  datatype Piece = Header | Heading(customer: Bytes) | Block(zone: Bytes)

  type Section = (Bytes, seq<Bytes>)

  /** `text` has the text of the piece from position `from` to `to`. */
  predicate PieceAt(texts: Texts, zones: Zones, text: Bytes, p: Piece, from: nat, to: nat) {
    && from <= to <= |text|
    && match p
       case Header => text[from..to] == texts.header
       case Heading(customer) => text[from..to] == texts.heading(customer)
       case Block(zone) => zone in zones && text[from..to] == texts.block(zone, zones[zone])
  }

  /** `text` is these pieces one after the other, the i-th from `at[i]` to `at[i + 1]`. */
  ghost predicate Consists(texts: Texts, zones: Zones, text: Bytes, pieces: seq<Piece>, at: seq<nat>) {
    && |at| == |pieces| + 1 && at[0] == 0 && at[|pieces|] == |text|
    && forall i :: 0 <= i < |pieces| ==> PieceAt(texts, zones, text, pieces[i], at[i], at[i + 1])
  }

  /** The pieces from `from` on and before `to` are the heading of the section and the blocks of its zones in order. */
  ghost predicate SectionAt(section: Section, pieces: seq<Piece>, from: nat, to: nat) {
    && to == from + 1 + |section.1| && to <= |pieces| && pieces[from] == Heading(section.0)
    && forall k :: 0 <= k < |section.1| ==> pieces[from + 1 + k] == Block(section.1[k])
  }

  /** The header, and then the sections of the layout, the j-th from `heads[j]` to `heads[j + 1]`; no other piece. */
  ghost predicate Follows(layout: seq<Section>, pieces: seq<Piece>, heads: seq<nat>) {
    && |heads| == |layout| + 1 && heads[0] == 1 && heads[|layout|] == |pieces|
    && [Header] <= pieces
    && forall j :: 0 <= j < |layout| ==> SectionAt(layout[j], pieces, heads[j], heads[j + 1])
  }

  // --- The list of pieces --------------------------------------------------------------------------------

  function TextOf(texts: Texts, zones: Zones, p: Piece): Bytes {
    match p
    case Header => texts.header
    case Heading(customer) => texts.heading(customer)
    case Block(zone) => if zone in zones then texts.block(zone, zones[zone]) else []
  }

  function Concat(texts: Texts, zones: Zones, ps: seq<Piece>): Bytes {
    if ps == [] then [] else Concat(texts, zones, ps[..|ps| - 1]) + TextOf(texts, zones, ps[|ps| - 1])
  }

  function BlockList(names: seq<Bytes>): (ps: seq<Piece>)
    ensures |ps| == |names| && forall k :: 0 <= k < |names| ==> ps[k] == Block(names[k])
  {
    seq(|names|, k requires 0 <= k < |names| => Block(names[k]))
  }

  function PieceList(layout: seq<Section>): (ps: seq<Piece>)
    ensures |ps| >= 1 && ps[0] == Header
  {
    if layout == [] then [Header]
    else
      var k := |layout| - 1;
      PieceList(layout[..k]) + ([Heading(layout[k].0)] + BlockList(layout[k].1))
  }

  lemma {:induction false} ConcatAppend(texts: Texts, zones: Zones, a: seq<Piece>, b: seq<Piece>)
    ensures Concat(texts, zones, a + b) == Concat(texts, zones, a) + Concat(texts, zones, b)
  {
    if b == [] {
      assert a + b == a;
    } else {
      var n := |b| - 1;
      ConcatAppend(texts, zones, a, b[..n]);
      assert (a + b)[..|a + b| - 1] == a + b[..n] && (a + b)[|a + b| - 1] == b[n];
      Associative(Concat(texts, zones, a), Concat(texts, zones, b[..n]), TextOf(texts, zones, b[n]));
    }
  }

  lemma {:induction false} ConcatBlocks(texts: Texts, zones: Zones, names: seq<Bytes>)
    requires forall n :: n in names ==> n in zones
    ensures Concat(texts, zones, BlockList(names)) == Blocks(texts, zones, names)
  {
    if names != [] {
      var k := |names| - 1;
      assert names[k] in names;
      ConcatBlocks(texts, zones, names[..k]);
      assert BlockList(names)[..k] == BlockList(names[..k]);
    }
  }

  lemma {:induction false} SectionsConcat(texts: Texts, zones: Zones, layout: seq<Section>)
    requires Known(zones, layout)
    ensures Concat(texts, zones, PieceList(layout)) == texts.header + Sections(texts, zones, layout)
  {
    if layout == [] {
      assert [Header][..0] == [];
      assert Concat(texts, zones, [Header]) == [] + texts.header;
    } else {
      var k := |layout| - 1;
      SectionsConcat(texts, zones, layout[..k]);
      SectionConcat(texts, zones, layout[k]);
      ConcatAppend(texts, zones, PieceList(layout[..k]), [Heading(layout[k].0)] + BlockList(layout[k].1));
      SameText(texts.header, Sections(texts, zones, layout[..k]), texts.heading(layout[k].0),
               Blocks(texts, zones, layout[k].1));
    }
  }

  lemma SectionConcat(texts: Texts, zones: Zones, section: Section)
    requires forall n :: n in section.1 ==> n in zones
    ensures Concat(texts, zones, [Heading(section.0)] + BlockList(section.1)) ==
            texts.heading(section.0) + Blocks(texts, zones, section.1)
  {
    ConcatAppend(texts, zones, [Heading(section.0)], BlockList(section.1));
    ConcatBlocks(texts, zones, section.1);
    assert [Heading(section.0)][..0] == [];
    assert Concat(texts, zones, [Heading(section.0)]) == [] + texts.heading(section.0);
  }

  lemma SameText(a: Bytes, b: Bytes, c: Bytes, d: Bytes)
    ensures (a + b) + (c + d) == a + (b + c + d)
  {
  }

  predicate BlocksKnown(zones: Zones, ps: seq<Piece>) {
    forall i :: 0 <= i < |ps| && ps[i].Block? ==> ps[i].zone in zones
  }

  lemma {:induction false} ListKnown(zones: Zones, layout: seq<Section>)
    requires Known(zones, layout)
    ensures BlocksKnown(zones, PieceList(layout))
  {
    if layout != [] {
      var k := |layout| - 1;
      ListKnown(zones, layout[..k]);
      assert forall i :: 0 <= i < |layout[k].1| ==> layout[k].1[i] in layout[k].1;
    }
  }

  /** The text of a list of pieces consists of them. */
  lemma {:induction false} ConcatConsists(texts: Texts, zones: Zones, ps: seq<Piece>) returns (at: seq<nat>)
    requires BlocksKnown(zones, ps)
    ensures Consists(texts, zones, Concat(texts, zones, ps), ps, at)
  {
    var text := Concat(texts, zones, ps);
    if ps == [] {
      at := [0];
    } else {
      var n := |ps| - 1;
      var before := ConcatConsists(texts, zones, ps[..n]);
      at := before + [|text|];
      forall i | 0 <= i < |ps| ensures PieceAt(texts, zones, text, ps[i], at[i], at[i + 1]) {
        if i < n { StaysAt(texts, zones, Concat(texts, zones, ps[..n]), text, ps[..n][i], before[i], before[i + 1]); }
      }
    }
  }

  lemma StaysAt(texts: Texts, zones: Zones, before: Bytes, text: Bytes, p: Piece, from: nat, to: nat)
    requires before <= text && PieceAt(texts, zones, before, p, from, to)
    ensures PieceAt(texts, zones, text, p, from, to)
  {
    assert text[from..to] == before[from..to];
  }

  lemma {:induction false} ListFollows(layout: seq<Section>) returns (heads: seq<nat>)
    ensures Follows(layout, PieceList(layout), heads)
  {
    var ps := PieceList(layout);
    if layout == [] {
      heads := [1];
    } else {
      var k := |layout| - 1;
      var before := ListFollows(layout[..k]);
      heads := before + [|ps|];
      forall j | 0 <= j < |layout| ensures SectionAt(layout[j], ps, heads[j], heads[j + 1]) {
        if j < k { assert SectionAt(layout[..k][j], PieceList(layout[..k]), before[j], before[j + 1]); }
      }
    }
  }

  /** The file is the header, and then for each customer of the layout its heading and the blocks of its zones, in
      order; no other piece. */
  lemma FileTextExactly(texts: Texts, zones: Zones, order: seq<Bytes>, customerOrder: seq<Bytes>)
    returns (pieces: seq<Piece>, at: seq<nat>, heads: seq<nat>)
    requires Orders(zones, order, customerOrder)
    ensures Consists(texts, zones, FileText(texts, zones, order, customerOrder), pieces, at)
    ensures Follows(FileLayout(zones, order, customerOrder), pieces, heads)
  {
    var layout := FileLayout(zones, order, customerOrder);
    FileKnown(zones, order, customerOrder);
    pieces := PieceList(layout);
    ListKnown(zones, layout);
    SectionsConcat(texts, zones, layout);
    at := ConcatConsists(texts, zones, pieces);
    heads := ListFollows(layout);
  }

  // --- Each zone once, behind its customer's heading -----------------------------------------------------

  /** Every piece but the header belongs to one section. */
  lemma {:induction false} InSection(layout: seq<Section>, pieces: seq<Piece>, heads: seq<nat>, i: nat, m: nat)
    returns (j: nat)
    requires Follows(layout, pieces, heads) && m <= |layout| && 1 <= i < heads[m]
    ensures j < m && heads[j] <= i < heads[j + 1]
  {
    assert SectionAt(layout[m - 1], pieces, heads[m - 1], heads[m]);
    j := m - 1;
    if i < heads[m - 1] { j := InSection(layout, pieces, heads, i, m - 1); }
  }

  lemma InBlocks(section: Section, pieces: seq<Piece>, from: nat, to: nat, i: nat)
    requires SectionAt(section, pieces, from, to) && from < i < to
    ensures pieces[i] == Block(section.1[i - from - 1])
  {
    assert pieces[from + 1 + (i - from - 1)] == Block(section.1[i - from - 1]);
  }

  lemma BlockPlace(layout: seq<Section>, pieces: seq<Piece>, heads: seq<nat>, i: nat) returns (j: nat, k: nat)
    requires Follows(layout, pieces, heads) && i < |pieces| && pieces[i].Block?
    ensures j < |layout| && k < |layout[j].1| && i == heads[j] + 1 + k && layout[j].1[k] == pieces[i].zone
  {
    j := InSection(layout, pieces, heads, i, |layout|);
    assert SectionAt(layout[j], pieces, heads[j], heads[j + 1]);
    InBlocks(layout[j], pieces, heads[j], heads[j + 1], i);
    k := i - heads[j] - 1;
  }

  lemma HeadingPlace(layout: seq<Section>, pieces: seq<Piece>, heads: seq<nat>, i: nat) returns (j: nat)
    requires Follows(layout, pieces, heads) && i < |pieces| && pieces[i].Heading?
    ensures j < |layout| && i == heads[j] && layout[j].0 == pieces[i].customer
  {
    j := InSection(layout, pieces, heads, i, |layout|);
    assert SectionAt(layout[j], pieces, heads[j], heads[j + 1]);
    if heads[j] < i { InBlocks(layout[j], pieces, heads[j], heads[j + 1], i); }
  }

  lemma Twice(names: seq<Bytes>, k: nat, l: nat)
    requires k < l < |names| && names[k] == names[l]
    ensures multiset(names)[names[k]] >= 2
  {
    assert names == names[..l] + [names[l]] + names[l + 1..];
    assert names[..l][k] == names[k];
    assert names[k] in multiset(names[..l]);
  }

  ghost predicate HasZone(zones: Zones, c: Bytes) {
    exists n :: Owner(zones, n) == Some(c)
  }

  predicate Lists(layout: seq<Section>, c: Bytes) {
    exists j :: 0 <= j < |layout| && layout[j].0 == c
  }

  /** The zones of each section are its customer's own that are not hidden, each once. */
  ghost predicate Complete(zones: Zones, layout: seq<Section>) {
    && (forall j, k :: 0 <= j < k < |layout| ==> layout[j].0 != layout[k].0)
    && (forall j, n :: 0 <= j < |layout| ==>
          multiset(layout[j].1)[n] == if Owner(zones, n) == Some(layout[j].0) then 1 else 0)
    && (forall c :: HasZone(zones, c) <==> Lists(layout, c))
  }

  lemma FileComplete(zones: Zones, order: seq<Bytes>, customerOrder: seq<Bytes>)
    requires Orders(zones, order, customerOrder)
    ensures Complete(zones, FileLayout(zones, order, customerOrder))
  {
    var layout := FileLayout(zones, order, customerOrder);
    CustomersComplete(zones, order, customerOrder);
    forall j, n | 0 <= j < |layout|
      ensures multiset(layout[j].1)[n] == if Owner(zones, n) == Some(layout[j].0) then 1 else 0
    {
      ZonesComplete(zones, order, customerOrder, j, n);
    }
    forall c ensures HasZone(zones, c) <==> Lists(layout, c) {
      CustomerListed(zones, order, customerOrder, c);
    }
  }

  lemma CustomerListed(zones: Zones, order: seq<Bytes>, customerOrder: seq<Bytes>, c: Bytes)
    requires Orders(zones, order, customerOrder)
    ensures HasZone(zones, c) <==> Lists(FileLayout(zones, order, customerOrder), c)
  {
    CustomersComplete(zones, order, customerOrder);
    Listed(FileLayout(zones, order, customerOrder), Sort(customerOrder), c);
  }

  lemma Listed(layout: seq<Section>, s: seq<Bytes>, c: Bytes)
    requires |layout| == |s| && forall j :: 0 <= j < |s| ==> layout[j].0 == s[j]
    ensures c in s <==> Lists(layout, c)
  {
    if c in s {
      var j :| 0 <= j < |s| && s[j] == c;
      assert layout[j].0 == c;
    }
  }

  /** A block is of a zone of its section's customer. */
  lemma BlockOwner(zones: Zones, layout: seq<Section>, pieces: seq<Piece>, heads: seq<nat>, i: nat)
    returns (j: nat, k: nat)
    requires Complete(zones, layout) && Follows(layout, pieces, heads) && i < |pieces| && pieces[i].Block?
    ensures j < |layout| && k < |layout[j].1| && i == heads[j] + 1 + k && layout[j].1[k] == pieces[i].zone
    ensures Owner(zones, pieces[i].zone) == Some(layout[j].0)
  {
    j, k := BlockPlace(layout, pieces, heads, i);
    assert layout[j].1[k] in multiset(layout[j].1);
  }

  lemma BlockOnce(zones: Zones, layout: seq<Section>, pieces: seq<Piece>, heads: seq<nat>, i: nat, l: nat)
    requires Complete(zones, layout) && Follows(layout, pieces, heads)
    requires i < |pieces| && l < |pieces| && pieces[i].Block? && pieces[l] == pieces[i]
    ensures i == l
  {
    var j, k := BlockOwner(zones, layout, pieces, heads, i);
    var jj, kk := BlockOwner(zones, layout, pieces, heads, l);
    assert j == jj;
    if k < kk { Twice(layout[j].1, k, kk); }
    if kk < k { Twice(layout[j].1, kk, k); }
  }

  /** Where the block of a zone is. */
  lemma ZonePlace(zones: Zones, layout: seq<Section>, pieces: seq<Piece>, heads: seq<nat>, n: Bytes)
    returns (i: nat, j: nat)
    requires Complete(zones, layout) && Follows(layout, pieces, heads) && Owner(zones, n).Some?
    ensures i < |pieces| && pieces[i] == Block(n)
    ensures j < |layout| && heads[j] < i < heads[j + 1] <= |pieces|
    ensures pieces[heads[j]] == Heading(Owner(zones, n).value)
  {
    assert HasZone(zones, Owner(zones, n).value);
    j :| 0 <= j < |layout| && layout[j].0 == Owner(zones, n).value;
    assert SectionAt(layout[j], pieces, heads[j], heads[j + 1]);
    assert n in multiset(layout[j].1);
    var k :| 0 <= k < |layout[j].1| && layout[j].1[k] == n;
    i := heads[j] + 1 + k;
  }

  /** The block of a zone that is not hidden is one piece, the i-th, and stands behind its customer's heading. */
  lemma VisibleZoneOnce(zones: Zones, order: seq<Bytes>, customerOrder: seq<Bytes>, pieces: seq<Piece>, heads: seq<nat>,
                        n: Bytes)
    returns (i: nat, j: nat)
    requires Orders(zones, order, customerOrder) && Follows(FileLayout(zones, order, customerOrder), pieces, heads)
    requires n in zones && (n == [] || n[0] != '_')
    ensures i < |pieces| && forall l :: 0 <= l < |pieces| ==> (pieces[l] == Block(n) <==> l == i)
    ensures j + 1 < |heads| && heads[j] < i < heads[j + 1] <= |pieces|
    ensures pieces[heads[j]] == Heading(zones[n].customer)
  {
    var layout := FileLayout(zones, order, customerOrder);
    FileComplete(zones, order, customerOrder);
    i, j := ZonePlace(zones, layout, pieces, heads, n);
    forall l | 0 <= l < |pieces| && pieces[l] == Block(n) ensures l == i {
      BlockOnce(zones, layout, pieces, heads, i, l);
    }
  }

  /** There is no block of any other name. */
  lemma NoOtherBlock(zones: Zones, order: seq<Bytes>, customerOrder: seq<Bytes>, pieces: seq<Piece>, heads: seq<nat>,
                     n: Bytes)
    requires Orders(zones, order, customerOrder) && Follows(FileLayout(zones, order, customerOrder), pieces, heads)
    requires Block(n) in pieces
    ensures n in zones && (n == [] || n[0] != '_')
  {
    FileComplete(zones, order, customerOrder);
    var i :| 0 <= i < |pieces| && pieces[i] == Block(n);
    var j, k := BlockOwner(zones, FileLayout(zones, order, customerOrder), pieces, heads, i);
  }

  lemma BlockIn(zones: Zones, order: seq<Bytes>, customerOrder: seq<Bytes>, pieces: seq<Piece>, heads: seq<nat>, n: Bytes)
    requires Orders(zones, order, customerOrder) && Follows(FileLayout(zones, order, customerOrder), pieces, heads)
    ensures Block(n) in pieces <==> n in zones && (n == [] || n[0] != '_')
  {
    if Block(n) in pieces { NoOtherBlock(zones, order, customerOrder, pieces, heads, n); }
    if n in zones && (n == [] || n[0] != '_') {
      var i, j := VisibleZoneOnce(zones, order, customerOrder, pieces, heads, n);
      assert pieces[i] == Block(n);
    }
  }

  /** A customer has a heading iff it has a zone that is not hidden, and only one. */
  lemma HeadingOnce(zones: Zones, order: seq<Bytes>, customerOrder: seq<Bytes>, pieces: seq<Piece>, heads: seq<nat>,
                    c: Bytes)
    requires Orders(zones, order, customerOrder) && Follows(FileLayout(zones, order, customerOrder), pieces, heads)
    ensures Heading(c) in pieces <==>
      exists n :: n in zones && (n == [] || n[0] != '_') && zones[n].customer == c
    ensures forall i, l :: 0 <= i < l < |pieces| && pieces[i] == Heading(c) ==> pieces[l] != Heading(c)
  {
    var layout := FileLayout(zones, order, customerOrder);
    FileComplete(zones, order, customerOrder);
    HeadingIn(zones, layout, pieces, heads, c);
    OwnedBy(zones, c);
    HeadingsDiffer(zones, layout, pieces, heads, c);
  }

  lemma OwnedBy(zones: Zones, c: Bytes)
    ensures HasZone(zones, c) <==>
      exists n :: n in zones && (n == [] || n[0] != '_') && zones[n].customer == c
  {
    if n :| Owner(zones, n) == Some(c) { assert n in zones && zones[n].customer == c; }
    if n :| n in zones && (n == [] || n[0] != '_') && zones[n].customer == c { assert Owner(zones, n) == Some(c); }
  }

  lemma HeadingsDiffer(zones: Zones, layout: seq<Section>, pieces: seq<Piece>, heads: seq<nat>, c: Bytes)
    requires Complete(zones, layout) && Follows(layout, pieces, heads)
    ensures forall i, l :: 0 <= i < l < |pieces| && pieces[i] == Heading(c) ==> pieces[l] != Heading(c)
  {
    forall i, l | 0 <= i < l < |pieces| && pieces[i] == Heading(c) ensures pieces[l] != Heading(c) {
      var j := HeadingPlace(layout, pieces, heads, i);
      if pieces[l] == Heading(c) {
        var k := HeadingPlace(layout, pieces, heads, l);
      }
    }
  }

  lemma HeadingIn(zones: Zones, layout: seq<Section>, pieces: seq<Piece>, heads: seq<nat>, c: Bytes)
    requires Complete(zones, layout) && Follows(layout, pieces, heads)
    ensures Heading(c) in pieces <==> HasZone(zones, c)
  {
    if Heading(c) in pieces {
      var i :| 0 <= i < |pieces| && pieces[i] == Heading(c);
      var j := HeadingPlace(layout, pieces, heads, i);
    }
    if n :| Owner(zones, n) == Some(c) {
      var i, j := ZonePlace(zones, layout, pieces, heads, n);
    }
  }
}
