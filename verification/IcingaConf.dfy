/** The generated zones file: zones grouped by customer, from maps that Go iterates in any order. */
module IcingaConf {
  import opened Prelude
  import opened Sorting

  datatype ZoneRecord = ZoneRecord(customer: Bytes, dnsNode: bool, checkPropagation: bool, checkGonemaster: bool)

  type Zones = map<Bytes, ZoneRecord>
  type Customers = map<Bytes, seq<Bytes>>

  /** Some order of the keys of a map. */
  predicate IsOrder(order: seq<Bytes>, keys: set<Bytes>) {
    multiset(order) == multiset(keys)
  }

  predicate Hidden(name: Bytes) { "_" <= name }

  /** The fixed texts, and the block that the template makes of a zone. */
  datatype Texts = Texts(header: Bytes, heading: Bytes -> Bytes, block: (Bytes, ZoneRecord) -> Bytes)

  // --- What the code computes ---------------------------------------------------------------------------

  function AddZone(customers: Customers, customer: Bytes, name: Bytes): Customers {
    customers[customer := (if customer in customers then customers[customer] else []) + [name]]
  }

  /** `Customers` after the zones `order` have been visited. */
  function Grouped(zones: Zones, order: seq<Bytes>): Customers
    requires forall n :: n in order ==> n in zones
  {
    if order == [] then map[]
    else
      var k := |order| - 1;
      assert order[k] in order;
      var before := Grouped(zones, order[..k]);
      if Hidden(order[k]) then before else AddZone(before, zones[order[k]].customer, order[k])
  }

  /** The file's layout: each customer with its zones. */
  function Layout(customers: Customers, sorted: seq<Bytes>): (layout: seq<(Bytes, seq<Bytes>)>)
    requires forall c :: c in sorted ==> c in customers
    ensures |layout| == |sorted|
    ensures forall i :: 0 <= i < |sorted| ==> layout[i].0 == sorted[i] && layout[i].1 == Sort(customers[sorted[i]])
  {
    seq(|sorted|, i requires 0 <= i < |sorted| => assert sorted[i] in sorted; (sorted[i], Sort(customers[sorted[i]])))
  }

  function Blocks(texts: Texts, zones: Zones, names: seq<Bytes>): Bytes
    requires forall n :: n in names ==> n in zones
  {
    if names == [] then []
    else
      var k := |names| - 1;
      assert names[k] in names;
      Blocks(texts, zones, names[..k]) + texts.block(names[k], zones[names[k]])
  }

  predicate Known(zones: Zones, layout: seq<(Bytes, seq<Bytes>)>) {
    forall i, n :: 0 <= i < |layout| && n in layout[i].1 ==> n in zones
  }

  function Sections(texts: Texts, zones: Zones, layout: seq<(Bytes, seq<Bytes>)>): Bytes
    requires Known(zones, layout)
  {
    if layout == [] then []
    else
      var k := |layout| - 1;
      Sections(texts, zones, layout[..k]) + texts.heading(layout[k].0) + Blocks(texts, zones, layout[k].1)
  }

  // --- Grouping -----------------------------------------------------------------------------------------

  lemma OrderMembers(order: seq<Bytes>, keys: set<Bytes>)
    requires IsOrder(order, keys)
    ensures forall n :: n in order <==> n in keys
    ensures forall n :: n in keys ==> multiset(order)[n] == 1
  {
    forall n ensures n in order <==> n in keys {
      assert n in order <==> n in multiset(order);
    }
  }

  function Owner(zones: Zones, n: Bytes): Option<Bytes> {
    if n in zones && !Hidden(n) then Some(zones[n].customer) else None
  }

  function Count(g: Customers, c: Bytes, n: Bytes): nat {
    if c in g then multiset(g[c])[n] else 0
  }

  lemma AddZoneCount(g: Customers, customer: Bytes, name: Bytes, c: Bytes, n: Bytes)
    ensures var h := AddZone(g, customer, name);
      && Count(h, c, n) == Count(g, c, n) + (if c == customer && n == name then 1 else 0)
      && (c in h && (c in g ==> g[c] != []) ==> h[c] != [])
  {
  }

  lemma LastCount(order: seq<Bytes>, n: Bytes)
    requires order != []
    ensures var k := |order| - 1;
      multiset(order)[n] == multiset(order[..k])[n] + (if n == order[k] then 1 else 0)
  {
    var k := |order| - 1;
    assert order == order[..k] + [order[k]];
  }

  /** A customer has exactly the visited zones of its own, as often as they were visited, and no customer is empty. */
  lemma {:induction false} GroupedCount(zones: Zones, order: seq<Bytes>, c: Bytes, n: Bytes)
    requires forall m :: m in order ==> m in zones
    ensures var g := Grouped(zones, order);
      && (c in g ==> g[c] != [])
      && Count(g, c, n) == if Owner(zones, n) == Some(c) then multiset(order)[n] else 0
  {
    if order != [] {
      var k := |order| - 1;
      GroupedCount(zones, order[..k], c, n);
      LastCount(order, n);
      assert order[k] in order;
      AddZoneCount(Grouped(zones, order[..k]), zones[order[k]].customer, order[k], c, n);
    }
  }

  lemma GroupedMembers(zones: Zones, order: seq<Bytes>, c: Bytes)
    requires IsOrder(order, zones.Keys) && forall m :: m in order ==> m in zones
    ensures c in Grouped(zones, order) <==> exists n :: Owner(zones, n) == Some(c)
  {
    var g := Grouped(zones, order);
    OrderMembers(order, zones.Keys);
    if c in g {
      GroupedCount(zones, order, c, []);
      var n := g[c][0];
      assert multiset(g[c])[n] > 0;
      GroupedCount(zones, order, c, n);
      assert Owner(zones, n) == Some(c);
    }
    if n :| Owner(zones, n) == Some(c) {
      GroupedCount(zones, order, c, n);
    }
  }

  // --- The layout does not depend on the iteration orders ---------------------------------------------

  /** The iteration orders of the two maps in one run of the program. */
  predicate Orders(zones: Zones, order: seq<Bytes>, customerOrder: seq<Bytes>) {
    && IsOrder(order, zones.Keys)
    && (forall m :: m in order ==> m in zones)
    && IsOrder(customerOrder, Grouped(zones, order).Keys)
  }

  lemma SortedCustomersKnown(zones: Zones, order: seq<Bytes>, customerOrder: seq<Bytes>)
    requires Orders(zones, order, customerOrder)
    ensures forall c :: c in Sort(customerOrder) <==> c in Grouped(zones, order)
  {
    OrderMembers(customerOrder, Grouped(zones, order).Keys);
    SameElements(Sort(customerOrder), customerOrder);
  }

  ghost function FileLayout(zones: Zones, order: seq<Bytes>, customerOrder: seq<Bytes>): seq<(Bytes, seq<Bytes>)>
    requires Orders(zones, order, customerOrder)
  {
    SortedCustomersKnown(zones, order, customerOrder);
    Layout(Grouped(zones, order), Sort(customerOrder))
  }

  lemma SameGroups(zones: Zones, a: seq<Bytes>, b: seq<Bytes>, c: Bytes)
    requires IsOrder(a, zones.Keys) && IsOrder(b, zones.Keys)
    requires (forall m :: m in a ==> m in zones) && (forall m :: m in b ==> m in zones)
    ensures c in Grouped(zones, a) <==> c in Grouped(zones, b)
    ensures c in Grouped(zones, a) ==> Sort(Grouped(zones, a)[c]) == Sort(Grouped(zones, b)[c])
  {
    GroupedMembers(zones, a, c);
    GroupedMembers(zones, b, c);
    if c in Grouped(zones, a) {
      var x, y := Grouped(zones, a)[c], Grouped(zones, b)[c];
      forall n ensures multiset(x)[n] == multiset(y)[n] {
        GroupedCount(zones, a, c, n);
        GroupedCount(zones, b, c, n);
      }
      assert multiset(x) == multiset(y);
      SortCanonical(x, y);
    }
  }

  /** For any two iteration orders of the zone map and of the customer map, the layout is the same. */
  lemma LayoutCanonical(zones: Zones, a: seq<Bytes>, ca: seq<Bytes>, b: seq<Bytes>, cb: seq<Bytes>)
    requires Orders(zones, a, ca) && Orders(zones, b, cb)
    ensures FileLayout(zones, a, ca) == FileLayout(zones, b, cb)
  {
    var ga, gb := Grouped(zones, a), Grouped(zones, b);
    forall c ensures c in ga <==> c in gb { SameGroups(zones, a, b, c); }
    assert ga.Keys == gb.Keys;
    SortCanonical(ca, cb);
    SortedCustomersKnown(zones, a, ca);
    var s := Sort(ca);
    forall i | 0 <= i < |s| ensures Sort(ga[s[i]]) == Sort(gb[s[i]]) {
      assert s[i] in s;
      SameGroups(zones, a, b, s[i]);
    }
  }

  lemma LayoutKnown(zones: Zones, customers: Customers, sortedCustomers: seq<Bytes>)
    requires forall c :: c in sortedCustomers ==> c in customers
    requires forall c, n :: c in customers && n in customers[c] ==> n in zones
    ensures Known(zones, Layout(customers, sortedCustomers))
  {
    var layout := Layout(customers, sortedCustomers);
    forall i, n | 0 <= i < |layout| && n in layout[i].1 ensures n in zones {
      assert sortedCustomers[i] in sortedCustomers;
      SameElements(layout[i].1, customers[sortedCustomers[i]]);
    }
  }

  lemma FileKnown(zones: Zones, order: seq<Bytes>, customerOrder: seq<Bytes>)
    requires Orders(zones, order, customerOrder)
    ensures Known(zones, FileLayout(zones, order, customerOrder))
  {
    var g := Grouped(zones, order);
    SortedCustomersKnown(zones, order, customerOrder);
    forall c, n | c in g && n in g[c] ensures n in zones {
      assert multiset(g[c])[n] > 0;
      GroupedCount(zones, order, c, n);
    }
    LayoutKnown(zones, g, Sort(customerOrder));
  }

  /** The bytes of the file. */
  ghost function FileText(texts: Texts, zones: Zones, order: seq<Bytes>, customerOrder: seq<Bytes>): Bytes
    requires Orders(zones, order, customerOrder)
  {
    FileKnown(zones, order, customerOrder);
    texts.header + Sections(texts, zones, FileLayout(zones, order, customerOrder))
  }

  /** Canonical file: whatever the iteration orders, every byte of the file is the same. */
  lemma FileCanonical(texts: Texts, zones: Zones, a: seq<Bytes>, ca: seq<Bytes>, b: seq<Bytes>, cb: seq<Bytes>)
    requires Orders(zones, a, ca) && Orders(zones, b, cb)
    ensures FileText(texts, zones, a, ca) == FileText(texts, zones, b, cb)
  {
    LayoutCanonical(zones, a, ca, b, cb);
  }

  lemma SortedKeysDistinct(s: seq<Bytes>, keys: set<Bytes>)
    requires multiset(s) == multiset(keys)
    ensures forall i, j :: 0 <= i < j < |s| ==> s[i] != s[j]
  {
    forall i, j | 0 <= i < j < |s| ensures s[i] != s[j] {
      assert s == s[..j] + [s[j]] + s[j + 1..];
      assert s[..j][i] == s[i];
      assert multiset(s)[s[j]] <= 1;
    }
  }

  /** The file lists exactly the customers that have a visible zone, sorted and each once. */
  lemma CustomersComplete(zones: Zones, order: seq<Bytes>, customerOrder: seq<Bytes>)
    requires Orders(zones, order, customerOrder)
    ensures var layout, s := FileLayout(zones, order, customerOrder), Sort(customerOrder);
      && Sorted(s) && (forall j, k :: 0 <= j < k < |s| ==> s[j] != s[k])
      && (forall c :: c in s <==> exists m :: Owner(zones, m) == Some(c))
      && |layout| == |s| && (forall j :: 0 <= j < |s| ==> layout[j].0 == s[j])
  {
    var s := Sort(customerOrder);
    SortSorted(customerOrder);
    SortedCustomersKnown(zones, order, customerOrder);
    SortedKeysDistinct(s, Grouped(zones, order).Keys);
    forall c ensures c in s <==> exists m :: Owner(zones, m) == Some(c) {
      GroupedMembers(zones, order, c);
    }
  }

  /** Under each customer are exactly its own visible zones, sorted and each once. */
  lemma ZonesComplete(zones: Zones, order: seq<Bytes>, customerOrder: seq<Bytes>, i: nat, n: Bytes)
    requires Orders(zones, order, customerOrder) && i < |customerOrder|
    ensures var (customer, names) := FileLayout(zones, order, customerOrder)[i];
      Sorted(names) && multiset(names)[n] == if Owner(zones, n) == Some(customer) then 1 else 0
  {
    var g, c := Grouped(zones, order), Sort(customerOrder)[i];
    SortedCustomersKnown(zones, order, customerOrder);
    assert c in Sort(customerOrder);
    SortSorted(g[c]);
    GroupedCount(zones, order, c, n);
    OrderMembers(order, zones.Keys);
  }

  // --- The code ----------------------------------------------------------------------------------------

  /** The end of `LoadConfiguration`. */
  method GroupByCustomer(zones: Zones, order: seq<Bytes>) returns (customers: Customers)
    requires forall n :: n in order ==> n in zones
    ensures customers == Grouped(zones, order)
  {
    customers := map[];
    for i := 0 to |order|
      invariant customers == Grouped(zones, order[..i])
    {
      assert order[..i + 1][..i] == order[..i];
      var name := order[i];
      if !("_" <= name) {
        var customer := zones[name].customer;
        if customer !in customers {
          customers := customers[customer := []];
        }
        customers := customers[customer := customers[customer] + [name]];
      }
    }
    assert order[..|order|] == order;
  }

  /** `SortedKeys`; `order` is the order in which the map's keys are visited. */
  method SortedKeys(order: seq<Bytes>) returns (keys: seq<Bytes>)
    ensures keys == Sort(order) && Sorted(keys) && multiset(keys) == multiset(order)
  {
    keys := [];
    for i := 0 to |order|
      invariant keys == order[..i]
    {
      keys := keys + [order[i]];
    }
    assert order[..|order|] == order;
    SortSorted(order);
    keys := Sort(keys);
  }

  /** The text that `generateIcingaZonesConf` writes. */
  method GenerateText(texts: Texts, zones: Zones, customers: Customers, sortedCustomers: seq<Bytes>) returns (text: Bytes)
    requires forall c :: c in sortedCustomers ==> c in customers
    requires Known(zones, Layout(customers, sortedCustomers))
    ensures text == texts.header + Sections(texts, zones, Layout(customers, sortedCustomers))
  {
    ghost var layout := Layout(customers, sortedCustomers);
    text := texts.header;
    for i := 0 to |sortedCustomers|
      invariant text == texts.header + Sections(texts, zones, layout[..i])
    {
      assert sortedCustomers[i] in sortedCustomers;
      var names := Sort(customers[sortedCustomers[i]]);
      assert names == layout[i].1;
      var section, _ := GenerateSection(texts, zones, sortedCustomers[i], names);
      NextSection(texts, zones, layout, i);
      Associative(texts.header, Sections(texts, zones, layout[..i]), section);
      text := text + section;
    }
    assert layout[..|layout|] == layout;
  }

  lemma NextSection(texts: Texts, zones: Zones, layout: seq<(Bytes, seq<Bytes>)>, i: nat)
    requires Known(zones, layout) && i < |layout|
    ensures Sections(texts, zones, layout[..i + 1]) ==
            Sections(texts, zones, layout[..i]) + (texts.heading(layout[i].0) + Blocks(texts, zones, layout[i].1))
  {
    assert layout[..i + 1][..i] == layout[..i];
    Associative(Sections(texts, zones, layout[..i]), texts.heading(layout[i].0), Blocks(texts, zones, layout[i].1));
  }

  /** One customer: the heading, and behind it the block of each of its zones, the i-th from `at[i]` to `at[i + 1]`. */
  method GenerateSection(texts: Texts, zones: Zones, customer: Bytes, names: seq<Bytes>)
    returns (text: Bytes, ghost at: seq<nat>)
    requires forall n :: n in names ==> n in zones
    ensures text == texts.heading(customer) + Blocks(texts, zones, names)
    ensures |at| == |names| + 1 && at[0] == |texts.heading(customer)| && at[|names|] == |text|
    ensures texts.heading(customer) <= text
    ensures forall i :: 0 <= i < |names| ==> IsBlock(texts, zones, names[i], text, at[i], at[i + 1])
  {
    text := texts.heading(customer);
    for i := 0 to |names|
      invariant text == texts.heading(customer) + Blocks(texts, zones, names[..i])
    {
      assert names[..i + 1][..i] == names[..i];
      assert names[i] in names;
      text := text + texts.block(names[i], zones[names[i]]);
    }
    assert names[..|names|] == names;
    at := BlocksAt(texts, zones, texts.heading(customer), names);
  }

  /** Behind `start` the blocks stand one after the other. */
  lemma {:induction false} BlocksAt(texts: Texts, zones: Zones, start: Bytes, names: seq<Bytes>) returns (at: seq<nat>)
    requires forall n :: n in names ==> n in zones
    ensures var text := start + Blocks(texts, zones, names);
      && |at| == |names| + 1 && at[0] == |start| && at[|names|] == |text|
      && forall i :: 0 <= i < |names| ==> IsBlock(texts, zones, names[i], text, at[i], at[i + 1])
  {
    at := [|start|];
    if names != [] {
      var k := |names| - 1;
      assert names[k] in names;
      var before := start + Blocks(texts, zones, names[..k]);
      var block := texts.block(names[k], zones[names[k]]);
      at := BlocksAt(texts, zones, start, names[..k]);
      forall i | 0 <= i < k ensures IsBlock(texts, zones, names[i], before + block, at[i], at[i + 1]) {
        assert names[..k][i] == names[i];
        BlockStays(texts, zones, names[i], before, block, at[i], at[i + 1]);
      }
      Associative(start, Blocks(texts, zones, names[..k]), block);
      assert (before + block)[|before|..] == block;
      at := at + [|before + block|];
    }
  }

  /** The block of the zone `n` stands in `text` from position `from` to `to`. */
  predicate IsBlock(texts: Texts, zones: Zones, n: Bytes, text: Bytes, from: nat, to: nat) {
    from <= to <= |text| && n in zones && text[from..to] == texts.block(n, zones[n])
  }

  lemma BlockStays(texts: Texts, zones: Zones, n: Bytes, text: Bytes, more: Bytes, from: nat, to: nat)
    requires IsBlock(texts, zones, n, text, from, to)
    ensures IsBlock(texts, zones, n, text + more, from, to)
  {
    assert (text + more)[from..to] == text[from..to];
  }

  /** From the configured zones to the file, with the two maps iterated in the given orders. */
  method GenerateFile(texts: Texts, zones: Zones, order: seq<Bytes>, customerOrder: seq<Bytes>) returns (text: Bytes)
    requires Orders(zones, order, customerOrder)
    ensures text == FileText(texts, zones, order, customerOrder)
  {
    var customers := GroupByCustomer(zones, order);
    var sortedCustomers := SortedKeys(customerOrder);
    SortedCustomersKnown(zones, order, customerOrder);
    FileKnown(zones, order, customerOrder);
    text := GenerateText(texts, zones, customers, sortedCustomers);
  }
}
