/** Properties of `remove_link` and `add_link`: when they fail, and what
    `links()` reports after they succeed. */
module LinkEditProps {
  import opened Tree
  import opened Text
  import opened LinkManager
  import opened LinkProps
  import opened NodeAddrProps

  /** When `remove_link` fails, and why: the link does not exist, or it is the
      last one. Dropping its addresses succeeds exactly when neither holds.
      Dropping its records then fails, with the addresses already gone, when
      there is no `totem` section (the `assert 'totem' in self._config`) or an
      interface record has no `linknumber` for `int()` to read; `links()` reads
      such a record as link -1. */
  lemma RemoveLinkOutcome(config: Entries, ln: nat)
    requires LinksSpec(config).Ok?
    ensures var ls := LinksSpec(config).value;
      var r := RemoveLinkSpec(config, ln);
      (ln >= KnetLinkNumLimit || (|ls| > 0 && ls[ln].None?) ==> r == Err(LinkDoesNotExist(ln))) &&
      (ln < KnetLinkNumLimit && |ls| == 0 ==> r == Err(Malformed)) &&
      (CheckLink(ls, ln).None? && CountLinks(ls) <= 1 ==> r == Err(LastLink))
    ensures var ls := LinksSpec(config).value;
      RemoveLinkNodes(config, ln).Ok? <==> CheckLink(ls, ln).None? && CountLinks(ls) >= 2
    ensures var ls := LinksSpec(config).value;
      var r := RemoveLinkSpec(config, ln);
      (r.Ok? <==> CheckLink(ls, ln).None? && CountLinks(ls) >= 2 && RecordsNumbered(config)) &&
      (CheckLink(ls, ln).None? && CountLinks(ls) >= 2 && !RecordsNumbered(config) ==> r == Err(Malformed))
  {
    var ls := LinksSpec(config).value;
    if |ls| > 0 {
      LinksSourceFacts(config);
      var items := LinksSource(config).value.value.0;
      assert NodeList(config) == Ok(Some(items));
      assert NodeSection(config).Ok?;
      if CheckLink(ls, ln).None? && CountLinks(ls) >= 2 {
        RemoveLinkSecondStep(config, ln, NodeSection(config).value);
      }
    }
  }

  /** Past the checks, `remove_link` succeeds or fails as dropping the records does. */
  lemma RemoveLinkSecondStep(config: Entries, ln: nat, nl: (Entries, seq<Value>))
    requires InterfacesOf(config).Ok? && InterfacesOk(InterfacesOf(config).value)
    requires NodeSection(config) == Ok(nl)
    requires RemoveLinkNodes(config, ln) == Ok(StoreNodes(config, nl.0, DeleteFromAll(nl.1, RingKey(ln))))
    ensures RemoveLinkSpec(config, ln).Ok? <==> RecordsNumbered(config)
    ensures RemoveLinkSpec(config, ln).Err? ==> RemoveLinkSpec(config, ln) == Err(Malformed)
  {
    var c := StoreNodes(config, nl.0, DeleteFromAll(nl.1, RingKey(ln)));
    StoredNodeList(config, nl.0, DeleteFromAll(nl.1, RingKey(ln)));
    assert Lookup(c, "totem") == Lookup(config, "totem");
    RecordsOutcome(c, ln);
  }

  /** `remove_link` can read every interface record's number: there is a
      `totem` section and every record carries a `linknumber`. */
  predicate RecordsNumbered(config: Entries) {
    Has(config, "totem") && InterfacesOf(config).Ok? &&
    forall j :: 0 <= j < |InterfacesOf(config).value| ==> Has(InterfacesOf(config).value[j], "linknumber")
  }

  /** Dropping the records of a link, on records `links()` accepts, fails
      exactly where `remove_link` reads `totem` or a `linknumber` that is not there. */
  lemma RecordsOutcome(c: Entries, ln: nat)
    requires InterfacesOf(c).Ok? && InterfacesOk(InterfacesOf(c).value)
    ensures RemoveLinkRecords(c, ln).Ok? <==> RecordsNumbered(c)
    ensures RemoveLinkRecords(c, ln).Err? ==> RemoveLinkRecords(c, ln) == Err(Malformed)
  {
    var xs := InterfacesOf(c).value;
    match Lookup(c, "totem")
    case None =>
    case Some(Dict(t)) =>
      match Lookup(t, "interface")
      case None =>
      case Some(List(vs)) =>
        assert |xs| == |vs|;
        forall j | 0 <= j < |vs|
          ensures RecordLinknumber(vs[j]).Some? <==> Has(xs[j], "linknumber")
        {
          assert xs[j] == vs[j].entries;
          assert InterfaceLinknumber(xs[j]).Some?;
        }
  }

  /** Deleting `ring{ln}_addr` from a node touches no other key `links()` reads. */
  lemma DeletedNode(v: Value, ln: nat, i: nat)
    requires v.Dict?
    ensures var w := DeleteKey(v, RingKey(ln));
      w.Dict? && NodeIdOf(w) == NodeIdOf(v) && StrAt(w, "name") == StrAt(v, "name") &&
      !Has(w.entries, RingKey(ln)) &&
      (i != ln ==> StrAt(w, RingKey(i)) == StrAt(v, RingKey(i)) &&
                   (Has(w.entries, RingKey(i)) <==> Has(v.entries, RingKey(i))))
  {
    RingKeyInjective(i, ln);
    var k := RingKey(ln);
    assert k != "nodeid" && k != "name" by {
      assert k[..4] == "ring";
    }
  }

  /** The node list once `ring{ln}_addr` is gone: link `ln` no longer exists,
      every other link is as it was. */
  lemma DeletedRoster(items: seq<Value>, ln: nat)
    requires RosterOk(items) && RingsComplete(items) && ln < KnetLinkNumLimit
    ensures var items' := DeleteFromAll(items, RingKey(ln));
      RosterOk(items') && RingsComplete(items') && !Present(items', ln) &&
      (forall i :: 0 <= i < KnetLinkNumLimit && i != ln ==> (Present(items', i) <==> Present(items, i))) &&
      (forall i :: 0 <= i < KnetLinkNumLimit && i != ln && Present(items, i) ==> SlotNodes(items', i) == SlotNodes(items, i))
  {
    var items' := DeleteFromAll(items, RingKey(ln));
    forall j | 0 <= j < |items|
      ensures NodeIdOf(items'[j]) == NodeIdOf(items[j]) && StrAt(items'[j], "name") == StrAt(items[j], "name")
    {
      DeletedNode(items[j], ln, ln);
    }
    assert RosterOk(items');
    forall i | 0 <= i < KnetLinkNumLimit && i != ln
      ensures Present(items', i) <==> Present(items, i)
    {
      DeletedNode(items[0], ln, i);
    }
    DeletedNode(items[0], ln, ln);
    forall i, j | 0 <= i < KnetLinkNumLimit && 0 <= j < |items'| && Present(items', i)
      ensures StrAt(items'[j], RingKey(i)).Some?
    {
      DeletedNode(items[j], ln, i);
    }
    assert RingsComplete(items');
    forall i | 0 <= i < KnetLinkNumLimit && i != ln && Present(items, i)
      ensures SlotNodes(items', i) == SlotNodes(items, i)
    {
      forall j | 0 <= j < |items|
        ensures SlotNodes(items', i)[j] == SlotNodes(items, i)[j]
      {
        DeletedNode(items[j], ln, i);
      }
    }
  }

  /** The records of a list of sections. */
  function Records(vs: seq<Value>): (r: seq<Entries>)
    requires forall j :: 0 <= j < |vs| ==> vs[j].Dict?
    ensures |r| == |vs| && forall j :: 0 <= j < |vs| ==> r[j] == vs[j].entries
  {
    seq(|vs|, j requires 0 <= j < |vs| => vs[j].entries)
  }

  /** Dropping records distributes over a record appended last. */
  lemma {:induction false} DropAppend(vs: seq<Value>, v: Value, ln: nat)
    requires forall j :: 0 <= j < |vs| ==> RecordLinknumber(vs[j]).Some?
    requires RecordLinknumber(v).Some?
    ensures DropLinkRecords(vs + [v], ln) ==
      DropLinkRecords(vs, ln) + (if RecordLinknumber(v) != Some(ln) then [v] else [])
  {
    if |vs| > 0 {
      assert (vs + [v])[1..] == vs[1..] + [v];
      DropAppend(vs[1..], v, ln);
    } else {
      assert DropLinkRecords([v][1..], ln) == [];
    }
  }

  /** The number `int(interface['linknumber'])` is the one `links()` reads. */
  lemma RecordNumberRead(v: Value)
    requires RecordLinknumber(v).Some?
    ensures v.Dict? && InterfaceLinknumber(v.entries) == Some(RecordLinknumber(v).value as int)
  {
  }

  /** Every record kept has a linknumber. */
  lemma {:induction false} DropKept(vs: seq<Value>, ln: nat)
    requires forall j :: 0 <= j < |vs| ==> RecordLinknumber(vs[j]).Some?
    ensures forall j :: 0 <= j < |DropLinkRecords(vs, ln)| ==> RecordLinknumber(DropLinkRecords(vs, ln)[j]).Some?
  {
    if |vs| > 0 {
      DropKept(vs[1..], ln);
      var h: seq<Value> := if RecordLinknumber(vs[0]) != Some(ln) then [vs[0]] else [];
      var t := DropLinkRecords(vs[1..], ln);
      var ds := h + t;
      forall j | 0 <= j < |ds|
        ensures RecordLinknumber(ds[j]).Some?
      {
        if j < |h| {
          assert ds[j] == vs[0];
        } else {
          assert ds[j] == t[j - |h|];
          assert RecordLinknumber(t[j - |h|]).Some?;
        }
      }
    }
  }

  /** Records read by `int(interface['linknumber'])` are sections `links()` can read. */
  lemma RecordsOk(vs: seq<Value>)
    requires forall j :: 0 <= j < |vs| ==> RecordLinknumber(vs[j]).Some?
    ensures forall j :: 0 <= j < |vs| ==> vs[j].Dict?
    ensures InterfacesOk(Records(vs))
  {
    forall j | 0 <= j < |vs|
      ensures vs[j].Dict? && InterfaceLinknumber(vs[j].entries).Some?
    {
      RecordNumberRead(vs[j]);
    }
  }

  /** Dropping the records of link `ln` leaves the options of every other link. */
  lemma {:induction false} OptionsAfterDrop(vs: seq<Value>, ln: nat, i: nat)
    requires forall j :: 0 <= j < |vs| ==> RecordLinknumber(vs[j]).Some?
    requires i != ln
    ensures var ds := DropLinkRecords(vs, ln);
      (forall j :: 0 <= j < |ds| ==> RecordLinknumber(ds[j]).Some?) &&
      (forall j :: 0 <= j < |ds| ==> ds[j].Dict?) && (forall j :: 0 <= j < |vs| ==> vs[j].Dict?) &&
      InterfacesOk(Records(ds)) && InterfacesOk(Records(vs)) &&
      OptionsFor(Records(ds), i) == OptionsFor(Records(vs), i)
    decreases |vs|
  {
    var ds := DropLinkRecords(vs, ln);
    DropKept(vs, ln);
    RecordsOk(vs);
    RecordsOk(ds);
    if |vs| > 0 {
      var pre, v := vs[..|vs| - 1], vs[|vs| - 1];
      assert vs == pre + [v];
      OptionsAfterDrop(pre, ln, i);
      DropAppend(pre, v, ln);
      RecordNumberRead(v);
      var dp := DropLinkRecords(pre, ln);
      assert OptionsFor(Records(dp), i) == OptionsFor(Records(pre), i);
      RecordsSnoc(pre, v);
      assert Records(vs) == Records(pre) + [v.entries];
      OptionsAppend(Records(pre), v.entries, i);
      if RecordLinknumber(v) != Some(ln) {
        assert ds == dp + [v];
        RecordsSnoc(dp, v);
        OptionsAppend(Records(dp), v.entries, i);
      } else {
        assert ds == dp;
      }
    }
  }

  lemma RecordsSnoc(vs: seq<Value>, v: Value)
    requires forall j :: 0 <= j < |vs| ==> vs[j].Dict?
    requires v.Dict?
    ensures Records(vs + [v]) == Records(vs) + [v.entries]
  {
  }

  /** `totem.interface` as `links()` reads the list `remove_link` found. */
  lemma RecordsFound(c: Entries, t: Entries, vs: seq<Value>)
    requires InterfaceRecords(c) == Ok(Some((t, vs)))
    requires forall j :: 0 <= j < |vs| ==> vs[j].Dict?
    ensures InterfacesOf(c) == Ok(Records(vs))
  {
    assert Lookup(c, "totem") == Some(Dict(t)) && Lookup(t, "interface") == Some(List(vs));
  }

  /** The list `remove_link` writes back, as `links()` reads it. */
  lemma RecordsStored(c: Entries, t: Entries, ds: seq<Value>)
    requires Lookup(c, "totem") == Some(Dict(t))
    requires forall j :: 0 <= j < |ds| ==> ds[j].Dict?
    ensures var c2 := Put(c, "totem", Dict(Put(t, "interface", List(ds))));
      TotemTransport(c2) == TotemTransport(c) && InterfacesOf(c2) == Ok(Records(ds))
  {
    var t2 := Put(t, "interface", List(ds));
    var c2 := Put(c, "totem", Dict(t2));
    assert Lookup(c2, "totem") == Some(Dict(t2));
    assert Lookup(t2, "transport") == Lookup(t, "transport");
    assert Lookup(t2, "interface") == Some(List(ds));
  }

  /** The interface list of `remove_link` read back: `totem.transport` and the
      node list as before, and every link but `ln` keeps its options. */
  lemma RemovedRecords(c: Entries, ln: nat)
    requires RemoveLinkRecords(c, ln).Ok?
    ensures var c2 := RemoveLinkRecords(c, ln).value;
      TotemTransport(c2) == TotemTransport(c) && NodeList(c2) == NodeList(c) &&
      InterfacesOf(c).Ok? && InterfacesOf(c2).Ok? &&
      InterfacesOk(InterfacesOf(c).value) && InterfacesOk(InterfacesOf(c2).value) &&
      forall i: nat :: i != ln ==> OptionsFor(InterfacesOf(c2).value, i) == OptionsFor(InterfacesOf(c).value, i)
  {
    var records := InterfaceRecords(c).value;
    if records.Some? {
      var t, vs := records.value.0, records.value.1;
      assert forall j :: 0 <= j < |vs| ==> RecordLinknumber(vs[j]).Some?;
      var ds := DropLinkRecords(vs, ln);
      var c2 := Put(c, "totem", Dict(Put(t, "interface", List(ds))));
      assert RemoveLinkRecords(c, ln) == Ok(c2);
      DropKept(vs, ln);
      RecordsOk(vs);
      RecordsOk(ds);
      RecordsFound(c, t, vs);
      RecordsStored(c, t, ds);
      NodeListPutOther(c, "totem", Dict(Put(t, "interface", List(ds))));
      forall i: nat | i != ln
        ensures OptionsFor(Records(ds), i) == OptionsFor(Records(vs), i)
      {
        OptionsAfterDrop(vs, ln, i);
      }
    } else {
      assert RemoveLinkRecords(c, ln) == Ok(c);
      assert InterfacesOf(c) == Ok([]);
    }
  }

  /** The slots once link `ln` is gone from the nodes and the records. */
  lemma SlotsAfterRemove(items: seq<Value>, items': seq<Value>, xs: seq<Entries>, ys: seq<Entries>, ln: nat)
    requires RosterOk(items) && RingsComplete(items) && RosterOk(items') && RingsComplete(items')
    requires InterfacesOk(xs) && InterfacesOk(ys) && ln < KnetLinkNumLimit && !Present(items', ln)
    requires forall i :: 0 <= i < KnetLinkNumLimit && i != ln ==> (Present(items', i) <==> Present(items, i))
    requires forall i :: 0 <= i < KnetLinkNumLimit && i != ln && Present(items, i) ==> SlotNodes(items', i) == SlotNodes(items, i)
    requires forall i: nat :: i != ln ==> OptionsFor(ys, i) == OptionsFor(xs, i)
    ensures SlotsOf(items', ys) == SlotsOf(items, xs)[ln := None]
  {
    var want := SlotsOf(items, xs)[ln := None];
    forall i | 0 <= i < KnetLinkNumLimit
      ensures SlotsOf(items', ys)[i] == want[i]
    {
      assert SlotsOf(items, xs)[i] == Slot(items, xs, i);
    }
  }

  /** `links()` on a tree whose parts are known. */
  lemma SourceFrom(c: Entries, items: seq<Value>, ys: seq<Entries>)
    requires TotemTransport(c) == Ok(Str("knet")) && NodeList(c) == Ok(Some(items))
    requires RosterOk(items) && RingsComplete(items)
    requires InterfacesOf(c) == Ok(ys) && InterfacesOk(ys)
    ensures LinksSpec(c) == Ok(SlotsOf(items, ys))
  {
    assert LinksSource(c) == Ok(Some((items, ys)));
  }

  /** The first half of a successful `remove_link`. */
  lemma RemoveLinkFirstHalf(config: Entries, ln: nat)
    requires RemoveLinkSpec(config, ln).Ok?
    ensures LinksSpec(config).Ok? && |LinksSpec(config).value| > 0 && CheckLink(LinksSpec(config).value, ln).None?
    ensures NodeSection(config).Ok? && NodeList(config) == Ok(Some(NodeSection(config).value.1))
    ensures var nl := NodeSection(config).value;
      RemoveLinkNodes(config, ln) == Ok(StoreNodes(config, nl.0, DeleteFromAll(nl.1, RingKey(ln)))) &&
      RemoveLinkSpec(config, ln) == RemoveLinkRecords(StoreNodes(config, nl.0, DeleteFromAll(nl.1, RingKey(ln))), ln)
  {
  }

  /** `remove_link` changes what `links()` reports in one place only: slot
      `ln` becomes empty. */
  lemma RemoveLinkThenLinks(config: Entries, ln: nat)
    requires RemoveLinkSpec(config, ln).Ok?
    ensures LinksSpec(config).Ok? && ln < |LinksSpec(config).value|
    ensures LinksSpec(RemoveLinkSpec(config, ln).value) == Ok(LinksSpec(config).value[ln := None])
  {
    RemoveLinkFirstHalf(config, ln);
    var ls := LinksSpec(config).value;
    LinksSourceFacts(config);
    var items, xs := LinksSource(config).value.value.0, LinksSource(config).value.value.1;
    var nl := NodeSection(config).value.0;
    assert NodeSection(config).value.1 == items;
    var items' := DeleteFromAll(items, RingKey(ln));
    var c := StoreNodes(config, nl, items');
    StoredNodeList(config, nl, items');
    DeletedRoster(items, ln);
    RemovedRecords(c, ln);
    var c2 := RemoveLinkRecords(c, ln).value;
    assert RemoveLinkSpec(config, ln).value == c2;
    assert TotemTransport(c2) == Ok(Str("knet"));
    assert NodeList(c2) == Ok(Some(items'));
    SourceFrom(c2, items', InterfacesOf(c2).value);
    SlotsAfterRemove(items, items', xs, InterfacesOf(c2).value, ln);
  }

  /** Blanking the addresses does not move any node. */
  lemma {:induction false} FindNodeBlank(nodes: seq<LinkNode>, id: int)
    ensures FindNode(Blank(nodes), id) == FindNode(nodes, id)
  {
    if |nodes| > 0 && nodes[0].nodeid != id {
      assert Blank(nodes)[1..] == Blank(nodes[1..]);
      FindNodeBlank(nodes[1..], id);
    }
  }

  /** Every address is new to a node without one, so the uniqueness check of
      `add_link` asks only that the addresses be untaken and distinct. */
  lemma BlankFresh(canon: string -> string, nodes: seq<LinkNode>, m: map<string, nat>, pairs: Addresses)
    ensures Known(Blank(nodes), pairs) <==> Known(nodes, pairs)
    ensures Known(nodes, pairs) ==>
      (Fresh(canon, Blank(nodes), m, pairs) <==>
        forall p :: 0 <= p < |pairs| ==>
          canon(pairs[p].1) !in m && forall q :: 0 <= q < p ==> canon(pairs[q].1) != canon(pairs[p].1))
  {
    forall p | 0 <= p < |pairs|
      ensures FindNode(Blank(nodes), pairs[p].0) == FindNode(nodes, pairs[p].0)
    {
      FindNodeBlank(nodes, pairs[p].0);
    }
    if Known(nodes, pairs) {
      forall p | 0 <= p < |pairs|
        ensures Changes(canon, Blank(nodes), pairs[p])
      {
      }
    }
  }

  /** The new link, holding no address yet, adds nothing to the address map. */
  lemma AddrMapWithBlank(canon: string -> string, ls: seq<Option<Link>>, n: nat, nodes: seq<LinkNode>)
    requires n < |ls| && ls[n].None?
    ensures forall c :: c in AddrMap(canon, ls[n := Some(Link(n, Blank(nodes), map[]))]) <==> c in AddrMap(canon, ls)
  {
    var ls' := ls[n := Some(Link(n, Blank(nodes), map[]))];
    forall c | c in AddrMap(canon, ls')
      ensures c in AddrMap(canon, ls)
    {
      var li, j :| 0 <= li < |ls'| && 0 <= j < |NodesOf(ls', li)| &&
        NodesOf(ls', li)[j].addr != "" && canon(NodesOf(ls', li)[j].addr) == c;
      assert li != n;
      assert NodesOf(ls', li) == NodesOf(ls, li);
    }
    forall c | c in AddrMap(canon, ls)
      ensures c in AddrMap(canon, ls')
    {
      var li, j :| 0 <= li < |ls| && 0 <= j < |NodesOf(ls, li)| &&
        NodesOf(ls, li)[j].addr != "" && canon(NodesOf(ls, li)[j].addr) == c;
      assert li != n;
      assert NodesOf(ls', li) == NodesOf(ls, li);
    }
  }

  /** When `add_link` fails, and why: no free slot (eight links, or no node
      list), or nodes the mapping leaves out. Writing the addresses succeeds
      exactly when there is a free slot, the mapping names every node and
      only nodes, and its addresses are distinct and not yet in use. */
  lemma AddLinkOutcome(config: Entries, canon: string -> string, pairs: Addresses, options: Options)
    requires LinksSpec(config).Ok? && DistinctIds(pairs)
    ensures var ls := LinksSpec(config).value;
      (|ls| == 0 || (forall i :: 0 <= i < |ls| ==> ls[i].Some?) ==> AddLinkSpec(config, canon, pairs, options) == Err(TooManyLinks)) &&
      (FreeSlot(ls).Some? && FirstLink(ls).Some? && |MissingIds(FirstLink(ls).value.nodes, pairs)| > 0 ==>
        AddLinkSpec(config, canon, pairs, options) == Err(MissingNodes(MissingIds(FirstLink(ls).value.nodes, pairs))))
    ensures var ls := LinksSpec(config).value;
      AddLinkAddrs(config, canon, pairs).Ok? <==>
        FreeSlot(ls).Some? && FirstLink(ls).Some? && MissingIds(FirstLink(ls).value.nodes, pairs) == [] &&
        Known(FirstLink(ls).value.nodes, pairs) &&
        forall p :: 0 <= p < |pairs| ==>
          canon(pairs[p].1) !in AddrMap(canon, ls) && forall q :: 0 <= q < p ==> canon(pairs[q].1) != canon(pairs[p].1)
  {
    var ls := LinksSpec(config).value;
    if FreeSlot(ls).Some? && FirstLink(ls).Some? && MissingIds(FirstLink(ls).value.nodes, pairs) == [] {
      var n, first := FreeSlot(ls).value, FirstLink(ls).value;
      var next := ls[n := Some(Link(n, Blank(first.nodes), map[]))];
      assert NewLinkSlots(ls, pairs) == Ok((n, next));
      var m := AddrMap(canon, next);
      ClaimAddrsAccepts(canon, Blank(first.nodes), m, pairs);
      BlankFresh(canon, first.nodes, m, pairs);
      AddrMapWithBlank(canon, ls, n, first.nodes);
      WriteAddrsOk(config, n, pairs);
    }
  }

  /** The node list once every node has an address on the new link `n`: link
      `n` exists and lists those addresses, every other link is as it was. */
  lemma WrittenNewRoster(items: seq<Value>, n: nat, i0: nat, pairs: Addresses)
    requires RosterOk(items) && RingsComplete(items) && n < KnetLinkNumLimit && i0 < KnetLinkNumLimit
    requires Present(items, i0) && !Present(items, n)
    requires forall j :: 0 <= j < |items| ==> Find(pairs, NodeIdOf(items[j]).value as int).Some?
    ensures WriteNodeAddrs(items, n, pairs).Ok?
    ensures var items' := WriteNodeAddrs(items, n, pairs).value;
      RosterOk(items') && RingsComplete(items') && Present(items', n) &&
      (forall i :: 0 <= i < KnetLinkNumLimit && i != n ==> (Present(items', i) <==> Present(items, i))) &&
      (forall i :: 0 <= i < KnetLinkNumLimit && i != n && Present(items, i) ==> SlotNodes(items', i) == SlotNodes(items, i)) &&
      SlotNodes(items', n) == Readdressed(SlotNodes(items, i0), pairs)
  {
    WrittenNewShape(items, n, i0, pairs);
    var items' := WriteNodeAddrs(items, n, pairs).value;
    forall i | 0 <= i < KnetLinkNumLimit && i != n && Present(items, i)
      ensures SlotNodes(items', i) == SlotNodes(items, i)
    {
      forall j | 0 <= j < |items|
        ensures SlotNodes(items', i)[j] == SlotNodes(items, i)[j]
      {
        WrittenNode(items[j], n, pairs, i);
      }
    }
    var base := SlotNodes(items, i0);
    forall j | 0 <= j < |items|
      ensures SlotNodes(items', n)[j] == Readdressed(base, pairs)[j]
    {
      WrittenNode(items[j], n, pairs, n);
    }
  }

  /** The node list once every node has an address on the new link `n` is
      well formed, and link `n` is the only link that appears. */
  lemma WrittenNewShape(items: seq<Value>, n: nat, i0: nat, pairs: Addresses)
    requires RosterOk(items) && RingsComplete(items) && n < KnetLinkNumLimit && i0 < KnetLinkNumLimit
    requires Present(items, i0) && !Present(items, n)
    requires forall j :: 0 <= j < |items| ==> Find(pairs, NodeIdOf(items[j]).value as int).Some?
    ensures WriteNodeAddrs(items, n, pairs).Ok?
    ensures var items' := WriteNodeAddrs(items, n, pairs).value;
      RosterOk(items') && RingsComplete(items') && Present(items', n) &&
      (forall i :: 0 <= i < KnetLinkNumLimit && i != n ==> (Present(items', i) <==> Present(items, i)))
  {
    var items' := WriteNodeAddrs(items, n, pairs).value;
    forall j | 0 <= j < |items|
      ensures NodeIdOf(items'[j]) == NodeIdOf(items[j]) && StrAt(items'[j], "name") == StrAt(items[j], "name")
      ensures StrAt(items'[j], RingKey(n)) == Some(Find(pairs, NodeIdOf(items[j]).value as int).value)
    {
      WrittenNode(items[j], n, pairs, n);
    }
    assert RosterOk(items');
    assert Present(items', n);
    forall i | 0 <= i < KnetLinkNumLimit && i != n
      ensures Present(items', i) <==> Present(items, i)
    {
      WrittenNode(items[0], n, pairs, i);
    }
    forall i, j | 0 <= i < KnetLinkNumLimit && 0 <= j < |items'| && Present(items', i)
      ensures StrAt(items'[j], RingKey(i)).Some?
    {
      WrittenNode(items[j], n, pairs, i);
    }
  }

  /** The slots once the new link `n` is in place. */
  lemma SlotsAfterAdd(items: seq<Value>, items': seq<Value>, xs: seq<Entries>, n: nat, i0: nat, pairs: Addresses)
    requires RosterOk(items) && RingsComplete(items) && RosterOk(items') && RingsComplete(items') && InterfacesOk(xs)
    requires n < KnetLinkNumLimit && i0 < KnetLinkNumLimit && Present(items, i0) && Present(items', n)
    requires forall i :: 0 <= i < KnetLinkNumLimit && i != n ==> (Present(items', i) <==> Present(items, i))
    requires forall i :: 0 <= i < KnetLinkNumLimit && i != n && Present(items, i) ==> SlotNodes(items', i) == SlotNodes(items, i)
    requires SlotNodes(items', n) == Readdressed(SlotNodes(items, i0), pairs)
    ensures var ls := SlotsOf(items, xs);
      SlotsOf(items', xs) == ls[n := Some(Link(n, Readdressed(ls[i0].value.nodes, pairs), OptionsFor(xs, n)))]
  {
    var ls := SlotsOf(items, xs);
    assert ls[i0] == Slot(items, xs, i0);
    var want := ls[n := Some(Link(n, Readdressed(ls[i0].value.nodes, pairs), OptionsFor(xs, n)))];
    forall i | 0 <= i < KnetLinkNumLimit
      ensures SlotsOf(items', xs)[i] == want[i]
    {
      assert ls[i] == Slot(items, xs, i);
      if i == n {
        SortReaddressed(SlotNodes(items, i0), pairs);
      }
    }
  }

  /** The steps of a successful first half of `add_link`. */
  lemma AddLinkSteps(config: Entries, canon: string -> string, pairs: Addresses)
    requires AddLinkAddrs(config, canon, pairs).Ok?
    ensures LinksSpec(config).Ok? && FreeSlot(LinksSpec(config).value).Some? && FirstLink(LinksSpec(config).value).Some?
    ensures var ls := LinksSpec(config).value;
      var n := FreeSlot(ls).value;
      MissingIds(FirstLink(ls).value.nodes, pairs) == [] &&
      WriteAddrs(config, n, pairs).Ok? && AddLinkAddrs(config, canon, pairs) == Ok((n, WriteAddrs(config, n, pairs).value))
  {
  }

  /** Every node of the node list is named by a mapping that leaves out no
      node of the first link. */
  lemma AllNamed(items: seq<Value>, ls: seq<Option<Link>>, i0: nat, xs: seq<Entries>, pairs: Addresses)
    requires RosterOk(items) && RingsComplete(items) && InterfacesOk(xs) && i0 < KnetLinkNumLimit
    requires ls == SlotsOf(items, xs) && ls[i0].Some?
    requires MissingIds(ls[i0].value.nodes, pairs) == []
    ensures Present(items, i0)
    ensures forall j :: 0 <= j < |items| ==> Find(pairs, NodeIdOf(items[j]).value as int).Some?
  {
    assert ls[i0] == Slot(items, xs, i0);
    var nodes := ls[i0].value.nodes;
    var base := SlotNodes(items, i0);
    assert multiset(nodes) == multiset(base);
    forall j | 0 <= j < |items|
      ensures Find(pairs, NodeIdOf(items[j]).value as int).Some?
    {
      assert base[j] in multiset(base);
      assert base[j] in nodes;
      var k :| 0 <= k < |nodes| && nodes[k] == base[j];
      assert nodes[k].nodeid == NodeIdOf(items[j]).value;
      assert base[j].nodeid !in MissingIds(nodes, pairs);
    }
  }

  /** The first half of `add_link` fills the lowest free slot `n` with a link
      listing every node of the first link at the address the mapping gives
      it; every other slot is as it was, and so are the interface records. */
  lemma AddLinkAddrsThenLinks(config: Entries, canon: string -> string, pairs: Addresses)
    requires AddLinkAddrs(config, canon, pairs).Ok?
    ensures LinksSpec(config).Ok? && FreeSlot(LinksSpec(config).value).Some? && FirstLink(LinksSpec(config).value).Some?
    ensures InterfacesOf(config).Ok? && InterfacesOk(InterfacesOf(config).value)
    ensures var ls := LinksSpec(config).value;
      var n := FreeSlot(ls).value;
      var p := AddLinkAddrs(config, canon, pairs).value;
      p.0 == n && InterfacesOf(p.1) == InterfacesOf(config) &&
      LinksSpec(p.1) == Ok(ls[n := Some(Link(n, Readdressed(FirstLink(ls).value.nodes, pairs), OptionsFor(InterfacesOf(config).value, n)))])
  {
    AddLinkSteps(config, canon, pairs);
    var ls := LinksSpec(config).value;
    var n, first := FreeSlot(ls).value, FirstLink(ls).value;
    LinksSourceFacts(config);
    var items, xs := LinksSource(config).value.value.0, LinksSource(config).value.value.1;
    var i0 :| 0 <= i0 < |ls| && ls[i0] == Some(first);
    AllNamed(items, ls, i0, xs, pairs);
    assert ls[n] == Slot(items, xs, n);
    var nl := NodeSection(config).value.0;
    assert NodeSection(config) == Ok((nl, items));
    WrittenNewRoster(items, n, i0, pairs);
    var items' := WriteNodeAddrs(items, n, pairs).value;
    var c := StoreNodes(config, nl, items');
    assert AddLinkAddrs(config, canon, pairs) == Ok((n, c));
    StoredNodeList(config, nl, items');
    SourceFrom(c, items', xs);
    SlotsAfterAdd(items, items', xs, n, i0, pairs);
  }

  /** `add_link` is `update_link` on the tree its first half leaves. */
  lemma AddLinkSecondHalf(config: Entries, canon: string -> string, pairs: Addresses, options: Options)
    requires AddLinkAddrs(config, canon, pairs).Ok?
    ensures AddLinkSpec(config, canon, pairs, options) ==
      UpdateLinkSpec(AddLinkAddrs(config, canon, pairs).value.1, AddLinkAddrs(config, canon, pairs).value.0, options)
  {
  }

  /** `add_link(node_addresses, options)` on a tree in which the lowest free
      slot has at most one interface record: `links()` then shows the new
      link there, listing every node at its new address, with the options
      merged in, and every other slot as it was. */
  lemma AddLinkThenLinks(config: Entries, canon: string -> string, pairs: Addresses, options: Options)
    requires AddLinkSpec(config, canon, pairs, options).Ok?
    requires LinksSpec(config).Ok? && FreeSlot(LinksSpec(config).value).Some?
    requires InterfacesOf(config).Ok? && SingleRecord(InterfacesOf(config).value, FreeSlot(LinksSpec(config).value).value)
    ensures FirstLink(LinksSpec(config).value).Some? && InterfacesOk(InterfacesOf(config).value)
    ensures var ls := LinksSpec(config).value;
      var n := FreeSlot(ls).value;
      LinksSpec(AddLinkSpec(config, canon, pairs, options).value) ==
        Ok(ls[n := Some(Link(n, Readdressed(FirstLink(ls).value.nodes, pairs),
                             MergeOptions(OptionsFor(InterfacesOf(config).value, n), options)))])
  {
    assert AddLinkAddrs(config, canon, pairs).Ok?;
    AddLinkAddrsThenLinks(config, canon, pairs);
    AddLinkSecondHalf(config, canon, pairs, options);
    var ls := LinksSpec(config).value;
    var n := FreeSlot(ls).value;
    var p := AddLinkAddrs(config, canon, pairs).value;
    UpdateFilledSlot(p.1, ls, n, Link(n, Readdressed(FirstLink(ls).value.nodes, pairs), OptionsFor(InterfacesOf(config).value, n)), options);
  }

  /** `update_link` on a slot holding link l: the slot then holds l with the
      options merged in. */
  lemma UpdateFilledSlot(c: Entries, ls: seq<Option<Link>>, n: nat, l: Link, options: Options)
    requires n < |ls| && LinksSpec(c) == Ok(ls[n := Some(l)]) && UpdateLinkSpec(c, n, options).Ok?
    requires InterfacesOf(c).Ok? && SingleRecord(InterfacesOf(c).value, n)
    ensures LinksSpec(UpdateLinkSpec(c, n, options).value) == Ok(ls[n := Some(l.(options := MergeOptions(l.options, options)))])
  {
    UpdateLinkThenLinks(c, n, options);
    UpdateTwice(ls, n, Some(l), Some(l.(options := MergeOptions(l.options, options))));
  }

  /** A slot written twice holds the second value. */
  lemma UpdateTwice<T>(s: seq<T>, n: nat, a: T, b: T)
    requires n < |s|
    ensures s[n := a][n := b] == s[n := b]
  {
  }
}
