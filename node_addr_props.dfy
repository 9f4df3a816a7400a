/** Properties of `update_node_addr`: which address assignments the
    uniqueness check accepts, and what the node list holds afterwards. */
module NodeAddrProps {
  import opened Tree
  import opened Text
  import opened LinkManager
  import opened LinkProps

  /** The nodeids of a mapping are distinct. */
  predicate DistinctIds(pairs: Addresses) {
    forall p, q :: 0 <= p < q < |pairs| ==> pairs[p].0 != pairs[q].0
  }

  /** Every nodeid named is a node of the link. */
  predicate Known(nodes: seq<LinkNode>, pairs: Addresses) {
    forall p :: 0 <= p < |pairs| ==> FindNode(nodes, pairs[p].0).Some?
  }

  /** The pair gives its node an address for the first time, or one that is
      canonically different from the one it has. */
  predicate Changes(canon: string -> string, nodes: seq<LinkNode>, pair: (int, string))
    requires FindNode(nodes, pair.0).Some?
  {
    var n := nodes[FindNode(nodes, pair.0).value];
    n.addr == "" || canon(n.addr) != canon(pair.1)
  }

  /** Every address that changes is taken neither by an existing node nor by
      an earlier pair. */
  predicate Fresh(canon: string -> string, nodes: seq<LinkNode>, m: map<string, nat>, pairs: Addresses)
    requires Known(nodes, pairs)
  {
    forall p :: 0 <= p < |pairs| && Changes(canon, nodes, pairs[p]) ==>
      canon(pairs[p].1) !in m && forall q :: 0 <= q < p ==> canon(pairs[q].1) != canon(pairs[p].1)
  }

  /** Giving one node a new address does not move any node. */
  lemma {:induction false} FindNodeAfterWrite(nodes: seq<LinkNode>, j: nat, a: string, id: int)
    requires j < |nodes|
    ensures FindNode(nodes[j := nodes[j].(addr := a)], id) == FindNode(nodes, id)
  {
    var nodes' := nodes[j := nodes[j].(addr := a)];
    if j > 0 && nodes[0].nodeid != id {
      FindNodeAfterWrite(nodes[1..], j - 1, a, id);
      assert nodes'[1..] == nodes[1..][j - 1 := nodes[j].(addr := a)];
    }
  }

  /** A later pair sees the first pair's write only through the address map. */
  lemma LaterPair(canon: string -> string, nodes: seq<LinkNode>, j: nat, a: string, pair: (int, string))
    requires j < |nodes| && pair.0 != nodes[j].nodeid
    ensures var nodes' := nodes[j := nodes[j].(addr := a)];
      FindNode(nodes', pair.0) == FindNode(nodes, pair.0) &&
      (FindNode(nodes, pair.0).Some? ==> Changes(canon, nodes', pair) == Changes(canon, nodes, pair))
  {
    FindNodeAfterWrite(nodes, j, a, pair.0);
  }

  /** The uniqueness check of `__upsert_node_addr_impl` passes exactly when
      every nodeid is a node of the link and every address that changes is
      neither in the address map nor given to an earlier node. */
  lemma {:induction false} ClaimAddrsAccepts(canon: string -> string, nodes: seq<LinkNode>, m: map<string, nat>, pairs: Addresses)
    requires DistinctIds(pairs)
    ensures ClaimAddrs(canon, nodes, m, pairs).None? <==> Known(nodes, pairs) && Fresh(canon, nodes, m, pairs)
    decreases |pairs|
  {
    if |pairs| > 0 {
      var id, addr := pairs[0].0, pairs[0].1;
      var found := FindNode(nodes, id);
      if found.Some? {
        var j := found.value;
        var c := canon(addr);
        if !((nodes[j].addr == "" || canon(nodes[j].addr) != c) && c in m) {
          var nodes' := nodes[j := nodes[j].(addr := addr)];
          var m' := m[c := nodes[j].nodeid];
          var rest := pairs[1..];
          assert DistinctIds(rest);
          ClaimAddrsAccepts(canon, nodes', m', rest);
          forall p | 0 <= p < |rest|
            ensures FindNode(nodes', rest[p].0) == FindNode(nodes, rest[p].0)
            ensures FindNode(nodes, rest[p].0).Some? ==> Changes(canon, nodes', rest[p]) == Changes(canon, nodes, rest[p])
          {
            assert rest[p] == pairs[p + 1];
            LaterPair(canon, nodes, j, addr, rest[p]);
          }
          FreshStep(canon, nodes, nodes', m, m', pairs);
        }
      }
    }
  }

  /** The step of `ClaimAddrsAccepts`: the conditions on all pairs are the
      conditions on the first and those on the rest, read after the first. */
  lemma FreshStep(canon: string -> string, nodes: seq<LinkNode>, nodes': seq<LinkNode>,
                  m: map<string, nat>, m': map<string, nat>, pairs: Addresses)
    requires |pairs| > 0 && FindNode(nodes, pairs[0].0).Some?
    requires !(Changes(canon, nodes, pairs[0]) && canon(pairs[0].1) in m)
    requires forall k :: k in m' <==> k in m || k == canon(pairs[0].1)
    requires forall p :: 0 <= p < |pairs[1..]| ==> FindNode(nodes', pairs[1..][p].0) == FindNode(nodes, pairs[1..][p].0)
    requires forall p :: 0 <= p < |pairs[1..]| && FindNode(nodes, pairs[1..][p].0).Some? ==>
      Changes(canon, nodes', pairs[1..][p]) == Changes(canon, nodes, pairs[1..][p])
    ensures Known(nodes', pairs[1..]) && Fresh(canon, nodes', m', pairs[1..]) <==>
      Known(nodes, pairs) && Fresh(canon, nodes, m, pairs)
  {
    var rest := pairs[1..];
    assert forall p :: 0 <= p < |rest| ==> rest[p] == pairs[p + 1];
    if Known(nodes, pairs) {
      assert Known(nodes', rest);
      if Fresh(canon, nodes', m', rest) {
        forall p | 0 <= p < |pairs| && Changes(canon, nodes, pairs[p])
          ensures canon(pairs[p].1) !in m && forall q :: 0 <= q < p ==> canon(pairs[q].1) != canon(pairs[p].1)
        {
          if p > 0 {
            assert Changes(canon, nodes', rest[p - 1]);
            forall q | 0 <= q < p
              ensures canon(pairs[q].1) != canon(pairs[p].1)
            {
              if q > 0 {
                assert rest[q - 1] == pairs[q];
              }
            }
          }
        }
      }
      if Fresh(canon, nodes, m, pairs) {
        forall p | 0 <= p < |rest| && Changes(canon, nodes', rest[p])
          ensures canon(rest[p].1) !in m' && forall q :: 0 <= q < p ==> canon(rest[q].1) != canon(rest[p].1)
        {
          assert Changes(canon, nodes, pairs[p + 1]);
          assert canon(pairs[0].1) != canon(pairs[p + 1].1);
          forall q | 0 <= q < p
            ensures canon(rest[q].1) != canon(rest[p].1)
          {
            assert rest[q] == pairs[q + 1];
          }
        }
      }
    } else {
      var p :| 0 <= p < |pairs| && FindNode(nodes, pairs[p].0).None?;
      assert p > 0 && FindNode(nodes', rest[p - 1].0).None?;
    }
  }

  /** The check of one pair against the link's nodes and the address map: an
      unknown nodeid, or a changing address the map already holds, is refused
      with the exception the source raises. */
  function PairCheck(canon: string -> string, nodes: seq<LinkNode>, m: map<string, nat>, pair: (int, string)): (r: Option<LinkError>)
    ensures r.Some? ==>
      r == Some(UnknownNodeid(pair.0)) || (canon(pair.1) in m && r == Some(DuplicatedNodeAddress(pair.1, pair.0, m[canon(pair.1)])))
    ensures r.None? <==> FindNode(nodes, pair.0).Some? && !(Changes(canon, nodes, pair) && canon(pair.1) in m)
  {
    match FindNode(nodes, pair.0)
    case None => Some(UnknownNodeid(pair.0))
    case Some(_) =>
      if Changes(canon, nodes, pair) && canon(pair.1) in m then
        Some(DuplicatedNodeAddress(pair.1, pair.0, m[canon(pair.1)]))
      else None
  }

  /** The address map once the first k pairs have been claimed, each pair
      mapping its canonical address to its node. */
  function MapAfter(canon: string -> string, nodes: seq<LinkNode>, m: map<string, nat>, pairs: Addresses, k: nat): map<string, nat>
    requires k <= |pairs| && forall p :: 0 <= p < k ==> FindNode(nodes, pairs[p].0).Some?
    decreases k
  {
    if k == 0 then m
    else
      assert forall p :: 0 <= p < k - 1 ==> pairs[1..][p] == pairs[p + 1];
      MapAfter(canon, nodes, m[canon(pairs[0].1) := nodes[FindNode(nodes, pairs[0].0).value].nodeid], pairs[1..], k - 1)
  }

  /** Pair j is the first one the check refuses, with error e: every earlier
      pair names a node of the link and passes against the address map as
      the pairs before it left it. */
  predicate RejectedAt(canon: string -> string, nodes: seq<LinkNode>, m: map<string, nat>, pairs: Addresses, j: nat, e: LinkError) {
    && j < |pairs|
    && (forall p :: 0 <= p < j ==> FindNode(nodes, pairs[p].0).Some?)
    && (forall p :: 0 <= p < j ==> PairCheck(canon, nodes, MapAfter(canon, nodes, m, pairs, p), pairs[p]).None?)
    && PairCheck(canon, nodes, MapAfter(canon, nodes, m, pairs, j), pairs[j]) == Some(e)
  }

  /** Giving one node a new address leaves the address maps alone. */
  lemma {:induction false} MapAfterWrite(canon: string -> string, nodes: seq<LinkNode>, i: nat, a: string,
                                         m: map<string, nat>, pairs: Addresses, k: nat)
    requires i < |nodes| && k <= |pairs| && forall p :: 0 <= p < k ==> FindNode(nodes, pairs[p].0).Some?
    ensures forall p :: 0 <= p < k ==> FindNode(nodes[i := nodes[i].(addr := a)], pairs[p].0).Some?
    ensures MapAfter(canon, nodes[i := nodes[i].(addr := a)], m, pairs, k) == MapAfter(canon, nodes, m, pairs, k)
    decreases k
  {
    var nodes' := nodes[i := nodes[i].(addr := a)];
    forall p | 0 <= p < k
      ensures FindNode(nodes', pairs[p].0) == FindNode(nodes, pairs[p].0)
    {
      FindNodeAfterWrite(nodes, i, a, pairs[p].0);
    }
    if k > 0 {
      var f := FindNode(nodes, pairs[0].0).value;
      assert nodes'[f].nodeid == nodes[f].nodeid;
      var m' := m[canon(pairs[0].1) := nodes[f].nodeid];
      assert forall p :: 0 <= p < k - 1 ==> pairs[1..][p] == pairs[p + 1];
      MapAfterWrite(canon, nodes, i, a, m', pairs[1..], k - 1);
      assert MapAfter(canon, nodes', m, pairs, k) == MapAfter(canon, nodes', m', pairs[1..], k - 1);
    }
  }

  /** When the uniqueness check of `__upsert_node_addr_impl` refuses the
      pairs, its error is the one of the first pair it refuses: `Unknown
      nodeid` for a nodeid that is not on the link, or the duplicated address
      exception naming the address, the nodeid and the node that holds it. */
  lemma {:induction false} ClaimAddrsRejects(canon: string -> string, nodes: seq<LinkNode>, m: map<string, nat>, pairs: Addresses)
    requires DistinctIds(pairs) && ClaimAddrs(canon, nodes, m, pairs).Some?
    ensures exists j :: RejectedAt(canon, nodes, m, pairs, j, ClaimAddrs(canon, nodes, m, pairs).value)
    decreases |pairs|
  {
    var e := ClaimAddrs(canon, nodes, m, pairs).value;
    if PairCheck(canon, nodes, m, pairs[0]).Some? {
      assert RejectedAt(canon, nodes, m, pairs, 0, e);
    } else {
      var i := FindNode(nodes, pairs[0].0).value;
      var nodes' := nodes[i := nodes[i].(addr := pairs[0].1)];
      var m' := m[canon(pairs[0].1) := nodes[i].nodeid];
      var rest := pairs[1..];
      assert forall p :: 0 <= p < |rest| ==> rest[p] == pairs[p + 1];
      assert DistinctIds(rest);
      assert ClaimAddrs(canon, nodes', m', rest) == Some(e);
      ClaimAddrsRejects(canon, nodes', m', rest);
      var j: nat :| RejectedAt(canon, nodes', m', rest, j, e);
      RejectedStep(canon, nodes, i, m, pairs, j, e);
    }
  }

  /** A pair that passes, followed by pairs of which the j-th is the first
      refused, makes pair j + 1 the first refused of the whole sequence. */
  lemma RejectedStep(canon: string -> string, nodes: seq<LinkNode>, i: nat, m: map<string, nat>, pairs: Addresses, j: nat, e: LinkError)
    requires |pairs| > 0 && FindNode(nodes, pairs[0].0) == Some(i) && PairCheck(canon, nodes, m, pairs[0]).None?
    requires forall p :: 0 < p < |pairs| ==> pairs[p].0 != pairs[0].0
    requires RejectedAt(canon, nodes[i := nodes[i].(addr := pairs[0].1)], m[canon(pairs[0].1) := nodes[i].nodeid], pairs[1..], j, e)
    ensures RejectedAt(canon, nodes, m, pairs, j + 1, e)
  {
    var nodes' := nodes[i := nodes[i].(addr := pairs[0].1)];
    var m' := m[canon(pairs[0].1) := nodes[i].nodeid];
    var rest := pairs[1..];
    forall p | 0 <= p < |rest|
      ensures rest[p] == pairs[p + 1]
      ensures FindNode(nodes', rest[p].0) == FindNode(nodes, rest[p].0)
      ensures forall x :: PairCheck(canon, nodes', x, rest[p]) == PairCheck(canon, nodes, x, rest[p])
    {
      LaterPair(canon, nodes, i, pairs[0].1, rest[p]);
    }
    forall p | 0 <= p < j + 1
      ensures FindNode(nodes, pairs[p].0).Some?
    {
      if p > 0 {
        assert pairs[p] == rest[p - 1];
      }
    }
    forall p | 0 <= p <= j
      ensures MapAfter(canon, nodes, m, pairs, p + 1) == MapAfter(canon, nodes', m', rest, p)
    {
      MapAfterWrite(canon, nodes, i, pairs[0].1, m', rest, p);
    }
    forall p | 0 < p < j + 1
      ensures PairCheck(canon, nodes, MapAfter(canon, nodes, m, pairs, p), pairs[p]).None?
    {
      assert pairs[p] == rest[p - 1];
    }
    assert pairs[j + 1] == rest[j];
  }

  /** A node after `update_node_addr`: its address is the one the mapping
      gives its nodeid, if any. */
  function Readdress(n: LinkNode, pairs: Addresses): LinkNode {
    match Find(pairs, n.nodeid as int)
    case Some(a) => n.(addr := a)
    case None => n
  }

  function Readdressed(nodes: seq<LinkNode>, pairs: Addresses): (r: seq<LinkNode>)
    ensures |r| == |nodes| && forall j :: 0 <= j < |nodes| ==> r[j] == Readdress(nodes[j], pairs)
  {
    seq(|nodes|, j requires 0 <= j < |nodes| => Readdress(nodes[j], pairs))
  }

  /** Changing addresses commutes with inserting by nodeid. */
  lemma {:induction false} InsertReaddressed(x: LinkNode, s: seq<LinkNode>, pairs: Addresses)
    ensures InsertByNodeid(Readdress(x, pairs), Readdressed(s, pairs)) == Readdressed(InsertByNodeid(x, s), pairs)
  {
    var rx, rs := Readdress(x, pairs), Readdressed(s, pairs);
    if |s| == 0 {
      assert Readdressed([x], pairs) == [rx];
    } else if x.nodeid <= s[0].nodeid {
      assert rs[0].nodeid == s[0].nodeid;
      assert InsertByNodeid(rx, rs) == [rx] + rs;
      assert Readdressed([x] + s, pairs) == [rx] + rs;
    } else {
      var t := InsertByNodeid(x, s[1..]);
      assert rs[0].nodeid == s[0].nodeid;
      assert rs[1..] == Readdressed(s[1..], pairs);
      assert InsertByNodeid(rx, rs) == [rs[0]] + InsertByNodeid(rx, rs[1..]);
      InsertReaddressed(x, s[1..], pairs);
      assert InsertByNodeid(x, s) == [s[0]] + t;
      assert Readdressed([s[0]] + t, pairs) == [rs[0]] + Readdressed(t, pairs);
    }
  }

  /** Changing addresses commutes with the sort by nodeid. */
  lemma {:induction false} SortReaddressed(s: seq<LinkNode>, pairs: Addresses)
    ensures SortByNodeid(Readdressed(s, pairs)) == Readdressed(SortByNodeid(s), pairs)
  {
    if |s| > 0 {
      SortReaddressed(s[1..], pairs);
      assert Readdressed(s, pairs)[1..] == Readdressed(s[1..], pairs);
      InsertReaddressed(s[0], SortByNodeid(s[1..]), pairs);
    }
  }

  /** Writing `ring{ln}_addr` into a node touches no other key `links()` reads. */
  lemma WrittenNode(v: Value, ln: nat, pairs: Addresses, i: nat)
    requires NodeIdOf(v).Some?
    ensures var w := WriteNodeAddr(v, ln, pairs);
      w.Dict? && NodeIdOf(w) == NodeIdOf(v) && StrAt(w, "name") == StrAt(v, "name") &&
      (i != ln ==> StrAt(w, RingKey(i)) == StrAt(v, RingKey(i)) &&
                   (Has(w.entries, RingKey(i)) <==> Has(v.entries, RingKey(i)))) &&
      (Has(v.entries, RingKey(ln)) ==> (Has(w.entries, RingKey(i)) <==> Has(v.entries, RingKey(i)))) &&
      StrAt(w, RingKey(ln)) ==
        (match Find(pairs, NodeIdOf(v).value as int) case Some(a) => Some(a) case None => StrAt(v, RingKey(ln)))
  {
    RingKeyInjective(i, ln);
    var k := RingKey(ln);
    assert k != "nodeid" && k != "name" by {
      assert k[..4] == "ring";
    }
  }

  /** The node list once the addresses are written still passes the checks of
      `links()`: the same links exist, link `ln` lists the new addresses and
      every other link is as it was. */
  lemma WrittenRoster(items: seq<Value>, ln: nat, pairs: Addresses)
    requires RosterOk(items) && RingsComplete(items) && ln < KnetLinkNumLimit && Present(items, ln)
    ensures WriteNodeAddrs(items, ln, pairs).Ok?
    ensures var items' := WriteNodeAddrs(items, ln, pairs).value;
      RosterOk(items') && RingsComplete(items') &&
      (forall i :: 0 <= i < KnetLinkNumLimit ==> (Present(items', i) <==> Present(items, i))) &&
      (forall i :: 0 <= i < KnetLinkNumLimit && i != ln && Present(items, i) ==> SlotNodes(items', i) == SlotNodes(items, i)) &&
      SlotNodes(items', ln) == Readdressed(SlotNodes(items, ln), pairs)
  {
    var items' := WriteNodeAddrs(items, ln, pairs).value;
    forall j | 0 <= j < |items|
      ensures NodeIdOf(items'[j]) == NodeIdOf(items[j]) && StrAt(items'[j], "name") == StrAt(items[j], "name")
    {
      WrittenNode(items[j], ln, pairs, ln);
    }
    assert RosterOk(items');
    forall i | 0 <= i < KnetLinkNumLimit
      ensures Present(items', i) <==> Present(items, i)
    {
      WrittenNode(items[0], ln, pairs, i);
    }
    forall i, j | 0 <= i < KnetLinkNumLimit && 0 <= j < |items'| && Present(items', i)
      ensures StrAt(items'[j], RingKey(i)).Some?
    {
      WrittenNode(items[j], ln, pairs, i);
    }
    assert RingsComplete(items');
    forall i | 0 <= i < KnetLinkNumLimit && i != ln && Present(items, i)
      ensures SlotNodes(items', i) == SlotNodes(items, i)
    {
      forall j | 0 <= j < |items|
        ensures SlotNodes(items', i)[j] == SlotNodes(items, i)[j]
      {
        WrittenNode(items[j], ln, pairs, i);
      }
    }
    var old_ := SlotNodes(items, ln);
    forall j | 0 <= j < |items|
      ensures SlotNodes(items', ln)[j] == Readdressed(old_, pairs)[j]
    {
      WrittenNode(items[j], ln, pairs, ln);
    }
  }

  /** Writing any key but `totem` leaves what `links()` reads from `totem` alone. */
  lemma TotemPutOther(config: Entries, k: string, v: Value)
    requires k != "totem"
    ensures TotemTransport(Put(config, k, v)) == TotemTransport(config)
    ensures InterfacesOf(Put(config, k, v)) == InterfacesOf(config)
  {
    TotemSame(Put(config, k, v), config);
  }

  /** A successful `update_node_addr` passed every check on its way. */
  lemma UpdateNodeAddrChecks(config: Entries, canon: string -> string, ln: nat, pairs: Addresses)
    requires UpdateNodeAddrSpec(config, canon, ln, pairs).Ok?
    ensures LinksSpec(config).Ok? && CheckLink(LinksSpec(config).value, ln).None?
    ensures var ls := LinksSpec(config).value;
      ClaimAddrs(canon, ls[ln].value.nodes, AddrMap(canon, ls), pairs).None? &&
      UpdateNodeAddrSpec(config, canon, ln, pairs) == WriteAddrs(config, ln, pairs)
  {
  }

  /** Storing a node list back: `links()` reads it, and `totem` as before. */
  lemma StoredNodeList(config: Entries, nl: Entries, items': seq<Value>)
    ensures var c := StoreNodes(config, nl, items');
      TotemTransport(c) == TotemTransport(config) && InterfacesOf(c) == InterfacesOf(config) &&
      NodeList(c) == Ok(Some(items'))
  {
    var d := Put(nl, "node", List(items'));
    TotemPutOther(config, "nodelist", Dict(d));
    NodeListReads(config, d, items');
  }

  lemma NodeListReads(config: Entries, d: Entries, items': seq<Value>)
    requires Lookup(d, "node") == Some(List(items'))
    ensures NodeList(Put(config, "nodelist", Dict(d))) == Ok(Some(items'))
  {
    NodeListFrom(Put(config, "nodelist", Dict(d)), d, items');
  }

  /** With `totem` unchanged, `links()` follows the node list. */
  lemma SourceAfterNodes(config: Entries, c: Entries, items': seq<Value>)
    requires LinksSource(config).Ok? && LinksSource(config).value.Some?
    requires TotemTransport(c) == TotemTransport(config) && InterfacesOf(c) == InterfacesOf(config)
    requires NodeList(c) == Ok(Some(items')) && RosterOk(items') && RingsComplete(items')
    ensures LinksSpec(c) == Ok(SlotsOf(items', LinksSource(config).value.value.1))
  {
    assert LinksSource(c) == Ok(Some((items', LinksSource(config).value.value.1)));
  }

  /** The slots once the addresses of link `ln` alone have changed. */
  lemma SlotsAfterReaddress(items: seq<Value>, items': seq<Value>, xs: seq<Entries>, ln: nat, pairs: Addresses)
    requires RosterOk(items) && RingsComplete(items) && RosterOk(items') && RingsComplete(items') && InterfacesOk(xs)
    requires ln < KnetLinkNumLimit && Present(items, ln)
    requires forall i :: 0 <= i < KnetLinkNumLimit ==> (Present(items', i) <==> Present(items, i))
    requires forall i :: 0 <= i < KnetLinkNumLimit && i != ln && Present(items, i) ==> SlotNodes(items', i) == SlotNodes(items, i)
    requires SlotNodes(items', ln) == Readdressed(SlotNodes(items, ln), pairs)
    ensures var ls := SlotsOf(items, xs);
      SlotsOf(items', xs) == ls[ln := Some(ls[ln].value.(nodes := Readdressed(ls[ln].value.nodes, pairs)))]
  {
    var ls := SlotsOf(items, xs);
    assert ls[ln] == Slot(items, xs, ln);
    var want := ls[ln := Some(ls[ln].value.(nodes := Readdressed(ls[ln].value.nodes, pairs)))];
    forall i | 0 <= i < KnetLinkNumLimit
      ensures SlotsOf(items', xs)[i] == want[i]
    {
      assert ls[i] == Slot(items, xs, i);
      if i == ln {
        SortReaddressed(SlotNodes(items, ln), pairs);
      }
    }
  }

  /** `update_node_addr` changes what `links()` reports in one place only:
      the nodes of link `ln` carry the addresses the mapping gives them. */
  lemma UpdateNodeAddrThenLinks(config: Entries, canon: string -> string, ln: nat, pairs: Addresses)
    requires UpdateNodeAddrSpec(config, canon, ln, pairs).Ok?
    ensures LinksSpec(config).Ok? && ln < |LinksSpec(config).value| && LinksSpec(config).value[ln].Some?
    ensures var ls := LinksSpec(config).value;
      var l := ls[ln].value;
      LinksSpec(UpdateNodeAddrSpec(config, canon, ln, pairs).value) ==
        Ok(ls[ln := Some(l.(nodes := Readdressed(l.nodes, pairs)))])
  {
    UpdateNodeAddrChecks(config, canon, ln, pairs);
    var ls := LinksSpec(config).value;
    LinksSourceFacts(config);
    var items, xs := LinksSource(config).value.value.0, LinksSource(config).value.value.1;
    assert NodeList(config) == Ok(Some(items));
    var nl := NodeSection(config).value.0;
    assert NodeSection(config) == Ok((nl, items));
    assert ls[ln] == Slot(items, xs, ln);
    WrittenRoster(items, ln, pairs);
    var items' := WriteNodeAddrs(items, ln, pairs).value;
    var c := StoreNodes(config, nl, items');
    assert UpdateNodeAddrSpec(config, canon, ln, pairs) == Ok(c);
    StoredNodeList(config, nl, items');
    SourceAfterNodes(config, c, items');
    SlotsAfterReaddress(items, items', xs, ln, pairs);
  }

  /** On a tree with links, the node list can always be written. */
  lemma WriteAddrsOk(config: Entries, ln: nat, pairs: Addresses)
    requires LinksSpec(config).Ok? && |LinksSpec(config).value| > 0
    ensures WriteAddrs(config, ln, pairs).Ok?
  {
    LinksSourceFacts(config);
    var items := LinksSource(config).value.value.0;
    assert NodeList(config) == Ok(Some(items));
    assert NodeSection(config).Ok? && NodeSection(config).value.1 == items;
    assert WriteNodeAddrs(items, ln, pairs).Ok?;
  }

  /** When `update_node_addr` fails, and why: the link does not exist, or a
      nodeid is unknown, or an address that changes is taken. It succeeds
      exactly when none of these happens, and otherwise fails with the error
      of the first pair the check refuses. */
  lemma UpdateNodeAddrOutcome(config: Entries, canon: string -> string, ln: nat, pairs: Addresses)
    requires LinksSpec(config).Ok? && DistinctIds(pairs)
    ensures var ls := LinksSpec(config).value;
      ln >= KnetLinkNumLimit || (|ls| > 0 && ls[ln].None?) ==>
        UpdateNodeAddrSpec(config, canon, ln, pairs) == Err(LinkDoesNotExist(ln))
    ensures var ls := LinksSpec(config).value;
      UpdateNodeAddrSpec(config, canon, ln, pairs).Ok? <==>
        CheckLink(ls, ln).None? && Known(ls[ln].value.nodes, pairs) &&
        Fresh(canon, ls[ln].value.nodes, AddrMap(canon, ls), pairs)
    ensures var ls := LinksSpec(config).value;
      CheckLink(ls, ln).None? && UpdateNodeAddrSpec(config, canon, ln, pairs).Err? ==>
        exists j :: RejectedAt(canon, ls[ln].value.nodes, AddrMap(canon, ls), pairs, j, UpdateNodeAddrSpec(config, canon, ln, pairs).error)
  {
    var ls := LinksSpec(config).value;
    if CheckLink(ls, ln).None? {
      ClaimAddrsAccepts(canon, ls[ln].value.nodes, AddrMap(canon, ls), pairs);
      WriteAddrsOk(config, ln, pairs);
      if UpdateNodeAddrSpec(config, canon, ln, pairs).Err? {
        ClaimAddrsRejects(canon, ls[ln].value.nodes, AddrMap(canon, ls), pairs);
      }
    }
  }
}
