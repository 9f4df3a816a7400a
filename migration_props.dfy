/** What each step of the corosync 2 to corosync 3 migration does to the tree. */
module MigrationProps {
  import opened Tree
  import opened Text
  import opened ConfParser
  import opened Migration

  predicate TotemOk(dom: Entries) {
    Lookup(dom, "totem").Some? && Lookup(dom, "totem").value.Dict?
  }

  function Totem(dom: Entries): Entries
    requires TotemOk(dom)
  {
    Lookup(dom, "totem").value.entries
  }

  /** The four udp-only keys popped: each is gone, every other key is untouched. */
  lemma DropUdpKeys(x: Entries, k: string)
    ensures Lookup(Delete(Delete(Delete(Delete(x, "mcastaddr"), "bindnetaddr"), "broadcast"), "ttl"), k)
            == if k in {"mcastaddr", "bindnetaddr", "broadcast", "ttl"} then None else Lookup(x, k)
  {
    var y1 := Delete(x, "mcastaddr");
    var y2 := Delete(y1, "bindnetaddr");
    var y3 := Delete(y2, "broadcast");
    assert Lookup(y3, k) == if k in {"mcastaddr", "bindnetaddr", "broadcast"} then None else Lookup(x, k);
  }

  /** An interface section after the rewrite: the udp-only keys are gone,
      `ringnumber` is gone and its value, if any, is now `linknumber`; every
      other key is untouched. */
  lemma RewriteInterfaceEffect(x: Entries, k: string)
    ensures Lookup(RewriteInterface(x), k) ==
              if k in {"mcastaddr", "bindnetaddr", "broadcast", "ttl", "ringnumber"} then None
              else if k == "linknumber" && Lookup(x, "ringnumber").Some? then Lookup(x, "ringnumber")
              else Lookup(x, k)
  {
    DropUdpKeys(x, k);
    DropUdpKeys(x, "ringnumber");
  }

  // ---------------------------------------------------------------------
  // migrate_udpu

  /** `quorum` is absent or a section, so `pop` on it succeeds. */
  predicate QuorumOk(dom: Entries) {
    Lookup(dom, "quorum").None? || Lookup(dom, "quorum").value.Dict?
  }

  /** `totem.interface` is absent or its elements are all sections. */
  predicate InterfacesRewritable(t: Entries) {
    Lookup(t, "interface").None? || AllSections(Elements(Lookup(t, "interface").value))
  }

  /** `migrate_udpu` fails exactly when `totem` is not a section, an interface
      element is not a section, or `quorum` is not a section. */
  lemma UdpuOutcome(dom: Entries)
    ensures UdpuSpec(dom).Ok? <==> TotemOk(dom) && InterfacesRewritable(Totem(dom)) && QuorumOk(dom)
  {
    if TotemOk(dom) {
      var t := Totem(dom);
      ToKnetLookup(t, "interface");
      RewriteTotemOutcome(ToKnet(t), false);
      if RewriteTotemInterfaces(ToKnet(t), false).Ok? {
        UdpuUnfold(dom);
        PutOtherLookup(dom, "totem", Dict(RewriteTotemInterfaces(ToKnet(t), false).value), "quorum");
      }
    }
  }

  lemma RewriteTotemOutcome(t: Entries, required: bool)
    ensures RewriteTotemInterfaces(t, required).Ok? <==>
              if Lookup(t, "interface").None? then !required else InterfacesRewritable(t)
  {
  }

  lemma PutOtherLookup(e: Entries, k: string, v: Value, k': string)
    requires k != k'
    ensures Lookup(Put(e, k, v), k') == Lookup(e, k')
  {
  }

  /** `migrate_udpu` past its totem and interface steps. */
  lemma UdpuUnfold(dom: Entries)
    requires TotemOk(dom) && RewriteTotemInterfaces(ToKnet(Totem(dom)), false).Ok?
    ensures UdpuSpec(dom) == DropExpectedVotes(Put(dom, "totem", Dict(RewriteTotemInterfaces(ToKnet(Totem(dom)), false).value)))
  {
  }

  lemma ToKnetLookup(t: Entries, k: string)
    ensures Lookup(ToKnet(t), k) ==
              if k == "transport" then Some(Str("knet"))
              else if k == "knet_compression_model" then Some(Str("none"))
              else Lookup(t, k)
  {
  }

  /** The value `totem.interface` takes in the interface rewrite. */
  lemma RewrittenInterfaces(t: Entries, required: bool)
    requires RewriteTotemInterfaces(t, required).Ok?
    ensures var r := RewriteTotemInterfaces(t, required).value;
            && (forall k :: k != "interface" ==> Lookup(r, k) == Lookup(t, k))
            && (Lookup(t, "interface").Some? && Lookup(t, "interface").value.List? ==>
                  AllSections(Lookup(t, "interface").value.items)
                  && Lookup(r, "interface") == Some(List(RewriteAll(Lookup(t, "interface").value.items))))
            && (!(Lookup(t, "interface").Some? && Lookup(t, "interface").value.List?) ==>
                  Lookup(r, "interface") == Lookup(t, "interface"))
  {
  }

  /** `totem` after the knet switch of `migrate_udpu` and `migrate_multicast`:
      `transport` is `knet`, `knet_compression_model` is `none`, a list of
      interfaces is rewritten item by item, and every other key is unchanged. */
  ghost predicate KnetTotem(t: Entries, t': Entries) {
    && Lookup(t', "transport") == Some(Str("knet"))
    && Lookup(t', "knet_compression_model") == Some(Str("none"))
    && (Lookup(t, "interface").Some? && Lookup(t, "interface").value.List? ==>
          AllSections(Lookup(t, "interface").value.items)
          && Lookup(t', "interface") == Some(List(RewriteAll(Lookup(t, "interface").value.items))))
    && (!(Lookup(t, "interface").Some? && Lookup(t, "interface").value.List?) ==>
          Lookup(t', "interface") == Lookup(t, "interface"))
    && forall k :: k != "transport" && k != "knet_compression_model" && k != "interface" ==>
          Lookup(t', k) == Lookup(t, k)
  }

  lemma KnetTotemOf(t: Entries, required: bool)
    requires RewriteTotemInterfaces(ToKnet(t), required).Ok?
    ensures KnetTotem(t, RewriteTotemInterfaces(ToKnet(t), required).value)
  {
    var t1 := ToKnet(t);
    RewrittenInterfaces(t1, required);
    ToKnetLookup(t, "interface");
    forall k | k != "transport" && k != "knet_compression_model" && k != "interface"
      ensures Lookup(RewriteTotemInterfaces(t1, required).value, k) == Lookup(t, k)
    {
      ToKnetLookup(t, k);
    }
  }

  /** After `migrate_udpu`, `totem` is switched to knet. */
  lemma UdpuTotem(dom: Entries)
    requires UdpuSpec(dom).Ok?
    ensures TotemOk(UdpuSpec(dom).value)
    ensures KnetTotem(Totem(dom), Totem(UdpuSpec(dom).value))
  {
    var t1 := ToKnet(Totem(dom));
    UdpuOutcome(dom);
    RewriteTotemOutcome(t1, false);
    UdpuUnfold(dom);
    var t2 := RewriteTotemInterfaces(t1, false).value;
    DropKeeps(Put(dom, "totem", Dict(t2)), "totem");
    KnetTotemOf(Totem(dom), false);
  }

  /** Dropping `quorum.expected_votes` leaves every other top-level key alone. */
  lemma DropKeeps(dom: Entries, k: string)
    requires DropExpectedVotes(dom).Ok? && k != "quorum"
    ensures Lookup(DropExpectedVotes(dom).value, k) == Lookup(dom, k)
  {
  }

  /** After `migrate_udpu`, at the top level: `quorum` has lost
      `expected_votes`, and no key but `totem` and `quorum` has changed. */
  lemma UdpuTop(dom: Entries, k: string)
    requires UdpuSpec(dom).Ok? && k != "totem"
    ensures var r := UdpuSpec(dom).value;
            && (k == "quorum" && Lookup(dom, k).Some? ==>
                  Lookup(r, k) == Some(Dict(Delete(Lookup(dom, k).value.entries, "expected_votes"))))
            && (k != "quorum" || Lookup(dom, k).None? ==> Lookup(r, k) == Lookup(dom, k))
  {
    var t2 := RewriteTotemInterfaces(ToKnet(Totem(dom)), false).value;
    var d := Put(dom, "totem", Dict(t2));
    assert Lookup(d, k) == Lookup(dom, k);
  }

  // ---------------------------------------------------------------------
  // migrate_multicast

  /** `totem` is a section whose `interface` exists and can be rewritten. */
  predicate MulticastReady(dom: Entries) {
    TotemOk(dom) && Lookup(Totem(dom), "interface").Some? && InterfacesRewritable(Totem(dom))
  }

  lemma MulticastRewrites(dom: Entries)
    requires MulticastReady(dom)
    ensures RewriteTotemInterfaces(ToKnet(Totem(dom)), true).Ok?
  {
    ToKnetLookup(Totem(dom), "interface");
    RewriteTotemOutcome(ToKnet(Totem(dom)), true);
  }

  lemma MulticastUnfold(dom: Entries, cib: seq<CibNode>, peers: map<string, Entries>)
    requires TotemOk(dom) && RewriteTotemInterfaces(ToKnet(Totem(dom)), true).Ok?
    requires !Has(dom, "nodelist") && NodelistSpec(cib, peers).Ok?
    ensures MulticastSpec(dom, cib, peers) ==
              WithNodelist(Put(dom, "totem", Dict(RewriteTotemInterfaces(ToKnet(Totem(dom)), true).value)),
                           NodelistSpec(cib, peers).value)
  {
  }

  /** `migrate_multicast` fails, in this order, on a tree whose interfaces
      cannot be rewritten, on an existing `nodelist`, on the first CIB node
      without a usable peer configuration, and on a `quorum` that is not a
      section; otherwise it succeeds. */
  lemma MulticastOutcome(dom: Entries, cib: seq<CibNode>, peers: map<string, Entries>)
    ensures !MulticastReady(dom) ==> MulticastSpec(dom, cib, peers) == Err(Malformed)
    ensures MulticastReady(dom) && Has(dom, "nodelist") ==> MulticastSpec(dom, cib, peers) == Err(NodelistExists)
    ensures MulticastReady(dom) && !Has(dom, "nodelist") && NodelistSpec(cib, peers).Err? ==>
              MulticastSpec(dom, cib, peers) == Err(NodelistSpec(cib, peers).error)
    ensures MulticastReady(dom) && !Has(dom, "nodelist") && NodelistSpec(cib, peers).Ok? ==>
              (MulticastSpec(dom, cib, peers).Ok? <==> QuorumOk(dom))
  {
    if !MulticastReady(dom) {
      MulticastNotReady(dom, cib, peers);
    } else {
      MulticastRewrites(dom);
      MulticastStops(dom, cib, peers);
      if !Has(dom, "nodelist") && NodelistSpec(cib, peers).Ok? {
        MulticastUnfold(dom, cib, peers);
        WithNodelistOutcome(Put(dom, "totem", Dict(RewriteTotemInterfaces(ToKnet(Totem(dom)), true).value)),
                            NodelistSpec(cib, peers).value);
        PutOtherLookup(dom, "totem", Dict(RewriteTotemInterfaces(ToKnet(Totem(dom)), true).value), "quorum");
      }
    }
  }

  lemma MulticastStops(dom: Entries, cib: seq<CibNode>, peers: map<string, Entries>)
    requires TotemOk(dom) && RewriteTotemInterfaces(ToKnet(Totem(dom)), true).Ok?
    ensures Has(dom, "nodelist") ==> MulticastSpec(dom, cib, peers) == Err(NodelistExists)
    ensures !Has(dom, "nodelist") && NodelistSpec(cib, peers).Err? ==>
              MulticastSpec(dom, cib, peers) == Err(NodelistSpec(cib, peers).error)
  {
  }

  lemma MulticastNotReady(dom: Entries, cib: seq<CibNode>, peers: map<string, Entries>)
    requires !MulticastReady(dom)
    ensures MulticastSpec(dom, cib, peers) == Err(Malformed)
  {
    if TotemOk(dom) {
      ToKnetLookup(Totem(dom), "interface");
      RewriteTotemOutcome(ToKnet(Totem(dom)), true);
    }
  }

  lemma WithNodelistOutcome(dom: Entries, nodes: seq<Value>)
    ensures WithNodelist(dom, nodes).Ok? <==> QuorumOk(dom)
  {
    PutOtherLookup(dom, "nodelist", Dict([("node", List(nodes))]), "quorum");
  }

  /** What `dom['nodelist'] = ...` followed by the quorum clean-up leaves at each key. */
  lemma WithNodelistLookup(dom: Entries, nodes: seq<Value>, k: string)
    requires WithNodelist(dom, nodes).Ok?
    ensures var r := WithNodelist(dom, nodes).value;
            && (k == "nodelist" ==> Lookup(r, k) == Some(Dict([("node", List(nodes))])))
            && (k == "quorum" && Lookup(dom, k).Some? ==>
                  Lookup(r, k) == Some(Dict(Delete(Lookup(dom, k).value.entries, "expected_votes"))))
            && (k != "nodelist" && (k != "quorum" || Lookup(dom, k).None?) ==> Lookup(r, k) == Lookup(dom, k))
  {
    var d := Put(dom, "nodelist", Dict([("node", List(nodes))]));
    PutOtherLookup(dom, "nodelist", Dict([("node", List(nodes))]), "quorum");
    if k != "quorum" {
      DropKeeps(d, k);
    }
  }

  /** `migrate_multicast` succeeds only on a ready tree without a `nodelist`
      and with a CIB whose every node has a usable peer configuration; it then
      equals attaching the node list to the tree with `totem` switched to knet. */
  lemma MulticastOk(dom: Entries, cib: seq<CibNode>, peers: map<string, Entries>)
    requires MulticastSpec(dom, cib, peers).Ok?
    ensures MulticastReady(dom) && !Has(dom, "nodelist") && NodelistSpec(cib, peers).Ok? && QuorumOk(dom)
    ensures RewriteTotemInterfaces(ToKnet(Totem(dom)), true).Ok?
    ensures MulticastSpec(dom, cib, peers) ==
              WithNodelist(Put(dom, "totem", Dict(RewriteTotemInterfaces(ToKnet(Totem(dom)), true).value)),
                           NodelistSpec(cib, peers).value)
  {
    MulticastOutcome(dom, cib, peers);
    MulticastRewrites(dom);
    MulticastUnfold(dom, cib, peers);
  }

  /** After `migrate_multicast`, `totem` is switched to knet and
      `nodelist.node` is the list built from the CIB. */
  lemma MulticastEffect(dom: Entries, cib: seq<CibNode>, peers: map<string, Entries>)
    requires MulticastSpec(dom, cib, peers).Ok?
    ensures NodelistSpec(cib, peers).Ok?
    ensures var r := MulticastSpec(dom, cib, peers).value;
            && TotemOk(dom) && TotemOk(r) && KnetTotem(Totem(dom), Totem(r))
            && Lookup(r, "nodelist") == Some(Dict([("node", List(NodelistSpec(cib, peers).value))]))
  {
    MulticastOk(dom, cib, peers);
    var t2 := RewriteTotemInterfaces(ToKnet(Totem(dom)), true).value;
    var d := Put(dom, "totem", Dict(t2));
    var nodes := NodelistSpec(cib, peers).value;
    KnetTotemOf(Totem(dom), true);
    WithNodelistLookup(d, nodes, "totem");
    WithNodelistLookup(d, nodes, "nodelist");
  }

  /** After `migrate_multicast`, `quorum` has lost `expected_votes` and no other
      top-level key but `totem` and `nodelist` has changed. */
  lemma MulticastTop(dom: Entries, cib: seq<CibNode>, peers: map<string, Entries>, k: string)
    requires MulticastSpec(dom, cib, peers).Ok? && k != "totem" && k != "nodelist"
    ensures QuorumOk(dom)
    ensures var r := MulticastSpec(dom, cib, peers).value;
            && (k == "quorum" && Lookup(dom, k).Some? ==>
                  Lookup(r, k) == Some(Dict(Delete(Lookup(dom, k).value.entries, "expected_votes"))))
            && (k != "quorum" || Lookup(dom, k).None? ==> Lookup(r, k) == Lookup(dom, k))
  {
    MulticastOk(dom, cib, peers);
    var t2 := RewriteTotemInterfaces(ToKnet(Totem(dom)), true).value;
    var d := Put(dom, "totem", Dict(t2));
    PutOtherLookup(dom, "totem", Dict(t2), k);
    WithNodelistTop(d, NodelistSpec(cib, peers).value, dom, k);
  }

  lemma WithNodelistTop(d: Entries, nodes: seq<Value>, dom: Entries, k: string)
    requires WithNodelist(d, nodes).Ok? && k != "nodelist" && Lookup(d, k) == Lookup(dom, k)
    ensures var r := WithNodelist(d, nodes).value;
            && (k == "quorum" && Lookup(dom, k).Some? ==>
                  Lookup(r, k) == Some(Dict(Delete(Lookup(dom, k).value.entries, "expected_votes"))))
            && (k != "quorum" || Lookup(dom, k).None? ==> Lookup(r, k) == Lookup(dom, k))
  {
    WithNodelistLookup(d, nodes, k);
  }

  // ---------------------------------------------------------------------
  // The node list of migrate_multicast

  /** A run of steps succeeds with one value per step exactly when every step
      succeeds, and otherwise fails with the error of the first failing step. */
  lemma {:induction false} CollectOutcome<T>(rs: seq<Result<T, MigrationError>>)
    ensures Collect(rs).Ok? <==> forall j :: 0 <= j < |rs| ==> rs[j].Ok?
    ensures Collect(rs).Ok? ==>
              |Collect(rs).value| == |rs| && forall j :: 0 <= j < |rs| ==> rs[j] == Ok(Collect(rs).value[j])
    ensures Collect(rs).Err? ==>
              exists j :: 0 <= j < |rs| && rs[j] == Err(Collect(rs).error) && forall i :: 0 <= i < j ==> rs[i].Ok?
    decreases |rs|
  {
    if |rs| > 0 {
      var init, last := rs[..|rs| - 1], rs[|rs| - 1];
      CollectOutcome(init);
      assert forall i :: 0 <= i < |rs| - 1 ==> rs[i] == init[i];
      if Collect(init).Err? {
        assert Collect(rs) == Collect(init);
        var j :| 0 <= j < |init| && init[j] == Err(Collect(init).error) && forall i :: 0 <= i < j ==> init[i].Ok?;
        assert rs[j] == init[j];
      } else if last.Err? {
        assert Collect(rs) == Err(last.error);
        assert rs[|rs| - 1] == Err(Collect(rs).error);
      } else {
        var v := Collect(init).value;
        assert Collect(rs) == Ok(v + [last.value]);
      }
    }
  }

  /** The node list is built for every CIB node, in CIB order, or fails with
      the error of the first CIB node that fails. */
  lemma NodelistOutcome(cib: seq<CibNode>, peers: map<string, Entries>)
    ensures NodelistSpec(cib, peers).Ok? <==> forall j :: 0 <= j < |cib| ==> NodeEntry(cib[j], peers).Ok?
    ensures NodelistSpec(cib, peers).Ok? ==>
              |NodelistSpec(cib, peers).value| == |cib|
              && forall j :: 0 <= j < |cib| ==> NodeEntry(cib[j], peers) == Ok(NodelistSpec(cib, peers).value[j])
    ensures NodelistSpec(cib, peers).Err? ==>
              exists j :: 0 <= j < |cib| && NodeEntry(cib[j], peers) == Err(NodelistSpec(cib, peers).error)
                          && forall i :: 0 <= i < j ==> NodeEntry(cib[i], peers).Ok?
  {
    var rs := NodeEntries(cib, peers);
    assert |rs| == |cib| && forall j :: 0 <= j < |cib| ==> rs[j] == NodeEntry(cib[j], peers);
    CollectOutcome(rs);
    if NodelistSpec(cib, peers).Err? {
      var j :| 0 <= j < |rs| && rs[j] == Err(Collect(rs).error) && forall i :: 0 <= i < j ==> rs[i].Ok?;
      assert NodeEntry(cib[j], peers) == rs[j];
    }
  }

  /** `Lookup` on a concatenation: the left part is searched first. */
  lemma {:induction false} LookupConcat(a: Entries, b: Entries, k: string)
    ensures Lookup(a + b, k) == if Lookup(a, k).Some? then Lookup(a, k) else Lookup(b, k)
  {
    if |a| == 0 {
      assert a + b == b;
    } else {
      assert (a + b)[0] == a[0];
      assert (a + b)[1..] == a[1..] + b;
      LookupConcat(a[1..], b, k);
    }
  }

  /** In a section whose keys are pairwise distinct, each key reads its own value. */
  lemma {:induction false} LookupDistinct(e: Entries, j: nat)
    requires j < |e|
    requires forall a, b :: 0 <= a < b < |e| ==> e[a].0 != e[b].0
    ensures Lookup(e, e[j].0) == Some(e[j].1)
  {
    if j > 0 {
      assert e[1..][j - 1] == e[j];
      LookupDistinct(e[1..], j - 1);
    }
  }

  /** The bind addresses of a peer, keyed `ring0_addr`, `ring1_addr`, ...:
      `ring{i}_addr` reads the i-th interface's `bindnetaddr`. */
  lemma AddressesRead(addrs: Entries, i: nat)
    requires forall j :: 0 <= j < |addrs| ==> addrs[j].0 == RingKey(j)
    ensures Lookup(addrs, RingKey(i)) == if i < |addrs| then Some(addrs[i].1) else None
  {
    forall a, b | 0 <= a < b < |addrs|
      ensures addrs[a].0 != addrs[b].0
    {
      RingKeyInjective(a, b);
    }
    if i < |addrs| {
      LookupDistinct(addrs, i);
    } else {
      forall j | 0 <= j < |addrs|
        ensures addrs[j].0 != RingKey(i)
      {
        RingKeyInjective(i, j);
      }
      LookupAbsent(addrs, RingKey(i));
    }
  }

  /** The interfaces of a peer's configuration tree after the normaliser. */
  function PeerInterfaces(root: Entries): seq<Value> {
    var n := Normalized(root);
    if TotemOk(n) && Lookup(Totem(n), "interface").Some? then Elements(Lookup(Totem(n), "interface").value) else []
  }

  /** The node section built for a CIB node holds its id, its uname, and the
      peer's i-th `bindnetaddr` as `ring{i}_addr` for each of its interfaces. */
  lemma NodeEntryReads(n: CibNode, peers: map<string, Entries>, i: nat)
    requires NodeEntry(n, peers).Ok?
    ensures NodeEntry(n, peers).value.Dict?
    ensures var e, xs := NodeEntry(n, peers).value.entries, PeerInterfaces(peers[n.uname]);
            && Lookup(e, "nodeid") == Some(Str(NatToString(n.nodeId)))
            && Lookup(e, "name") == Some(Str(n.uname))
            && (i < |xs| ==> HasBindAddr(xs[i]) && Lookup(e, RingKey(i)) == Lookup(xs[i].entries, "bindnetaddr"))
            && (i >= |xs| ==> Lookup(e, RingKey(i)) == None)
  {
    var addrs := PeerAddresses(Normalized(peers[n.uname])).value;
    var head: Entries := [("nodeid", Str(NatToString(n.nodeId))), ("name", Str(n.uname))];
    assert NodeEntry(n, peers).value.entries == head + addrs;
    var xs := PeerInterfaces(peers[n.uname]);
    assert |addrs| == |xs| && forall j :: 0 <= j < |addrs| ==> HasBindAddr(xs[j]) && addrs[j] == (RingKey(j), Lookup(xs[j].entries, "bindnetaddr").value);
    LookupConcat(head, addrs, RingKey(i));
    AddressesRead(addrs, i);
  }

  // ---------------------------------------------------------------------
  // migrate_transport

  function TransportOf(dom: Entries): Option<Value>
    requires TotemOk(dom)
  {
    Lookup(Totem(dom), "transport")
  }

  /** The transport dispatch: knet is left alone, udpu goes through
      `migrate_udpu`, udp through `migrate_multicast`; any other transport, or
      none, goes through `migrate_multicast` when there is no `nodelist` and is
      left alone otherwise, unless reading `interface[0]` crashes. */
  lemma TransportDispatch(dom: Entries, cib: seq<CibNode>, peers: map<string, Entries>)
    ensures !TotemOk(dom) ==> TransportSpec(dom, cib, peers) == Err(Malformed)
    ensures TotemOk(dom) ==>
              var tr := TransportOf(dom);
              && (tr == Some(Str("knet")) ==> TransportSpec(dom, cib, peers) == Ok(dom))
              && (tr == Some(Str("udpu")) ==> TransportSpec(dom, cib, peers) == UdpuSpec(dom))
              && (tr == Some(Str("udp")) ==> TransportSpec(dom, cib, peers) == MulticastSpec(dom, cib, peers))
              && (tr !in {Some(Str("knet")), Some(Str("udpu")), Some(Str("udp"))} ==>
                    TransportSpec(dom, cib, peers) ==
                      if ProbeCrashes(Totem(dom)) then Err(Malformed)
                      else if Has(dom, "nodelist") then Ok(dom)
                      else MulticastSpec(dom, cib, peers))
  {
  }

  /** After `migrate_transport` the transport is knet exactly when it was knet,
      udpu or udp, or when there was no `nodelist`; a tree whose transport is
      not knet afterwards is unchanged. */
  lemma TransportResult(dom: Entries, cib: seq<CibNode>, peers: map<string, Entries>)
    requires TransportSpec(dom, cib, peers).Ok?
    ensures TotemOk(dom) && TotemOk(TransportSpec(dom, cib, peers).value)
    ensures var tr, r := TransportOf(dom), TransportSpec(dom, cib, peers).value;
            && (TransportOf(r) == Some(Str("knet")) <==>
                  tr in {Some(Str("knet")), Some(Str("udpu")), Some(Str("udp"))} || !Has(dom, "nodelist"))
            && (TransportOf(r) != Some(Str("knet")) ==> r == dom)
  {
    TransportDispatch(dom, cib, peers);
    var tr := TransportOf(dom);
    if tr == Some(Str("udpu")) {
      UdpuTotem(dom);
    } else if tr != Some(Str("knet")) && (tr == Some(Str("udp")) || !Has(dom, "nodelist")) {
      MulticastEffect(dom, cib, peers);
    }
  }

  // ---------------------------------------------------------------------
  // migrate_crypto

  /** `migrate_crypto` fails only when `totem` is not a section; it turns a
      `crypto_hash` of sha1 into sha256, and changes nothing else. */
  lemma CryptoOutcome(dom: Entries, k: string)
    ensures CryptoSpec(dom).Ok? <==> TotemOk(dom)
    ensures CryptoSpec(dom).Ok? ==>
              var t, r := Totem(dom), CryptoSpec(dom).value;
              && TotemOk(r)
              && Lookup(Totem(r), "crypto_hash") ==
                   (if Lookup(t, "crypto_hash") == Some(Str("sha1")) then Some(Str("sha256")) else Lookup(t, "crypto_hash"))
              && (k != "crypto_hash" ==> Lookup(Totem(r), k) == Lookup(t, k))
              && (k != "totem" ==> Lookup(r, k) == Lookup(dom, k))
  {
  }

  /** Running `migrate_crypto` twice is running it once. */
  lemma CryptoIdempotent(dom: Entries)
    requires CryptoSpec(dom).Ok?
    ensures CryptoSpec(CryptoSpec(dom).value) == CryptoSpec(dom)
  {
    CryptoOutcome(dom, "crypto_hash");
  }

  // ---------------------------------------------------------------------
  // migrate_rrp and populate_node_name

  /** `dom['nodelist']['node']` can be read. */
  predicate NodesFound(dom: Entries) {
    && Lookup(dom, "nodelist").Some? && Lookup(dom, "nodelist").value.Dict?
    && Lookup(Lookup(dom, "nodelist").value.entries, "node").Some?
  }

  function NodelistOf(dom: Entries): Entries
    requires NodesFound(dom)
  {
    Lookup(dom, "nodelist").value.entries
  }

  /** The nodes `migrate_rrp` iterates over. */
  function NodesOf(dom: Entries): seq<Value>
    requires NodesFound(dom)
  {
    Elements(Lookup(NodelistOf(dom), "node").value)
  }

  /** Without `nodelist.node`, or without a node naming `ring1_addr`,
      `migrate_rrp` leaves the tree unchanged. */
  lemma RrpInactive(dom: Entries, cib: seq<CibNode>)
    requires Lookup(dom, "nodelist").None?
             || (Lookup(dom, "nodelist").value.Dict? && !NodesFound(dom))
             || (NodesFound(dom) && !IsRrp(NodesOf(dom)))
    ensures RrpSpec(dom, cib) == Ok(dom)
  {
  }

  lemma RrpUnfold(dom: Entries, cib: seq<CibNode>)
    requires NodesFound(dom)
    ensures RrpSpec(dom, cib) == RrpNodes(dom, NodelistOf(dom), NodesOf(dom), cib)
  {
  }

  /** The rrp_mode step: `rrp_mode` is removed, and `link_mode` becomes
      `active` only when `rrp_mode` was `active`; nothing else changes. */
  lemma RrpModeEffect(dom: Entries, k: string)
    requires TotemOk(dom)
    ensures RrpModeStep(dom).Ok?
    ensures var t, r := Totem(dom), RrpModeStep(dom).value;
            && TotemOk(r)
            && Lookup(Totem(r), "rrp_mode") == None
            && Lookup(Totem(r), "link_mode") ==
                 (if Lookup(t, "rrp_mode") == Some(Str("active")) then Some(Str("active")) else Lookup(t, "link_mode"))
            && (k != "rrp_mode" && k != "link_mode" ==> Lookup(Totem(r), k) == Lookup(t, k))
            && (k != "totem" ==> Lookup(r, k) == Lookup(dom, k))
  {
  }

  /** The rrp migration fails when a node has no `nodeid`, or when names are
      needed and the first node that cannot be named fails; otherwise it
      succeeds. */
  lemma RrpOutcome(dom: Entries, cib: seq<CibNode>)
    requires NodesFound(dom) && IsRrp(NodesOf(dom)) && TotemOk(dom)
    ensures var nodes := NodesOf(dom);
            && (!AllContain(nodes, "nodeid") ==> RrpSpec(dom, cib) == Err(NoNodeid))
            && (AllContain(nodes, "nodeid") && !AllContain(nodes, "name") && PopulateSpec(nodes, cib).Err? ==>
                  RrpSpec(dom, cib) == Err(PopulateSpec(nodes, cib).error))
            && (RrpSpec(dom, cib).Ok? <==>
                  AllContain(nodes, "nodeid") && (AllContain(nodes, "name") || PopulateSpec(nodes, cib).Ok?))
  {
    RrpUnfold(dom, cib);
    RrpModeEffect(dom, "totem");
  }

  /** After the rrp migration of an rrp tree, `totem` has gone through the
      rrp_mode step. */
  lemma RrpTotem(dom: Entries, cib: seq<CibNode>)
    requires NodesFound(dom) && IsRrp(NodesOf(dom)) && TotemOk(dom) && RrpSpec(dom, cib).Ok?
    ensures RrpModeStep(dom).Ok?
    ensures Lookup(RrpSpec(dom, cib).value, "totem") == Lookup(RrpModeStep(dom).value, "totem")
  {
    RrpUnfold(dom, cib);
    RrpModeEffect(dom, "nodelist");
    var d1 := RrpModeStep(dom).value;
    if !AllContain(NodesOf(dom), "name") {
      PutOtherLookup(d1, "nodelist", Dict(Put(NodelistOf(dom), "node", List(PopulateSpec(NodesOf(dom), cib).value))), "totem");
    }
  }

  /** After the rrp migration of an rrp tree, the node list is unchanged when
      every node has a name, and otherwise holds the named nodes. */
  lemma RrpNodelist(dom: Entries, cib: seq<CibNode>)
    requires NodesFound(dom) && IsRrp(NodesOf(dom)) && TotemOk(dom) && RrpSpec(dom, cib).Ok?
    ensures !AllContain(NodesOf(dom), "name") ==> PopulateSpec(NodesOf(dom), cib).Ok?
    ensures var r := RrpSpec(dom, cib).value;
            && (AllContain(NodesOf(dom), "name") ==> Lookup(r, "nodelist") == Lookup(dom, "nodelist"))
            && (!AllContain(NodesOf(dom), "name") ==>
                  Lookup(r, "nodelist") == Some(Dict(Put(NodelistOf(dom), "node", List(PopulateSpec(NodesOf(dom), cib).value)))))
  {
    RrpOutcome(dom, cib);
    RrpUnfold(dom, cib);
    RrpModeEffect(dom, "nodelist");
  }

  /** The rrp migration changes no top-level key but `totem` and `nodelist`. */
  lemma RrpTop(dom: Entries, cib: seq<CibNode>, k: string)
    requires RrpSpec(dom, cib).Ok? && k != "totem" && k != "nodelist"
    ensures Lookup(RrpSpec(dom, cib).value, k) == Lookup(dom, k)
  {
    if NodesFound(dom) && IsRrp(NodesOf(dom)) {
      RrpUnfold(dom, cib);
      if TotemOk(dom) {
        RrpModeEffect(dom, k);
      }
      var d1 := RrpModeStep(dom).value;
      if !AllContain(NodesOf(dom), "name") && AllContain(NodesOf(dom), "nodeid") {
        PutOtherLookup(d1, "nodelist", Dict(Put(NodelistOf(dom), "node", List(PopulateSpec(NodesOf(dom), cib).value))), k);
      }
    }
  }

  /** `int(node['nodeid'])` succeeds on a section whose `nodeid` is a decimal string. */
  lemma IntNodeidOutcome(node: Value)
    ensures IntNodeid(node).Ok? <==>
              node.Dict? && Lookup(node.entries, "nodeid").Some? && Lookup(node.entries, "nodeid").value.Str?
              && ParseNat(Lookup(node.entries, "nodeid").value.s).Some?
    ensures IntNodeid(node).Ok? ==> IntNodeid(node).value == ParseNat(Lookup(node.entries, "nodeid").value.s).value
  {
  }

  /** `cib_nodes[id]` finds the last CIB node with that id, and fails when no
      CIB node has it. */
  lemma {:induction false} CibNameLast(cib: seq<CibNode>, id: nat)
    ensures CibName(cib, id).None? <==> forall j :: 0 <= j < |cib| ==> cib[j].nodeId != id
    ensures CibName(cib, id).Some? ==>
              exists j :: 0 <= j < |cib| && cib[j] == CibNode(id, CibName(cib, id).value)
                          && forall j' :: j < j' < |cib| ==> cib[j'].nodeId != id
    decreases |cib|
  {
    if |cib| > 0 && cib[|cib| - 1].nodeId != id {
      var init := cib[..|cib| - 1];
      CibNameLast(init, id);
      if CibName(init, id).Some? {
        var j :| 0 <= j < |init| && init[j] == CibNode(id, CibName(init, id).value)
                 && forall j' :: j < j' < |init| ==> init[j'].nodeId != id;
        assert cib[j] == init[j];
      }
    }
  }

  /** One node named: it needs a decimal `nodeid` that some CIB node has, and
      then gets that CIB node's uname as `name`. */
  lemma NamedNodeOutcome(node: Value, cib: seq<CibNode>)
    ensures NamedNode(node, cib).Ok? <==> IntNodeid(node).Ok? && CibName(cib, IntNodeid(node).value).Some?
    ensures IntNodeid(node).Ok? && CibName(cib, IntNodeid(node).value).None? ==>
              NamedNode(node, cib) == Err(NoCibNode(IntNodeid(node).value))
    ensures NamedNode(node, cib).Ok? ==>
              node.Dict? && NamedNode(node, cib).value == Dict(Put(node.entries, "name", Str(CibName(cib, IntNodeid(node).value).value)))
  {
  }

  /** `populate_node_name` names every node, in order, or fails with the error
      of the first node that cannot be named. */
  lemma PopulateOutcome(nodes: seq<Value>, cib: seq<CibNode>)
    ensures PopulateSpec(nodes, cib).Ok? <==> forall j :: 0 <= j < |nodes| ==> NamedNode(nodes[j], cib).Ok?
    ensures PopulateSpec(nodes, cib).Ok? ==>
              |PopulateSpec(nodes, cib).value| == |nodes|
              && forall j :: 0 <= j < |nodes| ==> NamedNode(nodes[j], cib) == Ok(PopulateSpec(nodes, cib).value[j])
    ensures PopulateSpec(nodes, cib).Err? ==>
              exists j :: 0 <= j < |nodes| && NamedNode(nodes[j], cib) == Err(PopulateSpec(nodes, cib).error)
                          && forall i :: 0 <= i < j ==> NamedNode(nodes[i], cib).Ok?
  {
    var rs := NamedNodes(nodes, cib);
    assert |rs| == |nodes| && forall j :: 0 <= j < |nodes| ==> rs[j] == NamedNode(nodes[j], cib);
    CollectOutcome(rs);
    if PopulateSpec(nodes, cib).Err? {
      var j :| 0 <= j < |rs| && rs[j] == Err(Collect(rs).error) && forall i :: 0 <= i < j ==> rs[i].Ok?;
      assert NamedNode(nodes[j], cib) == rs[j];
    }
  }
}
