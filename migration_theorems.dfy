/** Properties of the whole corosync 2 to corosync 3 migration
    (`migrate_corosync_conf_impl`): what it does to the transport, and that a
    migrated tree is left alone by a second migration. */
module MigrationTheorems {
  import opened Tree
  import opened ConfParser
  import opened ConfParserProps
  import opened Migration
  import opened MigrationProps

  /** Both list-capable sections hold lists where present. */
  predicate NormalForm(d: Entries) {
    !LoneAt(d, "totem", "interface") && !LoneAt(d, "nodelist", "node")
  }

  /** The normaliser leaves a tree in normal form alone. */
  lemma NormalFormFixed(d: Entries)
    requires NormalForm(d)
    ensures Normalized(d) == d
  {
    NormalizedUnfold(d);
  }

  lemma NormalizedNormal(c: Entries)
    ensures NormalForm(Normalized(c))
  {
    NormalizedIsNormal(c);
    assert ListSections[0] == ("totem", "interface") && ListSections[1] == ("nodelist", "node");
  }

  /** The normaliser keeps every key of `totem` but `interface`, and whether
      there is a `nodelist`. */
  lemma NormalizedTotem(c: Entries, k: string)
    ensures TotemOk(Normalized(c)) <==> TotemOk(c)
    ensures TotemOk(c) && k != "interface" ==> Lookup(Totem(Normalized(c)), k) == Lookup(Totem(c), k)
    ensures Has(Normalized(c), "nodelist") <==> Has(c, "nodelist")
  {
    NormalizeSection(c, 0);
    NormalizeSection(c, 1);
  }

  /** `migrate_transport` keeps the tree in normal form. */
  lemma TransportKeepsNormal(d: Entries, cib: seq<CibNode>, peers: map<string, Entries>)
    requires NormalForm(d) && TransportSpec(d, cib, peers).Ok?
    ensures NormalForm(TransportSpec(d, cib, peers).value)
  {
    TransportResult(d, cib, peers);
    TransportDispatch(d, cib, peers);
    var r := TransportSpec(d, cib, peers).value;
    if r != d {
      var tr := TransportOf(d);
      if tr == Some(Str("udpu")) {
        UdpuTotem(d);
        UdpuTop(d, "nodelist");
      } else {
        MulticastEffect(d, cib, peers);
      }
    }
  }

  /** `migrate_rrp` keeps every key of `totem` but `rrp_mode` and `link_mode`. */
  lemma RrpKeepsTotem(d: Entries, cib: seq<CibNode>, k: string)
    requires TotemOk(d) && RrpSpec(d, cib).Ok? && k != "rrp_mode" && k != "link_mode"
    ensures TotemOk(RrpSpec(d, cib).value) && Lookup(Totem(RrpSpec(d, cib).value), k) == Lookup(Totem(d), k)
  {
    if NodesFound(d) && IsRrp(NodesOf(d)) {
      RrpTotem(d, cib);
      RrpModeEffect(d, k);
    } else if !(Lookup(d, "nodelist").Some? && !Lookup(d, "nodelist").value.Dict?) {
      RrpInactive(d, cib);
    }
  }

  /** `migrate_rrp` keeps the tree in normal form and keeps whether there is a
      `nodelist`. */
  lemma RrpKeepsNodelist(d: Entries, cib: seq<CibNode>)
    requires NormalForm(d) && TotemOk(d) && RrpSpec(d, cib).Ok?
    ensures NormalForm(RrpSpec(d, cib).value)
    ensures Has(RrpSpec(d, cib).value, "nodelist") <==> Has(d, "nodelist")
  {
    RrpKeepsTotem(d, cib, "interface");
    if NodesFound(d) && IsRrp(NodesOf(d)) {
      RrpNodelist(d, cib);
    } else if !(Lookup(d, "nodelist").Some? && !Lookup(d, "nodelist").value.Dict?) {
      RrpInactive(d, cib);
    }
  }

  lemma RrpModeNone(d: Entries)
    requires TotemOk(d) && Lookup(Totem(d), "rrp_mode") == None
    ensures RrpModeStep(d) == Ok(d)
  {
  }

  /** Naming keeps every key a node had, and adds `name`. */
  lemma NamedKeys(nodes: seq<Value>, cib: seq<CibNode>, k: string)
    requires PopulateSpec(nodes, cib).Ok?
    ensures |PopulateSpec(nodes, cib).value| == |nodes|
    ensures forall j :: 0 <= j < |nodes| && (ContainsKey(nodes[j], k) || k == "name") ==>
              ContainsKey(PopulateSpec(nodes, cib).value[j], k)
  {
    PopulateOutcome(nodes, cib);
    forall j | 0 <= j < |nodes|
      ensures ContainsKey(nodes[j], k) || k == "name" ==> ContainsKey(PopulateSpec(nodes, cib).value[j], k)
    {
      NamedNodeOutcome(nodes[j], cib);
    }
  }

  /** After the rrp migration of an rrp tree, every node has a `nodeid` and a
      `name`, and some node still names `ring1_addr`. */
  lemma RrpSettledNodes(d: Entries, cib: seq<CibNode>)
    requires NodesFound(d) && IsRrp(NodesOf(d)) && TotemOk(d) && RrpSpec(d, cib).Ok?
    ensures var r := RrpSpec(d, cib).value;
            NodesFound(r) && IsRrp(NodesOf(r)) && AllContain(NodesOf(r), "nodeid") && AllContain(NodesOf(r), "name")
  {
    var nodes := NodesOf(d);
    var r := RrpSpec(d, cib).value;
    RrpOutcome(d, cib);
    RrpNodelist(d, cib);
    if AllContain(nodes, "name") {
      assert NodesOf(r) == nodes;
    } else {
      var named := PopulateSpec(nodes, cib).value;
      assert NodesOf(r) == named;
      NamedKeys(nodes, cib, "ring1_addr");
      NamedKeys(nodes, cib, "nodeid");
      NamedKeys(nodes, cib, "name");
      var i :| 0 <= i < |nodes| && ContainsKey(nodes[i], "ring1_addr");
      assert ContainsKey(named[i], "ring1_addr");
    }
  }

  /** After the rrp migration of an rrp tree, `totem` has no `rrp_mode` left. */
  lemma RrpSettledTotem(d: Entries, cib: seq<CibNode>)
    requires NodesFound(d) && IsRrp(NodesOf(d)) && TotemOk(d) && RrpSpec(d, cib).Ok?
    ensures TotemOk(RrpSpec(d, cib).value) && RrpModeStep(RrpSpec(d, cib).value) == Ok(RrpSpec(d, cib).value)
  {
    RrpTotem(d, cib);
    RrpModeEffect(d, "rrp_mode");
    RrpModeNone(RrpSpec(d, cib).value);
  }

  lemma RrpNodesSettled(r: Entries, nl: Entries, nodes: seq<Value>, cib: seq<CibNode>)
    requires IsRrp(nodes) && RrpModeStep(r) == Ok(r) && AllContain(nodes, "nodeid") && AllContain(nodes, "name")
    ensures RrpNodes(r, nl, nodes, cib) == Ok(r)
  {
  }

  /** A tree `migrate_rrp` has migrated is left alone by it. */
  lemma RrpIdempotent(d: Entries, cib: seq<CibNode>)
    requires TotemOk(d) && RrpSpec(d, cib).Ok?
    ensures RrpSpec(RrpSpec(d, cib).value, cib) == RrpSpec(d, cib)
  {
    var r := RrpSpec(d, cib).value;
    if NodesFound(d) && IsRrp(NodesOf(d)) {
      RrpSettledNodes(d, cib);
      RrpSettledTotem(d, cib);
      RrpUnfold(r, cib);
      RrpNodesSettled(r, NodelistOf(r), NodesOf(r), cib);
    } else if !(Lookup(d, "nodelist").Some? && !Lookup(d, "nodelist").value.Dict?) {
      RrpInactive(d, cib);
    }
  }

  // ---------------------------------------------------------------------
  // migrate_corosync_conf_impl

  /** A successful migration went through every step: the normaliser, then
      the transport, crypto and rrp steps, in that order. */
  lemma MigrateUnfold(c: Entries, cib: seq<CibNode>, peers: map<string, Entries>)
    requires MigrateSpec(c, cib, peers).Ok?
    ensures Has(c, "totem")
    ensures TransportSpec(Normalized(c), cib, peers).Ok?
    ensures CryptoSpec(TransportSpec(Normalized(c), cib, peers).value).Ok?
    ensures MigrateSpec(c, cib, peers) == RrpSpec(CryptoSpec(TransportSpec(Normalized(c), cib, peers).value).value, cib)
  {
  }

  /** After a successful migration the transport is knet exactly when it was
      knet, udpu or udp before, or when there was no `nodelist`. */
  lemma MigrateKnet(c: Entries, cib: seq<CibNode>, peers: map<string, Entries>)
    requires MigrateSpec(c, cib, peers).Ok?
    ensures TotemOk(c) && TotemOk(MigrateSpec(c, cib, peers).value)
    ensures TransportOf(MigrateSpec(c, cib, peers).value) == Some(Str("knet")) <==>
              TransportOf(c) in {Some(Str("knet")), Some(Str("udpu")), Some(Str("udp"))} || !Has(c, "nodelist")
  {
    MigrateUnfold(c, cib, peers);
    var d0 := Normalized(c);
    var d1 := TransportSpec(d0, cib, peers).value;
    var d2 := CryptoSpec(d1).value;
    TransportResult(d0, cib, peers);
    NormalizedTotem(c, "transport");
    CryptoOutcome(d1, "transport");
    RrpKeepsTotem(d2, cib, "transport");
  }

  /** `migrate_crypto` keeps the tree in normal form, the transport, the
      interfaces and the node list. */
  lemma CryptoKeeps(d: Entries)
    requires CryptoSpec(d).Ok?
    ensures var r := CryptoSpec(d).value;
            && TotemOk(d) && TotemOk(r)
            && (NormalForm(d) ==> NormalForm(r))
            && TransportOf(r) == TransportOf(d)
            && Lookup(Totem(r), "interface") == Lookup(Totem(d), "interface")
            && Lookup(r, "nodelist") == Lookup(d, "nodelist")
            && Lookup(Totem(r), "crypto_hash") != Some(Str("sha1"))
  {
    CryptoOutcome(d, "transport");
    CryptoOutcome(d, "interface");
    CryptoOutcome(d, "nodelist");
  }

  /** The transport step on a tree that has been migrated once changes nothing. */
  lemma TransportSettled(d0: Entries, r: Entries, cib: seq<CibNode>, peers: map<string, Entries>)
    requires TransportSpec(d0, cib, peers).Ok?
    requires var d1 := TransportSpec(d0, cib, peers).value;
             && TotemOk(d1) && TotemOk(r)
             && TransportOf(r) == TransportOf(d1)
             && Lookup(Totem(r), "interface") == Lookup(Totem(d1), "interface")
             && (Has(r, "nodelist") <==> Has(d1, "nodelist"))
    ensures TransportSpec(r, cib, peers) == Ok(r)
  {
    TransportResult(d0, cib, peers);
    TransportDispatch(d0, cib, peers);
    TransportDispatch(r, cib, peers);
  }

  lemma CryptoSettled(r: Entries)
    requires TotemOk(r) && Lookup(Totem(r), "crypto_hash") != Some(Str("sha1"))
    ensures CryptoSpec(r) == Ok(r)
  {
  }

  lemma MigrateSettled(r: Entries, cib: seq<CibNode>, peers: map<string, Entries>)
    requires Has(r, "totem") && Normalized(r) == r
    requires TransportSpec(r, cib, peers) == Ok(r) && CryptoSpec(r) == Ok(r) && RrpSpec(r, cib) == Ok(r)
    ensures MigrateSpec(r, cib, peers) == Ok(r)
  {
  }

  /** Migrating a migrated tree again changes nothing. */
  lemma MigrateIdempotent(c: Entries, cib: seq<CibNode>, peers: map<string, Entries>)
    requires MigrateSpec(c, cib, peers).Ok?
    ensures MigrateSpec(MigrateSpec(c, cib, peers).value, cib, peers) == MigrateSpec(c, cib, peers)
  {
    MigrateUnfold(c, cib, peers);
    var d0 := Normalized(c);
    var d1 := TransportSpec(d0, cib, peers).value;
    var d2 := CryptoSpec(d1).value;
    var r := RrpSpec(d2, cib).value;
    NormalizedNormal(c);
    TransportKeepsNormal(d0, cib, peers);
    CryptoKeeps(d1);
    RrpKeepsNodelist(d2, cib);
    RrpKeepsTotem(d2, cib, "transport");
    RrpKeepsTotem(d2, cib, "interface");
    RrpKeepsTotem(d2, cib, "crypto_hash");
    NormalFormFixed(r);
    TransportSettled(d0, r, cib, peers);
    CryptoSettled(r);
    RrpIdempotent(d2, cib);
    MigrateSettled(r, cib, peers);
  }
}
