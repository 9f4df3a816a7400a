/** The corosync 2 to corosync 3 migration of crmsh (`crmsh/migration.py`):
    a chain of rewrites of the configuration tree. Each `migrate_*` step
    changes the caller's tree in place; here each step is a function from the
    tree before to the tree after (or the error that stops the migration),
    and a method with the source's loops is proved to compute it.

    The CIB roster and the peers' configuration trees, which the source reads
    from the CIB file and copies over from the other nodes, are parameters. */
module Migration {
  import opened Tree
  import opened Text
  import opened ConfParser

  /** A node of the CIB: `Cib.Node(node_id, uname)`. */
  datatype CibNode = CibNode(nodeId: nat, uname: string)

  /** Why a migration stops. `Malformed` stands for every Python exception the
      source does not raise on purpose (KeyError, TypeError, IndexError,
      AttributeError, the ValueError of `int()`). */
  datatype MigrationError =
    | NoTotem                     // assert 'totem' in config
    | NodelistExists              // assert 'nodelist' not in dom
    | NoPeerConfig(uname: string) // assert node.uname in node_configs
    | NoNodeid                    // assert all('nodeid' in node for node in nodes)
    | NoCibNode(nodeid: nat)      // cib_nodes[node_id] raises KeyError
    | Malformed

  // ---------------------------------------------------------------------
  // Python's view of a tree value

  /** What `for x in v` visits: the items of a list, the keys of a section,
      the characters of a string. */
  function Elements(v: Value): seq<Value> {
    match v
    case List(l) => l
    case Dict(e) => seq(|e|, i requires 0 <= i < |e| => Str(e[i].0))
    case Str(s) => seq(|s|, i requires 0 <= i < |s| => Str([s[i]]))
  }

  /** `k in s` on strings: k occurs in s as a substring. */
  predicate Occurs(k: string, s: string)
    decreases |s|
  {
    if |k| > |s| then false
    else s[..|k|] == k || (|s| > 0 && Occurs(k, s[1..]))
  }

  /** `k in v`: a key of a section, a substring of a string, an item of a list. */
  predicate ContainsKey(v: Value, k: string) {
    match v
    case Dict(e) => Has(e, k)
    case Str(s) => Occurs(k, s)
    case List(l) => Str(k) in l
  }

  predicate AllContain(nodes: seq<Value>, k: string) {
    forall i :: 0 <= i < |nodes| ==> ContainsKey(nodes[i], k)
  }

  /** Steps run one after the other until one fails: all their values, or
      the first error. */
  function Collect<T>(rs: seq<Result<T, MigrationError>>): Result<seq<T>, MigrationError>
    decreases |rs|
  {
    if |rs| == 0 then Ok([])
    else
      var init :- Collect(rs[..|rs| - 1]);
      var x :- rs[|rs| - 1];
      Ok(init + [x])
  }

  /** A failing prefix decides the outcome of the whole run. */
  lemma {:induction false} CollectStops<T>(rs: seq<Result<T, MigrationError>>, i: nat)
    requires i <= |rs| && Collect(rs[..i]).Err?
    ensures Collect(rs) == Collect(rs[..i])
  {
    if i == |rs| {
      assert rs[..i] == rs;
    } else {
      assert rs[..|rs| - 1][..i] == rs[..i];
      CollectStops(rs[..|rs| - 1], i);
    }
  }

  /** The results of `step` on each element, in order. */
  function Steps<A, T>(xs: seq<A>, step: A -> Result<T, MigrationError>): seq<Result<T, MigrationError>> {
    seq(|xs|, j requires 0 <= j < |xs| => step(xs[j]))
  }

  /** `for x in xs: out.append(<step on x>)`, where a step may raise. */
  method RunSteps<A, T>(xs: seq<A>, step: A -> Result<T, MigrationError>) returns (r: Result<seq<T>, MigrationError>)
    ensures r == Collect(Steps(xs, step))
  {
    ghost var rs := Steps(xs, step);
    var out: seq<T> := [];
    for i := 0 to |xs|
      invariant Collect(rs[..i]) == Ok(out)
    {
      assert rs[..i + 1][..i] == rs[..i];
      var e := step(xs[i]);
      if e.Err? {
        CollectStops(rs, i + 1);
        return Err(e.error);
      }
      out := out + [e.value];
    }
    assert rs[..|xs|] == rs;
    r := Ok(out);
  }

  // ---------------------------------------------------------------------
  // The interface rewrite shared by migrate_udpu and migrate_multicast

  /** One interface section with the udp-only keys popped and `ringnumber`
      moved to `linknumber`. */
  function RewriteInterface(x: Entries): Entries {
    var y := Delete(Delete(Delete(Delete(x, "mcastaddr"), "bindnetaddr"), "broadcast"), "ttl");
    match Lookup(y, "ringnumber")
    case Some(n) => Put(Delete(y, "ringnumber"), "linknumber", n)
    case None => y
  }

  predicate AllSections(xs: seq<Value>) {
    forall i :: 0 <= i < |xs| ==> xs[i].Dict?
  }

  function RewriteAll(xs: seq<Value>): seq<Value>
    requires AllSections(xs)
  {
    seq(|xs|, i requires 0 <= i < |xs| => Dict(RewriteInterface(xs[i].entries)))
  }

  /** The loop `for interface in v: interface.pop(...)`: every element must be
      a section (`pop` on a string raises), and a list is rewritten item by
      item. An empty section or string leaves the loop with nothing to do. */
  function RewriteInterfaces(v: Value): Result<Value, MigrationError> {
    if !AllSections(Elements(v)) then Err(Malformed)
    else if v.List? then Ok(List(RewriteAll(v.items)))
    else Ok(v)
  }

  method RewriteInterfacesOf(v: Value) returns (r: Result<Value, MigrationError>)
    ensures r == RewriteInterfaces(v)
  {
    var out := EditEach(Elements(v), RewriteInterface);
    if out.Err? {
      return Err(out.error);
    }
    if v.List? {
      assert out.value == RewriteAll(v.items);
      r := Ok(List(out.value));
    } else {
      r := Ok(v);
    }
  }

  /** `for x in xs: <edit x in place>`: every element must be a section. */
  method EditEach(xs: seq<Value>, edit: Entries -> Entries) returns (r: Result<seq<Value>, MigrationError>)
    ensures AllSections(xs) ==>
      r.Ok? && |r.value| == |xs| && forall j :: 0 <= j < |xs| ==> r.value[j] == Dict(edit(xs[j].entries))
    ensures !AllSections(xs) ==> r == Err(Malformed)
  {
    var out: seq<Value> := [];
    for i := 0 to |xs|
      invariant |out| == i
      invariant forall j :: 0 <= j < i ==> xs[j].Dict? && out[j] == Dict(edit(xs[j].entries))
    {
      match xs[i]
      case Dict(x) =>
        out := out + [Dict(edit(x))];
      case _ =>
        return Err(Malformed);
    }
    r := Ok(out);
  }

  /** `totem.interface` rewritten; `required` says whether a missing key is a
      KeyError (migrate_multicast) or skipped (migrate_udpu). */
  function RewriteTotemInterfaces(t: Entries, required: bool): Result<Entries, MigrationError> {
    match Lookup(t, "interface")
    case None => if required then Err(Malformed) else Ok(t)
    case Some(v) =>
      var v' :- RewriteInterfaces(v);
      Ok(Put(t, "interface", v'))
  }

  method RewriteTotemInterfacesOf(t: Entries, required: bool) returns (r: Result<Entries, MigrationError>)
    ensures r == RewriteTotemInterfaces(t, required)
  {
    if !Has(t, "interface") {
      return if required then Err(Malformed) else Ok(t);
    }
    var v := RewriteInterfacesOf(Lookup(t, "interface").value);
    if v.Err? {
      return Err(v.error);
    }
    r := Ok(Put(t, "interface", v.value));
  }

  /** `transport = knet` and `knet_compression_model = none`. */
  function ToKnet(t: Entries): Entries {
    Put(Put(t, "transport", Str("knet")), "knet_compression_model", Str("none"))
  }

  /** `if 'quorum' in dom: dom['quorum'].pop('expected_votes', None)`. */
  function DropExpectedVotes(dom: Entries): Result<Entries, MigrationError> {
    match Lookup(dom, "quorum")
    case None => Ok(dom)
    case Some(Dict(q)) => Ok(Put(dom, "quorum", Dict(Delete(q, "expected_votes"))))
    case Some(_) => Err(Malformed)
  }

  // ---------------------------------------------------------------------
  // migrate_udpu

  function UdpuSpec(dom: Entries): Result<Entries, MigrationError> {
    match Lookup(dom, "totem")
    case Some(Dict(t)) =>
      var t2 :- RewriteTotemInterfaces(ToKnet(t), false);
      DropExpectedVotes(Put(dom, "totem", Dict(t2)))
    case _ => Err(Malformed)
  }

  method MigrateUdpu(dom: Entries) returns (r: Result<Entries, MigrationError>)
    ensures r == UdpuSpec(dom)
  {
    if !(Lookup(dom, "totem").Some? && Lookup(dom, "totem").value.Dict?) {
      return Err(Malformed);
    }
    var t := RewriteTotemInterfacesOf(ToKnet(Lookup(dom, "totem").value.entries), false);
    if t.Err? {
      return Err(t.error);
    }
    r := DropExpectedVotes(Put(dom, "totem", Dict(t.value)));
  }

  // ---------------------------------------------------------------------
  // migrate_multicast

  predicate HasBindAddr(x: Value) {
    x.Dict? && Has(x.entries, "bindnetaddr")
  }

  /** `{f'ring{i}_addr': x['bindnetaddr'] for i, x in enumerate(interfaces)}`
      of a peer's normalised tree. */
  function PeerAddresses(root: Entries): Result<Entries, MigrationError> {
    match Lookup(root, "totem")
    case Some(Dict(t)) =>
      (match Lookup(t, "interface")
       case Some(v) =>
         var xs := Elements(v);
         if forall i :: 0 <= i < |xs| ==> HasBindAddr(xs[i]) then
           Ok(seq(|xs|, i requires 0 <= i < |xs| => (RingKey(i), Lookup(xs[i].entries, "bindnetaddr").value)))
         else Err(Malformed)
       case None => Err(Malformed))
    case _ => Err(Malformed)
  }

  /** The node section built for one CIB node: `nodeid`, `name` and the
      peer's bind addresses as `ring{i}_addr`. */
  function NodeEntry(n: CibNode, peers: map<string, Entries>): Result<Value, MigrationError> {
    if n.uname !in peers then Err(NoPeerConfig(n.uname))
    else
      var addrs :- PeerAddresses(Normalized(peers[n.uname]));
      Ok(Dict([("nodeid", Str(NatToString(n.nodeId))), ("name", Str(n.uname))] + addrs))
  }

  function NodeEntries(cib: seq<CibNode>, peers: map<string, Entries>): seq<Result<Value, MigrationError>> {
    seq(|cib|, j requires 0 <= j < |cib| => NodeEntry(cib[j], peers))
  }

  /** The node list for the CIB nodes in order; the first failing node stops it. */
  function NodelistSpec(cib: seq<CibNode>, peers: map<string, Entries>): Result<seq<Value>, MigrationError> {
    Collect(NodeEntries(cib, peers))
  }

  method BuildNodelist(cib: seq<CibNode>, peers: map<string, Entries>) returns (r: Result<seq<Value>, MigrationError>)
    ensures r == NodelistSpec(cib, peers)
  {
    r := RunSteps(cib, n => NodeEntry(n, peers));
    assert Steps(cib, n => NodeEntry(n, peers)) == NodeEntries(cib, peers);
  }

  function MulticastSpec(dom: Entries, cib: seq<CibNode>, peers: map<string, Entries>): Result<Entries, MigrationError> {
    match Lookup(dom, "totem")
    case Some(Dict(t)) =>
      var t2 :- RewriteTotemInterfaces(ToKnet(t), true);
      if Has(dom, "nodelist") then Err(NodelistExists)
      else
        var nodes :- NodelistSpec(cib, peers);
        WithNodelist(Put(dom, "totem", Dict(t2)), nodes)
    case _ => Err(Malformed)
  }

  /** `dom['nodelist'] = {'node': nodelist}`, then `quorum.expected_votes` dropped. */
  function WithNodelist(dom: Entries, nodes: seq<Value>): Result<Entries, MigrationError> {
    DropExpectedVotes(Put(dom, "nodelist", Dict([("node", List(nodes))])))
  }

  method MigrateMulticast(dom: Entries, cib: seq<CibNode>, peers: map<string, Entries>) returns (r: Result<Entries, MigrationError>)
    ensures r == MulticastSpec(dom, cib, peers)
  {
    if !(Lookup(dom, "totem").Some? && Lookup(dom, "totem").value.Dict?) {
      return Err(Malformed);
    }
    var t := RewriteTotemInterfacesOf(ToKnet(Lookup(dom, "totem").value.entries), true);
    if t.Err? {
      return Err(t.error);
    }
    var d := Put(dom, "totem", Dict(t.value));
    if Has(dom, "nodelist") {
      return Err(NodelistExists);
    }
    var nodes := BuildNodelist(cib, peers);
    if nodes.Err? {
      return Err(nodes.error);
    }
    r := WithNodelist(d, nodes.value);
  }

  // ---------------------------------------------------------------------
  // migrate_transport

  /** `dom['totem']['interface'][0]['bindnetaddr']` raises something other than
      the KeyError it catches. */
  predicate ProbeCrashes(t: Entries) {
    match Lookup(t, "interface")
    case None => false
    case Some(List(xs)) => |xs| == 0 || !xs[0].Dict?
    case Some(Dict(_)) => false     // no key 0 in a section: KeyError
    case Some(Str(_)) => true       // IndexError, or a character indexed by a string
  }

  function TransportSpec(dom: Entries, cib: seq<CibNode>, peers: map<string, Entries>): Result<Entries, MigrationError> {
    match Lookup(dom, "totem")
    case Some(Dict(t)) =>
      var tr := Lookup(t, "transport");
      if tr == Some(Str("knet")) then Ok(dom)
      else if tr == Some(Str("udpu")) then UdpuSpec(dom)
      else if tr == Some(Str("udp")) then MulticastSpec(dom, cib, peers)
      else if ProbeCrashes(t) then Err(Malformed)
      else if Has(dom, "nodelist") then Ok(dom)
      else MulticastSpec(dom, cib, peers)
    case _ => Err(Malformed)
  }

  method MigrateTransport(dom: Entries, cib: seq<CibNode>, peers: map<string, Entries>) returns (r: Result<Entries, MigrationError>)
    ensures r == TransportSpec(dom, cib, peers)
  {
    if !(Lookup(dom, "totem").Some? && Lookup(dom, "totem").value.Dict?) {
      return Err(Malformed);
    }
    var t := Lookup(dom, "totem").value.entries;
    var tr := Lookup(t, "transport");
    if tr == Some(Str("knet")) {
      r := Ok(dom);
    } else if tr == Some(Str("udpu")) {
      r := MigrateUdpu(dom);
    } else if tr == Some(Str("udp")) {
      r := MigrateMulticast(dom, cib, peers);
    } else if ProbeCrashes(t) {
      r := Err(Malformed);
    } else if Has(dom, "nodelist") {
      r := Ok(dom);
    } else {
      r := MigrateMulticast(dom, cib, peers);
    }
  }

  // ---------------------------------------------------------------------
  // migrate_crypto

  function CryptoSpec(dom: Entries): (r: Result<Entries, MigrationError>)
    ensures r.Err? <==> !(Lookup(dom, "totem").Some? && Lookup(dom, "totem").value.Dict?)
    ensures r.Ok? && Lookup(Lookup(dom, "totem").value.entries, "crypto_hash") != Some(Str("sha1")) ==> r.value == dom
  {
    match Lookup(dom, "totem")
    case Some(Dict(t)) =>
      if Lookup(t, "crypto_hash") == Some(Str("sha1")) then
        Ok(Put(dom, "totem", Dict(Put(t, "crypto_hash", Str("sha256")))))
      else Ok(dom)
    case _ => Err(Malformed)
  }

  // ---------------------------------------------------------------------
  // migrate_rrp and populate_node_name

  predicate IsRrp(nodes: seq<Value>) {
    exists i :: 0 <= i < |nodes| && ContainsKey(nodes[i], "ring1_addr")
  }

  /** `rrp_mode = dom['totem']['rrp_mode']; del ...; if rrp_mode == 'active':
      dom['totem']['link_mode'] = 'active'`, with KeyError passed over. */
  function RrpModeStep(dom: Entries): Result<Entries, MigrationError> {
    match Lookup(dom, "totem")
    case None => Ok(dom)
    case Some(Dict(t)) =>
      (match Lookup(t, "rrp_mode")
       case None => Ok(dom)
       case Some(m) =>
         var t1 := Delete(t, "rrp_mode");
         Ok(Put(dom, "totem", Dict(if m == Str("active") then Put(t1, "link_mode", Str("active")) else t1))))
    case Some(_) => Err(Malformed)
  }

  /** `cib_nodes[node_id].uname`, where `cib_nodes` maps each id to its node:
      the last CIB node with that id wins. */
  function CibName(cib: seq<CibNode>, id: nat): Option<string>
    decreases |cib|
  {
    if |cib| == 0 then None
    else if cib[|cib| - 1].nodeId == id then Some(cib[|cib| - 1].uname)
    else CibName(cib[..|cib| - 1], id)
  }

  /** `int(node['nodeid'])`, for a non-negative decimal id. */
  function IntNodeid(node: Value): (r: Result<nat, MigrationError>)
    ensures r.Ok? ==> node.Dict?
  {
    match node
    case Dict(e) =>
      (match Lookup(e, "nodeid")
       case Some(Str(s)) =>
         (match ParseNat(s)
          case Some(n) => Ok(n)
          case None => Err(Malformed))
       case _ => Err(Malformed))
    case _ => Err(Malformed)
  }

  /** `node['name'] = cib_nodes[int(node['nodeid'])].uname`. */
  function NamedNode(node: Value, cib: seq<CibNode>): Result<Value, MigrationError> {
    var id :- IntNodeid(node);
    match CibName(cib, id)
    case None => Err(NoCibNode(id))
    case Some(u) => Ok(Dict(Put(node.entries, "name", Str(u))))
  }

  function NamedNodes(nodes: seq<Value>, cib: seq<CibNode>): seq<Result<Value, MigrationError>> {
    seq(|nodes|, j requires 0 <= j < |nodes| => NamedNode(nodes[j], cib))
  }

  /** `populate_node_name` over the nodes in order; the first failing node stops it. */
  function PopulateSpec(nodes: seq<Value>, cib: seq<CibNode>): Result<seq<Value>, MigrationError> {
    Collect(NamedNodes(nodes, cib))
  }

  method PopulateNodeName(nodes: seq<Value>, cib: seq<CibNode>) returns (r: Result<seq<Value>, MigrationError>)
    ensures r == PopulateSpec(nodes, cib)
  {
    r := RunSteps(nodes, n => NamedNode(n, cib));
    assert Steps(nodes, n => NamedNode(n, cib)) == NamedNodes(nodes, cib);
  }


  /** The rrp migration once `nodelist.node` has been found. */
  function RrpNodes(dom: Entries, nl: Entries, nodes: seq<Value>, cib: seq<CibNode>): Result<Entries, MigrationError> {
    if !IsRrp(nodes) then Ok(dom)
    else
      var d1 :- RrpModeStep(dom);
      if !AllContain(nodes, "nodeid") then Err(NoNodeid)
      else if AllContain(nodes, "name") then Ok(d1)
      else
        var named :- PopulateSpec(nodes, cib);
        Ok(Put(d1, "nodelist", Dict(Put(nl, "node", List(named)))))
  }

  function RrpSpec(dom: Entries, cib: seq<CibNode>): Result<Entries, MigrationError> {
    match Lookup(dom, "nodelist")
    case None => Ok(dom)
    case Some(Dict(nl)) =>
      (match Lookup(nl, "node")
       case None => Ok(dom)
       case Some(nv) => RrpNodes(dom, nl, Elements(nv), cib))
    case Some(_) => Err(Malformed)
  }

  method MigrateRrp(dom: Entries, cib: seq<CibNode>) returns (r: Result<Entries, MigrationError>)
    ensures r == RrpSpec(dom, cib)
  {
    var nlv := Lookup(dom, "nodelist");
    if nlv.None? {
      return Ok(dom);
    }
    if !nlv.value.Dict? {
      return Err(Malformed);
    }
    var nl := nlv.value.entries;
    if !Has(nl, "node") {
      return Ok(dom);
    }
    var nodes := Elements(Lookup(nl, "node").value);
    if !IsRrp(nodes) {
      return Ok(dom);
    }
    var d1 := RrpModeStep(dom);
    if d1.Err? {
      return Err(Malformed);
    }
    if !AllContain(nodes, "nodeid") {
      return Err(NoNodeid);
    }
    if AllContain(nodes, "name") {
      return Ok(d1.value);
    }
    var named := PopulateNodeName(nodes, cib);
    if named.Err? {
      return Err(named.error);
    }
    r := Ok(Put(d1.value, "nodelist", Dict(Put(nl, "node", List(named.value)))));
  }

  // ---------------------------------------------------------------------
  // migrate_corosync_conf_impl

  function MigrateSpec(config: Entries, cib: seq<CibNode>, peers: map<string, Entries>): Result<Entries, MigrationError> {
    if !Has(config, "totem") then Err(NoTotem)
    else
      var d1 :- TransportSpec(Normalized(config), cib, peers);
      var d2 :- CryptoSpec(d1);
      RrpSpec(d2, cib)
  }

  method MigrateCorosyncConfImpl(config: Entries, cib: seq<CibNode>, peers: map<string, Entries>) returns (r: Result<Entries, MigrationError>)
    ensures r == MigrateSpec(config, cib, peers)
  {
    if !Has(config, "totem") {
      return Err(NoTotem);
    }
    var d0 := TransformDomWithListSchema(config);
    var d1 := MigrateTransport(d0, cib, peers);
    if d1.Err? {
      return Err(d1.error);
    }
    var d2 := CryptoSpec(d1.value);
    if d2.Err? {
      return Err(d2.error);
    }
    r := MigrateRrp(d2.value, cib);
  }
}
