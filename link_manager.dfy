/** The knet link topology of corosync.conf. Link i exists when the first node
    of `nodelist.node` has a `ring{i}_addr` key; every node then carries its
    address on that link under the same key, and `totem.interface` holds one
    record of options per link, keyed by `linknumber`. A `LinkManager` reads
    the eight link slots out of the tree and rewrites the tree when a link's
    options or addresses change, or when a link is added or removed. */
module LinkManager {
  import opened Tree
  import opened Text

  /** KNET_LINK_NUM_LIMIT. */
  const KnetLinkNumLimit: nat := 8

  /** LINK_OPTIONS_UPDATABLE, in the declaration order of `Link`'s fields. */
  const LinkOptionsUpdatable: seq<string> :=
    ["mcastport", "knet_link_priority", "knet_ping_interval", "knet_ping_timeout",
     "knet_ping_precision", "knet_pong_count", "knet_transport"]

  datatype LinkNode = LinkNode(nodeid: nat, name: string, addr: string)

  /** A link: its number, its nodes in ascending nodeid order, and the options
      that are set (an option that is None in the source is absent here). */
  datatype Link = Link(linknumber: nat, nodes: seq<LinkNode>, options: map<string, string>)

  /** The exceptions of the link manager. `Malformed` stands for every failed
      assertion, KeyError, TypeError or ValueError that a tree not shaped like a
      knet corosync.conf provokes; the other cases are the ones raised on purpose. */
  datatype LinkError =
    | LinkDoesNotExist(linknumber: nat)
    | UnknownOptionNodes
    | UnsupportedOption(option: string)
    | UnknownNodeid(nodeid: int)
    | DuplicatedNodeAddress(address: string, node1: int, node2: nat)
    | MissingNodes(nodeids: seq<nat>)
    | TooManyLinks
    | LastLink
    | Malformed

  /** The `options` argument: option name to a new value, or None to reset it. */
  type Options = seq<(string, Option<string>)>

  /** The `node_addresses` argument: nodeid to address. */
  type Addresses = seq<(int, string)>

  /** The string stored under `k` in a section, if there is one. */
  function EntryStr(e: Entries, k: string): (r: Option<string>)
    ensures r.Some? <==> Lookup(e, k).Some? && Lookup(e, k).value.Str?
    ensures r.Some? ==> Lookup(e, k) == Some(Str(r.value))
  {
    match Lookup(e, k)
    case Some(Str(s)) => Some(s)
    case _ => None
  }

  /** The string stored under `k` in a value that is a section. */
  function StrAt(v: Value, k: string): (r: Option<string>)
    ensures r.Some? ==> v.Dict? && EntryStr(v.entries, k) == r
  {
    if v.Dict? then EntryStr(v.entries, k) else None
  }

  /** `int(node['nodeid'])`. */
  function NodeIdOf(v: Value): (r: Option<nat>)
    ensures r.Some? ==> StrAt(v, "nodeid").Some? && ParseNat(StrAt(v, "nodeid").value) == r
  {
    match StrAt(v, "nodeid")
    case None => None
    case Some(s) => ParseNat(s)
  }

  /** `totem_transport()`: `totem.transport`, or "knet" when either key is absent. */
  function TotemTransport(config: Entries): (r: Result<Value, LinkError>)
    ensures Lookup(config, "totem").None? ==> r == Ok(Str("knet"))
    ensures r.Ok? && r.value != Str("knet") ==>
      Lookup(config, "totem").Some? && Lookup(config, "totem").value.Dict? &&
      Lookup(Lookup(config, "totem").value.entries, "transport") == Some(r.value)
  {
    match Lookup(config, "totem")
    case None => Ok(Str("knet"))
    case Some(Dict(t)) =>
      (match Lookup(t, "transport")
       case None => Ok(Str("knet"))
       case Some(v) => Ok(v))
    case Some(_) => Err(Malformed)
  }

  /** `config['nodelist']['node']` as a list, None when either key is absent. */
  function NodeList(config: Entries): (r: Result<Option<seq<Value>>, LinkError>)
    ensures r == Ok(None) <==>
      Lookup(config, "nodelist").None? ||
      (Lookup(config, "nodelist").value.Dict? && Lookup(Lookup(config, "nodelist").value.entries, "node").None?)
  {
    match Lookup(config, "nodelist")
    case None => Ok(None)
    case Some(Dict(nl)) =>
      (match Lookup(nl, "node")
       case None => Ok(None)
       case Some(List(items)) => Ok(Some(items))
       case Some(_) => Err(Malformed))
    case Some(_) => Err(Malformed)
  }

  /** Every node has a numeric nodeid and a name, and there is at least one node. */
  predicate RosterOk(items: seq<Value>) {
    |items| > 0 && forall j :: 0 <= j < |items| ==> NodeIdOf(items[j]).Some? && StrAt(items[j], "name").Some?
  }

  /** Link i exists: the first node has `ring{i}_addr`. */
  predicate Present(items: seq<Value>, i: nat)
    requires |items| > 0
  {
    items[0].Dict? && Has(items[0].entries, RingKey(i))
  }

  /** Every node carries an address on every link that exists. */
  predicate RingsComplete(items: seq<Value>)
    requires |items| > 0
  {
    forall i, j :: 0 <= i < KnetLinkNumLimit && 0 <= j < |items| && Present(items, i) ==>
      StrAt(items[j], RingKey(i)).Some?
  }

  /** The nodes of link i, in `nodelist` order. */
  function SlotNodes(items: seq<Value>, i: nat): (r: seq<LinkNode>)
    requires RosterOk(items) && RingsComplete(items) && i < KnetLinkNumLimit && Present(items, i)
    ensures |r| == |items|
    ensures forall j :: 0 <= j < |items| ==>
      r[j] == LinkNode(NodeIdOf(items[j]).value, StrAt(items[j], "name").value, StrAt(items[j], RingKey(i)).value)
  {
    seq(|items|, j requires 0 <= j < |items| =>
      LinkNode(NodeIdOf(items[j]).value, StrAt(items[j], "name").value, StrAt(items[j], RingKey(i)).value))
  }

  predicate SortedByNodeid(s: seq<LinkNode>) {
    forall a, b :: 0 <= a < b < |s| ==> s[a].nodeid <= s[b].nodeid
  }

  function InsertByNodeid(x: LinkNode, s: seq<LinkNode>): (r: seq<LinkNode>)
    ensures multiset(r) == multiset(s) + multiset{x}
    ensures |r| == |s| + 1
  {
    if |s| == 0 then [x]
    else if x.nodeid <= s[0].nodeid then [x] + s
    else
      assert s == [s[0]] + s[1..];
      [s[0]] + InsertByNodeid(x, s[1..])
  }

  /** Inserting into a sorted sequence keeps it sorted. */
  lemma {:induction false} InsertSorted(x: LinkNode, s: seq<LinkNode>)
    requires SortedByNodeid(s)
    ensures SortedByNodeid(InsertByNodeid(x, s))
  {
    if |s| > 0 && x.nodeid > s[0].nodeid {
      var t := InsertByNodeid(x, s[1..]);
      InsertSorted(x, s[1..]);
      forall b | 0 <= b < |t|
        ensures s[0].nodeid <= t[b].nodeid
      {
        assert t[b] in multiset(t);
        assert t[b] in multiset(s[1..]) + multiset{x};
        if t[b] != x {
          assert t[b] in s[1..];
        }
      }
    }
  }

  /** `nodes.sort(key=lambda node: node.nodeid)`: a stable sort by nodeid. */
  function SortByNodeid(s: seq<LinkNode>): (r: seq<LinkNode>)
    ensures SortedByNodeid(r)
    ensures multiset(r) == multiset(s)
    ensures |r| == |s|
  {
    if |s| == 0 then []
    else
      assert s == [s[0]] + s[1..];
      InsertSorted(s[0], SortByNodeid(s[1..]));
      InsertByNodeid(s[0], SortByNodeid(s[1..]))
  }

  /** `Link().load_options(x).linknumber`: -1 when the record has no linknumber,
      None where `int()` fails. */
  function InterfaceLinknumber(x: Entries): (r: Option<int>)
    ensures Lookup(x, "linknumber").None? ==> r == Some(-1)
  {
    match Lookup(x, "linknumber")
    case None => Some(-1)
    case Some(Str(s)) =>
      (match ParseNat(s)
       case Some(n) => Some(n as int)
       case None => None)
    case Some(_) => None
  }

  /** The records of `totem.interface` (none when either key is absent); Err
      when the list is not a list of sections. */
  function InterfacesOf(config: Entries): (r: Result<seq<Entries>, LinkError>)
    ensures Lookup(config, "totem").None? ==> r == Ok([])
  {
    match Lookup(config, "totem")
    case None => Ok([])
    case Some(Dict(t)) =>
      (match Lookup(t, "interface")
       case None => Ok([])
       case Some(List(xs)) =>
         if forall j :: 0 <= j < |xs| ==> xs[j].Dict? then Ok(seq(|xs|, j requires 0 <= j < |xs| => xs[j].entries))
         else Err(Malformed)
       case Some(_) => Err(Malformed))
    case Some(_) => Err(Malformed)
  }

  predicate InterfacesOk(xs: seq<Entries>) {
    forall j :: 0 <= j < |xs| ==> InterfaceLinknumber(xs[j]).Some?
  }

  /** The options a record sets: the updatable keys holding a string. */
  function OptionsOf(x: Entries): (r: map<string, string>)
    ensures forall k :: k in r <==> k in LinkOptionsUpdatable && EntryStr(x, k).Some?
    ensures forall k :: k in r ==> EntryStr(x, k) == Some(r[k])
  {
    map k | k in LinkOptionsUpdatable && EntryStr(x, k).Some? :: EntryStr(x, k).value
  }

  /** The options of link i: those of the LAST record numbered i, as the
      dictionary comprehension keeps the last one; none without such a record. */
  function OptionsFor(xs: seq<Entries>, i: nat): map<string, string>
    requires InterfacesOk(xs)
  {
    if |xs| == 0 then map[]
    else if InterfaceLinknumber(xs[|xs| - 1]) == Some(i) then OptionsOf(xs[|xs| - 1])
    else OptionsFor(xs[..|xs| - 1], i)
  }

  /** Slot i of `links()` before the options are loaded. */
  function BareSlot(items: seq<Value>, i: nat): Option<Link>
    requires RosterOk(items) && RingsComplete(items) && i < KnetLinkNumLimit
  {
    if Present(items, i) then Some(Link(i, SortByNodeid(SlotNodes(items, i)), map[])) else None
  }

  /** Slot i of `links()`. */
  function Slot(items: seq<Value>, xs: seq<Entries>, i: nat): Option<Link>
    requires RosterOk(items) && RingsComplete(items) && InterfacesOk(xs) && i < KnetLinkNumLimit
  {
    if Present(items, i) then Some(Link(i, SortByNodeid(SlotNodes(items, i)), OptionsFor(xs, i))) else None
  }

  /** What `links()` reads, once its assertions hold: None without a node
      list, otherwise the nodes and the interface records. */
  function LinksSource(config: Entries): (r: Result<Option<(seq<Value>, seq<Entries>)>, LinkError>)
    ensures r.Ok? && r.value.Some? ==>
      RosterOk(r.value.value.0) && RingsComplete(r.value.value.0) && InterfacesOk(r.value.value.1)
  {
    var transport :- TotemTransport(config);
    if transport != Str("knet") then Err(Malformed)
    else
      var nodelist :- NodeList(config);
      match nodelist
      case None => Ok(None)
      case Some(items) =>
        if !RosterOk(items) || !RingsComplete(items) then Err(Malformed)
        else
          var xs :- InterfacesOf(config);
          if !InterfacesOk(xs) then Err(Malformed) else Ok(Some((items, xs)))
  }

  /** The slots `ls` read from the nodes `items`: slot i holds a link exactly
      when the first node has `ring{i}_addr`, and that link is numbered i and
      lists every node, sorted by nodeid. */
  predicate SlotsDescribe(ls: seq<Option<Link>>, items: seq<Value>)
    requires RosterOk(items) && RingsComplete(items)
  {
    |ls| == KnetLinkNumLimit && forall i :: 0 <= i < KnetLinkNumLimit ==>
      (ls[i].Some? <==> Present(items, i)) &&
      (ls[i].Some? ==>
        ls[i].value.linknumber == i && SortedByNodeid(ls[i].value.nodes) &&
        multiset(ls[i].value.nodes) == multiset(SlotNodes(items, i)))
  }

  /** `links()`: no slots without a node list, otherwise eight. */
  function LinksSpec(config: Entries): (r: Result<seq<Option<Link>>, LinkError>)
    ensures r.Ok? ==> |r.value| == 0 || |r.value| == KnetLinkNumLimit
  {
    var src :- LinksSource(config);
    match src
    case None => Ok([])
    case Some(p) => Ok(SlotsOf(p.0, p.1))
  }

  function SlotsOf(items: seq<Value>, xs: seq<Entries>): (r: seq<Option<Link>>)
    requires RosterOk(items) && RingsComplete(items) && InterfacesOk(xs)
    ensures |r| == KnetLinkNumLimit && forall i :: 0 <= i < KnetLinkNumLimit ==> r[i] == Slot(items, xs, i)
  {
    seq(KnetLinkNumLimit, i requires 0 <= i < KnetLinkNumLimit => Slot(items, xs, i))
  }

  /** The first record numbered `lnStr` (`x.get('linknumber', -1) == linknumber_str`). */
  function FindInterface(xs: seq<Entries>, lnStr: string): (r: Option<nat>)
    ensures r.Some? ==> r.value < |xs| && Lookup(xs[r.value], "linknumber") == Some(Str(lnStr))
    ensures r.Some? ==> forall j :: 0 <= j < r.value ==> Lookup(xs[j], "linknumber") != Some(Str(lnStr))
    ensures r.None? ==> forall j :: 0 <= j < |xs| ==> Lookup(xs[j], "linknumber") != Some(Str(lnStr))
  {
    if |xs| == 0 then None
    else if Lookup(xs[0], "linknumber") == Some(Str(lnStr)) then Some(0)
    else
      match FindInterface(xs[1..], lnStr)
      case None => None
      case Some(j) => Some(j + 1)
  }

  /** Whether the options argument names `k`. */
  predicate Names(options: Options, k: string) {
    Find(options, k).Some?
  }

  /** The first option, in argument order, that is not updatable. */
  function FirstUnsupported(options: Options): (r: Option<string>)
    ensures r.Some? ==> r.value !in LinkOptionsUpdatable && Names(options, r.value)
    ensures r.None? <==> forall j :: 0 <= j < |options| ==> options[j].0 in LinkOptionsUpdatable
  {
    if |options| == 0 then None
    else if options[0].0 !in LinkOptionsUpdatable then Some(options[0].0)
    else FirstUnsupported(options[1..])
  }

  /** The value option `k` has once `load_options(options)` has run on a link
      whose options are `current`. */
  function MergedValue(current: map<string, string>, options: Options, k: string): Option<string> {
    match Find(options, k)
    case None => if k in current then Some(current[k]) else None
    case Some(v) => v
  }

  /** The link's options after `links[linknumber].load_options(options)`. */
  function MergeOptions(current: map<string, string>, options: Options): (r: map<string, string>)
    ensures forall k :: k in r ==> k in LinkOptionsUpdatable
    ensures forall k :: k in LinkOptionsUpdatable ==>
      (k in r <==> MergedValue(current, options, k).Some?) &&
      (k in r ==> MergedValue(current, options, k) == Some(r[k]))
  {
    map k | k in LinkOptionsUpdatable && MergedValue(current, options, k).Some? :: MergedValue(current, options, k).value
  }

  /** One field of the loop over `asdict(link)`: write the option, or pop it when unset. */
  function ApplyField(x: Entries, merged: map<string, string>, k: string): Entries {
    if k in merged then Put(x, k, Str(merged[k])) else Delete(x, k)
  }

  /** The loop over the fields `fields`, in order. */
  function ApplyFields(x: Entries, merged: map<string, string>, fields: seq<string>): (r: Entries)
    ensures forall k :: k in fields ==> Lookup(r, k) == (if k in merged then Some(Str(merged[k])) else None)
    ensures forall k :: k !in fields ==> Lookup(r, k) == Lookup(x, k)
  {
    if |fields| == 0 then x
    else
      var fs := fields[..|fields| - 1];
      assert forall k :: k in fields <==> k in fs || k == fields[|fields| - 1];
      ApplyField(ApplyFields(x, merged, fs), merged, fields[|fields| - 1])
  }

  function Dicts(xs: seq<Entries>): (r: seq<Value>)
    ensures |r| == |xs| && forall j :: 0 <= j < |xs| ==> r[j] == Dict(xs[j])
  {
    seq(|xs|, j requires 0 <= j < |xs| => Dict(xs[j]))
  }

  /** The interface list once the edited record `x` is put back: a record left
      holding only its linknumber is dropped (or never added), any other record
      replaces the one it came from or is appended. */
  function PlaceInterface(xs: seq<Entries>, idx: Option<nat>, x: Entries): seq<Entries>
    requires idx.Some? ==> idx.value < |xs|
  {
    if |Keys(x)| == 1 then
      if idx.Some? then xs[..idx.value] + xs[idx.value + 1..] else xs
    else
      if idx.Some? then xs[idx.value := x] else xs + [x]
  }

  /** Writes the interface list back into `totem`; an emptied list removes the
      key, but only when the key was there. */
  function StoreInterfaces(config: Entries, totem: Entries, xs: seq<Entries>): Entries {
    Put(config, "totem", Dict(InterfacesStored(totem, xs)))
  }

  /** `totem` once the interface list `xs` is written into it. */
  function InterfacesStored(totem: Entries, xs: seq<Entries>): Entries {
    if |xs| == 0 && Has(totem, "interface") then Delete(totem, "interface")
    else Put(totem, "interface", List(Dicts(xs)))
  }

  /** The checks `update_link`, `update_node_addr` and `remove_link` make on the
      link number: the slot must exist. */
  function CheckLink(links: seq<Option<Link>>, linknumber: nat): (r: Option<LinkError>)
    ensures r.None? <==> linknumber < KnetLinkNumLimit && linknumber < |links| && links[linknumber].Some?
  {
    if linknumber >= KnetLinkNumLimit then Some(LinkDoesNotExist(linknumber))
    else if |links| == 0 then Some(Malformed)
    else if linknumber >= |links| || links[linknumber].None? then Some(LinkDoesNotExist(linknumber))
    else None
  }

  /** The checks `update_link` makes on its options. */
  function CheckOptions(options: Options): (r: Option<LinkError>)
    ensures r.None? <==> forall j :: 0 <= j < |options| ==> options[j].0 in LinkOptionsUpdatable
  {
    if Names(options, "nodes") then Some(UnknownOptionNodes)
    else match FirstUnsupported(options)
      case Some(k) => Some(UnsupportedOption(k))
      case None => None
  }

  /** What `update_link` works on once its checks pass: the `totem` section,
      the interface records, the position of the link's record (if any), the
      record to edit and the link's options after they are loaded. */
  datatype InterfaceEdit = InterfaceEdit(totem: Entries, interfaces: seq<Entries>, idx: Option<nat>,
                                         base: Entries, merged: map<string, string>)

  /** The checks of `update_link` on the slots `links` read from `config`. */
  function UpdateLinkPlan(config: Entries, links: seq<Option<Link>>, linknumber: nat, options: Options): (r: Result<InterfaceEdit, LinkError>)
    ensures r.Ok? && r.value.idx.Some? ==> r.value.idx.value < |r.value.interfaces|
  {
    match CheckLink(links, linknumber)
    case Some(e) => Err(e)
    case None =>
      match CheckOptions(options)
      case Some(e) => Err(e)
      case None =>
        var merged := MergeOptions(links[linknumber].value.options, options);
        match Lookup(config, "totem")
        case Some(Dict(totem)) =>
          var xs :- InterfacesOf(config);
          var lnStr := NatToString(linknumber);
          var idx := FindInterface(xs, lnStr);
          var base := if idx.Some? then xs[idx.value] else [("linknumber", Str(lnStr))];
          Ok(InterfaceEdit(totem, xs, idx, base, merged))
        case _ => Err(Malformed)
  }

  /** The tree once the edited record is put back. */
  function ApplyEdit(config: Entries, e: InterfaceEdit): Entries
    requires e.idx.Some? ==> e.idx.value < |e.interfaces|
  {
    StoreInterfaces(config, e.totem, PlaceInterface(e.interfaces, e.idx, ApplyFields(e.base, e.merged, LinkOptionsUpdatable)))
  }

  /** `update_link(linknumber, options)` on `config`: the new tree, or the error. */
  function UpdateLinkSpec(config: Entries, linknumber: nat, options: Options): Result<Entries, LinkError> {
    var links :- LinksSpec(config);
    var e :- UpdateLinkPlan(config, links, linknumber, options);
    Ok(ApplyEdit(config, e))
  }

  /** The nodes of slot `li` of `links` (none for an empty slot). */
  function NodesOf(links: seq<Option<Link>>, li: nat): seq<LinkNode>
    requires li < |links|
  {
    if links[li].Some? then links[li].value.nodes else []
  }

  /** Adds the non-empty addresses of `nodes` to the address map, later nodes
      overriding earlier ones. */
  function AddNodeAddrs(canon: string -> string, m: map<string, nat>, nodes: seq<LinkNode>): (r: map<string, nat>)
    ensures forall c :: c in r <==> c in m || exists j :: 0 <= j < |nodes| && nodes[j].addr != "" && canon(nodes[j].addr) == c
  {
    if |nodes| == 0 then m
    else
      var n := nodes[|nodes| - 1];
      var m' := AddNodeAddrs(canon, m, nodes[..|nodes| - 1]);
      assert forall j :: 0 <= j < |nodes| - 1 ==> nodes[..|nodes| - 1][j] == nodes[j];
      if n.addr == "" then m' else m'[canon(n.addr) := n.nodeid]
  }

  /** `existing_addr_node_map`: canonical address to nodeid, over every node of
      every link whose address is not empty. */
  function AddrMap(canon: string -> string, links: seq<Option<Link>>): (r: map<string, nat>)
    ensures forall c :: c in r <==>
      exists li, j :: 0 <= li < |links| && 0 <= j < |NodesOf(links, li)| &&
        NodesOf(links, li)[j].addr != "" && canon(NodesOf(links, li)[j].addr) == c
  {
    if |links| == 0 then map[]
    else
      var pre := links[..|links| - 1];
      assert forall li :: 0 <= li < |pre| ==> NodesOf(pre, li) == NodesOf(links, li);
      AddNodeAddrs(canon, AddrMap(canon, pre), NodesOf(links, |links| - 1))
  }

  /** The first node with the given nodeid. */
  function FindNode(nodes: seq<LinkNode>, nodeid: int): (r: Option<nat>)
    ensures r.Some? ==> r.value < |nodes| && nodes[r.value].nodeid == nodeid
    ensures r.Some? ==> forall j :: 0 <= j < r.value ==> nodes[j].nodeid != nodeid
    ensures r.None? ==> forall j :: 0 <= j < |nodes| ==> nodes[j].nodeid != nodeid
  {
    if |nodes| == 0 then None
    else if nodes[0].nodeid == nodeid then Some(0)
    else
      match FindNode(nodes[1..], nodeid)
      case None => None
      case Some(j) => Some(j + 1)
  }

  /** The uniqueness check of `__upsert_node_addr_impl`, pair by pair: `nodes`
      are the link's nodes as updated so far and `m` the address map as
      updated so far. A node that gets an address for the first time, or a
      different one, may not take an address the map already holds. */
  function ClaimAddrs(canon: string -> string, nodes: seq<LinkNode>, m: map<string, nat>, pairs: Addresses): Option<LinkError>
    decreases |pairs|
  {
    if |pairs| == 0 then None
    else
      var nodeid := pairs[0].0;
      var addr := pairs[0].1;
      match FindNode(nodes, nodeid)
      case None => Some(UnknownNodeid(nodeid))
      case Some(j) =>
        var found := nodes[j];
        var c := canon(addr);
        if (found.addr == "" || canon(found.addr) != c) && c in m then
          Some(DuplicatedNodeAddress(addr, nodeid, m[c]))
        else
          ClaimAddrs(canon, nodes[j := found.(addr := addr)], m[c := found.nodeid], pairs[1..])
  }

  /** One node of the node list after the addresses are written. */
  function WriteNodeAddr(v: Value, linknumber: nat, pairs: Addresses): Value
    requires NodeIdOf(v).Some?
  {
    match Find(pairs, NodeIdOf(v).value as int)
    case Some(addr) => Dict(Put(v.entries, RingKey(linknumber), Str(addr)))
    case None => v
  }

  /** The tree after `ring{linknumber}_addr` is written for every node named in `pairs`. */
  function WriteAddrs(config: Entries, linknumber: nat, pairs: Addresses): Result<Entries, LinkError> {
    var nl :- NodeSection(config);
    var items' :- WriteNodeAddrs(nl.1, linknumber, pairs);
    Ok(StoreNodes(config, nl.0, items'))
  }

  /** `config['nodelist']` and its `node` list, Err where the source fails. */
  function NodeSection(config: Entries): Result<(Entries, seq<Value>), LinkError> {
    match Lookup(config, "nodelist")
    case Some(Dict(nl)) =>
      (match Lookup(nl, "node")
       case Some(List(items)) => Ok((nl, items))
       case _ => Err(Malformed))
    case _ => Err(Malformed)
  }

  /** The node list is stored back in place. */
  function StoreNodes(config: Entries, nl: Entries, items: seq<Value>): Entries {
    Put(config, "nodelist", Dict(Put(nl, "node", List(items))))
  }

  /** Every node after the addresses are written; Err where `int(node['nodeid'])` fails. */
  function WriteNodeAddrs(items: seq<Value>, linknumber: nat, pairs: Addresses): (r: Result<seq<Value>, LinkError>)
    ensures r.Ok? <==> forall j :: 0 <= j < |items| ==> NodeIdOf(items[j]).Some?
    ensures r.Ok? ==> |r.value| == |items| && forall j :: 0 <= j < |items| ==>
      NodeIdOf(items[j]).Some? && r.value[j] == WriteNodeAddr(items[j], linknumber, pairs)
  {
    if forall j :: 0 <= j < |items| ==> NodeIdOf(items[j]).Some? then
      Ok(seq(|items|, j requires 0 <= j < |items| => WriteNodeAddr(items[j], linknumber, pairs)))
    else Err(Malformed)
  }

  /** `__upsert_node_addr_impl(config, links, linknumber, node_addresses)`. */
  function UpsertSpec(config: Entries, canon: string -> string, links: seq<Option<Link>>, linknumber: nat, pairs: Addresses): Result<Entries, LinkError>
    requires linknumber < |links| && links[linknumber].Some?
  {
    match ClaimAddrs(canon, links[linknumber].value.nodes, AddrMap(canon, links), pairs)
    case Some(e) => Err(e)
    case None => WriteAddrs(config, linknumber, pairs)
  }

  /** `update_node_addr(linknumber, node_addresses)`. */
  function UpdateNodeAddrSpec(config: Entries, canon: string -> string, linknumber: nat, pairs: Addresses): Result<Entries, LinkError> {
    var links :- LinksSpec(config);
    match CheckLink(links, linknumber)
    case Some(e) => Err(e)
    case None => UpsertSpec(config, canon, links, linknumber, pairs)
  }

  /** The lowest empty slot. */
  function FreeSlot(links: seq<Option<Link>>): (r: Option<nat>)
    ensures r.Some? ==> r.value < |links| && links[r.value].None? && forall j :: 0 <= j < r.value ==> links[j].Some?
    ensures r.None? <==> forall j :: 0 <= j < |links| ==> links[j].Some?
  {
    if |links| == 0 then None
    else if links[0].None? then Some(0)
    else
      match FreeSlot(links[1..])
      case None => None
      case Some(j) => Some(j + 1)
  }

  /** The first link that exists. */
  function FirstLink(links: seq<Option<Link>>): (r: Option<Link>)
    ensures r.Some? ==> r in links
    ensures r.None? <==> forall j :: 0 <= j < |links| ==> links[j].None?
  {
    if |links| == 0 then None
    else if links[0].Some? then links[0]
    else FirstLink(links[1..])
  }

  /** `unspecified_nodes`: the nodeids, in link order, that `pairs` does not name. */
  function MissingIds(nodes: seq<LinkNode>, pairs: Addresses): (r: seq<nat>)
    ensures forall id :: id in r <==> (exists j :: 0 <= j < |nodes| && nodes[j].nodeid == id) && Find(pairs, id).None?
  {
    if |nodes| == 0 then []
    else (if Find(pairs, nodes[0].nodeid).None? then [nodes[0].nodeid] else []) + MissingIds(nodes[1..], pairs)
  }

  /** `dataclasses.replace(node, addr='')` over the nodes. */
  function Blank(nodes: seq<LinkNode>): (r: seq<LinkNode>)
    ensures |r| == |nodes| && forall j :: 0 <= j < |nodes| ==> r[j] == nodes[j].(addr := "")
  {
    seq(|nodes|, j requires 0 <= j < |nodes| => nodes[j].(addr := ""))
  }

  /** The first half of `add_link`: the new slot and the tree after the
      addresses are written, before the options are applied. */
  function AddLinkAddrs(config: Entries, canon: string -> string, pairs: Addresses): Result<(nat, Entries), LinkError> {
    var links :- LinksSpec(config);
    var next :- NewLinkSlots(links, pairs);
    var c :- UpsertSpec(config, canon, next.1, next.0, pairs);
    Ok((next.0, c))
  }

  /** The checks of `add_link`, then the slots with the new link in the lowest
      free slot, holding every node with an empty address. */
  function NewLinkSlots(links: seq<Option<Link>>, pairs: Addresses): (r: Result<(nat, seq<Option<Link>>), LinkError>)
    ensures r.Ok? ==> r.value.0 < |r.value.1| && r.value.1[r.value.0].Some?
  {
    match FreeSlot(links)
    case None => Err(TooManyLinks)
    case Some(next) =>
      match FirstLink(links)
      case None => Err(Malformed)
      case Some(first) =>
        var missing := MissingIds(first.nodes, pairs);
        if |missing| > 0 then Err(MissingNodes(missing))
        else Ok((next, links[next := Some(Link(next, Blank(first.nodes), map[]))]))
  }

  /** `add_link(node_addresses, options)`. */
  function AddLinkSpec(config: Entries, canon: string -> string, pairs: Addresses, options: Options): Result<Entries, LinkError> {
    var p :- AddLinkAddrs(config, canon, pairs);
    UpdateLinkSpec(p.1, p.0, options)
  }

  /** The number of links that exist. */
  function CountLinks(links: seq<Option<Link>>): (n: nat)
    ensures n <= |links|
    ensures n == 0 <==> forall j :: 0 <= j < |links| ==> links[j].None?
  {
    if |links| == 0 then 0 else (if links[0].Some? then 1 else 0) + CountLinks(links[1..])
  }

  /** `del node[key]` on a node that is a section. */
  function DeleteKey(v: Value, k: string): Value {
    if v.Dict? then Dict(Delete(v.entries, k)) else v
  }

  /** The checks of `remove_link` on the slots `links`. */
  function RemoveLinkCheck(links: seq<Option<Link>>, linknumber: nat): Option<LinkError> {
    match CheckLink(links, linknumber)
    case Some(e) => Some(e)
    case None => if CountLinks(links) <= 1 then Some(LastLink) else None
  }

  /** Every node with `key` deleted. */
  function DeleteFromAll(items: seq<Value>, key: string): (r: seq<Value>)
    ensures |r| == |items| && forall j :: 0 <= j < |items| ==> r[j] == DeleteKey(items[j], key)
  {
    seq(|items|, j requires 0 <= j < |items| => DeleteKey(items[j], key))
  }

  /** The first half of `remove_link`: the checks, then `ring{linknumber}_addr`
      deleted from every node. */
  function RemoveLinkNodes(config: Entries, linknumber: nat): Result<Entries, LinkError> {
    var links :- LinksSpec(config);
    match RemoveLinkCheck(links, linknumber)
    case Some(e) => Err(e)
    case None =>
      var nl :- NodeSection(config);
      Ok(StoreNodes(config, nl.0, DeleteFromAll(nl.1, RingKey(linknumber))))
  }

  /** `int(interface['linknumber'])`, None where it raises. */
  function RecordLinknumber(v: Value): Option<nat> {
    match StrAt(v, "linknumber")
    case Some(s) => ParseNat(s)
    case None => None
  }

  /** The records whose linknumber is not `linknumber`. */
  function DropLinkRecords(xs: seq<Value>, linknumber: nat): (r: seq<Value>)
    requires forall j :: 0 <= j < |xs| ==> RecordLinknumber(xs[j]).Some?
  {
    if |xs| == 0 then []
    else (if RecordLinknumber(xs[0]) != Some(linknumber) then [xs[0]] else []) + DropLinkRecords(xs[1..], linknumber)
  }

  /** `totem` and its `interface` list as `remove_link` reads them: None when
      there is no interface key. */
  function InterfaceRecords(config: Entries): Result<Option<(Entries, seq<Value>)>, LinkError> {
    match Lookup(config, "totem")
    case Some(Dict(t)) =>
      (match Lookup(t, "interface")
       case None => Ok(None)
       case Some(List(xs)) => Ok(Some((t, xs)))
       case Some(_) => Err(Malformed))
    case _ => Err(Malformed)
  }

  /** The second half of `remove_link`: the records of the link are dropped
      from `totem.interface`. */
  function RemoveLinkRecords(config: Entries, linknumber: nat): Result<Entries, LinkError> {
    var records :- InterfaceRecords(config);
    match records
    case None => Ok(config)
    case Some(r) =>
      if forall j :: 0 <= j < |r.1| ==> RecordLinknumber(r.1[j]).Some? then
        Ok(Put(config, "totem", Dict(Put(r.0, "interface", List(DropLinkRecords(r.1, linknumber))))))
      else Err(Malformed)
  }

  /** `remove_link(linknumber)`. */
  function RemoveLinkSpec(config: Entries, linknumber: nat): Result<Entries, LinkError> {
    var c :- RemoveLinkNodes(config, linknumber);
    RemoveLinkRecords(c, linknumber)
  }

  /** The loop of `links()` over the eight link numbers, before the options are loaded. */
  method BareSlots(items: seq<Value>) returns (links: seq<Option<Link>>)
    requires RosterOk(items) && RingsComplete(items)
    ensures |links| == KnetLinkNumLimit
    ensures forall k :: 0 <= k < KnetLinkNumLimit ==> links[k] == BareSlot(items, k)
  {
    links := [];
    for i := 0 to KnetLinkNumLimit
      invariant |links| == i
      invariant forall k :: 0 <= k < i ==> links[k] == BareSlot(items, k)
    {
      var slot := None;
      if Present(items, i) {
        var nodes := SortByNodeid(SlotNodes(items, i));
        slot := Some(Link(i, nodes, map[]));
      }
      links := links + [slot];
    }
  }

  /** `links()` on the tree `config`: the eight slots, built one slot at a time. */
  method LinksOf(config: Entries) returns (r: Result<seq<Option<Link>>, LinkError>)
    ensures r == LinksSpec(config)
  {
    var src := LinksSource(config);
    if src.Err? {
      return Err(src.error);
    }
    if src.value.None? {
      return Ok([]);
    }
    var items, xs := src.value.value.0, src.value.value.1;
    var links := BareSlots(items);
    var slots := seq(KnetLinkNumLimit, i requires 0 <= i < KnetLinkNumLimit =>
      if links[i].Some? then Some(links[i].value.(options := OptionsFor(xs, i))) else None);
    assert forall i :: 0 <= i < KnetLinkNumLimit ==> slots[i] == Slot(items, xs, i);
    assert slots == SlotsOf(items, xs);
    r := Ok(slots);
  }

  lemma ApplyFieldsStep(x: Entries, merged: map<string, string>, fields: seq<string>, f: nat)
    requires f < |fields|
    ensures ApplyFields(x, merged, fields[..f + 1]) == ApplyField(ApplyFields(x, merged, fields[..f]), merged, fields[f])
  {
    assert fields[..f + 1][..f] == fields[..f];
  }

  /** The loop of `update_link` over the link's fields, on the record `base`. */
  method EditInterface(base: Entries, merged: map<string, string>) returns (x: Entries)
    ensures x == ApplyFields(base, merged, LinkOptionsUpdatable)
  {
    x := base;
    for f := 0 to |LinkOptionsUpdatable|
      invariant x == ApplyFields(base, merged, LinkOptionsUpdatable[..f])
    {
      ApplyFieldsStep(base, merged, LinkOptionsUpdatable, f);
      var k := LinkOptionsUpdatable[f];
      if k in merged {
        x := Put(x, k, Str(merged[k]));
      } else {
        x := Delete(x, k);
      }
    }
    assert LinkOptionsUpdatable[..|LinkOptionsUpdatable|] == LinkOptionsUpdatable;
  }

  /** The end of `update_link`: the edited record `x` goes back into the list,
      and the list back into `totem`. */
  method StoreRecord(config: Entries, totem: Entries, interfaces: seq<Entries>, idx: Option<nat>, x: Entries)
    returns (c: Entries)
    requires idx.Some? ==> idx.value < |interfaces|
    ensures c == StoreInterfaces(config, totem, PlaceInterface(interfaces, idx, x))
  {
    var xs := interfaces;
    if |Keys(x)| == 1 {
      if idx.Some? {
        xs := xs[..idx.value] + xs[idx.value + 1..];
      }
    } else {
      if idx.Some? {
        xs := xs[idx.value := x];
      } else {
        xs := xs + [x];
      }
    }
    var t := totem;
    if |xs| == 0 && Has(t, "interface") {
      t := Delete(t, "interface");
    } else {
      t := Put(t, "interface", List(Dicts(xs)));
    }
    c := Put(config, "totem", Dict(t));
  }

  /** `update_link(linknumber, options)` on the tree `config`. */
  method UpdateLinkOf(config: Entries, linknumber: nat, options: Options) returns (r: Result<Entries, LinkError>)
    ensures r == UpdateLinkSpec(config, linknumber, options)
  {
    var links := LinksOf(config);
    if links.Err? {
      return Err(links.error);
    }
    var plan := UpdateLinkPlan(config, links.value, linknumber, options);
    if plan.Err? {
      return Err(plan.error);
    }
    var e := plan.value;
    var x := EditInterface(e.base, e.merged);
    var c := StoreRecord(config, e.totem, e.interfaces, e.idx, x);
    return Ok(c);
  }

  /** The uniqueness loop of `__upsert_node_addr_impl`. */
  method ClaimLoop(canon: string -> string, nodes: seq<LinkNode>, m: map<string, nat>, pairs: Addresses)
    returns (err: Option<LinkError>)
    ensures err == ClaimAddrs(canon, nodes, m, pairs)
  {
    var cur: seq<LinkNode>, seen: map<string, nat> := nodes, m;
    for i := 0 to |pairs|
      invariant ClaimAddrs(canon, nodes, m, pairs) == ClaimAddrs(canon, cur, seen, pairs[i..])
    {
      assert pairs[i..][1..] == pairs[i + 1..];
      var nodeid := pairs[i].0;
      var addr := pairs[i].1;
      var j := FindNode(cur, nodeid);
      if j.None? {
        return Some(UnknownNodeid(nodeid));
      }
      var found := cur[j.value];
      var c := canon(addr);
      if (found.addr == "" || canon(found.addr) != c) && c in seen {
        return Some(DuplicatedNodeAddress(addr, nodeid, seen[c]));
      }
      cur := cur[j.value := found.(addr := addr)];
      seen := seen[c := found.nodeid];
    }
    return None;
  }

  /** The write loop of `__upsert_node_addr_impl` over the node list. */
  method WriteLoop(items: seq<Value>, linknumber: nat, pairs: Addresses) returns (r: Result<seq<Value>, LinkError>)
    ensures r == WriteNodeAddrs(items, linknumber, pairs)
  {
    var written: seq<Value> := [];
    for j := 0 to |items|
      invariant |written| == j
      invariant forall k :: 0 <= k < j ==> NodeIdOf(items[k]).Some? && written[k] == WriteNodeAddr(items[k], linknumber, pairs)
    {
      var id := NodeIdOf(items[j]);
      if id.None? {
        return Err(Malformed);
      }
      written := written + [WriteNodeAddr(items[j], linknumber, pairs)];
    }
    var spec := WriteNodeAddrs(items, linknumber, pairs);
    assert spec.Ok? && |spec.value| == |written|;
    assert forall k :: 0 <= k < |items| ==> spec.value[k] == written[k];
    assert spec.value == written;
    return Ok(written);
  }

  /** `__upsert_node_addr_impl(config, links, linknumber, node_addresses)`. */
  method UpsertNodeAddrImpl(config: Entries, canon: string -> string, links: seq<Option<Link>>,
                            linknumber: nat, pairs: Addresses)
    returns (r: Result<Entries, LinkError>)
    requires linknumber < |links| && links[linknumber].Some?
    ensures r == UpsertSpec(config, canon, links, linknumber, pairs)
  {
    var err := ClaimLoop(canon, links[linknumber].value.nodes, AddrMap(canon, links), pairs);
    if err.Some? {
      return Err(err.value);
    }
    var nl := NodeSection(config);
    if nl.Err? {
      return Err(nl.error);
    }
    var written := WriteLoop(nl.value.1, linknumber, pairs);
    if written.Err? {
      return Err(written.error);
    }
    r := Ok(StoreNodes(config, nl.value.0, written.value));
  }

  /** `update_node_addr(linknumber, node_addresses)` on the tree `config`. */
  method UpdateNodeAddrOf(config: Entries, canon: string -> string, linknumber: nat, pairs: Addresses)
    returns (r: Result<Entries, LinkError>)
    ensures r == UpdateNodeAddrSpec(config, canon, linknumber, pairs)
  {
    var links := LinksOf(config);
    if links.Err? {
      return Err(links.error);
    }
    var err := CheckLink(links.value, linknumber);
    if err.Some? {
      return Err(err.value);
    }
    r := UpsertNodeAddrImpl(config, canon, links.value, linknumber, pairs);
  }

  /** The first half of `add_link` on the tree `config`. */
  method AddLinkAddrsOf(config: Entries, canon: string -> string, pairs: Addresses)
    returns (r: Result<(nat, Entries), LinkError>)
    ensures r == AddLinkAddrs(config, canon, pairs)
  {
    var links := LinksOf(config);
    if links.Err? {
      return Err(links.error);
    }
    var next := NewLinkSlots(links.value, pairs);
    if next.Err? {
      return Err(next.error);
    }
    var c := UpsertNodeAddrImpl(config, canon, next.value.1, next.value.0, pairs);
    if c.Err? {
      return Err(c.error);
    }
    return Ok((next.value.0, c.value));
  }

  /** The loop of `remove_link` deleting `key` from every node. */
  method DeleteLoop(items: seq<Value>, key: string) returns (kept: seq<Value>)
    ensures kept == DeleteFromAll(items, key)
  {
    kept := [];
    for j := 0 to |items|
      invariant |kept| == j
      invariant forall k :: 0 <= k < j ==> kept[k] == DeleteKey(items[k], key)
    {
      kept := kept + [DeleteKey(items[j], key)];
    }
  }

  /** The first half of `remove_link` on the tree `config`. */
  method RemoveLinkNodesOf(config: Entries, linknumber: nat) returns (r: Result<Entries, LinkError>)
    ensures r == RemoveLinkNodes(config, linknumber)
  {
    var links := LinksOf(config);
    if links.Err? {
      return Err(links.error);
    }
    var err := RemoveLinkCheck(links.value, linknumber);
    if err.Some? {
      return Err(err.value);
    }
    var nl := NodeSection(config);
    if nl.Err? {
      return Err(nl.error);
    }
    var kept := DeleteLoop(nl.value.1, RingKey(linknumber));
    r := Ok(StoreNodes(config, nl.value.0, kept));
  }

  /** The second half of `remove_link` on the tree `config`. */
  method RemoveLinkRecordsOf(config: Entries, linknumber: nat) returns (r: Result<Entries, LinkError>)
    ensures r == RemoveLinkRecords(config, linknumber)
  {
    var records := InterfaceRecords(config);
    if records.Err? {
      return Err(records.error);
    }
    if records.value.None? {
      return Ok(config);
    }
    var t, xs := records.value.value.0, records.value.value.1;
    if !(forall j :: 0 <= j < |xs| ==> RecordLinknumber(xs[j]).Some?) {
      return Err(Malformed);
    }
    r := Ok(Put(config, "totem", Dict(Put(t, "interface", List(DropLinkRecords(xs, linknumber))))));
  }

  /** The link manager over a configuration tree. `canon` is the canonical form
      of an address (`utils.IP(addr).ip_address`), which the model takes as given.
      Each mutator replaces `config` by the tree its specification gives, and
      leaves it alone when it fails before writing anything. */
  class LinkManager {
    var config: Entries
    const canon: string -> string

    constructor(config: Entries, canon: string -> string)
      ensures this.config == config && this.canon == canon
    {
      this.config := config;
      this.canon := canon;
    }

    /** `links()`. */
    method Links() returns (r: Result<seq<Option<Link>>, LinkError>)
      ensures r == LinksSpec(config)
    {
      r := LinksOf(config);
    }

    /** `update_link(linknumber, options)`. */
    method UpdateLink(linknumber: nat, options: Options) returns (err: Option<LinkError>)
      modifies this
      ensures UpdateLinkSpec(old(config), linknumber, options).Ok? ==>
        err.None? && config == UpdateLinkSpec(old(config), linknumber, options).value
      ensures UpdateLinkSpec(old(config), linknumber, options).Err? ==>
        err == Some(UpdateLinkSpec(old(config), linknumber, options).error) && config == old(config)
    {
      var r := UpdateLinkOf(config, linknumber, options);
      if r.Err? {
        return Some(r.error);
      }
      config := r.value;
      return None;
    }

    /** `update_node_addr(linknumber, node_addresses)`. */
    method UpdateNodeAddr(linknumber: nat, pairs: Addresses) returns (err: Option<LinkError>)
      modifies this
      ensures UpdateNodeAddrSpec(old(config), canon, linknumber, pairs).Ok? ==>
        err.None? && config == UpdateNodeAddrSpec(old(config), canon, linknumber, pairs).value
      ensures UpdateNodeAddrSpec(old(config), canon, linknumber, pairs).Err? ==>
        err == Some(UpdateNodeAddrSpec(old(config), canon, linknumber, pairs).error) && config == old(config)
    {
      var r := UpdateNodeAddrOf(config, canon, linknumber, pairs);
      if r.Err? {
        return Some(r.error);
      }
      config := r.value;
      return None;
    }

    /** `add_link(node_addresses, options)`. When applying the options fails,
        the addresses of the new link have already been written. */
    method AddLink(pairs: Addresses, options: Options) returns (err: Option<LinkError>)
      modifies this
      ensures AddLinkAddrs(old(config), canon, pairs).Err? ==>
        err == Some(AddLinkAddrs(old(config), canon, pairs).error) && config == old(config)
      ensures AddLinkAddrs(old(config), canon, pairs).Ok? ==>
        var p := AddLinkAddrs(old(config), canon, pairs).value;
        (UpdateLinkSpec(p.1, p.0, options).Ok? ==> err.None? && config == UpdateLinkSpec(p.1, p.0, options).value) &&
        (UpdateLinkSpec(p.1, p.0, options).Err? ==> err == Some(UpdateLinkSpec(p.1, p.0, options).error) && config == p.1)
    {
      var r := AddLinkAddrsOf(config, canon, pairs);
      if r.Err? {
        return Some(r.error);
      }
      config := r.value.1;
      err := UpdateLink(r.value.0, options);
    }

    /** `remove_link(linknumber)`. When the interface records cannot be read,
        the addresses of the link have already been deleted. */
    method RemoveLink(linknumber: nat) returns (err: Option<LinkError>)
      modifies this
      ensures RemoveLinkNodes(old(config), linknumber).Err? ==>
        err == Some(RemoveLinkNodes(old(config), linknumber).error) && config == old(config)
      ensures RemoveLinkNodes(old(config), linknumber).Ok? ==>
        var c := RemoveLinkNodes(old(config), linknumber).value;
        (RemoveLinkRecords(c, linknumber).Ok? ==> err.None? && config == RemoveLinkRecords(c, linknumber).value) &&
        (RemoveLinkRecords(c, linknumber).Err? ==> err == Some(RemoveLinkRecords(c, linknumber).error) && config == c)
    {
      var r := RemoveLinkNodesOf(config, linknumber);
      if r.Err? {
        return Some(r.error);
      }
      config := r.value;
      var r2 := RemoveLinkRecordsOf(config, linknumber);
      if r2.Err? {
        return Some(r2.error);
      }
      config := r2.value;
      return None;
    }
  }
}
