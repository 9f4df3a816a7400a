/** Properties of the link manager: which calls fail and why, and what
    `links()` shows after each mutator succeeds. */
module LinkProps {
  import opened Tree
  import opened Text
  import opened LinkManager

  /** The shape of `links()`: nothing without a node list; otherwise slot i
      holds a link exactly when the first node has `ring{i}_addr`, numbered i
      and listing every node sorted by nodeid. */
  lemma LinksShape(config: Entries)
    requires LinksSpec(config).Ok?
    ensures match NodeList(config)
      case Ok(None) => LinksSpec(config).value == []
      case Ok(Some(items)) => RosterOk(items) && RingsComplete(items) && SlotsDescribe(LinksSpec(config).value, items)
      case Err(_) => false
  {
    var src := LinksSource(config).value;
    if src.Some? {
      var items, xs := src.value.0, src.value.1;
      var ls := SlotsOf(items, xs);
      forall i | 0 <= i < KnetLinkNumLimit
        ensures ls[i].Some? ==>
          ls[i].value.linknumber == i && SortedByNodeid(ls[i].value.nodes) &&
          multiset(ls[i].value.nodes) == multiset(SlotNodes(items, i))
      {
        assert ls[i] == Slot(items, xs, i);
      }
    }
  }

  /** What a successful `links()` on a tree with a node list has checked. */
  lemma LinksSourceFacts(config: Entries)
    requires LinksSpec(config).Ok? && |LinksSpec(config).value| > 0
    ensures LinksSource(config).Ok? && LinksSource(config).value.Some?
    ensures InterfacesOf(config) == Ok(LinksSource(config).value.value.1)
    ensures LinksSpec(config).value == SlotsOf(LinksSource(config).value.value.0, LinksSource(config).value.value.1)
    ensures Has(config, "totem") ==> Lookup(config, "totem").value.Dict?
    ensures TotemTransport(config) == Ok(Str("knet"))
    ensures NodeList(config) == Ok(Some(LinksSource(config).value.value.0))
  {
  }

  /** A link's options come from the last interface record carrying its number. */
  lemma {:induction false} OptionsFromLastRecord(xs: seq<Entries>, i: nat, j: nat)
    requires InterfacesOk(xs) && j < |xs| && InterfaceLinknumber(xs[j]) == Some(i)
    requires forall k :: j < k < |xs| ==> InterfaceLinknumber(xs[k]) != Some(i)
    ensures OptionsFor(xs, i) == OptionsOf(xs[j])
    decreases |xs|
  {
    if j < |xs| - 1 {
      OptionsFromLastRecord(xs[..|xs| - 1], i, j);
    }
  }

  /** Without a record carrying its number, a link has no options set. */
  lemma {:induction false} OptionsWithoutRecord(xs: seq<Entries>, i: nat)
    requires InterfacesOk(xs)
    requires forall k :: 0 <= k < |xs| ==> InterfaceLinknumber(xs[k]) != Some(i)
    ensures OptionsFor(xs, i) == map[]
    decreases |xs|
  {
    if |xs| > 0 {
      OptionsWithoutRecord(xs[..|xs| - 1], i);
    }
  }

  /** Removing a record numbered otherwise leaves the options of link i alone. */
  lemma {:induction false} OptionsRemoveOther(xs: seq<Entries>, idx: nat, i: nat)
    requires InterfacesOk(xs) && idx < |xs| && InterfaceLinknumber(xs[idx]) != Some(i)
    ensures InterfacesOk(xs[..idx] + xs[idx + 1..])
    ensures OptionsFor(xs[..idx] + xs[idx + 1..], i) == OptionsFor(xs, i)
    decreases |xs|
  {
    var ys := xs[..idx] + xs[idx + 1..];
    forall k | 0 <= k < |ys|
      ensures InterfaceLinknumber(ys[k]).Some?
    {
      if k < idx {
        assert ys[k] == xs[k];
      } else {
        assert ys[k] == xs[k + 1];
      }
    }
    if idx == |xs| - 1 {
      assert ys == xs[..|xs| - 1];
    } else {
      var pre := xs[..|xs| - 1];
      assert xs[idx + 1..] == pre[idx + 1..] + [xs[|xs| - 1]];
      assert xs[..idx] == pre[..idx];
      assert ys == (pre[..idx] + pre[idx + 1..]) + [xs[|xs| - 1]];
      OptionsRemoveOther(pre, idx, i);
      assert ys[..|ys| - 1] == pre[..idx] + pre[idx + 1..];
    }
  }

  /** Replacing a record numbered otherwise by another leaves link i alone. */
  lemma {:induction false} OptionsReplaceOther(xs: seq<Entries>, idx: nat, x: Entries, i: nat)
    requires InterfacesOk(xs) && idx < |xs| && InterfaceLinknumber(x).Some?
    requires InterfaceLinknumber(xs[idx]) != Some(i) && InterfaceLinknumber(x) != Some(i)
    ensures InterfacesOk(xs[idx := x])
    ensures OptionsFor(xs[idx := x], i) == OptionsFor(xs, i)
    decreases |xs|
  {
    var ys := xs[idx := x];
    if idx < |xs| - 1 {
      var pre := xs[..|xs| - 1];
      assert ys[..|ys| - 1] == pre[idx := x];
      OptionsReplaceOther(pre, idx, x, i);
    } else {
      assert ys[..|ys| - 1] == xs[..|xs| - 1];
    }
  }

  /** The record appended last decides the options of its own link only. */
  lemma OptionsAppend(xs: seq<Entries>, x: Entries, i: nat)
    requires InterfacesOk(xs) && InterfaceLinknumber(x).Some?
    ensures InterfacesOk(xs + [x])
    ensures OptionsFor(xs + [x], i) == if InterfaceLinknumber(x) == Some(i) then OptionsOf(x) else OptionsFor(xs, i)
  {
    assert (xs + [x])[..|xs|] == xs;
  }

  /** The checks of `update_link` on the slots it has read. */
  lemma UpdateLinkPlanOutcome(config: Entries, ls: seq<Option<Link>>, linknumber: nat, options: Options)
    requires |ls| == 0 || |ls| == KnetLinkNumLimit
    ensures var r := UpdateLinkPlan(config, ls, linknumber, options);
      (linknumber >= KnetLinkNumLimit || (|ls| > 0 && ls[linknumber].None?) ==> r == Err(LinkDoesNotExist(linknumber))) &&
      (linknumber < KnetLinkNumLimit && |ls| == 0 ==> r == Err(Malformed)) &&
      (linknumber < KnetLinkNumLimit && |ls| > 0 && ls[linknumber].Some? ==>
        (Names(options, "nodes") ==> r == Err(UnknownOptionNodes)) &&
        (!Names(options, "nodes") && FirstUnsupported(options).Some? ==>
          r == Err(UnsupportedOption(FirstUnsupported(options).value))))
    ensures UpdateLinkPlan(config, ls, linknumber, options).Ok? <==>
      linknumber < KnetLinkNumLimit && |ls| > 0 && ls[linknumber].Some? &&
      (forall j :: 0 <= j < |options| ==> options[j].0 in LinkOptionsUpdatable) &&
      Lookup(config, "totem").Some? && Lookup(config, "totem").value.Dict? && InterfacesOf(config).Ok?
  {
    if Names(options, "nodes") {
      var j :| 0 <= j < |options| && options[j].0 == "nodes";
      assert "nodes" !in LinkOptionsUpdatable;
    }
  }

  /** When `update_link` fails, and why: a link that is not there, the option
      `nodes`, the first option that cannot be updated. It succeeds exactly when
      the link exists, every option is updatable and `totem` is present. */
  lemma UpdateLinkOutcome(config: Entries, linknumber: nat, options: Options)
    requires LinksSpec(config).Ok?
    ensures var ls := LinksSpec(config).value;
      var r := UpdateLinkSpec(config, linknumber, options);
      (linknumber >= KnetLinkNumLimit || (|ls| > 0 && ls[linknumber].None?) ==> r == Err(LinkDoesNotExist(linknumber))) &&
      (linknumber < KnetLinkNumLimit && |ls| == 0 ==> r == Err(Malformed)) &&
      (linknumber < KnetLinkNumLimit && |ls| > 0 && ls[linknumber].Some? ==>
        (Names(options, "nodes") ==> r == Err(UnknownOptionNodes)) &&
        (!Names(options, "nodes") && FirstUnsupported(options).Some? ==>
          r == Err(UnsupportedOption(FirstUnsupported(options).value))))
    ensures var ls := LinksSpec(config).value;
      UpdateLinkSpec(config, linknumber, options).Ok? <==>
        linknumber < KnetLinkNumLimit && |ls| > 0 && ls[linknumber].Some? &&
        (forall j :: 0 <= j < |options| ==> options[j].0 in LinkOptionsUpdatable) &&
        Has(config, "totem")
  {
    var ls := LinksSpec(config).value;
    UpdateLinkPlanOutcome(config, ls, linknumber, options);
    if |ls| > 0 {
      LinksSourceFacts(config);
    }
  }

  /** Link `ln` has at most one interface record, and that record writes its
      number the way `str(linknumber)` does. */
  predicate SingleRecord(xs: seq<Entries>, ln: nat) {
    (forall j, k ::
      (0 <= j < |xs| && 0 <= k < |xs| &&
       InterfaceLinknumber(xs[j]) == Some(ln as int) && InterfaceLinknumber(xs[k]) == Some(ln as int)) ==> j == k) &&
    (forall j :: 0 <= j < |xs| && InterfaceLinknumber(xs[j]) == Some(ln as int) ==>
      Lookup(xs[j], "linknumber") == Some(Str(NatToString(ln))))
  }

  /** A set of one element has no other member. */
  lemma OnlyMember(ks: set<string>, a: string, b: string)
    requires |ks| == 1 && a in ks && b in ks
    ensures a == b
  {
    var rest := ks - {a};
    assert |rest| == 0;
    assert b !in rest;
  }

  /** A record whose updatable keys hold exactly `merged` has those options. */
  lemma RecordOptions(x: Entries, merged: map<string, string>)
    requires forall k :: k in merged ==> k in LinkOptionsUpdatable
    requires forall k :: k in LinkOptionsUpdatable ==>
      Lookup(x, k) == (if k in merged then Some(Str(merged[k])) else None)
    ensures OptionsOf(x) == merged
  {
    var o := OptionsOf(x);
    forall k | k in LinkOptionsUpdatable
      ensures (k in o <==> k in merged) && (k in merged ==> o[k] == merged[k])
    {
      if k in merged {
        assert EntryStr(x, k) == Some(merged[k]);
      }
    }
    assert o == merged;
  }

  /** Such a record left holding one key sets no option. */
  lemma RecordBare(x: Entries, merged: map<string, string>)
    requires Lookup(x, "linknumber").Some?
    requires forall k :: k in merged ==> k in LinkOptionsUpdatable
    requires forall k :: k in LinkOptionsUpdatable ==>
      Lookup(x, k) == (if k in merged then Some(Str(merged[k])) else None)
    ensures |Keys(x)| == 1 ==> merged == map[]
  {
    if |Keys(x)| == 1 && merged != map[] {
      var k :| k in merged;
      assert k != "linknumber" && Lookup(x, k).Some?;
      OnlyMember(Keys(x), "linknumber", k);
      assert false;
    }
  }

  /** The record `update_link` writes back carries the link's number and
      exactly the merged options; one left holding only its number has none. */
  lemma EditedRecord(base: Entries, merged: map<string, string>, ln: nat)
    requires Lookup(base, "linknumber") == Some(Str(NatToString(ln)))
    requires forall k :: k in merged ==> k in LinkOptionsUpdatable
    ensures var x := ApplyFields(base, merged, LinkOptionsUpdatable);
      InterfaceLinknumber(x) == Some(ln as int) && OptionsOf(x) == merged &&
      (|Keys(x)| == 1 ==> merged == map[])
  {
    var x := ApplyFields(base, merged, LinkOptionsUpdatable);
    assert "linknumber" !in LinkOptionsUpdatable;
    ParseNatToString(ln);
    assert Lookup(x, "linknumber") == Some(Str(NatToString(ln)));
    RecordOptions(x, merged);
    RecordBare(x, merged);
  }

  /** `Dicts` read back through `.entries`. */
  lemma DictsRead(ys: seq<Entries>)
    ensures var ds := Dicts(ys);
      (forall j :: 0 <= j < |ds| ==> ds[j].Dict?) &&
      seq(|ds|, j requires 0 <= j < |ds| => ds[j].entries) == ys
  {
  }

  /** Writing the interface list back leaves the transport and the node list
      alone, and `totem.interface` then reads as that list. */
  lemma StoredInterfaces(config: Entries, totem: Entries, ys: seq<Entries>)
    requires Lookup(config, "totem") == Some(Dict(totem))
    ensures var c := StoreInterfaces(config, totem, ys);
      TotemTransport(c) == TotemTransport(config) && NodeList(c) == NodeList(config) &&
      InterfacesOf(c) == Ok(ys)
  {
    StoredTransport(config, totem, ys);
    NodeListPutOther(config, "totem", Dict(InterfacesStored(totem, ys)));
    StoredList(config, totem, ys);
  }

  lemma StoredTransport(config: Entries, totem: Entries, ys: seq<Entries>)
    requires Lookup(config, "totem") == Some(Dict(totem))
    ensures TotemTransport(StoreInterfaces(config, totem, ys)) == TotemTransport(config)
  {
    var t := InterfacesStored(totem, ys);
    assert Lookup(t, "transport") == Lookup(totem, "transport");
    TransportFrom(StoreInterfaces(config, totem, ys), t, config, totem);
  }

  /** Writing any section but `nodelist` leaves the node list alone. */
  lemma NodeListPutOther(config: Entries, k: string, v: Value)
    requires k != "nodelist"
    ensures NodeList(Put(config, k, v)) == NodeList(config)
  {
    NodeListSame(Put(config, k, v), config);
  }

  lemma StoredList(config: Entries, totem: Entries, ys: seq<Entries>)
    ensures InterfacesOf(StoreInterfaces(config, totem, ys)) == Ok(ys)
  {
    var t := InterfacesStored(totem, ys);
    if |ys| == 0 && Has(totem, "interface") {
      assert Lookup(t, "interface") == None;
    } else {
      assert Lookup(t, "interface") == Some(List(Dicts(ys)));
      DictsRead(ys);
    }
    InterfacesFrom(StoreInterfaces(config, totem, ys), t, ys);
  }

  /* The readers of `links()` look at a tree through one top-level key each.
     Stating that for a tree given by name, and not by the writes that built
     it, keeps the definitions of those writes out of the proofs below. */

  lemma NodeListSame(c: Entries, c0: Entries)
    requires Lookup(c, "nodelist") == Lookup(c0, "nodelist")
    ensures NodeList(c) == NodeList(c0)
  {
  }

  lemma NodeListFrom(c: Entries, d: Entries, items: seq<Value>)
    requires Lookup(c, "nodelist") == Some(Dict(d)) && Lookup(d, "node") == Some(List(items))
    ensures NodeList(c) == Ok(Some(items))
  {
  }

  lemma TotemSame(c: Entries, c0: Entries)
    requires Lookup(c, "totem") == Lookup(c0, "totem")
    ensures TotemTransport(c) == TotemTransport(c0) && InterfacesOf(c) == InterfacesOf(c0)
  {
  }

  lemma TransportFrom(c: Entries, t: Entries, c0: Entries, t0: Entries)
    requires Lookup(c, "totem") == Some(Dict(t)) && Lookup(c0, "totem") == Some(Dict(t0))
    requires Lookup(t, "transport") == Lookup(t0, "transport")
    ensures TotemTransport(c) == TotemTransport(c0)
  {
  }

  lemma InterfacesFrom(c: Entries, t: Entries, ys: seq<Entries>)
    requires Lookup(c, "totem") == Some(Dict(t))
    requires Lookup(t, "interface") == Some(List(Dicts(ys))) || (ys == [] && Lookup(t, "interface") == None)
    ensures InterfacesOf(c) == Ok(ys)
  {
    DictsRead(ys);
  }

  /** The record put back decides the options of link `ln`. */
  lemma PlacedOwnOptions(xs: seq<Entries>, x: Entries, ln: nat)
    requires InterfacesOk(xs) && SingleRecord(xs, ln)
    requires InterfaceLinknumber(x) == Some(ln as int)
    requires |Keys(x)| == 1 ==> OptionsOf(x) == map[]
    ensures var idx := FindInterface(xs, NatToString(ln));
      InterfacesOk(PlaceInterface(xs, idx, x)) &&
      OptionsFor(PlaceInterface(xs, idx, x), ln) == OptionsOf(x)
  {
    var idx := FindInterface(xs, NatToString(ln));
    ParseNatToString(ln);
    if idx.Some? {
      var i := idx.value;
      assert InterfaceLinknumber(xs[i]) == Some(ln as int);
      if |Keys(x)| == 1 {
        OptionsRemoveOther(xs, i, ln + 1);
        var ys := xs[..i] + xs[i + 1..];
        forall k | 0 <= k < |ys|
          ensures InterfaceLinknumber(ys[k]) != Some(ln as int)
        {
          if k < i { assert ys[k] == xs[k]; } else { assert ys[k] == xs[k + 1]; }
        }
        OptionsWithoutRecord(ys, ln);
      } else {
        var ys := xs[i := x];
        OptionsReplaceOther(xs, i, x, ln + 1);
        OptionsFromLastRecord(ys, ln, i);
      }
    } else {
      forall k | 0 <= k < |xs|
        ensures InterfaceLinknumber(xs[k]) != Some(ln as int)
      {
      }
      if |Keys(x)| == 1 {
        OptionsWithoutRecord(xs, ln);
      } else {
        OptionsAppend(xs, x, ln);
      }
    }
  }

  /** The record put back leaves the options of every other link alone. */
  lemma PlacedOtherOptions(xs: seq<Entries>, x: Entries, ln: nat, i: nat)
    requires InterfacesOk(xs) && SingleRecord(xs, ln) && i != ln
    requires InterfaceLinknumber(x) == Some(ln as int)
    ensures var idx := FindInterface(xs, NatToString(ln));
      InterfacesOk(PlaceInterface(xs, idx, x)) &&
      OptionsFor(PlaceInterface(xs, idx, x), i) == OptionsFor(xs, i)
  {
    var idx := FindInterface(xs, NatToString(ln));
    ParseNatToString(ln);
    if idx.Some? {
      assert InterfaceLinknumber(xs[idx.value]) == Some(ln as int);
      if |Keys(x)| == 1 {
        OptionsRemoveOther(xs, idx.value, i);
      } else {
        OptionsReplaceOther(xs, idx.value, x, i);
      }
    } else if |Keys(x)| != 1 {
      OptionsAppend(xs, x, i);
    }
  }

  /** What the checks of a successful `update_link` hand over. */
  lemma PlanFields(config: Entries, ls: seq<Option<Link>>, ln: nat, options: Options)
    requires UpdateLinkPlan(config, ls, ln, options).Ok?
    ensures var e := UpdateLinkPlan(config, ls, ln, options).value;
      ln < |ls| && ls[ln].Some? &&
      Lookup(config, "totem") == Some(Dict(e.totem)) && InterfacesOf(config) == Ok(e.interfaces) &&
      e.idx == FindInterface(e.interfaces, NatToString(ln)) &&
      Lookup(e.base, "linknumber") == Some(Str(NatToString(ln))) &&
      e.merged == MergeOptions(ls[ln].value.options, options)
  {
  }

  /** With the same nodes, `links()` follows the options of the records. */
  lemma SourceAfter(config: Entries, c: Entries, ys: seq<Entries>)
    requires LinksSource(config).Ok? && LinksSource(config).value.Some?
    requires TotemTransport(c) == TotemTransport(config) && NodeList(c) == NodeList(config)
    requires InterfacesOf(c) == Ok(ys) && InterfacesOk(ys)
    ensures LinksSpec(c) == Ok(SlotsOf(LinksSource(config).value.value.0, ys))
  {
    assert LinksSource(c) == Ok(Some((LinksSource(config).value.value.0, ys)));
  }

  /** The slots read once the options of link `ln` alone have changed. */
  lemma SlotsAfterEdit(items: seq<Value>, xs: seq<Entries>, ys: seq<Entries>, ln: nat, merged: map<string, string>)
    requires RosterOk(items) && RingsComplete(items) && InterfacesOk(xs) && InterfacesOk(ys)
    requires ln < KnetLinkNumLimit && Present(items, ln)
    requires OptionsFor(ys, ln) == merged
    requires forall i: nat :: i != ln ==> OptionsFor(ys, i) == OptionsFor(xs, i)
    ensures var ls := SlotsOf(items, xs);
      SlotsOf(items, ys) == ls[ln := Some(ls[ln].value.(options := merged))]
  {
    var ls := SlotsOf(items, xs);
    var want := ls[ln := Some(ls[ln].value.(options := merged))];
    forall i | 0 <= i < KnetLinkNumLimit
      ensures SlotsOf(items, ys)[i] == want[i]
    {
      assert SlotsOf(items, ys)[i] == Slot(items, ys, i);
      assert ls[i] == Slot(items, xs, i);
    }
  }

  /** `update_link` on a tree in which link `ln` has at most one interface
      record changes what `links()` reports in one place only: the options of
      link `ln` become those `load_options(options)` merges in. */
  lemma UpdateLinkThenLinks(config: Entries, ln: nat, options: Options)
    requires LinksSpec(config).Ok? && UpdateLinkSpec(config, ln, options).Ok?
    requires InterfacesOf(config).Ok? && SingleRecord(InterfacesOf(config).value, ln)
    ensures ln < |LinksSpec(config).value| && LinksSpec(config).value[ln].Some?
    ensures var ls := LinksSpec(config).value;
      var l := ls[ln].value;
      LinksSpec(UpdateLinkSpec(config, ln, options).value) ==
        Ok(ls[ln := Some(l.(options := MergeOptions(l.options, options)))])
  {
    var ls := LinksSpec(config).value;
    var e := UpdateLinkPlan(config, ls, ln, options).value;
    PlanFields(config, ls, ln, options);
    LinksSourceFacts(config);
    var items, xs := LinksSource(config).value.value.0, LinksSource(config).value.value.1;
    assert e.interfaces == xs;
    var x := ApplyFields(e.base, e.merged, LinkOptionsUpdatable);
    EditedRecord(e.base, e.merged, ln);
    var ys := PlaceInterface(xs, e.idx, x);
    PlacedOwnOptions(xs, x, ln);
    forall i: nat | i != ln
      ensures OptionsFor(ys, i) == OptionsFor(xs, i)
    {
      PlacedOtherOptions(xs, x, ln, i);
    }
    var c := StoreInterfaces(config, e.totem, ys);
    assert UpdateLinkSpec(config, ln, options) == Ok(c);
    StoredInterfaces(config, e.totem, ys);
    SourceAfter(config, c, ys);
    assert ls[ln] == Slot(items, xs, ln);
    SlotsAfterEdit(items, xs, ys, ln, e.merged);
  }
}
