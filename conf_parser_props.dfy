/** Properties of the path addressor: set/get round trip, the index rules of
    `_raw_set`, what an error means, and the list normaliser. */
module ConfParserProps {
  import opened Tree
  import opened Text
  import opened ConfParser

  /** A scalar stays a scalar when a scalar is written anywhere below its section. */
  lemma {:induction false} SetKeepsScalar(node: Entries, stack: seq<string>, rest: seq<string>,
                                          value: Value, index: nat, k: string)
    requires |rest| >= 1 && value.Str?
    requires Lookup(node, k).Some? && Lookup(node, k).value.Str?
    requires SetAt(node, stack, rest, value, index).Ok?
    ensures var n' := SetAt(node, stack, rest, value, index).value;
            Lookup(n', k).Some? && Lookup(n', k).value.Str?
    decreases |rest|
  {
    if |rest| > 1 {
      match Lookup(node, rest[0]) {
        case Some(Str(_)) => SetKeepsScalar(node, stack + [rest[0]], rest[1..], value, index, k);
        case _ =>
      }
    }
  }

  /** Round trip: after a successful `set` of a scalar, `get` at the same path
      and index returns it. */
  lemma {:induction false} SetAtThenGetAt(node: Entries, stack: seq<string>, rest: seq<string>, value: Value, index: nat)
    requires |rest| >= 1 && value.Str?
    requires SetAt(node, stack, rest, value, index).Ok?
    ensures GetAt(SetAt(node, stack, rest, value, index).value, rest, index) == Some(value)
    decreases |rest|
  {
    var n' := SetAt(node, stack, rest, value, index).value;
    var key, here, tail := rest[0], stack + [rest[0]], rest[1..];
    if |rest| > 1 {
      match Lookup(node, key) {
        case None =>
          SetAtThenGetAt([], here, tail, value, index);
        case Some(Dict(next)) =>
          if index > 0 && IsListSection(here) {
            SetAtThenGetAt([], here, tail, value, index);
          } else {
            SetAtThenGetAt(next, here, tail, value, index);
          }
        case Some(List(li)) =>
          if index == |li| {
            SetAtThenGetAt([], here, tail, value, index);
          } else {
            SetAtThenGetAt(li[index].entries, here, tail, value, index);
            var sub := SetAt(li[index].entries, here, tail, value, index).value;
            assert (li[..index] + [Dict(sub)] + li[index + 1..])[index] == Dict(sub);
          }
        case Some(Str(_)) =>
          SetKeepsScalar(node, here, tail, value, index, key);
          SetAtThenGetAt(node, here, tail, value, index);
      }
    }
  }

  /** The same round trip for a whole dotted path. */
  lemma SetThenGet(dom: Entries, path: string, s: string, index: nat)
    requires RawSetSpec(dom, path, Str(s), index).Ok?
    ensures GetAt(RawSetSpec(dom, path, Str(s), index).value, Split(path, '.'), index) == Some(Str(s))
  {
    SetAtThenGetAt(dom, [], Split(path, '.'), Str(s), index);
  }

  /** Writing below a section that does not exist yet never fails: all missing
      sections are created. Hence `_raw_set` can only fail before it has
      created anything, and a failed `set` leaves the tree as it was. */
  lemma {:induction false} SetIntoFreshSucceeds(stack: seq<string>, rest: seq<string>, value: Value, index: nat)
    requires |rest| >= 1
    ensures SetAt([], stack, rest, value, index).Ok?
    decreases |rest|
  {
    if |rest| > 1 {
      SetIntoFreshSucceeds(stack + [rest[0]], rest[1..], value, index);
    }
  }

  /** A missing first key: the new section (or scalar) is appended and all
      others stay where they are. */
  lemma SetMissingKeyAppends(node: Entries, stack: seq<string>, rest: seq<string>, value: Value, index: nat)
    requires |rest| >= 1 && rest[0] !in Keys(node)
    ensures SetAt(node, stack, rest, value, index).Ok?
    ensures |SetAt(node, stack, rest, value, index).value| == |node| + 1
    ensures SetAt(node, stack, rest, value, index).value[..|node|] == node
  {
    if |rest| > 1 {
      SetIntoFreshSucceeds(stack + [rest[0]], rest[1..], value, index);
      var sub := SetAt([], stack + [rest[0]], rest[1..], value, index).value;
      assert (node + [(rest[0], Dict(sub))])[..|node|] == node;
    } else {
      assert (node + [(rest[0], value)])[..|node|] == node;
    }
  }

  /** Index 0 is never out of range. */
  lemma {:induction false} SetIndexZeroInRange(node: Entries, stack: seq<string>, rest: seq<string>, value: Value)
    requires |rest| >= 1
    ensures SetAt(node, stack, rest, value, 0) != Err(IndexOutOfRange)
    decreases |rest|
  {
    if |rest| > 1 {
      var here := stack + [rest[0]];
      match Lookup(node, rest[0]) {
        case None => SetIndexZeroInRange([], here, rest[1..], value);
        case Some(Dict(next)) => SetIndexZeroInRange(next, here, rest[1..], value);
        case Some(List(li)) =>
          if |li| == 0 {
            SetIndexZeroInRange([], here, rest[1..], value);
          } else if li[0].Dict? {
            SetIndexZeroInRange(li[0].entries, here, rest[1..], value);
          }
        case Some(Str(_)) => SetIndexZeroInRange(node, here, rest[1..], value);
      }
    }
  }

  /** Top-level keys that the path does not name are left alone. */
  lemma {:induction false} SetFrame(node: Entries, stack: seq<string>, rest: seq<string>, value: Value, index: nat, k: string)
    requires |rest| >= 1 && k !in rest
    requires SetAt(node, stack, rest, value, index).Ok?
    ensures Lookup(SetAt(node, stack, rest, value, index).value, k) == Lookup(node, k)
    decreases |rest|
  {
    if |rest| > 1 {
      match Lookup(node, rest[0]) {
        case Some(Str(_)) => SetFrame(node, stack + [rest[0]], rest[1..], value, index, k);
        case _ =>
      }
    }
  }

  /** Promotion: where `totem.interface` or `nodelist.node` holds one section,
      under any tree and for any remaining path, index 1 makes it
      `[old, new]` and writes the rest of the path into `new`, leaving every
      other key of the tree and of the parent section alone; index 2 or more
      is out of range. */
  lemma PromotionRule(dom: Entries, sec: string, key: string, p: Entries, lone: Entries, rest: seq<string>,
                      value: Value, index: nat)
    requires (sec, key) in ListSections && index >= 1 && |rest| >= 1
    requires Lookup(dom, sec) == Some(Dict(p)) && Lookup(p, key) == Some(Dict(lone))
    ensures var r := SetAt(dom, [], [sec, key] + rest, value, index);
            var made := SetAt([], [sec, key], rest, value, 1);
            && (index == 1 ==> made.Ok? && r == Ok(Put(dom, sec, Dict(Put(p, key, List([Dict(lone), Dict(made.value)]))))))
            && (index >= 2 ==> r == Err(IndexOutOfRange))
  {
    assert ([sec, key] + rest)[0] == sec && ([sec, key] + rest)[1..] == [key] + rest;
    assert ([key] + rest)[0] == key && ([key] + rest)[1..] == rest;
    assert [] + [sec] == [sec] && [sec] + [key] == [sec, key];
    assert IsListSection([sec, key]) && !IsListSection([sec]);
    var inner := SetAt(p, [sec], [key] + rest, value, index);
    if index == 1 {
      SetIntoFreshSucceeds([sec, key], rest, value, 1);
      var made := SetAt([], [sec, key], rest, value, 1).value;
      assert inner == Ok(Put(p, key, List([Dict(lone), Dict(made)])));
    } else {
      assert inner == Err(IndexOutOfRange);
    }
  }

  /** A section outside the two list-capable ones ignores the index. */
  lemma {:induction false} NonListSectionIgnoresIndex(node: Entries, stack: seq<string>, key: string, rest: seq<string>,
                                                      value: Value, index: nat)
    requires |rest| >= 1 && !IsListSection(stack + [key])
    requires Lookup(node, key).Some? && Lookup(node, key).value.Dict?
    ensures var next := Lookup(node, key).value.entries;
            var sub := SetAt(next, stack + [key], rest, value, index);
            SetAt(node, stack, [key] + rest, value, index)
              == (if sub.Ok? then Ok(Put(node, key, Dict(sub.value))) else Err(sub.error))
  {
    assert ([key] + rest)[1..] == rest;
  }

  /** On a list: index > len fails, index == len appends one new section
      (the existing elements stay in front of it). */
  lemma ListIndexRule(node: Entries, stack: seq<string>, key: string, rest: seq<string>, value: Value, index: nat)
    requires |rest| >= 1
    requires Lookup(node, key).Some? && Lookup(node, key).value.List?
    requires index >= |Lookup(node, key).value.items|
    ensures var li := Lookup(node, key).value.items;
            var r := SetAt(node, stack, [key] + rest, value, index);
            && (index > |li| ==> r == Err(IndexOutOfRange))
            && (index == |li| ==> r.Ok? && exists sub :: Lookup(r.value, key) == Some(List(li + [Dict(sub)])))
  {
    var li := Lookup(node, key).value.items;
    assert ([key] + rest)[1..] == rest;
    if index == |li| {
      SetIntoFreshSucceeds(stack + [key], rest, value, index);
      var sub := SetAt([], stack + [key], rest, value, index).value;
      assert Lookup(SetAt(node, stack, [key] + rest, value, index).value, key) == Some(List(li + [Dict(sub)]));
    }
  }

  /** On the last segment: an absent key or non-list value is overwritten; a
      list is written at the index, appended at index == len, and index > len fails. */
  lemma LeafRule(node: Entries, stack: seq<string>, key: string, value: Value, index: nat)
    ensures var r := SetAt(node, stack, [key], value, index);
            (Lookup(node, key).None? || !Lookup(node, key).value.List? ==> r == Ok(Put(node, key, value)))
            && (Lookup(node, key).Some? && Lookup(node, key).value.List? ==>
                  var li := Lookup(node, key).value.items;
                  (index > |li| ==> r == Err(IndexOutOfRange))
                  && (index == |li| ==> r == Ok(Put(node, key, List(li + [value]))))
                  && (index < |li| ==> r == Ok(Put(node, key, List(li[index := value])))))
  {
  }

  // ---------------------------------------------------------------------
  // get_all and remove

  lemma {:induction false} InGetAllIn(li: seq<Value>, j: nat, rest: seq<string>, v: Value)
    requires |rest| >= 1 && j < |li| && li[j].Dict? && v in GetAllAt(li[j].entries, rest)
    ensures v in GetAllIn(li, rest)
    decreases j
  {
    if j > 0 {
      InGetAllIn(li[1..], j - 1, rest, v);
    }
  }

  /** Whatever `get` finds at some index, `get_all` lists. */
  lemma {:induction false} GetInGetAll(node: Entries, rest: seq<string>, index: nat)
    requires |rest| >= 1 && GetAt(node, rest, index).Some?
    ensures GetAt(node, rest, index).value in GetAllAt(node, rest)
    decreases |rest|
  {
    if |rest| > 1 {
      match Lookup(node, rest[0]) {
        case Some(Dict(next)) => GetInGetAll(next, rest[1..], index);
        case Some(List(li)) =>
          GetInGetAll(li[index].entries, rest[1..], index);
          InGetAllIn(li, index, rest[1..], GetAt(node, rest, index).value);
        case Some(Str(_)) => GetInGetAll(node, rest[1..], index);
      }
    }
  }

  /** `remove` succeeds exactly where `get` finds something. */
  lemma {:induction false} RemoveIffFound(node: Entries, rest: seq<string>, index: nat)
    requires |rest| >= 1
    ensures RemoveAt(node, rest, index).Ok? <==> GetAt(node, rest, index).Some?
    decreases |rest|
  {
    if |rest| > 1 {
      match Lookup(node, rest[0]) {
        case None =>
        case Some(Dict(next)) => RemoveIffFound(next, rest[1..], index);
        case Some(List(li)) =>
          if index < |li| && li[index].Dict? {
            RemoveIffFound(li[index].entries, rest[1..], index);
          }
        case Some(Str(_)) => RemoveIffFound(node, rest[1..], index);
      }
    }
  }

  /** Removing a scalar of the top section: `get` finds nothing there any more. */
  lemma RemoveThenGet(node: Entries, key: string, index: nat)
    requires Lookup(node, key).Some? && !Lookup(node, key).value.List?
    ensures RemoveAt(node, [key], index).Ok?
    ensures GetAt(RemoveAt(node, [key], index).value, [key], index) == None
  {
  }

  // ---------------------------------------------------------------------
  // transform_dom_with_list_schema

  /** `sec.key` holds a list, nothing, or sits under a non-section. */
  predicate NormalAt(dom: Entries, sec: string, key: string) {
    !LoneAt(dom, sec, key)
  }

  lemma WrapOtherKeepsNormal(dom: Entries, sec: string, key: string, sec': string, key': string)
    requires sec != sec' && NormalAt(dom, sec, key)
    ensures NormalAt(WrapSection(dom, sec', key'), sec, key)
  {
  }

  /** After the normaliser both list-capable sections hold lists where present. */
  lemma NormalizedIsNormal(dom: Entries)
    ensures forall i :: 0 <= i < |ListSections| ==> NormalAt(Normalized(dom), ListSections[i].0, ListSections[i].1)
  {
    var d1 := WrapSection(dom, "totem", "interface");
    NormalizedUnfold(dom);
    WrapOtherKeepsNormal(d1, "totem", "interface", "nodelist", "node");
  }

  /** Applying the normaliser twice equals applying it once. */
  lemma NormalizeIdempotent(dom: Entries)
    ensures Normalized(Normalized(dom)) == Normalized(dom)
  {
    var n := Normalized(dom);
    NormalizedIsNormal(dom);
    assert NormalAt(n, "totem", "interface") && NormalAt(n, "nodelist", "node");
    NormalizedUnfold(n);
  }

  lemma NormalizedUnfold(dom: Entries)
    ensures Normalized(dom) == WrapSection(WrapSection(dom, "totem", "interface"), "nodelist", "node")
  {
    assert ListSections[..1] == [("totem", "interface")];
    assert ListSections[..1][..0] == [];
    assert WrapAll(dom, ListSections[..1]) == WrapSection(dom, "totem", "interface");
  }

  /** Wrapping under two different top-level sections gives the same tree in
      either order. */
  lemma WrapCommute(dom: Entries, s1: string, k1: string, s2: string, k2: string)
    requires s1 != s2
    ensures WrapSection(WrapSection(dom, s1, k1), s2, k2) == WrapSection(WrapSection(dom, s2, k2), s1, k1)
  {
    var a := WrapSection(dom, s1, k1);
    var b := WrapSection(dom, s2, k2);
    assert LoneAt(a, s2, k2) == LoneAt(dom, s2, k2);
    assert LoneAt(b, s1, k1) == LoneAt(dom, s1, k1);
    if LoneAt(dom, s1, k1) && LoneAt(dom, s2, k2) {
      var p1 := Lookup(dom, s1).value.entries;
      var p2 := Lookup(dom, s2).value.entries;
      assert a == Put(dom, s1, Dict(Put(p1, k1, List([Lookup(p1, k1).value]))));
      assert b == Put(dom, s2, Dict(Put(p2, k2, List([Lookup(p2, k2).value]))));
      PutCommute(dom, s1, Dict(Put(p1, k1, List([Lookup(p1, k1).value]))), s2, Dict(Put(p2, k2, List([Lookup(p2, k2).value]))));
    }
  }

  /** The source walks the list-capable paths as a set, in no fixed order.
      The normaliser's result does not depend on that order. */
  lemma NormalizeOrderFree(dom: Entries)
    ensures Normalized(dom) == WrapSection(WrapSection(dom, "nodelist", "node"), "totem", "interface")
  {
    NormalizedUnfold(dom);
    WrapCommute(dom, "totem", "interface", "nodelist", "node");
  }

  /** The normaliser touches no top-level key but `totem` and `nodelist`. */
  lemma NormalizeFrame(dom: Entries, k: string)
    requires k != "totem" && k != "nodelist"
    ensures Lookup(Normalized(dom), k) == Lookup(dom, k)
  {
    NormalizedUnfold(dom);
  }

  /** Within one list-capable section: a lone value is wrapped into a
      one-element list; a list, an absent key, or a non-section parent is left alone. */
  lemma NormalizeSection(dom: Entries, i: nat)
    requires i < |ListSections|
    ensures var (sec, key) := ListSections[i];
            && (!LoneAt(dom, sec, key) ==> Lookup(Normalized(dom), sec) == Lookup(dom, sec))
            && (LoneAt(dom, sec, key) ==>
                  var p := Lookup(dom, sec).value.entries;
                  Lookup(Normalized(dom), sec) == Some(Dict(Put(p, key, List([Lookup(p, key).value])))))
  {
    var d1 := WrapSection(dom, "totem", "interface");
    NormalizedUnfold(dom);
    assert LoneAt(d1, "nodelist", "node") == LoneAt(dom, "nodelist", "node");
  }
}
