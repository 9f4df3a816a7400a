/** Path-addressed access to the configuration tree (`ConfParser` in
    crmsh/corosync.py): dotted paths with one index that selects among
    repeated sections, the promotion of a lone section to a list for the two
    list-capable sections, and the normaliser that wraps lone list-capable
    sections into one-element lists. */
module ConfParser {
  import opened Tree
  import opened Text

  /** The exceptions `_raw_set` raises: IndexError, and the TypeError Python
      raises when the walk reaches a list element that is not a section. */
  datatype SetError = IndexOutOfRange | NotASection

  /** What `set` and `remove` report to their callers. */
  datatype ConfError =
    | IndexOutOfRangeAt(index: nat, path: string)  // ValueError('Index … out of range at path …')
    | TypeMismatch                                 // the TypeError, which `set` does not catch
    | CannotFind(path: string, index: nat)         // ValueError('Cannot find value on path …')

  /** The sections that may be promoted to, and are normalised into, lists. */
  const ListSections: seq<(string, string)> := [("totem", "interface"), ("nodelist", "node")]

  predicate IsListSection(stack: seq<string>) {
    |stack| == 2 && (stack[0], stack[1]) in ListSections
  }

  // ---------------------------------------------------------------------
  // set

  /** The last path segment of `_raw_set`: a list is written at the index
      (appended at index == len), any other value is overwritten. */
  function SetLeaf(node: Entries, key: string, value: Value, index: nat): Result<Entries, SetError>
  {
    match Lookup(node, key)
    case Some(List(li)) =>
      if index > |li| then Err(IndexOutOfRange)
      else if index == |li| then Ok(Put(node, key, List(li + [value])))
      else Ok(Put(node, key, List(li[index := value])))
    case _ => Ok(Put(node, key, value))
  }

  /** What `_raw_set` does to the section `node`, reached through the keys
      `stack`, for the remaining path segments `rest`. */
  function SetAt(node: Entries, stack: seq<string>, rest: seq<string>, value: Value, index: nat): Result<Entries, SetError>
    requires |rest| >= 1
    decreases |rest|
  {
    if |rest| == 1 then SetLeaf(node, rest[0], value, index)
    else
      var key := rest[0];
      var here := stack + [key];
      match Lookup(node, key)
      case None =>
        var sub :- SetAt([], here, rest[1..], value, index);
        Ok(Put(node, key, Dict(sub)))
      case Some(Dict(next)) =>
        if index > 0 && IsListSection(here) then
          if index == 1 then
            var sub :- SetAt([], here, rest[1..], value, index);
            Ok(Put(node, key, List([Dict(next), Dict(sub)])))
          else Err(IndexOutOfRange)
        else
          var sub :- SetAt(next, here, rest[1..], value, index);
          Ok(Put(node, key, Dict(sub)))
      case Some(List(li)) =>
        if index > |li| then Err(IndexOutOfRange)
        else if index == |li| then
          var sub :- SetAt([], here, rest[1..], value, index);
          Ok(Put(node, key, List(li + [Dict(sub)])))
        else if li[index].Dict? then
          var sub :- SetAt(li[index].entries, here, rest[1..], value, index);
          Ok(Put(node, key, List(li[..index] + [Dict(sub)] + li[index + 1..])))
        else Err(NotASection)
      case Some(Str(_)) =>
        // neither arm of the match fires: the walk stays at this section
        SetAt(node, here, rest[1..], value, index)
  }

  function RawSetSpec(dom: Entries, path: string, value: Value, index: nat): Result<Entries, SetError>
  {
    SetAt(dom, [], Split(path, '.'), value, index)
  }

  /** Where the walk of `_raw_set` descended: the section it left, the key it
      followed, and whether the child sits directly under the key or inside a
      list between `before` and `after`. */
  datatype Hole = InDict | InList(before: seq<Value>, after: seq<Value>)
  datatype Frame = Frame(parent: Entries, key: string, hole: Hole)

  function Fill(f: Frame, sub: Entries): Entries {
    match f.hole
    case InDict => Put(f.parent, f.key, Dict(sub))
    case InList(before, after) => Put(f.parent, f.key, List(before + [Dict(sub)] + after))
  }

  /** The whole tree, once the innermost section of the walk reads `sub`. */
  function Plug(frames: seq<Frame>, sub: Entries): Entries
    decreases |frames|
  {
    if |frames| == 0 then sub else Plug(frames[..|frames| - 1], Fill(frames[|frames| - 1], sub))
  }

  function Lift(frames: seq<Frame>, r: Result<Entries, SetError>): Result<Entries, SetError> {
    match r
    case Ok(sub) => Ok(Plug(frames, sub))
    case Err(e) => Err(e)
  }

  lemma PlugSnoc(frames: seq<Frame>, f: Frame, r: Result<Entries, SetError>)
    ensures Lift(frames + [f], r) == Lift(frames, match r case Ok(sub) => Ok(Fill(f, sub)) case Err(e) => Err(e))
  {
    assert (frames + [f])[..|frames|] == frames;
  }

  /** The walk of `_raw_set` leaves `node` through `key`, into `child`, and
      `f` records where `child` is plugged back; `listSection` says whether
      the path so far names a section that may be promoted to a list. */
  predicate Descends(node: Entries, key: string, listSection: bool, index: nat, f: Frame, child: Entries) {
    f.parent == node && f.key == key &&
    match Lookup(node, key)
    case None => f.hole == InDict && child == []
    case Some(Dict(next)) =>
      if index > 0 && listSection then index == 1 && f.hole == InList([Dict(next)], []) && child == []
      else f.hole == InDict && child == next
    case Some(List(li)) =>
      if index == |li| then f.hole == InList(li, []) && child == []
      else index < |li| && li[index] == Dict(child) && f.hole == InList(li[..index], li[index + 1..])
    case Some(Str(_)) => false
  }

  /** One step of the walk of `_raw_set` preserves what the whole call computes:
      the walk may descend into a child (pushing a frame), stay, or fail. */
  lemma StepDescend(frames: seq<Frame>, node: Entries, stack: seq<string>, rest: seq<string>,
                    value: Value, index: nat, f: Frame, child: Entries)
    requires |rest| >= 2 && Descends(node, rest[0], IsListSection(stack + [rest[0]]), index, f, child)
    ensures Lift(frames, SetAt(node, stack, rest, value, index))
         == Lift(frames + [f], SetAt(child, stack + [rest[0]], rest[1..], value, index))
  {
    var r := SetAt(child, stack + [rest[0]], rest[1..], value, index);
    PlugSnoc(frames, f, r);
    StepFill(node, stack, rest, value, index, f, child);
  }

  /** The step of the walk, on the section it leaves: what the rest of the
      walk computes below `child`, plugged back into `node` through `f`. */
  lemma StepFill(node: Entries, stack: seq<string>, rest: seq<string>, value: Value, index: nat, f: Frame, child: Entries)
    requires |rest| >= 2 && Descends(node, rest[0], IsListSection(stack + [rest[0]]), index, f, child)
    ensures SetAt(node, stack, rest, value, index) ==
      match SetAt(child, stack + [rest[0]], rest[1..], value, index)
      case Ok(sub) => Ok(Fill(f, sub))
      case Err(e) => Err(e)
  {
    match Lookup(node, rest[0]) {
      case None =>
      case Some(Dict(next)) =>
        forall sub: Entries ensures [Dict(next)] + [Dict(sub)] + [] == [Dict(next), Dict(sub)] { }
      case Some(List(li)) =>
        forall sub: Entries ensures li + [Dict(sub)] + [] == li + [Dict(sub)] { }
    }
  }

  // ---------------------------------------------------------------------
  // get, get_all, remove: an addressing consistent with `_raw_set`

  /** The value at `rest` below `node`: a section descends, a list is
      indexed, a scalar is stepped over as `_raw_set` does. */
  function GetAt(node: Entries, rest: seq<string>, index: nat): Option<Value>
    requires |rest| >= 1
    decreases |rest|
  {
    var key := rest[0];
    if |rest| == 1 then
      match Lookup(node, key)
      case None => None
      case Some(List(li)) => if index < |li| then Some(li[index]) else None
      case Some(v) => Some(v)
    else
      match Lookup(node, key)
      case None => None
      case Some(Dict(next)) => GetAt(next, rest[1..], index)
      case Some(List(li)) =>
        if index < |li| && li[index].Dict? then GetAt(li[index].entries, rest[1..], index) else None
      case Some(Str(_)) => GetAt(node, rest[1..], index)
  }

  /** Every value at `rest` below `node`, through every element of every list. */
  function GetAllAt(node: Entries, rest: seq<string>): seq<Value>
    requires |rest| >= 1
    decreases |rest|, 0, 0
  {
    var key := rest[0];
    if |rest| == 1 then
      match Lookup(node, key)
      case None => []
      case Some(List(li)) => li
      case Some(v) => [v]
    else
      match Lookup(node, key)
      case None => []
      case Some(Dict(next)) => GetAllAt(next, rest[1..])
      case Some(List(li)) => GetAllIn(li, rest[1..])
      case Some(Str(_)) => GetAllAt(node, rest[1..])
  }

  function GetAllIn(li: seq<Value>, rest: seq<string>): seq<Value>
    requires |rest| >= 1
    decreases |rest|, 1, |li|
  {
    if |li| == 0 then []
    else (if li[0].Dict? then GetAllAt(li[0].entries, rest) else []) + GetAllIn(li[1..], rest)
  }

  /** Removes the value at `rest`: a list element at the index, any other value
      by its key; `Err` where the path does not lead to a value. */
  function RemoveAt(node: Entries, rest: seq<string>, index: nat): Result<Entries, ()>
    requires |rest| >= 1
    decreases |rest|
  {
    var key := rest[0];
    if |rest| == 1 then
      match Lookup(node, key)
      case None => Err(())
      case Some(List(li)) =>
        if index < |li| then Ok(Put(node, key, List(li[..index] + li[index + 1..]))) else Err(())
      case Some(_) => Ok(Delete(node, key))
    else
      match Lookup(node, key)
      case None => Err(())
      case Some(Dict(next)) =>
        var sub :- RemoveAt(next, rest[1..], index);
        Ok(Put(node, key, Dict(sub)))
      case Some(List(li)) =>
        if index < |li| && li[index].Dict? then
          var sub :- RemoveAt(li[index].entries, rest[1..], index);
          Ok(Put(node, key, List(li[..index] + [Dict(sub)] + li[index + 1..])))
        else Err(())
      case Some(Str(_)) => RemoveAt(node, rest[1..], index)
  }

  // ---------------------------------------------------------------------
  // the parser object

  class ConfParser {
    var dom: Entries

    /** A parser over an already parsed tree (the text parser is not modelled). */
    constructor (dom: Entries)
      ensures this.dom == dom
    {
      this.dom := dom;
    }

    /** `get`: None wherever the lookup fails. */
    function Get(path: string, index: nat): (r: Option<Value>)
      reads this
      ensures Lookup(dom, Split(path, '.')[0]).None? ==> r.None?
      ensures Split(path, '.') == [path] ==>
        r == match Lookup(dom, path)
             case None => None
             case Some(List(li)) => if index < |li| then Some(li[index]) else None
             case Some(v) => Some(v)
    {
      GetAt(dom, Split(path, '.'), index)
    }

    /** `get_all`: the empty list where the path is absent. */
    function GetAll(path: string): (r: seq<Value>)
      reads this
      ensures Lookup(dom, Split(path, '.')[0]).None? ==> r == []
      ensures Split(path, '.') == [path] ==>
        r == match Lookup(dom, path)
             case None => []
             case Some(List(li)) => li
             case Some(v) => [v]
    {
      GetAllAt(dom, Split(path, '.'))
    }

    /** `_raw_set`: walks all segments but the last, creating missing sections,
        promoting a lone list-capable section at index 1, appending to a list at
        index == len; then writes the last segment. */
    method RawSet(path: string, value: Value, index: nat) returns (err: Option<SetError>)
      modifies this
      ensures RawSetSpec(old(dom), path, value, index).Ok? ==>
                err == None && dom == RawSetSpec(old(dom), path, value, index).value
      ensures RawSetSpec(old(dom), path, value, index).Err? ==>
                err == Some(RawSetSpec(old(dom), path, value, index).error) && dom == old(dom)
    {
      var keys := Split(path, '.');
      var node := dom;
      var frames: seq<Frame> := [];
      var i := 0;
      while i < |keys| - 1
        invariant 0 <= i <= |keys| - 1
        invariant dom == old(dom)
        invariant RawSetSpec(dom, path, value, index) == Lift(frames, SetAt(node, keys[..i], keys[i..], value, index))
      {
        assert keys[i..][1..] == keys[i + 1..] && keys[..i] + [keys[i]] == keys[..i + 1] && keys[i..][0] == keys[i];
        var step := Descend(node, keys[..i], keys[i..], value, index);
        match step {
          case Err(e) => return Some(e);
          case Ok(None) =>
          case Ok(Some((f, child))) =>
            StepDescend(frames, node, keys[..i], keys[i..], value, index, f, child);
            frames, node := frames + [f], child;
        }
        i := i + 1;
      }
      assert keys[i..] == [keys[|keys| - 1]];
      var leaf := WriteLeaf(node, keys[|keys| - 1], value, index);
      match leaf {
        case Err(e) => return Some(e);
        case Ok(sub) =>
          dom := Plug(frames, sub);
          err := None;
      }
    }

    /** One iteration of the walk of `_raw_set` over the segment `rest[0]`:
        descend into a child section (creating or promoting one where the
        source does), stay at a section whose entry is a string, or fail. */
    static method Descend(node: Entries, stack: seq<string>, rest: seq<string>, value: Value, index: nat)
      returns (r: Result<Option<(Frame, Entries)>, SetError>)
      requires |rest| >= 2
      ensures r.Ok? && r.value.Some? ==> Descends(node, rest[0], IsListSection(stack + [rest[0]]), index, r.value.value.0, r.value.value.1)
      ensures r.Ok? && r.value.None? ==>
        SetAt(node, stack, rest, value, index) == SetAt(node, stack + [rest[0]], rest[1..], value, index)
      ensures r.Err? ==> SetAt(node, stack, rest, value, index) == Err(r.error)
    {
      var key := rest[0];
      var here := stack + [key];
      match Lookup(node, key) {
        case None =>
          r := Ok(Some((Frame(node, key, InDict), [])));
        case Some(Dict(next)) =>
          if index > 0 && IsListSection(here) {
            if index == 1 {
              r := Ok(Some((Frame(node, key, InList([Dict(next)], [])), [])));
            } else {
              r := Err(IndexOutOfRange);
            }
          } else {
            r := Ok(Some((Frame(node, key, InDict), next)));
          }
        case Some(List(li)) =>
          if index > |li| {
            r := Err(IndexOutOfRange);
          } else if index == |li| {
            r := Ok(Some((Frame(node, key, InList(li, [])), [])));
          } else {
            match li[index] {
              case Dict(e) =>
                r := Ok(Some((Frame(node, key, InList(li[..index], li[index + 1..])), e)));
              case _ =>
                r := Err(NotASection);
            }
          }
        case Some(Str(_)) =>
          r := Ok(None);
      }
    }

    /** The last segment of `_raw_set`, written into the section the walk
        reached. */
    static method WriteLeaf(node: Entries, key: string, value: Value, index: nat) returns (r: Result<Entries, SetError>)
      ensures r == SetLeaf(node, key, value, index)
    {
      match Lookup(node, key) {
        case Some(List(li)) =>
          if index > |li| {
            return Err(IndexOutOfRange);
          } else if index == |li| {
            r := Ok(Put(node, key, List(li + [value])));
          } else {
            r := Ok(Put(node, key, List(li[index := value])));
          }
        case _ =>
          r := Ok(Put(node, key, value));
      }
    }

    /** `set`: `_raw_set` with its IndexError turned into a ValueError naming the
        index and the path. `_raw_set` raises no KeyError, so the "Invalid path"
        branch of `set` is never taken; the TypeError passes through. */
    method Set(path: string, value: Value, index: nat) returns (err: Option<ConfError>)
      modifies this
      ensures RawSetSpec(old(dom), path, value, index).Ok? ==>
                err == None && dom == RawSetSpec(old(dom), path, value, index).value
      ensures RawSetSpec(old(dom), path, value, index) == Err(IndexOutOfRange) ==>
                err == Some(IndexOutOfRangeAt(index, path)) && dom == old(dom)
      ensures RawSetSpec(old(dom), path, value, index) == Err(NotASection) ==>
                err == Some(TypeMismatch) && dom == old(dom)
    {
      var e := RawSet(path, value, index);
      match e {
        case None => err := None;
        case Some(IndexOutOfRange) => err := Some(IndexOutOfRangeAt(index, path));
        case Some(NotASection) => err := Some(TypeMismatch);
      }
    }

    /** `remove`: a failed lookup becomes a ValueError naming path and index. */
    method Remove(path: string, index: nat) returns (err: Option<ConfError>)
      modifies this
      ensures RemoveAt(old(dom), Split(path, '.'), index).Ok? ==>
                err == None && dom == RemoveAt(old(dom), Split(path, '.'), index).value
      ensures RemoveAt(old(dom), Split(path, '.'), index).Err? ==>
                err == Some(CannotFind(path, index)) && dom == old(dom)
    {
      var r := RemoveAt(dom, Split(path, '.'), index);
      match r {
        case Ok(d) => dom := d; err := None;
        case Err(_) => err := Some(CannotFind(path, index));
      }
    }
  }

  // ---------------------------------------------------------------------
  // transform_dom_with_list_schema

  /** The list-capable section `sec.key` holds a lone value (not a list). */
  predicate LoneAt(dom: Entries, sec: string, key: string) {
    && Lookup(dom, sec).Some? && Lookup(dom, sec).value.Dict?
    && Lookup(Lookup(dom, sec).value.entries, key).Some?
    && !Lookup(Lookup(dom, sec).value.entries, key).value.List?
  }

  /** One step of the normaliser: a lone value at `sec.key` becomes a
      one-element list; everything else, and every other key, is unchanged. */
  function WrapSection(dom: Entries, sec: string, key: string): (r: Entries)
    ensures !LoneAt(dom, sec, key) ==> r == dom
    ensures LoneAt(dom, sec, key) ==>
              var p := Lookup(dom, sec).value.entries;
              Lookup(r, sec) == Some(Dict(Put(p, key, List([Lookup(p, key).value]))))
    ensures forall k :: k != sec ==> Lookup(r, k) == Lookup(dom, k)
    ensures !LoneAt(r, sec, key)
  {
    match Lookup(dom, sec)
    case Some(Dict(p)) =>
      (match Lookup(p, key)
       case Some(v) => if v.List? then dom else Put(dom, sec, Dict(Put(p, key, List([v]))))
       case None => dom)
    case _ => dom
  }

  function WrapAll(dom: Entries, items: seq<(string, string)>): Entries
    decreases |items|
  {
    if |items| == 0 then dom
    else WrapSection(WrapAll(dom, items[..|items| - 1]), items[|items| - 1].0, items[|items| - 1].1)
  }

  function Normalized(dom: Entries): Entries {
    WrapAll(dom, ListSections)
  }

  /** `transform_dom_with_list_schema`: one pass over the list-capable sections.
      The source iterates a set of paths, whose order may vary between runs;
      the two paths have different top-level sections, so the result is the
      same in either order (ConfParserProps.NormalizeOrderFree). */
  method TransformDomWithListSchema(dom: Entries) returns (r: Entries)
    ensures r == Normalized(dom)
  {
    r := dom;
    var items := ListSections;
    for i := 0 to |items|
      invariant r == WrapAll(dom, items[..i])
    {
      assert items[..i + 1][..i] == items[..i];
      r := WrapSection(r, items[i].0, items[i].1);
    }
    assert items[..|items|] == items;
  }
}
