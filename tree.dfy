/** The in-memory configuration tree of corosync.conf, as the parser hands it
    over: an ordered dictionary whose values are scalars, nested sections or
    lists of repeated sections. Python dictionaries keep insertion order, so a
    section is an ordered sequence of (key, value) pairs: assigning to an
    existing key keeps its position, a new key goes last, and `pop` removes it. */
module Tree {

  datatype Option<+T> = None | Some(value: T)

  datatype Result<+T, +E> = Ok(value: T) | Err(error: E) {
    predicate IsFailure() { Err? }
    function PropagateFailure<U>(): Result<U, E>
      requires Err?
    {
      Err(error)
    }
    function Extract(): T
      requires Ok?
    {
      value
    }
  }

  /** A slot of the tree: a scalar, a section, or a repeated section. */
  datatype Value = Str(s: string) | Dict(entries: seq<(string, Value)>) | List(items: seq<Value>)

  type Entries = seq<(string, Value)>

  /** The keys of a section. */
  function Keys(e: Entries): (ks: set<string>)
    ensures forall i :: 0 <= i < |e| ==> e[i].0 in ks
  {
    if |e| == 0 then {} else {e[0].0} + Keys(e[1..])
  }

  /** `node[key]`, or None when the key is absent (the first binding wins). */
  function Lookup(e: Entries, k: string): (r: Option<Value>)
    ensures r.None? <==> k !in Keys(e)
  {
    if |e| == 0 then None
    else if e[0].0 == k then Some(e[0].1)
    else Lookup(e[1..], k)
  }

  /** A key that no pair carries is absent. */
  lemma {:induction false} LookupAbsent(e: Entries, k: string)
    requires forall i :: 0 <= i < |e| ==> e[i].0 != k
    ensures Lookup(e, k) == None
  {
    if |e| > 0 {
      LookupAbsent(e[1..], k);
    }
  }

  /** `node[key] = v`: an existing key keeps its position, a new key is appended. */
  function Put(e: Entries, k: string, v: Value): (r: Entries)
    ensures Lookup(r, k) == Some(v)
    ensures forall k' :: k' != k ==> Lookup(r, k') == Lookup(e, k')
    ensures Keys(r) == Keys(e) + {k}
    ensures k !in Keys(e) ==> r == e + [(k, v)]
    ensures k in Keys(e) ==> |r| == |e| && forall i :: 0 <= i < |e| ==> r[i].0 == e[i].0
  {
    if |e| == 0 then [(k, v)]
    else if e[0].0 == k then [(k, v)] + e[1..]
    else [e[0]] + Put(e[1..], k, v)
  }

  /** `node.pop(key, None)` / `del node[key]`: the key disappears, nothing else moves. */
  function Delete(e: Entries, k: string): (r: Entries)
    ensures Lookup(r, k) == None
    ensures forall k' :: k' != k ==> Lookup(r, k') == Lookup(e, k')
    ensures Keys(r) == Keys(e) - {k}
    ensures k !in Keys(e) ==> r == e
    ensures |r| <= |e|
  {
    if |e| == 0 then []
    else if e[0].0 == k then Delete(e[1..], k)
    else [e[0]] + Delete(e[1..], k)
  }

  /** Python's `key in dict`. */
  predicate Has(e: Entries, k: string) {
    k in Keys(e)
  }

  /** A section read through a key: `d[k]` when it is a section, `None` when the
      key is absent, `Err` when the value is not a section. */
  function SectionAt(e: Entries, k: string): Result<Option<Entries>, ()>
  {
    match Lookup(e, k)
    case None => Ok(None)
    case Some(Dict(d)) => Ok(Some(d))
    case Some(_) => Err(())
  }

  /** Putting back the value that is already there changes nothing. */
  lemma {:induction false} PutSame(e: Entries, k: string)
    requires Lookup(e, k).Some?
    ensures Put(e, k, Lookup(e, k).value) == e
  {
    if e[0].0 != k {
      PutSame(e[1..], k);
    }
  }

  /** Two writes to the same key: the second one wins. */
  lemma {:induction false} PutPut(e: Entries, k: string, v: Value, w: Value)
    ensures Put(Put(e, k, v), k, w) == Put(e, k, w)
  {
    if |e| > 0 && e[0].0 != k {
      PutPut(e[1..], k, v, w);
    }
  }

  /** Writes to two different keys commute when both keys are already present. */
  lemma {:induction false} PutCommute(e: Entries, k1: string, v1: Value, k2: string, v2: Value)
    requires k1 != k2 && k1 in Keys(e) && k2 in Keys(e)
    ensures Put(Put(e, k1, v1), k2, v2) == Put(Put(e, k2, v2), k1, v1)
  {
    if e[0].0 != k1 && e[0].0 != k2 {
      PutCommute(e[1..], k1, v1, k2, v2);
    }
  }

  /** `d.get(k)` on a dictionary given as its (key, value) pairs. */
  function Find<K(==), V>(s: seq<(K, V)>, k: K): (r: Option<V>)
    ensures r.None? <==> forall i :: 0 <= i < |s| ==> s[i].0 != k
    ensures r.Some? ==> (k, r.value) in s
  {
    if |s| == 0 then None else if s[0].0 == k then Some(s[0].1) else Find(s[1..], k)
  }
}
