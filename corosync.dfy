/** Two helpers of crmsh's corosync module that read the node list: the next
    free node id, and the number of links a node section shows. */
module Corosync {
  import opened Tree
  import opened Text

  /** `max(ids)`. */
  function Max(ids: seq<int>): (m: int)
    requires |ids| > 0
    ensures m in ids && forall k :: k in ids ==> k <= m
  {
    if |ids| == 1 then ids[0]
    else
      var rest := Max(ids[1..]);
      assert forall k :: k in ids ==> k == ids[0] || k in ids[1..];
      if ids[0] >= rest then ids[0] else rest
  }

  /** `get_free_nodeid()` on the node ids already in use: the smallest positive
      id not in use below `max(ids) + 1`, else `max(ids) + 1`; 1 when there are
      no ids. */
  method GetFreeNodeid(ids: seq<int>) returns (r: int)
    ensures r !in ids
    ensures forall k :: 1 <= k < r ==> k in ids
    ensures |ids| == 0 ==> r == 1
    ensures |ids| > 0 ==> r <= Max(ids) + 1
    ensures |ids| > 0 && Max(ids) <= 0 ==> r == Max(ids) + 1
    ensures r >= 1 <==> |ids| == 0 || Max(ids) >= 0
  {
    if |ids| == 0 {
      return 1;
    }
    var maxId := Max(ids) + 1;
    var i := 1;
    while i < maxId
      invariant 1 <= i && (i <= maxId || maxId < 1)
      invariant forall k :: 1 <= k < i ==> k in ids
    {
      if i !in ids {
        return i;
      }
      i := i + 1;
    }
    return maxId;
  }

  /** `re.search("ring[1-7]_addr", key)` matches at position j. */
  predicate RingPatternAt(key: string, j: nat) {
    j + 10 <= |key| && key[j..j + 4] == "ring" && '1' <= key[j + 4] <= '7' && key[j + 5..j + 10] == "_addr"
  }

  /** Whether `re.search("ring[1-7]_addr", key)` finds a match from position `from` on. */
  function SearchRingPattern(key: string, from: nat): (r: bool)
    ensures r <==> exists j :: from <= j && RingPatternAt(key, j)
    decreases |key| - from
  {
    if from + 10 > |key| then
      assert forall j :: from <= j ==> !RingPatternAt(key, j);
      false
    else RingPatternAt(key, from) || SearchRingPattern(key, from + 1)
  }

  /** Python truthiness of a value: a non-empty string, section or list. */
  predicate Truthy(v: Value) {
    match v
    case Str(s) => s != ""
    case Dict(e) => e != []
    case List(l) => l != []
  }

  /** An entry that `get_link_number` counts. */
  predicate LinkEntry(entry: (string, Value)) {
    SearchRingPattern(entry.0, 0) && Truthy(entry.1)
  }

  /** The number of entries of a node that `get_link_number` counts. */
  function CountLinkEntries(node: Entries): (n: nat)
    ensures n <= |node|
    ensures n == 0 <==> forall j :: 0 <= j < |node| ==> !LinkEntry(node[j])
  {
    if |node| == 0 then 0
    else CountLinkEntries(node[..|node| - 1]) + (if LinkEntry(node[|node| - 1]) then 1 else 0)
  }

  /** `get_link_number()` on the first node section: one link, plus one for each
      key naming `ring1_addr` to `ring7_addr` with a non-empty value. */
  method GetLinkNumber(node: Entries) returns (n: nat)
    ensures n == 1 + CountLinkEntries(node)
    ensures 1 <= n <= 1 + |node|
  {
    n := 1;
    for j := 0 to |node|
      invariant n == 1 + CountLinkEntries(node[..j])
    {
      assert node[..j + 1][..j] == node[..j];
      if SearchRingPattern(node[j].0, 0) && Truthy(node[j].1) {
        n := n + 1;
      }
    }
    assert node[..|node|] == node;
  }

  /** Each of the keys `ring1_addr` … `ring7_addr` is counted, and `ring0_addr` is not. */
  lemma RingKeyCounted(i: nat)
    ensures SearchRingPattern(RingKey(i), 0) <==> 1 <= i <= 7
  {
    var k := RingKey(i);
    if 1 <= i <= 7 {
      assert NatToString(i) == [DigitChar(i)];
      assert RingPatternAt(k, 0);
    } else if i == 0 {
      assert NatToString(i) == ['0'];
      assert |k| == 10;
      assert !RingPatternAt(k, 0);
    } else {
      // At position 0 "ring" is followed by 8, 9 or two digits; further on
      // there is no "ring" at all.
      assert !RingPatternAt(k, 0) by {
        assert k[4] == NatToString(i)[0];
        if i < 10 {
          assert NatToString(i) == [DigitChar(i)];
        } else {
          assert |NatToString(i)| >= 2 && k[5] == NatToString(i)[1];
        }
      }
      forall j | 0 < j
        ensures !RingPatternAt(k, j)
      {
        if RingPatternAt(k, j) {
          assert k[j..j + 4] == "ring";
          assert k[j + 4] != '_';
          RingKeyTail(i, j);
        }
      }
    }
  }

  /** Past position 0, `ring{i}_addr` holds "ring" only where the digits of i do. */
  lemma RingKeyTail(i: nat, j: nat)
    requires 0 < j && j + 10 <= |RingKey(i)|
    ensures RingKey(i)[j..j + 4] != "ring"
  {
    var k := RingKey(i);
    var d := NatToString(i);
    assert k == "ring" + d + "_addr";
    // k[j] lies in "ing" or among the digits.
    if j < 4 {
      assert k[j] != 'r';
    } else {
      assert k[j] == d[j - 4];
      assert IsDigit(k[j]);
    }
    assert k[j..j + 4][0] == k[j];
  }
}
