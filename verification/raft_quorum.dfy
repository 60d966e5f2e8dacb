/** The element at position len/2 of the match indices in descending order is the largest
    index that a strict majority of the counted nodes matches. */
module RaftQuorum {
  import opened RaftNodeSpec

  function CountAtLeast(s: seq<nat>, x: nat): nat {
    if s == [] then 0 else (if s[0] >= x then 1 else 0) + CountAtLeast(s[1..], x)
  }

  predicate Descending(s: seq<nat>) {
    forall i, j | 0 <= i <= j < |s| :: s[i] >= s[j]
  }

  function InsertDescending(v: nat, s: seq<nat>): (r: seq<nat>)
    requires Descending(s)
    ensures Descending(r) && |r| == |s| + 1
    ensures r[0] == if s == [] || v >= s[0] then v else s[0]
  {
    if s == [] || v >= s[0] then [v] + s else [s[0]] + InsertDescending(v, s[1..])
  }

  /** The program sorts with the library's `sort_unstable_by`. */
  function SortDescending(s: seq<nat>): (r: seq<nat>)
    ensures Descending(r) && |r| == |s|
  {
    if s == [] then [] else InsertDescending(s[0], SortDescending(s[1..]))
  }

  lemma {:induction false} InsertCounts(v: nat, s: seq<nat>, x: nat)
    requires Descending(s)
    ensures CountAtLeast(InsertDescending(v, s), x) == CountAtLeast([v] + s, x)
  {
    if s == [] || v >= s[0] {
    } else {
      InsertCounts(v, s[1..], x);
      var r := InsertDescending(v, s[1..]);
      assert ([s[0]] + r)[1..] == r;
      assert ([v] + s[1..])[1..] == s[1..] && ([v] + s)[1..] == s;
    }
  }

  lemma {:induction false} SortCounts(s: seq<nat>, x: nat)
    ensures CountAtLeast(SortDescending(s), x) == CountAtLeast(s, x)
  {
    if s != [] {
      SortCounts(s[1..], x);
      InsertCounts(s[0], SortDescending(s[1..]), x);
      assert ([s[0]] + SortDescending(s[1..]))[1..] == SortDescending(s[1..]);
    }
  }

  lemma {:induction false} CountAppend(s: seq<nat>, v: nat, x: nat)
    ensures CountAtLeast(s + [v], x) == CountAtLeast(s, x) + (if v >= x then 1 else 0)
  {
    if s == [] {
      assert CountAtLeast([v][1..], x) == 0;
    } else {
      CountAppend(s[1..], v, x);
      assert (s + [v])[1..] == s[1..] + [v];
    }
  }

  /** In a descending sequence the elements that reach `x` come first. */
  lemma {:induction false} CountInDescending(s: seq<nat>, i: nat, x: nat)
    requires Descending(s) && i < |s|
    ensures x <= s[i] ==> CountAtLeast(s, x) >= i + 1
    ensures x > s[i] ==> CountAtLeast(s, x) <= i
  {
    if i > 0 {
      CountInDescending(s[1..], i - 1, x);
    } else {
      if s[0] < x {
        NoneAtLeast(s, x);
      }
    }
  }

  lemma {:induction false} NoneAtLeast(s: seq<nat>, x: nat)
    requires forall i | 0 <= i < |s| :: s[i] < x
    ensures CountAtLeast(s, x) == 0
  {
    if s != [] {
      NoneAtLeast(s[1..], x);
    }
  }

  ghost function Reaching(m: map<NodeId, nat>, keys: set<NodeId>, x: nat): set<NodeId> {
    set k | k in m && k in keys && m[k] >= x
  }

  /** `values` lists the values of `m`, one per key. */
  ghost predicate Lists(values: seq<nat>, m: map<NodeId, nat>, keys: set<NodeId>) {
    && keys <= m.Keys && |values| == |keys|
    && forall x: nat :: CountAtLeast(values, x) == |Reaching(m, keys, x)|
  }

  lemma ListsGrows(values: seq<nat>, m: map<NodeId, nat>, keys: set<NodeId>, k: NodeId)
    requires Lists(values, m, keys) && k in m && k !in keys
    ensures Lists(values + [m[k]], m, keys + {k})
  {
    forall x: nat ensures CountAtLeast(values + [m[k]], x) == |Reaching(m, keys + {k}, x)| {
      CountAppend(values, m[k], x);
      var before := Reaching(m, keys, x);
      assert Reaching(m, keys + {k}, x) == if m[k] >= x then before + {k} else before;
    }
  }

  lemma MedianIsQuorumMatch(values: seq<nat>, m: map<NodeId, nat>, own: nat)
    requires Lists(values, m, m.Keys)
    ensures |SortDescending(values + [own])| == |m| + 1
    ensures IsQuorumMatch(m, own, SortDescending(values + [own])[(|m| + 1) / 2])
  {
    var s := SortDescending(values + [own]);
    var h := (|m| + 1) / 2;
    forall x: nat
      ensures MatchCount(m, own, x) == CountAtLeast(s, x)
      ensures x <= s[h] ==> CountAtLeast(s, x) >= h + 1
      ensures x > s[h] ==> CountAtLeast(s, x) <= h
    {
      SortCounts(values + [own], x);
      CountAppend(values, own, x);
      assert (set k | k in m && m[k] >= x) == Reaching(m, m.Keys, x);
      CountInDescending(s, h, x);
    }
  }

  /** The loop of `record_append_success` over the values of `match_index`, its sort and its
      choice of the middle element. */
  method QuorumMatch(m: map<NodeId, nat>, own: nat) returns (q: nat)
    ensures IsQuorumMatch(m, own, q)
  {
    var values: seq<nat> := [];
    var rest := m.Keys;
    assert forall x: nat :: Reaching(m, m.Keys - rest, x) == {};
    while rest != {}
      invariant rest <= m.Keys && Lists(values, m, m.Keys - rest)
      decreases rest
    {
      var k :| k in rest;
      ListsGrows(values, m, m.Keys - rest, k);
      values := values + [m[k]];
      assert m.Keys - rest + {k} == m.Keys - (rest - {k});
      rest := rest - {k};
    }
    assert m.Keys - rest == m.Keys;
    MedianIsQuorumMatch(values, m, own);
    var sorted := SortDescending(values + [own]);
    q := sorted[|sorted| / 2];
  }
}
