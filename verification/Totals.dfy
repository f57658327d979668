/** Sums of the values of a map, in any order of its keys. */
module Totals {
  import opened Collections

  ghost function Total<K(!new)>(m: map<K, nat>): nat
    decreases |m.Keys|
  {
    if m.Keys == {} then 0
    else
      var k :| k in m.Keys;
      assert (m - {k}).Keys == m.Keys - {k};
      m[k] + Total(m - {k})
  }

  lemma {:induction false} TotalSplit<K(!new)>(m: map<K, nat>, k: K)
    requires k in m
    ensures Total(m) == m[k] + Total(m - {k})
    decreases |m.Keys|
  {
    var first :| first in m.Keys && Total(m) == m[first] + Total(m - {first});
    if first != k {
      assert (m - {first}).Keys == m.Keys - {first};
      assert (m - {k}).Keys == m.Keys - {k};
      TotalSplit(m - {first}, k);
      TotalSplit(m - {k}, first);
      assert m - {first} - {k} == m - {k} - {first};
    }
  }

  lemma TotalUpdate<K(!new)>(m: map<K, nat>, k: K, v: nat)
    ensures Total(m[k := v]) == v + Total(m - {k})
  {
    TotalSplit(m[k := v], k);
    assert m[k := v] - {k} == m - {k};
  }

  lemma {:induction false} TotalBelow<K(!new)>(a: map<K, nat>, b: map<K, nat>)
    requires forall k :: k in a ==> k in b && a[k] <= b[k]
    ensures Total(a) <= Total(b)
    decreases |a.Keys|
  {
    if a.Keys != {} {
      var k :| k in a.Keys;
      TotalSplit(a, k);
      TotalSplit(b, k);
      assert (a - {k}).Keys == a.Keys - {k};
      TotalBelow(a - {k}, b - {k});
    }
  }

  /** Each value is one of the summands. */
  lemma TotalAtLeast<K(!new)>(m: map<K, nat>, k: K)
    requires k in m
    ensures m[k] <= Total(m)
  {
    TotalSplit(m, k);
  }

  function SumOver<K>(m: map<K, nat>, keys: seq<K>): nat
    requires forall k :: k in keys ==> k in m
  {
    if keys == [] then 0 else SumOver(m, keys[..|keys| - 1]) + m[keys[|keys| - 1]]
  }

  lemma SumOneMore<K(!new)>(m: map<K, nat>, keys: seq<K>, i: nat)
    requires (forall k :: k in keys ==> k in m) && i < |keys|
    ensures SumOver(m, keys[..i + 1]) == SumOver(m, keys[..i]) + m[keys[i]]
  {
    assert keys[..i + 1][..i] == keys[..i];
  }

  /** Adding up along any enumeration of the keys gives the total. */
  lemma {:induction false} SumIsTotal<K(!new)>(m: map<K, nat>, keys: seq<K>)
    requires Enumerates(keys, m.Keys)
    ensures SumOver(m, keys) == Total(m)
    decreases |keys|
  {
    if keys == [] {
      assert m.Keys == {};
    } else {
      var last := keys[|keys| - 1];
      EnumeratesPrefix(keys, m.Keys);
      assert (m - {last}).Keys == m.Keys - {last};
      SumIsTotal(m - {last}, keys[..|keys| - 1]);
      SumAgrees(m, m - {last}, keys[..|keys| - 1]);
      TotalSplit(m, last);
    }
  }

  lemma {:induction false} SumAgrees<K(!new)>(a: map<K, nat>, b: map<K, nat>, keys: seq<K>)
    requires forall k :: k in keys ==> k in a && k in b && a[k] == b[k]
    ensures SumOver(a, keys) == SumOver(b, keys)
    decreases |keys|
  {
    if keys != [] {
      SumAgrees(a, b, keys[..|keys| - 1]);
    }
  }
}
