/** What the collections of the model share: optional values and results, lists
    without duplicates, lists as sets and sets as lists. */
module Collections {
  datatype Option<T> = None | Some(value: T)
  datatype Result<T> = Ok(value: T) | Err

  ghost predicate NoDup<T>(s: seq<T>) {
    forall i, j :: 0 <= i < j < |s| ==> s[i] != s[j]
  }

  ghost predicate Enumerates<K(!new)>(keys: seq<K>, s: set<K>) {
    (forall k :: k in keys <==> k in s) && NoDup(keys)
  }

  lemma EnumeratesPrefix<K(!new)>(keys: seq<K>, s: set<K>)
    requires Enumerates(keys, s) && keys != []
    ensures Enumerates(keys[..|keys| - 1], s - {keys[|keys| - 1]})
  {
    var n := |keys| - 1;
    var init := keys[..n];
    forall k ensures k in init <==> k in s - {keys[n]} {
      if k in s - {keys[n]} {
        var i :| 0 <= i < |keys| && keys[i] == k;
        assert init[i] == k;
      }
    }
  }

  lemma {:induction false} EnumeratesSize<K(!new)>(keys: seq<K>, s: set<K>)
    requires Enumerates(keys, s)
    ensures |keys| == |s| && (|keys| == 1 ==> s == {keys[0]})
    decreases |keys|
  {
    if keys == [] {
      assert s == {};
    } else {
      var last := keys[|keys| - 1];
      EnumeratesPrefix(keys, s);
      EnumeratesSize(keys[..|keys| - 1], s - {last});
      assert last in keys;
    }
  }

  ghost function Elems<K>(keys: seq<K>): set<K> {
    set k | k in keys
  }

  /** Reading one more key of an enumeration. */
  lemma OneMore<K(!new)>(keys: seq<K>, s: set<K>, i: nat)
    requires Enumerates(keys, s) && i < |keys|
    ensures keys[i] in s && keys[i] !in Elems(keys[..i])
    ensures Elems(keys[..i + 1]) == Elems(keys[..i]) + {keys[i]}
    ensures keys[..i + 1][..i] == keys[..i]
  {
    assert keys[..i + 1] == keys[..i] + [keys[i]];
  }

  lemma AllRead<K(!new)>(keys: seq<K>, s: set<K>)
    requires Enumerates(keys, s)
    ensures keys[..|keys|] == keys && Elems(keys) == s
  {
  }

  /** The elements of a set in some order. */
  method AnyOrder<K(!new, ==)>(s: set<K>) returns (keys: seq<K>)
    ensures Enumerates(keys, s)
  {
    keys := [];
    var left := s;
    while left != {}
      invariant left <= s && Enumerates(keys, s - left)
      decreases left
    {
      var k :| k in left;
      assert forall x :: x in keys + [k] <==> x in keys || x == k;
      keys, left := keys + [k], left - {k};
    }
    assert s - left == s;
  }

  lemma SubsetSize<K(!new)>(a: set<K>, b: set<K>)
    requires a <= b
    ensures |a| <= |b|
    decreases |a|
  {
    if a != {} {
      var k :| k in a;
      SubsetSize(a - {k}, b - {k});
    }
  }

  lemma UpdateSize<K(!new), V>(m: map<K, V>, k: K, v: V)
    ensures |m[k := v]| == |m| + if k in m then 0 else 1
  {
    assert m[k := v].Keys == m.Keys + {k};
    assert |m| == |m.Keys| && |m[k := v]| == |m[k := v].Keys|;
    if k in m {
      assert m[k := v].Keys == m.Keys;
    }
  }

  lemma SameSize<T(!new)>(a: set<T>, b: set<T>)
    requires a <= b && |a| == |b|
    ensures a == b
  {
    if a != b {
      assert exists x :: x in b && x !in a;
      var x :| x in b && x !in a;
      SubsetSize(a, b - {x});
    }
  }
}
