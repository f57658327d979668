/** Maps of versioned records under merging: below the cap a merge is the join
    of two maps, and any number of merges in any order gives the best record
    seen of every key. */
module RankMaps {
  import opened Collections
  import opened Registers
  import opened MeshModel

  /** Adopts the offered records along `keys`, as a merge reads them. */
  function AdoptAll<K>(held: map<K, Record>, offered: map<K, Record>, keys: seq<K>, cap: nat): map<K, Record>
    decreases |keys|
  {
    if keys == [] then held
    else
      var h := AdoptAll(held, offered, keys[..|keys| - 1], cap);
      var last := keys[|keys| - 1];
      if last in offered then Adopt(h, last, offered[last], cap) else h
  }

  ghost predicate AtLeast(a: Record, b: Record) {
    a == b || Outranks(a, b)
  }

  lemma AtLeastOrder()
    ensures forall a, b :: AtLeast(a, b) <==> !Outranks(b, a)
    ensures forall a, b :: AtLeast(a, b) && AtLeast(b, a) ==> a == b
    ensures forall a, b, c :: AtLeast(a, b) && AtLeast(b, c) ==> AtLeast(a, c)
  {
    RecordsRanked();
    hide Outranks;
  }

  /** Every held key stays, under a record at least as high. */
  ghost predicate Grown<K(!new)>(before: map<K, Record>, after: map<K, Record>) {
    forall k :: k in before ==> k in after && AtLeast(after[k], before[k])
  }

  /** Every record is the one held or the one offered. */
  ghost predicate Sourced<K(!new)>(held: map<K, Record>, offered: map<K, Record>, after: map<K, Record>) {
    forall k :: k in after ==> (k in held && after[k] == held[k]) || (k in offered && after[k] == offered[k])
  }

  /** No offered record of `keys` would be adopted any more. */
  ghost predicate Absorbed<K(!new)>(offered: map<K, Record>, keys: set<K>, after: map<K, Record>, cap: nat) {
    forall k :: k in keys && k in offered ==> !ShouldAdopt(after, k, offered[k], cap)
  }

  lemma AdoptGrows<K(!new)>(held: map<K, Record>, k: K, rec: Record, cap: nat)
    ensures Grown(held, Adopt(held, k, rec, cap))
    ensures |held| <= |Adopt(held, k, rec, cap)|
    ensures !ShouldAdopt(Adopt(held, k, rec, cap), k, rec, cap)
  {
    RecordsRanked();
    hide Outranks;
    UpdateSize(held, k, rec);
  }

  lemma GrownTransitive<K(!new)>(a: map<K, Record>, b: map<K, Record>, c: map<K, Record>)
    requires Grown(a, b) && Grown(b, c)
    ensures Grown(a, c)
  {
    AtLeastOrder();
    hide AtLeast;
  }

  /** A record that is not wanted stays unwanted as the map grows. */
  lemma StaysUnwanted<K(!new)>(a: map<K, Record>, b: map<K, Record>, k: K, rec: Record, cap: nat)
    requires Grown(a, b) && |a| <= |b| && !ShouldAdopt(a, k, rec, cap)
    ensures !ShouldAdopt(b, k, rec, cap) || (k !in a && k in b)
  {
    AtLeastOrder();
    hide Outranks, AtLeast;
  }

  lemma {:induction false} AdoptAllGrows<K(!new)>(held: map<K, Record>, offered: map<K, Record>, keys: seq<K>, cap: nat)
    ensures Grown(held, AdoptAll(held, offered, keys, cap))
    ensures |held| <= |AdoptAll(held, offered, keys, cap)|
    ensures Sourced(held, offered, AdoptAll(held, offered, keys, cap))
    decreases |keys|
  {
    hide Grown, ShouldAdopt;
    if keys == [] {
      GrownReflexive(held);
    } else {
      var last := keys[|keys| - 1];
      var h := AdoptAll(held, offered, keys[..|keys| - 1], cap);
      AdoptAllGrows(held, offered, keys[..|keys| - 1], cap);
      if last in offered {
        AdoptGrows(h, last, offered[last], cap);
        GrownTransitive(held, h, AdoptAll(held, offered, keys, cap));
      }
    }
  }

  lemma GrownReflexive<K(!new)>(m: map<K, Record>)
    ensures Grown(m, m)
  {
  }

  /** After adopting along distinct keys, nothing offered is wanted any more. */
  lemma {:induction false} AdoptAllAbsorbs<K(!new)>(held: map<K, Record>, offered: map<K, Record>, keys: seq<K>,
                                                    s: set<K>, cap: nat)
    requires Enumerates(keys, s)
    ensures Absorbed(offered, s, AdoptAll(held, offered, keys, cap), cap)
    decreases |keys|
  {
    if keys == [] {
    } else {
      var n := |keys| - 1;
      EnumeratesPrefix(keys, s);
      AdoptAllAbsorbs(held, offered, keys[..n], s - {keys[n]}, cap);
      AbsorbOne(AdoptAll(held, offered, keys[..n], cap), offered, keys[n], s, cap);
    }
  }

  lemma AbsorbOne<K(!new)>(h: map<K, Record>, offered: map<K, Record>, last: K, s: set<K>, cap: nat)
    requires Absorbed(offered, s - {last}, h, cap)
    ensures Absorbed(offered, s, if last in offered then Adopt(h, last, offered[last], cap) else h, cap)
  {
    if last in offered {
      var after := Adopt(h, last, offered[last], cap);
      AdoptGrows(h, last, offered[last], cap);
      forall k | k in s && k in offered ensures !ShouldAdopt(after, k, offered[k], cap) {
        if k != last {
          assert k in s - {last};
          StaysUnwanted(h, after, k, offered[k], cap);
        }
      }
    }
  }

  /** Nothing changes when no offered record is wanted. */
  lemma {:induction false} AbsorbedUnchanged<K(!new)>(held: map<K, Record>, offered: map<K, Record>, keys: seq<K>,
                                                      s: set<K>, cap: nat)
    requires Absorbed(offered, s, held, cap) && forall k :: k in keys ==> k in s
    ensures AdoptAll(held, offered, keys, cap) == held
    decreases |keys|
  {
    if keys != [] {
      AbsorbedUnchanged(held, offered, keys[..|keys| - 1], s, cap);
    }
  }

  // The join.

  function Best(a: Record, b: Record): Record {
    if Outranks(b, a) then b else a
  }

  /** The higher record of every key. */
  function Join<K>(a: map<K, Record>, b: map<K, Record>): map<K, Record> {
    map k | k in a.Keys + b.Keys ::
      if k !in a then b[k] else if k !in b then a[k] else Best(a[k], b[k])
  }

  lemma BestAbove(a: Record, b: Record)
    ensures AtLeast(Best(a, b), a) && AtLeast(Best(a, b), b)
    ensures Best(a, b) == a || Best(a, b) == b
    ensures Best(a, b) == Best(b, a)
  {
    RecordsRanked();
    hide Outranks;
  }

  lemma BestAssociative(a: Record, b: Record, c: Record)
    ensures Best(Best(a, b), c) == Best(a, Best(b, c))
  {
    BestAbove(a, b);
    BestAbove(b, c);
    BestAbove(Best(a, b), c);
    BestAbove(a, Best(b, c));
    AtLeastOrder();
    hide Best, AtLeast;
    var l, r := Best(Best(a, b), c), Best(a, Best(b, c));
    assert AtLeast(l, r) && AtLeast(r, l);
  }

  lemma BestAlgebra()
    ensures forall a, b :: Best(a, b) == Best(b, a)
    ensures forall a, b, c :: Best(Best(a, b), c) == Best(a, Best(b, c))
    ensures forall a :: Best(a, a) == a
  {
    hide Best, AtLeast;
    forall a, b ensures Best(a, b) == Best(b, a) { BestAbove(a, b); }
    forall a, b, c ensures Best(Best(a, b), c) == Best(a, Best(b, c)) { BestAssociative(a, b, c); }
    forall a ensures Best(a, a) == a { BestAbove(a, a); }
  }

  lemma JoinAlgebra<K(!new)>(a: map<K, Record>, b: map<K, Record>, c: map<K, Record>)
    ensures Join(a, b) == Join(b, a)
    ensures Join(Join(a, b), c) == Join(a, Join(b, c))
    ensures Join(a, a) == a
  {
    BestAlgebra();
    hide Best;
    assert Join(a, b).Keys == Join(b, a).Keys;
    assert Join(Join(a, b), c).Keys == Join(a, Join(b, c)).Keys;
    assert Join(a, a).Keys == a.Keys;
  }

  /** `best` holds, of every key held or offered, the highest record seen. */
  ghost predicate IsBest<K(!new)>(best: map<K, Record>, held: map<K, Record>, offers: set<map<K, Record>>) {
    && (forall k :: k in held ==> k in best && AtLeast(best[k], held[k]))
    && (forall o, k :: o in offers && k in o ==> k in best && AtLeast(best[k], o[k]))
    && (forall k :: k in best ==>
          (k in held && best[k] == held[k]) || exists o :: o in offers && k in o && best[k] == o[k])
  }

  lemma BestUnique<K(!new)>(a: map<K, Record>, b: map<K, Record>, held: map<K, Record>, offers: set<map<K, Record>>)
    requires IsBest(a, held, offers) && IsBest(b, held, offers)
    ensures a == b
  {
    hide *;
    BestBelow(a, b, held, offers);
    BestBelow(b, a, held, offers);
    AtLeastOrder();
    assert forall k :: k in a.Keys <==> k in b.Keys;
    SameMap(a, b);
  }

  lemma BestBelow<K(!new)>(a: map<K, Record>, b: map<K, Record>, held: map<K, Record>, offers: set<map<K, Record>>)
    requires IsBest(a, held, offers) && IsBest(b, held, offers)
    ensures forall k :: k in a ==> k in b && AtLeast(b[k], a[k])
  {
    hide AtLeast;
  }

  /** Adopting one more offer with room for all its keys. */
  lemma AdoptedIsJoin<K(!new)>(held: map<K, Record>, offered: map<K, Record>, keys: seq<K>, s: set<K>, cap: nat)
    requires Enumerates(keys, s) && offered.Keys <= s && |held.Keys + offered.Keys| <= cap
    ensures AdoptAll(held, offered, keys, cap) == Join(held, offered)
  {
    var after := AdoptAll(held, offered, keys, cap);
    AdoptAllGrows(held, offered, keys, cap);
    AdoptAllAbsorbs(held, offered, keys, s, cap);
    RoomLeft(held, offered, after, cap);
    forall k | k in offered ensures k in after && AtLeast(after[k], offered[k]) {
      assert !ShouldAdopt(after, k, offered[k], cap);
      AtLeastOrder();
      hide Outranks, AtLeast;
    }
    JoinIs(held, offered, after);
  }

  /** A map below the cap on the union of the keys has room for a new one. */
  lemma RoomLeft<K(!new)>(held: map<K, Record>, offered: map<K, Record>, after: map<K, Record>, cap: nat)
    requires Sourced(held, offered, after) && |held.Keys + offered.Keys| <= cap
    ensures forall k :: k in offered && k !in after ==> |after| < cap
  {
    var all := held.Keys + offered.Keys;
    forall k | k in offered && k !in after ensures |after| < cap {
      assert after.Keys <= all - {k};
      SubsetSize(after.Keys, all - {k});
      assert |after| == |after.Keys|;
    }
  }

  lemma JoinIs<K(!new)>(held: map<K, Record>, offered: map<K, Record>, after: map<K, Record>)
    requires Grown(held, after) && Sourced(held, offered, after)
    requires forall k :: k in offered ==> k in after && AtLeast(after[k], offered[k])
    ensures after == Join(held, offered)
  {
    AtLeastOrder();
    RecordsRanked();
    hide Outranks;
    var j := Join(held, offered);
    assert after.Keys == j.Keys;
    assert forall k :: k in j.Keys ==> after[k] == j[k];
    SameMap(after, j);
  }

  lemma BestNone<K(!new)>(held: map<K, Record>)
    ensures IsBest(held, held, {})
  {
  }

  lemma JoinAt<K(!new)>(a: map<K, Record>, b: map<K, Record>, k: K)
    ensures k in a ==> k in Join(a, b) && AtLeast(Join(a, b)[k], a[k])
    ensures k in b ==> k in Join(a, b) && AtLeast(Join(a, b)[k], b[k])
    ensures k in Join(a, b) ==> (k in a && Join(a, b)[k] == a[k]) || (k in b && Join(a, b)[k] == b[k])
  {
    if k in a && k in b {
      BestAbove(a[k], b[k]);
    }
    hide Best, Outranks;
  }

  lemma JoinAbove<K(!new)>(best: map<K, Record>, o: map<K, Record>, below: map<K, Record>)
    requires forall k :: k in below ==> k in best && AtLeast(best[k], below[k])
    ensures forall k :: k in below ==> k in Join(best, o) && AtLeast(Join(best, o)[k], below[k])
  {
    hide *;
    AtLeastOrder();
    forall k | k in below ensures k in Join(best, o) && AtLeast(Join(best, o)[k], below[k]) {
      JoinAt(best, o, k);
    }
  }

  /** Joining one more offer keeps the best of what was seen. */
  lemma BestOneMore<K(!new)>(best: map<K, Record>, held: map<K, Record>, offers: set<map<K, Record>>,
                             o: map<K, Record>)
    requires IsBest(best, held, offers)
    ensures IsBest(Join(best, o), held, offers + {o})
  {
    hide Join, AtLeast;
    var j := Join(best, o);
    JoinAbove(best, o, held);
    forall x, k | x in offers + {o} && k in x ensures k in j && AtLeast(j[k], x[k]) {
      JoinAt(best, o, k);
      if x in offers {
        JoinAbove(best, o, x);
      }
    }
    forall k | k in j
      ensures (k in held && j[k] == held[k]) || exists x :: x in offers + {o} && k in x && j[k] == x[k]
    {
      BestOrigin(best, held, offers, o, k);
    }
  }

  lemma BestOrigin<K(!new)>(best: map<K, Record>, held: map<K, Record>, offers: set<map<K, Record>>,
                            o: map<K, Record>, k: K)
    requires IsBest(best, held, offers) && k in Join(best, o)
    ensures (k in held && Join(best, o)[k] == held[k])
         || exists x :: x in offers + {o} && k in x && Join(best, o)[k] == x[k]
  {
    hide Join, AtLeast;
    JoinAt(best, o, k);
    var v := Join(best, o)[k];
    if k in o && v == o[k] {
      assert o in offers + {o};
    } else if !(k in held && v == held[k]) {
      var x :| x in offers && k in x && best[k] == x[k];
      assert x in offers + {o};
    }
  }

  /** Adopting two offers one after the other is adopting their join at once. */
  lemma AdoptGrouped<K(!new)>(held: map<K, Record>, a: map<K, Record>, b: map<K, Record>, ka: seq<K>, sa: set<K>,
                              kb: seq<K>, sb: set<K>, kj: seq<K>, sj: set<K>, cap: nat)
    requires Enumerates(ka, sa) && Enumerates(kb, sb) && Enumerates(kj, sj)
    requires a.Keys <= sa && b.Keys <= sb && Join(a, b).Keys <= sj
    requires |held.Keys + a.Keys + b.Keys| <= cap
    ensures AdoptAll(AdoptAll(held, a, ka, cap), b, kb, cap) == AdoptAll(held, Join(a, b), kj, cap)
  {
    hide AdoptAll, Best, Enumerates;
    SubsetSize(held.Keys + a.Keys, held.Keys + a.Keys + b.Keys);
    AdoptedIsJoin(held, a, ka, sa, cap);
    assert Join(held, a).Keys + b.Keys == held.Keys + a.Keys + b.Keys;
    AdoptedIsJoin(Join(held, a), b, kb, sb, cap);
    assert held.Keys + Join(a, b).Keys == held.Keys + a.Keys + b.Keys;
    AdoptedIsJoin(held, Join(a, b), kj, sj, cap);
    JoinAlgebra(held, a, b);
  }
}
