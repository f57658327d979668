/** The merged git refs of several operations: the op heads fold one by one,
    each against the closest common ancestors of what was folded and itself,
    which are merged first when there are several. */
module RefMerge {
  import opened Collections
  import opened Dag
  import Sorted

  type RefName = string

  /** A ref's target in a view; an unlisted ref is absent. */
  datatype RefTarget = Absent | Normal(commit: Id) | Conflict(terms: seq<Option<Id>>)

  type GitRefs = map<RefName, RefTarget>

  /** jj's three-way merge of one ref: left, base, right. */
  type Merge3 = (RefTarget, RefTarget, RefTarget) -> RefTarget

  /** The closest common ancestors of a set of operations and one more. */
  type Closest = (set<Id>, Id) -> seq<Id>

  function Target(refs: GitRefs, name: RefName): RefTarget {
    if name in refs then refs[name] else Absent
  }

  /** Every ref merged on its own; absent results are dropped. */
  function MergeRefs(merge3: Merge3, refs: GitRefs, base: GitRefs, theirs: GitRefs): GitRefs {
    map n | n in refs.Keys + base.Keys + theirs.Keys
      && merge3(Target(refs, n), Target(base, n), Target(theirs, n)) != Absent
      :: merge3(Target(refs, n), Target(base, n), Target(theirs, n))
  }

  ghost predicate Common(g: Graph, a: Id, xs: set<Id>, y: Id) {
    AncestorOfAny(g, a, xs) && Ancestor(g, a, y)
  }

  /** The common ancestors that no other common ancestor descends from. */
  ghost function ClosestSet(g: Graph, xs: set<Id>, y: Id): set<Id> {
    set a | a in Ancestors(g, {y}) && Common(g, a, xs, y)
      && !exists b :: b != a && Common(g, b, xs, y) && Ancestor(g, a, b)
  }

  ghost predicate FindsClosest(g: Graph, closest: Closest) {
    forall xs: set<Id>, y: Id :: Enumerates(closest(xs, y), ClosestSet(g, xs, y))
  }

  ghost function Size(g: Graph, ops: seq<Id>): nat {
    |Ancestors(g, Elems(ops))|
  }

  lemma AncestorsGrow(g: Graph, xs: set<Id>, ys: set<Id>)
    requires forall x :: x in xs ==> AncestorOfAny(g, x, ys)
    ensures Ancestors(g, xs) <= Ancestors(g, ys)
    ensures |Ancestors(g, xs)| <= |Ancestors(g, ys)|
  {
    hide *;
    AncestorsExact(g, xs);
    AncestorsExact(g, ys);
    forall a | a in Ancestors(g, xs) ensures a in Ancestors(g, ys) {
      AnyTransitive(g, a, xs, ys);
    }
    SubsetSize(Ancestors(g, xs), Ancestors(g, ys));
  }

  lemma AnyTransitive(g: Graph, a: Id, xs: set<Id>, ys: set<Id>)
    requires AncestorOfAny(g, a, xs) && forall x :: x in xs ==> AncestorOfAny(g, x, ys)
    ensures AncestorOfAny(g, a, ys)
  {
    hide Ancestor;
    var x :| x in xs && Ancestor(g, a, x);
    var y :| y in ys && Ancestor(g, x, y);
    Transitive(g, a, x, y);
  }

  lemma SelfAncestor(g: Graph, x: Id, xs: set<Id>)
    requires x in xs
    ensures AncestorOfAny(g, x, xs)
  {
    assert Ancestor(g, x, x);
  }

  /** The operations folded so far have no more ancestors. */
  lemma FoldedSmaller(g: Graph, ops: seq<Id>, n: nat)
    requires n <= |ops|
    ensures Size(g, ops[..n]) <= Size(g, ops)
  {
    forall x | x in Elems(ops[..n]) ensures AncestorOfAny(g, x, Elems(ops)) {
      SelfAncestor(g, x, Elems(ops));
    }
    AncestorsGrow(g, Elems(ops[..n]), Elems(ops));
  }

  /** The closest common ancestors to merge first have fewer ancestors, or there
      is a single one. */
  lemma ClosestSmaller(g: Graph, closest: Closest, ops: seq<Id>, n: nat)
    requires Acyclic(g) && FindsClosest(g, closest) && 0 < n < |ops|
    ensures var base := closest(Elems(ops[..n]), ops[n]);
            Size(g, base) <= Size(g, ops) && (|base| > 1 ==> Size(g, base) < Size(g, ops))
  {
    hide Ancestors, ClosestSet, Acyclic;
    var xs, y := Elems(ops[..n]), ops[n];
    var base, s := closest(xs, y), ClosestSet(g, xs, y);
    assert Enumerates(base, s) && Elems(base) == s;
    EnumeratesSize(base, s);
    ClosestBelow(g, xs, y);
    AncestorsGrow(g, s, {y});
    SelfAncestor(g, y, Elems(ops));
    AncestorsGrow(g, {y}, Elems(ops));
    if |base| > 1 {
      ClosestStrictlyBelow(g, xs, y);
    }
  }

  lemma ClosestBelow(g: Graph, xs: set<Id>, y: Id)
    ensures forall x :: x in ClosestSet(g, xs, y) ==> AncestorOfAny(g, x, {y})
  {
    hide Ancestor, Ancestors;
    AncestorsExact(g, {y});
  }

  /** Several closest common ancestors leave out the operation itself. */
  lemma ClosestStrictlyBelow(g: Graph, xs: set<Id>, y: Id)
    requires Acyclic(g) && |ClosestSet(g, xs, y)| > 1
    ensures |Ancestors(g, ClosestSet(g, xs, y))| < |Ancestors(g, {y})|
  {
    hide Ancestors, ClosestSet, Acyclic;
    var s := ClosestSet(g, xs, y);
    ClosestBelow(g, xs, y);
    AncestorsGrow(g, s, {y});
    AncestorsExact(g, {y});
    OnlyItself(g, xs, y);
    if s <= {y} {
      SubsetSize(s, {y});
    }
    SubsetSize(Ancestors(g, s), Ancestors(g, {y}) - {y});
  }

  /** The operation is among the ancestors of its closest common ancestors only
      when it is the only one. */
  lemma OnlyItself(g: Graph, xs: set<Id>, y: Id)
    requires Acyclic(g)
    ensures y in Ancestors(g, ClosestSet(g, xs, y)) ==> ClosestSet(g, xs, y) <= {y}
  {
    hide Ancestor, Ancestors, Acyclic;
    var s := ClosestSet(g, xs, y);
    AncestorsExact(g, s);
    AncestorsExact(g, {y});
    if y in Ancestors(g, s) {
      var c :| c in s && Ancestor(g, y, c);
      assert AncestorOfAny(g, c, {y});
      AntiSymmetric(g, y, c);
      forall e | e in s ensures e == y {
        assert AncestorOfAny(g, e, {y}) && Ancestor(g, e, y) && Common(g, y, xs, y);
      }
    }
  }

  /** The merged git refs; nothing for no operation. */
  ghost function Merged(g: Graph, views: Id -> GitRefs, merge3: Merge3, closest: Closest, ops: seq<Id>): Option<GitRefs>
    requires Acyclic(g) && FindsClosest(g, closest)
    decreases Size(g, ops), |ops|
  {
    if ops == [] then None
    else if |ops| == 1 then Some(views(ops[0]))
    else
      var n := |ops| - 1;
      FoldedSmaller(g, ops, n);
      ClosestSmaller(g, closest, ops, n);
      var refs := Merged(g, views, merge3, closest, ops[..n]);
      var base := closest(Elems(ops[..n]), ops[n]);
      if base == [] then None
      else
        var merged := Merged(g, views, merge3, closest, base);
        if refs.None? || merged.None? then None
        else Some(MergeRefs(merge3, refs.value, merged.value, views(ops[n])))
  }

  lemma MergedOneMore(g: Graph, views: Id -> GitRefs, merge3: Merge3, closest: Closest, ops: seq<Id>, n: nat)
    requires Acyclic(g) && FindsClosest(g, closest) && 0 < n < |ops|
    ensures var refs := Merged(g, views, merge3, closest, ops[..n]);
            var base := closest(Elems(ops[..n]), ops[n]);
            var merged := Merged(g, views, merge3, closest, base);
            Merged(g, views, merge3, closest, ops[..n + 1]) ==
            if refs.None? || merged.None? then None
            else Some(MergeRefs(merge3, refs.value, merged.value, views(ops[n])))
  {
    assert ops[..n + 1][..n] == ops[..n];
    hide MergeRefs, FindsClosest, Acyclic, Size;
  }

  /** The recursive merge, as a loop that merges the ancestors first; it ends
      because several closest common ancestors have fewer ancestors than the
      operation folded in. */
  method Merge(ghost g: Graph, views: Id -> GitRefs, merge3: Merge3, closest: Closest, ops: seq<Id>)
    returns (r: Option<GitRefs>)
    requires Acyclic(g) && FindsClosest(g, closest)
    ensures r == Merged(g, views, merge3, closest, ops)
    decreases Size(g, ops), |ops|
  {
    hide Merged, MergeRefs, Acyclic, FindsClosest, Size;
    MergedEnds(g, views, merge3, closest, ops);
    if ops == [] { return None; }
    var refs := views(ops[0]);
    var folded := {ops[0]};
    for i := 1 to |ops|
      invariant Merged(g, views, merge3, closest, ops[..i]) == Some(refs)
      invariant folded == Elems(ops[..i])
    {
      var ancestors := closest(folded, ops[i]);
      ClosestSmaller(g, closest, ops, i);
      LoopDecreases(g, ancestors, ops);
      var base := Merge(g, views, merge3, closest, ancestors);
      MergedOneMore(g, views, merge3, closest, ops, i);
      if base.None? {
        MergedPrefix(g, views, merge3, closest, ops, i + 1);
        return None;
      }
      refs := MergeRefs(merge3, refs, base.value, views(ops[i]));
      folded := folded + {ops[i]};
      assert ops[..i + 1] == ops[..i] + [ops[i]];
    }
    assert ops[..|ops|] == ops;
    r := Some(refs);
  }

  lemma LoopDecreases(g: Graph, base: seq<Id>, ops: seq<Id>)
    requires |ops| > 1 && Size(g, base) <= Size(g, ops) && (|base| > 1 ==> Size(g, base) < Size(g, ops))
    ensures Size(g, base) < Size(g, ops) || (Size(g, base) == Size(g, ops) && |base| < |ops|)
  {
    hide Size;
  }

  lemma MergedEnds(g: Graph, views: Id -> GitRefs, merge3: Merge3, closest: Closest, ops: seq<Id>)
    requires Acyclic(g) && FindsClosest(g, closest)
    ensures Merged(g, views, merge3, closest, []) == None
    ensures ops != [] ==> Merged(g, views, merge3, closest, ops[..1]) == Some(views(ops[0]))
    ensures ops != [] ==> Elems(ops[..1]) == {ops[0]}
  {
  }

  /** A failed merge of a prefix fails the whole. */
  lemma {:induction false} MergedPrefix(g: Graph, views: Id -> GitRefs, merge3: Merge3, closest: Closest, ops: seq<Id>,
                                        n: nat)
    requires Acyclic(g) && FindsClosest(g, closest) && 0 < n <= |ops|
    requires Merged(g, views, merge3, closest, ops[..n]).None?
    ensures Merged(g, views, merge3, closest, ops).None?
    decreases |ops| - n
  {
    hide Merged, MergeRefs, Acyclic, FindsClosest;
    if n == |ops| {
      assert ops[..n] == ops;
    } else {
      MergedOneMore(g, views, merge3, closest, ops, n);
      MergedPrefix(g, views, merge3, closest, ops, n + 1);
    }
  }

  // Folding in an ancestor.

  /** A side that did not move leaves the other side. */
  ghost predicate KeepsChanged(merge3: Merge3) {
    forall x, b :: merge3(x, b, b) == x
  }

  ghost predicate Present(refs: GitRefs) {
    forall n :: n in refs ==> refs[n] != Absent
  }

  lemma MergeUnmoved(merge3: Merge3, refs: GitRefs, base: GitRefs)
    requires KeepsChanged(merge3) && Present(refs)
    ensures MergeRefs(merge3, refs, base, base) == refs
  {
    var m := MergeRefs(merge3, refs, base, base);
    assert m.Keys == refs.Keys;
    assert forall n :: n in refs ==> m[n] == refs[n];
  }

  /** An operation below one already folded is its own closest common ancestor. */
  lemma ClosestOfAncestor(g: Graph, xs: set<Id>, y: Id)
    requires Acyclic(g) && AncestorOfAny(g, y, xs)
    ensures ClosestSet(g, xs, y) == {y}
  {
    AncestorsExact(g, {y});
    SelfAncestor(g, y, {y});
    hide Ancestor, Ancestors, Acyclic;
    assert Ancestor(g, y, y) && Common(g, y, xs, y);
    var s := ClosestSet(g, xs, y);
    forall b | b != y && Common(g, b, xs, y) ensures !Ancestor(g, y, b) {
      if Ancestor(g, y, b) {
        AntiSymmetric(g, y, b);
      }
    }
    assert y in s;
    forall e | e in s ensures e == y {
      assert Common(g, e, xs, y);
    }
  }

  lemma SingletonList(s: seq<Id>, y: Id)
    requires Enumerates(s, {y})
    ensures s == [y]
  {
    EnumeratesSize(s, {y});
    assert s[0] in s;
  }

  lemma {:induction false} MergedPresent(g: Graph, views: Id -> GitRefs, merge3: Merge3, closest: Closest, ops: seq<Id>)
    requires Acyclic(g) && FindsClosest(g, closest) && (forall op :: Present(views(op)))
    ensures Merged(g, views, merge3, closest, ops).Some? ==> Present(Merged(g, views, merge3, closest, ops).value)
  {
    hide FindsClosest, Acyclic, Size;
  }

  /** Folding in an ancestor of an operation already folded changes nothing. */
  lemma AncestorAbsorbed(g: Graph, views: Id -> GitRefs, merge3: Merge3, closest: Closest, ops: seq<Id>, other: Id)
    requires Acyclic(g) && FindsClosest(g, closest) && ops != []
    requires KeepsChanged(merge3) && (forall op :: Present(views(op)))
    requires AncestorOfAny(g, other, Elems(ops))
    ensures Merged(g, views, merge3, closest, ops + [other]) == Merged(g, views, merge3, closest, ops)
  {
    var all := ops + [other];
    assert all[..|ops|] == ops && all[..|ops| + 1] == all;
    ClosestOfAncestor(g, Elems(ops), other);
    assert Enumerates(closest(Elems(ops), other), ClosestSet(g, Elems(ops), other));
    SingletonList(closest(Elems(ops), other), other);
    MergedOneMore(g, views, merge3, closest, all, |ops|);
    MergedEnds(g, views, merge3, closest, [other]);
    assert [other][..1] == [other];
    MergedPresent(g, views, merge3, closest, ops);
    var refs := Merged(g, views, merge3, closest, ops);
    if refs.Some? {
      MergeUnmoved(merge3, refs.value, views(other));
    }
    hide Merged, MergeRefs, KeepsChanged, ClosestSet;
  }

  // What folding in one more operation does to each ref.

  lemma MergeRefsAt(merge3: Merge3, refs: GitRefs, base: GitRefs, theirs: GitRefs, n: RefName)
    requires merge3(Absent, Absent, Absent) == Absent
    ensures Target(MergeRefs(merge3, refs, base, theirs), n)
         == merge3(Target(refs, n), Target(base, n), Target(theirs, n))
  {
  }

  /** Folding in one more operation merges each ref three ways: what was folded so
      far, the merged closest common ancestors, and the operation's own. It fails
      exactly when either merge before it does. */
  lemma MergedTargets(g: Graph, views: Id -> GitRefs, merge3: Merge3, closest: Closest, ops: seq<Id>, other: Id)
    requires Acyclic(g) && FindsClosest(g, closest) && ops != [] && merge3(Absent, Absent, Absent) == Absent
    ensures var refs := Merged(g, views, merge3, closest, ops);
            var base := Merged(g, views, merge3, closest, closest(Elems(ops), other));
            var all := Merged(g, views, merge3, closest, ops + [other]);
            && (all.Some? <==> refs.Some? && base.Some?)
            && (all.Some? ==> Present(all.value) && forall n ::
                  Target(all.value, n)
                  == merge3(Target(refs.value, n), Target(base.value, n), Target(views(other), n)))
  {
    var all := ops + [other];
    assert all[..|ops|] == ops && all[..|ops| + 1] == all;
    MergedOneMore(g, views, merge3, closest, all, |ops|);
    var refs := Merged(g, views, merge3, closest, ops);
    var base := Merged(g, views, merge3, closest, closest(Elems(ops), other));
    if refs.Some? && base.Some? {
      forall n ensures Target(MergeRefs(merge3, refs.value, base.value, views(other)), n)
                    == merge3(Target(refs.value, n), Target(base.value, n), Target(views(other), n)) {
        MergeRefsAt(merge3, refs.value, base.value, views(other), n);
      }
    }
    hide Merged, FindsClosest, Acyclic;
  }

  /** Our side not having moved leaves theirs. */
  ghost predicate TakesChanged(merge3: Merge3) {
    forall b, y :: merge3(b, b, y) == y
  }

  lemma SameTargets(a: GitRefs, b: GitRefs)
    requires Present(a) && Present(b) && forall n :: Target(a, n) == Target(b, n)
    ensures a == b
  {
    forall n ensures n in a <==> n in b {
      assert Target(a, n) == Target(b, n);
    }
    assert a.Keys == b.Keys;
    forall n | n in a ensures a[n] == b[n] {
      assert Target(a, n) == Target(b, n);
    }
  }

  /** An operation below which everything folded so far lies, itself represented by
      one of them: that one is the only closest common ancestor. */
  lemma ClosestIsTop(g: Graph, xs: set<Id>, top: Id, y: Id)
    requires Acyclic(g) && top in xs && Ancestor(g, top, y) && forall x :: x in xs ==> Ancestor(g, x, top)
    ensures ClosestSet(g, xs, y) == {top}
  {
    hide Ancestors, Acyclic;
    AncestorsExact(g, {y});
    SelfAncestor(g, top, xs);
    var s := ClosestSet(g, xs, y);
    forall a | Common(g, a, xs, y) ensures Ancestor(g, a, top) {
      var x :| x in xs && Ancestor(g, a, x);
      Transitive(g, a, x, top);
    }
    assert Common(g, top, xs, y) && AncestorOfAny(g, top, {y});
    forall b | b != top && Common(g, b, xs, y) ensures !Ancestor(g, top, b) {
      if Ancestor(g, top, b) {
        AntiSymmetric(g, top, b);
      }
    }
    assert top in s;
    forall e | e in s ensures e == top {
      assert Common(g, e, xs, y) && Ancestor(g, e, top);
    }
  }

  /** Whenever the closest common ancestors merge to what was folded so far, folding
      in the operation gives its refs. */
  lemma UnmovedTakesTheirs(g: Graph, views: Id -> GitRefs, merge3: Merge3, closest: Closest, ops: seq<Id>, other: Id)
    requires Acyclic(g) && FindsClosest(g, closest) && ops != []
    requires TakesChanged(merge3) && Present(views(other))
    requires Merged(g, views, merge3, closest, ops).Some?
    requires Merged(g, views, merge3, closest, closest(Elems(ops), other)) == Merged(g, views, merge3, closest, ops)
    ensures Merged(g, views, merge3, closest, ops + [other]) == Some(views(other))
  {
    MergedTargets(g, views, merge3, closest, ops, other);
    var all, refs := Merged(g, views, merge3, closest, ops + [other]), Merged(g, views, merge3, closest, ops);
    forall n ensures Target(all.value, n) == Target(views(other), n) {
      assert merge3(Target(refs.value, n), Target(refs.value, n), Target(views(other), n)) == Target(views(other), n);
    }
    SameTargets(all.value, views(other));
    hide Merged, MergeRefs, FindsClosest, Acyclic;
  }

  /** Folding in a descendant of what was folded gives the descendant's refs, when
      what was folded amounts to one of the operations, the top one. */
  lemma DescendantWins(g: Graph, views: Id -> GitRefs, merge3: Merge3, closest: Closest, ops: seq<Id>, top: Id,
                       other: Id)
    requires Acyclic(g) && FindsClosest(g, closest)
    requires TakesChanged(merge3) && (forall op :: Present(views(op)))
    requires top in ops && (forall x :: x in ops ==> Ancestor(g, x, top)) && Ancestor(g, top, other)
    requires Merged(g, views, merge3, closest, ops) == Some(views(top))
    ensures Merged(g, views, merge3, closest, ops + [other]) == Some(views(other))
  {
    ClosestIsTop(g, Elems(ops), top, other);
    assert Enumerates(closest(Elems(ops), other), ClosestSet(g, Elems(ops), other));
    SingletonList(closest(Elems(ops), other), top);
    MergedEnds(g, views, merge3, closest, [top]);
    assert [top][..1] == [top];
    UnmovedTakesTheirs(g, views, merge3, closest, ops, other);
    hide Merged, MergeRefs, ClosestSet, FindsClosest, Acyclic, Ancestor;
  }

  /** Operations each descending from all before it. */
  ghost predicate Ascending(g: Graph, ops: seq<Id>) {
    forall i, j :: 0 <= i <= j < |ops| ==> Ancestor(g, ops[i], ops[j])
  }

  /** A line of history folds into the refs of its last operation. */
  lemma {:induction false} LineFolds(g: Graph, views: Id -> GitRefs, merge3: Merge3, closest: Closest, ops: seq<Id>)
    requires Acyclic(g) && FindsClosest(g, closest)
    requires TakesChanged(merge3) && (forall op :: Present(views(op)))
    requires ops != [] && Ascending(g, ops)
    ensures Merged(g, views, merge3, closest, ops) == Some(views(ops[|ops| - 1]))
    decreases |ops|
  {
    hide Merged, FindsClosest, Acyclic, Ancestor, Present;
    var n := |ops| - 1;
    if n == 0 {
      MergedEnds(g, views, merge3, closest, ops);
      assert ops[..1] == ops;
    } else {
      var init := ops[..n];
      assert forall i :: 0 <= i < n ==> init[i] == ops[i];
      LineFolds(g, views, merge3, closest, init);
      DescendantWins(g, views, merge3, closest, init, init[n - 1], ops[n]);
      assert init + [ops[n]] == ops;
    }
  }

  // When several incomparable operations were folded, the order in which the merge
  // of one ref and the closest common ancestors come matters.

  /** A three-way merge that keeps the left side of a conflict. */
  function LeftWins(x: RefTarget, b: RefTarget, y: RefTarget): RefTarget {
    if x == b then y else x
  }

  /** A fork, 2 and 3 over 1, joined by 4. */
  function Fork(): Graph {
    map[2 := [1], 3 := [1], 4 := [2, 3]]
  }

  function ForkAncestors(x: Id): set<Id> {
    if x == 2 || x == 3 then {1, x} else if x == 4 then {1, 2, 3, 4} else {x}
  }

  function ForkView(x: Id): GitRefs {
    map["main" := Normal(x)]
  }

  lemma ForkExact(a: Id, x: Id)
    ensures Ancestor(Fork(), a, x) <==> a in ForkAncestors(x)
  {
    var g := Fork();
    assert Closed(g, ForkAncestors(x));
    if Ancestor(g, a, x) {
      InClosed(g, a, x, ForkAncestors(x));
    }
    assert Ancestor(g, x, x);
    if x == 2 || x == 3 {
      ParentStep(g, 1, x, x);
    } else if x == 4 {
      ParentStep(g, 2, 4, 4);
      ParentStep(g, 3, 4, 4);
      ParentStep(g, 1, 2, 4);
    }
  }

  lemma ForkAcyclic()
    ensures Acyclic(Fork())
  {
    forall x ensures !StrictAncestor(Fork(), x, x) {
      forall p | p in Parents(Fork(), x) ensures !Ancestor(Fork(), x, p) {
        ForkExact(x, p);
      }
    }
  }

  /** The elements of a set, 3 before 2. */
  ghost function Listing(s: set<Id>): (r: seq<Id>)
    ensures Enumerates(r, s)
  {
    if s == {2, 3} then [3, 2]
    else
      Sorted.KeysEnumerate(s);
      Sorted.Keys(s)
  }

  predicate Meets(a: Id, xs: set<Id>, y: Id) {
    a in ForkAncestors(y) && exists x :: x in xs && a in ForkAncestors(x)
  }

  lemma ForkCommon(a: Id, xs: set<Id>, y: Id)
    ensures Common(Fork(), a, xs, y) <==> Meets(a, xs, y)
  {
    forall x ensures Ancestor(Fork(), a, x) <==> a in ForkAncestors(x) {
      ForkExact(a, x);
    }
    hide Ancestor, Fork, ForkAncestors;
  }

  lemma ForkClosest(a: Id, xs: set<Id>, y: Id)
    ensures a in ClosestSet(Fork(), xs, y) <==>
            Meets(a, xs, y) && forall b :: b != a && Meets(b, xs, y) ==> a !in ForkAncestors(b)
  {
    forall b ensures Common(Fork(), b, xs, y) <==> Meets(b, xs, y)
             ensures Ancestor(Fork(), a, b) <==> a in ForkAncestors(b)
    {
      ForkCommon(b, xs, y);
      ForkExact(a, b);
    }
    AncestorsExact(Fork(), {y});
    hide Ancestor, Ancestors, Fork, ForkAncestors, Meets;
    assert Common(Fork(), a, xs, y) ==> AncestorOfAny(Fork(), a, {y});
  }

  lemma ForkSides(x: Id, y: Id)
    requires (x == 2 && y == 3) || (x == 3 && y == 2)
    ensures ClosestSet(Fork(), {x}, y) == {1}
  {
    hide ClosestSet, Fork;
    forall a ensures a in ClosestSet(Fork(), {x}, y) <==> a == 1 {
      ForkClosest(a, {x}, y);
      assert 1 in ForkAncestors(1) && Meets(1, {x}, y);
    }
  }

  lemma ForkJoin()
    ensures ClosestSet(Fork(), {2, 3}, 4) == {2, 3}
  {
    hide ClosestSet, Fork;
    assert 2 in ForkAncestors(2) && Meets(2, {2, 3}, 4) && 3 in ForkAncestors(3) && Meets(3, {2, 3}, 4);
    assert 1 in ForkAncestors(2);
    forall a ensures a in ClosestSet(Fork(), {2, 3}, 4) <==> a == 2 || a == 3 {
      ForkClosest(a, {2, 3}, 4);
    }
  }

  /** Of two operations, then a third: what each fold gives to a ref. */
  lemma TwoFolded(views: Id -> GitRefs, merge3: Merge3, closest: Closest, x: Id, y: Id)
    requires Acyclic(Fork()) && FindsClosest(Fork(), closest) && merge3(Absent, Absent, Absent) == Absent
    requires closest({x}, y) == [1]
    ensures var all := Merged(Fork(), views, merge3, closest, [x, y]);
            all.Some? && Target(all.value, "main")
                         == merge3(Target(views(x), "main"), Target(views(1), "main"), Target(views(y), "main"))
  {
    MergedTargets(Fork(), views, merge3, closest, [x], y);
    MergedEnds(Fork(), views, merge3, closest, [x]);
    MergedEnds(Fork(), views, merge3, closest, [1]);
    assert [x][..1] == [x] && [1][..1] == [1] && [x] + [y] == [x, y] && Elems([x]) == {x};
    hide Merged, FindsClosest, Acyclic, Fork;
  }

  /** Folding in an operation that descends from everything folded so far does not
      always give its refs: here two sides of a fork fold into the left one, their
      closest common ancestors with the join are read the other way round, and the
      join's own value is taken for a change on one side only. */
  lemma OrderMatters() returns (g: Graph, views: Id -> GitRefs, merge3: Merge3, closest: Closest)
    ensures Acyclic(g) && FindsClosest(g, closest) && KeepsChanged(merge3) && TakesChanged(merge3)
    ensures (forall op :: Present(views(op))) && forall x :: x in [2, 3] ==> Ancestor(g, x, 4)
    ensures Merged(g, views, merge3, closest, [2, 3] + [4]).Some?
    ensures Merged(g, views, merge3, closest, [2, 3] + [4]) != Some(views(4))
  {
    g, views, merge3 := Fork(), ForkView, LeftWins;
    closest := (xs: set<Id>, y: Id) => Listing(ClosestSet(Fork(), xs, y));
    hide *;
    LeftWinsLaws();
    ForkAcyclic();
    ForkBelow();
    ForkListed(closest);
    TwoFolded(views, merge3, closest, 2, 3);
    TwoFolded(views, merge3, closest, 3, 2);
    ListedPair(closest);
    MergedTargets(g, views, merge3, closest, [2, 3], 4);
    var all := Merged(g, views, merge3, closest, [2, 3] + [4]);
    assert all.Some?;
    ForkTargets(Target(Merged(g, views, merge3, closest, [2, 3]).value, "main"),
                Target(Merged(g, views, merge3, closest, [3, 2]).value, "main"));
    assert Target(all.value, "main") != Target(views(4), "main");
  }

  lemma LeftWinsLaws()
    ensures KeepsChanged(LeftWins) && TakesChanged(LeftWins) && LeftWins(Absent, Absent, Absent) == Absent
    ensures forall op :: Present(ForkView(op))
  {
  }

  lemma ForkBelow()
    ensures forall x :: x in [2, 3] ==> Ancestor(Fork(), x, 4)
  {
    hide Fork, Ancestor;
    ForkExact(2, 4);
    ForkExact(3, 4);
  }

  lemma ListedPair(closest: Closest)
    requires closest({2, 3}, 4) == [3, 2]
    ensures closest(Elems([2, 3]), 4) == [3, 2]
  {
    assert Elems<Id>([2, 3]) == {2, 3};
  }

  lemma ForkListed(closest: Closest)
    requires forall xs, y :: closest(xs, y) == Listing(ClosestSet(Fork(), xs, y))
    ensures FindsClosest(Fork(), closest)
    ensures closest({2}, 3) == [1] && closest({3}, 2) == [1] && closest({2, 3}, 4) == [3, 2]
  {
    hide ClosestSet, Fork, Sorted.Keys, Enumerates;
    ForkSides(2, 3);
    ForkSides(3, 2);
    ForkJoin();
    SingletonList(closest({2}, 3), 1);
    SingletonList(closest({3}, 2), 1);
  }

  lemma ForkTargets(left: RefTarget, right: RefTarget)
    requires left == LeftWins(Target(ForkView(2), "main"), Target(ForkView(1), "main"), Target(ForkView(3), "main"))
    requires right == LeftWins(Target(ForkView(3), "main"), Target(ForkView(1), "main"), Target(ForkView(2), "main"))
    ensures LeftWins(left, right, Target(ForkView(4), "main")) != Target(ForkView(4), "main")
  {
  }
}
