/** The bounded walks over the op log: which local heads a want supersedes, and
    which announced heads are missing. */
module OpWalks {
  import opened Collections
  import Dag
  import opened OpLog

  const WALK_BUDGET := 0x1_0000

  /** Parents of an op, from the validated batch first and the store as fallback. */
  function ParentsOf(batch: Ops, store: Ops, id: OpId): seq<OpId> {
    if id in batch then batch[id].parents
    else if id in store then store[id].parents
    else []
  }

  ghost function WalkGraph(batch: Ops, store: Ops): Dag.Graph {
    map x | x in batch.Keys + store.Keys :: if x in batch then batch[x].parents else store[x].parents
  }

  /** No head is a strict ancestor of another. */
  ghost predicate Antichain(g: Dag.Graph, heads: set<OpId>) {
    forall a, b :: a in heads && b in heads ==> !Dag.StrictAncestor(g, a, b)
  }

  ghost function Ancestry(g: Dag.Graph, from: set<OpId>): set<OpId> {
    set x | x in Dag.Ancestors(g, from) && (x != ROOT_OP || x in from)
  }

  ghost predicate Below(g: Dag.Graph, want: OpId, x: OpId) {
    x != ROOT_OP && Dag.StrictAncestor(g, x, want)
  }

  /** A popped op was a local head, kept as superseded, or was expanded. */
  ghost predicate Settled(g: Dag.Graph, want: OpId, heads: set<OpId>, superseded: set<OpId>, visited: set<OpId>,
                          x: OpId) {
    if x != want && x in heads then x in superseded
    else forall p :: p in Dag.Parents(g, x) ==> p == ROOT_OP || p in visited
  }

  ghost predicate Walk(g: Dag.Graph, want: OpId, heads: set<OpId>, superseded: seq<OpId>, visited: set<OpId>,
                       stack: seq<OpId>, popped: set<OpId>)
  {
    && (forall x :: x in visited ==> Below(g, want, x))
    && (forall x :: x in superseded ==> x in heads && x != want && x in visited)
    && popped + Elems(stack) == visited + {want}
    && (forall x :: x in popped ==> Settled(g, want, heads, Elems(superseded), visited, x))
  }

  ghost predicate Tally(want: OpId, visited: set<OpId>, stack: seq<OpId>, popped: set<OpId>, budget: nat) {
    want !in visited && NoDup(stack) && Elems(stack) !! popped && |popped| + budget == WALK_BUDGET
  }

  /** In an acyclic op log each op is pushed at most once. */
  ghost predicate Once(g: Dag.Graph, want: OpId, visited: set<OpId>, stack: seq<OpId>, popped: set<OpId>, budget: nat) {
    Dag.Acyclic(g) ==> Tally(want, visited, stack, popped, budget)
  }

  /** The parents not seen yet, each pushed once. */
  function Unseen(parents: seq<OpId>, visited: set<OpId>): (r: seq<OpId>)
    ensures forall x :: x in r <==> x in parents && x != ROOT_OP && x !in visited
    ensures NoDup(r)
    decreases |parents|
  {
    if parents == [] then []
    else
      var init, last := Unseen(parents[..|parents| - 1], visited), parents[|parents| - 1];
      assert forall x :: x in parents <==> x in parents[..|parents| - 1] || x == last;
      if last == ROOT_OP || last in visited || last in init then init else init + [last]
  }

  lemma MembersAppend(a: seq<OpId>, b: seq<OpId>)
    ensures Elems(a + b) == Elems(a) + Elems(b)
  {
    assert forall x :: x in a + b <==> x in a || x in b;
  }

  lemma MembersOne(id: OpId)
    ensures Elems([id]) == {id}
  {
  }

  lemma BelowParents(g: Dag.Graph, want: OpId, id: OpId)
    requires id == want || Below(g, want, id)
    ensures forall p :: p in Dag.Parents(g, id) && p != ROOT_OP ==> Below(g, want, p)
  {
    forall p | p in Dag.Parents(g, id) && p != ROOT_OP ensures Below(g, want, p) {
      if id == want {
        assert Dag.Ancestor(g, p, p);
      } else {
        var q :| q in Dag.Parents(g, want) && Dag.Ancestor(g, id, q);
        Dag.ParentStep(g, p, id, q);
      }
    }
  }

  lemma NoDupAppend(a: seq<OpId>, b: seq<OpId>)
    requires NoDup(a) && NoDup(b) && Elems(a) !! Elems(b)
    ensures NoDup(a + b)
  {
    var s := a + b;
    forall i, j | 0 <= i < j < |s| ensures s[i] != s[j] {
      if i < |a| <= j {
        assert s[i] in Elems(a) && s[j] in Elems(b);
      }
    }
  }

  /** Popping a local head. */
  lemma WalkHead(g: Dag.Graph, want: OpId, heads: set<OpId>, superseded: seq<OpId>, visited: set<OpId>,
                 rest: seq<OpId>, id: OpId, popped: set<OpId>)
    requires Walk(g, want, heads, superseded, visited, rest + [id], popped)
    requires id != want && id in heads
    ensures Walk(g, want, heads, superseded + [id], visited, rest, popped + {id})
  {
    hide Below;
    MembersAppend(rest, [id]);
    MembersAppend(superseded, [id]);
    assert Elems([id]) == {id};
    forall x | x in popped + {id} ensures Settled(g, want, heads, Elems(superseded + [id]), visited, x) {
      if x in popped {
        assert Settled(g, want, heads, Elems(superseded), visited, x);
      }
    }
  }

  /** Popping any other op. */
  lemma WalkOn(g: Dag.Graph, want: OpId, heads: set<OpId>, superseded: seq<OpId>, visited: set<OpId>,
               rest: seq<OpId>, id: OpId, popped: set<OpId>, fresh_: seq<OpId>)
    requires Walk(g, want, heads, superseded, visited, rest + [id], popped)
    requires id == want || id !in heads
    requires fresh_ == Unseen(Dag.Parents(g, id), visited)
    ensures Walk(g, want, heads, superseded, visited + Elems(fresh_), rest + fresh_, popped + {id})
  {
    hide Below;
    MembersAppend(rest, [id]);
    MembersAppend(rest, fresh_);
    assert Elems([id]) == {id};
    assert id in popped + Elems(rest + [id]);
    BelowParents(g, want, id);
    var visited' := visited + Elems(fresh_);
    forall x | x in popped + {id} ensures Settled(g, want, heads, Elems(superseded), visited', x) {
      if x in popped {
        assert Settled(g, want, heads, Elems(superseded), visited, x);
      }
    }
  }

  lemma TallyStep(want: OpId, visited: set<OpId>, rest: seq<OpId>, id: OpId, popped: set<OpId>,
                  budget: nat, fresh_: seq<OpId>)
    requires Tally(want, visited, rest + [id], popped, budget) && budget > 0
    requires NoDup(fresh_) && Elems(fresh_) !! visited + {want}
    requires Elems(rest + [id]) + popped == visited + {want}
    ensures Tally(want, visited + Elems(fresh_), rest + fresh_, popped + {id}, budget - 1)
  {
    hide NoDup, Elems;
    MembersAppend(rest, [id]);
    MembersAppend(rest, fresh_);
    MembersOne(id);
    LastIsNew(rest, id);
    StayDisjoint(Elems(rest), Elems(fresh_), popped, visited + {want}, id);
    NoDupAppend(rest, fresh_);
  }

  lemma OnceStep(g: Dag.Graph, want: OpId, visited: set<OpId>, rest: seq<OpId>, id: OpId, popped: set<OpId>,
                 budget: nat, fresh_: seq<OpId>)
    requires Once(g, want, visited, rest + [id], popped, budget) && budget > 0
    requires NoDup(fresh_) && Elems(fresh_) !! visited && Elems(rest + [id]) + popped == visited + {want}
    requires forall x :: x in fresh_ ==> Below(g, want, x)
    ensures Once(g, want, visited + Elems(fresh_), rest + fresh_, popped + {id}, budget - 1)
  {
    if Dag.Acyclic(g) {
      hide Dag.Acyclic, Below, Tally, NoDup;
      WantNotBelow(g, want);
      TallyStep(want, visited, rest, id, popped, budget, fresh_);
    }
  }

  lemma LastIsNew(rest: seq<OpId>, id: OpId)
    requires NoDup(rest + [id])
    ensures NoDup(rest) && id !in rest && id !in Elems(rest)
  {
    assert forall i :: 0 <= i < |rest| ==> (rest + [id])[i] == rest[i];
    assert (rest + [id])[|rest|] == id;
  }

  lemma StayDisjoint(rest: set<OpId>, more: set<OpId>, popped: set<OpId>, known: set<OpId>, id: OpId)
    requires popped + rest + {id} == known && more !! known
    requires rest + {id} !! popped && id !in rest
    ensures rest + more !! popped + {id} && rest !! more && |popped + {id}| == |popped| + 1
  {
  }

  lemma WantNotBelow(g: Dag.Graph, want: OpId)
    requires Dag.Acyclic(g)
    ensures !Below(g, want, want)
  {
  }

  /** What was walked, with what the found heads cover, is closed. */
  lemma WalkedClosed(g: Dag.Graph, want: OpId, heads: set<OpId>, superseded: seq<OpId>, visited: set<OpId>,
                     popped: set<OpId>)
    returns (c: set<OpId>)
    requires ROOT_OP !in g
    requires Walk(g, want, heads, superseded, visited, [], popped)
    ensures Dag.Closed(g, c) && want in c
    ensures forall x :: x in c ==>
              x in visited || x == want || x == ROOT_OP || Dag.AncestorOfAny(g, x, Elems(superseded))
  {
    hide Dag.AncestorOfAny, Dag.Ancestors, Below;
    var found := Elems(superseded);
    Dag.AncestorsExact(g, found);
    c := visited + {want, ROOT_OP} + Dag.Ancestors(g, found);
    forall x, p | x in c && p in Dag.Parents(g, x) ensures p in c {
      if x !in Dag.Ancestors(g, found) {
        assert x in popped;
        assert Settled(g, want, heads, found, visited, x);
      }
    }
  }

  /** With nothing left to walk, every superseded head was found. */
  lemma AllFound(g: Dag.Graph, want: OpId, heads: set<OpId>, superseded: seq<OpId>, visited: set<OpId>,
                 popped: set<OpId>, h: OpId)
    requires ROOT_OP !in g && Dag.Acyclic(g) && Antichain(g, heads)
    requires Walk(g, want, heads, superseded, visited, [], popped)
    requires h in heads && Below(g, want, h)
    ensures h in superseded
  {
    hide Dag.Acyclic, Dag.Closed, Dag.Ancestor, Dag.StrictAncestor;
    var c := WalkedClosed(g, want, heads, superseded, visited, popped);
    Dag.StrictIsAncestor(g, h, want);
    Dag.InClosed(g, h, want, c);
    WantNotBelow(g, want);
    if h in visited {
      assert h in popped && Settled(g, want, heads, Elems(superseded), visited, h);
    } else {
      var s :| s in Elems(superseded) && Dag.Ancestor(g, h, s);
      HeadCovers(g, heads, h, s);
    }
  }

  lemma HeadCovers(g: Dag.Graph, heads: set<OpId>, h: OpId, s: OpId)
    requires Antichain(g, heads) && h in heads && s in heads && Dag.Ancestor(g, h, s)
    ensures h == s
  {
    Dag.AncestorCases(g, h, s);
  }

  lemma WalkStarts(g: Dag.Graph, want: OpId, heads: set<OpId>)
    ensures Walk(g, want, heads, [], {}, [want], {})
    ensures Once(g, want, {}, [want], {}, WALK_BUDGET)
  {
    MembersOne(want);
  }

  /** Walked ops lie in the want's ancestry. */
  lemma WalkedInAncestry(g: Dag.Graph, want: OpId, heads: set<OpId>, superseded: seq<OpId>, visited: set<OpId>,
                         stack: seq<OpId>, popped: set<OpId>)
    requires Walk(g, want, heads, superseded, visited, stack, popped)
    ensures visited + {want} <= Ancestry(g, {want})
  {
    Dag.AncestorsExact(g, {want});
    forall x | x in visited ensures x in Ancestry(g, {want}) {
      assert Below(g, want, x);
      Dag.StrictIsAncestor(g, x, want);
    }
  }

  /** Running out of budget means the ancestry is larger than the budget. */
  lemma OutOfBudget(g: Dag.Graph, want: OpId, heads: set<OpId>, superseded: seq<OpId>, visited: set<OpId>,
                    rest: seq<OpId>, id: OpId, popped: set<OpId>)
    requires Walk(g, want, heads, superseded, visited, rest + [id], popped)
    requires Once(g, want, visited, rest + [id], popped, 0) && Dag.Acyclic(g)
    ensures |Ancestry(g, {want})| > WALK_BUDGET
  {
    hide Dag.Acyclic, Ancestry, Below;
    WalkedInAncestry(g, want, heads, superseded, visited, rest + [id], popped);
    assert id in rest + [id] && id in Elems(rest + [id]);
    assert popped + {id} <= visited + {want};
    SubsetSize(popped + {id}, Ancestry(g, {want}));
  }

  /** What a walk that ran to its end, or out of budget, promises. */
  ghost predicate Supersedes(g: Dag.Graph, want: OpId, heads: set<OpId>, superseded: seq<OpId>) {
    && (forall h :: h in superseded ==> h in heads && h != want && Below(g, want, h))
    && (Dag.Acyclic(g) && Antichain(g, heads) && |Ancestry(g, {want})| <= WALK_BUDGET ==>
          forall h :: h in heads && Below(g, want, h) ==> h in superseded)
  }

  lemma WalkEnds(g: Dag.Graph, want: OpId, heads: set<OpId>, superseded: seq<OpId>, visited: set<OpId>,
                 stack: seq<OpId>, popped: set<OpId>)
    requires ROOT_OP !in g && Walk(g, want, heads, superseded, visited, stack, popped)
    requires stack == [] || (Dag.Acyclic(g) ==> |Ancestry(g, {want})| > WALK_BUDGET)
    ensures Supersedes(g, want, heads, superseded)
  {
    hide Dag.Acyclic, Below, Ancestry, Antichain;
    if Dag.Acyclic(g) && Antichain(g, heads) && |Ancestry(g, {want})| <= WALK_BUDGET {
      forall h | h in heads && Below(g, want, h) ensures h in superseded {
        AllFound(g, want, heads, superseded, visited, popped, h);
      }
    }
  }

  /** The local heads that are ancestors of `want`. A head's own ancestry is not
      walked: no other head lies there. */
  method SupersededBy(batch: Ops, store: Ops, want: OpId, localHeads: seq<OpId>) returns (superseded: seq<OpId>)
    requires ROOT_OP !in batch && ROOT_OP !in store
    ensures Supersedes(WalkGraph(batch, store), want, Elems(localHeads), superseded)
  {
    hide Walk, Once, Supersedes, Dag.Acyclic, Ancestry, NoDup, Below, Elems, WalkGraph, ParentsOf;
    ghost var g, heads := WalkGraph(batch, store), Elems(localHeads);
    superseded := [];
    var visited: set<OpId> := {};
    var stack := [want];
    var budget := WALK_BUDGET;
    ghost var popped: set<OpId> := {};
    WalkStarts(g, want, heads);
    GraphLinks(batch, store);
    while stack != []
      invariant 0 <= budget <= WALK_BUDGET
      invariant Walk(g, want, heads, superseded, visited, stack, popped)
      invariant Once(g, want, visited, stack, popped, budget)
      decreases budget, |stack|
    {
      var id, rest := stack[|stack| - 1], stack[..|stack| - 1];
      assert stack == rest + [id];
      if budget == 0 {
        if Dag.Acyclic(g) {
          OutOfBudget(g, want, heads, superseded, visited, rest, id, popped);
        }
        break;
      }
      WalkTally(g, want, heads, superseded, visited, rest, id, popped);
      MembersHas(localHeads, id);
      if id != want && id in localHeads {
        NothingNew(visited, rest);
        OnceStep(g, want, visited, rest, id, popped, budget, []);
        WalkHead(g, want, heads, superseded, visited, rest, id, popped);
        superseded := superseded + [id];
        stack := rest;
      } else {
        var unseen := Unseen(ParentsOf(batch, store, id), visited);
        UnseenFresh(ParentsOf(batch, store, id), visited);
        OnceStep(g, want, visited, rest, id, popped, budget, unseen);
        WalkOn(g, want, heads, superseded, visited, rest, id, popped, unseen);
        visited, stack := visited + Visit(unseen), rest + unseen;
      }
      budget := budget - 1;
      popped := popped + {id};
    }
    WalkEnds(g, want, heads, superseded, visited, stack, popped);
  }

  lemma GraphLinks(batch: Ops, store: Ops)
    ensures forall id :: ParentsOf(batch, store, id) == Dag.Parents(WalkGraph(batch, store), id)
    ensures ROOT_OP !in batch && ROOT_OP !in store ==> ROOT_OP !in WalkGraph(batch, store)
  {
  }

  lemma MembersHas(s: seq<OpId>, x: OpId)
    ensures x in s <==> x in Elems(s)
  {
  }

  lemma NothingNew(visited: set<OpId>, rest: seq<OpId>)
    ensures visited + Elems<OpId>([]) == visited && rest + [] == rest
    ensures NoDup<OpId>([]) && Elems<OpId>([]) !! visited
  {
  }

  lemma UnseenFresh(parents: seq<OpId>, visited: set<OpId>)
    ensures Elems(Unseen(parents, visited)) !! visited && NoDup(Unseen(parents, visited))
  {
  }

  function Visit(ids: seq<OpId>): (r: set<OpId>)
    ensures r == Elems(ids)
  {
    set x | x in ids
  }

  /** What one pop may add. */
  lemma WalkTally(g: Dag.Graph, want: OpId, heads: set<OpId>, superseded: seq<OpId>, visited: set<OpId>,
                  rest: seq<OpId>, id: OpId, popped: set<OpId>)
    requires Walk(g, want, heads, superseded, visited, rest + [id], popped)
    ensures Elems(rest + [id]) + popped == visited + {want}
    ensures forall x :: x in Unseen(Dag.Parents(g, id), visited) ==> Below(g, want, x)
  {
    hide Below;
    assert id in Elems(rest + [id]);
    BelowParents(g, want, id);
  }
}
