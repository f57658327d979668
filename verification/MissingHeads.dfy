/** Which announced heads a repo still lacks. */
module MissingHeads {
  import opened Collections
  import Dag
  import opened OpLog
  import opened OpWalks

  /** Neither the root nor an ancestor of an op head. */
  ghost predicate Unpublished(ops: Ops, heads: seq<OpId>, x: OpId) {
    x != ROOT_OP && !Dag.AncestorOfAny(GraphOf(ops), x, Elems(heads))
  }

  /** Between two pops: `popped` ops are expanded, `visited` ones were pushed once. */
  ghost predicate HeadWalk(g: Dag.Graph, heads: set<OpId>, visited: set<OpId>, stack: seq<OpId>, popped: set<OpId>) {
    && heads <= visited
    && (forall x :: x in visited ==> Dag.AncestorOfAny(g, x, heads) && (x != ROOT_OP || x in heads))
    && NoDup(stack) && Elems(stack) !! popped && Elems(stack) + popped == visited
    && (forall x, p :: x in popped && p in Dag.Parents(g, x) ==> p == ROOT_OP || p in visited)
  }

  lemma HeadWalkStarts(g: Dag.Graph, heads: seq<OpId>)
    requires NoDup(heads)
    ensures HeadWalk(g, Elems(heads), Elems(heads), heads, {})
  {
    forall x | x in heads ensures Dag.AncestorOfAny(g, x, Elems(heads)) {
      assert Dag.Ancestor(g, x, x) && x in Elems(heads);
    }
  }

  lemma WalkStep(g: Dag.Graph, heads: set<OpId>, visited: set<OpId>, rest: seq<OpId>, id: OpId, popped: set<OpId>,
                 unseen: seq<OpId>)
    requires HeadWalk(g, heads, visited, rest + [id], popped)
    requires unseen == Unseen(Dag.Parents(g, id), visited)
    ensures HeadWalk(g, heads, visited + Elems(unseen), rest + unseen, popped + {id})
    ensures id !in popped
  {
    hide Dag.AncestorOfAny;
    MembersAppend(rest, [id]);
    MembersAppend(rest, unseen);
    MembersOne(id);
    LastIsNew(rest, id);
    assert id in Elems(rest + [id]);
    ParentsReached(g, id, heads);
    assert Elems(unseen) !! visited;
    NoDupAppend(rest, unseen);
  }

  /** With nothing left to walk, everything published was popped. */
  lemma HeadWalkEnds(g: Dag.Graph, heads: set<OpId>, visited: set<OpId>, popped: set<OpId>)
    requires ROOT_OP !in g && HeadWalk(g, heads, visited, [], popped)
    ensures forall x :: Dag.AncestorOfAny(g, x, heads) ==> x in popped || x == ROOT_OP
  {
    hide Dag.AncestorOfAny;
    assert popped == visited;
    assert Dag.Closed(g, popped + {ROOT_OP});
    ReachedIsClosed(g, heads, popped + {ROOT_OP});
  }

  lemma InAncestry(g: Dag.Graph, heads: set<OpId>, visited: set<OpId>, stack: seq<OpId>, popped: set<OpId>)
    requires HeadWalk(g, heads, visited, stack, popped)
    ensures visited <= Ancestry(g, heads)
  {
    Dag.AncestorsExact(g, heads);
  }

  /** `budget` is what is left after popping `popped` ops. */
  lemma HeadBudgetSpent(g: Dag.Graph, heads: set<OpId>, visited: set<OpId>, rest: seq<OpId>, id: OpId,
                        popped: set<OpId>)
    requires HeadWalk(g, heads, visited, rest + [id], popped) && |popped| == WALK_BUDGET
    ensures |Ancestry(g, heads)| > WALK_BUDGET
  {
    hide Ancestry, HeadWalk;
    InAncestry(g, heads, visited, rest + [id], popped);
    PoppedIsVisited(g, heads, visited, rest, id, popped);
    SubsetSize(popped + {id}, Ancestry(g, heads));
  }

  lemma PoppedIsVisited(g: Dag.Graph, heads: set<OpId>, visited: set<OpId>, rest: seq<OpId>, id: OpId,
                        popped: set<OpId>)
    requires HeadWalk(g, heads, visited, rest + [id], popped)
    ensures popped + {id} <= visited && id !in popped
    ensures forall x :: x in visited ==> Dag.AncestorOfAny(g, x, heads)
  {
    assert id in rest + [id] && id in Elems(rest + [id]);
  }

  /** The stored heads not reached are the unpublished ones. */
  ghost predicate Exact(g: Dag.Graph, heads: set<OpId>, stored: set<OpId>, unreached: set<OpId>) {
    unreached <= stored && forall x :: x in stored ==> (x in unreached <==> !Dag.AncestorOfAny(g, x, heads))
  }

  lemma AllReached(ops: Ops, heads: seq<OpId>, stored: set<OpId>, visited: set<OpId>)
    requires stored <= visited && forall x :: x in visited ==> Dag.AncestorOfAny(GraphOf(ops), x, Elems(heads))
    ensures Ended(ops, heads, stored, {})
  {
    hide Dag.AncestorOfAny, Ancestry, GraphOf, Elems;
    assert Exact(GraphOf(ops), Elems(heads), stored, {});
  }

  lemma ExactAtEnd(ops: Ops, heads: seq<OpId>, visited: set<OpId>, popped: set<OpId>, stored: set<OpId>)
    requires ROOT_OP !in GraphOf(ops) && ROOT_OP !in stored && HeadWalk(GraphOf(ops), Elems(heads), visited, [], popped)
    ensures Ended(ops, heads, stored, stored - popped)
  {
    hide Dag.AncestorOfAny, Ancestry, GraphOf, Elems;
    HeadWalkEnds(GraphOf(ops), Elems(heads), visited, popped);
    WalkPopped(GraphOf(ops), Elems(heads), visited, popped);
    assert Exact(GraphOf(ops), Elems(heads), stored, stored - popped);
  }

  lemma WalkPopped(g: Dag.Graph, heads: set<OpId>, visited: set<OpId>, popped: set<OpId>)
    requires HeadWalk(g, heads, visited, [], popped)
    ensures popped <= visited && forall x :: x in visited ==> Dag.AncestorOfAny(g, x, heads)
  {
  }

  /** How the walk may end: exactly, or out of budget with nothing reported. */
  ghost predicate Ended(ops: Ops, heads: seq<OpId>, stored: set<OpId>, unreached: set<OpId>) {
    || Exact(GraphOf(ops), Elems(heads), stored, unreached)
    || (unreached == {} && |Ancestry(GraphOf(ops), Elems(heads))| > WALK_BUDGET)
  }

  lemma ReportsFrom(ops: Ops, heads: seq<OpId>, announced: seq<OpId>, absent: set<OpId>, stored: set<OpId>,
                    unreached: set<OpId>)
    requires ROOT_OP !in ops
    requires absent == set x | x in announced && !HasOp(ops, x)
    requires stored == set x | x in announced && x in ops
    requires Ended(ops, heads, stored, unreached)
    ensures Reports(ops, heads, announced, absent + unreached)
  {
    hide Dag.AncestorOfAny, Ancestry, GraphOf, Elems;
  }

  ghost predicate AllStored(ops: Ops, ids: set<OpId>) {
    forall x :: x in ids ==> HasOp(ops, x)
  }

  lemma StillStored(ops: Ops, heads: seq<OpId>, visited: set<OpId>, id: OpId)
    requires Walkable(ops, heads) && AllStored(ops, visited)
    ensures AllStored(ops, visited + Elems(Unseen(Dag.Parents(GraphOf(ops), id), visited)))
  {
    ParentsReadable(ops, heads, id);
  }

  lemma FirstStored(ops: Ops, heads: seq<OpId>)
    requires Walkable(ops, heads)
    ensures AllStored(ops, Elems(heads))
  {
  }

  /** The op log is closed under parents and its heads are stored. */
  ghost predicate Walkable(ops: Ops, heads: seq<OpId>) {
    Dag.ParentClosed(GraphOf(ops)) && forall h :: h in heads ==> HasOp(ops, h)
  }

  lemma ParentsReadable(ops: Ops, heads: seq<OpId>, id: OpId)
    requires Walkable(ops, heads)
    ensures forall p :: p in Dag.Parents(GraphOf(ops), id) ==> HasOp(ops, p)
    ensures forall h :: h in heads ==> HasOp(ops, h)
  {
    var g := GraphOf(ops);
    forall p | p in Dag.Parents(g, id) ensures HasOp(ops, p) {
      assert id in g && p in g[id];
      assert p in g || p == ROOT_OP;
    }
  }

  lemma StoredParents(ops: Ops, id: OpId)
    ensures Dag.Parents(GraphOf(ops), id) == if id in ops then ops[id].parents else []
    ensures (ROOT_OP !in ops ==> ROOT_OP !in GraphOf(ops)) && AllStored(ops, {})
  {
  }

  ghost predicate Reports(ops: Ops, heads: seq<OpId>, announced: seq<OpId>, reported: set<OpId>) {
    && (forall x :: x in reported ==> x in announced && x != ROOT_OP)
    && (forall x :: x in reported && x in ops ==> Unpublished(ops, heads, x))
    && (forall x :: x in announced && !HasOp(ops, x) ==> x in reported)
    && (|Ancestry(GraphOf(ops), Elems(heads))| <= WALK_BUDGET ==>
          forall x :: x in announced && x in ops && Unpublished(ops, heads, x) ==> x in reported)
  }

  /** Between two pops, with the announced ops that are `stored` and not reached yet. */
  ghost predicate Reading(ops: Ops, heads: seq<OpId>, stored: set<OpId>, visited: set<OpId>, stack: seq<OpId>,
                          popped: set<OpId>, unreached: set<OpId>)
  {
    && HeadWalk(GraphOf(ops), Elems(heads), visited, stack, popped) && unreached == stored - popped
    && AllStored(ops, popped) && (Walkable(ops, heads) ==> AllStored(ops, visited))
  }

  lemma ReadingStarts(ops: Ops, heads: seq<OpId>, stored: set<OpId>)
    requires NoDup(heads)
    ensures Reading(ops, heads, stored, Elems(heads), heads, {}, stored)
  {
    hide HeadWalk, GraphOf, NoDup, Elems, Walkable;
    HeadWalkStarts(GraphOf(ops), heads);
    if Walkable(ops, heads) {
      FirstStored(ops, heads);
    }
  }

  lemma ReadingStep(ops: Ops, heads: seq<OpId>, stored: set<OpId>, visited: set<OpId>, rest: seq<OpId>, id: OpId,
                    popped: set<OpId>, unreached: set<OpId>)
    requires Reading(ops, heads, stored, visited, rest + [id], popped, unreached) && HasOp(ops, id)
    ensures var unseen := Unseen(if id in ops then ops[id].parents else [], visited);
            Reading(ops, heads, stored, visited + Elems(unseen), rest + unseen, popped + {id}, unreached - {id})
    ensures id !in popped
  {
    hide HeadWalk, GraphOf, Elems, Walkable, Unseen, Dag.Parents, HasOp, AllStored;
    StoredParents(ops, id);
    WalkStep(GraphOf(ops), Elems(heads), visited, rest, id, popped, Unseen(Dag.Parents(GraphOf(ops), id), visited));
    StoredOneMore(ops, popped, id);
    if Walkable(ops, heads) {
      StillStored(ops, heads, visited, id);
    }
  }

  /** A popped op can be read if the op log is closed under parents. */
  lemma ReadingReads(ops: Ops, heads: seq<OpId>, stored: set<OpId>, visited: set<OpId>, rest: seq<OpId>, id: OpId,
                     popped: set<OpId>, unreached: set<OpId>)
    requires Reading(ops, heads, stored, visited, rest + [id], popped, unreached)
    ensures Walkable(ops, heads) ==> HasOp(ops, id)
    ensures unreached - {id} == {} ==> Ended(ops, heads, stored, {})
    ensures |popped| == WALK_BUDGET ==> Ended(ops, heads, stored, {})
  {
    hide HeadWalk, GraphOf, Elems, Walkable, HasOp, Ended, Ancestry, Dag.AncestorOfAny;
    PoppedIsVisited(GraphOf(ops), Elems(heads), visited, rest, id, popped);
    if unreached - {id} == {} {
      AllReached(ops, heads, stored, visited);
    }
    if |popped| == WALK_BUDGET {
      HeadBudgetSpent(GraphOf(ops), Elems(heads), visited, rest, id, popped);
      NothingReported(ops, heads, stored);
    }
  }

  lemma ReadingEnds(ops: Ops, heads: seq<OpId>, stored: set<OpId>, visited: set<OpId>, popped: set<OpId>,
                    unreached: set<OpId>)
    requires Reading(ops, heads, stored, visited, [], popped, unreached) && ROOT_OP !in ops && ROOT_OP !in stored
    ensures Ended(ops, heads, stored, unreached) && AllRead(ops, heads)
  {
    hide HeadWalk, GraphOf, Elems, Walkable, HasOp, Ended, AllRead;
    StoredParents(ops, ROOT_OP);
    ExactAtEnd(ops, heads, visited, popped, stored);
    PoppedRead(ops, heads, visited, popped);
  }

  /** Heads to report, in announced order; a stored one only after all that is
      published was read. With the op log closed under parents and its heads' ancestry
      within the budget: exactly the unpublished ones, stored or not. Past the budget:
      the ones not stored, and no published one. */
  method MissingHeads(ops: Ops, heads: seq<OpId>, announced: seq<OpId>) returns (missing: Option<seq<OpId>>)
    requires ROOT_OP !in ops && NoDup(heads)
    ensures Walkable(ops, heads) ==> missing.Some?
    ensures missing.Some? ==> exists reported :: missing.value == Inside(announced, reported)
                                               && Reports(ops, heads, announced, reported)
    ensures missing.Some? && (exists x :: x in missing.value && x in ops) ==> AllRead(ops, heads)
  {
    hide Ancestry, Reports, Walkable, NoDup, Ended, Elems, GraphOf, Unseen, Inside, AllRead, HasOp, Reading;
    var absent := set x | x in announced && !HasOp(ops, x);
    var unreached := set x | x in announced && x in ops;
    ghost var stored := unreached;
    var visited := Visit(heads);
    var stack := heads;
    var budget := WALK_BUDGET;
    ghost var popped: set<OpId> := {};
    ReadingStarts(ops, heads, stored);
    while stack != []
      invariant 0 <= budget && |popped| + budget == WALK_BUDGET
      invariant Reading(ops, heads, stored, visited, stack, popped, unreached)
      decreases budget
    {
      var id, rest := stack[|stack| - 1], stack[..|stack| - 1];
      assert stack == rest + [id];
      ReadingReads(ops, heads, stored, visited, rest, id, popped, unreached);
      ghost var before := unreached;
      unreached := unreached - {id};
      if unreached == {} {
        break;
      }
      if budget == 0 {
        unreached := {};
        break;
      }
      budget := budget - 1;
      if !HasOp(ops, id) {
        return None;
      }
      ReadingStep(ops, heads, stored, visited, rest, id, popped, before);
      var unseen := Unseen(if id in ops then ops[id].parents else [], visited);
      visited, stack, popped := visited + Visit(unseen), rest + unseen, popped + {id};
    }
    if stack == [] {
      ReadingEnds(ops, heads, stored, visited, popped, unreached);
    }
    ReportsFrom(ops, heads, announced, absent, stored, unreached);
    missing := Some(Inside(announced, absent + unreached));
    StoredReported(ops, announced, absent, unreached);
  }

  /** Every published op can be read. */
  ghost predicate AllRead(ops: Ops, heads: seq<OpId>) {
    forall y :: Dag.AncestorOfAny(GraphOf(ops), y, Elems(heads)) ==> HasOp(ops, y)
  }

  lemma StoredOneMore(ops: Ops, popped: set<OpId>, id: OpId)
    requires AllStored(ops, popped) && HasOp(ops, id)
    ensures AllStored(ops, popped + {id})
  {
  }

  lemma PoppedRead(ops: Ops, heads: seq<OpId>, visited: set<OpId>, popped: set<OpId>)
    requires ROOT_OP !in GraphOf(ops) && HeadWalk(GraphOf(ops), Elems(heads), visited, [], popped)
    requires AllStored(ops, popped)
    ensures AllRead(ops, heads)
  {
    hide Dag.AncestorOfAny, HeadWalk;
    HeadWalkEnds(GraphOf(ops), Elems(heads), visited, popped);
  }

  lemma StoredReported(ops: Ops, announced: seq<OpId>, absent: set<OpId>, unreached: set<OpId>)
    requires forall x :: x in absent ==> !HasOp(ops, x)
    ensures (exists x :: x in Inside(announced, absent + unreached) && x in ops) ==> unreached != {}
  {
  }

  lemma NothingReported(ops: Ops, heads: seq<OpId>, stored: set<OpId>)
    requires |Ancestry(GraphOf(ops), Elems(heads))| > WALK_BUDGET
    ensures Ended(ops, heads, stored, {})
  {
  }
}
