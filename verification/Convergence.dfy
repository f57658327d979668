/** What the op phase, the walks and the publication give together: a retry finishes
    what a crash interrupted, and machines that are caught up agree. */
module Convergence {
  import opened Collections
  import Dag
  import opened OpLog
  import opened OpWalks
  import opened MissingHeads
  import opened Replica
  import opened Fetching
  import ApplyBatch
  import G = GitObjects
  import ServeGit

  /** A published op is not reported again, whatever happens to the repo later. */
  lemma PublishedNotReported(trace: seq<World>, heads: seq<OpId>, announced: seq<OpId>, reported: set<OpId>,
                             want: OpId)
    requires Run(trace) && Inv(trace[0]) && Listed(trace[0].repo, want)
    requires Elems(heads) == trace[|trace| - 1].repo.heads
    requires Reports(trace[|trace| - 1].repo.ops, heads, announced, reported)
    ensures want !in reported
  {
    hide Step, Ancestry;
    NothingLost(trace);
    ListedNotReported(trace[|trace| - 1].repo, heads, announced, reported, want);
  }

  lemma ListedNotReported(r: Repo, heads: seq<OpId>, announced: seq<OpId>, reported: set<OpId>, want: OpId)
    requires Sound(r) && Elems(heads) == r.heads && Reports(r.ops, heads, announced, reported) && Listed(r, want)
    ensures want !in reported
  {
    hide Sound, Dag.Ancestor, Ancestry;
    ListedStored(r, want);
  }

  lemma ListedStored(r: Repo, x: OpId)
    requires Sound(r) && Listed(r, x)
    ensures HasOp(r.ops, x)
  {
    hide Dag.Acyclic, Dag.ParentClosed;
    StoredClosed(r);
    var h :| h in r.heads && Dag.Ancestor(GraphOf(r.ops), x, h);
    Dag.InClosed(GraphOf(r.ops), x, h, r.ops.Keys + {ROOT_OP});
  }

  ghost predicate AllListed(r: Repo, ids: seq<OpId>) {
    forall x :: x in ids && x != ROOT_OP ==> Listed(r, x)
  }

  /** What is not reported, with the published history within the budget, is listed. */
  lemma ReportedOrListed(r: Repo, heads: seq<OpId>, announced: seq<OpId>, reported: set<OpId>)
    requires Elems(heads) == r.heads && Reports(r.ops, heads, announced, reported)
    requires |Ancestry(GraphOf(r.ops), r.heads)| <= WALK_BUDGET
    ensures forall x :: x in announced && x != ROOT_OP && x !in Inside(announced, reported) ==> Listed(r, x)
  {
    hide Ancestry, Dag.Ancestor;
  }

  lemma {:induction false} InsideSize(ids: seq<OpId>, kept: set<OpId>)
    ensures |Inside(ids, kept)| <= |ids|
    decreases |ids|
  {
    if ids != [] {
      InsideSize(ids[..|ids| - 1], kept);
    }
  }

  /** The check for missing heads, on a sound repo. */
  method CheckHeads(r: Repo, announced: seq<OpId>) returns (missing: seq<OpId>)
    requires Sound(r)
    ensures |missing| <= |announced| && forall x :: x in missing ==> x in announced
    ensures |Ancestry(GraphOf(r.ops), r.heads)| <= WALK_BUDGET ==>
              forall x :: x in announced && x != ROOT_OP && x !in missing ==> Listed(r, x)
    ensures AllListed(r, announced) ==> missing == []
  {
    hide Sound, Listed, Ancestry, Reports, Inside;
    var heads := AnyOrder(r.heads);
    SoundExchange(r);
    RootNotStored(r);
    var found := MissingHeads.MissingHeads(r.ops, heads, announced);
    missing := found.value;
    ghost var reported :| missing == Inside(announced, reported) && Reports(r.ops, heads, announced, reported);
    InsideSize(announced, reported);
    if |Ancestry(GraphOf(r.ops), r.heads)| <= WALK_BUDGET {
      ReportedOrListed(r, heads, announced, reported);
    }
    if AllListed(r, announced) {
      NothingMissing(r, heads, announced, reported);
    }
  }

  lemma RootNotStored(r: Repo)
    requires Sound(r)
    ensures ROOT_OP !in r.ops
  {
  }

  lemma NothingMissing(r: Repo, heads: seq<OpId>, announced: seq<OpId>, reported: set<OpId>)
    requires Sound(r) && Elems(heads) == r.heads && Reports(r.ops, heads, announced, reported)
    requires AllListed(r, announced)
    ensures Inside(announced, reported) == []
  {
    hide Sound, Listed;
    var missing := Inside(announced, reported);
    if missing != [] {
      var x := missing[0];
      assert x in missing;
      ListedNotReported(r, heads, announced, reported, x);
    }
  }

  /** A retry finishes the job. Whatever earlier crashes left in the stores, handling
      an announcement of an honest peer fetches what is missing; when nothing cuts
      this fetch short, every announced head is then listed and none is missing. */
  method Retry(ghost u: G.Content, repo: ApplyBatch.LocalRepo, s: Server, announced: seq<OpId>,
               viewHeads: seq<CommitId>, size: CommitId -> nat, cut: Option<nat>, crash: ApplyBatch.Crash)
    returns (left: seq<OpId>)
    requires Sound(repo.Value()) && GitClosed(u, repo.Value()) && Honest(u, s, repo.ops)
    requires Elems(viewHeads) <= repo.git + {ServeGit.VIRTUAL_ROOT}
    requires |announced| <= MAX_WANTS && forall h :: h in announced ==> HasOp(s.ops, h)
    modifies repo
    ensures Sound(repo.Value()) && GitClosed(u, repo.Value()) && Grows(old(repo.Value()), repo.Value())
    ensures forall x :: old(Listed(repo.Value(), x)) ==> Listed(repo.Value(), x)
    ensures cut.None? && crash.NoCrash? && Whole(u, s)
            && old(|Ancestry(GraphOf(repo.ops), repo.heads)|) <= WALK_BUDGET ==>
              AllListed(repo.Value(), announced) && left == []
  {
    hide Sound, Listed, GitClosed, Honest, Whole, Grows, Ancestry, GraphOf;
    ghost var r := repo.Value();
    ApplyBatch.ItselfGrows(r);
    var missing := CheckHeads(repo.Value(), announced);
    if missing != [] {
      var _ := HonestFetch(u, repo, s, missing, viewHeads, size, cut, crash);
    }
    left := CheckHeads(repo.Value(), announced);
  }

  // Machines that are caught up with each other.

  /** Every op head of `other` is listed at `r`. */
  ghost predicate CaughtUp(r: Repo, other: Repo) {
    forall h :: h in other.heads && h != ROOT_OP ==> Listed(r, h)
  }

  /** What an announcement of all its heads leaves listed is what being caught up is. */
  lemma ListedHeads(r: Repo, other: Repo, announced: seq<OpId>)
    requires AllListed(r, announced) && Elems(announced) == other.heads
    ensures CaughtUp(r, other)
  {
    hide Listed;
    forall h | h in other.heads ensures h in announced {
      assert h in Elems(announced);
    }
  }

  /** Once caught up, whatever happens to the repo later. */
  lemma CaughtUpStays(trace: seq<World>, other: Repo)
    requires Run(trace) && Inv(trace[0]) && CaughtUp(trace[0].repo, other)
    ensures CaughtUp(trace[|trace| - 1].repo, other)
  {
    hide Step, Inv, Listed;
    NothingLost(trace);
  }

  /** Two stores agree on the ancestry of an op both hold. */
  lemma SameAncestry(r: Repo, other: Repo, x: OpId, h: OpId)
    requires Sound(r) && Sound(other) && Agree(r.ops, other.ops)
    requires HasOp(r.ops, h) && Dag.Ancestor(GraphOf(other.ops), x, h)
    ensures Dag.Ancestor(GraphOf(r.ops), x, h)
  {
    hide Dag.Acyclic, Ancestry, Dag.ParentClosed;
    var g, g' := GraphOf(r.ops), GraphOf(other.ops);
    StoredClosed(r);
    var stored := r.ops.Keys + {ROOT_OP};
    forall c: set<Dag.Id> | h in c && Dag.Closed(g, c) ensures x in c {
      var c' := c * stored;
      assert Dag.Closed(g', c') by {
        forall y, p | y in c' && p in Dag.Parents(g', y) ensures p in c' {
          assert y in other.ops && y in r.ops && r.ops[y] == other.ops[y];
          assert p in Dag.Parents(g, y);
        }
      }
      Dag.InClosed(g', x, h, c');
    }
  }

  /** Being caught up means holding every listed op of the other. */
  lemma CaughtUpLists(r: Repo, other: Repo, x: OpId)
    requires Sound(r) && Sound(other) && Agree(r.ops, other.ops) && CaughtUp(r, other)
    requires Listed(other, x) && x != ROOT_OP
    ensures Listed(r, x)
  {
    hide Dag.Ancestor, Sound, Agree, GraphOf;
    var h :| h in other.heads && Dag.Ancestor(GraphOf(other.ops), x, h);
    if h == ROOT_OP {
      RootAlone(other, x);
    }
    assert Listed(r, h);
    var k :| k in r.heads && Dag.Ancestor(GraphOf(r.ops), h, k);
    ListedStored(r, h);
    SameAncestry(r, other, x, h);
    Dag.Transitive(GraphOf(r.ops), x, h, k);
  }

  lemma RootAlone(r: Repo, x: OpId)
    requires Sound(r) && Dag.Ancestor(GraphOf(r.ops), x, ROOT_OP)
    ensures x == ROOT_OP
  {
    assert Dag.Closed(GraphOf(r.ops), {ROOT_OP});
    Dag.InClosed(GraphOf(r.ops), x, ROOT_OP, {ROOT_OP});
  }

  /** Caught up both ways, two machines list the same ops. */
  lemma SameListing(a: Repo, b: Repo)
    requires Sound(a) && Sound(b) && Agree(a.ops, b.ops) && CaughtUp(a, b) && CaughtUp(b, a)
    ensures forall x :: x != ROOT_OP ==> (Listed(a, x) <==> Listed(b, x))
  {
    hide Sound, CaughtUp, Listed;
    forall x | x != ROOT_OP ensures Listed(a, x) <==> Listed(b, x) {
      if Listed(a, x) { CaughtUpLists(b, a, x); }
      if Listed(b, x) { CaughtUpLists(a, b, x); }
    }
  }

  /** A chain of machines, each caught up with its neighbours both ways. */
  ghost predicate Chain(machines: seq<Repo>) {
    && (forall i :: 0 <= i < |machines| ==> Sound(machines[i]))
    && (forall i :: 0 <= i < |machines| - 1 ==>
          && Agree(machines[i].ops, machines[i + 1].ops)
          && CaughtUp(machines[i], machines[i + 1]) && CaughtUp(machines[i + 1], machines[i]))
  }

  /** Op-log convergence: machines joined by caught-up exchanges list the same ops. */
  lemma {:induction false} Converged(machines: seq<Repo>)
    requires machines != [] && Chain(machines)
    ensures forall x :: x != ROOT_OP ==> (Listed(machines[0], x) <==> Listed(machines[|machines| - 1], x))
    decreases |machines|
  {
    hide Sound, CaughtUp, Listed, Agree;
    if |machines| > 1 {
      var init := machines[..|machines| - 1];
      assert forall i :: 0 <= i < |init| ==> init[i] == machines[i];
      Converged(init);
      SameListing(machines[|machines| - 2], machines[|machines| - 1]);
    }
  }
}
