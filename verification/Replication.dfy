/** The whole way of an operation: published on one machine, announced, fetched and
    listed on the other, with every commit it references. */
module Replication {
  import opened Collections
  import Dag
  import opened OpLog
  import opened Replica
  import opened Fetching
  import opened Convergence
  import AB = ApplyBatch
  import G = GitObjects
  import I = Inbox
  import L = LatestWins
  import D = Drains
  import Mirror
  import ServeGit
  import OpWalks
  import Sorted

  /** What a repo task's last pass over its inbox left behind. */
  datatype Pass = Pass(before: I.Slots, results: seq<D.Handled>, arriving: nat -> seq<D.Event>,
                       meeting: I.PeerAnnounce -> D.Meeting)

  ghost function HandedOut(p: Pass): seq<I.PeerAnnounce> {
    I.Waiting(p.before, Sorted.Keys(p.before.Keys))
  }

  /** A pass that ended with these slots and this repo. */
  ghost predicate Passed(p: Pass, after: I.Slots, r: Repo) {
    && |p.results| == |HandedOut(p)|
    && after == D.AfterAll(I.Drained(p.before), HandedOut(p), p.results, p.arriving)
    && D.HandledListed(r, HandedOut(p), p.results, p.meeting)
  }

  /** An announcement handed out whose slot is left drained was handled: its heads
      are listed. */
  lemma DrainedIsListed(p: Pass, after: I.Slots, r: Repo, k: nat)
    requires Passed(p, after, r) && D.Roomy(r)
    requires k < |p.results| && D.StaysConnected(p.arriving, |p.results|, HandedOut(p)[k].peer)
    requires D.WellSized(HandedOut(p)[k], p.meeting(HandedOut(p)[k]))
    requires HandedOut(p)[k].peer in after && after[HandedOut(p)[k].peer].seqNo == HandedOut(p)[k].seqNo
    requires after[HandedOut(p)[k].peer].drained
    ensures AllListed(r, HandedOut(p)[k].heads) && after[HandedOut(p)[k].peer].heads == HandedOut(p)[k].heads
  {
    hide D.AfterAll, D.Roomy, AllListed, D.WellSized, D.StaysConnected, I.Waiting, I.Drained, Sorted.Keys;
    D.FailedWaitAgain(p.before, p.results, p.arriving, k);
  }

  /** From publication to listing. A machine announced its op heads; everything it
      sent arrived and the announcement was accepted; the receiving task handed it
      out in a pass that left nothing of it waiting. Then the receiver is caught up
      with the heads announced, and stays so whatever happens to its repo later. */
  lemma PublicationListed(r: L.Receiver, run: seq<L.Channel>, n: nat, p: Pass, k: nat, trace: seq<World>,
                          sender: Repo)
    requires L.Run(r, run) && n < |run| && run[n].last.Some? && run[n].queued.None? && run[n].sent <= run[n].arrived
    requires L.Accepted(r, run[n].last.value) && Elems(run[n].last.value.heads) == sender.heads
    requires Run(trace) && Inv(trace[0])
    requires Passed(p, run[n].slots, trace[0].repo) && D.Roomy(trace[0].repo)
    requires k < |p.results| && D.StaysConnected(p.arriving, |p.results|, r.peer)
    requires HandedOut(p)[k].peer == r.peer && HandedOut(p)[k].seqNo == run[n].last.value.seqNo
    requires D.WellSized(HandedOut(p)[k], p.meeting(HandedOut(p)[k]))
    requires r.peer in run[n].slots && run[n].slots[r.peer].drained
    ensures CaughtUp(trace[|trace| - 1].repo, sender)
  {
    hide Step, Inv, D.HandledListed, D.AfterAll, D.Roomy, D.WellSized, D.StaysConnected, L.Run, L.Accepted, AllListed,
      CaughtUp, I.Waiting, Elems;
    L.UpToDate(r, run, n);
    DrainedIsListed(p, run[n].slots, trace[0].repo, k);
    ListedHeads(trace[0].repo, sender, HandedOut(p)[k].heads);
    CaughtUpStays(trace, sender);
  }

  // The mirror merges for the heads the publication leaves.

  /** A plan as the mirror reads it. */
  function AsMirrored(plan: seq<Planned>): (r: seq<(OpId, seq<OpId>)>)
    ensures |r| == |plan| && forall i :: 0 <= i < |r| ==> r[i] == (plan[i].want, plan[i].covered)
  {
    seq(|plan|, i requires 0 <= i < |plan| => (plan[i].want, plan[i].covered))
  }

  /** The op heads the mirror merges for are exactly those the publication leaves, when
      no want is itself superseded, as it is when only local heads are superseded and
      no want is one. */
  lemma MirrorsPublication(opHeads: seq<OpId>, plan: seq<Planned>, after: set<OpId>)
    requires AB.Leaves(Elems(opHeads), plan, after)
    requires forall i, j :: 0 <= i < |plan| && 0 <= j < |plan| ==> plan[i].want !in plan[j].covered
    ensures Elems(Mirror.Published(opHeads, AsMirrored(plan))) == after
  {
    var publish := AsMirrored(plan);
    forall h ensures h in Mirror.Published(opHeads, publish) <==> h in after {
      assert Mirror.Publishes(publish, h) <==> AB.Wanted(plan, h) by {
        if i :| 0 <= i < |plan| && plan[i].want == h { assert publish[i].0 == h; }
      }
      if Mirror.Superseded(publish, h) {
        var i :| 0 <= i < |publish| && h in publish[i].1;
        assert h in plan[i].covered;
        assert AB.Unlisted(plan, h);
      }
      if AB.Unlisted(plan, h) {
        var i :| 0 <= i < |plan| && h in plan[i].covered && forall j :: i < j < |plan| ==> plan[j].want != h;
        assert h in publish[i].1;
      }
    }
  }

  // What listed operations reference.

  /** The git store and the batch being written keep to commits, stored whole. */
  ghost predicate GitInv(u: G.Content, w: World) {
    GitClosed(u, w.repo) && (w.fetch.Staging? ==> forall t :: t in w.fetch.todo ==> Referable(u, CommitsOf(t)))
  }

  function CommitsOf(t: Write): set<CommitId> {
    if t.PutView? then t.view.commits else t.op.op.commits
  }

  /** A step in which jj keeps its git store whole, git objects arrive as a prefix of
      an honest stream would leave them, and batches reference commits. */
  ghost predicate HonestStep(u: G.Content, w: World, w': World) {
    && Step(w, w')
    && (LocalWrite(w, w') ==> GitClosed(u, w'.repo))
    && (GitArrives(w, w') ==> G.Complete(u, w'.repo.git))
    && (StartStaging(w, w') ==> Referable(u, Referenced(w'.fetch.batch)))
  }

  lemma BatchReferable(u: G.Content, w: World, w': World)
    requires StartStaging(w, w') && Referable(u, Referenced(w'.fetch.batch))
    ensures w'.repo == w.repo && forall t :: t in w'.fetch.todo ==> Referable(u, CommitsOf(t))
  {
    hide Accepted, Refs, RootFree, Agree;
    var batch := w'.fetch.batch;
    StagedOpsMembers(w.repo, batch.ops);
    StagedViewsMembers(w.repo, batch.views);
    forall t | t in w'.fetch.todo ensures CommitsOf(t) <= Referenced(batch) {
    }
  }

  lemma StageReferable(u: G.Content, w: World, w': World)
    requires GitInv(u, w) && StageOne(w, w')
    ensures GitInv(u, w')
  {
    hide G.Complete, Referable;
    var todo := w.fetch.todo;
    assert forall t :: t in todo <==> t == todo[0] || t in todo[1..];
    assert Referable(u, CommitsOf(todo[0]));
    assert w'.repo == Apply(w.repo, todo[0]) && w'.fetch.todo == todo[1..];
  }

  lemma HonestStepKeeps(u: G.Content, w: World, w': World)
    requires GitInv(u, w) && HonestStep(u, w, w')
    ensures GitInv(u, w')
  {
    hide G.Complete, Referable, Sound, Grows, BatchAgrees, StageOne, AllReferable, Referenced, Dag.StrictAncestor,
      OpWalks.Supersedes;
    if LocalWrite(w, w') || GitArrives(w, w') {
    } else if StartStaging(w, w') {
      BatchReferable(u, w, w');
    } else if StageOne(w, w') {
      StageReferable(u, w, w');
    }
  }

  ghost predicate HonestRun(u: G.Content, trace: seq<World>) {
    trace != [] && forall i :: 0 <= i < |trace| - 1 ==> HonestStep(u, trace[i], trace[i + 1])
  }

  lemma {:induction false} GitKept(u: G.Content, trace: seq<World>)
    requires HonestRun(u, trace) && GitInv(u, trace[0])
    ensures GitInv(u, trace[|trace| - 1])
    decreases |trace|
  {
    hide HonestStep, GitInv;
    if |trace| > 1 {
      var init := trace[..|trace| - 1];
      assert HonestRun(u, init);
      GitKept(u, init);
      HonestStepKeeps(u, trace[|trace| - 2], trace[|trace| - 1]);
    }
  }

  /** Wherever a run of fetches, crashes and local operations left a repo, a retry may
      start from there: this is all `Convergence.Retry` asks of it. */
  lemma RetriableAnywhere(u: G.Content, trace: seq<World>)
    requires HonestRun(u, trace) && Inv(trace[0]) && GitInv(u, trace[0])
    ensures Sound(trace[|trace| - 1].repo) && GitClosed(u, trace[|trace| - 1].repo)
  {
    hide HonestStep, Sound, GitClosed, Lands;
    HonestIsRun(u, trace);
    NothingLost(trace);
    GitKept(u, trace);
  }

  /** Nothing dangles: over any run with honest git phases, cut and crashed at will,
      every listed operation is stored with its view, and every commit either
      references is in the git store with its ancestry, trees and blobs. */
  lemma NothingDangles(u: G.Content, trace: seq<World>, x: OpId, c: CommitId)
    requires HonestRun(u, trace) && Inv(trace[0]) && GitInv(u, trace[0])
    requires x != ROOT_OP && Listed(trace[|trace| - 1].repo, x)
    ensures x in trace[|trace| - 1].repo.ops
    ensures var r := trace[|trace| - 1].repo; var o := r.ops[x];
            && HasView(r.views, o.view)
            && (c in o.commits || (o.view in r.views && c in r.views[o.view]) ==>
                  c == ServeGit.VIRTUAL_ROOT || G.Holds(u, r.git, c))
  {
    hide HonestStep, Listed, GitClosed, G.Holds;
    HonestIsRun(u, trace);
    NothingLost(trace);
    GitKept(u, trace);
    var r := trace[|trace| - 1].repo;
    ListedStored(r, x);
    ViewStored(r, x);
    if c in r.ops[x].commits || (r.ops[x].view in r.views && c in r.views[r.ops[x].view]) {
      StoredClosure(u, r, x, c);
    }
  }

  lemma ViewStored(r: Repo, x: OpId)
    requires Sound(r) && x in r.ops
    ensures HasView(r.views, r.ops[x].view)
  {
  }

  lemma HonestIsRun(u: G.Content, trace: seq<World>)
    requires HonestRun(u, trace)
    ensures Run(trace)
  {
    hide Step, GitClosed, LocalWrite, GitArrives, StartStaging;
  }
}
