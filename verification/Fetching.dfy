/** A whole fetch: from any peer, and from an honest one, which it completes. */
module Fetching {
  import opened Collections
  import Dag
  import opened OpLog
  import opened Replica
  import opened ApplyBatch
  import CW = ClosureWalk
  import G = GitObjects
  import Git = FetchGit
  import M = MissingHeads
  import S = ServeOps
  import Sampling
  import ServeGit

  const MAX_WANTS := 64

  /** What a peer sends in answer to a fetch: its op frames, then git objects, whose
      end may never come. */
  datatype Answer = Answer(frames: seq<Frame>, objects: seq<Git.Frame>, finished: bool)

  /** Ids determine content: an op sent under a stored id is the stored op. */
  ghost predicate KeepsIds(frames: seq<Frame>, ops: Ops) {
    forall f :: f in frames && f.OpFrame? && f.op.id in ops ==> f.op.op == ops[f.op.id]
  }

  lemma {:induction false} OpsAreFrames(frames: seq<Frame>)
    ensures forall o :: o in OpsOf(frames) ==> OpFrame(o) in frames
    decreases |frames|
  {
    if frames != [] {
      OpsAreFrames(frames[..|frames| - 1]);
    }
  }

  lemma {:induction false} ByIdFrom(ops: seq<StoredOp>, x: OpId)
    requires x in ById(ops)
    ensures exists o :: o in ops && o.id == x && ById(ops)[x] == o.op
    decreases |ops|
  {
    var init, last := ops[..|ops| - 1], ops[|ops| - 1];
    if x == last.id {
      assert last in ops;
    } else {
      ByIdFrom(init, x);
      var o :| o in init && o.id == x && ById(init)[x] == o.op;
      assert o in ops;
    }
  }

  lemma BatchKeepsIds(frames: seq<Frame>, k: nat, ops: Ops)
    requires k <= |frames| && KeepsIds(frames, ops)
    ensures Agree(ById(OpsOf(frames[..k])), ops)
  {
    hide OpsOf, ById;
    var batch := OpsOf(frames[..k]);
    OpsAreFrames(frames[..k]);
    forall x | x in ById(batch) && x in ops ensures ById(batch)[x] == ops[x] {
      ByIdFrom(batch, x);
      var o :| o in batch && o.id == x && ById(batch)[x] == o.op;
      assert OpFrame(o) in frames;
    }
  }

  /** A batch accepted from any peer can be applied once its commits arrived, and
      covers the wants. */
  lemma AcceptedAppliable(r: Repo, wants: seq<OpId>, frames: seq<Frame>, k: nat, git: set<CommitId>)
    requires Sound(r) && Accepted(r.ops, r.views, wants, frames, k) && Agree(ById(BatchAt(frames, k).ops), r.ops)
    requires r.git <= git && Refs(git, Referenced(BatchAt(frames, k)))
    ensures Appliable(r.(git := git), BatchAt(frames, k))
    ensures forall local :: Covering(r.ops, BatchAt(frames, k), wants, local)
  {
    hide Sound, FrameOk, AllReachable, Covered, Lands, Staged, OpsOf, ViewsOf, Referenced, RootFree, Agree, Refs;
    var r', batch := r.(git := git), BatchAt(frames, k);
    MoreGit(r, git);
    AcceptedDistinct(r, wants, frames, k);
    if RootFree(batch) {
      ArrivedCovers(r', batch);
      AcceptedLands(r', wants, frames, k);
    }
  }

  /** Git objects that arrive leave the stores closed and every listed op listed. */
  lemma MoreGit(r: Repo, git: set<CommitId>)
    requires Sound(r) && r.git <= git
    ensures Sound(r.(git := git)) && Grows(r, r.(git := git))
    ensures forall x :: Listed(r, x) ==> Listed(r.(git := git), x)
  {
    hide Dag.Acyclic, Dag.ParentClosed, Dag.AncestorOfAny;
  }

  /** A fetch of `wants` that was answered this way can succeed: the op frames make a
      batch no object of which claims the root's id, the git stream ended with
      every object hashing to its id, and what the batch references is there. */
  ghost predicate Fetchable(r: Repo, wants: seq<OpId>, a: Answer) {
    && 1 <= |wants| <= MAX_WANTS && a.finished && Git.HashesMatch(a.objects)
    && exists k: nat ::
         && Accepted(r.ops, r.views, wants, a.frames, k) && RootFree(BatchAt(a.frames, k))
         && Refs(r.git + Elems(Git.Claimed(a.objects)), Referenced(BatchAt(a.frames, k)))
  }

  /** One stream is accepted at one `Done` only. */
  lemma OneBatch(r: Repo, wants: seq<OpId>, a: Answer, k: nat)
    requires Accepted(r.ops, r.views, wants, a.frames, k) && a.finished && Git.HashesMatch(a.objects)
    requires 1 <= |wants| <= MAX_WANTS
    ensures Fetchable(r, wants, a) <==>
            RootFree(BatchAt(a.frames, k))
            && Refs(r.git + Elems(Git.Claimed(a.objects)), Referenced(BatchAt(a.frames, k)))
  {
    hide Accepted, Refs, RootFree, Referenced;
    S.OnlyOneDone(r.ops, r.views, wants, a.frames, k);
  }

  lemma ArrivedRefs(store: set<CommitId>, git: set<CommitId>, referenced: seq<CommitId>, missing: seq<CommitId>,
                    all: set<CommitId>)
    requires store <= git && Enumerates(referenced, all)
    requires forall x :: x in missing <==> x in referenced && x != ServeGit.VIRTUAL_ROOT && x !in store
    ensures Elems(missing) <= git <==> Refs(git, all)
  {
    if Refs(git, all) {
      forall x | x in missing ensures x in git {
        assert x in all;
      }
    }
    if Elems(missing) <= git {
      forall x | x in all ensures x in git + {ServeGit.VIRTUAL_ROOT} {
        assert x in referenced;
        if x != ServeGit.VIRTUAL_ROOT && x !in store {
          assert x in Elems(missing);
        }
      }
    }
  }

  /** A fetch from any peer. Whatever it sends, the stores stay closed and every
      listed op listed. Nothing but git objects lands unless the answer can be
      taken, and without a crash the fetch succeeds exactly when it can. */
  method Fetch(repo: LocalRepo, wants: seq<OpId>, viewHeads: seq<CommitId>, a: Answer, crash: Crash)
    returns (done: bool)
    requires Sound(repo.Value()) && KeepsIds(a.frames, repo.ops)
    modifies repo
    ensures Sound(repo.Value()) && Grows(old(repo.Value()), repo.Value())
    ensures repo.git <= old(repo.git) + Elems(Git.Claimed(a.objects))
    ensures forall x :: x in repo.ops && x !in old(repo.ops) ==> OpFrame(StoredOp(x, repo.ops[x])) in a.frames
    ensures forall x :: old(Listed(repo.Value(), x)) ==> Listed(repo.Value(), x)
    ensures old(!Fetchable(repo.Value(), wants, a)) ==>
              !done && repo.Value() == old(repo.Value()).(git := repo.git)
    ensures done ==> forall w :: w in wants ==> Listed(repo.Value(), w)
    ensures done ==> Replaced(GraphOf(repo.ops), old(repo.heads), old(repo.heads), wants, repo.heads)
    ensures crash.NoCrash? ==> (done <==> old(Fetchable(repo.Value(), wants, a)))
  {
    hide Sound, Listed, Fetchable, Grows, FrameOk, AllReachable, Refs, Referenced, RootFree, Appliable, Covering,
      KeepsIds, Git.HashesMatch, Git.Claimed, NoDup, OpsOf, ViewsOf, Agree, Staged, ApplyAll,
      Replaced, GraphOf;
    ghost var r := repo.Value();
    ItselfGrows(r);
    if !(1 <= |wants| <= MAX_WANTS) {
      BadWants(r, wants, a);
      return false;
    }
    var local := AnyOrder(repo.heads);
    var batch := ReceiveOps(repo.ops, repo.views, wants, a.frames);
    if batch.None? {
      NotAccepted(r, wants, a);
      return false;
    }
    ghost var k: nat :| Accepted(r.ops, r.views, wants, a.frames, k) && batch.value == BatchAt(a.frames, k);
    var referenced := AnyOrder(Referenced(batch.value));
    var missing, haves := Git.SplitReferenced(repo.git, viewHeads, referenced);
    var receiver, ok := Git.ReceiveStream(repo.git, a.objects, a.finished);
    GitGrows(receiver, a.objects);
    repo.git := receiver.store;
    ghost var fetched := repo.Value();
    assert fetched == r.(git := receiver.store);
    MoreGit(r, receiver.store);
    if !ok {
      CutOff(r, wants, a);
      return false;
    }
    OneBatch(r, wants, a, k);
    var arrived := Git.EnsureGitWantsArrived(repo.git, missing);
    ArrivedRefs(r.git, repo.git, referenced, missing, Referenced(batch.value));
    if !arrived {
      return false;
    }
    BatchKeepsIds(a.frames, k, r.ops);
    AcceptedAppliable(r, wants, a.frames, k, repo.git);
    done := ApplyFetched(repo, batch.value, wants, local, crash);
    ghost var n: nat :| n <= |Staged(fetched, batch.value)|
                        && repo.Value() == WithHeads(ApplyAll(fetched, Staged(fetched, batch.value)[..n]), repo.heads);
    NewAreSent(fetched, a.frames, k, n);
    GrowsOn(r, fetched, repo.Value());
    LocalListed(r, local, repo.Value());
    LocalElems(r, local);
  }

  /** Every op that lands was sent. */
  lemma NewAreSent(r: Repo, frames: seq<Frame>, k: nat, n: nat)
    requires k <= |frames| && n <= |Staged(r, BatchAt(frames, k))|
    ensures var ops := ApplyAll(r, Staged(r, BatchAt(frames, k))[..n]).ops;
            forall x :: x in ops && x !in r.ops ==> OpFrame(StoredOp(x, ops[x])) in frames
  {
    hide ApplyAll;
    var batch := BatchAt(frames, k);
    var ws := Staged(r, batch);
    WritesGrow(r, ws[..n]);
    StagedOpsMembers(r, batch.ops);
    StagedViewsMembers(r, batch.views);
    OpsAreFrames(frames[..k]);
    forall x | x in ApplyAll(r, ws[..n]).ops && x !in r.ops
      ensures OpFrame(StoredOp(x, ApplyAll(r, ws[..n]).ops[x])) in frames
    {
      var o := StoredOp(x, ApplyAll(r, ws[..n]).ops[x]);
      assert PutOp(o) in ws;
      assert o in batch.ops;
    }
  }

  lemma BadWants(r: Repo, wants: seq<OpId>, a: Answer)
    requires !(1 <= |wants| <= MAX_WANTS)
    ensures !Fetchable(r, wants, a)
  {
  }

  lemma NotAccepted(r: Repo, wants: seq<OpId>, a: Answer)
    requires forall k: nat :: !Accepted(r.ops, r.views, wants, a.frames, k)
    ensures !Fetchable(r, wants, a)
  {
  }

  lemma CutOff(r: Repo, wants: seq<OpId>, a: Answer)
    requires !(a.finished && Git.HashesMatch(a.objects))
    ensures !Fetchable(r, wants, a)
  {
  }

  lemma GitGrows(receiver: Git.LooseReceiver, objects: seq<Git.Frame>)
    requires receiver.Valid() && receiver.received <= objects
    ensures receiver.initial <= receiver.store <= receiver.initial + Elems(Git.Claimed(objects))
  {
    var done := receiver.received[..receiver.written];
    Git.ClaimedPrefix(done, objects);
    assert forall x :: x in Git.Claimed(done) ==> x in Git.Claimed(objects);
  }

  lemma GrowsOn(r: Repo, mid: Repo, r': Repo)
    requires Grows(r, mid) && Grows(mid, r')
    ensures Grows(r, r')
  {
  }

  lemma LocalElems(r: Repo, local: seq<OpId>)
    requires Enumerates(local, r.heads)
    ensures Elems(local) == r.heads
  {
  }

  /** A local head stays listed. */
  lemma LocalListed(r: Repo, local: seq<OpId>, r': Repo)
    requires Enumerates(local, r.heads)
    requires forall x :: Listed(r, x) ==> Listed(r', x)
    ensures forall x :: x in local ==> Listed(r', x)
  {
    hide Listed;
    forall x | x in local ensures Listed(r', x) {
      HeadListed(r, x);
    }
  }

  // Fetching from an honest machine.

  /** What an id in the op log references is a commit, the virtual root aside. */
  ghost predicate Referable(u: G.Content, commits: set<CommitId>) {
    forall c :: c in commits && c != ServeGit.VIRTUAL_ROOT ==> G.IsCommit(u, c)
  }

  ghost predicate AllReferable(u: G.Content, ops: Ops, views: Views) {
    (forall x :: x in ops ==> Referable(u, ops[x].commits)) && (forall v :: v in views ==> Referable(u, views[v]))
  }

  /** The git store keeps its rule, and the op log references commits. */
  ghost predicate GitClosed(u: G.Content, r: Repo) {
    G.Complete(u, r.git) && AllReferable(u, r.ops, r.views)
  }

  /** Everything a stored op references, itself or through its view, is stored with
      its whole closure: ancestry, trees and blobs. */
  lemma StoredClosure(u: G.Content, r: Repo, x: OpId, c: CommitId)
    requires Sound(r) && GitClosed(u, r) && x in r.ops
    requires c in r.ops[x].commits || (r.ops[x].view in r.views && c in r.views[r.ops[x].view])
    ensures HasView(r.views, r.ops[x].view)
    ensures c == ServeGit.VIRTUAL_ROOT || G.Holds(u, r.git, c)
  {
    hide Dag.Acyclic, Dag.ParentClosed, G.Holds;
  }

  /** A machine to fetch from: its op log, its git objects with their content, the
      commits its index knows, and what jj answers for `haves..wants`. */
  datatype Server = Server(
    ops: Ops, views: Views, content: G.Content, index: set<CommitId>,
    opRange: (seq<OpId>, seq<OpId>) -> seq<OpId>, gitRange: (seq<CommitId>, seq<CommitId>) -> seq<CommitId>)

  ghost predicate AnswersOps(s: Server) {
    forall wants, haves :: (forall w :: w in wants ==> HasOp(s.ops, w)) ==>
      S.IsOpRange(s.ops, wants, haves, s.opRange(wants, haves))
      && 2 * |s.opRange(wants, haves)| + 2 <= MAX_OP_FRAMES
  }

  ghost predicate AnswersGit(u: G.Content, s: Server) {
    && CW.Sub(s.content, u) && G.WellTyped(u) && ServeGit.IndexOf(u, s.index)
    && forall haves, wants :: Elems(wants) <= s.index ==>
         ServeGit.IsCommitRange(u, s.index, haves, wants, s.gitRange(haves, wants))
  }

  ghost predicate Honest(u: G.Content, s: Server, fetcher: Ops) {
    && S.WellFormed(s.ops, s.views) && Agree(s.ops, fetcher) && AllReferable(u, s.ops, s.views)
    && AnswersOps(s) && AnswersGit(u, s)
  }

  /** It stores every view of its ops and every commit they reference, whole. */
  ghost predicate Whole(u: G.Content, s: Server) {
    && G.Complete(u, s.content.Keys) && s.index <= s.content.Keys + {ServeGit.VIRTUAL_ROOT}
    && (forall x :: x in s.ops ==>
          s.ops[x].view in s.views && s.ops[x].commits <= s.index + {ServeGit.VIRTUAL_ROOT})
    && (forall v :: v in s.views ==> s.views[v] <= s.index + {ServeGit.VIRTUAL_ROOT})
  }

  lemma {:induction false} DataSize(ops: Ops, views: Views, range: seq<OpId>)
    requires forall x :: x in range ==> x in ops
    ensures |S.Data(ops, views, range)| <= 2 * |range|
    decreases |range|
  {
    if range != [] {
      DataSize(ops, views, range[..|range| - 1]);
    }
  }

  /** Haves are sampled from a sound repo, and all stored. */
  lemma HavesStored(r: Repo, heads: seq<OpId>, haves: seq<OpId>)
    requires Sound(r) && Enumerates(heads, r.heads)
    requires forall x :: x in haves ==> x in heads || Sampling.IsSample(r.ops, heads, x)
    ensures forall x :: x in haves ==> HasOp(r.ops, x)
  {
    hide Dag.Acyclic;
    var stored := r.ops.Keys + {ROOT_OP};
    StoredClosed(r);
    forall x | x in haves ensures HasOp(r.ops, x) {
      Sampling.HavesOnChain(r.ops, heads, x);
      var h, d :| h in heads && Sampling.Nth(r.ops, h, d) == Some(x);
      Sampling.ChainIsAncestry(r.ops, h, d);
      Dag.InClosed(GraphOf(r.ops), x, h, stored);
    }
  }

  lemma StoredClosed(r: Repo)
    requires Sound(r)
    ensures Dag.Closed(GraphOf(r.ops), r.ops.Keys + {ROOT_OP})
  {
    hide Dag.Acyclic;
    var g := GraphOf(r.ops);
    forall x, p | x in r.ops.Keys + {ROOT_OP} && p in Dag.Parents(g, x) ensures p in r.ops.Keys + {ROOT_OP} {
      assert x in g && p in g[x];
      assert p in g || p == ROOT_OP;
    }
  }

  /** A repo's invariant is what its op log needs to be sampled, walked, served and
      fetched into. */
  lemma SoundExchange(r: Repo)
    requires Sound(r)
    ensures S.WellFormed(r.ops, r.views)
    ensures forall heads: seq<OpId> :: Enumerates(heads, r.heads) ==> M.Walkable(r.ops, heads)
  {
    hide Dag.Acyclic;
  }

  /** The op range a server answers with, as it is to be served. */
  lemma RangeServed(u: G.Content, s: Server, fetcher: Ops, wants: seq<OpId>, haves: seq<OpId>)
    requires Honest(u, s, fetcher) && forall w :: w in wants ==> HasOp(s.ops, w)
    ensures var range := s.opRange(wants, haves);
            && S.IsOpRange(s.ops, wants, haves, range) && (forall x :: x in range ==> x in s.ops)
            && |S.Data(s.ops, s.views, range)| + 2 <= MAX_OP_FRAMES
  {
    hide AnswersGit, AllReferable, S.WellFormed, S.Delta;
    var range := s.opRange(wants, haves);
    forall x | x in range ensures x in s.ops {
      Sampling.DeltaStored(s.ops, s.views, wants, haves, x);
      NotRoot(s.ops, wants, haves, x);
    }
    DataSize(s.ops, s.views, range);
  }

  lemma NotRoot(ops: Ops, wants: seq<OpId>, haves: seq<OpId>, x: OpId)
    requires S.Delta(ops, wants, haves, x)
    ensures x != ROOT_OP
  {
  }

  /** What an honest server's batch is, at the fetcher. */
  ghost predicate FromServer(s: Server, batch: Batch) {
    && (forall o :: o in batch.ops ==> o.id in s.ops && o.op == s.ops[o.id])
    && (forall v :: v in batch.views ==> v.id in s.views && v.commits == s.views[v.id])
  }

  lemma IsFromServer(s: Server, batch: Batch)
    requires forall o :: o in batch.ops ==> o.id in s.ops && o.op == s.ops[o.id]
    requires forall v :: v in batch.views ==> v.id in s.views && v.commits == s.views[v.id]
    ensures FromServer(s, batch)
  {
  }

  lemma HonestBatch(u: G.Content, s: Server, fetcher: Ops, batch: Batch)
    requires Honest(u, s, fetcher) && FromServer(s, batch)
    ensures Agree(ById(batch.ops), fetcher) && RootFree(batch) && Referable(u, Referenced(batch))
    ensures Whole(u, s) ==> Referenced(batch) <= s.index + {ServeGit.VIRTUAL_ROOT}
  {
    hide AnswersOps, AnswersGit, ById, Dag.ParentClosed, G.Complete;
    forall x | x in ById(batch.ops) && x in fetcher ensures ById(batch.ops)[x] == fetcher[x] {
      ByIdFrom(batch.ops, x);
    }
  }

  lemma {:induction false} WritesReferable(u: G.Content, r: Repo, ws: seq<Write>)
    requires AllReferable(u, r.ops, r.views)
    requires forall t :: t in ws ==> if t.PutView? then Referable(u, t.view.commits) else Referable(u, t.op.op.commits)
    ensures AllReferable(u, ApplyAll(r, ws).ops, ApplyAll(r, ws).views)
    decreases |ws|
  {
    hide Referable;
    if ws != [] {
      WritesReferable(u, Apply(r, ws[0]), ws[1..]);
    }
  }

  lemma StagedReferable(u: G.Content, s: Server, r: Repo, batch: Batch, n: nat)
    requires AllReferable(u, s.ops, s.views) && AllReferable(u, r.ops, r.views) && FromServer(s, batch)
    requires n <= |Staged(r, batch)|
    ensures var r' := ApplyAll(r, Staged(r, batch)[..n]); AllReferable(u, r'.ops, r'.views)
  {
    hide Referable;
    var ws := Staged(r, batch);
    StagedOpsMembers(r, batch.ops);
    StagedViewsMembers(r, batch.views);
    forall t | t in ws[..n]
      ensures if t.PutView? then Referable(u, t.view.commits) else Referable(u, t.op.op.commits)
    {
      assert t in ws;
    }
    WritesReferable(u, r, ws[..n]);
  }

  lemma HeadsReadable(r: Repo, local: seq<OpId>)
    requires Sound(r) && Enumerates(local, r.heads)
    ensures (forall h :: h in local ==> HasOp(r.ops, h)) && Dag.ParentClosed(GraphOf(r.ops))
  {
    hide Dag.Acyclic, Dag.ParentClosed;
  }

  lemma ToExchange(u: G.Content, s: Server, r: Repo, range: seq<OpId>)
    requires Sound(r) && Honest(u, s, r.ops)
    ensures S.WellFormed(s.ops, s.views) && S.WellFormed(r.ops, r.views) && Agree(s.ops, r.ops)
    ensures Whole(u, s) ==> S.Viewed(s.ops, s.views, range)
  {
    hide Sound, S.WellFormed, AnswersOps, AnswersGit, G.Complete, Agree;
    SoundExchange(r);
  }

  lemma ToGitPhase(u: G.Content, s: Server, r: Repo, referenced: seq<CommitId>, all: set<CommitId>)
    requires Honest(u, s, r.ops) && GitClosed(u, r) && Enumerates(referenced, all) && Referable(u, all)
    ensures CW.Sub(s.content, u) && G.WellTyped(u) && ServeGit.IndexOf(u, s.index) && G.Complete(u, r.git)
    ensures forall haves, wants :: Elems(wants) <= s.index ==>
              ServeGit.IsCommitRange(u, s.index, haves, wants, s.gitRange(haves, wants))
    ensures forall x :: x in referenced && x != ServeGit.VIRTUAL_ROOT ==> G.IsCommit(u, x)
    ensures Whole(u, s) && all <= s.index + {ServeGit.VIRTUAL_ROOT} ==>
              && G.Complete(u, s.content.Keys) && s.index <= s.content.Keys + {ServeGit.VIRTUAL_ROOT}
              && Elems(referenced) <= s.index + r.git + {ServeGit.VIRTUAL_ROOT}
  {
    hide S.WellFormed, AnswersOps, G.Complete, Agree, G.WellTyped, ServeGit.IndexOf, ServeGit.IsCommitRange,
      CW.Sub;
  }

  /** Commits that arrived with their closure arrived. */
  lemma HeldRefs(u: G.Content, store: set<CommitId>, referenced: seq<CommitId>, all: set<CommitId>)
    requires Enumerates(referenced, all)
    requires forall x :: x in referenced && x != ServeGit.VIRTUAL_ROOT ==> G.Holds(u, store, x)
    ensures Refs(store, all)
  {
    forall c | c in all && c != ServeGit.VIRTUAL_ROOT ensures c in store {
      assert c in referenced;
    }
  }

  lemma StillClosed(u: G.Content, r: Repo, store: set<CommitId>)
    requires GitClosed(u, r) && G.Complete(u, store)
    ensures GitClosed(u, r.(git := store))
  {
    hide G.Complete, Referable;
  }

  lemma AfterApply(u: G.Content, s: Server, r: Repo, fetched: Repo, batch: Batch, n: nat, after: Repo)
    requires GitClosed(u, fetched) && Honest(u, s, r.ops) && FromServer(s, batch)
    requires n <= |Staged(fetched, batch)|
    requires after == WithHeads(ApplyAll(fetched, Staged(fetched, batch)[..n]), after.heads)
    ensures GitClosed(u, after)
  {
    hide G.Complete, AllReferable, Staged, ApplyAll, FromServer, AnswersGit, AnswersOps;
    StagedReferable(u, s, fetched, batch, n);
    WritesOnly(fetched, Staged(fetched, batch)[..n]);
  }

  /** A fetch from an honest machine, its git stream cut at any object and a crash
      falling anywhere: the stores stay closed, the git store whole, and every
      listed op listed. Uncut, from a server that has what its op log references,
      it succeeds, and lists every want. */
  method HonestFetch(ghost u: G.Content, repo: LocalRepo, s: Server, wants: seq<OpId>, viewHeads: seq<CommitId>,
                     size: CommitId -> nat, cut: Option<nat>, crash: Crash)
    returns (done: bool)
    requires Sound(repo.Value()) && GitClosed(u, repo.Value()) && Honest(u, s, repo.ops)
    requires Elems(viewHeads) <= repo.git + {ServeGit.VIRTUAL_ROOT}
    requires forall w :: w in wants ==> HasOp(s.ops, w)
    modifies repo
    ensures Sound(repo.Value()) && GitClosed(u, repo.Value()) && Grows(old(repo.Value()), repo.Value())
    ensures forall x :: old(Listed(repo.Value(), x)) ==> Listed(repo.Value(), x)
    ensures done ==> forall w :: w in wants ==> Listed(repo.Value(), w)
    ensures done ==> Replaced(GraphOf(repo.ops), old(repo.heads), old(repo.heads), wants, repo.heads)
    ensures !(1 <= |wants| <= MAX_WANTS) ==> !done && repo.Value() == old(repo.Value())
    ensures 1 <= |wants| <= MAX_WANTS && cut.None? && crash.NoCrash? && Whole(u, s) ==> done
  {
    hide Sound, Listed, Grows, FrameOk, AllReachable, Refs, Referenced, RootFree, Appliable, Covering, GitClosed,
      Honest, Whole, FromServer, NoDup, OpsOf, ViewsOf, Agree, Staged, ApplyAll, S.WellFormed, S.IsOpRange, S.Data,
      S.Viewed, Dag.ParentClosed, Dag.AncestorOfAny, G.Complete, G.Holds, G.WellTyped, G.IsCommit, Elems, Enumerates,
      ServeGit.IsCommitRange, ServeGit.IndexOf, CW.Sub, Referable, Sampling.IsSample, Sampling.Sampled,
      ById, GraphOf, OpIds, Replaced;
    ghost var r := repo.Value();
    ItselfGrows(r);
    if !(1 <= |wants| <= MAX_WANTS) {
      return false;
    }
    var local := AnyOrder(repo.heads);
    HeadsReadable(r, local);
    var haves, _ := Sampling.SampleHaves(repo.ops, local);
    HavesStored(r, local, haves.value);
    var range := s.opRange(wants, haves.value);
    RangeServed(u, s, repo.ops, wants, haves.value);
    ToExchange(u, s, r, range);
    var batch, frames := S.HonestExchange(s.ops, s.views, repo.ops, repo.views, wants, haves.value, range);
    if batch.None? {
      return false;
    }
    ghost var k: nat :| Accepted(r.ops, r.views, wants, frames, k) && batch.value == BatchAt(frames, k);
    assert FromServer(s, batch.value) by { IsFromServer(s, batch.value); }
    HonestBatch(u, s, repo.ops, batch.value);
    var referenced := AnyOrder(Referenced(batch.value));
    ToGitPhase(u, s, r, referenced, Referenced(batch.value));
    var store, arrived := Git.GitPhase(u, repo.git, viewHeads, referenced, s.content, s.index, s.gitRange, size, cut);
    repo.git := store;
    ghost var fetched := repo.Value();
    assert fetched == r.(git := store);
    MoreGit(r, store);
    StillClosed(u, r, store);
    if !arrived {
      return false;
    }
    HeldRefs(u, store, referenced, Referenced(batch.value));
    AcceptedAppliable(r, wants, frames, k, store);
    done := ApplyFetched(repo, batch.value, wants, local, crash);
    ghost var n: nat :| n <= |Staged(fetched, batch.value)|
                        && repo.Value() == WithHeads(ApplyAll(fetched, Staged(fetched, batch.value)[..n]), repo.heads);
    AfterApply(u, s, r, fetched, batch.value, n, repo.Value());
    GrowsOn(r, fetched, repo.Value());
    LocalListed(r, local, repo.Value());
    LocalElems(r, local);
  }
}
