/** A repo's stores and op heads while fetches stage and publish, jj runs locally,
    and crashes fall anywhere. */
module Replica {
  import opened Collections
  import Dag
  import opened OpLog
  import opened OpWalks
  import ServeGit

  /** The op store, the ids in the git store, and the op heads. */
  datatype Repo = Repo(ops: Ops, views: Views, git: set<CommitId>, heads: set<OpId>)

  ghost predicate Refs(git: set<CommitId>, commits: set<CommitId>) {
    commits <= git + {ServeGit.VIRTUAL_ROOT}
  }

  /** Everything a stored op or view needs is stored, and so is every head. */
  ghost predicate Sound(r: Repo) {
    && ROOT_OP !in r.ops && ROOT_VIEW !in r.views
    && Dag.ParentClosed(GraphOf(r.ops)) && Dag.Acyclic(GraphOf(r.ops))
    && (forall x :: x in r.ops ==>
          r.ops[x].parents != [] && HasView(r.views, r.ops[x].view) && Refs(r.git, r.ops[x].commits))
    && (forall v :: v in r.views ==> Refs(r.git, r.views[v]))
    && (forall h :: h in r.heads ==> HasOp(r.ops, h))
  }

  /** One rename of a staged file into the store. */
  datatype Write = PutView(view: StoredView) | PutOp(op: StoredOp)

  predicate Present(r: Repo, w: Write) {
    match w
    case PutView(v) => v.id in r.views
    case PutOp(o) => o.id in r.ops
  }

  /** A stored object is never replaced. */
  function Apply(r: Repo, w: Write): Repo {
    if Present(r, w) then r
    else match w
         case PutView(v) => r.(views := r.views[v.id := v.commits])
         case PutOp(o) => r.(ops := r.ops[o.id := o.op])
  }

  /** What the write relies on is there. */
  ghost predicate Ready(r: Repo, w: Write) {
    match w
    case PutView(v) => v.id != ROOT_VIEW && Refs(r.git, v.commits)
    case PutOp(o) =>
      && o.id != ROOT_OP && o.op.parents != [] && (forall p :: p in o.op.parents ==> HasOp(r.ops, p))
      && HasView(r.views, o.op.view) && Refs(r.git, o.op.commits)
  }

  /** The writes can land one after the other. */
  ghost predicate Lands(r: Repo, ws: seq<Write>)
    decreases |ws|
  {
    ws == [] || (Ready(r, ws[0]) && Lands(Apply(r, ws[0]), ws[1..]))
  }

  lemma ApplyKeepsSound(r: Repo, w: Write)
    requires Sound(r) && Ready(r, w)
    ensures Sound(Apply(r, w))
  {
    if w.PutOp? && !Present(r, w) {
      var o, g := w.op, GraphOf(r.ops);
      assert GraphOf(r.ops[o.id := o.op]) == g[o.id := o.op.parents];
      assert forall p :: p in o.op.parents ==> p in g || p == ROOT_OP;
      Dag.NewNodeKeepsAcyclic(g, o.id, o.op.parents);
    }
  }

  /** The store has every id it had. */
  ghost predicate Holds(r: Repo, r': Repo) {
    r.ops.Keys <= r'.ops.Keys && r.views.Keys <= r'.views.Keys && r.git <= r'.git
  }

  /** The store only gains objects, and keeps what it had. */
  ghost predicate Grows(r: Repo, r': Repo) {
    Holds(r, r') && forall x :: x in r.ops ==> r'.ops[x] == r.ops[x]
  }

  lemma {:induction false} LandsLater(r: Repo, r': Repo, ws: seq<Write>)
    requires Lands(r, ws) && Holds(r, r')
    ensures Lands(r', ws)
    decreases |ws|
  {
    if ws != [] {
      LandsLater(Apply(r, ws[0]), Apply(r', ws[0]), ws[1..]);
    }
  }

  /** The writes of a validated batch: absent views, then absent ops in order. */
  function StagedViews(r: Repo, views: seq<StoredView>): seq<Write> {
    if views == [] then []
    else (if views[0].id in r.views then [] else [PutView(views[0])]) + StagedViews(r, views[1..])
  }

  function StagedOps(r: Repo, ops: seq<StoredOp>): seq<Write> {
    if ops == [] then []
    else (if ops[0].id in r.ops then [] else [PutOp(ops[0])]) + StagedOps(r, ops[1..])
  }

  function Staged(r: Repo, batch: Batch): seq<Write> {
    StagedViews(r, batch.views) + StagedOps(r, batch.ops)
  }

  /** The views the store lacks can be written. */
  ghost predicate ViewsReady(r0: Repo, views: seq<StoredView>) {
    forall v :: v in views && v.id !in r0.views ==> v.id != ROOT_VIEW && Refs(r0.git, v.commits)
  }

  /** Ops whose parents come first and whose views are stored. */
  ghost predicate OpsReady(r: Repo, ops: seq<StoredOp>) {
    forall i :: 0 <= i < |ops| ==>
      && ops[i].id != ROOT_OP && ops[i].op.parents != [] && HasView(r.views, ops[i].op.view)
      && (forall p :: p in ops[i].op.parents ==> HasOp(r.ops, p) || p in OpIds(ops[..i]))
  }

  ghost predicate CommitsReady(r0: Repo, ops: seq<StoredOp>) {
    forall o :: o in ops && o.id !in r0.ops ==> Refs(r0.git, o.op.commits)
  }

  lemma {:induction false} OpsLand(r0: Repo, r: Repo, ops: seq<StoredOp>)
    requires Holds(r0, r) && OpsReady(r, ops) && CommitsReady(r0, ops)
    ensures Lands(r, StagedOps(r0, ops))
    decreases |ops|
  {
    if ops != [] {
      var o, rest := ops[0], ops[1..];
      var r' := if o.id in r0.ops then r else Apply(r, PutOp(o));
      forall i | 0 <= i < |rest|
        ensures forall p :: p in rest[i].op.parents ==> HasOp(r'.ops, p) || p in OpIds(rest[..i])
      {
        assert rest[i] == ops[i + 1];
        assert ops[..i + 1] == [o] + rest[..i];
        assert forall q :: q in ops[..i + 1] ==> q == o || q in rest[..i];
      }
      assert OpsReady(r', rest);
      OpsLand(r0, r', rest);
      assert ops[..0] == [];
      if o.id !in r0.ops {
        assert (StagedOps(r0, ops))[0] == PutOp(o) && StagedOps(r0, ops)[1..] == StagedOps(r0, rest);
        assert Ready(r, PutOp(o));
      } else {
        assert StagedOps(r0, ops) == StagedOps(r0, rest);
      }
    }
  }

  /** Adding views, as ids, to what is stored. */
  ghost function WithViews(r: Repo, ids: set<ViewId>): Repo {
    r.(views := r.views + map v | v in ids :: {})
  }

  lemma OpsReadySameIds(r: Repo, r': Repo, ops: seq<StoredOp>)
    requires OpsReady(r, ops)
    requires r.ops == r'.ops && r.views.Keys == r'.views.Keys
    ensures OpsReady(r', ops)
  {
    hide OpIds;
  }

  /** With the views to come, the ops are ready. */
  ghost predicate Landing(r0: Repo, r: Repo, views: seq<StoredView>, ops: seq<StoredOp>) {
    && Holds(r0, r) && ViewsReady(r0, views) && CommitsReady(r0, ops)
    && OpsReady(WithViews(r, ViewIds(views)), ops)
  }

  lemma LandView(r0: Repo, r: Repo, views: seq<StoredView>, ops: seq<StoredOp>)
    requires views != [] && Landing(r0, r, views, ops)
    requires views[0].id in r0.views ==> views[0].id in r.views
    ensures Landing(r0, if views[0].id in r0.views then r else Apply(r, PutView(views[0])), views[1..], ops)
    ensures views[0].id !in r0.views ==> Ready(r, PutView(views[0]))
  {
    hide OpsReady, Refs, CommitsReady;
    var v, rest := views[0], views[1..];
    var r' := if v.id in r0.views then r else Apply(r, PutView(v));
    ViewIdsSplit(views);
    OpsReadySameIds(WithViews(r, ViewIds(views)), WithViews(r', ViewIds(rest)), ops);
    if v.id !in r0.views {
      RefsLater(r0.git, r.git, v.commits);
    }
  }

  lemma RefsLater(git: set<CommitId>, git': set<CommitId>, commits: set<CommitId>)
    requires git <= git' && Refs(git, commits)
    ensures Refs(git', commits)
  {
  }

  lemma {:induction false} ViewsLand(r0: Repo, r: Repo, views: seq<StoredView>, ops: seq<StoredOp>)
    requires Landing(r0, r, views, ops)
    ensures Lands(r, StagedViews(r0, views) + StagedOps(r0, ops))
    decreases |views|
  {
    hide OpsReady, Refs, StagedOps, Ready, WithViews, ViewsReady, CommitsReady;
    var staged := StagedOps(r0, ops);
    if views == [] {
      assert StagedViews(r0, views) + staged == staged;
      NoViews(r, views);
      OpsReadySameIds(WithViews(r, ViewIds(views)), r, ops);
      OpsLand(r0, r, ops);
    } else {
      var v, rest := views[0], views[1..];
      LandView(r0, r, views, ops);
      ViewsLand(r0, if v.id in r0.views then r else Apply(r, PutView(v)), rest, ops);
      if v.id !in r0.views {
        assert StagedViews(r0, views) + staged == [PutView(v)] + (StagedViews(r0, rest) + staged);
      } else {
        assert StagedViews(r0, views) == StagedViews(r0, rest);
      }
    }
  }

  lemma NoViews(r: Repo, views: seq<StoredView>)
    requires views == []
    ensures WithViews(r, ViewIds(views)).views.Keys == r.views.Keys
    ensures WithViews(r, ViewIds(views)).ops == r.ops && WithViews(r, ViewIds(views)).git == r.git
  {
    assert ViewIds(views) == {};
  }

  lemma ViewIdsSplit(views: seq<StoredView>)
    requires views != []
    ensures ViewIds(views) == {views[0].id} + ViewIds(views[1..])
    ensures forall w :: w in views[1..] ==> w in views
  {
    assert forall w :: w in views <==> w == views[0] || w in views[1..];
  }

  lemma OpsReadyMoreViews(r: Repo, ids: set<ViewId>, ids': set<ViewId>, ops: seq<StoredOp>)
    requires ids <= ids' && OpsReady(WithViews(r, ids), ops)
    ensures OpsReady(WithViews(r, ids'), ops)
  {
  }

  lemma OpsReadyAppend(r: Repo, ops: seq<StoredOp>, o: StoredOp)
    requires OpsReady(r, ops)
    requires o.id != ROOT_OP && o.op.parents != [] && HasView(r.views, o.op.view)
    requires forall p :: p in o.op.parents ==> HasOp(r.ops, p) || p in OpIds(ops)
    ensures OpsReady(r, ops + [o])
  {
    hide OpIds;
    var ops' := ops + [o];
    forall i | 0 <= i < |ops'|
      ensures ops'[i].id != ROOT_OP && ops'[i].op.parents != [] && HasView(r.views, ops'[i].op.view)
           && forall p :: p in ops'[i].op.parents ==> HasOp(r.ops, p) || p in OpIds(ops'[..i])
    {
      if i < |ops| {
        assert ops'[..i] == ops[..i];
      } else {
        assert ops'[..i] == ops;
      }
    }
  }

  lemma {:induction false} AcceptedOpsReady(r: Repo, frames: seq<Frame>, k: nat)
    requires k <= |frames| && forall j :: 0 <= j < k ==> FrameOk(r.ops, r.views, frames, j)
    ensures OpsReady(WithViews(r, ViewIds(ViewsOf(frames[..k]))), OpsOf(frames[..k]))
    decreases k
  {
    hide OpsOf, ViewsOf, ViewIds, OpIds, OpsReady, OpOk;
    if k > 0 {
      FrameStep(frames, k - 1);
      var ops, before, last := OpsOf(frames[..k]), OpsOf(frames[..k - 1]), frames[k - 1];
      AcceptedOpsReady(r, frames, k - 1);
      var ids := ViewIds(ViewsOf(frames[..k]));
      OpsReadyMoreViews(r, ViewIds(ViewsOf(frames[..k - 1])), ids, before);
      assert FrameOk(r.ops, r.views, frames, k - 1);
      if last.OpFrame? {
        LastOpOk(r, frames, k - 1);
        OpsReadyAppend(WithViews(r, ids), before, last.op);
      } else {
        assert ops == before;
      }
    } else {
      NothingReady(r, frames);
    }
  }

  lemma NothingReady(r: Repo, frames: seq<Frame>)
    ensures OpsReady(WithViews(r, ViewIds(ViewsOf(frames[..0]))), OpsOf(frames[..0]))
  {
    assert frames[..0] == [];
  }

  lemma LastOpOk(r: Repo, frames: seq<Frame>, j: nat)
    requires j < |frames| && frames[j].OpFrame? && FrameOk(r.ops, r.views, frames, j)
    ensures var o := frames[j].op;
            && o.id != ROOT_OP && o.op.parents != []
            && (forall p :: p in o.op.parents ==> HasOp(r.ops, p) || p in OpIds(OpsOf(frames[..j])))
            && (o.op.view in ViewIds(ViewsOf(frames[..j])) || HasView(r.views, o.op.view))
  {
  }

  /** What a batch adds to the store references stored commits, and none of the
      views it adds claims the root view's id. */
  ghost predicate Covered(r: Repo, batch: Batch) {
    ViewsReady(r, batch.views) && CommitsReady(r, batch.ops)
  }

  lemma {:induction false} LandedRefs(r: Repo, ws: seq<Write>)
    requires Lands(r, ws)
    ensures forall t :: t in ws ==> if t.PutView? then t.view.id != ROOT_VIEW && Refs(r.git, t.view.commits)
                                    else Refs(r.git, t.op.op.commits)
    decreases |ws|
  {
    if ws != [] {
      LandedRefs(Apply(r, ws[0]), ws[1..]);
      assert forall t :: t in ws <==> t == ws[0] || t in ws[1..];
    }
  }

  lemma LandedIsCovered(r: Repo, batch: Batch)
    requires Lands(r, Staged(r, batch))
    ensures Covered(r, batch)
  {
    hide Lands, Refs;
    LandedRefs(r, Staged(r, batch));
    StagedOpsMembers(r, batch.ops);
    StagedViewsMembers(r, batch.views);
    forall v | v in batch.views && v.id !in r.views ensures PutView(v) in Staged(r, batch) {
    }
    forall o | o in batch.ops && o.id !in r.ops ensures PutOp(o) in Staged(r, batch) {
    }
  }

  /** Whatever a peer sends, the writes of an accepted batch can land one by one,
      each after what it references, exactly when the commits it adds references
      to are there and no view it adds claims the root view's id. */
  lemma AcceptedLands(r: Repo, wants: seq<OpId>, frames: seq<Frame>, k: nat)
    requires Accepted(r.ops, r.views, wants, frames, k)
    ensures Lands(r, Staged(r, BatchAt(frames, k))) <==> Covered(r, BatchAt(frames, k))
  {
    hide AllReachable, FrameOk, Lands, OpsReady, ViewsReady, CommitsReady;
    var batch := BatchAt(frames, k);
    if Covered(r, batch) {
      AcceptedOpsReady(r, frames, k);
      ViewsLand(r, r, batch.views, batch.ops);
    }
    if Lands(r, Staged(r, batch)) {
      LandedIsCovered(r, batch);
    }
  }

  /** Once every referenced commit is there, only a view under the root's id stops
      a batch from landing. */
  lemma ArrivedCovers(r: Repo, batch: Batch)
    requires RootFree(batch) && Refs(r.git, Referenced(batch))
    ensures Covered(r, batch)
  {
    forall v | v in batch.views ensures Refs(r.git, v.commits) {
      assert forall c :: c in v.commits ==> c in Referenced(batch);
    }
    forall o | o in batch.ops ensures Refs(r.git, o.op.commits) {
      assert forall c :: c in o.op.commits ==> c in Referenced(batch);
    }
  }

  /** A fetch between its validation and its end. */
  datatype Phase =
    | Idle
    | Staging(wants: seq<OpId>, local: seq<OpId>, batch: Batch, todo: seq<Write>)
    | Publishing(plan: seq<Planned>, current: OpId, removing: seq<OpId>)

  /** A want to publish, with the local heads it supersedes. */
  datatype Planned = Planned(want: OpId, covered: seq<OpId>)

  datatype World = World(repo: Repo, fetch: Phase)

  /** An op reachable from an op head. */
  ghost predicate Listed(r: Repo, x: OpId) {
    Dag.AncestorOfAny(GraphOf(r.ops), x, r.heads)
  }

  /** The batch being written, if any, and the store agree on the ids they share. */
  ghost predicate BatchAgrees(fetch: Phase, ops: Ops) {
    fetch.Staging? ==> Agree(ById(fetch.batch.ops), ops)
  }

  /** jj writing ops, views and commits, heads untouched, no id standing for
      anything else than what is stored or being written under it. */
  ghost predicate LocalWrite(w: World, w': World) {
    && w'.fetch == w.fetch && w'.repo.heads == w.repo.heads
    && Grows(w.repo, w'.repo) && Sound(w'.repo) && BatchAgrees(w.fetch, w'.repo.ops)
  }

  /** jj publishing an op, or unlisting a head another head covers. */
  ghost predicate LocalHead(w: World, w': World) {
    && w'.fetch == w.fetch
    && ((exists x :: HasOp(w.repo.ops, x) && w'.repo == w.repo.(heads := w.repo.heads + {x}))
        || exists h, k :: k in w.repo.heads && Dag.StrictAncestor(GraphOf(w.repo.ops), h, k)
                          && w'.repo == w.repo.(heads := w.repo.heads - {h}))
  }

  /** Git objects arriving, in any amount. */
  ghost predicate GitArrives(w: World, w': World) {
    exists more :: w' == w.(repo := w.repo.(git := w.repo.git + more))
  }

  /** An accepted batch starts to be written, once every commit it references has
      arrived. One with a view under the root's id is refused: that is `Stop`. */
  ghost predicate StartStaging(w: World, w': World) {
    w'.fetch.Staging? && exists wants, frames, local, k: nat ::
      && w.fetch.Idle?
      && Accepted(w.repo.ops, w.repo.views, wants, frames, k)
      && RootFree(BatchAt(frames, k)) && Refs(w.repo.git, Referenced(BatchAt(frames, k)))
      && Agree(ById(BatchAt(frames, k).ops), w.repo.ops)
      && w' == w.(fetch := Staging(wants, local, BatchAt(frames, k), Staged(w.repo, BatchAt(frames, k))))
  }

  /** One file of the batch is renamed into place. */
  ghost predicate StageOne(w: World, w': World) {
    && w.fetch.Staging? && w.fetch.todo != []
    && w' == World(Apply(w.repo, w.fetch.todo[0]), w.fetch.(todo := w.fetch.todo[1..]))
  }

  /** Everything is on disk: what each new want supersedes is computed. */
  ghost predicate Plan(w: World, w': World) {
    && w.fetch.Staging? && w.fetch.todo == []
    && w'.repo == w.repo && w'.fetch.Publishing? && w'.fetch.removing == []
    && (forall p :: p in w'.fetch.plan ==>
          && p.want in w.fetch.wants && p.want !in w.fetch.local
          && Supersedes(WalkGraph(ById(w.fetch.batch.ops), w.repo.ops), p.want, Elems(w.fetch.local), p.covered))
  }

  /** One want becomes an op head, if it is stored. */
  ghost predicate AddHead(w: World, w': World) {
    && w.fetch.Publishing? && w.fetch.removing == [] && w.fetch.plan != []
    && HasOp(w.repo.ops, w.fetch.plan[0].want)
    && w' == World(w.repo.(heads := w.repo.heads + {w.fetch.plan[0].want}),
                   Publishing(w.fetch.plan[1..], w.fetch.plan[0].want, w.fetch.plan[0].covered))
  }

  /** One superseded head is unlisted. */
  ghost predicate RemoveHead(w: World, w': World) {
    && w.fetch.Publishing? && w.fetch.removing != []
    && w' == World(w.repo.(heads := w.repo.heads - {w.fetch.removing[0]}),
                   w.fetch.(removing := w.fetch.removing[1..]))
  }

  /** The fetch ends or dies, whatever it was doing. */
  ghost predicate Stop(w: World, w': World) {
    w' == w.(fetch := Idle)
  }

  ghost predicate Step(w: World, w': World) {
    || LocalWrite(w, w') || LocalHead(w, w') || GitArrives(w, w')
    || StartStaging(w, w') || StageOne(w, w') || Plan(w, w') || AddHead(w, w') || RemoveHead(w, w')
    || Stop(w, w')
  }

  ghost predicate Covers(r: Repo, want: OpId, covered: seq<OpId>) {
    forall c :: c in covered ==> Dag.StrictAncestor(GraphOf(r.ops), c, want)
  }

  /** What every reachable state keeps. */
  ghost predicate Inv(w: World) {
    && Sound(w.repo)
    && match w.fetch
       case Idle => true
       case Staging(_, _, batch, todo) =>
         && Lands(w.repo, todo)
         && Agree(ById(batch.ops), w.repo.ops)
         && (forall t :: t in todo && t.PutOp? ==> t.op in batch.ops)
         && (forall o :: o in batch.ops ==> o.id in w.repo.ops || PutOp(o) in todo)
         && DistinctIds(batch.ops)
       case Publishing(plan, current, removing) =>
         && (forall p :: p in plan ==> Covers(w.repo, p.want, p.covered))
         && (removing != [] ==> Covers(w.repo, current, removing) && Listed(w.repo, current))
  }

  lemma GraphGrows(r: Repo, r': Repo)
    requires Grows(r, r')
    ensures forall y :: y in GraphOf(r.ops) ==> y in GraphOf(r'.ops) && GraphOf(r'.ops)[y] == GraphOf(r.ops)[y]
  {
  }

  /** Growing the op store loses no listed op and no supersession. */
  lemma GrowthKeeps(r: Repo, r': Repo)
    requires Grows(r, r')
    ensures r.heads <= r'.heads ==> forall x :: Listed(r, x) ==> Listed(r', x)
    ensures forall c, w :: Dag.StrictAncestor(GraphOf(r.ops), c, w) ==> Dag.StrictAncestor(GraphOf(r'.ops), c, w)
  {
    hide Dag.Ancestor;
    GraphGrows(r, r');
    var g, g' := GraphOf(r.ops), GraphOf(r'.ops);
    if r.heads <= r'.heads {
      forall x | Listed(r, x) ensures Listed(r', x) {
        var h :| h in r.heads && Dag.Ancestor(g, x, h);
        Dag.Monotone(g, g', x, h);
      }
    }
    forall c, w | Dag.StrictAncestor(g, c, w) ensures Dag.StrictAncestor(g', c, w) {
      var p :| p in Dag.Parents(g, w) && Dag.Ancestor(g, c, p);
      Dag.Monotone(g, g', c, p);
    }
  }

  /** Unlisting a head another listed op descends from loses nothing. */
  lemma RemovalKeeps(r: Repo, c: OpId, w: OpId, x: OpId)
    requires Dag.Acyclic(GraphOf(r.ops))
    requires Dag.StrictAncestor(GraphOf(r.ops), c, w) && Listed(r, w) && Listed(r, x)
    ensures Listed(r.(heads := r.heads - {c}), x)
  {
    hide Dag.Acyclic;
    var g := GraphOf(r.ops);
    var h :| h in r.heads && Dag.Ancestor(g, w, h);
    NotCovered(g, c, w, h);
    var k :| k in r.heads && Dag.Ancestor(g, x, k);
    if k == c {
      Dag.StrictIsAncestor(g, c, w);
      Dag.Transitive(g, c, w, h);
      Dag.Transitive(g, x, c, h);
    }
  }

  lemma NotCovered(g: Dag.Graph, c: OpId, w: OpId, h: OpId)
    requires Dag.Acyclic(g) && Dag.StrictAncestor(g, c, w) && Dag.Ancestor(g, w, h)
    ensures h != c
  {
    if h == c {
      Dag.StrictCycle(g, c, w);
    }
  }

  lemma CoversLater(r: Repo, r': Repo, w: OpId, covered: seq<OpId>)
    requires forall c, w :: Dag.StrictAncestor(GraphOf(r.ops), c, w) ==> Dag.StrictAncestor(GraphOf(r'.ops), c, w)
    requires Covers(r, w, covered)
    ensures Covers(r', w, covered)
  {
  }

  /** A fetch's promises survive what others do to the repo. */
  lemma FetchSurvives(w: World, r': Repo)
    requires Inv(w) && Sound(r') && Grows(w.repo, r') && BatchAgrees(w.fetch, r'.ops)
    requires forall x :: Listed(w.repo, x) ==> Listed(r', x)
    ensures Inv(World(r', w.fetch))
  {
    hide Sound, Listed, Dag.StrictAncestor;
    GrowthKeeps(w.repo, r');
    match w.fetch
    case Idle =>
    case Staging(_, _, batch, todo) =>
      LandsLater(w.repo, r', todo);
    case Publishing(plan, current, removing) =>
      forall p | p in plan ensures Covers(r', p.want, p.covered) {
        CoversLater(w.repo, r', p.want, p.covered);
      }
      if removing != [] {
        CoversLater(w.repo, r', current, removing);
      }
  }

  lemma SameGraph(byId: Ops, ops: Ops)
    requires Agree(byId, ops) && byId.Keys <= ops.Keys
    ensures WalkGraph(byId, ops) == GraphOf(ops)
  {
    forall x | x in ops ensures ParentsOf(byId, ops, x) == ops[x].parents {
      if x in byId {
        assert x in ops && byId[x] == ops[x];
      }
    }
  }

  lemma SupersededAreBelow(g: Dag.Graph, want: OpId, heads: set<OpId>, covered: seq<OpId>)
    requires Supersedes(g, want, heads, covered)
    ensures forall c :: c in covered ==> Dag.StrictAncestor(g, c, want)
  {
    hide Ancestry, Antichain, Dag.Acyclic, Dag.StrictAncestor;
  }

  /** The batch's links agree with the store's once everything is written. */
  lemma PlanCovers(w: World, p: Planned)
    requires Inv(w) && w.fetch.Staging? && w.fetch.todo == []
    requires Supersedes(WalkGraph(ById(w.fetch.batch.ops), w.repo.ops), p.want, Elems(w.fetch.local), p.covered)
    ensures Covers(w.repo, p.want, p.covered)
  {
    hide Dag.StrictAncestor, Sound, Supersedes, Lands, WalkGraph, ById;
    SameGraph(ById(w.fetch.batch.ops), w.repo.ops);
    SupersededAreBelow(GraphOf(w.repo.ops), p.want, Elems(w.fetch.local), p.covered);
  }

  /** A crash, or anything jj does, leaves the fetch's promises and loses no op. */
  lemma EnvironmentKeeps(w: World, w': World)
    requires Inv(w)
    requires LocalWrite(w, w') || LocalHead(w, w') || GitArrives(w, w') || Stop(w, w')
    ensures Inv(w') && forall x :: Listed(w.repo, x) ==> Listed(w'.repo, x)
  {
    hide Listed, Dag.StrictAncestor, Dag.Acyclic, Dag.ParentClosed, Inv, Covers;
    EnvironmentListed(w, w');
    if !Stop(w, w') {
      EnvironmentSound(w, w');
      FetchSurvives(w, w'.repo);
    } else {
      Idles(w, w');
    }
  }

  lemma Idles(w: World, w': World)
    requires Inv(w) && Stop(w, w')
    ensures Inv(w')
  {
  }

  lemma EnvironmentSound(w: World, w': World)
    requires Inv(w)
    requires LocalWrite(w, w') || LocalHead(w, w') || GitArrives(w, w')
    ensures w'.fetch == w.fetch && Sound(w'.repo) && Grows(w.repo, w'.repo) && BatchAgrees(w.fetch, w'.repo.ops)
  {
    hide Dag.StrictAncestor, Dag.Acyclic, Dag.ParentClosed, Covers, Listed, Lands;
  }

  lemma EnvironmentListed(w: World, w': World)
    requires Inv(w)
    requires LocalWrite(w, w') || LocalHead(w, w') || GitArrives(w, w') || Stop(w, w')
    ensures forall x :: Listed(w.repo, x) ==> Listed(w'.repo, x)
  {
    hide Dag.StrictAncestor, Dag.Ancestor, Dag.ParentClosed, Covers, Lands;
    if LocalWrite(w, w') {
      GrowthKeeps(w.repo, w'.repo);
    } else if LocalHead(w, w') && !(w.repo.heads <= w'.repo.heads) {
      var h, k :| k in w.repo.heads && Dag.StrictAncestor(GraphOf(w.repo.ops), h, k)
                  && w'.repo == w.repo.(heads := w.repo.heads - {h});
      HeadListed(w.repo, k);
      forall x | Listed(w.repo, x) ensures Listed(w'.repo, x) {
        RemovalKeeps(w.repo, h, k, x);
      }
    }
  }

  lemma HeadListed(r: Repo, h: OpId)
    requires h in r.heads
    ensures Listed(r, h)
  {
    assert Dag.Ancestor(GraphOf(r.ops), h, h);
  }

  lemma {:induction false} StagedOpsMembers(r: Repo, ops: seq<StoredOp>)
    ensures forall t :: t in StagedOps(r, ops) ==> t.PutOp? && t.op in ops
    ensures forall o :: o in ops ==> o.id in r.ops || PutOp(o) in StagedOps(r, ops)
    decreases |ops|
  {
    if ops != [] {
      StagedOpsMembers(r, ops[1..]);
      assert forall o :: o in ops <==> o == ops[0] || o in ops[1..];
    }
  }

  lemma {:induction false} StagedViewsMembers(r: Repo, views: seq<StoredView>)
    ensures forall t :: t in StagedViews(r, views) ==> t.PutView? && t.view in views
    ensures forall v :: v in views ==> v.id in r.views || PutView(v) in StagedViews(r, views)
    decreases |views|
  {
    if views != [] {
      StagedViewsMembers(r, views[1..]);
      assert forall v :: v in views <==> v == views[0] || v in views[1..];
    }
  }

  lemma StartStagingKeeps(w: World, w': World)
    requires Inv(w) && StartStaging(w, w')
    ensures Inv(w') && w'.repo == w.repo
  {
    hide Sound, FrameOk, AllReachable, Covered, Lands, Refs, Referenced, RootFree;
    var wants, frames, local, k: nat :|
      && Accepted(w.repo.ops, w.repo.views, wants, frames, k)
      && RootFree(BatchAt(frames, k)) && Refs(w.repo.git, Referenced(BatchAt(frames, k)))
      && Agree(ById(BatchAt(frames, k).ops), w.repo.ops)
      && w' == w.(fetch := Staging(wants, local, BatchAt(frames, k), Staged(w.repo, BatchAt(frames, k))));
    var batch := BatchAt(frames, k);
    ArrivedCovers(w.repo, batch);
    AcceptedLands(w.repo, wants, frames, k);
    StagedOpsMembers(w.repo, batch.ops);
    StagedViewsMembers(w.repo, batch.views);
    AcceptedDistinct(w.repo, wants, frames, k);
  }

  lemma AcceptedDistinct(r: Repo, wants: seq<OpId>, frames: seq<Frame>, k: nat)
    requires Accepted(r.ops, r.views, wants, frames, k)
    ensures DistinctIds(OpsOf(frames[..k]))
  {
    hide FrameOk, AllReachable, OpsOf;
    AcceptedOpsDistinct(r.ops, r.views, frames, k);
  }

  lemma StageOneKeeps(w: World, w': World)
    requires Inv(w) && StageOne(w, w')
    ensures Inv(w') && forall x :: Listed(w.repo, x) ==> Listed(w'.repo, x)
  {
    hide Sound, Listed, Ready, Dag.StrictAncestor, HasView;
    var t := w.fetch.todo[0];
    ApplyKeepsSound(w.repo, t);
    StageOneAgrees(w, t);
    StageOneTodo(w, w');
    GrowthKeeps(w.repo, w'.repo);
  }

  lemma StageOneAgrees(w: World, t: Write)
    requires Inv(w) && w.fetch.Staging? && t in w.fetch.todo
    ensures Agree(ById(w.fetch.batch.ops), Apply(w.repo, t).ops)
    ensures Grows(w.repo, Apply(w.repo, t))
  {
    hide Sound, Lands, ById, DistinctIds;
    if t.PutOp? {
      ByIdHas(w.fetch.batch.ops, t.op);
    }
  }

  lemma ByIdHas(ops: seq<StoredOp>, o: StoredOp)
    requires DistinctIds(ops) && o in ops
    ensures o.id in ById(ops) && ById(ops)[o.id] == o.op
  {
    hide ById, DistinctIds;
  }

  lemma StageOneTodo(w: World, w': World)
    requires Inv(w) && StageOne(w, w')
    ensures forall t :: t in w'.fetch.todo && t.PutOp? ==> t.op in w.fetch.batch.ops
    ensures forall o :: o in w.fetch.batch.ops ==> o.id in w'.repo.ops || PutOp(o) in w'.fetch.todo
  {
    hide Sound, Lands, DistinctIds;
    var todo := w.fetch.todo;
    assert forall t :: t in todo <==> t == todo[0] || t in todo[1..];
  }

  lemma PlanKeeps(w: World, w': World)
    requires Inv(w) && Plan(w, w')
    ensures Inv(w') && w'.repo == w.repo
  {
    hide Sound, Listed, Covers, Supersedes;
    forall p | p in w'.fetch.plan ensures Covers(w.repo, p.want, p.covered) {
      PlanCovers(w, p);
    }
  }

  lemma AddHeadKeeps(w: World, w': World)
    requires Inv(w) && AddHead(w, w')
    ensures Inv(w') && forall x :: Listed(w.repo, x) ==> Listed(w'.repo, x)
  {
    hide Listed, Dag.Acyclic, Dag.ParentClosed, Dag.StrictAncestor;
    var plan := w.fetch.plan;
    assert plan[0] in plan && forall p :: p in plan[1..] ==> p in plan;
    HeadListed(w'.repo, plan[0].want);
    GrowthKeeps(w.repo, w'.repo);
  }

  lemma RemoveHeadKeeps(w: World, w': World)
    requires Inv(w) && RemoveHead(w, w')
    ensures Inv(w') && forall x :: Listed(w.repo, x) ==> Listed(w'.repo, x)
  {
    hide Listed, Dag.Acyclic, Dag.ParentClosed, Dag.StrictAncestor;
    var c, current := w.fetch.removing[0], w.fetch.current;
    assert c in w.fetch.removing;
    forall x | Listed(w.repo, x) ensures Listed(w'.repo, x) {
      RemovalKeeps(w.repo, c, current, x);
    }
    assert forall d :: d in w'.fetch.removing ==> d in w.fetch.removing;
  }

  /** Every step, by whoever, keeps the store closed and loses no op. */
  lemma StepKeeps(w: World, w': World)
    requires Inv(w) && Step(w, w')
    ensures Inv(w') && forall x :: Listed(w.repo, x) ==> Listed(w'.repo, x)
  {
    hide Inv, Listed, StartStaging, StageOne, Plan, AddHead, RemoveHead, LocalWrite, LocalHead, GitArrives, Stop;
    if StartStaging(w, w') {
      StartStagingKeeps(w, w');
    } else if StageOne(w, w') {
      StageOneKeeps(w, w');
    } else if Plan(w, w') {
      PlanKeeps(w, w');
    } else if AddHead(w, w') {
      AddHeadKeeps(w, w');
    } else if RemoveHead(w, w') {
      RemoveHeadKeeps(w, w');
    } else {
      EnvironmentKeeps(w, w');
    }
  }

  ghost predicate Run(trace: seq<World>) {
    trace != [] && forall i :: 0 <= i < |trace| - 1 ==> Step(trace[i], trace[i + 1])
  }

  /** No operation is ever lost: over any interleaving of fetches, crashes and
      local jj operations, every op once listed stays listed, and at each moment
      the stores hold everything what is stored or listed needs. */
  lemma {:induction false} NothingLost(trace: seq<World>)
    requires Run(trace) && Inv(trace[0])
    ensures Inv(trace[|trace| - 1])
    ensures forall x :: Listed(trace[0].repo, x) ==> Listed(trace[|trace| - 1].repo, x)
    decreases |trace|
  {
    hide Inv, Step, Listed;
    if |trace| > 1 {
      var init := trace[..|trace| - 1];
      assert Run(init);
      NothingLost(init);
      StepKeeps(trace[|trace| - 2], trace[|trace| - 1]);
    }
  }
}
