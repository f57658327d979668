/** Writing a validated batch and publishing its heads, one file operation at a
    time. `stop` is the number of file operations before a crash. */
module ApplyBatch {
  import opened Collections
  import Dag
  import opened OpLog
  import opened OpWalks
  import opened Replica

  /** One file operation in the op heads directory. */
  datatype HeadEdit = Add(id: OpId) | Remove(id: OpId)

  function Edit(heads: set<OpId>, e: HeadEdit): set<OpId> {
    match e
    case Add(id) => heads + {id}
    case Remove(id) => heads - {id}
  }

  function EditAll(heads: set<OpId>, edits: seq<HeadEdit>): set<OpId>
    decreases |edits|
  {
    if edits == [] then heads else Edit(EditAll(heads, edits[..|edits| - 1]), edits[|edits| - 1])
  }

  function Removals(covered: seq<OpId>): (r: seq<HeadEdit>)
    ensures |r| == |covered| && forall i :: 0 <= i < |r| ==> r[i] == Remove(covered[i])
  {
    if covered == [] then [] else [Remove(covered[0])] + Removals(covered[1..])
  }

  /** Publishing a want: it is added, then each head it covers is removed. */
  function Edits(p: Planned): seq<HeadEdit> {
    [Add(p.want)] + Removals(p.covered)
  }

  function AllEdits(plan: seq<Planned>): seq<HeadEdit> {
    if plan == [] then [] else AllEdits(plan[..|plan| - 1]) + Edits(plan[|plan| - 1])
  }

  lemma EditNext(heads: set<OpId>, edits: seq<HeadEdit>, n: nat)
    requires n < |edits|
    ensures EditAll(heads, edits[..n + 1]) == Edit(EditAll(heads, edits[..n]), edits[n])
  {
    assert edits[..n + 1][..n] == edits[..n];
  }

  /** A repo on disk. */
  class LocalRepo {
    var ops: Ops
    var views: Views
    var git: set<CommitId>
    var heads: set<OpId>

    function Value(): Repo
      reads this
    {
      Repo(ops, views, git, heads)
    }

    constructor (r: Repo)
      ensures Value() == r
    {
      ops, views, git, heads := r.ops, r.views, r.git, r.heads;
    }

    /** One atomic rename into the stores. */
    method Rename(w: Write)
      modifies this
      ensures Value() == Apply(old(Value()), w)
    {
      match w
      case PutView(v) =>
        if v.id !in views { views := views[v.id := v.commits]; }
      case PutOp(o) =>
        if o.id !in ops { ops := ops[o.id := o.op]; }
    }

    /** Publishes `want`, then unlists each head it covers, unless a crash stops
        it first. Refused when the op is not stored. */
    method UpdateOpHeads(covered: seq<OpId>, want: OpId, stop: nat) returns (ok: bool, used: nat)
      modifies this`heads
      ensures ok <==> HasOp(ops, want)
      ensures !ok ==> heads == old(heads) && used == 0
      ensures ok ==> used == if stop < 1 + |covered| then stop else 1 + |covered|
      ensures ok ==> heads == EditAll(old(heads), Edits(Planned(want, covered))[..used])
      ensures ok ==> heads == if used == 0 then old(heads)
                              else (old(heads) + {want}) - Elems(covered[..used - 1])
    {
      if !HasOp(ops, want) {
        return false, 0;
      }
      ok, used := true, 0;
      EditsAre(heads, want, covered, 0);
      if stop == 0 {
        return;
      }
      heads := heads + {want};
      used := 1;
      assert Elems(covered[..0]) == {};
      while used < stop && used - 1 < |covered|
        invariant 1 <= used <= stop && used - 1 <= |covered|
        invariant heads == (old(heads) + {want}) - Elems(covered[..used - 1])
      {
        assert covered[..used] == covered[..used - 1] + [covered[used - 1]];
        heads := heads - {covered[used - 1]};
        used := used + 1;
      }
      EditsAre(old(heads), want, covered, used);
    }
  }

  /** What the first `used` edits of a publication leave. */
  lemma {:induction false} EditsAre(heads: set<OpId>, want: OpId, covered: seq<OpId>, used: nat)
    requires used <= 1 + |covered|
    ensures EditAll(heads, Edits(Planned(want, covered))[..used])
         == if used == 0 then heads else (heads + {want}) - Elems(covered[..used - 1])
    decreases used
  {
    var edits := Edits(Planned(want, covered));
    assert edits[..0] == [];
    if used > 0 {
      EditsAre(heads, want, covered, used - 1);
      EditNext(heads, edits, used - 1);
      if used == 1 {
        assert covered[..0] == [];
      } else {
        assert covered[..used - 1] == covered[..used - 2] + [covered[used - 2]];
      }
    }
  }

  function ApplyAll(r: Repo, ws: seq<Write>): Repo
    decreases |ws|
  {
    if ws == [] then r else ApplyAll(Apply(r, ws[0]), ws[1..])
  }

  lemma {:induction false} ApplyAllAppend(r: Repo, ws: seq<Write>, w: Write)
    ensures ApplyAll(r, ws + [w]) == Apply(ApplyAll(r, ws), w)
    decreases |ws|
  {
    if ws == [] {
      assert [w][1..] == [];
    } else {
      assert (ws + [w])[1..] == ws[1..] + [w];
      ApplyAllAppend(Apply(r, ws[0]), ws[1..], w);
    }
  }

  /** Wherever the renames stop, the store is closed. */
  lemma {:induction false} PrefixSound(r: Repo, ws: seq<Write>, n: nat)
    requires Sound(r) && Lands(r, ws) && n <= |ws|
    ensures Sound(ApplyAll(r, ws[..n]))
    decreases n
  {
    hide Sound, Ready;
    if n > 0 {
      ApplyKeepsSound(r, ws[0]);
      PrefixSound(Apply(r, ws[0]), ws[1..], n - 1);
      assert ws[..n][0] == ws[0] && ws[..n][1..] == ws[1..][..n - 1];
    } else {
      assert ws[..0] == [];
    }
  }

  /** A batch of raw writes, staged as temporary files and renamed together. */
  class RawWriteBatch {
    const repo: LocalRepo
    var staged: seq<Write>

    constructor (r: LocalRepo)
      ensures repo == r && staged == []
    {
      repo, staged := r, [];
    }

    /** Stages a view; the root's id is refused, a stored one is left alone. */
    method WriteView(v: StoredView) returns (ok: bool)
      modifies this`staged
      ensures ok <==> v.id != ROOT_VIEW
      ensures staged == old(staged) + if ok && v.id !in repo.views then [PutView(v)] else []
    {
      ok := v.id != ROOT_VIEW;
      if ok && v.id !in repo.views {
        staged := staged + [PutView(v)];
      }
    }

    method WriteOp(o: StoredOp) returns (ok: bool)
      modifies this`staged
      ensures ok <==> o.id != ROOT_OP
      ensures staged == old(staged) + if ok && o.id !in repo.ops then [PutOp(o)] else []
    {
      ok := o.id != ROOT_OP;
      if ok && o.id !in repo.ops {
        staged := staged + [PutOp(o)];
      }
    }

    /** Renames the staged files into place, in staging order. */
    method Persist(stop: nat) returns (done: bool)
      modifies repo
      ensures done <==> |staged| <= stop
      ensures repo.Value() == ApplyAll(old(repo.Value()), staged[..if done then |staged| else stop])
    {
      var i := 0;
      assert staged[..0] == [];
      while i < |staged| && i < stop
        invariant i <= |staged| && i <= stop
        invariant repo.Value() == ApplyAll(old(repo.Value()), staged[..i])
      {
        assert staged[..i + 1] == staged[..i] + [staged[i]];
        ApplyAllAppend(old(repo.Value()), staged[..i], staged[i]);
        repo.Rename(staged[i]);
        i := i + 1;
      }
      done := i == |staged|;
      assert staged[..|staged|] == staged;
    }
  }

  lemma {:induction false} StagedViewsAppend(r: Repo, views: seq<StoredView>, v: StoredView)
    ensures StagedViews(r, views + [v]) == StagedViews(r, views) + if v.id in r.views then [] else [PutView(v)]
    decreases |views|
  {
    if views != [] {
      assert (views + [v])[1..] == views[1..] + [v];
      StagedViewsAppend(r, views[1..], v);
    } else {
      assert [v][1..] == [];
    }
  }

  lemma {:induction false} StagedOpsAppend(r: Repo, ops: seq<StoredOp>, o: StoredOp)
    ensures StagedOps(r, ops + [o]) == StagedOps(r, ops) + if o.id in r.ops then [] else [PutOp(o)]
    decreases |ops|
  {
    if ops != [] {
      assert (ops + [o])[1..] == ops[1..] + [o];
      StagedOpsAppend(r, ops[1..], o);
    } else {
      assert [o][1..] == [];
    }
  }

  /** Stages and persists a batch: all its views, then its ops. `n` files land: none
      when an object claims the root's id, all of them unless a crash comes first. */
  method WriteBatch(repo: LocalRepo, batch: Batch, stop: nat) returns (done: bool, ghost n: nat)
    modifies repo
    ensures n <= |Staged(old(repo.Value()), batch)|
    ensures repo.Value() == ApplyAll(old(repo.Value()), Staged(old(repo.Value()), batch)[..n])
    ensures done <==> RootFree(batch) && |Staged(old(repo.Value()), batch)| <= stop
    ensures done ==> n == |Staged(old(repo.Value()), batch)|
    ensures RootFree(batch) && !done ==> n == stop
    ensures !RootFree(batch) ==> n == 0
  {
    var writes := new RawWriteBatch(repo);
    ghost var r := repo.Value();
    n := 0;
    assert Staged(r, batch)[..0] == [];
    for i := 0 to |batch.views|
      invariant writes.repo == repo && fresh(writes) && repo.Value() == r
      invariant writes.staged == StagedViews(r, batch.views[..i])
      invariant forall v :: v in batch.views[..i] ==> v.id != ROOT_VIEW
    {
      assert batch.views[..i + 1] == batch.views[..i] + [batch.views[i]];
      StagedViewsAppend(r, batch.views[..i], batch.views[i]);
      var ok := writes.WriteView(batch.views[i]);
      if !ok {
        return false, 0;
      }
    }
    assert batch.views[..|batch.views|] == batch.views;
    for i := 0 to |batch.ops|
      invariant writes.repo == repo && fresh(writes) && repo.Value() == r
      invariant writes.staged == StagedViews(r, batch.views) + StagedOps(r, batch.ops[..i])
      invariant forall o :: o in batch.ops[..i] ==> o.id != ROOT_OP
    {
      assert batch.ops[..i + 1] == batch.ops[..i] + [batch.ops[i]];
      StagedOpsAppend(r, batch.ops[..i], batch.ops[i]);
      var ok := writes.WriteOp(batch.ops[i]);
      if !ok {
        return false, 0;
      }
    }
    assert batch.ops[..|batch.ops|] == batch.ops;
    done := writes.Persist(stop);
    n := if done then |Staged(r, batch)| else stop;
  }

  /** The wants not already local heads. */
  function NewWants(wants: seq<OpId>, local: seq<OpId>): seq<OpId> {
    if wants == [] then []
    else
      var init, last := NewWants(wants[..|wants| - 1], local), wants[|wants| - 1];
      if last in local then init else init + [last]
  }

  ghost predicate Planning(batch: Batch, store: Ops, local: seq<OpId>, wants: seq<OpId>, plan: seq<Planned>) {
    && |plan| == |wants|
    && forall i :: 0 <= i < |plan| ==>
         plan[i].want == wants[i]
         && Supersedes(WalkGraph(ById(batch.ops), store), plan[i].want, Elems(local), plan[i].covered)
  }

  /** Stages a validated batch: everything on disk, nothing visible yet. It succeeds
      exactly when no object claims the root's id, no crash comes first, and every
      want to publish can then be read. */
  method Stage(repo: LocalRepo, batch: Batch, wants: seq<OpId>, local: seq<OpId>, stop: nat)
    returns (plan: Option<seq<Planned>>)
    requires ROOT_OP !in repo.ops
    modifies repo
    ensures repo.heads == old(repo.heads) && repo.git == old(repo.git)
    ensures exists n :: 0 <= n <= |Staged(old(repo.Value()), batch)|
              && repo.Value() == ApplyAll(old(repo.Value()), Staged(old(repo.Value()), batch)[..n])
    ensures !RootFree(batch) ==> repo.Value() == old(repo.Value())
    ensures RootFree(batch) && |Staged(old(repo.Value()), batch)| <= stop ==>
              repo.Value() == ApplyAll(old(repo.Value()), Staged(old(repo.Value()), batch))
    ensures plan.Some? <==> && RootFree(batch) && |Staged(old(repo.Value()), batch)| <= stop
                            && forall w :: w in wants && w !in local ==> Readable(repo.ops, repo.views, w)
    ensures plan.Some? ==> Planning(batch, repo.ops, local, NewWants(wants, local), plan.value)
  {
    hide Planning, NewWants, Staged, ById, ApplyAll, Readable, RootFree;
    ghost var r := repo.Value();
    ghost var ws := Staged(r, batch);
    var done, n := WriteBatch(repo, batch, stop);
    WritesOnly(r, ws[..n]);
    if !done {
      assert !RootFree(batch) ==> repo.Value() == r by { NoWrites(r, ws); }
      return None;
    }
    assert ws[..n] == ws;
    RootStaysOut(r, batch);
    var planned := PlanWants(batch, repo.ops, wants, local);
    PlannedAreNewWants(batch, repo.ops, local, wants, planned);
    if exists p :: p in planned && !Readable(repo.ops, repo.views, p.want) {
      return None;
    }
    plan := Some(planned);
  }

  lemma NoWrites(r: Repo, ws: seq<Write>)
    ensures ApplyAll(r, ws[..0]) == r
  {
    assert ws[..0] == [];
  }

  /** What is planned is exactly the wants that are not local heads. */
  lemma PlannedAreNewWants(batch: Batch, store: Ops, local: seq<OpId>, wants: seq<OpId>, plan: seq<Planned>)
    requires Planning(batch, store, local, NewWants(wants, local), plan)
    ensures forall p :: p in plan ==> p.want in wants && p.want !in local
    ensures forall w :: w in wants && w !in local ==> exists p :: p in plan && p.want == w
  {
    hide Supersedes, NewWants;
    var toPublish := NewWants(wants, local);
    NewWantsExact(wants, local);
    forall p | p in plan ensures p.want in toPublish {
      var i :| 0 <= i < |plan| && plan[i] == p;
      assert toPublish[i] == p.want;
    }
    forall w | w in wants && w !in local ensures exists p :: p in plan && p.want == w {
      var i :| 0 <= i < |toPublish| && toPublish[i] == w;
      assert plan[i] in plan && plan[i].want == w;
    }
  }

  predicate Readable(ops: Ops, views: Views, id: OpId) {
    HasOp(ops, id) && (id in ops ==> HasView(views, ops[id].view))
  }

  /** What each new want supersedes, through validated links only. */
  method PlanWants(batch: Batch, store: Ops, wants: seq<OpId>, local: seq<OpId>) returns (planned: seq<Planned>)
    requires ROOT_OP !in store && ROOT_OP !in ById(batch.ops)
    ensures Planning(batch, store, local, NewWants(wants, local), planned)
  {
    hide Supersedes, WalkGraph, ById;
    var byId := ById(batch.ops);
    planned := [];
    for i := 0 to |wants|
      invariant Planning(batch, store, local, NewWants(wants[..i], local), planned)
    {
      assert wants[..i + 1][..i] == wants[..i];
      if wants[i] !in local {
        var covered := SupersededBy(byId, store, wants[i], local);
        planned := planned + [Planned(wants[i], covered)];
      }
    }
    assert wants[..|wants|] == wants;
  }

  lemma {:induction false} WritesNoRoot(r: Repo, ws: seq<Write>)
    requires ROOT_OP !in r.ops && forall t :: t in ws && t.PutOp? ==> t.op.id != ROOT_OP
    ensures ROOT_OP !in ApplyAll(r, ws).ops
    decreases |ws|
  {
    if ws != [] {
      WritesNoRoot(Apply(r, ws[0]), ws[1..]);
    }
  }

  lemma RootStaysOut(r: Repo, batch: Batch)
    requires ROOT_OP !in r.ops && RootFree(batch)
    ensures ROOT_OP !in ApplyAll(r, Staged(r, batch)).ops && ROOT_OP !in ById(batch.ops)
  {
    StagedOpsMembers(r, batch.ops);
    StagedViewsMembers(r, batch.views);
    WritesNoRoot(r, Staged(r, batch));
  }

  lemma {:induction false} WritesOnly(r: Repo, ws: seq<Write>)
    ensures ApplyAll(r, ws).heads == r.heads && ApplyAll(r, ws).git == r.git
    decreases |ws|
  {
    if ws != [] {
      WritesOnly(Apply(r, ws[0]), ws[1..]);
    }
  }

  /** A head some entry covers and no later entry adds. */
  ghost predicate Unlisted(plan: seq<Planned>, h: OpId) {
    exists i :: 0 <= i < |plan| && h in plan[i].covered && forall j :: i < j < |plan| ==> plan[j].want != h
  }

  ghost predicate Wanted(plan: seq<Planned>, h: OpId) {
    exists i :: 0 <= i < |plan| && plan[i].want == h
  }

  /** What a whole publication leaves: the heads there were and the wants, without
      what was covered last. */
  ghost predicate Leaves(before: set<OpId>, plan: seq<Planned>, after: set<OpId>) {
    forall h :: h in after <==> (h in before || Wanted(plan, h)) && !Unlisted(plan, h)
  }

  lemma UnlistedBefore(plan: seq<Planned>, p: Planned, h: OpId)
    requires Unlisted(plan + [p], h) && h !in p.covered
    ensures Unlisted(plan, h) && h != p.want
  {
    var all := plan + [p];
    var i :| 0 <= i < |all| && h in all[i].covered && forall j :: i < j < |all| ==> all[j].want != h;
    assert i < |plan| && h in plan[i].covered && all[|plan|].want != h;
    assert forall j :: i < j < |plan| ==> plan[j].want == all[j].want;
  }

  lemma UnlistedAfter(plan: seq<Planned>, p: Planned, h: OpId)
    requires h in p.covered || (Unlisted(plan, h) && h != p.want)
    ensures Unlisted(plan + [p], h)
  {
    var all := plan + [p];
    if h in p.covered {
      assert h in all[|plan|].covered;
    } else {
      var i :| 0 <= i < |plan| && h in plan[i].covered && forall j :: i < j < |plan| ==> plan[j].want != h;
      assert h in all[i].covered && forall j :: i < j < |all| ==> all[j].want != h;
    }
  }

  lemma WantedOneMore(plan: seq<Planned>, p: Planned, h: OpId)
    ensures Wanted(plan + [p], h) <==> Wanted(plan, h) || h == p.want
  {
    var all := plan + [p];
    assert all[|plan|] == p;
    if i :| 0 <= i < |plan| && plan[i].want == h {
      assert all[i].want == h;
    }
  }

  lemma LeavesOneMore(before: set<OpId>, plan: seq<Planned>, mid: set<OpId>, p: Planned)
    requires Leaves(before, plan, mid)
    ensures Leaves(before, plan + [p], (mid + {p.want}) - Elems(p.covered))
  {
    hide Wanted, Unlisted;
    var all := plan + [p];
    forall h ensures Wanted(all, h) <==> Wanted(plan, h) || h == p.want {
      WantedOneMore(plan, p, h);
    }
    forall h ensures Unlisted(all, h) <==> h in p.covered || (Unlisted(plan, h) && h != p.want) {
      if h in p.covered || (Unlisted(plan, h) && h != p.want) {
        UnlistedAfter(plan, p, h);
      }
      if Unlisted(all, h) && h !in p.covered {
        UnlistedBefore(plan, p, h);
      }
    }
  }

  lemma NothingPublished(heads: set<OpId>)
    ensures Leaves(heads, [], heads)
  {
  }

  /** Publishes a staged batch, want by want; `stop` file operations happen at most. */
  method Publish(repo: LocalRepo, plan: seq<Planned>, stop: nat) returns (done: bool)
    modifies repo`heads
    requires forall p :: p in plan ==> HasOp(repo.ops, p.want)
    ensures done <==> |AllEdits(plan)| <= stop
    ensures repo.heads == EditAll(old(repo.heads), AllEdits(plan)[..if done then |AllEdits(plan)| else stop])
    ensures done ==> Leaves(old(repo.heads), plan, repo.heads)
  {
    hide EditAll, AllEdits, Leaves, Elems;
    var left := stop;
    ghost var edits: seq<HeadEdit> := [];
    NoEdits(repo.heads, plan);
    NothingPublished(repo.heads);
    assert plan[..0] == [];
    for i := 0 to |plan|
      invariant left >= 0 && edits == AllEdits(plan[..i]) && |edits| + left == stop
      invariant repo.heads == EditAll(old(repo.heads), edits)
      invariant Leaves(old(repo.heads), plan[..i], repo.heads)
    {
      LeavesOneMore(old(repo.heads), plan[..i], repo.heads, plan[i]);
      assert plan[..i + 1] == plan[..i] + [plan[i]];
      var ok, used := repo.UpdateOpHeads(plan[i].covered, plan[i].want, left);
      EditAllConcat(old(repo.heads), edits, Edits(plan[i])[..used]);
      EditsPrefix(plan, i);
      if used < 1 + |plan[i].covered| {
        assert AllEdits(plan)[..stop] == edits + Edits(plan[i])[..used];
        return false;
      }
      assert Edits(plan[i])[..used] == Edits(plan[i]) && plan[i].covered[..used - 1] == plan[i].covered;
      edits, left := edits + Edits(plan[i]), left - used;
    }
    assert plan[..|plan|] == plan && edits[..|edits|] == edits;
    done := true;
  }

  lemma NoEdits(heads: set<OpId>, plan: seq<Planned>)
    ensures AllEdits(plan[..0]) == [] && EditAll(heads, []) == heads
  {
    assert plan[..0] == [];
  }

  lemma {:induction false} EditAllConcat(heads: set<OpId>, a: seq<HeadEdit>, b: seq<HeadEdit>)
    ensures EditAll(EditAll(heads, a), b) == EditAll(heads, a + b)
    decreases |b|
  {
    if b == [] {
      assert a + b == a;
    } else {
      assert (a + b)[..|a + b| - 1] == a + b[..|b| - 1];
      EditAllConcat(heads, a, b[..|b| - 1]);
    }
  }

  lemma {:induction false} EditsPrefix(plan: seq<Planned>, i: nat)
    requires i < |plan|
    ensures AllEdits(plan[..i]) + Edits(plan[i]) <= AllEdits(plan)
    ensures AllEdits(plan[..i + 1]) == AllEdits(plan[..i]) + Edits(plan[i])
    decreases |plan|
  {
    var init := plan[..|plan| - 1];
    assert plan[..i + 1][..i] == plan[..i];
    if i < |init| {
      EditsPrefix(init, i);
      assert init[..i] == plan[..i];
    }
  }

  function WithHeads(r: Repo, heads: set<OpId>): Repo {
    r.(heads := heads)
  }

  /** However far one publication got, nothing listed is lost, and once begun its
      want is listed. */
  lemma {:induction false} OnePublication(r: Repo, p: Planned, m: nat)
    requires Sound(r) && Covers(r, p.want, p.covered)
    requires m <= |Edits(p)|
    ensures forall x :: Listed(r, x) ==> Listed(WithHeads(r, EditAll(r.heads, Edits(p)[..m])), x)
    ensures m > 0 ==> Listed(WithHeads(r, EditAll(r.heads, Edits(p)[..m])), p.want)
    decreases m
  {
    hide Listed, Dag.Acyclic, Dag.ParentClosed, Dag.StrictAncestor;
    var edits := Edits(p);
    assert edits[..0] == [];
    if m > 0 {
      OnePublication(r, p, m - 1);
      EditNext(r.heads, edits, m - 1);
      var before, after := WithHeads(r, EditAll(r.heads, edits[..m - 1])), WithHeads(r, EditAll(r.heads, edits[..m]));
      if m == 1 {
        HeadListed(after, p.want);
        forall x | Listed(before, x) ensures Listed(after, x) {
          MoreHeads(before, after, x);
        }
      } else {
        assert edits[m - 1] == Remove(p.covered[m - 2]) && p.covered[m - 2] in p.covered;
        forall x | Listed(before, x) ensures Listed(after, x) {
          RemovalKeeps(before, p.covered[m - 2], p.want, x);
        }
      }
    }
  }

  lemma MoreHeads(r: Repo, r': Repo, x: OpId)
    requires r.ops == r'.ops && r.heads <= r'.heads && Listed(r, x)
    ensures Listed(r', x)
  {
  }

  /** One more publication after whole ones. */
  lemma NextPublication(r: Repo, done: seq<HeadEdit>, p: Planned, m: nat)
    requires Sound(WithHeads(r, EditAll(r.heads, done)))
    requires Covers(WithHeads(r, EditAll(r.heads, done)), p.want, p.covered)
    requires m <= |Edits(p)|
    ensures forall x :: Listed(WithHeads(r, EditAll(r.heads, done)), x) ==>
                        Listed(WithHeads(r, EditAll(r.heads, done + Edits(p)[..m])), x)
    ensures m > 0 ==> Listed(WithHeads(r, EditAll(r.heads, done + Edits(p)[..m])), p.want)
  {
    hide Listed, Covers, Sound, Edits;
    OnePublication(WithHeads(r, EditAll(r.heads, done)), p, m);
    EditAllConcat(r.heads, done, Edits(p)[..m]);
  }

  /** A whole publication loses nothing and lists every want. */
  lemma {:induction false} WholePublication(r: Repo, plan: seq<Planned>)
    requires Sound(r) && forall p :: p in plan ==> HasOp(r.ops, p.want) && Covers(r, p.want, p.covered)
    ensures forall x :: Listed(r, x) ==> Listed(WithHeads(r, EditAll(r.heads, AllEdits(plan))), x)
    ensures forall p :: p in plan ==> Listed(WithHeads(r, EditAll(r.heads, AllEdits(plan))), p.want)
    decreases |plan|
  {
    hide Listed, Covers, Sound, Edits;
    if plan != [] {
      var init, last := plan[..|plan| - 1], plan[|plan| - 1];
      assert forall p :: p in plan <==> p in init || p == last;
      WholePublication(r, init);
      MidSound(r, init, EditAll(r.heads, AllEdits(init)));
      SomeEdits(last);
      NextPublication(r, AllEdits(init), last, |Edits(last)|);
      assert Edits(last)[..|Edits(last)|] == Edits(last);
    }
  }

  lemma SomeEdits(p: Planned)
    ensures |Edits(p)| > 0
  {
  }

  /** However far a publication got, nothing listed is lost. */
  lemma {:induction false} PublicationKeeps(r: Repo, plan: seq<Planned>, n: nat)
    requires Sound(r) && forall p :: p in plan ==> HasOp(r.ops, p.want) && Covers(r, p.want, p.covered)
    requires n <= |AllEdits(plan)|
    ensures forall x :: Listed(r, x) ==> Listed(WithHeads(r, EditAll(r.heads, AllEdits(plan)[..n])), x)
    decreases |plan|
  {
    hide Listed, Covers, Sound, Edits;
    if plan != [] {
      var init, last := plan[..|plan| - 1], plan[|plan| - 1];
      assert forall p :: p in init ==> p in plan;
      var before := AllEdits(init);
      if n <= |before| {
        PublicationKeeps(r, init, n);
        assert AllEdits(plan)[..n] == before[..n];
      } else {
        WholePublication(r, init);
        MidSound(r, init, EditAll(r.heads, before));
        NextPublication(r, before, last, n - |before|);
        assert AllEdits(plan)[..n] == before + Edits(last)[..n - |before|];
      }
    }
  }

  /** Intermediate heads are stored ops. */
  lemma MidSound(r: Repo, plan: seq<Planned>, heads: set<OpId>)
    requires Sound(r) && forall p :: p in plan ==> HasOp(r.ops, p.want)
    requires heads == EditAll(r.heads, AllEdits(plan))
    ensures Sound(WithHeads(r, heads))
    ensures forall w, c :: Covers(r, w, c) ==> Covers(WithHeads(r, heads), w, c)
  {
    hide Dag.Acyclic, Dag.ParentClosed, Dag.StrictAncestor;
    EditedStored(r, AllEdits(plan));
    AddsAreWants(plan);
  }

  lemma {:induction false} EditedStored(r: Repo, edits: seq<HeadEdit>)
    ensures forall h :: h in EditAll(r.heads, edits) ==> h in r.heads || Add(h) in edits
    decreases |edits|
  {
    if edits != [] {
      EditedStored(r, edits[..|edits| - 1]);
      assert forall e :: e in edits <==> e in edits[..|edits| - 1] || e == edits[|edits| - 1];
    }
  }

  lemma {:induction false} AddsAreWants(plan: seq<Planned>)
    ensures forall h :: Add(h) in AllEdits(plan) ==> exists p :: p in plan && p.want == h
    decreases |plan|
  {
    if plan != [] {
      var init, last := plan[..|plan| - 1], plan[|plan| - 1];
      AddsAreWants(init);
      forall h | Add(h) in AllEdits(plan) ensures exists p :: p in plan && p.want == h {
        if Add(h) in AllEdits(init) {
          var p :| p in init && p.want == h;
          assert p in plan;
        } else {
          assert Add(h) in Edits(last) && last in plan;
        }
      }
    }
  }

  lemma PrefixHeadsSound(r: Repo, plan: seq<Planned>, n: nat)
    requires Sound(r) && forall p :: p in plan ==> HasOp(r.ops, p.want)
    requires n <= |AllEdits(plan)|
    ensures Sound(WithHeads(r, EditAll(r.heads, AllEdits(plan)[..n])))
  {
    hide Dag.Acyclic, Dag.ParentClosed;
    var edits := AllEdits(plan)[..n];
    EditedStored(r, edits);
    AddsAreWants(plan);
    assert forall e :: e in edits ==> e in AllEdits(plan);
  }

  lemma {:induction false} WritesGrow(r: Repo, ws: seq<Write>)
    ensures Grows(r, ApplyAll(r, ws))
    ensures forall t :: t in ws && t.PutOp? ==> t.op.id in ApplyAll(r, ws).ops
    ensures forall x :: x in ApplyAll(r, ws).ops ==> x in r.ops || PutOp(StoredOp(x, ApplyAll(r, ws).ops[x])) in ws
    decreases |ws|
  {
    if ws != [] {
      WritesGrow(Apply(r, ws[0]), ws[1..]);
      assert forall t :: t in ws <==> t == ws[0] || t in ws[1..];
    }
  }

  lemma {:induction false} WritesAgree(byId: Ops, r: Repo, ws: seq<Write>)
    requires Agree(byId, r.ops)
    requires forall t :: t in ws && t.PutOp? ==> t.op.id in byId && byId[t.op.id] == t.op.op
    ensures Agree(byId, ApplyAll(r, ws).ops)
    decreases |ws|
  {
    if ws != [] {
      WritesAgree(byId, Apply(r, ws[0]), ws[1..]);
    }
  }

  /** A validated batch, whatever peer it came from, ready to be applied. */
  ghost predicate Appliable(r: Repo, batch: Batch) {
    && Sound(r) && DistinctIds(batch.ops) && Agree(ById(batch.ops), r.ops)
    && (RootFree(batch) ==> Lands(r, Staged(r, batch)))
  }

  lemma StagedSound(r: Repo, batch: Batch, n: nat)
    requires Appliable(r, batch) && RootFree(batch) && n <= |Staged(r, batch)|
    ensures var r' := ApplyAll(r, Staged(r, batch)[..n]);
            Sound(r') && Agree(ById(batch.ops), r'.ops) && Grows(r, r') && r'.heads == r.heads && r'.git == r.git
  {
    hide Sound, Lands, ById, DistinctIds;
    var ws := Staged(r, batch);
    PrefixSound(r, ws, n);
    StagedOpsMembers(r, batch.ops);
    StagedViewsMembers(r, batch.views);
    forall t | t in ws[..n] && t.PutOp? ensures t.op.id in ById(batch.ops) && ById(batch.ops)[t.op.id] == t.op.op {
      assert t in ws;
      ByIdHas(batch.ops, t.op);
    }
    WritesAgree(ById(batch.ops), r, ws[..n]);
    WritesGrow(r, ws[..n]);
    WritesOnly(r, ws[..n]);
  }

  /** Once everything is staged the store holds its own ops and the batch's. */
  lemma AllStaged(r: Repo, batch: Batch)
    ensures ApplyAll(r, Staged(r, batch)).ops.Keys == r.ops.Keys + OpIds(batch.ops)
  {
    var ws := Staged(r, batch);
    WritesGrow(r, ws);
    StagedOpsMembers(r, batch.ops);
    StagedViewsMembers(r, batch.views);
    forall x | x in ApplyAll(r, ws).ops && x !in r.ops ensures x in OpIds(batch.ops) {
      assert StoredOp(x, ApplyAll(r, ws).ops[x]) in batch.ops;
    }
    forall o | o in batch.ops ensures o.id in ApplyAll(r, ws).ops {
      if o.id !in r.ops {
        assert PutOp(o) in ws;
      }
    }
  }

  lemma PlannedCovers(r: Repo, batch: Batch, local: seq<OpId>, wants: seq<OpId>, plan: seq<Planned>)
    requires Planning(batch, r.ops, local, wants, plan)
    requires Agree(ById(batch.ops), r.ops) && ById(batch.ops).Keys <= r.ops.Keys
    ensures forall p :: p in plan ==> Covers(r, p.want, p.covered)
  {
    hide ById, Supersedes, Agree;
    SameGraph(ById(batch.ops), r.ops);
    forall p | p in plan ensures Covers(r, p.want, p.covered) {
      var i :| 0 <= i < |plan| && plan[i] == p;
      SupersededAreBelow(GraphOf(r.ops), p.want, Elems(local), p.covered);
    }
  }

  lemma {:induction false} NewWantsExact(wants: seq<OpId>, local: seq<OpId>)
    ensures forall w :: w in NewWants(wants, local) <==> w in wants && w !in local
    decreases |wants|
  {
    if wants != [] {
      NewWantsExact(wants[..|wants| - 1], local);
      assert forall w :: w in wants <==> w in wants[..|wants| - 1] || w == wants[|wants| - 1];
    }
  }

  /** Where a crash falls: after how many renames or head edits. A git mirror pass
      that fails is a stop before the first head edit. */
  datatype Crash = NoCrash | WhileStaging(after: nat) | WhilePublishing(after: nat)

  /** Stages and publishes a fetched batch. A crash after any file operation leaves
      closed stores and every listed op listed; an end-to-end run lists each want,
      and without a crash the run goes end to end exactly when no object of the
      batch claims the root's id and every new want is stored or in the batch. */
  method ApplyFetched(repo: LocalRepo, batch: Batch, wants: seq<OpId>, local: seq<OpId>, crash: Crash)
    returns (done: bool)
    requires Appliable(repo.Value(), batch)
    modifies repo
    ensures Sound(repo.Value()) && Grows(old(repo.Value()), repo.Value()) && repo.git == old(repo.git)
    ensures forall x :: old(Listed(repo.Value(), x)) ==> Listed(repo.Value(), x)
    ensures exists n :: 0 <= n <= |Staged(old(repo.Value()), batch)|
              && repo.Value() == WithHeads(ApplyAll(old(repo.Value()), Staged(old(repo.Value()), batch)[..n]),
                                           repo.heads)
    ensures !RootFree(batch) ==> !done && repo.Value() == old(repo.Value())
    ensures done ==> forall w :: w in wants && w !in local ==> Listed(repo.Value(), w)
    ensures done ==> Replaced(GraphOf(repo.ops), old(repo.heads), Elems(local), wants, repo.heads)
    ensures crash.NoCrash? ==> (done <==> RootFree(batch) && Covering(old(repo.ops), batch, wants, local))
  {
    hide Listed, Lands, Planning, Covers, NewWants, Staged, ById, Appliable, Sound, Readable, RootFree, Agree,
      OpIds, ApplyAll, EditAll, AllEdits, Grows, Covering, Leaves, Replaced, GraphOf;
    ghost var r := repo.Value();
    RootFreeStore(r, batch);
    StagedSize(r, batch);
    var plan := Stage(repo, batch, wants, local, if crash.WhileStaging? then crash.after
                                                 else |batch.views| + |batch.ops|);
    ghost var staged := repo.Value();
    if !RootFree(batch) {
      ItselfGrows(r);
      return false;
    }
    ghost var n :| 0 <= n <= |Staged(r, batch)| && staged == ApplyAll(r, Staged(r, batch)[..n]);
    StagedSound(r, batch, n);
    StillListed(r, staged);
    StagedReadable(r, batch, staged, wants, local);
    if plan.None? {
      return false;
    }
    PlanReady(r, staged, batch, local, wants, plan.value);
    var stop := if crash.WhilePublishing? then crash.after else |AllEdits(plan.value)|;
    done := Publish(repo, plan.value, stop);
    if done {
      AllStaged(r, batch);
      HeadsReplaced(batch, staged, local, wants, plan.value, repo.heads);
    }
    PublishedTo(r, staged, plan.value, if done then |AllEdits(plan.value)| else stop, repo.Value());
    PlannedAreNewWants(batch, staged.ops, local, wants, plan.value);
  }

  /** A want that is not a local head. */
  predicate IsNew(local: set<OpId>, wants: seq<OpId>, w: OpId) {
    w in wants && w !in local
  }

  /** What a finished fetch makes of the op heads: every new want is one; nothing else
      is added; only local heads go, each below a new want; and of an antichain,
      with the wants' ancestry within the walk's budget, all that are go. */
  ghost predicate Replaced(g: Dag.Graph, before: set<OpId>, local: set<OpId>, wants: seq<OpId>, after: set<OpId>) {
    && (forall w :: IsNew(local, wants, w) ==> w in after)
    && (forall h :: h in after ==> h in before || IsNew(local, wants, h))
    && (forall h :: h in before && h !in after ==>
          h in local && exists w :: IsNew(local, wants, w) && Dag.StrictAncestor(g, h, w))
    && (Antichain(g, local) && (forall w :: IsNew(local, wants, w) ==> |Ancestry(g, {w})| <= WALK_BUDGET) ==>
          forall h, w :: h in local && h != ROOT_OP && IsNew(local, wants, w) && Dag.StrictAncestor(g, h, w) ==>
                         h !in after)
  }

  lemma PlannedSupersedes(batch: Batch, r: Repo, local: seq<OpId>, wants: seq<OpId>, plan: seq<Planned>)
    requires Planning(batch, r.ops, local, wants, plan)
    requires Agree(ById(batch.ops), r.ops) && ById(batch.ops).Keys <= r.ops.Keys
    ensures forall i :: 0 <= i < |plan| ==>
              plan[i].want in wants && Supersedes(GraphOf(r.ops), plan[i].want, Elems(local), plan[i].covered)
  {
    hide ById, Supersedes, Agree, WalkGraph, GraphOf;
    SameGraph(ById(batch.ops), r.ops);
  }

  lemma CoveredBelow(g: Dag.Graph, p: Planned, local: set<OpId>, h: OpId)
    requires Supersedes(g, p.want, local, p.covered) && h in p.covered
    ensures h in local && Dag.StrictAncestor(g, h, p.want)
  {
    hide Dag.Acyclic, Antichain, Ancestry, Dag.StrictAncestor;
  }

  lemma CoversAll(g: Dag.Graph, p: Planned, local: set<OpId>, h: OpId)
    requires Supersedes(g, p.want, local, p.covered) && Dag.Acyclic(g)
    requires Antichain(g, local) && |Ancestry(g, {p.want})| <= WALK_BUDGET
    requires h in local && h != ROOT_OP && Dag.StrictAncestor(g, h, p.want)
    ensures h in p.covered
  {
    hide Dag.Acyclic, Antichain, Ancestry, Dag.StrictAncestor;
  }

  lemma UnlistedBelow(g: Dag.Graph, plan: seq<Planned>, local: set<OpId>, wants: seq<OpId>, h: OpId)
    requires forall i :: 0 <= i < |plan| ==>
               IsNew(local, wants, plan[i].want) && Supersedes(g, plan[i].want, local, plan[i].covered)
    requires Unlisted(plan, h)
    ensures h in local && exists w :: IsNew(local, wants, w) && Dag.StrictAncestor(g, h, w)
  {
    hide Supersedes, Dag.StrictAncestor, IsNew;
    var i :| 0 <= i < |plan| && h in plan[i].covered && forall j :: i < j < |plan| ==> plan[j].want != h;
    CoveredBelow(g, plan[i], local, h);
  }

  lemma BelowUnlisted(g: Dag.Graph, plan: seq<Planned>, local: set<OpId>, wants: seq<OpId>, h: OpId, w: OpId)
    requires forall i :: 0 <= i < |plan| ==>
               IsNew(local, wants, plan[i].want) && Supersedes(g, plan[i].want, local, plan[i].covered)
    requires Dag.Acyclic(g) && Antichain(g, local) && |Ancestry(g, {w})| <= WALK_BUDGET
    requires h in local && h != ROOT_OP && Wanted(plan, w) && Dag.StrictAncestor(g, h, w)
    ensures Unlisted(plan, h)
  {
    hide Supersedes, Dag.StrictAncestor, Dag.Acyclic, Antichain, Ancestry;
    var i :| 0 <= i < |plan| && plan[i].want == w;
    CoversAll(g, plan[i], local, h);
    assert forall j :: i < j < |plan| ==> plan[j].want != h;
  }

  lemma WantedIsNew(plan: seq<Planned>, local: set<OpId>, wants: seq<OpId>)
    requires forall p :: p in plan ==> IsNew(local, wants, p.want)
    requires forall w :: IsNew(local, wants, w) ==> exists p :: p in plan && p.want == w
    ensures forall i :: 0 <= i < |plan| ==> IsNew(local, wants, plan[i].want)
    ensures forall w :: Wanted(plan, w) <==> IsNew(local, wants, w)
  {
    hide IsNew;
    forall w | IsNew(local, wants, w) ensures Wanted(plan, w) {
      var p :| p in plan && p.want == w;
      var i :| 0 <= i < |plan| && plan[i] == p;
      assert plan[i].want == w;
    }
    forall w | Wanted(plan, w) ensures IsNew(local, wants, w) {
      var i :| 0 <= i < |plan| && plan[i].want == w;
      assert plan[i] in plan;
    }
  }

  /** The published heads replace exactly what is below a new want. */
  lemma HeadsReplaced(batch: Batch, staged: Repo, local: seq<OpId>, wants: seq<OpId>, plan: seq<Planned>,
                      after: set<OpId>)
    requires Sound(staged) && Agree(ById(batch.ops), staged.ops) && ById(batch.ops).Keys <= staged.ops.Keys
    requires Planning(batch, staged.ops, local, NewWants(wants, local), plan)
    requires Leaves(staged.heads, plan, after)
    ensures Replaced(GraphOf(staged.ops), staged.heads, Elems(local), wants, after)
  {
    hide Supersedes, Planning, NewWants, ById, Agree, Sound, GraphOf, Dag.Acyclic, Dag.StrictAncestor, Antichain,
      Ancestry, Wanted, Unlisted;
    var g, l := GraphOf(staged.ops), Elems(local);
    StagedAcyclic(staged);
    PlannedSupersedes(batch, staged, local, NewWants(wants, local), plan);
    PlannedAreNewWants(batch, staged.ops, local, wants, plan);
    WantedIsNew(plan, l, wants);
    forall h | Unlisted(plan, h)
      ensures h in l && exists w :: IsNew(l, wants, w) && Dag.StrictAncestor(g, h, w)
    {
      UnlistedBelow(g, plan, l, wants, h);
    }
    if Antichain(g, l) && forall w :: IsNew(l, wants, w) ==> |Ancestry(g, {w})| <= WALK_BUDGET {
      forall h, w | h in l && h != ROOT_OP && IsNew(l, wants, w) && Dag.StrictAncestor(g, h, w) ensures h !in after {
        BelowUnlisted(g, plan, l, wants, h, w);
      }
    }
  }

  lemma StagedAcyclic(r: Repo)
    requires Sound(r)
    ensures Dag.Acyclic(GraphOf(r.ops))
  {
  }

  /** Fetching keeps the op heads free of heads below others, when the wants are no
      local head's ancestors nor each other's. */
  lemma StaysAntichain(g: Dag.Graph, before: set<OpId>, wants: seq<OpId>, after: set<OpId>)
    requires Replaced(g, before, before, wants, after) && Dag.Acyclic(g) && ROOT_OP !in before
    requires Antichain(g, before) && Antichain(g, Elems(wants))
    requires forall w, h :: w in wants && h in before ==> !Dag.StrictAncestor(g, w, h)
    requires forall w :: w in wants ==> |Ancestry(g, {w})| <= WALK_BUDGET
    ensures Antichain(g, after)
  {
    hide Dag.StrictAncestor, Dag.Acyclic, Ancestry;
    forall a, b | a in after && b in after ensures !Dag.StrictAncestor(g, a, b) {
      if a !in before { assert IsNew(before, wants, a) && a in Elems(wants); }
      if b !in before { assert IsNew(before, wants, b) && b in Elems(wants); }
    }
  }

  /** Every want to publish is stored or in the batch. */
  predicate Covering(ops: Ops, batch: Batch, wants: seq<OpId>, local: seq<OpId>) {
    forall w :: w in wants && w !in local ==> HasOp(ops, w) || w in OpIds(batch.ops)
  }

  lemma ItselfGrows(r: Repo)
    ensures Grows(r, r)
  {
  }

  lemma StagedSize(r: Repo, batch: Batch)
    ensures |Staged(r, batch)| <= |batch.views| + |batch.ops|
  {
    StagedViewsSize(r, batch.views);
    StagedOpsSize(r, batch.ops);
  }

  lemma {:induction false} StagedViewsSize(r: Repo, views: seq<StoredView>)
    ensures |StagedViews(r, views)| <= |views|
    decreases |views|
  {
    if views != [] {
      StagedViewsSize(r, views[1..]);
    }
  }

  lemma {:induction false} StagedOpsSize(r: Repo, ops: seq<StoredOp>)
    ensures |StagedOps(r, ops)| <= |ops|
    decreases |ops|
  {
    if ops != [] {
      StagedOpsSize(r, ops[1..]);
    }
  }

  /** With everything staged, a want can be read exactly when it was stored or came
      with the batch. */
  lemma StagedReadable(r: Repo, batch: Batch, staged: Repo, wants: seq<OpId>, local: seq<OpId>)
    requires Sound(staged)
    ensures staged == ApplyAll(r, Staged(r, batch)) ==>
              ((forall w :: w in wants && w !in local ==> Readable(staged.ops, staged.views, w))
               <==> Covering(r.ops, batch, wants, local))
  {
    hide Dag.Acyclic, Dag.ParentClosed, Staged, ApplyAll, OpIds;
    AllStaged(r, batch);
    forall w ensures Readable(staged.ops, staged.views, w) <==> HasOp(staged.ops, w) {
    }
  }

  lemma RootFreeStore(r: Repo, batch: Batch)
    requires Appliable(r, batch)
    ensures ROOT_OP !in r.ops && Sound(r)
  {
  }

  lemma StillListed(r: Repo, r': Repo)
    requires Grows(r, r') && r'.heads == r.heads
    ensures forall x :: Listed(r, x) ==> Listed(r', x)
  {
    hide Listed;
    GrowthKeeps(r, r');
  }

  lemma PlanReady(r: Repo, staged: Repo, batch: Batch, local: seq<OpId>, wants: seq<OpId>, plan: seq<Planned>)
    requires staged == ApplyAll(r, Staged(r, batch)) && Agree(ById(batch.ops), staged.ops)
    requires Planning(batch, staged.ops, local, NewWants(wants, local), plan)
    requires forall w :: w in wants && w !in local ==> Readable(staged.ops, staged.views, w)
    ensures forall p :: p in plan ==> HasOp(staged.ops, p.want) && Covers(staged, p.want, p.covered)
  {
    hide Covers, Planning, Agree, Staged, ApplyAll;
    AllStaged(r, batch);
    PlannedCovers(staged, batch, local, NewWants(wants, local), plan);
    PlannedAreNewWants(batch, staged.ops, local, wants, plan);
  }

  /** The heads after `m` edits of a plan: nothing listed is lost, and all of them
      list every want. */
  lemma PublishedTo(r: Repo, staged: Repo, plan: seq<Planned>, m: nat, after: Repo)
    requires Sound(staged) && Grows(r, staged) && m <= |AllEdits(plan)|
    requires forall p :: p in plan ==> HasOp(staged.ops, p.want) && Covers(staged, p.want, p.covered)
    requires after == WithHeads(staged, EditAll(staged.heads, AllEdits(plan)[..m]))
    ensures Sound(after) && Grows(r, after)
    ensures forall x :: Listed(staged, x) ==> Listed(after, x)
    ensures m == |AllEdits(plan)| ==> forall p :: p in plan ==> Listed(after, p.want)
  {
    hide Listed, Covers, Sound, AllEdits, EditAll;
    PrefixHeadsSound(staged, plan, m);
    PublicationKeeps(staged, plan, m);
    if m == |AllEdits(plan)| {
      WholePublication(staged, plan);
      assert AllEdits(plan)[..m] == AllEdits(plan);
    }
  }
}
