/** The op log and the op phase of a fetch: frames served, received, validated. */
module OpLog {
  import opened Collections
  import Dag

  type OpId = Dag.Id
  type ViewId = nat
  type CommitId = nat

  /** The root operation and its view are synthesized by jj in every repo, never
      stored nor sent. */
  const ROOT_OP: OpId := Dag.ROOT
  const ROOT_VIEW: ViewId := 0

  const MAX_OP_FRAMES := 0x10_0000

  /** An operation: its parents, its view, and the commits its predecessor records
      reference. A view stands for the commits it references. */
  datatype Op = Op(parents: seq<OpId>, view: ViewId, commits: set<CommitId>)

  type Ops = map<OpId, Op>
  type Views = map<ViewId, set<CommitId>>

  datatype StoredOp = StoredOp(id: OpId, op: Op)
  datatype StoredView = StoredView(id: ViewId, commits: set<CommitId>)
  datatype Batch = Batch(ops: seq<StoredOp>, views: seq<StoredView>)

  /** A frame of the op phase; `Malformed` stands for bytes or ids no reader of
      jj accepts. */
  datatype Frame =
    | Begin
    | ViewFrame(view: StoredView)
    | OpFrame(op: StoredOp)
    | Malformed
    | Done
    | Error

  /** No object of the batch claims the root's id. */
  predicate RootFree(batch: Batch) {
    (forall v :: v in batch.views ==> v.id != ROOT_VIEW) && (forall o :: o in batch.ops ==> o.id != ROOT_OP)
  }

  /** Every commit the batch references. */
  function Referenced(batch: Batch): set<CommitId> {
    (set v, c | v in batch.views && c in v.commits :: c) + (set o, c | o in batch.ops && c in o.op.commits :: c)
  }

  predicate HasOp(ops: Ops, id: OpId) { id in ops || id == ROOT_OP }
  predicate HasView(views: Views, id: ViewId) { id in views || id == ROOT_VIEW }

  ghost function GraphOf(ops: Ops): Dag.Graph {
    map x | x in ops :: ops[x].parents
  }

  /** Ids determine content: what both hold is the same. */
  ghost predicate Agree(a: Ops, b: Ops) {
    forall x :: x in a && x in b ==> a[x] == b[x]
  }

  function OpIds(ops: seq<StoredOp>): set<OpId> {
    set o | o in ops :: o.id
  }

  function ViewIds(views: seq<StoredView>): set<ViewId> {
    set v | v in views :: v.id
  }

  ghost predicate DistinctIds(ops: seq<StoredOp>) {
    forall i, j :: 0 <= i < j < |ops| ==> ops[i].id != ops[j].id
  }

  /** The ops of a batch by id. */
  function ById(ops: seq<StoredOp>): (m: Ops)
    ensures m.Keys == OpIds(ops)
    ensures DistinctIds(ops) ==> forall o :: o in ops ==> m[o.id] == o.op
  {
    if ops == [] then map[]
    else
      var last := ops[|ops| - 1];
      assert forall o :: o in ops <==> o == last || o in ops[..|ops| - 1];
      ById(ops[..|ops| - 1])[last.id := last.op]
  }

  /** The parent links that stay inside the batch. */
  ghost function BatchGraph(ops: seq<StoredOp>): Dag.Graph {
    map x | x in OpIds(ops) :: Inside(ById(ops)[x].parents, OpIds(ops))
  }

  function Inside(ids: seq<OpId>, kept: set<OpId>): (r: seq<OpId>)
    ensures forall x :: x in r <==> x in ids && x in kept
  {
    if ids == [] then []
    else if ids[|ids| - 1] in kept then Inside(ids[..|ids| - 1], kept) + [ids[|ids| - 1]]
    else Inside(ids[..|ids| - 1], kept)
  }

  /** Every batch op lies on a want's ancestry inside the batch. */
  ghost predicate AllReachable(wants: seq<OpId>, ops: seq<StoredOp>) {
    forall o :: o in ops ==> Dag.AncestorOfAny(BatchGraph(ops), o.id, WantedHere(wants, ops))
  }

  ghost function WantedHere(wants: seq<OpId>, ops: seq<StoredOp>): set<OpId> {
    set w | w in wants && w in OpIds(ops)
  }

  lemma {:induction false} DistinctCount(ops: seq<StoredOp>)
    requires DistinctIds(ops)
    ensures |OpIds(ops)| == |ops|
    decreases |ops|
  {
    if ops != [] {
      var init, last := ops[..|ops| - 1], ops[|ops| - 1];
      DistinctCount(init);
      assert forall o :: o in ops <==> o in init || o == last;
      assert OpIds(ops) == OpIds(init) + {last.id};
    }
  }

  /** Between two pops of a search for the ancestors of `here`. */
  ghost predicate Searching(g: Dag.Graph, here: set<OpId>, reached: set<OpId>, stack: seq<OpId>) {
    && (forall x :: x in stack ==> Dag.AncestorOfAny(g, x, here))
    && (forall x :: x in reached ==> Dag.AncestorOfAny(g, x, here))
    && (forall x, p :: x in reached && p in Dag.Parents(g, x) ==> p in reached || p in stack)
    && (forall w :: w in here ==> w in reached || w in stack)
  }

  lemma SearchPop(g: Dag.Graph, here: set<OpId>, reached: set<OpId>, rest: seq<OpId>, id: OpId)
    requires Searching(g, here, reached, rest + [id])
    ensures id in reached ==> Searching(g, here, reached, rest)
    ensures Searching(g, here, reached + {id}, rest + Dag.Parents(g, id))
  {
    hide Dag.AncestorOfAny;
    assert forall x :: x in rest + [id] <==> x in rest || x == id;
    ParentsReached(g, id, here);
  }

  lemma SearchEnds(g: Dag.Graph, here: set<OpId>, reached: set<OpId>)
    requires Searching(g, here, reached, [])
    ensures forall x :: x in reached <==> Dag.AncestorOfAny(g, x, here)
  {
    hide Dag.AncestorOfAny;
    ReachedIsClosed(g, here, reached);
  }

  /** Whether every batch op is reachable from the wants. */
  method EnsureBatchReachable(wants: seq<OpId>, ops: seq<StoredOp>) returns (ok: bool)
    requires DistinctIds(ops)
    ensures ok <==> AllReachable(wants, ops)
  {
    hide Dag.AncestorOfAny, Searching;
    var byId := ById(ops);
    ghost var g := BatchGraph(ops);
    ghost var here := WantedHere(wants, ops);
    var reachable: set<OpId> := {};
    var stack := Inside(wants, byId.Keys);
    SearchStarts(g, here, stack);
    while stack != []
      invariant Searching(g, here, reachable, stack)
      invariant reachable <= byId.Keys && forall x :: x in stack ==> x in byId
      decreases byId.Keys - reachable, |stack|
    {
      var id := stack[|stack| - 1];
      var rest := stack[..|stack| - 1];
      assert stack == rest + [id];
      SearchPop(g, here, reachable, rest, id);
      if id !in reachable {
        reachable := reachable + {id};
        stack := rest + Inside(byId[id].parents, byId.Keys);
      } else {
        stack := rest;
      }
    }
    SearchEnds(g, here, reachable);
    assert OpIds(ops) <= reachable ==> OpIds(ops) == reachable;
    ok := |reachable| == |ops|;
    DistinctCount(ops);
    if ok {
      SameSize(reachable, OpIds(ops));
    }
  }

  lemma SearchStarts(g: Dag.Graph, here: set<OpId>, stack: seq<OpId>)
    requires forall x :: x in stack <==> x in here
    ensures Searching(g, here, {}, stack)
  {
    forall x | x in stack ensures Dag.AncestorOfAny(g, x, here) {
      assert Dag.Ancestor(g, x, x);
    }
  }

  lemma ParentsReached(g: Dag.Graph, id: OpId, here: set<OpId>)
    requires Dag.AncestorOfAny(g, id, here)
    ensures forall p :: p in Dag.Parents(g, id) ==> Dag.AncestorOfAny(g, p, here)
  {
    var w :| w in here && Dag.Ancestor(g, id, w);
    forall p | p in Dag.Parents(g, id) ensures Dag.AncestorOfAny(g, p, here) {
      Dag.ParentStep(g, p, id, w);
    }
  }

  /** The ops of a stream, in order, and its views, the first of each id. */
  function OpsOf(frames: seq<Frame>): seq<StoredOp> {
    if frames == [] then []
    else
      var last := frames[|frames| - 1];
      OpsOf(frames[..|frames| - 1]) + if last.OpFrame? then [last.op] else []
  }

  function ViewsOf(frames: seq<Frame>): seq<StoredView> {
    if frames == [] then []
    else
      var last, before := frames[|frames| - 1], ViewsOf(frames[..|frames| - 1]);
      before + if last.ViewFrame? && last.view.id !in ViewIds(before) then [last.view] else []
  }

  /** An op is accepted after its parents and its view. */
  predicate OpOk(ops: Ops, views: Views, opIds: set<OpId>, viewIds: set<ViewId>, o: StoredOp) {
    && o.id != ROOT_OP && o.op.parents != [] && o.id !in opIds
    && (forall p :: p in o.op.parents ==> p in opIds || HasOp(ops, p))
    && (o.op.view in viewIds || HasView(views, o.op.view))
  }

  ghost predicate FrameOk(ops: Ops, views: Views, frames: seq<Frame>, j: nat)
    requires j < |frames|
  {
    match frames[j]
    case Begin => j == 0
    case ViewFrame(_) => true
    case OpFrame(o) => OpOk(ops, views, OpIds(OpsOf(frames[..j])), ViewIds(ViewsOf(frames[..j])), o)
    case _ => false
  }

  /** The frames up to a `Done` at `k` make a batch a fetcher takes. */
  ghost predicate Accepted(ops: Ops, views: Views, wants: seq<OpId>, frames: seq<Frame>, k: nat) {
    && k < |frames| && k < MAX_OP_FRAMES && frames[k].Done?
    && (forall j :: 0 <= j < k ==> FrameOk(ops, views, frames, j))
    && (forall w :: w in wants ==> w in OpIds(OpsOf(frames[..k])) || HasOp(ops, w))
    && AllReachable(wants, OpsOf(frames[..k]))
  }

  ghost function BatchAt(frames: seq<Frame>, k: nat): Batch
    requires k <= |frames|
  {
    Batch(OpsOf(frames[..k]), ViewsOf(frames[..k]))
  }

  lemma FrameStep(frames: seq<Frame>, j: nat)
    requires j < |frames|
    ensures frames[..j + 1][..j] == frames[..j] && frames[..j + 1][j] == frames[j]
    ensures OpsOf(frames[..j + 1]) == OpsOf(frames[..j]) + if frames[j].OpFrame? then [frames[j].op] else []
    ensures OpIds(OpsOf(frames[..j + 1])) ==
            OpIds(OpsOf(frames[..j])) + if frames[j].OpFrame? then {frames[j].op.id} else {}
    ensures ViewsOf(frames[..j + 1]) == ViewsOf(frames[..j])
              + if frames[j].ViewFrame? && frames[j].view.id !in ViewIds(ViewsOf(frames[..j])) then [frames[j].view]
                else []
    ensures ViewIds(ViewsOf(frames[..j + 1])) ==
            ViewIds(ViewsOf(frames[..j])) + if frames[j].ViewFrame? then {frames[j].view.id} else {}
  {
    assert frames[..j + 1][..j] == frames[..j];
    var a, b := OpsOf(frames[..j]), if frames[j].OpFrame? then [frames[j].op] else [];
    assert forall o :: o in a + b <==> o in a || o in b;
    var v := ViewsOf(frames[..j]);
    var w := if frames[j].ViewFrame? && frames[j].view.id !in ViewIds(v) then [frames[j].view] else [];
    assert ViewsOf(frames[..j + 1]) == v + w;
    assert forall o :: o in v + w <==> o in v || o in w;
  }

  lemma {:induction false} AcceptedOpsDistinct(ops: Ops, views: Views, frames: seq<Frame>, k: nat)
    requires k <= |frames| && forall j :: 0 <= j < k ==> FrameOk(ops, views, frames, j)
    ensures DistinctIds(OpsOf(frames[..k]))
    decreases k
  {
    hide AllReachable, OpsOf, ViewsOf, OpIds, ViewIds, DistinctIds, FrameOk;
    if k > 0 {
      AcceptedOpsDistinct(ops, views, frames, k - 1);
      FrameStep(frames, k - 1);
      assert FrameOk(ops, views, frames, k - 1);
      NewOp(ops, views, frames, k - 1);
      if frames[k - 1].OpFrame? {
        DistinctOneMore(OpsOf(frames[..k - 1]), frames[k - 1].op);
      } else {
        assert OpsOf(frames[..k]) == OpsOf(frames[..k - 1]);
      }
    } else {
      NoFrames(frames);
      NoneDistinct();
    }
  }

  lemma NoneDistinct()
    ensures DistinctIds([])
  {
  }

  lemma NewOp(ops: Ops, views: Views, frames: seq<Frame>, j: nat)
    requires j < |frames| && FrameOk(ops, views, frames, j)
    ensures frames[j].OpFrame? ==> frames[j].op.id !in OpIds(OpsOf(frames[..j]))
  {
    hide OpsOf, ViewsOf, OpIds, ViewIds;
  }

  lemma DistinctOneMore(before: seq<StoredOp>, o: StoredOp)
    requires DistinctIds(before) && o.id !in OpIds(before)
    ensures DistinctIds(before + [o])
  {
    forall i | 0 <= i < |before| ensures before[i].id in OpIds(before) {
      assert before[i] in before;
    }
  }

  /** The first frame that is no data decides. */
  lemma Refused(ops: Ops, views: Views, wants: seq<OpId>, frames: seq<Frame>, j: nat)
    requires j < |frames| && !FrameOk(ops, views, frames, j) && !Accepted(ops, views, wants, frames, j)
    requires forall i :: 0 <= i < j ==> FrameOk(ops, views, frames, i)
    ensures forall k: nat :: !Accepted(ops, views, wants, frames, k)
  {
    forall k: nat ensures !Accepted(ops, views, wants, frames, k) {
      if k < j && k < |frames| {
        assert FrameOk(ops, views, frames, k);
      }
    }
  }

  /** A stream that ends, or goes on too long, without `Done` is refused. */
  lemma NeverDone(ops: Ops, views: Views, wants: seq<OpId>, frames: seq<Frame>, j: nat)
    requires j <= |frames| && (j == |frames| || j == MAX_OP_FRAMES)
    requires forall i :: 0 <= i < j ==> FrameOk(ops, views, frames, i)
    ensures forall k: nat :: !Accepted(ops, views, wants, frames, k)
  {
    forall k: nat ensures !Accepted(ops, views, wants, frames, k) {
      if k < j && k < |frames| {
        assert FrameOk(ops, views, frames, k);
      }
    }
  }

  lemma NoFrames(frames: seq<Frame>)
    ensures OpsOf(frames[..0]) == [] && ViewsOf(frames[..0]) == [] && OpIds([]) == {} && ViewIds([]) == {}
  {
    assert frames[..0] == [];
  }

  /** Receives and validates the op phase. */
  method ReceiveOps(ops: Ops, views: Views, wants: seq<OpId>, frames: seq<Frame>) returns (r: Option<Batch>)
    ensures r.Some? <==> exists k: nat :: Accepted(ops, views, wants, frames, k)
    ensures r.Some? ==> exists k: nat :: Accepted(ops, views, wants, frames, k) && r.value == BatchAt(frames, k)
  {
    hide AllReachable, OpOk, OpsOf, ViewsOf, OpIds, ViewIds, DistinctIds, HasOp, HasView;
    var gotOps: seq<StoredOp>, gotViews: seq<StoredView> := [], [];
    var opIds: set<OpId>, viewIds: set<ViewId> := {}, {};
    var begun, dataSeen := false, false;
    NoFrames(frames);
    for j := 0 to MAX_OP_FRAMES
      invariant j <= |frames|
      invariant forall i :: 0 <= i < j ==> FrameOk(ops, views, frames, i)
      invariant gotOps == OpsOf(frames[..j]) && gotViews == ViewsOf(frames[..j])
      invariant opIds == OpIds(gotOps) && viewIds == ViewIds(gotViews)
      invariant begun || dataSeen <==> j > 0
    {
      if j == |frames| {
        NeverDone(ops, views, wants, frames, j);
        return None;
      }
      FrameStep(frames, j);
      match frames[j] {
        case Begin =>
          if begun || dataSeen {
            Refused(ops, views, wants, frames, j);
            return None;
          }
          begun := true;
        case ViewFrame(view) =>
          dataSeen := true;
          if view.id !in viewIds {
            viewIds := viewIds + {view.id};
            gotViews := gotViews + [view];
          }
        case OpFrame(o) =>
          dataSeen := true;
          if !OpOk(ops, views, opIds, viewIds, o) {
            Refused(ops, views, wants, frames, j);
            return None;
          }
          opIds := opIds + {o.id};
          gotOps := gotOps + [o];
        case Done =>
          if exists w :: w in wants && w !in opIds && !HasOp(ops, w) {
            Refused(ops, views, wants, frames, j);
            return None;
          }
          AcceptedOpsDistinct(ops, views, frames, j);
          var reachable := EnsureBatchReachable(wants, gotOps);
          if reachable {
            assert Accepted(ops, views, wants, frames, j);
            return Some(Batch(gotOps, gotViews));
          }
          Refused(ops, views, wants, frames, j);
          return None;
        case _ =>
          Refused(ops, views, wants, frames, j);
          return None;
      }
    }
    NeverDone(ops, views, wants, frames, MAX_OP_FRAMES);
    r := None;
  }

  /** A closed set holding the sources holds every ancestor. */
  lemma ReachedIsClosed(g: Dag.Graph, here: set<OpId>, reachable: set<OpId>)
    requires Dag.Closed(g, reachable) && here <= reachable
    ensures forall x :: Dag.AncestorOfAny(g, x, here) ==> x in reachable
  {
    hide Dag.Closed;
    forall x | Dag.AncestorOfAny(g, x, here) ensures x in reachable {
      var w :| w in here && Dag.Ancestor(g, x, w);
      Dag.InClosed(g, x, w, reachable);
    }
  }
}
