/** From the bytes of the wire to the frames the op phase validates: what a view or
    an operation references is what the codec finds in it, in every encoding. */
module Decoding {
  import opened Collections
  import Codec
  import opened OpLog
  import opened Replica
  import ServeGit

  /** A frame as received, its payload decoded when it can be. */
  datatype RawFrame =
    | RawBegin
    | RawView(id: Codec.Bytes, view: Option<Codec.View>)
    | RawOp(id: Codec.Bytes, op: Option<Codec.Operation>)
    | RawDone
    | RawError

  /** Ids as numbers. */
  type Numbering = Codec.Bytes -> nat

  function Numbers(num: Numbering, ids: set<Codec.Bytes>): set<nat> {
    set b | b in ids :: num(b)
  }

  function NumberAll(num: Numbering, ids: seq<Codec.Bytes>): (r: seq<nat>)
    ensures |r| == |ids| && forall i :: 0 <= i < |r| ==> r[i] == num(ids[i])
  {
    seq(|ids|, i requires 0 <= i < |ids| => num(ids[i]))
  }

  /** The frame the validation sees: malformed unless the id has the store's length
      and jj can read the payload, with exactly the commits the payload references. */
  ghost function Decoded(num: Numbering, raw: RawFrame): Frame {
    match raw
    case RawBegin => Begin
    case RawView(id, view) =>
      if |id| == Codec.STORE_ID_LEN && view.Some? && Codec.ViewReads(view.value)
      then ViewFrame(StoredView(num(id), Numbers(num, Codec.ViewIds(view.value))))
      else Malformed
    case RawOp(id, op) =>
      if |id| == Codec.STORE_ID_LEN && op.Some? && Codec.OperationReads(op.value)
      then OpFrame(StoredOp(num(id), Op(NumberAll(num, op.value.parents), num(op.value.viewId),
                                        Numbers(num, Codec.Union(op.value.predecessors, Codec.PredecessorIds)))))
      else Malformed
    case RawDone => Done
    case RawError => Error
  }

  /** What is taken from a frame: nothing of a view or an operation whose id has another
      length or that jj cannot read, and otherwise its id, its links and exactly the
      commits it names. */
  ghost predicate Takes(num: Numbering, raw: RawFrame, f: Frame) {
    match raw
    case RawBegin => f.Begin?
    case RawDone => f.Done?
    case RawError => f.Error?
    case RawView(id, view) =>
      if |id| == 64 && view.Some? && Codec.ViewReads(view.value) then
        f.ViewFrame? && f.view.id == num(id)
        && forall n :: n in f.view.commits <==> exists b :: Codec.Mentions(view.value, b) && num(b) == n
      else f.Malformed?
    case RawOp(id, op) =>
      if |id| == 64 && op.Some? && Codec.OperationReads(op.value) then
        f.OpFrame? && f.op.id == num(id) && f.op.op.view == num(op.value.viewId)
        && |f.op.op.parents| == |op.value.parents|
        && (forall i :: 0 <= i < |op.value.parents| ==> f.op.op.parents[i] == num(op.value.parents[i]))
        && forall n :: n in f.op.op.commits <==>
                       exists b, p :: p in op.value.predecessors && b != []
                                      && (b == p.commitId || b in p.predecessorIds) && num(b) == n
      else f.Malformed?
  }

  lemma ViewTaken(num: Numbering, id: Codec.Bytes, view: Option<Codec.View>)
    ensures Takes(num, RawView(id, view), Decoded(num, RawView(id, view)))
  {
    hide Codec.ViewReads, Codec.ViewIds, Codec.Mentions;
    if view.Some? {
      forall b ensures b in Codec.ViewIds(view.value) <==> Codec.Mentions(view.value, b) {
        Codec.ViewIdsExact(view.value, b);
      }
    }
  }

  lemma OperationTaken(num: Numbering, id: Codec.Bytes, op: Option<Codec.Operation>)
    ensures Takes(num, RawOp(id, op), Decoded(num, RawOp(id, op)))
  {
    hide Codec.OperationReads, Codec.Union, Codec.PredecessorIds;
    if op.Some? {
      forall b
        ensures b in Codec.Union(op.value.predecessors, Codec.PredecessorIds) <==>
                b != [] && exists p :: p in op.value.predecessors && (b == p.commitId || b in p.predecessorIds)
      {
        Codec.PredecessorIdsExact(op.value.predecessors, b);
      }
    }
  }

  method Decode(num: Numbering, raw: RawFrame) returns (f: Frame)
    ensures f == Decoded(num, raw) && Takes(num, raw, f)
  {
    hide Codec.ViewReads, Codec.OperationReads, Codec.ViewIds, Codec.Union, Codec.PredecessorIds;
    match raw {
      case RawBegin => f := Begin;
      case RawView(id, view) =>
        ViewTaken(num, id, view);
        f := Malformed;
        if |id| == Codec.STORE_ID_LEN && view.Some? {
          var meta := Codec.ParseView(view.value);
          if meta.Some? {
            f := ViewFrame(StoredView(num(id), Numbers(num, meta.value.referenced)));
          }
        }
      case RawOp(id, op) =>
        OperationTaken(num, id, op);
        f := Malformed;
        if |id| == Codec.STORE_ID_LEN && op.Some? {
          var meta := Codec.ParseOperation(op.value);
          if meta.Some? {
            f := OpFrame(StoredOp(num(id), Op(NumberAll(num, meta.value.parents), num(meta.value.viewId),
                                              Numbers(num, meta.value.referenced))));
          }
        }
      case RawDone => f := Done;
      case RawError => f := Error;
    }
  }

  ghost predicate DecodedAll(num: Numbering, raws: seq<RawFrame>, frames: seq<Frame>) {
    |frames| == |raws| && forall i :: 0 <= i < |raws| ==> frames[i] == Decoded(num, raws[i])
  }

  lemma {:induction false} StoredFromFrames(frames: seq<Frame>)
    ensures forall v :: v in ViewsOf(frames) ==> ViewFrame(v) in frames
    ensures forall o :: o in OpsOf(frames) ==> OpFrame(o) in frames
    decreases |frames|
  {
    if frames != [] {
      StoredFromFrames(frames[..|frames| - 1]);
    }
  }

  /** No encoding is forgotten. Once the commits of an accepted batch arrived, every
      id in every view of it — heads, working copies, each side of each conflict, in
      the native forms and the legacy ones — names a stored commit. */
  lemma EveryIdArrived(num: Numbering, raws: seq<RawFrame>, frames: seq<Frame>, r: Repo, wants: seq<OpId>, k: nat,
                       v: StoredView)
    requires DecodedAll(num, raws, frames) && Accepted(r.ops, r.views, wants, frames, k)
    requires Refs(r.git, Referenced(BatchAt(frames, k))) && v in BatchAt(frames, k).views
    ensures exists i :: 0 <= i < k && raws[i].RawView? && raws[i].view.Some? && Codec.ViewReads(raws[i].view.value)
                        && v.id == num(raws[i].id)
                        && forall b :: Codec.Mentions(raws[i].view.value, b) ==>
                                       num(b) in r.git + {ServeGit.VIRTUAL_ROOT}
  {
    hide Codec.ViewReads, Codec.OperationReads, Codec.ViewIds, Codec.Union, Codec.Mentions, FrameOk, AllReachable,
      ViewsOf, OpsOf;
    StoredFromFrames(frames[..k]);
    var i :| 0 <= i < k && frames[..k][i] == ViewFrame(v);
    assert Decoded(num, raws[i]) == ViewFrame(v);
    forall b | Codec.Mentions(raws[i].view.value, b) ensures num(b) in r.git + {ServeGit.VIRTUAL_ROOT} {
      Codec.ViewIdsExact(raws[i].view.value, b);
      assert num(b) in v.commits;
      assert num(b) in Referenced(BatchAt(frames, k));
    }
  }

  /** And every commit its operations' predecessor records name. */
  lemma EveryPredecessorArrived(num: Numbering, raws: seq<RawFrame>, frames: seq<Frame>, r: Repo, wants: seq<OpId>,
                                k: nat, i: nat, p: Codec.Predecessors, b: Codec.Bytes)
    requires DecodedAll(num, raws, frames) && Accepted(r.ops, r.views, wants, frames, k)
    requires Refs(r.git, Referenced(BatchAt(frames, k)))
    requires i < k && raws[i].RawOp? && raws[i].op.Some?
    requires p in raws[i].op.value.predecessors && b != [] && (b == p.commitId || b in p.predecessorIds)
    ensures num(b) in r.git + {ServeGit.VIRTUAL_ROOT}
  {
    hide Codec.ViewReads, Codec.OperationReads, Codec.ViewIds, Codec.Union, Codec.PredecessorIds, AllReachable, OpOk,
      ViewsOf, OpsOf;
    Codec.PredecessorIdsExact(raws[i].op.value.predecessors, b);
    assert FrameOk(r.ops, r.views, frames, i);
    assert frames[i] == Decoded(num, raws[i]);
    OpTaken(frames, i, k);
    assert num(b) in frames[i].op.op.commits;
    assert num(b) in Referenced(BatchAt(frames, k));
  }

  lemma {:induction false} OpTaken(frames: seq<Frame>, i: nat, k: nat)
    requires i < k <= |frames| && frames[i].OpFrame?
    ensures frames[i].op in OpsOf(frames[..k])
    decreases k
  {
    hide OpsOf;
    FrameStep(frames, k - 1);
    if i < k - 1 {
      OpTaken(frames, i, k - 1);
    }
  }
}
