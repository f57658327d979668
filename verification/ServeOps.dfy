/** Serving the op phase, and why an honest peer is never refused. */
module ServeOps {
  import opened Collections
  import Dag
  import opened OpLog

  /** The haves a server knows: the others are ignored. */
  ghost function Known(ops: Ops, haves: seq<OpId>): set<OpId> {
    set h | h in haves && HasOp(ops, h)
  }

  ghost predicate Delta(ops: Ops, wants: seq<OpId>, haves: seq<OpId>, x: OpId) {
    && x != ROOT_OP
    && Dag.AncestorOfAny(GraphOf(ops), x, Elems(wants))
    && !Dag.AncestorOfAny(GraphOf(ops), x, Known(ops, haves))
  }

  /** What jj's op walk answers: the ancestors of the wants that are not ancestors
      of a known have, parents first, the root aside. */
  ghost predicate IsOpRange(ops: Ops, wants: seq<OpId>, haves: seq<OpId>, range: seq<OpId>) {
    && NoDup(range)
    && (forall x :: x in range <==> Delta(ops, wants, haves, x))
    && (forall i, p :: 0 <= i < |range| && p in Dag.Parents(GraphOf(ops), range[i]) && p in range ==> p in range[..i])
  }

  /** An op log as jj keeps it. */
  ghost predicate WellFormed(ops: Ops, views: Views) {
    && ROOT_OP !in ops && ROOT_VIEW !in views
    && Dag.ParentClosed(GraphOf(ops))
    && (forall x :: x in ops ==> ops[x].parents != [] && HasView(views, ops[x].view))
  }

  function ViewContent(views: Views, id: ViewId): set<CommitId> {
    if id in views then views[id] else {}
  }

  /** The views of a list of ops. */
  ghost function ViewsUsed(ops: Ops, range: seq<OpId>): set<ViewId> {
    set x | x in range && x in ops :: ops[x].view
  }

  /** The data frames: each view before the first op using it. */
  ghost function Data(ops: Ops, views: Views, range: seq<OpId>): seq<Frame>
    requires forall x :: x in range ==> x in ops
  {
    if range == [] then []
    else
      var init, id := range[..|range| - 1], range[|range| - 1];
      Data(ops, views, init)
      + (if ops[id].view in ViewsUsed(ops, init) then []
         else [ViewFrame(StoredView(ops[id].view, ViewContent(views, ops[id].view)))])
      + [OpFrame(StoredOp(id, ops[id]))]
  }

  /** The server can read the view of every op it is to send: the root's is
      synthesized, so no op of the range may name it. */
  ghost predicate Viewed(ops: Ops, views: Views, range: seq<OpId>) {
    forall x :: x in range && x in ops ==> ops[x].view in views
  }

  lemma ServeNone(ops: Ops, views: Views, range: seq<OpId>)
    ensures Data(ops, views, range[..0]) == [] && ViewsUsed(ops, range[..0]) == {} && range[..|range|] == range
  {
    assert range[..0] == [];
  }

  lemma ServeOne(ops: Ops, views: Views, range: seq<OpId>, i: nat)
    requires i < |range| && forall x :: x in range ==> x in ops
    ensures range[i] in range && forall x :: x in range[..i] || x in range[..i + 1] ==> x in ops
    ensures var op := ops[range[i]];
            Data(ops, views, range[..i + 1])
            == Data(ops, views, range[..i])
               + (if op.view in ViewsUsed(ops, range[..i]) then []
                  else [ViewFrame(StoredView(op.view, ViewContent(views, op.view)))])
               + [OpFrame(StoredOp(range[i], op))]
    ensures ViewsUsed(ops, range[..i + 1]) == ViewsUsed(ops, range[..i]) + {ops[range[i]].view}
  {
    assert range[..i + 1] == range[..i] + [range[i]] && range[..i + 1][..i] == range[..i];
  }

  lemma AllViewed(ops: Ops, views: Views, range: seq<OpId>)
    requires ViewsUsed(ops, range) <= views.Keys
    ensures Viewed(ops, views, range)
  {
  }

  lemma NotViewed(ops: Ops, views: Views, range: seq<OpId>, x: OpId)
    requires x in range && x in ops && ops[x].view !in views
    ensures !Viewed(ops, views, range)
  {
  }

  method Serve(ops: Ops, views: Views, wants: seq<OpId>, range: seq<OpId>) returns (frames: seq<Frame>)
    requires forall x :: x in range ==> x in ops
    ensures (exists w :: w in wants && !HasOp(ops, w)) ==> frames == [Error]
    ensures (forall w :: w in wants ==> HasOp(ops, w)) && Viewed(ops, views, range) ==>
              frames == [Begin] + Data(ops, views, range) + [Done]
    ensures (forall w :: w in wants ==> HasOp(ops, w)) && !Viewed(ops, views, range) ==>
              exists i :: 0 <= i < |range| && Viewed(ops, views, range[..i]) && ops[range[i]].view !in views
                          && frames == [Begin] + Data(ops, views, range[..i]) + [Error]
  {
    hide Data, ViewsUsed, Viewed, HasOp;
    if exists w :: w in wants && !HasOp(ops, w) {
      return [Error];
    }
    frames := [Begin];
    var sent: set<ViewId> := {};
    ServeNone(ops, views, range);
    for i := 0 to |range|
      invariant frames == [Begin] + Data(ops, views, range[..i])
      invariant sent == ViewsUsed(ops, range[..i]) && sent <= views.Keys
    {
      var id := range[i];
      var op := ops[id];
      ServeOne(ops, views, range, i);
      if op.view !in sent {
        if op.view !in views {
          NotViewed(ops, views, range, id);
          AllViewed(ops, views, range[..i]);
          frames := frames + [Error];
          return;
        }
        sent := sent + {op.view};
        frames := frames + [ViewFrame(StoredView(op.view, ViewContent(views, op.view)))];
      }
      frames := frames + [OpFrame(StoredOp(id, op))];
    }
    AllViewed(ops, views, range);
    frames := frames + [Done];
  }

  /** A fetcher's ops are closed under the parents a server knows. */
  lemma FetcherClosed(server: Ops, fetcher: Ops, fviews: Views)
    requires ROOT_OP !in server && WellFormed(fetcher, fviews) && Agree(server, fetcher)
    ensures Dag.Closed(GraphOf(server), fetcher.Keys + {ROOT_OP})
  {
    forall x, p | x in fetcher.Keys + {ROOT_OP} && p in Dag.Parents(GraphOf(server), x)
      ensures p in fetcher.Keys + {ROOT_OP}
    {
      assert x in server && x in fetcher && server[x] == fetcher[x];
      var g := GraphOf(fetcher);
      assert x in g && p in g[x];
      assert p in g || p == ROOT_OP;
    }
  }

  /** Every ancestor of the wants is sent or already held. */
  lemma SentOrHeld(server: Ops, sviews: Views, fetcher: Ops, fviews: Views, wants: seq<OpId>, haves: seq<OpId>,
                   range: seq<OpId>, x: OpId)
    requires WellFormed(server, sviews) && WellFormed(fetcher, fviews) && Agree(server, fetcher)
    requires IsOpRange(server, wants, haves, range)
    requires forall h :: h in haves ==> HasOp(fetcher, h)
    requires Dag.AncestorOfAny(GraphOf(server), x, Elems(wants))
    ensures x in range || HasOp(fetcher, x)
  {
    if x !in range && x != ROOT_OP {
      assert !Delta(server, wants, haves, x);
      var h :| h in Known(server, haves) && Dag.Ancestor(GraphOf(server), x, h);
      FetcherClosed(server, fetcher, fviews);
      Dag.InClosed(GraphOf(server), x, h, fetcher.Keys + {ROOT_OP});
    }
  }

  ghost predicate AllFramesOk(ops: Ops, views: Views, frames: seq<Frame>) {
    forall j :: 0 <= j < |frames| ==> FrameOk(ops, views, frames, j)
  }

  lemma AppendFrame(ops: Ops, views: Views, frames: seq<Frame>, f: Frame)
    requires AllFramesOk(ops, views, frames)
    requires f.ViewFrame? || (f.OpFrame? && OpOk(ops, views, OpIds(OpsOf(frames)), ViewIds(ViewsOf(frames)), f.op))
    ensures AllFramesOk(ops, views, frames + [f])
    ensures OpsOf(frames + [f]) == OpsOf(frames) + if f.OpFrame? then [f.op] else []
    ensures OpIds(OpsOf(frames + [f])) == OpIds(OpsOf(frames)) + if f.OpFrame? then {f.op.id} else {}
    ensures ViewIds(ViewsOf(frames + [f])) == ViewIds(ViewsOf(frames)) + if f.ViewFrame? then {f.view.id} else {}
    ensures forall v :: v in ViewsOf(frames + [f]) ==> v in ViewsOf(frames) || (f.ViewFrame? && v == f.view)
  {
    hide OpOk, OpsOf, ViewsOf;
    var frames' := frames + [f];
    FrameStep(frames', |frames|);
    assert frames'[..|frames|] == frames && frames'[..|frames| + 1] == frames';
    forall j | 0 <= j < |frames'| ensures FrameOk(ops, views, frames', j) {
      if j < |frames| {
        assert FrameOk(ops, views, frames, j);
        assert frames'[..j] == frames[..j];
      }
    }
  }

  /** What the frames served for a range amount to, at a fetcher. */
  ghost predicate Delivered(server: Ops, sviews: Views, fetcher: Ops, fviews: Views, range: seq<OpId>,
                            frames: seq<Frame>)
  {
    && AllFramesOk(fetcher, fviews, frames)
    && OpIds(OpsOf(frames)) == Elems(range)
    && (forall o :: o in OpsOf(frames) ==> o.id in server && o.op == server[o.id])
    && ViewsUsed(server, range) <= ViewIds(ViewsOf(frames))
    && (forall v :: v in ViewsOf(frames) ==> v.id in ViewsUsed(server, range) && v.commits == ViewContent(sviews, v.id))
  }

  lemma UsedAppend(ops: Ops, init: seq<OpId>, id: OpId)
    requires id in ops
    ensures ViewsUsed(ops, init + [id]) == ViewsUsed(ops, init) + {ops[id].view}
    ensures Elems(init + [id]) == Elems(init) + {id}
  {
    assert forall x :: x in init + [id] <==> x in init || x == id;
  }

  /** One more op of the range, after its view. */
  lemma DeliverOne(server: Ops, sviews: Views, fetcher: Ops, fviews: Views, init: seq<OpId>, id: OpId,
                   frames: seq<Frame>)
    requires Delivered(server, sviews, fetcher, fviews, init, frames)
    requires id in server && id != ROOT_OP && id !in init && server[id].parents != []
    requires forall p :: p in server[id].parents ==> p in init || HasOp(fetcher, p)
    requires forall x :: x in init ==> x in server
    ensures Data(server, sviews, init + [id])
         == Data(server, sviews, init)
            + (if server[id].view in ViewsUsed(server, init) then []
               else [ViewFrame(StoredView(server[id].view, ViewContent(sviews, server[id].view)))])
            + [OpFrame(StoredOp(id, server[id]))]
    ensures Delivered(server, sviews, fetcher, fviews, init + [id],
                      frames + (if server[id].view in ViewsUsed(server, init) then []
                                else [ViewFrame(StoredView(server[id].view, ViewContent(sviews, server[id].view)))])
                             + [OpFrame(StoredOp(id, server[id]))])
  {
    hide AllFramesOk, OpsOf, ViewsOf;
    assert (init + [id])[..|init|] == init;
    UsedAppend(server, init, id);
    var view := ViewFrame(StoredView(server[id].view, ViewContent(sviews, server[id].view)));
    var op := OpFrame(StoredOp(id, server[id]));
    var viewed := frames + if server[id].view in ViewsUsed(server, init) then [] else [view];
    if server[id].view in ViewsUsed(server, init) {
      assert viewed == frames;
    } else {
      AppendFrame(fetcher, fviews, frames, view);
    }
    AppendFrame(fetcher, fviews, viewed, op);
    assert forall o :: o in OpsOf(viewed) + [op.op] <==> o in OpsOf(viewed) || o == op.op;
  }

  /** Parents come first, on the wire or in the fetcher's store. */
  lemma ParentsFirst(server: Ops, sviews: Views, fetcher: Ops, fviews: Views, wants: seq<OpId>, haves: seq<OpId>,
                     range: seq<OpId>, i: nat)
    requires WellFormed(server, sviews) && WellFormed(fetcher, fviews) && Agree(server, fetcher)
    requires IsOpRange(server, wants, haves, range)
    requires forall h :: h in haves ==> HasOp(fetcher, h)
    requires i < |range| && range[i] in server
    ensures range[i] != ROOT_OP && range[i] !in range[..i] && server[range[i]].parents != []
    ensures forall p :: p in server[range[i]].parents ==> p in range[..i] || HasOp(fetcher, p)
  {
    var id := range[i];
    assert id in range;
    assert Delta(server, wants, haves, id);
    ParentsReached(GraphOf(server), id, Elems(wants));
    forall p | p in server[id].parents ensures p in range[..i] || HasOp(fetcher, p) {
      assert p in Dag.Parents(GraphOf(server), id);
      SentOrHeld(server, sviews, fetcher, fviews, wants, haves, range, p);
    }
  }

  lemma NothingDelivered(server: Ops, sviews: Views, fetcher: Ops, fviews: Views)
    ensures Delivered(server, sviews, fetcher, fviews, [], [Begin] + Data(server, sviews, []))
  {
    assert [Begin] + Data(server, sviews, []) == [Begin];
    assert OpsOf([Begin]) == [] && ViewsOf([Begin]) == [] by {
      assert [Begin][..0] == [];
    }
  }

  lemma DataOneMore(server: Ops, sviews: Views, init: seq<OpId>, id: OpId)
    requires id in server && forall x :: x in init ==> x in server
    ensures [Begin] + Data(server, sviews, init + [id])
         == [Begin] + Data(server, sviews, init)
            + (if server[id].view in ViewsUsed(server, init) then []
               else [ViewFrame(StoredView(server[id].view, ViewContent(sviews, server[id].view)))])
            + [OpFrame(StoredOp(id, server[id]))]
    ensures Data(server, sviews, init + [id])
         == Data(server, sviews, init)
            + (if server[id].view in ViewsUsed(server, init) then []
               else [ViewFrame(StoredView(server[id].view, ViewContent(sviews, server[id].view)))])
            + [OpFrame(StoredOp(id, server[id]))]
  {
    hide ViewsUsed;
    assert (init + [id])[..|init|] == init;
    var view := if server[id].view in ViewsUsed(server, init) then []
                else [ViewFrame(StoredView(server[id].view, ViewContent(sviews, server[id].view)))];
    Associate(Data(server, sviews, init), view, [OpFrame(StoredOp(id, server[id]))]);
  }

  /** The data frames of an honest server pass every check on arrival. */
  lemma {:induction false} DataAccepted(server: Ops, sviews: Views, fetcher: Ops, fviews: Views, wants: seq<OpId>,
                                        haves: seq<OpId>, range: seq<OpId>, i: nat)
    requires WellFormed(server, sviews) && WellFormed(fetcher, fviews) && Agree(server, fetcher)
    requires IsOpRange(server, wants, haves, range) && forall x :: x in range ==> x in server
    requires forall h :: h in haves ==> HasOp(fetcher, h)
    requires i <= |range|
    ensures Delivered(server, sviews, fetcher, fviews, range[..i], [Begin] + Data(server, sviews, range[..i]))
    decreases i
  {
    hide Delivered, WellFormed, IsOpRange, Agree, ViewsUsed, Data;
    if i == 0 {
      assert range[..0] == [];
      NothingDelivered(server, sviews, fetcher, fviews);
    } else {
      DataAccepted(server, sviews, fetcher, fviews, wants, haves, range, i - 1);
      var init, id := range[..i - 1], range[i - 1];
      assert range[..i] == init + [id] && id in range;
      forall x | x in init ensures x in server {
        assert x in range;
      }
      ParentsFirst(server, sviews, fetcher, fviews, wants, haves, range, i - 1);
      DataOneMore(server, sviews, init, id);
      DeliverOne(server, sviews, fetcher, fviews, init, id, [Begin] + Data(server, sviews, init));
    }
  }

  lemma Associate(data: seq<Frame>, view: seq<Frame>, op: seq<Frame>)
    ensures [Begin] + (data + view + op) == [Begin] + data + view + op
  {
  }

  /** What the batch reaches, with what the fetcher holds, is closed. */
  lemma BatchAndHeldClosed(server: Ops, wants: seq<OpId>, haves: seq<OpId>, range: seq<OpId>, ops: seq<StoredOp>)
    returns (c: set<OpId>)
    requires IsOpRange(server, wants, haves, range) && ROOT_OP !in server
    requires DistinctIds(ops) && OpIds(ops) == Elems(range)
    requires forall o :: o in ops ==> o.id in server && o.op == server[o.id]
    ensures Dag.Closed(GraphOf(server), c) && Elems(wants) <= c
    ensures forall x :: x in c ==> x == ROOT_OP || Dag.AncestorOfAny(BatchGraph(ops), x, WantedHere(wants, ops))
                                   || Dag.AncestorOfAny(GraphOf(server), x, Known(server, haves))
  {
    hide Dag.AncestorOfAny, IsOpRange, BatchGraph, WantedHere, Known, Dag.Ancestors, GraphOf;
    var g, here := BatchGraph(ops), WantedHere(wants, ops);
    var s, known := GraphOf(server), Known(server, haves);
    Dag.AncestorsExact(g, here);
    Dag.AncestorsExact(s, known);
    c := Dag.Ancestors(g, here) + Dag.Ancestors(s, known) + {ROOT_OP};
    forall x, p | x in c && p in Dag.Parents(s, x) ensures p in c {
      if x !in Dag.Ancestors(s, known) {
        RootHasNoParents(server, x, p);
        StaysInside(server, wants, haves, range, ops, x, p);
      }
    }
    forall w | w in Elems(wants) ensures w in c {
      WantInside(server, wants, haves, range, ops, w);
    }
  }

  lemma RootHasNoParents(server: Ops, x: OpId, p: OpId)
    requires ROOT_OP !in server && p in Dag.Parents(GraphOf(server), x)
    ensures x != ROOT_OP
  {
  }

  /** Inside the batch, every op is reached from a want. */
  lemma RangeReachable(server: Ops, wants: seq<OpId>, haves: seq<OpId>, range: seq<OpId>, ops: seq<StoredOp>)
    requires IsOpRange(server, wants, haves, range) && ROOT_OP !in server
    requires DistinctIds(ops) && OpIds(ops) == Elems(range)
    requires forall o :: o in ops ==> o.id in server && o.op == server[o.id]
    ensures AllReachable(wants, ops)
  {
    hide Dag.Closed, BatchGraph, WantedHere, Known, GraphOf, Dag.Ancestor;
    var c := BatchAndHeldClosed(server, wants, haves, range, ops);
    forall o | o in ops ensures Dag.AncestorOfAny(BatchGraph(ops), o.id, WantedHere(wants, ops)) {
      assert o.id in Elems(range) && Delta(server, wants, haves, o.id);
      var w :| w in Elems(wants) && Dag.Ancestor(GraphOf(server), o.id, w);
      Dag.InClosed(GraphOf(server), o.id, w, c);
    }
  }

  lemma WantInside(server: Ops, wants: seq<OpId>, haves: seq<OpId>, range: seq<OpId>, ops: seq<StoredOp>, w: OpId)
    requires IsOpRange(server, wants, haves, range) && OpIds(ops) == Elems(range)
    requires w in wants
    ensures w == ROOT_OP || Dag.AncestorOfAny(BatchGraph(ops), w, WantedHere(wants, ops))
         || Dag.AncestorOfAny(GraphOf(server), w, Known(server, haves))
  {
    assert Dag.Ancestor(GraphOf(server), w, w) && w in Elems(wants);
    if w !in range {
      assert !Delta(server, wants, haves, w);
    } else {
      assert w in WantedHere(wants, ops) && Dag.Ancestor(BatchGraph(ops), w, w);
    }
  }

  lemma StaysInside(server: Ops, wants: seq<OpId>, haves: seq<OpId>, range: seq<OpId>, ops: seq<StoredOp>,
                    x: OpId, p: OpId)
    requires IsOpRange(server, wants, haves, range) && ROOT_OP !in server
    requires DistinctIds(ops) && OpIds(ops) == Elems(range)
    requires forall o :: o in ops ==> o.id in server && o.op == server[o.id]
    requires Dag.AncestorOfAny(BatchGraph(ops), x, WantedHere(wants, ops))
    requires p in Dag.Parents(GraphOf(server), x)
    ensures p == ROOT_OP || Dag.AncestorOfAny(BatchGraph(ops), p, WantedHere(wants, ops))
         || Dag.AncestorOfAny(GraphOf(server), p, Known(server, haves))
  {
    ReachedAreBatch(wants, ops, x);
    var o :| o in ops && o.id == x;
    assert Delta(server, wants, haves, x);
    ParentsReached(GraphOf(server), x, Elems(wants));
    if p in range {
      assert p in OpIds(ops) && p in Dag.Parents(BatchGraph(ops), x);
      ParentsReached(BatchGraph(ops), x, WantedHere(wants, ops));
    } else {
      assert !Delta(server, wants, haves, p);
    }
  }

  /** What is reached inside the batch is in the batch. */
  lemma ReachedAreBatch(wants: seq<OpId>, ops: seq<StoredOp>, x: OpId)
    requires Dag.AncestorOfAny(BatchGraph(ops), x, WantedHere(wants, ops))
    ensures x in OpIds(ops)
  {
    var g := BatchGraph(ops);
    var w :| w in WantedHere(wants, ops) && Dag.Ancestor(g, x, w);
    assert Dag.Closed(g, OpIds(ops));
    Dag.InClosed(g, x, w, OpIds(ops));
  }

  lemma HonestAccepted(server: Ops, sviews: Views, fetcher: Ops, fviews: Views, wants: seq<OpId>, haves: seq<OpId>,
                       range: seq<OpId>, frames: seq<Frame>)
    requires WellFormed(server, sviews) && WellFormed(fetcher, fviews) && Agree(server, fetcher)
    requires IsOpRange(server, wants, haves, range) && forall x :: x in range ==> x in server
    requires forall h :: h in haves ==> HasOp(fetcher, h)
    requires forall w :: w in wants ==> HasOp(server, w)
    requires frames == [Begin] + Data(server, sviews, range) + [Done] && |frames| <= MAX_OP_FRAMES
    ensures Accepted(fetcher, fviews, wants, frames, |frames| - 1)
    ensures OpIds(OpsOf(frames[..|frames| - 1])) == Elems(range)
    ensures forall o :: o in OpsOf(frames[..|frames| - 1]) ==> o.id in server && o.op == server[o.id]
    ensures forall v :: v in ViewsOf(frames[..|frames| - 1]) ==>
              v.id in ViewsUsed(server, range) && v.commits == ViewContent(sviews, v.id)
  {
    hide WellFormed, IsOpRange, AllReachable, Agree, FrameOk, OpsOf, ViewsOf, Data, ViewsUsed;
    var data := frames[..|frames| - 1];
    assert range[..|range|] == range && data == [Begin] + Data(server, sviews, range);
    DataAccepted(server, sviews, fetcher, fviews, wants, haves, range, |range|);
    forall j | 0 <= j < |frames| - 1 ensures FrameOk(fetcher, fviews, frames, j) {
      assert FrameOk(fetcher, fviews, data, j);
      SameFrame(fetcher, fviews, data, frames, j);
    }
    AcceptedOpsDistinct(fetcher, fviews, frames, |frames| - 1);
    RootNotStored(server, sviews);
    RangeReachable(server, wants, haves, range, OpsOf(data));
    forall w | w in wants ensures w in OpIds(OpsOf(data)) || HasOp(fetcher, w) {
      WantSentOrHeld(server, sviews, fetcher, fviews, wants, haves, range, w);
    }
  }

  lemma SameFrame(ops: Ops, views: Views, data: seq<Frame>, frames: seq<Frame>, j: nat)
    requires j < |data| && data <= frames && FrameOk(ops, views, data, j)
    ensures FrameOk(ops, views, frames, j)
  {
    assert data[..j] == frames[..j];
  }

  lemma RootNotStored(ops: Ops, views: Views)
    requires WellFormed(ops, views)
    ensures ROOT_OP !in ops
  {
  }

  lemma WantSentOrHeld(server: Ops, sviews: Views, fetcher: Ops, fviews: Views, wants: seq<OpId>, haves: seq<OpId>,
                       range: seq<OpId>, w: OpId)
    requires WellFormed(server, sviews) && WellFormed(fetcher, fviews) && Agree(server, fetcher)
    requires IsOpRange(server, wants, haves, range)
    requires forall h :: h in haves ==> HasOp(fetcher, h)
    requires w in wants
    ensures w in range || HasOp(fetcher, w)
  {
    assert Dag.Ancestor(GraphOf(server), w, w) && w in Elems(wants);
    SentOrHeld(server, sviews, fetcher, fviews, wants, haves, range, w);
  }

  /** A stream the server breaks off is refused. */
  lemma BrokenOff(server: Ops, sviews: Views, fetcher: Ops, fviews: Views, wants: seq<OpId>, haves: seq<OpId>,
                  range: seq<OpId>, i: nat, frames: seq<Frame>)
    requires WellFormed(server, sviews) && WellFormed(fetcher, fviews) && Agree(server, fetcher)
    requires IsOpRange(server, wants, haves, range) && forall x :: x in range ==> x in server
    requires forall h :: h in haves ==> HasOp(fetcher, h)
    requires i < |range| && (forall x :: x in range[..i] ==> x in server)
    requires frames == [Begin] + Data(server, sviews, range[..i]) + [Error]
    ensures forall k: nat :: !Accepted(fetcher, fviews, wants, frames, k)
  {
    hide WellFormed, IsOpRange, AllReachable, Agree, OpsOf, ViewsOf, Data, ViewsUsed;
    var data := [Begin] + Data(server, sviews, range[..i]);
    DataAccepted(server, sviews, fetcher, fviews, wants, haves, range, i);
    forall j | 0 <= j < |data| ensures FrameOk(fetcher, fviews, frames, j) {
      assert FrameOk(fetcher, fviews, data, j);
      SameFrame(fetcher, fviews, data, frames, j);
    }
    Refused(fetcher, fviews, wants, frames, |data|);
  }

  /** The op phase between honest peers: served, received, never refused while no op
      of the range names the root's view, and the wants' whole ancestry is then at
      hand, with its views as the server has them. */
  method HonestExchange(server: Ops, sviews: Views, fetcher: Ops, fviews: Views, wants: seq<OpId>,
                        ghost haves: seq<OpId>, range: seq<OpId>)
    returns (batch: Option<Batch>, ghost frames: seq<Frame>)
    requires WellFormed(server, sviews) && WellFormed(fetcher, fviews) && Agree(server, fetcher)
    requires IsOpRange(server, wants, haves, range) && forall x :: x in range ==> x in server
    requires forall h :: h in haves ==> HasOp(fetcher, h)
    requires forall w :: w in wants ==> HasOp(server, w)
    requires |Data(server, sviews, range)| + 2 <= MAX_OP_FRAMES
    ensures batch.Some? <==> Viewed(server, sviews, range)
    ensures batch.Some? ==> exists k: nat :: Accepted(fetcher, fviews, wants, frames, k)
                                             && batch.value == BatchAt(frames, k)
    ensures batch.Some? ==> OpIds(batch.value.ops) == Elems(range)
    ensures batch.Some? ==> forall o :: o in batch.value.ops ==> o.id in server && o.op == server[o.id]
    ensures batch.Some? ==> forall v :: v in batch.value.views ==> v.id in sviews && v.commits == sviews[v.id]
    ensures batch.Some? ==> forall x :: Dag.AncestorOfAny(GraphOf(server), x, Elems(wants)) ==>
                                        x in OpIds(batch.value.ops) || HasOp(fetcher, x)
  {
    hide WellFormed, IsOpRange, Agree, Dag.AncestorOfAny, FrameOk, OpsOf, ViewsOf, Data, AllReachable;
    var sent := Serve(server, sviews, wants, range);
    frames := sent;
    batch := ReceiveOps(fetcher, fviews, wants, sent);
    if Viewed(server, sviews, range) {
      HonestAccepted(server, sviews, fetcher, fviews, wants, haves, range, frames);
      OnlyOneDone(fetcher, fviews, wants, frames, |frames| - 1);
      forall x | Dag.AncestorOfAny(GraphOf(server), x, Elems(wants))
        ensures x in OpIds(batch.value.ops) || HasOp(fetcher, x)
      {
        SentOrHeld(server, sviews, fetcher, fviews, wants, haves, range, x);
      }
    } else {
      ghost var i :| 0 <= i < |range| && frames == [Begin] + Data(server, sviews, range[..i]) + [Error];
      BrokenOff(server, sviews, fetcher, fviews, wants, haves, range, i, frames);
    }
  }

  lemma BeforeDone(ops: Ops, views: Views, wants: seq<OpId>, frames: seq<Frame>, k: nat, j: nat)
    requires Accepted(ops, views, wants, frames, k) && j < k
    ensures !frames[j].Done?
  {
    assert FrameOk(ops, views, frames, j);
  }

  lemma OnlyOneDone(ops: Ops, views: Views, wants: seq<OpId>, frames: seq<Frame>, k: nat)
    requires Accepted(ops, views, wants, frames, k)
    ensures forall j: nat :: Accepted(ops, views, wants, frames, j) ==> j == k
  {
    forall j: nat | Accepted(ops, views, wants, frames, j) ensures j == k {
      if j < k {
        BeforeDone(ops, views, wants, frames, k, j);
      } else if k < j {
        BeforeDone(ops, views, wants, frames, j, k);
      }
    }
  }

  /** An op naming the synthesized root view is accepted and well formed, but cannot
      be served. */
  lemma RootViewUnserved() returns (ops: Ops, frames: seq<Frame>)
    ensures Accepted(map[], map[], [1], frames, 1) && 1 in ops && frames[0] == OpFrame(StoredOp(1, ops[1]))
    ensures WellFormed(ops, map[]) && !Viewed(ops, map[], [1])
  {
    var op := Op([ROOT_OP], ROOT_VIEW, {});
    var o := StoredOp(1, op);
    ops, frames := map[1 := op], [OpFrame(o), Done];
    FrameStep(frames, 0);
    NoFrames(frames);
    assert OpsOf(frames[..1]) == [o];
    assert OpIds([o]) == {1};
    assert AllReachable([1], [o]) by {
      assert 1 in WantedHere([1], [o]) && Dag.Ancestor(BatchGraph([o]), 1, 1);
    }
    assert FrameOk(map[], map[], frames, 0);
    assert GraphOf(ops) == map[1 := [ROOT_OP]];
    assert 1 in [1];
  }
}
