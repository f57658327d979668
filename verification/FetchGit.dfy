/** The fetcher's git phase: what to ask for, and writing what arrives. */
module FetchGit {
  import opened Collections
  import opened GitObjects
  import opened ClosureWalk
  import opened ServeGit

  const GIT_WRITE_CHUNK := 256
  const GIT_WRITE_BYTES := 0x200_0000
  const MAX_GIT_HAVES := 4096

  /** An object frame: the id the peer claims, the id its content hashes to, and
      its compressed size. */
  datatype Frame = Frame(claimed: ObjectId, hashed: ObjectId, size: nat)

  ghost function Claimed(frames: seq<Frame>): seq<ObjectId> {
    seq(|frames|, i requires 0 <= i < |frames| => frames[i].claimed)
  }

  ghost predicate HashesMatch(frames: seq<Frame>) {
    forall f :: f in frames ==> f.claimed == f.hashed
  }

  lemma ClaimedAppend(a: seq<Frame>, b: seq<Frame>)
    ensures Claimed(a + b) == Claimed(a) + Claimed(b)
  {
  }

  /** Receives a loose stream. One chunk is written in the background while the
      next one fills; a stopped fetch leaves the store as it stands. */
  class LooseReceiver {
    var store: set<ObjectId>
    var chunk: seq<Frame>
    var chunkBytes: nat
    var pending: seq<Frame>
    var failed: bool
    ghost var initial: set<ObjectId>
    ghost var received: seq<Frame>
    ghost var written: nat

    ghost predicate Valid()
      reads this
    {
      && written <= |received|
      && (!failed ==> received[written..] == pending + chunk)
      && HashesMatch(received[..written])
      && store == initial + Elems(Claimed(received[..written]))
      && |chunk| < GIT_WRITE_CHUNK && (chunkBytes < GIT_WRITE_BYTES || failed)
    }

    constructor (objects: set<ObjectId>)
      ensures Valid() && !failed && initial == objects && store == objects && received == []
    {
      store, chunk, chunkBytes, pending, failed := objects, [], 0, [], false;
      initial, received, written := objects, [], 0;
      new;
      assert Elems(Claimed([])) == {};
    }

    /** The background writer verifies and stores one object of the pending chunk,
        skipping what is present. */
    method WriteOne()
      requires Valid() && !failed && pending != []
      modifies this
      ensures Valid() && initial == old(initial) && received == old(received)
      ensures chunk == old(chunk) && chunkBytes == old(chunkBytes)
      ensures failed <==> old(pending)[0].claimed != old(pending)[0].hashed
      ensures !failed ==> pending == old(pending)[1..] && store == old(store) + {old(pending)[0].claimed}
      ensures failed ==> store == old(store) && pending == old(pending)
    {
      var frame := pending[0];
      if frame.hashed != frame.claimed {
        failed := true;
        return;
      }
      WrittenNext(received, written, pending + chunk);
      pending := pending[1..];
      written := written + 1;
      if frame.claimed !in store {
        store := store + {frame.claimed};
      }
    }

    /** Awaits the background writer. */
    method Await()
      requires Valid() && !failed
      modifies this
      ensures Valid() && initial == old(initial) && received == old(received)
      ensures chunk == old(chunk) && chunkBytes == old(chunkBytes)
      ensures !failed <==> HashesMatch(old(pending))
      ensures !failed ==> pending == []
    {
      ghost var frames := pending;
      while pending != [] && !failed
        invariant Valid() && initial == old(initial) && received == old(received)
        invariant chunk == old(chunk) && chunkBytes == old(chunkBytes)
        invariant |pending| <= |frames| && pending == frames[|frames| - |pending|..]
        invariant !failed ==> HashesMatch(frames[..|frames| - |pending|])
        invariant failed ==> !HashesMatch(frames)
        decreases |pending|, !failed
      {
        ghost var done := |frames| - |pending|;
        assert frames[..done + 1] == frames[..done] + [pending[0]];
        assert pending[0] == frames[done] && pending[0] in frames;
        WriteOne();
      }
      assert !failed ==> frames[..|frames|] == frames;
    }

    /** One object frame from the stream. */
    method Receive(frame: Frame)
      requires Valid() && !failed
      modifies this
      ensures Valid() && initial == old(initial) && received == old(received) + [frame]
      ensures var full := |old(chunk)| + 1 >= GIT_WRITE_CHUNK || old(chunkBytes) + frame.size >= GIT_WRITE_BYTES;
              && (failed <==> full && !HashesMatch(old(pending)))
              && (!full ==> pending == old(pending) && chunk == old(chunk) + [frame]
                            && chunkBytes == old(chunkBytes) + frame.size)
              && (full && !failed ==> pending == old(chunk) + [frame] && chunk == [] && chunkBytes == 0)
    {
      var next := chunk + [frame];
      if |next| >= GIT_WRITE_CHUNK || chunkBytes + frame.size >= GIT_WRITE_BYTES {
        Await();
        ReceivedOne(received, written, pending + chunk, frame);
        received := received + [frame];
        if failed {
          return;
        }
        pending, chunk, chunkBytes := next, [], 0;
        assert received[written..] == pending + chunk;
      } else {
        ReceivedOne(received, written, pending + chunk, frame);
        received := received + [frame];
        chunk, chunkBytes := next, chunkBytes + frame.size;
        assert received[written..] == pending + chunk;
      }
    }

    /** The end of the stream: everything received is written, or a frame lied. */
    method Done()
      requires Valid() && !failed
      modifies this
      ensures Valid() && initial == old(initial) && received == old(received)
      ensures !failed <==> HashesMatch(old(pending) + old(chunk))
      ensures !failed ==> store == initial + Elems(Claimed(received))
    {
      ghost var p, c := pending, chunk;
      assert HashesMatch(p + c) <==> HashesMatch(p) && HashesMatch(c) by {
        assert forall f :: f in p + c <==> f in p || f in c;
      }
      Await();
      if !failed {
        pending, chunk, chunkBytes := chunk, [], 0;
        Await();
        assert !failed ==> received[..written] == received;
      }
    }
  }

  lemma WrittenNext(received: seq<Frame>, written: nat, rest: seq<Frame>)
    requires written <= |received| && received[written..] == rest && rest != []
    ensures received[written + 1..] == rest[1..]
    ensures received[..written + 1] == received[..written] + [rest[0]]
    ensures Elems(Claimed(received[..written + 1])) == Elems(Claimed(received[..written])) + {rest[0].claimed}
  {
    ClaimedAppend(received[..written], [rest[0]]);
    IdsAppend(Claimed(received[..written]), [rest[0].claimed]);
    assert Claimed([rest[0]]) == [rest[0].claimed];
    assert Elems([rest[0].claimed]) == {rest[0].claimed};
  }

  lemma ReceivedOne(received: seq<Frame>, written: nat, rest: seq<Frame>, frame: Frame)
    requires written <= |received|
    ensures (received + [frame])[..written] == received[..written]
    ensures received[written..] == rest ==> (received + [frame])[written..] == rest + [frame]
  {
  }

  /** Wherever the writer stands, a served stream leaves the store complete. */
  lemma StoreStaysComplete(u: Content, r: LooseReceiver, stream: seq<ObjectId>)
    requires r.Valid() && Claimed(r.received) <= stream
    requires PrefixSafe(u, r.initial, stream)
    ensures Complete(u, r.store)
  {
    assert Claimed(r.received[..r.written]) == stream[..r.written];
  }

  function Held(store: set<ObjectId>, ids: seq<ObjectId>): (r: seq<ObjectId>)
    ensures forall x :: x in r <==> x in ids && x != VIRTUAL_ROOT && x in store
  {
    if ids == [] then []
    else if ids[|ids| - 1] != VIRTUAL_ROOT && ids[|ids| - 1] in store
      then Held(store, ids[..|ids| - 1]) + [ids[|ids| - 1]]
    else Held(store, ids[..|ids| - 1])
  }

  /** What to request: the referenced commits the store lacks, against the view
      heads and the referenced commits it holds. */
  method SplitReferenced(store: set<ObjectId>, viewHeads: seq<ObjectId>, referenced: seq<ObjectId>)
    returns (missing: seq<ObjectId>, haves: seq<ObjectId>)
    ensures forall x :: x in missing <==> x in referenced && x != VIRTUAL_ROOT && x !in store
    ensures haves == Capped([], viewHeads + Held(store, referenced), MAX_GIT_HAVES)
  {
    missing := [];
    var all := viewHeads;
    for i := 0 to |referenced|
      invariant forall x :: x in missing <==> x in referenced[..i] && x != VIRTUAL_ROOT && x !in store
      invariant all == viewHeads + Held(store, referenced[..i])
    {
      var id := referenced[i];
      assert referenced[..i + 1] == referenced[..i] + [id];
      if id == VIRTUAL_ROOT {
        continue;
      }
      if id in store {
        all := all + [id];
      } else {
        missing := missing + [id];
      }
    }
    assert referenced[..|referenced|] == referenced;
    haves := Unique(all);
    UniqueIsCapped([], all);
    if |haves| > MAX_GIT_HAVES {
      haves := haves[..MAX_GIT_HAVES];
    }
  }

  function Unique(all: seq<ObjectId>): seq<ObjectId> {
    UniqueFrom([], all)
  }

  function UniqueFrom(unique: seq<ObjectId>, all: seq<ObjectId>): (r: seq<ObjectId>)
    ensures unique <= r
    decreases |all|
  {
    if all == [] then unique
    else UniqueFrom(if all[0] in unique then unique else unique + [all[0]], all[1..])
  }

  /** Removing duplicates and then cutting is collecting distinct ids up to the cap. */
  lemma {:induction false} UniqueIsCapped(unique: seq<ObjectId>, all: seq<ObjectId>)
    requires NoDup(unique) && |unique| <= MAX_GIT_HAVES
    ensures var r := UniqueFrom(unique, all);
            Capped(unique, all, MAX_GIT_HAVES) == if |r| <= MAX_GIT_HAVES then r else r[..MAX_GIT_HAVES]
    decreases |all|
  {
    if all != [] && |unique| < MAX_GIT_HAVES {
      var unique' := if all[0] in unique then unique else unique + [all[0]];
      assert NoDup(unique');
      UniqueIsCapped(unique', all[1..]);
    }
  }

  /** Whether every requested commit is there after the git phase. */
  method EnsureGitWantsArrived(store: set<ObjectId>, requested: seq<ObjectId>) returns (arrived: bool)
    ensures arrived <==> Elems(requested) <= store
  {
    var absent: seq<ObjectId> := [];
    for i := 0 to |requested|
      invariant absent == [] <==> Elems(requested[..i]) <= store
    {
      IdsAppend(requested[..i], [requested[i]]);
      assert requested[..i + 1] == requested[..i] + [requested[i]];
      assert Elems([requested[i]]) == {requested[i]};
      if requested[i] !in store {
        absent := absent + [requested[i]];
      }
    }
    assert requested[..|requested|] == requested;
    arrived := absent == [];
  }

  /** Feeds what a peer sent to a receiver, up to the end of the stream when it was
      `finished`; the writer runs in the background at its own pace. */
  method ReceiveStream(store: set<ObjectId>, frames: seq<Frame>, finished: bool) returns (r: LooseReceiver, ok: bool)
    ensures fresh(r) && r.Valid() && r.initial == store && r.received <= frames
    ensures ok <==> finished && HashesMatch(frames)
    ensures ok ==> r.store == store + Elems(Claimed(frames))
  {
    r := new LooseReceiver(store);
    for i := 0 to |frames|
      invariant fresh(r) && r.Valid() && !r.failed && r.initial == store
      invariant r.received == frames[..i]
    {
      while r.pending != []
        invariant fresh(r) && r.Valid() && !r.failed && r.initial == store && r.received == frames[..i]
        decreases |r.pending|
      {
        if * {
          break;
        }
        InFlight(r);
        r.WriteOne();
        if r.failed {
          return r, false;
        }
      }
      InFlight(r);
      r.Receive(frames[i]);
      assert frames[..i + 1] == frames[..i] + [frames[i]];
      if r.failed {
        return r, false;
      }
    }
    assert frames[..|frames|] == frames;
    ok := false;
    if finished {
      InFlight(r);
      r.Done();
      ok := !r.failed;
    }
  }

  /** What is still to be written decides whether everything received is truthful. */
  lemma InFlight(r: LooseReceiver)
    requires r.Valid() && !r.failed
    ensures HashesMatch(r.received) <==> HashesMatch(r.pending + r.chunk)
    ensures forall f :: f in r.pending ==> f in r.received
  {
    var received, written := r.received, r.written;
    assert received == received[..written] + received[written..];
    assert forall f :: f in received <==> f in received[..written] || f in received[written..];
    assert forall f :: f in r.pending ==> f in r.pending + r.chunk;
  }

  /** The frames of a served stream, cut after `cut` objects. */
  function Served(stream: seq<ObjectId>, size: ObjectId -> nat, cut: nat): (r: seq<Frame>)
    requires cut <= |stream|
    ensures Claimed(r) == stream[..cut] && HashesMatch(r)
  {
    seq(cut, i requires 0 <= i < cut => Frame(stream[i], stream[i], size(stream[i])))
  }

  lemma ClaimedPrefix(a: seq<Frame>, b: seq<Frame>)
    requires a <= b
    ensures Claimed(a) <= Claimed(b)
  {
    ClaimedAppend(a, b[|a|..]);
    assert a + b[|a|..] == b;
  }

  lemma CoreWithin(u: Content, store: set<ObjectId>)
    ensures Core(u, store) <= store
  {
  }

  lemma MissingIndexed(store: set<ObjectId>, referenced: seq<ObjectId>, index: set<ObjectId>, missing: seq<ObjectId>)
    requires forall x :: x in missing ==> x in referenced && x != VIRTUAL_ROOT && x !in store
    ensures Elems(referenced) <= index + store + {VIRTUAL_ROOT} ==> Elems(missing) <= index
  {
    forall x | x in missing ensures x in Elems(referenced) && x !in store && x != VIRTUAL_ROOT {
    }
    if Elems(referenced) <= index + store + {VIRTUAL_ROOT} {
      forall x | x in Elems(missing) ensures x in index {
        assert x in missing && x in index + store + {VIRTUAL_ROOT};
      }
    }
  }

  /** A whole git phase against an honest server: split, serve, receive, check.
      The stream may be cut at any object, by the network or by a crash. */
  method GitPhase(ghost u: Content, store: set<ObjectId>, viewHeads: seq<ObjectId>, referenced: seq<ObjectId>,
                  server: Content, index: set<ObjectId>,
                  range: (seq<ObjectId>, seq<ObjectId>) -> seq<ObjectId>,
                  size: ObjectId -> nat, cut: Option<nat>)
    returns (store': set<ObjectId>, arrived: bool)
    requires Sub(server, u) && WellTyped(u) && IndexOf(u, index)
    requires forall h, w :: Elems(w) <= index ==> IsCommitRange(u, index, h, w, range(h, w))
    requires Complete(u, store) && Elems(viewHeads) <= store + {VIRTUAL_ROOT}
    requires forall x :: x in referenced && x != VIRTUAL_ROOT ==> IsCommit(u, x)
    ensures store <= store' && Complete(u, store')
    ensures arrived ==> forall x :: x in referenced && x != VIRTUAL_ROOT ==> Holds(u, store', x)
    ensures (cut.None? && Complete(u, server.Keys) && index <= server.Keys + {VIRTUAL_ROOT}
             && Elems(referenced) <= index + store + {VIRTUAL_ROOT}) ==> arrived
  {
    hide Complete, Closed, WellTyped, IsCommitRange, PrefixSafe, WithinWants, Changed, Core, Holds, IndexOf;
    var missing, haves := SplitReferenced(store, viewHeads, referenced);
    MissingIndexed(store, referenced, index, missing);
    assert Elems(haves) <= store + {VIRTUAL_ROOT};
    var ok, stream := WalkGitClosure(u, server, index, haves, missing, range(haves, missing), store);
    var delivered := if cut.Some? && cut.value < |stream| then cut.value else |stream|;
    var finished := ok && cut.None?;
    var r, received := ReceiveStream(store, Served(stream, size, delivered), finished);
    ClaimedPrefix(r.received, Served(stream, size, delivered));
    StoreStaysComplete(u, r, stream);
    store' := r.store;
    arrived := false;
    if received {
      assert stream[..delivered] == stream;
      arrived := EnsureGitWantsArrived(store', missing);
      CoreWithin(u, store);
    }
  }
}
