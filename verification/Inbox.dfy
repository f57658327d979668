/** The announcements a repo task has not handled yet: the latest per peer,
    ordered by sequence number. */
module Inbox {
  import opened Collections
  import Sorted

  type Peer = nat
  /** Operation heads; none in a retraction. */
  type Heads = seq<nat>

  /** An announcement handed to the repo task, at the sequence it was drained. */
  datatype PeerAnnounce = PeerAnnounce(peer: Peer, seqNo: nat, heads: Heads)

  /** The highest announcement sequence seen of a peer, with its heads. */
  datatype Slot = Slot(seqNo: nat, heads: Heads, drained: bool)

  type Slots = map<Peer, Slot>

  predicate Outdated(slots: Slots, peer: Peer, seqNo: nat) {
    peer in slots && slots[peer].seqNo >= seqNo
  }

  /** A slot is installed unless one at or past its sequence is held. */
  function Advanced(slots: Slots, peer: Peer, slot: Slot): (r: Slots)
    ensures peer in r && r[peer].seqNo >= slot.seqNo && (peer in slots ==> r[peer].seqNo >= slots[peer].seqNo)
  {
    if Outdated(slots, peer, slot.seqNo) then slots else slots[peer := slot]
  }

  function Offered(slots: Slots, peer: Peer, seqNo: nat, heads: Heads): Slots {
    Advanced(slots, peer, Slot(seqNo, heads, false))
  }

  function Retracted(slots: Slots, peer: Peer, seqNo: nat): Slots {
    Advanced(slots, peer, Slot(seqNo, [], true))
  }

  function Requeued(slots: Slots, a: PeerAnnounce): Slots {
    if a.peer in slots && slots[a.peer].seqNo == a.seqNo && slots[a.peer].drained
    then slots[a.peer := Slot(a.seqNo, a.heads, false)]
    else slots
  }

  function Drained(slots: Slots): Slots {
    map p | p in slots :: slots[p].(drained := true)
  }

  /** The undrained announcements of the peers read, in order. */
  function Waiting(slots: Slots, peers: seq<Peer>): seq<PeerAnnounce>
    requires forall p :: p in peers ==> p in slots
    decreases |peers|
  {
    if peers == [] then []
    else
      var p := peers[|peers| - 1];
      Waiting(slots, peers[..|peers| - 1])
      + if slots[p].drained then [] else [PeerAnnounce(p, slots[p].seqNo, slots[p].heads)]
  }

  /** The announced heads of the peers read, drained or not, retractions aside. */
  function Known(slots: Slots, peers: seq<Peer>): seq<(Peer, Heads)>
    requires forall p :: p in peers ==> p in slots
    decreases |peers|
  {
    if peers == [] then []
    else
      var p := peers[|peers| - 1];
      Known(slots, peers[..|peers| - 1]) + if slots[p].heads == [] then [] else [(p, slots[p].heads)]
  }

  lemma ReadOneMore(slots: Slots, peers: seq<Peer>, i: nat)
    requires (forall p :: p in peers ==> p in slots) && i < |peers|
    ensures Waiting(slots, peers[..i + 1]) == Waiting(slots, peers[..i])
              + if slots[peers[i]].drained then []
                else [PeerAnnounce(peers[i], slots[peers[i]].seqNo, slots[peers[i]].heads)]
    ensures Known(slots, peers[..i + 1]) == Known(slots, peers[..i])
              + if slots[peers[i]].heads == [] then [] else [(peers[i], slots[peers[i]].heads)]
    ensures Waiting(slots, []) == [] && Known(slots, []) == []
  {
    assert peers[..i + 1][..i] == peers[..i];
  }

  /** Exactly the undrained slots are handed out, as they stand. */
  lemma {:induction false} WaitingExact(slots: Slots, peers: seq<Peer>)
    requires forall p :: p in peers ==> p in slots
    ensures forall a :: a in Waiting(slots, peers) <==>
              a.peer in peers && !slots[a.peer].drained && a.seqNo == slots[a.peer].seqNo
              && a.heads == slots[a.peer].heads
    decreases |peers|
  {
    if peers != [] {
      var n := |peers| - 1;
      WaitingExact(slots, peers[..n]);
      assert forall p :: p in peers <==> p in peers[..n] || p == peers[n];
    }
  }

  /** Exactly the peers with announced heads are known, each with the last ones. */
  lemma {:induction false} KnownExact(slots: Slots, peers: seq<Peer>)
    requires (forall p :: p in peers ==> p in slots) && NoDup(peers)
    ensures forall k :: k in Known(slots, peers) <==>
                        k.0 in peers && k.1 == slots[k.0].heads && k.1 != []
    ensures forall i, j :: 0 <= i < j < |Known(slots, peers)| ==> Known(slots, peers)[i].0 != Known(slots, peers)[j].0
    decreases |peers|
  {
    if peers != [] {
      var n := |peers| - 1;
      KnownExact(slots, peers[..n]);
      assert forall p :: p in peers <==> p in peers[..n] || p == peers[n];
      var before := Known(slots, peers[..n]);
      assert forall i :: 0 <= i < |before| ==> before[i] in before;
    }
  }

  class Inbox {
    var slots: Slots
    /** Wakeups given to the repo task. */
    var notified: nat

    constructor ()
      ensures slots == map[] && notified == 0
    {
      slots, notified := map[], 0;
    }

    /** Installs a peer's slot unless one at or past its sequence is held. */
    method Advance(peer: Peer, slot: Slot) returns (advanced: bool)
      modifies `slots
      ensures slots == Advanced(old(slots), peer, slot)
      ensures advanced <==> peer in old(slots) ==> old(slots)[peer].seqNo < slot.seqNo
      ensures slots == if advanced then old(slots)[peer := slot] else old(slots)
    {
      if peer in slots && slots[peer].seqNo >= slot.seqNo { return false; }
      slots := slots[peer := slot];
      advanced := true;
    }

    /** Stores an announcement unless a newer one was already seen. */
    method Offer(peer: Peer, seqNo: nat, heads: Heads)
      modifies this
      ensures slots == Offered(old(slots), peer, seqNo, heads)
      ensures var newer := peer in old(slots) ==> old(slots)[peer].seqNo < seqNo;
              && slots == (if newer then old(slots)[peer := Slot(seqNo, heads, false)] else old(slots))
              && notified == old(notified) + if newer then 1 else 0
    {
      var advanced := Advance(peer, Slot(seqNo, heads, false));
      if advanced {
        notified := notified + 1;
      }
    }

    /** Advances the watermark and clears the heads. */
    method Retract(peer: Peer, seqNo: nat)
      modifies `slots
      ensures slots == Retracted(old(slots), peer, seqNo)
      ensures var newer := peer in old(slots) ==> old(slots)[peer].seqNo < seqNo;
              slots == if newer then old(slots)[peer := Slot(seqNo, [], true)] else old(slots)
    {
      var _ := Advance(peer, Slot(seqNo, [], true));
    }

    /** Drops a peer's slot: its connection is gone. */
    method Forget(peer: Peer)
      modifies `slots
      ensures slots == old(slots) - {peer}
    {
      slots := slots - {peer};
    }

    /** Takes all undrained announcements, keeping the watermarks. */
    method Drain() returns (r: seq<PeerAnnounce>)
      modifies `slots
      ensures slots == Drained(old(slots))
      ensures slots.Keys == old(slots).Keys && forall p :: p in slots ==> slots[p] == old(slots)[p].(drained := true)
      ensures r == Waiting(old(slots), Sorted.Keys(old(slots).Keys))
      ensures forall a :: a in r <==>
                a.peer in old(slots) && old(slots)[a.peer] == Slot(a.seqNo, a.heads, false)
    {
      hide *;
      var held := slots;
      var peers := Sorted.Keys(slots.Keys);
      Sorted.KeysEnumerate(slots.Keys);
      r := [];
      NoneWaiting(held);
      for i := 0 to |peers|
        invariant r == Waiting(held, peers[..i])
        invariant slots == DrainedOf(held, Elems(peers[..i]))
      {
        var p := peers[i];
        ReadOneMore(held, peers, i);
        OneMore(peers, held.Keys, i);
        DrainOneMore(held, Elems(peers[..i]), p);
        if !slots[p].drained {
          r := r + [PeerAnnounce(p, slots[p].seqNo, slots[p].heads)];
          slots := slots[p := slots[p].(drained := true)];
        }
      }
      AllRead(peers, held.Keys);
      DrainAll(held);
      HandedOut(held, peers);
    }

    /** Restores heads a fetch failed to apply, unless a newer announcement
        superseded them. */
    method Requeue(a: PeerAnnounce)
      modifies `slots
      ensures slots == Requeued(old(slots), a)
      ensures var current := a.peer in old(slots) && old(slots)[a.peer].seqNo == a.seqNo && old(slots)[a.peer].drained;
              slots == if current then old(slots)[a.peer := Slot(a.seqNo, a.heads, false)] else old(slots)
    {
      if a.peer in slots && slots[a.peer].seqNo == a.seqNo && slots[a.peer].drained {
        slots := slots[a.peer := slots[a.peer].(heads := a.heads, drained := false)];
      }
    }

    /** The last announced heads of every peer, for demotion to orphans. */
    method Snapshot() returns (r: seq<(Peer, Heads)>)
      ensures r == Known(slots, Sorted.Keys(slots.Keys))
      ensures forall k :: k in r <==> k.0 in slots && k.1 == slots[k.0].heads && k.1 != []
    {
      hide *;
      var peers := Sorted.Keys(slots.Keys);
      r := [];
      NoneKnown(slots);
      for i := 0 to |peers|
        invariant r == Known(slots, peers[..i])
      {
        ReadOneMore(slots, peers, i);
        if slots[peers[i]].heads != [] {
          r := r + [(peers[i], slots[peers[i]].heads)];
        }
      }
      assert peers[..|peers|] == peers;
      Sorted.KeysEnumerate(slots.Keys);
      KnownByPeer(slots, peers);
    }
  }

  lemma HandedOut(slots: Slots, peers: seq<Peer>)
    requires Enumerates(peers, slots.Keys)
    ensures forall a :: a in Waiting(slots, peers) <==>
                        a.peer in slots && slots[a.peer] == Slot(a.seqNo, a.heads, false)
    ensures forall p :: p in slots ==> Drained(slots)[p] == slots[p].(drained := true)
    ensures Drained(slots).Keys == slots.Keys
  {
    hide Waiting;
    WaitingExact(slots, peers);
  }

  lemma KnownByPeer(slots: Slots, peers: seq<Peer>)
    requires Enumerates(peers, slots.Keys)
    ensures forall k :: k in Known(slots, peers) <==> k.0 in slots && k.1 == slots[k.0].heads && k.1 != []
  {
    hide Known;
    KnownExact(slots, peers);
  }

  lemma NoneWaiting(slots: Slots)
    ensures Waiting(slots, []) == [] && DrainedOf(slots, Elems([])) == slots
  {
    assert Elems<Peer>([]) == {};
    assert forall p :: p in slots ==> DrainedOf(slots, {})[p] == slots[p];
  }

  lemma NoneKnown(slots: Slots)
    ensures Known(slots, []) == []
  {
  }

  /** The slots with those of `peers` marked drained. */
  function DrainedOf(slots: Slots, peers: set<Peer>): (r: Slots)
    ensures r.Keys == slots.Keys
  {
    map p | p in slots :: if p in peers then slots[p].(drained := true) else slots[p]
  }

  lemma DrainAll(slots: Slots)
    ensures DrainedOf(slots, slots.Keys) == Drained(slots)
  {
  }

  lemma DrainOneMore(slots: Slots, peers: set<Peer>, p: Peer)
    requires p in slots && p !in peers
    ensures DrainedOf(slots, peers)[p] == slots[p]
    ensures DrainedOf(slots, peers + {p}) ==
            if slots[p].drained then DrainedOf(slots, peers)
            else DrainedOf(slots, peers)[p := slots[p].(drained := true)]
  {
  }

  /** A requeue is dropped once a newer announcement or retraction was seen, and
      never changes a peer's watermark. */
  lemma RequeueYields(slots: Slots, a: PeerAnnounce)
    ensures Requeued(slots, a).Keys == slots.Keys
    ensures forall p :: p in slots ==> Requeued(slots, a)[p].seqNo == slots[p].seqNo
    ensures a.peer in slots && slots[a.peer].seqNo != a.seqNo ==> Requeued(slots, a) == slots
  {
  }
}
