/** Announcements of one repo name over one connection: whatever is reordered,
    lost or repeated, the receiver's slot holds the latest one delivered. */
module LatestWins {
  import opened Collections
  import opened Registers
  import opened Inbox
  import opened Hub

  /** The sender's announcement sequence, its last announcement of the name and
      the one still queued; what was sent and what arrived; the receiver's slots
      and what it handed to the repo task, in order. */
  datatype Channel = Channel(
    clock: nat, last: Option<Announce>, queued: Option<Announce>, sent: set<Announce>, arrived: set<Announce>,
    slots: Slots, handed: seq<PeerAnnounce>)

  /** The receiver's side that does not change: the sending peer and the id the
      name is registered under. */
  datatype Receiver = Receiver(peer: Peer, id: RepoId)

  /** Whether the receiver lets an announcement into the inbox. */
  predicate Accepted(r: Receiver, a: Announce) {
    a.heads == [] || a.id == r.id
  }

  /** A new connection: the sender replays what it published, and the receiver
      forgot the peer. */
  ghost predicate Fresh(r: Receiver, c: Channel) {
    && c.last == c.queued && (c.last.Some? ==> c.last.value.seqNo <= c.clock)
    && c.sent == {} && c.arrived == {} && c.handed == [] && r.peer !in c.slots
  }

  /** The sender publishes or retracts the name under a new sequence. */
  ghost predicate Announces(c: Channel, d: Channel) {
    && d.clock > c.clock && d.last.Some? && d.last.value.seqNo == d.clock && d.queued == d.last
    && d.(clock := c.clock, last := c.last, queued := c.queued) == c
  }

  /** The sender announces another name. */
  ghost predicate AnnouncesOther(c: Channel, d: Channel) {
    d.clock > c.clock && d.(clock := c.clock) == c
  }

  /** The sender task takes the queued announcement. */
  ghost predicate Sends(c: Channel, d: Channel) {
    c.queued.Some? && d == c.(queued := None, sent := c.sent + {c.queued.value})
  }

  /** A sent announcement arrives, possibly again, possibly late. */
  ghost predicate Arrives(r: Receiver, c: Channel, d: Channel, a: Announce) {
    a in c.sent && d == c.(slots := Routed(c.slots, r.peer, r.id, a), arrived := c.arrived + {a})
  }

  /** The repo task drains the inbox. */
  ghost predicate Drains(r: Receiver, c: Channel, d: Channel) {
    d == c.(slots := Drained(c.slots),
            handed := c.handed + if r.peer in c.slots && !c.slots[r.peer].drained
                                 then [PeerAnnounce(r.peer, c.slots[r.peer].seqNo, c.slots[r.peer].heads)] else [])
  }

  /** A failed fetch is requeued. */
  ghost predicate Requeues(c: Channel, d: Channel, h: PeerAnnounce) {
    h in c.handed && d == c.(slots := Requeued(c.slots, h))
  }

  /** Other peers' announcements and requeues change their own slots. */
  ghost predicate OthersChange(r: Receiver, c: Channel, d: Channel) {
    && d == c.(slots := d.slots)
    && (r.peer in d.slots <==> r.peer in c.slots)
    && (r.peer in c.slots ==> d.slots[r.peer] == c.slots[r.peer])
  }

  ghost predicate Step(r: Receiver, c: Channel, d: Channel) {
    || Announces(c, d) || AnnouncesOther(c, d) || Sends(c, d) || (exists a :: Arrives(r, c, d, a))
    || Drains(r, c, d) || (exists h :: Requeues(c, d, h)) || OthersChange(r, c, d)
  }

  // What every run keeps.

  /** The sender's side: its last announcement is queued or sent, under the
      highest sequence, and one sequence is one announcement. */
  ghost predicate SenderOrdered(c: Channel) {
    && (c.last.None? ==> c.sent == {} && c.queued.None?)
    && (c.last.Some? ==> c.last.value.seqNo <= c.clock && (c.queued == c.last || c.last.value in c.sent))
    && (c.queued.Some? ==> c.queued == c.last)
    && (forall a :: a in c.sent ==> c.last.Some? && a.seqNo <= c.last.value.seqNo)
    && (forall a :: a in c.sent && c.last.Some? && a.seqNo == c.last.value.seqNo ==> a == c.last.value)
    && (forall a, b :: a in c.sent && b in c.sent && a.seqNo == b.seqNo ==> a == b)
    && c.arrived <= c.sent
  }

  /** The slot is the highest accepted announcement that arrived. */
  ghost predicate SlotIsLatest(r: Receiver, c: Channel) {
    && (forall a :: a in c.arrived && Accepted(r, a) ==> r.peer in c.slots && a.seqNo <= c.slots[r.peer].seqNo)
    && (r.peer in c.slots ==>
          exists a :: a in c.arrived && Accepted(r, a) && Fills(a, c.slots[r.peer]))
  }

  /** A slot holding an announcement; a retraction is never waiting. */
  ghost predicate Fills(a: Announce, s: Slot) {
    a.seqNo == s.seqNo && a.heads == s.heads && (a.heads == [] ==> s.drained)
  }

  /** Every announcement handed out arrived, carries heads, and is no newer than
      the slot; they were handed out in sequence order. */
  ghost predicate HandedInOrder(r: Receiver, c: Channel) {
    && (forall h :: h in c.handed ==>
          && r.peer in c.slots && h.peer == r.peer && h.seqNo <= c.slots[r.peer].seqNo && h.heads != []
          && exists a :: a in c.arrived && a.seqNo == h.seqNo && a.heads == h.heads)
    && (forall i, j :: 0 <= i < j < |c.handed| ==> c.handed[i].seqNo <= c.handed[j].seqNo)
  }

  ghost predicate Inv(r: Receiver, c: Channel) {
    SenderOrdered(c) && SlotIsLatest(r, c) && HandedInOrder(r, c)
  }

  lemma ArrivesKeeps(r: Receiver, c: Channel, d: Channel, a: Announce)
    requires Inv(r, c) && Arrives(r, c, d, a)
    ensures Inv(r, d)
  {
    assert SenderOrdered(d);
    if Accepted(r, a) && !Outdated(c.slots, r.peer, a.seqNo) {
      assert Fills(a, d.slots[r.peer]);
    } else if r.peer in c.slots {
      var b :| b in c.arrived && Accepted(r, b) && Fills(b, c.slots[r.peer]);
      assert b in d.arrived;
    }
    forall h | h in d.handed ensures exists b :: b in d.arrived && b.seqNo == h.seqNo && b.heads == h.heads {
      var b :| b in c.arrived && b.seqNo == h.seqNo && b.heads == h.heads;
      assert b in d.arrived;
    }
  }

  lemma DrainsKeeps(r: Receiver, c: Channel, d: Channel)
    requires Inv(r, c) && Drains(r, c, d)
    ensures Inv(r, d)
  {
    hide SenderOrdered;
    assert SenderOrdered(d) by { SameSender(c, d); }
    if r.peer in c.slots {
      var b :| b in c.arrived && Accepted(r, b) && Fills(b, c.slots[r.peer]);
      assert Fills(b, d.slots[r.peer]);
      if !c.slots[r.peer].drained {
        HandedOneMore(r, c, d, b);
      }
    }
  }

  lemma SameSender(c: Channel, d: Channel)
    requires SenderOrdered(c) && d == c.(slots := d.slots, handed := d.handed)
    ensures SenderOrdered(d)
  {
  }

  lemma HandedOneMore(r: Receiver, c: Channel, d: Channel, b: Announce)
    requires HandedInOrder(r, c) && Drains(r, c, d) && r.peer in c.slots && !c.slots[r.peer].drained
    requires b in c.arrived && Fills(b, c.slots[r.peer])
    ensures HandedInOrder(r, d)
  {
    var h := PeerAnnounce(r.peer, c.slots[r.peer].seqNo, c.slots[r.peer].heads);
    assert d.handed == c.handed + [h];
    assert forall x :: x in d.handed <==> x in c.handed || x == h;
    assert forall i :: 0 <= i < |c.handed| ==> c.handed[i] in c.handed;
  }

  /** A requeue restores the announcement the slot already holds: the sequence
      that was drained is one announcement. */
  lemma RequeuesKeeps(r: Receiver, c: Channel, d: Channel, h: PeerAnnounce)
    requires Inv(r, c) && Requeues(c, d, h)
    ensures Inv(r, d)
    ensures r.peer in c.slots && d.slots[r.peer].(drained := c.slots[r.peer].drained) == c.slots[r.peer]
  {
    SameSender(c, d);
    var b :| b in c.arrived && Accepted(r, b) && Fills(b, c.slots[r.peer]);
    var a :| a in c.arrived && a.seqNo == h.seqNo && a.heads == h.heads;
    assert a.seqNo == b.seqNo ==> a == b;
    assert Fills(b, d.slots[r.peer]);
  }

  lemma SendsKeeps(r: Receiver, c: Channel, d: Channel)
    requires Inv(r, c) && (Sends(c, d) || Announces(c, d) || AnnouncesOther(c, d))
    ensures Inv(r, d)
  {
    hide SlotIsLatest, HandedInOrder;
    SameReceiver(r, c, d);
  }

  lemma SameReceiver(r: Receiver, c: Channel, d: Channel)
    requires d.slots == c.slots && d.handed == c.handed && d.arrived == c.arrived
    ensures SlotIsLatest(r, c) ==> SlotIsLatest(r, d)
    ensures HandedInOrder(r, c) ==> HandedInOrder(r, d)
  {
  }

  lemma OthersKeep(r: Receiver, c: Channel, d: Channel)
    requires Inv(r, c) && OthersChange(r, c, d)
    ensures Inv(r, d)
  {
    SameSender(c, d);
    if r.peer in c.slots {
      var b :| b in c.arrived && Accepted(r, b) && Fills(b, c.slots[r.peer]);
      assert Fills(b, d.slots[r.peer]);
    }
  }

  lemma StepKeeps(r: Receiver, c: Channel, d: Channel)
    requires Inv(r, c) && Step(r, c, d)
    ensures Inv(r, d)
  {
    hide Inv, Announces, AnnouncesOther, Sends, Arrives, Drains, Requeues, OthersChange;
    if Announces(c, d) || AnnouncesOther(c, d) || Sends(c, d) {
      SendsKeeps(r, c, d);
    } else if a :| Arrives(r, c, d, a) {
      ArrivesKeeps(r, c, d, a);
    } else if Drains(r, c, d) {
      DrainsKeeps(r, c, d);
    } else if h :| Requeues(c, d, h) {
      RequeuesKeeps(r, c, d, h);
    } else {
      OthersKeep(r, c, d);
    }
  }

  ghost predicate Run(r: Receiver, run: seq<Channel>) {
    run != [] && Fresh(r, run[0]) && forall i: nat :: i + 1 < |run| ==> Step(r, run[i], run[i + 1])
  }

  lemma {:induction false} RunKeeps(r: Receiver, run: seq<Channel>, n: nat)
    requires Run(r, run) && n < |run|
    ensures Inv(r, run[n])
  {
    hide Step;
    if n == 0 {
      assert Inv(r, run[0]);
    } else {
      RunKeeps(r, run, n - 1);
      assert Step(r, run[n - 1], run[n - 1 + 1]);
      hide Inv;
      StepKeeps(r, run[n - 1], run[n]);
    }
  }

  /** At any point of a connection the slot holds the highest-sequence accepted
      announcement that arrived, and the task was handed heads in order. */
  lemma LatestWins(r: Receiver, run: seq<Channel>, n: nat)
    requires Run(r, run) && n < |run|
    ensures SlotIsLatest(r, run[n])
    ensures forall i, j :: 0 <= i < j < |run[n].handed| ==> run[n].handed[i].seqNo <= run[n].handed[j].seqNo
  {
    RunKeeps(r, run, n);
  }

  /** Once everything queued was sent and arrived, the slot is the sender's last
      announcement if and only if the receiver accepts it: an announcement under
      another id is a conflict and leaves the slot at what came before it. */
  lemma UpToDate(r: Receiver, run: seq<Channel>, n: nat)
    requires Run(r, run) && n < |run| && run[n].last.Some? && run[n].queued.None? && run[n].sent <= run[n].arrived
    ensures (r.peer in run[n].slots && run[n].slots[r.peer].seqNo == run[n].last.value.seqNo
             && run[n].slots[r.peer].heads == run[n].last.value.heads)
       <==> Accepted(r, run[n].last.value)
  {
    RunKeeps(r, run, n);
    hide Run;
    var c := run[n];
    var last := c.last.value;
    assert last in c.arrived;
    if r.peer in c.slots {
      var b :| b in c.arrived && Accepted(r, b) && Fills(b, c.slots[r.peer]);
    }
  }

  /** A sender that forgot the repo and registered another one under its name
      can leave the old heads in the slot: the retraction was still queued when
      the new announcement replaced it. */
  lemma StaleUnderNewId() returns (r: Receiver, run: seq<Channel>)
    ensures Run(r, run) && run[|run| - 1].last.Some? && run[|run| - 1].queued.None?
    ensures run[|run| - 1].sent <= run[|run| - 1].arrived
    ensures r.peer in run[|run| - 1].slots && run[|run| - 1].slots[r.peer].heads == [7]
    ensures !Accepted(r, run[|run| - 1].last.value) && run[|run| - 1].last.value.heads == [8]
  {
    r := Receiver(1, "a");
    var first, gone, other := Announce("n", "a", 1, [7]), Announce("n", "a", 2, []), Announce("n", "b", 3, [8]);
    var slots: Slots := map[1 := Slot(1, [7], false)];
    var c0 := Channel(1, Some(first), Some(first), {}, {}, map[], []);
    var c1 := c0.(queued := None, sent := {first});
    var c2 := c1.(slots := slots, arrived := {first});
    var c3 := c2.(clock := 2, last := Some(gone), queued := Some(gone));
    var c4 := c3.(clock := 3, last := Some(other), queued := Some(other));
    var c5 := c4.(queued := None, sent := {first, other});
    var c6 := c5.(arrived := {first, other});
    assert Sends(c0, c1);
    assert Arrives(r, c1, c2, first);
    assert Announces(c2, c3) && Announces(c3, c4);
    assert Sends(c4, c5) by { assert c4.sent + {other} == {first, other}; }
    assert Arrives(r, c5, c6, other) by { assert c5.arrived + {other} == {first, other}; }
    run := [c0, c1, c2, c3, c4, c5, c6];
  }

  // The hub's queues take these steps.

  function QueuedFor(p: Pending, name: Name): Option<Announce> {
    if name in p.announces then Some(p.announces[name]) else None
  }

  /** A publish or an unregistration pushes under the next sequence: it announces
      its own name to every peer and leaves what is queued for the others. */
  lemma PushAnnounces(c: Channel, queues: map<Peer, Pending>, p: Peer, name: Name, a: Announce)
    requires p in queues && c.queued == QueuedFor(queues[p], name) && a.seqNo == c.clock + 1
    ensures var after := QueuedFor(PushedTo(queues, queues.Keys, a)[p], name);
            if a.name == name then Announces(c, c.(clock := a.seqNo, last := Some(a), queued := after))
            else after == c.queued && AnnouncesOther(c, c.(clock := a.seqNo))
  {
  }

  /** Taking the next message sends the queued announcement or leaves it. */
  lemma PopSends(c: Channel, p: Pending, name: Name)
    requires c.queued == QueuedFor(p, name) && forall n :: n in p.announces ==> p.announces[n].name == n
    ensures if Next(p).Some? && Next(p).value.AnnounceMessage? && Next(p).value.announce.name == name
            then Sends(c, c.(queued := QueuedFor(AfterNext(p), name), sent := c.sent + {Next(p).value.announce}))
            else QueuedFor(AfterNext(p), name) == c.queued
  {
  }

  /** A connecting peer is replayed the last published heads of every repo, all
      stamped up to the shared sequence. */
  lemma ReplayIsFresh(r: Receiver, repos: map<Name, RepoEntry>, name: Name, clock: nat, slots: Slots)
    requires ReposBelow(repos, clock)
    ensures var queued := QueuedFor(Pending(None, None, Replay(repos)), name);
            Fresh(r, Channel(clock, queued, queued, {}, {}, slots - {r.peer}, []))
  {
  }
}
