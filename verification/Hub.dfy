/** The router between peer connections and repo tasks: what it queues to peers
    and what it lets into a repo's inbox. */
module Hub {
  import opened Collections
  import opened Registers
  import opened Inbox
  import opened Orphans
  import Order
  import MeshModel
  import Sorted

  type Status = nat

  /** A head announcement; one without heads retracts the repo. */
  datatype Announce = Announce(name: Name, id: RepoId, seqNo: nat, heads: Heads)

  datatype Message =
    | MembershipMessage(membership: MeshModel.Membership)
    | StatusMessage(status: Status)
    | AnnounceMessage(announce: Announce)

  /** Pending messages for one peer: one slot for the membership, one for the
      status report and one per repo for announcements. */
  datatype Pending = Pending(
    membership: Option<MeshModel.Membership>, status: Option<Status>, announces: map<Name, Announce>)

  /** The next message: membership first, then the status report, then the
      announcements in name order. */
  function Next(p: Pending): (r: Option<Message>)
    ensures r.None? <==> p == Pending(None, None, map[])
  {
    if p.membership.Some? then Some(MembershipMessage(p.membership.value))
    else if p.status.Some? then Some(StatusMessage(p.status.value))
    else if p.announces.Keys == {} then None
    else Some(AnnounceMessage(p.announces[Order.First(p.announces.Keys)]))
  }

  function AfterNext(p: Pending): Pending {
    if p.membership.Some? then p.(membership := None)
    else if p.status.Some? then p.(status := None)
    else if p.announces.Keys == {} then p
    else p.(announces := p.announces - {Order.First(p.announces.Keys)})
  }

  /** The announcements under some names, in order. */
  function Announcing(announces: map<Name, Announce>, names: seq<Name>): (r: seq<Message>)
    requires forall n :: n in names ==> n in announces
    ensures |r| == |names| && forall i :: 0 <= i < |r| ==> r[i] == AnnounceMessage(announces[names[i]])
  {
    seq(|names|, i requires 0 <= i < |names| => AnnounceMessage(announces[names[i]]))
  }

  /** Every pending announcement once, by name. */
  function Announced(announces: map<Name, Announce>): seq<Message> {
    Announcing(announces, Order.Sorted(announces.Keys))
  }

  /** Everything pending, in the order it is due: the membership, which a new peer
      should learn before anything else, the status report, the announcements. */
  function Due(p: Pending): seq<Message> {
    var announced := Announced(p.announces);
    var reported := if p.status.Some? then [StatusMessage(p.status.value)] + announced else announced;
    if p.membership.Some? then [MembershipMessage(p.membership.value)] + reported else reported
  }

  lemma FirstSorted(s: set<Name>)
    requires s != {}
    ensures Order.First(s) in s
    ensures Order.Sorted(s) == [Order.First(s)] + Order.Sorted(s - {Order.First(s)})
  {
  }

  lemma AnnouncingRest(a: map<Name, Announce>, first: Name, names: seq<Name>)
    requires first in a && first !in names && forall n :: n in names ==> n in a
    ensures Announcing(a, [first] + names) == [AnnounceMessage(a[first])] + Announcing(a - {first}, names)
  {
  }

  lemma FirstAnnounced(a: map<Name, Announce>)
    requires a.Keys != {}
    ensures Order.First(a.Keys) in a
    ensures Announced(a) == [AnnounceMessage(a[Order.First(a.Keys)])] + Announced(a - {Order.First(a.Keys)})
  {
    hide Order.Sorted, Order.First, Announcing;
    FirstSorted(a.Keys);
    var first := Order.First(a.Keys);
    assert (a - {first}).Keys == a.Keys - {first};
    SortedEnumerate(a.Keys - {first});
    AnnouncingRest(a, first, Order.Sorted(a.Keys - {first}));
  }

  lemma NoneAnnounced(a: map<Name, Announce>)
    ensures Announced(a) == [] <==> a.Keys == {}
  {
    hide Order.First;
  }

  /** Taking the next message takes the first one due and leaves the rest. */
  lemma NextIsDue(p: Pending)
    ensures Next(p).None? <==> Due(p) == []
    ensures Next(p).Some? ==> Due(p) == [Next(p).value] + Due(AfterNext(p))
  {
    hide Order.First, Announced;
    NoneAnnounced(p.announces);
    if p.announces.Keys != {} {
      FirstAnnounced(p.announces);
    }
  }

  lemma AnnouncedExact(a: map<Name, Announce>)
    requires forall n :: n in a ==> a[n].name == n
    ensures NoDup(Announced(a))
    ensures forall m :: m in Announced(a) <==>
                        m.AnnounceMessage? && m.announce.name in a && a[m.announce.name] == m.announce
  {
    hide Order.Sorted;
    var names := Order.Sorted(a.Keys);
    SortedEnumerate(a.Keys);
    var announced := Announcing(a, names);
    forall m: Message | m.AnnounceMessage? && m.announce.name in a && a[m.announce.name] == m.announce
      ensures m in announced
    {
      var i :| 0 <= i < |names| && names[i] == m.announce.name;
      assert announced[i] == m;
    }
    forall i, j | 0 <= i < j < |announced| ensures announced[i] != announced[j] {
      assert names[i] in a && names[j] in a && names[i] != names[j];
    }
  }

  lemma Prefixed(m: Message, rest: seq<Message>)
    requires m !in rest && NoDup(rest)
    ensures NoDup([m] + rest) && forall x :: x in [m] + rest <==> x == m || x in rest
  {
    var s := [m] + rest;
    assert forall i :: 0 < i < |s| ==> s[i] == rest[i - 1] && rest[i - 1] in rest;
  }

  /** Exactly what is pending is due, each message once. */
  lemma DueExact(p: Pending)
    requires forall n :: n in p.announces ==> p.announces[n].name == n
    ensures NoDup(Due(p))
    ensures forall m :: m in Due(p) <==>
              (m.MembershipMessage? && p.membership == Some(m.membership))
              || (m.StatusMessage? && p.status == Some(m.status))
              || (m.AnnounceMessage? && m.announce.name in p.announces && p.announces[m.announce.name] == m.announce)
  {
    hide Announced, NoDup;
    AnnouncedExact(p.announces);
    var announced := Announced(p.announces);
    var reported := if p.status.Some? then [StatusMessage(p.status.value)] + announced else announced;
    if p.status.Some? {
      Prefixed(StatusMessage(p.status.value), announced);
    }
    if p.membership.Some? {
      Prefixed(MembershipMessage(p.membership.value), reported);
    }
  }

  function Pushed(p: Pending, a: Announce): Pending {
    p.(announces := p.announces[a.name := a])
  }

  /** The queues of several peers after an announcement to those of `to`. */
  function PushedTo(queues: map<Peer, Pending>, to: set<Peer>, a: Announce): map<Peer, Pending> {
    map p | p in queues :: if p in to then Pushed(queues[p], a) else queues[p]
  }

  class Outbox {
    var membership: Option<MeshModel.Membership>
    var status: Option<Status>
    var announces: map<Name, Announce>

    function Value(): Pending
      reads this
    {
      Pending(membership, status, announces)
    }

    constructor ()
      ensures Value() == Pending(None, None, map[])
    {
      membership, status, announces := None, None, map[];
    }

    method PushAnnounce(a: Announce)
      modifies `announces
      ensures Value() == Pushed(old(Value()), a)
    {
      announces := announces[a.name := a];
    }

    method PushMembership(m: MeshModel.Membership)
      modifies `membership
      ensures Value() == old(Value()).(membership := Some(m))
    {
      membership := Some(m);
    }

    method PushStatus(s: Status)
      modifies `status
      ensures Value() == old(Value()).(status := Some(s))
    {
      status := Some(s);
    }

    method Pop() returns (r: Option<Message>)
      modifies this
      ensures r == Next(old(Value())) && Value() == AfterNext(old(Value()))
    {
      if membership.Some? {
        r := Some(MembershipMessage(membership.value));
        membership := None;
      } else if status.Some? {
        r := Some(StatusMessage(status.value));
        status := None;
      } else if announces.Keys != {} {
        var first := Order.First(announces.Keys);
        r := Some(AnnounceMessage(announces[first]));
        announces := announces - {first};
      } else {
        r := None;
      }
    }
  }

  /** Sends an outbox until nothing is pending, or until the connection fails at the
      message numbered `failing`, which is lost with it. */
  method RunSender(outbox: Outbox, failing: Option<nat>) returns (sent: seq<Message>)
    modifies outbox
    ensures sent <= Due(old(outbox.Value()))
    ensures failing.None? || |Due(old(outbox.Value()))| <= failing.value ==>
              sent == Due(old(outbox.Value())) && outbox.Value() == Pending(None, None, map[])
    ensures failing.Some? && failing.value < |Due(old(outbox.Value()))| ==>
              |sent| == failing.value && Due(outbox.Value()) == Due(old(outbox.Value()))[|sent| + 1..]
  {
    hide Due, Next, AfterNext;
    ghost var all := Due(outbox.Value());
    sent := [];
    while true
      invariant |sent| <= |all| && sent == all[..|sent|] && Due(outbox.Value()) == all[|sent|..]
      invariant failing.Some? ==> |sent| <= failing.value
      decreases |all| - |sent|
    {
      NextIsDue(outbox.Value());
      NothingNext(outbox.Value());
      var message := outbox.Pop();
      if message.None? {
        break;
      }
      OneSent(all, |sent|, message.value, Due(outbox.Value()));
      if failing.Some? && |sent| == failing.value {
        return;
      }
      sent := sent + [message.value];
    }
  }

  lemma OneSent(all: seq<Message>, k: nat, m: Message, rest: seq<Message>)
    requires k <= |all| && all[k..] == [m] + rest
    ensures k < |all| && all[..k + 1] == all[..k] + [m] && all[k + 1..] == rest
  {
    assert all[k..][0] == all[k] && all[k..][1..] == all[k + 1..];
  }

  lemma NothingNext(p: Pending)
    ensures Next(p).None? ==> p == Pending(None, None, map[]) && AfterNext(p) == p
  {
  }

  /** How a hub that registered `id` under the announced name treats an
      announcement of it. */
  function Routed(slots: Slots, peer: Peer, id: RepoId, a: Announce): Slots {
    if a.heads == [] then Retracted(slots, peer, a.seqNo)
    else if a.id != id then slots
    else Offered(slots, peer, a.seqNo, a.heads)
  }

  /** How a hub that did not register the name treats an announcement of it. */
  function OrphanRouted(o: Orphanage, peer: Peer, a: Announce): Orphanage {
    if a.heads == [] then Dropped(o, a.name, peer) else Remembered(o, peer, a.name, Orphan(a.id, a.heads))
  }

  lemma HeldIs(o: Orphanage, n: Name)
    ensures var known := if n in o then o[n] else map[];
            forall p :: Held(o, n, p) == if p in known then Some(known[p]) else None
  {
  }

  lemma DroppedKeys(o: Orphanage, n: Name, p: Peer)
    ensures Dropped(o, n, p).Keys <= o.Keys
  {
  }

  /** The conflict a hub remembers after an announcement. */
  function Conflicted(conflicts: map<Peer, RepoId>, peer: Peer, id: RepoId, a: Announce): map<Peer, RepoId> {
    if a.heads != [] && a.id != id then conflicts[peer := a.id] else conflicts - {peer}
  }

  /** An announcement of the registered id, or a retraction, that is newer than the
      peer's slot replaces it; nothing else changes. */
  ghost predicate RoutesTo(slots: Slots, peer: Peer, id: RepoId, a: Announce, after: Slots) {
    var newer := peer in slots ==> slots[peer].seqNo < a.seqNo;
    var accepted := a.heads == [] || a.id == id;
    after == if accepted && newer then slots[peer := Slot(a.seqNo, a.heads, a.heads == [])] else slots
  }

  /** A peer contests a registration as long as its last announcement carries
      another id. */
  ghost predicate Contests(conflicts: map<Peer, RepoId>, peer: Peer, id: RepoId, a: Announce,
                           after: map<Peer, RepoId>)
  {
    && after - {peer} == conflicts - {peer}
    && (peer in after <==> a.heads != [] && a.id != id)
    && (peer in after ==> after[peer] == a.id)
  }

  /** An announcement of an unregistered name is held for its peer, a retraction
      drops it, and a new name of a peer at its cap is refused. */
  ghost predicate RoutesAside(o: Orphanage, peer: Peer, a: Announce, after: Orphanage) {
    && (forall n: Name, p: Peer :: n != a.name || p != peer ==> Held(after, n, p) == Held(o, n, p))
    && Held(after, a.name, peer) ==
         if a.heads == [] then None
         else if Held(o, a.name, peer).Some? || |NamesOf(o, peer)| < MAX_ORPHAN_REPOS_PER_PEER
         then Some(Orphan(a.id, a.heads)) else None
  }

  lemma OrphanRoutedExact(o: Orphanage, peer: Peer, a: Announce)
    requires OrphansValid(o)
    ensures RoutesAside(o, peer, a, OrphanRouted(o, peer, a))
  {
    hide OrphansValid, Remembered, Dropped;
    RememberedExact(o, peer, a.name, Orphan(a.id, a.heads));
    DroppedExact(o, a.name, peer);
  }

  /** What the peers of an inbox last announced, retractions aside. */
  function AllKnown(slots: Slots): seq<(Peer, Heads)> {
    Known(slots, Sorted.Keys(slots.Keys))
  }

  lemma SnapshotIs(slots: Slots, known: seq<(Peer, Heads)>)
    requires known == Known(slots, Sorted.Keys(slots.Keys))
    ensures known == AllKnown(slots)
  {
  }

  /** What the peers of an unregistered repo last announced is held under its name,
      unless a peer already announces its cap of other names; nothing else changes. */
  ghost predicate Demoted(o: Orphanage, slots: Slots, name: Name, id: RepoId, after: Orphanage) {
    && (forall p :: p in slots && slots[p].heads != [] && |NamesOf(o, p)| < MAX_ORPHAN_REPOS_PER_PEER ==>
                    Held(after, name, p) == Some(Orphan(id, slots[p].heads)))
    && (forall p :: !(p in slots && slots[p].heads != [] && |NamesOf(o, p)| < MAX_ORPHAN_REPOS_PER_PEER) ==>
                    Held(after, name, p) == None)
    && (forall m, p :: m != name ==> Held(after, m, p) == Held(o, m, p))
  }

  lemma PeerDemoted(o: Orphanage, slots: Slots, known: seq<(Peer, Heads)>, name: Name, id: RepoId, p: Peer)
    requires OrphansValid(o) && name !in o && KnownOnce(known)
    requires forall k :: k in known <==> k.0 in slots && k.1 == slots[k.0].heads && k.1 != []
    ensures Held(RememberedAll(o, known, name, id), name, p) ==
            if p in slots && slots[p].heads != [] && |NamesOf(o, p)| < MAX_ORPHAN_REPOS_PER_PEER
            then Some(Orphan(id, slots[p].heads)) else None
  {
    hide OrphansValid, RememberedAll, KnownOnce, NamesOf;
    if p in slots && slots[p].heads != [] {
      assert (p, slots[p].heads) in known;
      var i :| 0 <= i < |known| && known[i] == (p, slots[p].heads);
      KnownHeld(o, known, name, id, i);
    } else {
      OthersKept(o, known, name, id, p);
    }
  }

  lemma AllDemoted(o: Orphanage, slots: Slots, name: Name, id: RepoId)
    requires OrphansValid(o) && name !in o
    ensures Demoted(o, slots, name, id, RememberedAll(o, AllKnown(slots), name, id))
  {
    hide OrphansValid, RememberedAll, Known, Sorted.Keys, NamesOf, Held;
    var known := AllKnown(slots);
    Sorted.KeysEnumerate(slots.Keys);
    KnownExact(slots, Sorted.Keys(slots.Keys));
    RememberedAllValid(o, known, name, id);
    forall p {
      PeerDemoted(o, slots, known, name, id, p);
    }
  }

  lemma NoOrphans()
    ensures OrphansValid(map[])
  {
    forall p ensures NamesOf(map[], p) == {} {
    }
  }

  /** Hub-side state of one registered repo. */
  datatype RepoEntry = RepoEntry(
    id: RepoId, seqNo: nat, published: Option<Heads>, inbox: Inbox, conflicts: map<Peer, RepoId>)

  ghost function InboxSet(repos: map<Name, RepoEntry>): set<Inbox> {
    set n | n in repos :: repos[n].inbox
  }

  ghost predicate InboxesApart(repos: map<Name, RepoEntry>) {
    forall m, n :: m in repos && n in repos && m != n ==> repos[m].inbox != repos[n].inbox
  }

  ghost predicate ReposBelow(repos: map<Name, RepoEntry>, seqNo: nat) {
    forall n :: n in repos ==> repos[n].seqNo <= seqNo
  }

  ghost predicate QueueBelow(p: Pending, seqNo: nat) {
    forall n :: n in p.announces ==> p.announces[n].name == n && p.announces[n].seqNo <= seqNo
  }

  ghost predicate QueuesBelow(queues: map<Peer, Pending>, seqNo: nat) {
    forall p :: p in queues ==> QueueBelow(queues[p], seqNo)
  }

  /** A push under the next sequence keeps everything stamped up to it. */
  lemma PushedBelow(queues: map<Peer, Pending>, to: set<Peer>, a: Announce, seqNo: nat)
    requires QueuesBelow(queues, seqNo) && seqNo <= a.seqNo
    ensures QueuesBelow(PushedTo(queues, to, a), a.seqNo)
  {
    forall p | p in queues ensures QueueBelow(PushedTo(queues, to, a)[p], a.seqNo) {
      assert QueueBelow(queues[p], seqNo);
    }
  }

  /** The announcements a connecting peer is sent. */
  function Replay(repos: map<Name, RepoEntry>): map<Name, Announce> {
    map n | n in repos && repos[n].published.Some? ::
      Announce(n, repos[n].id, repos[n].seqNo, repos[n].published.value)
  }

  /** Every published repo is announced as it was last published, and no other. */
  ghost predicate Replays(repos: map<Name, RepoEntry>, announces: map<Name, Announce>) {
    forall n, a :: n in announces && announces[n] == a <==>
                   n in repos && repos[n].published == Some(a.heads)
                   && a.name == n && a.id == repos[n].id && a.seqNo == repos[n].seqNo
  }

  lemma ReplayExact(repos: map<Name, RepoEntry>)
    ensures Replays(repos, Replay(repos))
  {
  }

  function Forgotten(repos: map<Name, RepoEntry>, names: set<Name>, peer: Peer): map<Name, RepoEntry> {
    map n | n in repos ::
      if n in names then repos[n].(conflicts := repos[n].conflicts - {peer}) else repos[n]
  }

  function SlotsForgotten(slots: map<Name, Slots>, names: set<Name>, peer: Peer): map<Name, Slots> {
    map n | n in slots :: if n in names then slots[n] - {peer} else slots[n]
  }

  /** A peer's slots, conflicts and orphans are gone, and nothing else changed. */
  ghost predicate ForgetsOnly(peer: Peer, repos: map<Name, RepoEntry>, slots: map<Name, Slots>, o: Orphanage,
                              repos': map<Name, RepoEntry>, slots': map<Name, Slots>, o': Orphanage)
  {
    && repos'.Keys == repos.Keys && slots'.Keys == slots.Keys
    && (forall n :: n in repos ==> repos'[n] == repos[n].(conflicts := repos[n].conflicts - {peer}))
    && (forall n :: n in slots ==> slots'[n] == slots[n] - {peer})
    && (forall n, p :: Held(o', n, p) == if p == peer then None else Held(o, n, p))
  }

  lemma OnlyForgotten(peer: Peer, repos: map<Name, RepoEntry>, slots: map<Name, Slots>, o: Orphanage)
    requires OrphansValid(o) && slots.Keys == repos.Keys
    ensures ForgetsOnly(peer, repos, slots, o, Forgotten(repos, repos.Keys, peer),
                        SlotsForgotten(slots, repos.Keys, peer), DroppedPeer(o, peer))
  {
    hide OrphansValid, DroppedPeer;
    DroppedExact(o, "", peer);
  }

  lemma StampedBelow(repos: map<Name, RepoEntry>, name: Name, next: nat, heads: Option<Heads>, seqNo: nat)
    requires name in repos && InboxesApart(repos) && ReposBelow(repos, seqNo) && seqNo <= next
    ensures var after := repos[name := repos[name].(seqNo := next, published := heads)];
            InboxesApart(after) && ReposBelow(after, next)
  {
  }

  lemma RemovedBelow(repos: map<Name, RepoEntry>, name: Name, seqNo: nat)
    requires InboxesApart(repos) && ReposBelow(repos, seqNo)
    ensures InboxesApart(repos - {name}) && ReposBelow(repos - {name}, seqNo) && ReposBelow(repos - {name}, seqNo + 1)
    ensures name !in repos ==> repos - {name} == repos
  {
  }

  lemma ConflictsBelow(repos: map<Name, RepoEntry>, name: Name, conflicts: map<Peer, RepoId>, seqNo: nat)
    requires name in repos && InboxesApart(repos) && ReposBelow(repos, seqNo)
    ensures var after := repos[name := repos[name].(conflicts := conflicts)];
            InboxesApart(after) && ReposBelow(after, seqNo) && InboxSet(after) == InboxSet(repos)
  {
    var after := repos[name := repos[name].(conflicts := conflicts)];
    assert after.Keys == repos.Keys && forall n :: n in repos ==> after[n].inbox == repos[n].inbox;
    assert forall x :: x in InboxSet(repos) ==> x in InboxSet(after);
  }

  lemma ForgottenNone(repos: map<Name, RepoEntry>, slots: map<Name, Slots>, peer: Peer)
    ensures Forgotten(repos, Elems([]), peer) == repos && SlotsForgotten(slots, Elems([]), peer) == slots
  {
    assert Elems<Name>([]) == {};
  }

  lemma ForgottenOne(repos: map<Name, RepoEntry>, slots: map<Name, Slots>, names: set<Name>, n: Name, peer: Peer)
    requires n in repos && n !in names && n in slots
    ensures n in Forgotten(repos, names, peer) && Forgotten(repos, names, peer)[n] == repos[n]
    ensures Forgotten(repos, names + {n}, peer) ==
            Forgotten(repos, names, peer)[n := repos[n].(conflicts := repos[n].conflicts - {peer})]
    ensures n in SlotsForgotten(slots, names, peer) && SlotsForgotten(slots, names, peer)[n] == slots[n]
    ensures SlotsForgotten(slots, names + {n}, peer) == SlotsForgotten(slots, names, peer)[n := slots[n] - {peer}]
  {
  }

  lemma ReplayBelow(repos: map<Name, RepoEntry>, seqNo: nat, p: Pending)
    requires ReposBelow(repos, seqNo) && p.announces == Replay(repos)
    ensures QueueBelow(p, seqNo)
  {
  }

  lemma ReplayForgotten(repos: map<Name, RepoEntry>, peer: Peer)
    ensures Replay(Forgotten(repos, repos.Keys, peer)) == Replay(repos)
  {
  }

  lemma PushedNone(queues: map<Peer, Pending>, a: Announce)
    ensures PushedTo(queues, Elems([]), a) == queues
  {
    assert Elems<Peer>([]) == {};
  }

  lemma PushedOne(queues: map<Peer, Pending>, to: set<Peer>, p: Peer, a: Announce)
    requires p in queues && p !in to
    ensures PushedTo(queues, to, a)[p] == queues[p]
    ensures PushedTo(queues, to + {p}, a) == PushedTo(queues, to, a)[p := Pushed(queues[p], a)]
  {
    hide Pushed;
  }

  lemma PushedToAll(queues: map<Peer, Pending>, a: Announce)
    ensures PushedTo(queues, queues.Keys, a).Keys == queues.Keys
    ensures forall p :: p in queues ==>
              PushedTo(queues, queues.Keys, a)[p] == queues[p].(announces := queues[p].announces[a.name := a])
  {
  }

  class SyncHub {
    var repos: map<Name, RepoEntry>
    var peers: map<Peer, Outbox>
    /** Announcement sequence, shared by every repo for the whole daemon run. */
    var announceSeq: nat
    /** What peers announced under names not registered here. */
    var orphans: Orphanage
    var membership: MeshModel.Membership
    var status: Option<Status>

    ghost function Inboxes(): set<Inbox>
      reads `repos
    {
      InboxSet(repos)
    }

    ghost function Outboxes(): set<Outbox>
      reads `peers
    {
      set p | p in peers :: peers[p]
    }

    /** What is queued to each connected peer. */
    ghost function Queued(): map<Peer, Pending>
      reads `peers, Outboxes()
    {
      map p | p in peers :: peers[p].Value()
    }

    /** What each registered repo's inbox holds. */
    ghost function Received(): map<Name, Slots>
      reads `repos, Inboxes()
    {
      map n | n in repos :: repos[n].inbox.slots
    }

    ghost predicate Apart()
      reads `peers
    {
      forall p, q :: p in peers && q in peers && p != q ==> peers[p] != peers[q]
    }

    /** Orphans are kept for unregistered names only, each peer's up to its cap. */
    ghost predicate Orphaned()
      reads `repos, `orphans
    {
      OrphansValid(orphans) && orphans.Keys !! repos.Keys
    }

    /** Repos and peers share no queue, and nothing is stamped past the shared
        sequence. */
    ghost predicate Valid()
      reads `repos, `peers, `announceSeq, `orphans, Outboxes()
    {
      && InboxesApart(repos) && Apart() && ReposBelow(repos, announceSeq) && QueuesBelow(Queued(), announceSeq)
      && Orphaned()
    }

    constructor (membership: MeshModel.Membership)
      ensures Valid() && repos == map[] && peers == map[] && announceSeq == 0 && orphans == map[]
    {
      this.membership, repos, peers, announceSeq, orphans, status := membership, map[], map[], 0, map[], None;
      new;
      NoOrphans();
    }

    /** Queues an announcement to every connected peer's outbox. */
    method Broadcast(a: Announce)
      requires Apart()
      modifies Outboxes()
      ensures Queued() == PushedTo(old(Queued()), peers.Keys, a)
      ensures forall p :: p in peers ==>
                Queued()[p] == old(Queued())[p].(announces := old(Queued())[p].announces[a.name := a])
    {
      var keys := Sorted.Keys(peers.Keys);
      Sorted.KeysEnumerate(peers.Keys);
      hide Sorted.Keys, PushedTo, Pushed;
      PushedNone(Queued(), a);
      for i := 0 to |keys|
        invariant Queued() == PushedTo(old(Queued()), Elems(keys[..i]), a)
      {
        OneMore(keys, peers.Keys, i);
        PushedOne(old(Queued()), Elems(keys[..i]), keys[i], a);
        PushTo(keys[i], a);
      }
      AllRead(keys, peers.Keys);
      assert old(Queued()).Keys == peers.Keys;
      PushedToAll(old(Queued()), a);
    }

    /** Queues an announcement to one connected peer. */
    method PushTo(p: Peer, a: Announce)
      requires Apart() && p in peers
      modifies Outboxes()
      ensures Queued() == old(Queued())[p := Pushed(old(Queued())[p], a)]
    {
      hide Pushed;
      peers[p].PushAnnounce(a);
    }

    /** Registers a repo under a fresh inbox, replacing any registration of the
        name. The orphans of the name are taken; those under another id are its
        first conflicts. */
    method RegisterRepo(name: Name, id: RepoId) returns (inbox: Inbox)
      requires Valid()
      modifies `repos, `orphans
      ensures Valid() && fresh(inbox) && inbox.slots == map[]
      ensures repos == old(repos)[name := RepoEntry(id, 0, None, inbox, Contested(old(orphans), name, id))]
      ensures orphans == old(orphans) - {name}
      ensures forall p :: var h := Held(old(orphans), name, p);
                && (p in repos[name].conflicts <==> h.Some? && h.value.id != id)
                && (p in repos[name].conflicts ==> repos[name].conflicts[p] == h.value.id)
    {
      hide OrphansValid, Contested;
      DroppedExact(orphans, name, 0);
      forall p {
        ContestedExact(orphans, name, id, p);
      }
      inbox := new Inbox();
      repos := repos[name := RepoEntry(id, 0, None, inbox, Contested(orphans, name, id))];
      orphans := orphans - {name};
    }

    /** Publishes a repo's op heads under the next sequence. */
    method Publish(name: Name, id: RepoId, heads: Heads)
      requires Valid()
      modifies this`repos, this`announceSeq, Outboxes()
      ensures Valid()
      ensures name !in old(repos) || old(repos)[name].id != id ==>
                repos == old(repos) && announceSeq == old(announceSeq) && Queued() == old(Queued())
      ensures name in old(repos) && old(repos)[name].id == id ==>
                && announceSeq == old(announceSeq) + 1
                && repos == old(repos)[name := old(repos)[name].(seqNo := announceSeq, published := Some(heads))]
                && Queued() == PushedTo(old(Queued()), peers.Keys, Announce(name, id, announceSeq, heads))
    {
      hide InboxesApart, ReposBelow, QueuesBelow, PushedTo, Queued;
      if name !in repos || repos[name].id != id { return; }
      StampedBelow(repos, name, announceSeq + 1, Some(heads), announceSeq);
      PushedBelow(Queued(), peers.Keys, Announce(name, id, announceSeq + 1, heads), announceSeq);
      announceSeq := announceSeq + 1;
      repos := repos[name := repos[name].(seqNo := announceSeq, published := Some(heads))];
      Broadcast(Announce(name, id, announceSeq, heads));
    }

    /** Removes a registration. What its peers last announced is remembered as
        orphans, and one that was published is retracted under the next sequence. */
    method UnregisterRepo(name: Name)
      requires Valid()
      modifies this`repos, this`announceSeq, this`orphans, Outboxes()
      ensures Valid() && repos == old(repos) - {name}
      ensures orphans == if name !in old(repos) then old(orphans)
                         else RememberedAll(old(orphans), AllKnown(old(repos[name].inbox.slots)), name,
                                            old(repos)[name].id)
      ensures name in old(repos) ==>
                Demoted(old(orphans), old(repos[name].inbox.slots), name, old(repos)[name].id, orphans)
      ensures var told := name in old(repos) && old(repos)[name].published.Some?;
              && announceSeq == old(announceSeq) + (if told then 1 else 0)
              && Queued() ==
                   if told then
                     PushedTo(old(Queued()), peers.Keys, Announce(name, old(repos)[name].id, announceSeq, []))
                   else old(Queued())
    {
      hide InboxesApart, ReposBelow, QueuesBelow, PushedTo, Queued, OrphansValid, RememberedAll, AllKnown, Received,
        Demoted;
      RemovedBelow(repos, name, announceSeq);
      if name !in repos { return; }
      var entry := repos[name];
      Remove(name);
      if entry.published.Some? {
        PushedBelow(Queued(), peers.Keys, Announce(name, entry.id, announceSeq + 1, []), announceSeq);
        RemovedBelow(repos, name, announceSeq);
        announceSeq := announceSeq + 1;
        Broadcast(Announce(name, entry.id, announceSeq, []));
      }
    }

    /** Takes a registration out, what its peers announced becoming orphans. */
    method Remove(name: Name)
      requires Valid() && name in repos
      modifies `repos, `orphans
      ensures Valid() && repos == old(repos) - {name} && Queued() == old(Queued())
      ensures orphans == RememberedAll(old(orphans), AllKnown(old(repos[name].inbox.slots)), name, old(repos)[name].id)
      ensures Demoted(old(orphans), old(repos[name].inbox.slots), name, old(repos)[name].id, orphans)
    {
      hide InboxesApart, ReposBelow, QueuesBelow, OrphansValid, RememberedAll, AllKnown, Known, Sorted.Keys, Demoted;
      var entry := repos[name];
      AllDemoted(orphans, entry.inbox.slots, name, entry.id);
      var known := entry.inbox.Snapshot();
      SnapshotIs(entry.inbox.slots, known);
      RememberedAllValid(orphans, known, name, entry.id);
      Demote(name, entry.id, known);
      assert Queued() == old(Queued());
      Delist(name);
    }

    /** Takes a registration out whose name may already have orphans. */
    method Delist(name: Name)
      requires InboxesApart(repos) && Apart() && ReposBelow(repos, announceSeq) && QueuesBelow(Queued(), announceSeq)
      requires OrphansValid(orphans) && orphans.Keys - {name} !! repos.Keys
      modifies `repos
      ensures Valid() && repos == old(repos) - {name} && Queued() == old(Queued())
    {
      hide InboxesApart, ReposBelow, QueuesBelow, OrphansValid;
      RemovedBelow(repos, name, announceSeq);
      repos := repos - {name};
      assert Queued() == old(Queued());
    }

    /** Remembers announcements as orphans of a name, in turn. */
    method Demote(name: Name, id: RepoId, known: seq<(Peer, Heads)>)
      modifies `orphans
      ensures orphans == RememberedAll(old(orphans), known, name, id)
    {
      hide Remembered;
      for i := 0 to |known|
        invariant orphans == RememberedAll(old(orphans), known[..i], name, id)
      {
        assert known[..i + 1][..i] == known[..i];
        orphans := Remembered(orphans, known[i].0, name, Orphan(id, known[i].1));
      }
      assert known[..|known|] == known;
    }

    /** Drops a peer's slot in one repo's inbox. */
    method ForgetSlot(name: Name, peer: Peer)
      requires Valid() && name in repos
      modifies Inboxes()
      ensures Valid() && Queued() == old(Queued())
      ensures Received() == old(Received())[name := old(Received())[name] - {peer}]
    {
      hide ReposBelow, QueuesBelow;
      repos[name].inbox.Forget(peer);
      assert Queued() == old(Queued());
    }

    /** Lets an announcement of the repo's own id, or a retraction, in. */
    method Accept(name: Name, peer: Peer, a: Announce)
      requires Valid() && name in repos && (a.heads == [] || a.id == repos[name].id)
      modifies Inboxes()
      ensures Valid()
      ensures Received() == old(Received())[name := Routed(old(Received())[name], peer, repos[name].id, a)]
    {
      hide ReposBelow, QueuesBelow;
      if a.heads == [] {
        repos[name].inbox.Retract(peer, a.seqNo);
      } else {
        repos[name].inbox.Offer(peer, a.seqNo, a.heads);
      }
      assert Queued() == old(Queued());
    }

    method SetConflicts(name: Name, conflicts: map<Peer, RepoId>)
      requires Valid() && name in repos
      modifies `repos
      ensures Valid() && repos == old(repos)[name := old(repos)[name].(conflicts := conflicts)]
      ensures Received() == old(Received()) && Inboxes() == old(Inboxes()) && Queued() == old(Queued())
    {
      hide InboxesApart, ReposBelow, QueuesBelow, InboxSet;
      ConflictsBelow(repos, name, conflicts, announceSeq);
      repos := repos[name := repos[name].(conflicts := conflicts)];
      assert Queued() == old(Queued());
    }

    /** Drops what a peer's previous connection taught about one repo. */
    method ForgetIn(name: Name, peer: Peer)
      requires Valid() && name in repos
      modifies this`repos, Inboxes()
      ensures Valid() && Inboxes() == old(Inboxes()) && Queued() == old(Queued())
      ensures repos == old(repos)[name := old(repos)[name].(conflicts := old(repos)[name].conflicts - {peer})]
      ensures Received() == old(Received())[name := old(Received())[name] - {peer}]
    {
      hide Valid, Received, Queued, Inboxes;
      ForgetSlot(name, peer);
      SetConflicts(name, repos[name].conflicts - {peer});
    }

    lemma WillForget(peer: Peer)
      requires Valid()
      ensures Received().Keys == repos.Keys
      ensures ForgetsOnly(peer, repos, Received(), orphans, Forgotten(repos, repos.Keys, peer),
                          SlotsForgotten(Received(), repos.Keys, peer), DroppedPeer(orphans, peer))
    {
      hide OrphansValid, ForgetsOnly, Forgotten, SlotsForgotten, DroppedPeer;
      OnlyForgotten(peer, repos, Received(), orphans);
    }

    /** Drops the slots, conflicts and orphans of a peer's previous connection. */
    method ForgetPeer(peer: Peer)
      requires Valid()
      modifies this`repos, this`orphans, Inboxes()
      ensures orphans == DroppedPeer(old(orphans), peer)
      ensures Valid() && repos == Forgotten(old(repos), old(repos).Keys, peer)
      ensures Received() == SlotsForgotten(old(Received()), old(repos).Keys, peer)
      ensures ForgetsOnly(peer, old(repos), old(Received()), old(orphans), repos, Received(), orphans)
      ensures Inboxes() == old(Inboxes()) && Queued() == old(Queued())
    {
      hide *;
      var keys := Order.Sorted(repos.Keys);
      ghost var names := repos.Keys;
      SortedEnumerate(names);
      WillForget(peer);
      ForgottenNone(repos, Received(), peer);
      for i := 0 to |keys|
        invariant Valid() && repos == Forgotten(old(repos), Elems(keys[..i]), peer)
        invariant Received() == SlotsForgotten(old(Received()), Elems(keys[..i]), peer)
        invariant Inboxes() == old(Inboxes()) && Queued() == old(Queued()) && orphans == old(orphans)
      {
        OneMore(keys, names, i);
        ForgottenOne(old(repos), old(Received()), Elems(keys[..i]), keys[i], peer);
        ForgetIn(keys[i], peer);
      }
      AllRead(keys, names);
      ForgetOrphans(peer);
    }

    method ForgetOrphans(peer: Peer)
      requires Valid()
      modifies `orphans
      ensures Valid() && orphans == DroppedPeer(old(orphans), peer) && Queued() == old(Queued())
      ensures Received() == old(Received())
    {
      hide OrphansValid, InboxesApart, ReposBelow, QueuesBelow;
      DroppedExact(orphans, "", peer);
      orphans := DroppedPeer(orphans, peer);
      assert Queued() == old(Queued());
    }

    /** A fresh outbox holding what a connecting peer is sent. */
    method Seeded() returns (outbox: Outbox)
      requires Valid()
      ensures Valid() && Queued() == old(Queued())
      ensures fresh(outbox) && outbox.Value() == Pending(Some(membership), status, Replay(repos))
    {
      hide Replay, InboxesApart, ReposBelow, QueuesBelow;
      outbox := new Outbox();
      outbox.PushMembership(membership);
      if status.Some? {
        outbox.PushStatus(status.value);
      }
      outbox.announces := Replay(repos);
      assert Queued() == old(Queued());
    }

    /** Hands a connected peer its outbox. */
    method Install(peer: Peer, outbox: Outbox)
      requires Valid() && outbox !in Outboxes() && QueueBelow(outbox.Value(), announceSeq)
      modifies `peers
      ensures Valid() && peers == old(peers)[peer := outbox]
      ensures Queued() == old(Queued())[peer := outbox.Value()] && Received() == old(Received())
    {
      hide InboxesApart, ReposBelow, QueueBelow;
      peers := peers[peer := outbox];
      assert Queued() == old(Queued())[peer := outbox.Value()];
    }

    /** Connects a peer with a fresh outbox that replays the membership, the
        status report and every published repo, and drops what its previous
        connection taught. */
    method PeerConnected(peer: Peer)
      requires Valid()
      modifies this`repos, this`peers, this`orphans, Inboxes()
      ensures Valid() && orphans == DroppedPeer(old(orphans), peer)
      ensures peer in peers && fresh(peers[peer]) && peers == old(peers)[peer := peers[peer]]
      ensures Queued() == old(Queued())[peer := Pending(Some(membership), status, Replay(old(repos)))]
      ensures Replays(old(repos), Queued()[peer].announces)
      ensures repos == Forgotten(old(repos), old(repos).Keys, peer)
      ensures Received() == SlotsForgotten(old(Received()), old(repos).Keys, peer)
      ensures ForgetsOnly(peer, old(repos), old(Received()), old(orphans), repos, Received(), orphans)
    {
      hide InboxesApart, QueuesBelow, Queued, ReposBelow, Forgotten, SlotsForgotten, Replay, Received, Apart,
        ForgetsOnly, Replays;
      ReplayForgotten(old(repos), peer);
      ReplayExact(old(repos));
      ReplayBelow(old(repos), announceSeq, Pending(Some(membership), status, Replay(old(repos))));
      var outbox := Seeded();
      ForgetPeer(peer);
      Install(peer, outbox);
    }

    /** Disconnects a peer: its outbox goes, and all it taught. */
    method PeerDisconnected(peer: Peer)
      requires Valid()
      modifies this`repos, this`peers, this`orphans, Inboxes()
      ensures Valid() && orphans == DroppedPeer(old(orphans), peer) && peers == old(peers) - {peer}
      ensures Queued() == old(Queued()) - {peer}
      ensures repos == Forgotten(old(repos), old(repos).Keys, peer)
      ensures Received() == SlotsForgotten(old(Received()), old(repos).Keys, peer)
      ensures ForgetsOnly(peer, old(repos), old(Received()), old(orphans), repos, Received(), orphans)
    {
      hide Valid, Queued, Forgotten, SlotsForgotten, DroppedPeer, Received, ForgetsOnly;
      ForgetPeer(peer);
      Uninstall(peer);
    }

    method Uninstall(peer: Peer)
      requires Valid()
      modifies `peers
      ensures Valid() && peers == old(peers) - {peer} && Queued() == old(Queued()) - {peer}
      ensures Received() == old(Received())
    {
      hide InboxesApart, ReposBelow, QueueBelow, OrphansValid;
      peers := peers - {peer};
      assert Queued() == old(Queued()) - {peer};
    }

    /** Remembers an announcement of a name not registered here, or forgets it when it
        is a retraction. */
    method RouteOrphan(peer: Peer, a: Announce)
      requires Valid() && a.name !in repos
      modifies `orphans
      ensures Valid() && Queued() == old(Queued()) && Received() == old(Received())
      ensures orphans == OrphanRouted(old(orphans), peer, a)
    {
      hide OrphansValid, InboxesApart, ReposBelow, QueuesBelow, Remembered, Dropped;
      RememberedExact(orphans, peer, a.name, Orphan(a.id, a.heads));
      DroppedExact(orphans, a.name, peer);
      DroppedKeys(orphans, a.name, peer);
      orphans := OrphanRouted(orphans, peer, a);
      assert Queued() == old(Queued());
    }

    /** Routes an inbound announcement: of a registered repo to its inbox, or to its
        conflicts, of another name to the orphans. */
    method Route(peer: Peer, a: Announce)
      requires Valid()
      modifies this`repos, this`orphans, Inboxes()
      ensures Valid()
      ensures if a.name in old(repos) && Order.ValidName(a.name) then
                && repos == old(repos)[a.name := old(repos)[a.name].(
                     conflicts := Conflicted(old(repos)[a.name].conflicts, peer, old(repos)[a.name].id, a))]
                && Received() == old(Received())[a.name :=
                     Routed(old(Received())[a.name], peer, old(repos)[a.name].id, a)]
                && orphans == old(orphans)
              else
                && repos == old(repos) && Received() == old(Received())
                && orphans == if Order.ValidName(a.name) then OrphanRouted(old(orphans), peer, a) else old(orphans)
      ensures a.name in old(repos) && Order.ValidName(a.name) ==>
                && RoutesTo(old(Received())[a.name], peer, old(repos)[a.name].id, a, Received()[a.name])
                && Contests(old(repos)[a.name].conflicts, peer, old(repos)[a.name].id, a, repos[a.name].conflicts)
      ensures a.name !in old(repos) && Order.ValidName(a.name) ==> RoutesAside(old(orphans), peer, a, orphans)
    {
      hide Order.ValidName, Valid, Inboxes, Retracted, Offered, OrphanRouted, Received, RoutesTo, Contests, RoutesAside;
      if !Order.ValidName(a.name) { return; }
      if a.name !in repos {
        RoutedAside(peer, a);
        RouteOrphan(peer, a);
        return;
      }
      RoutedIn(a.name, peer, a);
      SetConflicts(a.name, Conflicted(repos[a.name].conflicts, peer, repos[a.name].id, a));
      if a.heads == [] || repos[a.name].id == a.id {
        Accept(a.name, peer, a);
      } else {
        NotRouted(a.name, peer, a);
      }
    }

    lemma RoutedAside(peer: Peer, a: Announce)
      requires Valid()
      ensures RoutesAside(orphans, peer, a, OrphanRouted(orphans, peer, a))
    {
      OrphanRoutedExact(orphans, peer, a);
    }

    lemma RoutedIn(name: Name, peer: Peer, a: Announce)
      requires name in repos
      ensures name in Received() && RoutesTo(Received()[name], peer, repos[name].id, a,
                                             Routed(Received()[name], peer, repos[name].id, a))
      ensures Contests(repos[name].conflicts, peer, repos[name].id, a,
                       Conflicted(repos[name].conflicts, peer, repos[name].id, a))
    {
    }

    lemma NotRouted(name: Name, peer: Peer, a: Announce)
      requires name in repos && a.heads != [] && a.id != repos[name].id
      ensures name in Received()
      ensures Received() == Received()[name := Routed(Received()[name], peer, repos[name].id, a)]
    {
    }

    /** The connected peers announcing a name: their common id and each one's heads.
        It fails when there is none or when they disagree. */
    method CloneSources(name: Name) returns (r: Result<(RepoId, seq<(Peer, Heads)>)>)
      ensures r.Ok? <==>
                && (exists p :: p in peers && Held(orphans, name, p).Some?)
                && forall p, q :: p in peers && q in peers && Held(orphans, name, p).Some?
                                  && Held(orphans, name, q).Some? ==>
                                  Held(orphans, name, p).value.id == Held(orphans, name, q).value.id
      ensures r.Ok? ==> forall p, hs :: (p, hs) in r.value.1 <==>
                          p in peers && Held(orphans, name, p) == Some(Orphan(r.value.0, hs))
    {
      HeldIs(orphans, name);
      r := Resolve(if name in orphans then orphans[name] else map[], peers.Keys);
    }
  }
}
