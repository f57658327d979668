/** One pass of a repo task over its inbox: announcements are handled one by one
    while others arrive, and a failed one waits again unless it was superseded. */
module Drains {
  import opened Collections
  import opened Inbox
  import Dag
  import OpLog
  import OpWalks
  import Replica
  import ApplyBatch
  import opened Fetching
  import opened Convergence
  import Sorted

  const MAX_ANNOUNCED_HEADS := 64

  datatype Handled = Fetched | Idle | Failed

  /** What handling an announcement meets: whether its head ids have the repo's
      length, whether the op log could be read and a stream opened, what the peer
      answers to a fetch of given wants, and where the apply is cut. */
  datatype Meeting = Meeting(
    sized: bool, readable: bool, connected: bool, answer: seq<nat> -> Answer, viewHeads: seq<nat>,
    crash: ApplyBatch.Crash)

  predicate WellSized(a: PeerAnnounce, m: Meeting) {
    |a.heads| <= MAX_ANNOUNCED_HEADS && m.sized
  }

  /** Ids determine content: `truth` is what every op id stands for. */
  ghost predicate Told(truth: OpLog.Ops, ops: OpLog.Ops) {
    forall x :: x in ops ==> x in truth && ops[x] == truth[x]
  }

  ghost predicate TellsTruth(truth: OpLog.Ops, m: Meeting) {
    forall wants, f :: f in m.answer(wants).frames && f.OpFrame? ==> f.op.id in truth && f.op.op == truth[f.op.id]
  }

  lemma TruthKeepsIds(truth: OpLog.Ops, ops: OpLog.Ops, m: Meeting, wants: seq<nat>)
    requires Told(truth, ops) && TellsTruth(truth, m)
    ensures KeepsIds(m.answer(wants).frames, ops)
  {
  }

  lemma StillTold(truth: OpLog.Ops, r: Replica.Repo, r': Replica.Repo, m: Meeting, wants: seq<nat>)
    requires Told(truth, r.ops) && TellsTruth(truth, m) && Replica.Grows(r, r')
    requires forall x :: x in r'.ops && x !in r.ops ==>
               OpLog.OpFrame(OpLog.StoredOp(x, r'.ops[x])) in m.answer(wants).frames
    ensures Told(truth, r'.ops)
  {
  }

  /** The published history, the root counted, is within the walk's budget. */
  ghost predicate Roomy(r: Replica.Repo) {
    |OpWalks.Ancestry(OpLog.GraphOf(r.ops), r.heads) + {OpLog.ROOT_OP}| <= OpWalks.WALK_BUDGET
  }

  lemma RoomyBefore(r: Replica.Repo, r': Replica.Repo)
    requires Roomy(r') && forall x :: Replica.Listed(r, x) ==> Replica.Listed(r', x)
    ensures Roomy(r) && |OpWalks.Ancestry(OpLog.GraphOf(r.ops), r.heads)| <= OpWalks.WALK_BUDGET
  {
    AncestryListed(r);
    AncestryListed(r');
    var before := OpWalks.Ancestry(OpLog.GraphOf(r.ops), r.heads);
    var after := OpWalks.Ancestry(OpLog.GraphOf(r'.ops), r'.heads);
    SubsetSize(before + {OpLog.ROOT_OP}, after + {OpLog.ROOT_OP});
    SubsetSize(before, before + {OpLog.ROOT_OP});
  }

  lemma AncestryListed(r: Replica.Repo)
    ensures forall x :: x != OpLog.ROOT_OP ==>
              (x in OpWalks.Ancestry(OpLog.GraphOf(r.ops), r.heads) <==> Replica.Listed(r, x))
  {
    Dag.AncestorsExact(OpLog.GraphOf(r.ops), r.heads);
  }

  /** How one announcement is handled. A malformed one is dropped; one whose heads are
      all listed leaves the repo alone; otherwise what it names and the repo lacks is
      fetched. Unless it failed every announced head is then listed, and it fails
      only on an unreadable op log, a lost connection, a cut apply or an answer to
      some of its heads that cannot be taken. */
  ghost predicate HandledAs(a: PeerAnnounce, m: Meeting, before: Replica.Repo, after: Replica.Repo, h: Handled) {
    && Replica.Sound(after) && Replica.Grows(before, after)
    && (forall x :: Replica.Listed(before, x) ==> Replica.Listed(after, x))
    && (h == Idle ==> after == before) && (!m.connected ==> h != Fetched && after == before)
    && (|a.heads| > MAX_ANNOUNCED_HEADS || !m.sized ==> h == Idle)
    && (|a.heads| <= MAX_ANNOUNCED_HEADS && m.sized && !m.readable ==> h == Failed)
    && (h != Failed && |a.heads| <= MAX_ANNOUNCED_HEADS && m.sized && Roomy(after) ==> AllListed(after, a.heads))
    && (AllListed(before, a.heads) && m.readable ==> h == Idle)
    && (h == Failed && m.readable && m.connected && m.crash.NoCrash? ==> Unanswered(a, m, before))
  }

  /** Some of the announced heads cannot be fetched with what the peer answers. */
  ghost predicate Unanswered(a: PeerAnnounce, m: Meeting, r: Replica.Repo) {
    exists w :: w != [] && (forall x :: x in w ==> x in a.heads) && !Fetchable(r, w, m.answer(w))
  }

  /** Handles one announcement. */
  method HandleAnnounce(repo: ApplyBatch.LocalRepo, a: PeerAnnounce, m: Meeting, ghost truth: OpLog.Ops)
    returns (h: Handled)
    requires Replica.Sound(repo.Value()) && Told(truth, repo.ops) && TellsTruth(truth, m)
    modifies repo
    ensures Told(truth, repo.ops)
    ensures HandledAs(a, m, old(repo.Value()), repo.Value(), h)
  {
    hide Replica.Sound, Replica.Listed, Replica.Grows, Told, TellsTruth, Fetchable, Roomy, KeepsIds;
    ghost var r := repo.Value();
    ApplyBatch.ItselfGrows(r);
    if |a.heads| > MAX_ANNOUNCED_HEADS || !m.sized {
      return Idle;
    }
    if !m.readable {
      return Failed;
    }
    var missing := CheckHeads(repo.Value(), a.heads);
    if Roomy(r) {
      RoomyBefore(r, r);
    }
    if missing == [] {
      return Idle;
    }
    if !m.connected {
      return Failed;
    }
    TruthKeepsIds(truth, repo.ops, m, missing);
    var done := Fetch(repo, missing, m.viewHeads, m.answer(missing), m.crash);
    StillTold(truth, r, repo.Value(), m, missing);
    if Roomy(repo.Value()) {
      RoomyBefore(r, repo.Value());
    }
    h := if done then Fetched else Failed;
  }

  // A whole pass.

  /** What reaches the inbox while announcements are handled. */
  datatype Event =
    | Offering(a: PeerAnnounce)
    | Retracting(peer: Peer, seqNo: nat)
    | Forgetting(peer: Peer)

  function Received(slots: Slots, e: Event): Slots {
    match e
    case Offering(a) => Offered(slots, a.peer, a.seqNo, a.heads)
    case Retracting(p, n) => Retracted(slots, p, n)
    case Forgetting(p) => slots - {p}
  }

  function ReceivedAll(slots: Slots, events: seq<Event>): Slots
    decreases |events|
  {
    if events == [] then slots
    else Received(ReceivedAll(slots, events[..|events| - 1]), events[|events| - 1])
  }

  predicate Brings(e: Event, p: Peer, s: Slot) {
    match e
    case Offering(a) => a.peer == p && s == Slot(a.seqNo, a.heads, false)
    case Retracting(q, n) => q == p && s == Slot(n, [], true)
    case Forgetting(_) => false
  }

  /** A peer's slot is the one it had or one that came in, at the highest sequence of
      them all. */
  ghost predicate LatestOf(slots: Slots, events: seq<Event>, p: Peer, after: Slots) {
    && (p in after ==> (p in slots && after[p] == slots[p]) || exists e :: e in events && Brings(e, p, after[p]))
    && (p in slots ==> p in after && after[p].seqNo >= slots[p].seqNo)
    && (forall e, s :: e in events && Brings(e, p, s) ==> p in after && after[p].seqNo >= s.seqNo)
  }

  lemma ReceivesLatest(slots: Slots, events: seq<Event>, p: Peer, now: Slots, e: Event)
    requires LatestOf(slots, events, p, now) && e != Forgetting(p)
    ensures LatestOf(slots, events + [e], p, Received(now, e))
  {
    var after := Received(now, e);
    assert e in events + [e];
    assert forall x :: x in events + [e] <==> x in events || x == e;
    if p in after && (p in now ==> after[p] != now[p]) {
      assert Brings(e, p, after[p]);
    } else if p in now && !(p in slots && now[p] == slots[p]) {
      var x :| x in events && Brings(x, p, now[p]);
      assert x in events + [e];
    }
  }

  /** Of everything a peer's latest connection brought, and of what was there before
      unless an earlier connection was lost, the highest sequence stays. */
  lemma {:induction false} ReceivedLatest(slots: Slots, events: seq<Event>, k: nat, p: Peer)
    requires k <= |events| && (k > 0 ==> events[k - 1] == Forgetting(p)) && Forgetting(p) !in events[k..]
    ensures LatestOf(if k == 0 then slots else slots - {p}, events[k..], p, ReceivedAll(slots, events))
    decreases |events|
  {
    hide LatestOf, Received;
    var n := |events| - 1;
    if |events| == k {
      NothingBrought(slots, if k == 0 then slots else ReceivedAll(slots, events[..n]), p);
    } else {
      assert events[..n][k..] == events[k..][..n - k] && events[k..][n - k] == events[n];
      assert events[k..] == events[..n][k..] + [events[n]];
      ReceivedLatest(slots, events[..n], k, p);
      ReceivesLatest(if k == 0 then slots else slots - {p}, events[..n][k..], p, ReceivedAll(slots, events[..n]),
                     events[n]);
    }
  }

  lemma NothingBrought(slots: Slots, now: Slots, p: Peer)
    ensures LatestOf(slots, [], p, slots) && LatestOf(slots - {p}, [], p, Received(now, Forgetting(p)))
  {
  }

  /** The slots after handling the announcements in order, `arriving(i)` coming in
      while the i-th is handled. */
  function AfterAll(slots: Slots, waiting: seq<PeerAnnounce>, results: seq<Handled>,
                    arriving: nat -> seq<Event>): Slots
    requires |results| == |waiting|
    decreases |waiting|
  {
    if waiting == [] then slots
    else
      var n := |waiting| - 1;
      var arrived := ReceivedAll(AfterAll(slots, waiting[..n], results[..n], arriving), arriving(n));
      if results[n] == Failed then Requeued(arrived, waiting[n]) else arrived
  }

  lemma AfterOneMore(slots: Slots, waiting: seq<PeerAnnounce>, results: seq<Handled>, h: Handled,
                     arriving: nat -> seq<Event>, i: nat)
    requires i < |waiting| && |results| == i
    ensures AfterAll(slots, waiting[..i + 1], results + [h], arriving) ==
            var arrived := ReceivedAll(AfterAll(slots, waiting[..i], results, arriving), arriving(i));
            if h == Failed then Requeued(arrived, waiting[i]) else arrived
  {
    hide ReceivedAll, Requeued;
    assert waiting[..i + 1][..i] == waiting[..i] && (results + [h])[..i] == results;
  }

  /** Whatever was handled without failing has all its heads listed. */
  ghost predicate HandledListed(r: Replica.Repo, waiting: seq<PeerAnnounce>, results: seq<Handled>,
                                meeting: PeerAnnounce -> Meeting)
  {
    && |results| <= |waiting|
    && (Roomy(r) ==>
          forall i :: 0 <= i < |results| && results[i] != Failed && WellSized(waiting[i], meeting(waiting[i])) ==>
                      AllListed(r, waiting[i].heads))
  }

  lemma HandledOneMore(r: Replica.Repo, r': Replica.Repo, waiting: seq<PeerAnnounce>, results: seq<Handled>, h: Handled,
                       meeting: PeerAnnounce -> Meeting)
    requires HandledListed(r, waiting, results, meeting) && |results| < |waiting|
    requires forall x :: Replica.Listed(r, x) ==> Replica.Listed(r', x)
    requires h != Failed && WellSized(waiting[|results|], meeting(waiting[|results|])) && Roomy(r') ==>
               AllListed(r', waiting[|results|].heads)
    ensures HandledListed(r', waiting, results + [h], meeting)
  {
    hide Replica.Listed, Roomy, WellSized;
    if Roomy(r') {
      RoomyBefore(r, r');
    }
  }

  /** The repo before each announcement of a pass and after the last, each handled
      against the repo as it then was. */
  ghost predicate Handles(repos: seq<Replica.Repo>, waiting: seq<PeerAnnounce>, results: seq<Handled>,
                          meeting: PeerAnnounce -> Meeting)
  {
    && |results| == |waiting| && |repos| == |waiting| + 1
    && forall i :: 0 <= i < |waiting| ==>
         HandledAs(waiting[i], meeting(waiting[i]), repos[i], repos[i + 1], results[i])
  }

  lemma HandlesOneMore(repos: seq<Replica.Repo>, waiting: seq<PeerAnnounce>, results: seq<Handled>, i: nat,
                       after: Replica.Repo, h: Handled, meeting: PeerAnnounce -> Meeting)
    requires i < |waiting| && Handles(repos, waiting[..i], results, meeting)
    requires HandledAs(waiting[i], meeting(waiting[i]), repos[i], after, h)
    ensures Handles(repos + [after], waiting[..i + 1], results + [h], meeting)
  {
    hide HandledAs;
  }

  lemma {:induction false} StaysListed(repos: seq<Replica.Repo>, waiting: seq<PeerAnnounce>, results: seq<Handled>,
                                       meeting: PeerAnnounce -> Meeting, i: nat)
    requires Handles(repos, waiting, results, meeting) && i <= |waiting|
    ensures forall x :: Replica.Listed(repos[0], x) ==> Replica.Listed(repos[i], x)
    decreases i
  {
    hide Replica.Listed, Replica.Sound, Replica.Grows, Roomy, WellSized, AllListed, Unanswered;
    if i > 0 {
      StaysListed(repos, waiting, results, meeting, i - 1);
      assert HandledAs(waiting[i - 1], meeting(waiting[i - 1]), repos[i - 1], repos[i - 1 + 1], results[i - 1]);
    }
  }

  /** An announcement whose heads were all listed when the pass began is left alone,
      if the op log can be read. */
  lemma ListedIsIdle(repos: seq<Replica.Repo>, waiting: seq<PeerAnnounce>, results: seq<Handled>,
                     meeting: PeerAnnounce -> Meeting, i: nat)
    requires Handles(repos, waiting, results, meeting) && i < |waiting|
    requires AllListed(repos[0], waiting[i].heads) && meeting(waiting[i]).readable
    ensures results[i] == Idle && repos[i + 1] == repos[i]
  {
    hide Replica.Listed, Replica.Sound, Replica.Grows, Roomy, WellSized, Unanswered;
    StaysListed(repos, waiting, results, meeting, i);
    assert HandledAs(waiting[i], meeting(waiting[i]), repos[i], repos[i + 1], results[i]);
  }

  /** Nothing stood in the way of handling an announcement. */
  ghost predicate Clean(a: PeerAnnounce, m: Meeting, r: Replica.Repo) {
    WellSized(a, m) ==> m.readable && m.connected && m.crash.NoCrash? && !Unanswered(a, m, r)
  }

  /** When nothing stood in the way, nothing failed. */
  lemma CleanPass(repos: seq<Replica.Repo>, waiting: seq<PeerAnnounce>, results: seq<Handled>,
                  meeting: PeerAnnounce -> Meeting)
    requires Handles(repos, waiting, results, meeting)
    requires forall i :: 0 <= i < |waiting| ==> Clean(waiting[i], meeting(waiting[i]), repos[i])
    ensures Failed !in results
  {
    hide Replica.Listed, Replica.Sound, Replica.Grows, Roomy, Unanswered, AllListed;
    forall i | 0 <= i < |results| ensures results[i] != Failed {
      assert HandledAs(waiting[i], meeting(waiting[i]), repos[i], repos[i + 1], results[i]);
      assert Clean(waiting[i], meeting(waiting[i]), repos[i]);
    }
  }

  /** Drains the inbox and handles every announcement against the repo; reports
      whether operations were fetched and whether a retry is due: never when nothing
      stood in the way. */
  method DrainAnnouncements(inbox: Inbox, repo: ApplyBatch.LocalRepo, meeting: PeerAnnounce -> Meeting,
                            arriving: nat -> seq<Event>, ghost truth: OpLog.Ops)
    returns (synced: bool, retry: bool, ghost results: seq<Handled>, ghost repos: seq<Replica.Repo>)
    requires Replica.Sound(repo.Value()) && Told(truth, repo.ops)
    requires forall a :: TellsTruth(truth, meeting(a))
    modifies inbox, repo
    ensures |results| == |Waiting(old(inbox.slots), Sorted.Keys(old(inbox.slots).Keys))|
    ensures inbox.slots == AfterAll(Drained(old(inbox.slots)),
                                    Waiting(old(inbox.slots), Sorted.Keys(old(inbox.slots).Keys)), results, arriving)
    ensures Handles(repos, Waiting(old(inbox.slots), Sorted.Keys(old(inbox.slots).Keys)), results, meeting)
    ensures repos[0] == old(repo.Value()) && repos[|results|] == repo.Value()
    ensures synced == (Fetched in results) && retry == (Failed in results)
    ensures var waiting := Waiting(old(inbox.slots), Sorted.Keys(old(inbox.slots).Keys));
            (forall i :: 0 <= i < |waiting| ==> Clean(waiting[i], meeting(waiting[i]), repos[i])) ==> !retry
    ensures Replica.Sound(repo.Value()) && Told(truth, repo.ops) && Replica.Grows(old(repo.Value()), repo.Value())
    ensures forall x :: old(Replica.Listed(repo.Value(), x)) ==> Replica.Listed(repo.Value(), x)
    ensures HandledListed(repo.Value(), Waiting(old(inbox.slots), Sorted.Keys(old(inbox.slots).Keys)), results, meeting)
  {
    hide Replica.Sound, Replica.Listed, Replica.Grows, Told, TellsTruth, Fetchable, Roomy, AfterAll, AllListed, Waiting,
      Drained, ReceivedAll, Requeued, HandledListed, WellSized, Sorted.Keys, HandledAs, Handles, Clean;
    ghost var r := repo.Value();
    ApplyBatch.ItselfGrows(r);
    var waiting := inbox.Drain();
    ghost var start := inbox.slots;
    synced, retry, results, repos := false, false, [], [r];
    NothingHandled(start, waiting, arriving, r, meeting);
    for i := 0 to |waiting|
      invariant |results| == i && inbox.slots == AfterAll(start, waiting[..i], results, arriving)
      invariant synced == (Fetched in results) && retry == (Failed in results)
      invariant Replica.Sound(repo.Value()) && Told(truth, repo.ops) && Replica.Grows(r, repo.Value())
      invariant forall x :: Replica.Listed(r, x) ==> Replica.Listed(repo.Value(), x)
      invariant HandledListed(repo.Value(), waiting, results, meeting)
      invariant Handles(repos, waiting[..i], results, meeting)
      invariant |repos| == i + 1 && repos[0] == r && repos[i] == repo.Value()
    {
      ghost var before := repo.Value();
      Receive(inbox, arriving(i));
      var h := HandleAnnounce(repo, waiting[i], meeting(waiting[i]), truth);
      HandledFacts(waiting[i], meeting(waiting[i]), before, repo.Value(), h);
      GrowsOn(r, before, repo.Value());
      HandlesOneMore(repos, waiting, results, i, repo.Value(), h, meeting);
      repos := repos + [repo.Value()];
      HandledOneMore(before, repo.Value(), waiting, results, h, meeting);
      AfterOneMore(start, waiting, results, h, arriving, i);
      match h {
        case Fetched => synced := true;
        case Failed =>
          inbox.Requeue(waiting[i]);
          retry := true;
        case Idle =>
      }
      results := results + [h];
    }
    assert waiting[..|waiting|] == waiting;
    if forall i :: 0 <= i < |waiting| ==> Clean(waiting[i], meeting(waiting[i]), repos[i]) {
      CleanPass(repos, waiting, results, meeting);
    }
  }

  lemma HandledFacts(a: PeerAnnounce, m: Meeting, before: Replica.Repo, after: Replica.Repo, h: Handled)
    requires HandledAs(a, m, before, after, h)
    ensures Replica.Sound(after) && Replica.Grows(before, after)
    ensures forall x :: Replica.Listed(before, x) ==> Replica.Listed(after, x)
    ensures h != Failed && WellSized(a, m) && Roomy(after) ==> AllListed(after, a.heads)
  {
    hide Replica.Listed, Replica.Sound, Replica.Grows, Roomy, Unanswered, AllListed;
  }

  lemma NothingHandled(slots: Slots, waiting: seq<PeerAnnounce>, arriving: nat -> seq<Event>, r: Replica.Repo,
                       meeting: PeerAnnounce -> Meeting)
    ensures AfterAll(slots, waiting[..0], [], arriving) == slots
    ensures HandledListed(r, waiting, [], meeting) && Handles([r], waiting[..0], [], meeting)
  {
  }

  method Receive(inbox: Inbox, events: seq<Event>)
    modifies inbox
    ensures inbox.slots == ReceivedAll(old(inbox.slots), events)
  {
    for i := 0 to |events|
      invariant inbox.slots == ReceivedAll(old(inbox.slots), events[..i])
    {
      assert events[..i + 1][..i] == events[..i];
      match events[i] {
        case Offering(a) => inbox.Offer(a.peer, a.seqNo, a.heads);
        case Retracting(p, n) => inbox.Retract(p, n);
        case Forgetting(p) => inbox.Forget(p);
      }
    }
    assert events[..|events|] == events;
  }

  // What becomes of one announcement.

  /** A peer's slot moved on, to a waiting announcement or a retraction, or did not
      move. */
  ghost predicate Onward(before: Slots, after: Slots, p: Peer) {
    p in before ==>
      p in after && (after[p] == before[p]
                     || (after[p].seqNo > before[p].seqNo && (!after[p].drained || after[p].heads == [])))
  }

  lemma {:induction false} EventsOnward(slots: Slots, events: seq<Event>, p: Peer)
    requires Forgetting(p) !in events
    ensures Onward(slots, ReceivedAll(slots, events), p)
    decreases |events|
  {
    if events != [] {
      EventsOnward(slots, events[..|events| - 1], p);
      assert events[|events| - 1] in events;
    }
  }

  /** The slot of a drained announcement: superseded by a waiting one or by a
      retraction, or still its own and waiting exactly when `failed`. */
  ghost predicate Settled(slots: Slots, a: PeerAnnounce, failed: bool) {
    && a.peer in slots
    && (slots[a.peer].seqNo == a.seqNo ==> slots[a.peer] == Slot(a.seqNo, a.heads, !failed))
    && slots[a.peer].seqNo >= a.seqNo
    && (slots[a.peer].seqNo > a.seqNo ==> !slots[a.peer].drained || slots[a.peer].heads == [])
  }

  lemma SettledOnward(before: Slots, after: Slots, a: PeerAnnounce, failed: bool)
    requires Settled(before, a, failed) && Onward(before, after, a.peer)
    ensures Settled(after, a, failed)
  {
  }

  ghost predicate OnePerPeer(waiting: seq<PeerAnnounce>) {
    forall i, j :: 0 <= i < j < |waiting| ==> waiting[i].peer != waiting[j].peer
  }

  /** The peer's connection stays up while the first `n` announcements are handled. */
  ghost predicate StaysConnected(arriving: nat -> seq<Event>, n: nat, p: Peer) {
    forall i :: 0 <= i < n ==> Forgetting(p) !in arriving(i)
  }

  /** After the pass every announcement handed out is settled: failed ones wait
      again, unless a newer announcement of the same peer waits instead or a
      retraction came. */
  lemma {:induction false} AllSettled(slots: Slots, waiting: seq<PeerAnnounce>, results: seq<Handled>,
                                      arriving: nat -> seq<Event>, k: nat, n: nat)
    requires |results| == |waiting| && OnePerPeer(waiting) && k < |waiting| && n <= |waiting|
    requires Settled(slots, waiting[k], false) && StaysConnected(arriving, |waiting|, waiting[k].peer)
    ensures Settled(AfterAll(slots, waiting[..n], results[..n], arriving), waiting[k], k < n && results[k] == Failed)
    decreases n
  {
    hide ReceivedAll;
    if n > 0 {
      AllSettled(slots, waiting, results, arriving, k, n - 1);
      assert waiting[..n][..n - 1] == waiting[..n - 1] && results[..n][..n - 1] == results[..n - 1];
      var before := AfterAll(slots, waiting[..n - 1], results[..n - 1], arriving);
      var arrived := ReceivedAll(before, arriving(n - 1));
      EventsOnward(before, arriving(n - 1), waiting[k].peer);
      SettledOnward(before, arrived, waiting[k], k < n - 1 && results[k] == Failed);
    }
  }

  /** Draining hands out at most one announcement per peer, each settled. */
  lemma {:induction false} WaitingOnePerPeer(slots: Slots, peers: seq<Peer>, s: set<Peer>)
    requires Enumerates(peers, s) && s <= slots.Keys
    ensures OnePerPeer(Waiting(slots, peers))
    decreases |peers|
  {
    if peers != [] {
      var n := |peers| - 1;
      EnumeratesPrefix(peers, s);
      WaitingOnePerPeer(slots, peers[..n], s - {peers[n]});
      WaitingExact(slots, peers[..n]);
      var before := Waiting(slots, peers[..n]);
      assert forall i :: 0 <= i < |before| ==> before[i] in before;
    }
  }

  lemma DrainedSettled(slots: Slots, a: PeerAnnounce)
    requires a.peer in slots && a.seqNo == slots[a.peer].seqNo && a.heads == slots[a.peer].heads
    ensures Settled(Drained(slots), a, false)
  {
  }

  /** A failed announcement is handed out again by the next drain, unless a newer
      one of its peer is or a retraction came; a handled one is not. */
  lemma FailedWaitAgain(slots: Slots, results: seq<Handled>, arriving: nat -> seq<Event>, k: nat)
    requires |results| == |Waiting(slots, Sorted.Keys(slots.Keys))| && k < |results|
    requires StaysConnected(arriving, |results|, Waiting(slots, Sorted.Keys(slots.Keys))[k].peer)
    ensures var waiting := Waiting(slots, Sorted.Keys(slots.Keys));
            Settled(AfterAll(Drained(slots), waiting, results, arriving), waiting[k], results[k] == Failed)
  {
    hide *;
    var peers := Sorted.Keys(slots.Keys);
    var waiting := Waiting(slots, peers);
    Sorted.KeysEnumerate(slots.Keys);
    WaitingOnePerPeer(slots, peers, slots.Keys);
    WaitingExact(slots, peers);
    assert waiting[k] in waiting;
    DrainedSettled(slots, waiting[k]);
    AllSettled(Drained(slots), waiting, results, arriving, k, |waiting|);
    assert waiting[..|waiting|] == waiting && results[..|waiting|] == results;
  }
}
