/** Merging memberships: the parts of a merge, what any run of deliveries ends
    in, and when merging again changes nothing. */
module GossipMerge {
  import opened Collections
  import opened Order
  import opened Registers
  import opened Claims
  import opened MeshModel
  import opened MeshValid
  import opened RankMaps
  import Sorted

  /** The records of a membership that may be stored under other machines. */
  function PeerOffer(m: map<EndpointId, Record>, local: EndpointId): map<EndpointId, Record> {
    map e | e in m && e != local && PeerStorable(m[e]) :: m[e]
  }

  function RepoOffer(m: map<Name, Record>): map<Name, Record> {
    map n | n in m && RepoStorable(n, m[n]) :: m[n]
  }

  /** Our own record after the copy in a membership, if any, is observed. */
  function Observed(machine: Machine, m: map<EndpointId, Record>, local: EndpointId): Machine
    requires machine.version < MAX_RECORD_VERSION
  {
    if local in m && m[local].version < MAX_RECORD_VERSION then ObserveMachine(machine, m[local]) else machine
  }

  lemma {:induction false} PeersPart(s: State, local: EndpointId, m: map<EndpointId, Record>, keys: seq<EndpointId>)
    requires BelowCeiling(s) && forall e :: e in keys ==> e in m
    ensures MergePeers(s, local, m, keys).peers ==
            AdoptAll(s.peers, PeerOffer(m, local), keys, MAX_OTHER_PEERS)
    ensures MergePeers(s, local, m, keys).machine ==
            if local in keys then Observed(s.machine, m, local) else s.machine
    decreases |keys|
  {
    hide Adopt, PeerStorable;
    if keys != [] {
      var n := |keys| - 1;
      PeersPart(s, local, m, keys[..n]);
      assert local in keys <==> local in keys[..n] || local == keys[n];
      PeerPart(MergePeers(s, local, m, keys[..n]), local, keys[n], m[keys[n]], s.machine);
      assert keys[n] in PeerOffer(m, local) <==> keys[n] != local && PeerStorable(m[keys[n]]);
    }
  }

  lemma PeerPart(s: State, local: EndpointId, e: EndpointId, rec: Record, machine: Machine)
    requires s.machine.version < MAX_RECORD_VERSION && machine.version < MAX_RECORD_VERSION
    requires e == local && rec.version < MAX_RECORD_VERSION ==>
               s.machine == machine || s.machine == ObserveMachine(machine, rec)
    ensures e != local && PeerStorable(rec) ==>
              PeerStep(s, local, e, rec).peers == Adopt(s.peers, e, rec, MAX_OTHER_PEERS)
    ensures e == local || !PeerStorable(rec) ==> PeerStep(s, local, e, rec).peers == s.peers
    ensures e != local || rec.version >= MAX_RECORD_VERSION ==> PeerStep(s, local, e, rec).machine == s.machine
    ensures e == local && rec.version < MAX_RECORD_VERSION ==>
              PeerStep(s, local, e, rec).machine == ObserveMachine(machine, rec)
  {
    hide Adopt;
  }

  lemma {:induction false} ReposPart(s: State, m: map<Name, Record>, keys: seq<Name>)
    requires BelowCeiling(s) && forall n :: n in keys ==> n in m
    ensures MergeRepos(s, m, keys).meshRepos == AdoptAll(s.meshRepos, RepoOffer(m), keys, MAX_MESH_REPOS)
    decreases |keys|
  {
    hide RepoStep, Adopt, RepoStorable;
    if keys != [] {
      var n := |keys| - 1;
      ReposPart(s, m, keys[..n]);
      RepoPart(MergeRepos(s, m, keys[..n]), keys[n], m[keys[n]]);
      assert keys[n] in RepoOffer(m) <==> RepoStorable(keys[n], m[keys[n]]);
    }
  }

  lemma RepoPart(s: State, n: Name, rec: Record)
    ensures RepoStep(s, n, rec).meshRepos ==
            if RepoStorable(n, rec) then Adopt(s.meshRepos, n, rec, MAX_MESH_REPOS) else s.meshRepos
    ensures !RepoStorable(n, rec) || !ShouldAdopt(s.meshRepos, n, rec, MAX_MESH_REPOS) ==> RepoStep(s, n, rec) == s
  {
    hide RepoStorable, ShouldAdopt, Set;
  }

  /** The merged peers, own record and mesh list. */
  lemma MergeParts(s: State, r: Membership, local: EndpointId)
    requires BelowCeiling(s)
    ensures Merge(s, r, local).peers ==
            AdoptAll(s.peers, PeerOffer(r.peers, local), Sorted.Keys(r.peers.Keys), MAX_OTHER_PEERS)
    ensures Merge(s, r, local).machine == Observed(s.machine, r.peers, local)
    ensures Merge(s, r, local).meshRepos ==
            AdoptAll(s.meshRepos, RepoOffer(r.repos), Order.Sorted(r.repos.Keys), MAX_MESH_REPOS)
  {
    hide Sorted.Keys, Order.Sorted, MergePeers, MergeRepos, MergeClaims, AdoptAll;
    var pk, rk := Sorted.Keys(r.peers.Keys), Order.Sorted(r.repos.Keys);
    PeersPart(s, local, r.peers, pk);
    ReposPart(MergePeers(s, local, r.peers, pk), r.repos, rk);
  }

  // Any run of deliveries.

  /** The state after a run of deliveries. */
  ghost function MergeRun(s: State, rs: seq<Membership>, local: EndpointId): (t: State)
    requires BelowCeiling(s)
    ensures BelowCeiling(t)
    decreases |rs|
  {
    if rs == [] then s else Merge(MergeRun(s, rs[..|rs| - 1], local), rs[|rs| - 1], local)
  }

  ghost function PeerOffers(rs: set<Membership>, local: EndpointId): set<map<EndpointId, Record>> {
    set r | r in rs :: PeerOffer(r.peers, local)
  }

  ghost function RepoOffers(rs: set<Membership>): set<map<Name, Record>> {
    set r | r in rs :: RepoOffer(r.repos)
  }

  ghost function AllKeys<K>(offers: set<map<K, Record>>): set<K> {
    set o, k | o in offers && k in o :: k
  }

  /** The version our own record needs against a copy of it. */
  function Needed(name: Name, copy: Record): nat {
    Min(if copy.value.Some? && copy.value.value != name then copy.version + 1 else copy.version,
        MAX_RECORD_VERSION - 1)
  }

  ghost function AllNeeded(name: Name, rs: set<Membership>, local: EndpointId): set<nat> {
    set r | r in rs && local in r.peers && r.peers[local].version < MAX_RECORD_VERSION :: Needed(name, r.peers[local])
  }

  ghost predicate IsMax(top: nat, own: nat, needed: set<nat>) {
    top >= own && (forall n :: n in needed ==> top >= n) && (top == own || top in needed)
  }

  /** Whether the caps leave room for everything held and delivered. */
  ghost predicate Room(s: State, rs: set<Membership>, local: EndpointId) {
    && |s.peers.Keys + AllKeys(PeerOffers(rs, local))| <= MAX_OTHER_PEERS
    && |s.meshRepos.Keys + AllKeys(RepoOffers(rs))| <= MAX_MESH_REPOS
  }

  /** The rank-maximum of what was held and delivered. */
  ghost predicate IsBestState(t: State, s: State, rs: set<Membership>, local: EndpointId) {
    && IsBest(t.peers, s.peers, PeerOffers(rs, local))
    && IsBest(t.meshRepos, s.meshRepos, RepoOffers(rs))
    && t.machine.name == s.machine.name
    && IsMax(t.machine.version, s.machine.version, AllNeeded(s.machine.name, rs, local))
  }

  lemma BestKeys<K(!new)>(best: map<K, Record>, held: map<K, Record>, offers: set<map<K, Record>>)
    requires IsBest(best, held, offers)
    ensures best.Keys <= held.Keys + AllKeys(offers)
  {
    forall k | k in best ensures k in held.Keys + AllKeys(offers) {
      if k !in held {
        var o :| o in offers && k in o && best[k] == o[k];
      }
    }
  }

  /** One more delivery within the caps joins its offer. */
  lemma AdoptOneMore<K(!new)>(best: map<K, Record>, held: map<K, Record>, offers: set<map<K, Record>>,
                              o: map<K, Record>, all: set<map<K, Record>>, keys: seq<K>, ks: set<K>, cap: nat)
    requires IsBest(best, held, offers) && Enumerates(keys, ks) && o.Keys <= ks
    requires offers <= all && o in all && |held.Keys + AllKeys(all)| <= cap
    ensures IsBest(AdoptAll(best, o, keys, cap), held, offers + {o})
  {
    hide IsBest, AdoptAll, Enumerates;
    BestKeys(best, held, offers);
    assert best.Keys + o.Keys <= held.Keys + AllKeys(all);
    SubsetSize(best.Keys + o.Keys, held.Keys + AllKeys(all));
    AdoptedIsJoin(best, o, keys, ks, cap);
    BestOneMore(best, held, offers, o);
  }

  lemma ObserveNeeded(top: nat, own: nat, needed: set<nat>, machine: Machine, copy: Record)
    requires IsMax(top, own, needed) && machine.version == top && top < MAX_RECORD_VERSION
    ensures ObserveMachine(machine, copy).version == Max(top, Needed(machine.name, copy))
    ensures IsMax(ObserveMachine(machine, copy).version, own, needed + {Needed(machine.name, copy)})
  {
  }

  lemma {:induction false} DeliveriesBest(s: State, rs: seq<Membership>, all: set<Membership>, local: EndpointId)
    requires BelowCeiling(s) && Elems(rs) <= all && Room(s, all, local)
    ensures IsBestState(MergeRun(s, rs, local), s, Elems(rs), local)
    decreases |rs|
  {
    if rs == [] {
      NoDeliveries(s, local);
      assert Elems(rs) == {};
    } else {
      var n := |rs| - 1;
      hide Merge, IsBestState, Room, BelowCeiling;
      LastDelivery(rs, n);
      DeliveriesBest(s, rs[..n], all, local);
      DeliverOneMore(MergeRun(s, rs[..n], local), s, Elems(rs[..n]), rs[n], all, local);
    }
  }

  lemma LastDelivery(rs: seq<Membership>, n: nat)
    requires |rs| == n + 1
    ensures Elems(rs) == Elems(rs[..n]) + {rs[n]} && Elems(rs[..n]) <= Elems(rs)
  {
    assert rs == rs[..n] + [rs[n]];
  }

  lemma NoDeliveries(s: State, local: EndpointId)
    ensures IsBestState(s, s, {}, local)
  {
    BestNone(s.peers);
    BestNone(s.meshRepos);
    assert PeerOffers({}, local) == {} && RepoOffers({}) == {} && AllNeeded(s.machine.name, {}, local) == {};
    hide IsBest;
  }

  lemma DeliverOneMore(t: State, s: State, rs: set<Membership>, r: Membership, all: set<Membership>,
                       local: EndpointId)
    requires BelowCeiling(t) && IsBestState(t, s, rs, local) && rs <= all && r in all && Room(s, all, local)
    ensures IsBestState(Merge(t, r, local), s, rs + {r}, local)
  {
    MergeParts(t, r, local);
    PeersOneDelivery(t, s, rs, r, all, local);
    ReposOneDelivery(t, s, rs, r, all, local);
    OwnOneDelivery(t, s, rs, r, local);
    hide Merge, IsBest, IsMax, AdoptAll, Observed, PeerOffers, RepoOffers, AllNeeded, Room;
  }

  lemma RoomOf(s: State, rs: set<Membership>, local: EndpointId)
    requires Room(s, rs, local)
    ensures |s.peers.Keys + AllKeys(PeerOffers(rs, local))| <= MAX_OTHER_PEERS
    ensures |s.meshRepos.Keys + AllKeys(RepoOffers(rs))| <= MAX_MESH_REPOS
  {
  }

  lemma BestMapsOf(t: State, s: State, rs: set<Membership>, local: EndpointId)
    requires IsBestState(t, s, rs, local)
    ensures IsBest(t.peers, s.peers, PeerOffers(rs, local)) && IsBest(t.meshRepos, s.meshRepos, RepoOffers(rs))
  {
  }

  lemma PeerOffersMore(rs: set<Membership>, r: Membership, all: set<Membership>, local: EndpointId)
    requires rs <= all && r in all
    ensures PeerOffers(rs + {r}, local) == PeerOffers(rs, local) + {PeerOffer(r.peers, local)}
    ensures PeerOffers(rs, local) <= PeerOffers(all, local) && PeerOffer(r.peers, local) in PeerOffers(all, local)
    ensures PeerOffer(r.peers, local).Keys <= r.peers.Keys
  {
  }

  lemma RepoOffersMore(rs: set<Membership>, r: Membership, all: set<Membership>)
    requires rs <= all && r in all
    ensures RepoOffers(rs + {r}) == RepoOffers(rs) + {RepoOffer(r.repos)}
    ensures RepoOffers(rs) <= RepoOffers(all) && RepoOffer(r.repos) in RepoOffers(all)
    ensures RepoOffer(r.repos).Keys <= r.repos.Keys
  {
  }

  lemma PeersOneDelivery(t: State, s: State, rs: set<Membership>, r: Membership, all: set<Membership>,
                         local: EndpointId)
    requires IsBestState(t, s, rs, local) && rs <= all && r in all && Room(s, all, local)
    ensures IsBest(AdoptAll(t.peers, PeerOffer(r.peers, local), Sorted.Keys(r.peers.Keys), MAX_OTHER_PEERS), s.peers,
                   PeerOffers(rs + {r}, local))
  {
    RoomOf(s, all, local);
    PeerOffersMore(rs, r, all, local);
    Sorted.KeysEnumerate(r.peers.Keys);
    BestMapsOf(t, s, rs, local);
    hide *;
    var o := PeerOffer(r.peers, local);
    AdoptOneMore(t.peers, s.peers, PeerOffers(rs, local), o, PeerOffers(all, local), Sorted.Keys(r.peers.Keys),
                 r.peers.Keys, MAX_OTHER_PEERS);
  }

  lemma ReposOneDelivery(t: State, s: State, rs: set<Membership>, r: Membership, all: set<Membership>,
                         local: EndpointId)
    requires IsBestState(t, s, rs, local) && rs <= all && r in all && Room(s, all, local)
    ensures IsBest(AdoptAll(t.meshRepos, RepoOffer(r.repos), Order.Sorted(r.repos.Keys), MAX_MESH_REPOS), s.meshRepos,
                   RepoOffers(rs + {r}))
  {
    RoomOf(s, all, local);
    RepoOffersMore(rs, r, all);
    SortedEnumerate(r.repos.Keys);
    BestMapsOf(t, s, rs, local);
    hide *;
    var o := RepoOffer(r.repos);
    AdoptOneMore(t.meshRepos, s.meshRepos, RepoOffers(rs), o, RepoOffers(all), Order.Sorted(r.repos.Keys),
                 r.repos.Keys, MAX_MESH_REPOS);
  }

  lemma OwnOneDelivery(t: State, s: State, rs: set<Membership>, r: Membership, local: EndpointId)
    requires BelowCeiling(t) && IsBestState(t, s, rs, local)
    ensures Observed(t.machine, r.peers, local).name == s.machine.name
    ensures IsMax(Observed(t.machine, r.peers, local).version, s.machine.version,
                  AllNeeded(s.machine.name, rs + {r}, local))
  {
    hide IsBest, Needed;
    var name, needed := s.machine.name, AllNeeded(s.machine.name, rs, local);
    if local in r.peers && r.peers[local].version < MAX_RECORD_VERSION {
      ObserveNeeded(t.machine.version, s.machine.version, needed, t.machine, r.peers[local]);
      assert AllNeeded(name, rs + {r}, local) == needed + {Needed(name, r.peers[local])};
    } else {
      assert AllNeeded(name, rs + {r}, local) == needed;
    }
  }

  /** Within the caps, the peers, the mesh list and the own record do not depend
      on the order of the deliveries nor on their repetition. */
  lemma OrderIrrelevant(s: State, xs: seq<Membership>, ys: seq<Membership>, local: EndpointId)
    requires BelowCeiling(s) && Elems(xs) == Elems(ys) && Room(s, Elems(xs), local)
    ensures MergeRun(s, xs, local).peers == MergeRun(s, ys, local).peers
    ensures MergeRun(s, xs, local).meshRepos == MergeRun(s, ys, local).meshRepos
    ensures MergeRun(s, xs, local).machine == MergeRun(s, ys, local).machine
  {
    hide MergeRun, IsBest, Room, Elems, PeerOffers, RepoOffers, AllNeeded;
    var rs := Elems(xs);
    DeliveriesBest(s, xs, rs, local);
    DeliveriesBest(s, ys, rs, local);
    var a, b := MergeRun(s, xs, local), MergeRun(s, ys, local);
    BestUnique(a.peers, b.peers, s.peers, PeerOffers(rs, local));
    BestUnique(a.meshRepos, b.meshRepos, s.meshRepos, RepoOffers(rs));
  }

  /** A membership carrying the join of two others is as good as both: relaying
      through machines does not change what is learned. */
  lemma Relayed(s: State, x: Membership, y: Membership, both: Membership, local: EndpointId)
    requires BelowCeiling(s)
    requires PeerOffer(both.peers, local) == Join(PeerOffer(x.peers, local), PeerOffer(y.peers, local))
    requires RepoOffer(both.repos) == Join(RepoOffer(x.repos), RepoOffer(y.repos))
    requires |s.peers.Keys + PeerOffer(x.peers, local).Keys + PeerOffer(y.peers, local).Keys| <= MAX_OTHER_PEERS
    requires |s.meshRepos.Keys + RepoOffer(x.repos).Keys + RepoOffer(y.repos).Keys| <= MAX_MESH_REPOS
    ensures Merge(Merge(s, x, local), y, local).peers == Merge(s, both, local).peers
    ensures Merge(Merge(s, x, local), y, local).meshRepos == Merge(s, both, local).meshRepos
  {
    MergeParts(s, x, local);
    MergeParts(Merge(s, x, local), y, local);
    MergeParts(s, both, local);
    RelayedPeers(s.peers, x.peers, y.peers, both.peers, local);
    RelayedRepos(s.meshRepos, x.repos, y.repos, both.repos);
    hide *;
  }

  lemma RelayedPeers(held: map<EndpointId, Record>, x: map<EndpointId, Record>, y: map<EndpointId, Record>,
                     both: map<EndpointId, Record>, local: EndpointId)
    requires PeerOffer(both, local) == Join(PeerOffer(x, local), PeerOffer(y, local))
    requires |held.Keys + PeerOffer(x, local).Keys + PeerOffer(y, local).Keys| <= MAX_OTHER_PEERS
    ensures AdoptAll(AdoptAll(held, PeerOffer(x, local), Sorted.Keys(x.Keys), MAX_OTHER_PEERS),
                     PeerOffer(y, local), Sorted.Keys(y.Keys), MAX_OTHER_PEERS)
         == AdoptAll(held, PeerOffer(both, local), Sorted.Keys(both.Keys), MAX_OTHER_PEERS)
  {
    Sorted.KeysEnumerate(x.Keys);
    Sorted.KeysEnumerate(y.Keys);
    Sorted.KeysEnumerate(both.Keys);
    hide AdoptAll, Join, Sorted.Keys, Enumerates, PeerStorable;
    AdoptGrouped(held, PeerOffer(x, local), PeerOffer(y, local), Sorted.Keys(x.Keys), x.Keys, Sorted.Keys(y.Keys),
                 y.Keys, Sorted.Keys(both.Keys), both.Keys, MAX_OTHER_PEERS);
  }

  lemma RelayedRepos(held: map<Name, Record>, x: map<Name, Record>, y: map<Name, Record>, both: map<Name, Record>)
    requires RepoOffer(both) == Join(RepoOffer(x), RepoOffer(y))
    requires |held.Keys + RepoOffer(x).Keys + RepoOffer(y).Keys| <= MAX_MESH_REPOS
    ensures AdoptAll(AdoptAll(held, RepoOffer(x), Order.Sorted(x.Keys), MAX_MESH_REPOS),
                     RepoOffer(y), Order.Sorted(y.Keys), MAX_MESH_REPOS)
         == AdoptAll(held, RepoOffer(both), Order.Sorted(both.Keys), MAX_MESH_REPOS)
  {
    SortedEnumerate(x.Keys);
    SortedEnumerate(y.Keys);
    SortedEnumerate(both.Keys);
    hide AdoptAll, Join, Order.Sorted, Enumerates, RepoStorable;
    AdoptGrouped(held, RepoOffer(x), RepoOffer(y), Order.Sorted(x.Keys), x.Keys, Order.Sorted(y.Keys), y.Keys,
                 Order.Sorted(both.Keys), both.Keys, MAX_MESH_REPOS);
  }
}
