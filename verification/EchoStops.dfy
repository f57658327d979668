/** Gossip stops: with no local change, every merge that changes a state uses up
    a bounded amount of change, so a mesh of machines exchanging memberships
    settles. */
module EchoStops {
  import opened Collections
  import opened Order
  import opened Registers
  import opened Claims
  import opened MeshModel
  import opened MeshValid
  import opened RankMaps
  import opened GossipMerge
  import opened Remerge
  import Sorted

  /** What circulates: endpoints, machine names, repo names, repo ids and claims. */
  datatype Universe = Universe(
    endpoints: set<EndpointId>, names: set<Option<string>>, repos: set<Name>, ids: set<Option<string>>,
    claims: set<map<RepoId, set<Name>>>)

  /** Releasing a repo stays within the circulating claims. */
  ghost predicate ReleaseClosed(u: Universe) {
    forall c, id :: c in u.claims ==> Put(c, id, {}) in u.claims
  }

  ghost predicate RecordsWithin<K(!new)>(m: map<K, Record>, keys: set<K>, values: set<Option<string>>) {
    m.Keys <= keys && forall k :: k in m ==> m[k].value in values
  }

  ghost predicate ClaimsWithin(m: map<EndpointId, WorkspaceClaims>, u: Universe) {
    m.Keys <= u.endpoints && forall e :: e in m ==> m[e].repos in u.claims
  }

  ghost predicate Within(s: State, u: Universe) {
    && Some(s.machine.name) in u.names && s.claims.repos in u.claims
    && RecordsWithin(s.peers, u.endpoints, u.names)
    && RecordsWithin(s.meshRepos, u.repos, u.ids)
    && ClaimsWithin(s.peerClaims, u)
  }

  ghost predicate MembershipWithin(r: Membership, u: Universe) {
    && RecordsWithin(r.peers, u.endpoints, u.names)
    && RecordsWithin(r.repos, u.repos, u.ids)
    && ClaimsWithin(r.claims, u)
  }

  // What is left to change.

  /** Records that would still outrank the held one. */
  ghost function Gap<K(!new)>(held: map<K, Record>, keys: set<K>, values: set<Option<string>>): set<(K, Record)> {
    set k, v: nat, x | k in keys && v < MAX_RECORD_VERSION && x in values
      && (k !in held || Outranks(Record(v, x), held[k])) :: (k, Record(v, x))
  }

  ghost function ClaimPairs(u: Universe): set<(EndpointId, WorkspaceClaims)> {
    set e, v: nat, c | e in u.endpoints && v < MAX_RECORD_VERSION && c in u.claims :: (e, WorkspaceClaims(v, c))
  }

  ghost function ClaimGap(held: map<EndpointId, WorkspaceClaims>, u: Universe): set<(EndpointId, WorkspaceClaims)> {
    set p | p in ClaimPairs(u) && (p.0 !in held || ClaimsOutrank(p.1, held[p.0]))
  }

  ghost function RecordsLeft(s: State, u: Universe): nat {
    |Gap(s.peers, u.endpoints, u.names)| + |Gap(s.meshRepos, u.repos, u.ids)|
  }

  ghost function ClaimsLeft(s: State, u: Universe): nat
    requires BelowCeiling(s)
  {
    (MAX_RECORD_VERSION - s.machine.version) + (MAX_RECORD_VERSION - s.claims.version) + |ClaimGap(s.peerClaims, u)|
  }

  /** The bounded amount of change a state can still undergo. A changed peer may
      drop claims, so the records weigh more than all the claims together. */
  ghost function Left(s: State, u: Universe): nat
    requires BelowCeiling(s)
  {
    RecordsLeft(s, u) * (|ClaimPairs(u)| + 1) + ClaimsLeft(s, u)
  }

  lemma GapShrinks<K(!new)>(before: map<K, Record>, after: map<K, Record>, keys: set<K>, values: set<Option<string>>)
    requires Grown(before, after)
    ensures Gap(after, keys, values) <= Gap(before, keys, values)
    ensures |Gap(after, keys, values)| <= |Gap(before, keys, values)|
  {
    RecordsRanked();
    hide Outranks;
    forall p | p in Gap(after, keys, values) ensures p in Gap(before, keys, values) {
      if p.0 in before {
        assert AtLeast(after[p.0], before[p.0]);
      }
    }
    SubsetSize(Gap(after, keys, values), Gap(before, keys, values));
  }

  lemma InGap<K(!new)>(held: map<K, Record>, keys: set<K>, values: set<Option<string>>, k: K, rec: Record)
    requires k in keys && rec.version < MAX_RECORD_VERSION && rec.value in values
    ensures (k, rec) in Gap(held, keys, values) <==> (k !in held || Outranks(rec, held[k]))
  {
    hide Outranks;
    assert rec == Record(rec.version, rec.value);
  }

  /** A changed map has used up one of the records it could still adopt. */
  lemma GapUsed<K(!new)>(before: map<K, Record>, after: map<K, Record>, keys: set<K>, values: set<Option<string>>)
    requires Grown(before, after) && before != after && RecordsWithin(after, keys, values)
    requires forall k :: k in after && (k !in before || after[k] != before[k]) ==> after[k].version < MAX_RECORD_VERSION
    ensures |Gap(after, keys, values)| < |Gap(before, keys, values)|
  {
    hide Gap, Outranks, Grown;
    GapShrinks(before, after, keys, values);
    RecordsRanked();
    var k := ChangedKey(before, after);
    InGap(before, keys, values, k, after[k]);
    InGap(after, keys, values, k, after[k]);
    SubsetSize(Gap(after, keys, values), Gap(before, keys, values) - {(k, after[k])});
  }

  lemma ChangedKey<K(!new)>(before: map<K, Record>, after: map<K, Record>) returns (k: K)
    requires Grown(before, after) && before != after
    ensures k in after && (k !in before || Outranks(after[k], before[k]))
  {
    if before.Keys == after.Keys {
      if forall x :: x in before.Keys ==> before[x] == after[x] {
        SameMap(before, after);
      }
      var x :| x in before && before[x] != after[x];
      k := x;
    } else {
      k :| k in after && k !in before;
    }
  }

  lemma ClaimGapUsed(before: map<EndpointId, WorkspaceClaims>, e: EndpointId, rec: WorkspaceClaims, u: Universe)
    requires e in u.endpoints && rec.version < MAX_RECORD_VERSION && rec.repos in u.claims
    requires e in before ==> ClaimsOutrank(rec, before[e])
    ensures |ClaimGap(before[e := rec], u)| < |ClaimGap(before, u)|
  {
    ClaimsRanked();
    var p := (e, rec);
    assert p == (e, WorkspaceClaims(rec.version, rec.repos)) && p in ClaimPairs(u);
    hide ClaimsOutrank, ClaimPairs;
    var after := before[e := rec];
    assert ClaimGap(after, u) <= ClaimGap(before, u) - {p};
    SubsetSize(ClaimGap(after, u), ClaimGap(before, u) - {p});
  }

  lemma GapBounded(held: map<EndpointId, WorkspaceClaims>, u: Universe)
    ensures |ClaimGap(held, u)| <= |ClaimPairs(u)|
  {
    hide ClaimPairs, ClaimsOutrank;
    SubsetSize(ClaimGap(held, u), ClaimPairs(u));
  }

  // One merge.

  lemma OffersWithin(r: Membership, local: EndpointId, u: Universe)
    requires MembershipWithin(r, u)
    ensures RecordsWithin(PeerOffer(r.peers, local), u.endpoints, u.names)
    ensures RecordsWithin(RepoOffer(r.repos), u.repos, u.ids)
    ensures forall e :: e in PeerOffer(r.peers, local) ==> PeerOffer(r.peers, local)[e].version < MAX_RECORD_VERSION
    ensures forall n :: n in RepoOffer(r.repos) ==> RepoOffer(r.repos)[n].version < MAX_RECORD_VERSION
  {
  }

  /** Adopting circulating records stays within them and leaves less to adopt. */
  lemma AdoptedLeft<K(!new)>(held: map<K, Record>, offered: map<K, Record>, keys: seq<K>, cap: nat, all: set<K>,
                             values: set<Option<string>>)
    requires RecordsWithin(held, all, values) && RecordsWithin(offered, all, values)
    requires forall k :: k in offered ==> offered[k].version < MAX_RECORD_VERSION
    ensures RecordsWithin(AdoptAll(held, offered, keys, cap), all, values)
    ensures |Gap(AdoptAll(held, offered, keys, cap), all, values)| <= |Gap(held, all, values)|
    ensures AdoptAll(held, offered, keys, cap) != held ==>
              |Gap(AdoptAll(held, offered, keys, cap), all, values)| < |Gap(held, all, values)|
  {
    hide AdoptAll, Gap, Grown;
    AdoptAllGrows(held, offered, keys, cap);
    var after := AdoptAll(held, offered, keys, cap);
    GapShrinks(held, after, all, values);
    if after != held {
      GapUsed(held, after, all, values);
    }
  }

  lemma RecordsAfter(s: State, r: Membership, local: EndpointId, u: Universe)
    requires BelowCeiling(s) && Within(s, u) && MembershipWithin(r, u)
    ensures RecordsWithin(Merge(s, r, local).peers, u.endpoints, u.names)
    ensures RecordsWithin(Merge(s, r, local).meshRepos, u.repos, u.ids)
    ensures RecordsLeft(Merge(s, r, local), u) <= RecordsLeft(s, u)
    ensures Merge(s, r, local).peers != s.peers || Merge(s, r, local).meshRepos != s.meshRepos ==>
              RecordsLeft(Merge(s, r, local), u) < RecordsLeft(s, u)
    ensures Merge(s, r, local).machine.name == s.machine.name
    ensures Merge(s, r, local).machine.version >= s.machine.version
    ensures Merge(s, r, local).machine != s.machine ==> Merge(s, r, local).machine.version > s.machine.version
  {
    MergeParts(s, r, local);
    OffersWithin(r, local, u);
    var pk, rk := Sorted.Keys(r.peers.Keys), Order.Sorted(r.repos.Keys);
    AdoptedLeft(s.peers, PeerOffer(r.peers, local), pk, MAX_OTHER_PEERS, u.endpoints, u.names);
    AdoptedLeft(s.meshRepos, RepoOffer(r.repos), rk, MAX_MESH_REPOS, u.repos, u.ids);
    hide Merge, AdoptAll, Gap, PeerOffer, RepoOffer, RecordsWithin, ClaimsWithin, Sorted.Keys, Order.Sorted;
  }

  /** Own claims under a merge of repo records: released claims, higher version. */
  lemma {:induction false} ReleasedWithin(s: State, m: map<Name, Record>, keys: seq<Name>, u: Universe)
    requires BelowCeiling(s) && (forall n :: n in keys ==> n in m) && ReleaseClosed(u) && s.claims.repos in u.claims
    ensures MergeRepos(s, m, keys).claims.repos in u.claims
    ensures MergeRepos(s, m, keys).claims.version >= s.claims.version
    decreases |keys|
  {
    if keys != [] {
      hide RepoStep, ReleaseClosed;
      var n := |keys| - 1;
      ReleasedWithin(s, m, keys[..n], u);
      ReleaseOne(MergeRepos(s, m, keys[..n]), keys[n], m[keys[n]], u);
    }
  }

  lemma ReleaseOne(s: State, n: Name, rec: Record, u: Universe)
    requires ReleaseClosed(u) && s.claims.repos in u.claims
    ensures RepoStep(s, n, rec).claims.repos in u.claims
    ensures RepoStep(s, n, rec).claims.version >= s.claims.version
  {
    hide RepoStorable, ShouldAdopt, Put, IsValid;
  }

  /** Claims under a merge of claims: within what circulates, and less left. */
  lemma {:induction false} ClaimsAfter(s: State, local: EndpointId, m: map<EndpointId, WorkspaceClaims>,
                                       keys: seq<EndpointId>, u: Universe)
    requires BelowCeiling(s) && (forall e :: e in keys ==> e in m)
    requires ClaimsWithin(m, u) && ClaimsWithin(s.peerClaims, u)
    ensures ClaimsWithin(MergeClaims(s, local, m, keys).peerClaims, u)
    ensures MergeClaims(s, local, m, keys).claims.repos == s.claims.repos
    ensures MergeClaims(s, local, m, keys).claims.version >= s.claims.version
    ensures |ClaimGap(MergeClaims(s, local, m, keys).peerClaims, u)| <= |ClaimGap(s.peerClaims, u)|
    ensures MergeClaims(s, local, m, keys).peerClaims != s.peerClaims ==>
              |ClaimGap(MergeClaims(s, local, m, keys).peerClaims, u)| < |ClaimGap(s.peerClaims, u)|
    decreases |keys|
  {
    if keys != [] {
      hide ClaimStep, ClaimGap, ClaimsWithin;
      var n := |keys| - 1;
      ClaimsAfter(s, local, m, keys[..n], u);
      ClaimAfter(MergeClaims(s, local, m, keys[..n]), local, keys[n], m, u);
    }
  }

  lemma WantedFacts(peers: map<EndpointId, Record>, held: map<EndpointId, WorkspaceClaims>, e: EndpointId,
                    rec: WorkspaceClaims)
    requires AdoptClaim(peers, held, e, rec) != held
    ensures AdoptClaim(peers, held, e, rec) == held[e := rec]
    ensures rec.version < MAX_RECORD_VERSION && (e in held ==> ClaimsOutrank(rec, held[e]))
  {
    hide ClaimsOutrank, IsValid, Others;
  }

  lemma AdoptedClaimAfter(peers: map<EndpointId, Record>, held: map<EndpointId, WorkspaceClaims>, e: EndpointId,
                          rec: WorkspaceClaims, u: Universe)
    requires e in u.endpoints && rec.repos in u.claims && ClaimsWithin(held, u)
    ensures ClaimsWithin(AdoptClaim(peers, held, e, rec), u)
    ensures |ClaimGap(AdoptClaim(peers, held, e, rec), u)| <= |ClaimGap(held, u)|
    ensures AdoptClaim(peers, held, e, rec) != held ==>
              |ClaimGap(AdoptClaim(peers, held, e, rec), u)| < |ClaimGap(held, u)|
  {
    hide ClaimGap, AdoptClaim;
    if AdoptClaim(peers, held, e, rec) != held {
      WantedFacts(peers, held, e, rec);
      ClaimGapUsed(held, e, rec, u);
    }
  }

  lemma ClaimRecordWithin(m: map<EndpointId, WorkspaceClaims>, e: EndpointId, u: Universe)
    requires e in m && ClaimsWithin(m, u)
    ensures e in u.endpoints && m[e].repos in u.claims
  {
  }

  lemma ClaimStepShape(h: State, local: EndpointId, e: EndpointId, rec: WorkspaceClaims)
    requires BelowCeiling(h)
    ensures ClaimStep(h, local, e, rec).peerClaims == h.peerClaims
         || ClaimStep(h, local, e, rec).peerClaims == AdoptClaim(h.peers, h.peerClaims, e, rec)
    ensures ClaimStep(h, local, e, rec).claims.repos == h.claims.repos
    ensures ClaimStep(h, local, e, rec).claims.version >= h.claims.version
  {
    hide AdoptClaim;
  }

  lemma ClaimAfter(h: State, local: EndpointId, e: EndpointId, m: map<EndpointId, WorkspaceClaims>, u: Universe)
    requires BelowCeiling(h) && e in m && ClaimsWithin(m, u) && ClaimsWithin(h.peerClaims, u)
    ensures ClaimsWithin(ClaimStep(h, local, e, m[e]).peerClaims, u)
    ensures ClaimStep(h, local, e, m[e]).claims.repos == h.claims.repos
    ensures ClaimStep(h, local, e, m[e]).claims.version >= h.claims.version
    ensures |ClaimGap(ClaimStep(h, local, e, m[e]).peerClaims, u)| <= |ClaimGap(h.peerClaims, u)|
    ensures ClaimStep(h, local, e, m[e]).peerClaims != h.peerClaims ==>
              |ClaimGap(ClaimStep(h, local, e, m[e]).peerClaims, u)| < |ClaimGap(h.peerClaims, u)|
  {
    hide *;
    ClaimRecordWithin(m, e, u);
    AdoptedClaimAfter(h.peers, h.peerClaims, e, m[e], u);
    ClaimStepShape(h, local, e, m[e]);
  }

  lemma PrunedWithin(s: State, u: Universe)
    requires ClaimsWithin(s.peerClaims, u)
    ensures ClaimsWithin(Prune(s).peerClaims, u)
  {
  }

  /** The own claims and the claims kept after a merge. */
  lemma MergedWithin(s: State, r: Membership, local: EndpointId, u: Universe)
    requires BelowCeiling(s) && Within(s, u) && MembershipWithin(r, u) && ReleaseClosed(u)
    ensures Within(Merge(s, r, local), u)
    ensures Merge(s, r, local).claims.version >= s.claims.version
  {
    var pk, rk, ck := Sorted.Keys(r.peers.Keys), Order.Sorted(r.repos.Keys), Sorted.Keys(r.claims.Keys);
    var a := MergePeers(s, local, r.peers, pk);
    var b := MergeRepos(a, r.repos, rk);
    var c := MergeClaims(b, local, r.claims, ck);
    RecordsAfter(s, r, local, u);
    ReleasedWithin(a, r.repos, rk, u);
    ClaimsAfter(b, local, r.claims, ck, u);
    PrunedWithin(c, u);
    hide MergePeers, MergeRepos, MergeClaims, RecordsWithin, ClaimsWithin, ReleaseClosed, ClaimGap, RecordsLeft,
      Sorted.Keys, Order.Sorted;
  }

  lemma Weigh(records: nat, less: nat, all: nat, own: nat, gap: nat, own': nat, gap': nat)
    requires less < records && own' <= own && gap' <= all
    ensures less * (all + 1) + own' + gap' < records * (all + 1) + own + gap
  {
    assert less * (all + 1) + (all + 1) == (less + 1) * (all + 1);
    assert (less + 1) * (all + 1) <= records * (all + 1);
  }

  /** A merge that changed no record: only own versions and claims moved. */
  lemma QuietRecords(s: State, r: Membership, local: EndpointId, u: Universe)
    requires Valid(s, local) && Within(s, u) && MembershipWithin(r, u)
    requires Merge(s, r, local).peers == s.peers && Merge(s, r, local).meshRepos == s.meshRepos
    ensures ClaimsLeft(Merge(s, r, local), u) <= ClaimsLeft(s, u)
    ensures Merge(s, r, local) != s ==> ClaimsLeft(Merge(s, r, local), u) < ClaimsLeft(s, u)
  {
    var pk, rk, ck := Sorted.Keys(r.peers.Keys), Order.Sorted(r.repos.Keys), Sorted.Keys(r.claims.Keys);
    var a := MergePeers(s, local, r.peers, pk);
    QuietStages(s, r, local);
    RecordsAfter(s, r, local, u);
    ClaimsAfter(a, local, r.claims, ck, u);
    ClaimsPart(a, local, r.claims, ck);
    ObserveRaises(a.claims, r.claims, local);
    hide Merge, MergePeers, MergeRepos, MergeClaims, Merging, RecordsWithin, ClaimsWithin, ClaimGap, RecordsLeft,
      ClaimsGrown, Observe, Sorted.Keys, Order.Sorted;
  }

  lemma ObserveRaises(c: WorkspaceClaims, m: map<EndpointId, WorkspaceClaims>, local: EndpointId)
    requires c.version < MAX_RECORD_VERSION
    ensures local in m ==> Observe(c, m[local]) == c || Observe(c, m[local]).version > c.version
  {
  }

  lemma QuietStages(s: State, r: Membership, local: EndpointId)
    requires Valid(s, local)
    requires Merge(s, r, local).peers == s.peers && Merge(s, r, local).meshRepos == s.meshRepos
    ensures var a := MergePeers(s, local, r.peers, Sorted.Keys(r.peers.Keys));
            && BelowCeiling(a) && a.claims == s.claims && a.peerClaims == s.peerClaims
            && a.repos == s.repos && a.peers == s.peers && a.meshRepos == s.meshRepos
            && Merge(s, r, local) == MergeClaims(a, local, r.claims, Sorted.Keys(r.claims.Keys))
            && Merge(s, r, local).machine == a.machine
  {
    var pk, rk, ck := Sorted.Keys(r.peers.Keys), Order.Sorted(r.repos.Keys), Sorted.Keys(r.claims.Keys);
    var a := MergePeers(s, local, r.peers, pk);
    var b := MergeRepos(a, r.repos, rk);
    assert b.meshRepos == a.meshRepos;
    ReposUntouched(a, r.repos, rk);
    MergedAlive(a, local, r.claims, ck);
    PruneAlive(MergeClaims(a, local, r.claims, ck));
    hide MergePeers, MergeRepos, MergeClaims, Merging, Prune, Sorted.Keys, Order.Sorted;
  }

  /** A merge leaves no more to change, and strictly less when it changes the
      state. */
  lemma MergeUses(s: State, r: Membership, local: EndpointId, u: Universe)
    requires Valid(s, local) && Within(s, u) && MembershipWithin(r, u) && ReleaseClosed(u)
    ensures Within(Merge(s, r, local), u)
    ensures Left(Merge(s, r, local), u) <= Left(s, u)
    ensures Merge(s, r, local) != s ==> Left(Merge(s, r, local), u) < Left(s, u)
  {
    var t := Merge(s, r, local);
    MergedWithin(s, r, local, u);
    RecordsAfter(s, r, local, u);
    hide Merge, Within, MembershipWithin, ReleaseClosed, RecordsLeft, ClaimsLeft, Left, Merging;
    if t.peers == s.peers && t.meshRepos == s.meshRepos {
      QuietRecords(s, r, local, u);
      LighterClaims(s, t, u);
    } else {
      LighterRecords(s, t, u);
    }
  }

  lemma LighterRecords(s: State, t: State, u: Universe)
    requires BelowCeiling(s) && BelowCeiling(t) && RecordsLeft(t, u) < RecordsLeft(s, u)
    requires t.machine.version >= s.machine.version && t.claims.version >= s.claims.version
    ensures Left(t, u) < Left(s, u)
  {
    hide RecordsLeft, ClaimGap, ClaimPairs;
    GapBounded(t.peerClaims, u);
    var own := 2 * MAX_RECORD_VERSION - s.machine.version - s.claims.version;
    var own' := 2 * MAX_RECORD_VERSION - t.machine.version - t.claims.version;
    Weigh(RecordsLeft(s, u), RecordsLeft(t, u), |ClaimPairs(u)|, own, |ClaimGap(s.peerClaims, u)|, own',
          |ClaimGap(t.peerClaims, u)|);
  }

  lemma LighterClaims(s: State, t: State, u: Universe)
    requires BelowCeiling(s) && BelowCeiling(t) && t.peers == s.peers && t.meshRepos == s.meshRepos
    requires ClaimsLeft(t, u) <= ClaimsLeft(s, u)
    ensures Left(t, u) <= Left(s, u)
    ensures ClaimsLeft(t, u) < ClaimsLeft(s, u) ==> Left(t, u) < Left(s, u)
  {
    hide ClaimsLeft, ClaimPairs, Gap;
  }
}
