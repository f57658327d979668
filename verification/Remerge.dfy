/** Merging the same membership again: silent exactly when no claims record it
    carries is wanted and fits. */
module Remerge {
  import opened Collections
  import opened Order
  import opened Totals
  import opened Registers
  import opened Claims
  import opened MeshModel
  import opened MeshValid
  import opened RankMaps
  import opened GossipMerge
  import Sorted

  /** Every claimant stays, under a record at least as high. */
  ghost predicate ClaimsGrown(before: map<EndpointId, WorkspaceClaims>, after: map<EndpointId, WorkspaceClaims>) {
    forall e :: e in before ==> e in after && !ClaimsOutrank(before[e], after[e])
  }

  lemma ClaimsGrownOrder(a: map<EndpointId, WorkspaceClaims>, b: map<EndpointId, WorkspaceClaims>,
                         c: map<EndpointId, WorkspaceClaims>)
    ensures ClaimsGrown(a, a)
    ensures ClaimsGrown(a, b) && ClaimsGrown(b, c) ==> ClaimsGrown(a, c)
    ensures ClaimsGrown(a, b) && ClaimsGrown(b, a) ==> a == b
  {
    ClaimsRanked();
    hide ClaimsOutrank;
    if ClaimsGrown(a, b) && ClaimsGrown(b, a) {
      assert a.Keys == b.Keys;
      assert forall e :: e in a.Keys ==> a[e] == b[e];
      SameMap(a, b);
    }
  }

  /** A record that would be adopted right now. */
  ghost predicate Fits(peers: map<EndpointId, Record>, held: map<EndpointId, WorkspaceClaims>, e: EndpointId,
                       rec: WorkspaceClaims) {
    ClaimWanted(peers, held, e, rec) && Others(held[e := rec]) <= MAX_OTHER_WORKSPACES
  }

  /** The guard a caller can check before merging again. */
  ghost predicate NoneFit(t: State, r: Membership, local: EndpointId) {
    forall e :: e in r.claims && e != local ==> !Fits(t.peers, t.peerClaims, e, r.claims[e])
  }

  lemma AdoptClaimGrows(peers: map<EndpointId, Record>, held: map<EndpointId, WorkspaceClaims>, e: EndpointId,
                        rec: WorkspaceClaims)
    ensures ClaimsGrown(held, AdoptClaim(peers, held, e, rec))
    ensures Fits(peers, held, e, rec) ==> AdoptClaim(peers, held, e, rec) == held[e := rec] != held
    ensures !Fits(peers, held, e, rec) ==> AdoptClaim(peers, held, e, rec) == held
  {
    ClaimsRanked();
    hide ClaimsOutrank, Others, IsValid;
  }

  /** The claims a merge reads one by one: the others' along the keys, and our
      own against its copy. */
  lemma {:induction false} ClaimsPart(s: State, local: EndpointId, m: map<EndpointId, WorkspaceClaims>,
                                      keys: seq<EndpointId>)
    requires BelowCeiling(s) && forall e :: e in keys ==> e in m
    ensures ClaimsGrown(s.peerClaims, MergeClaims(s, local, m, keys).peerClaims)
    ensures MergeClaims(s, local, m, keys).claims ==
            if local in keys && m[local].version < MAX_RECORD_VERSION then Observe(s.claims, m[local]) else s.claims
    decreases |keys|
  {
    if keys == [] {
      ClaimsGrownOrder(s.peerClaims, s.peerClaims, s.peerClaims);
    } else {
      var n := |keys| - 1;
      hide ClaimsGrown, ClaimStep, Observe;
      var h := MergeClaims(s, local, m, keys[..n]);
      ClaimsPart(s, local, m, keys[..n]);
      assert local in keys <==> local in keys[..n] || local == keys[n];
      ClaimPart(h, local, keys[n], m[keys[n]], s.claims);
      ClaimsGrownOrder(s.peerClaims, h.peerClaims, MergeClaims(s, local, m, keys).peerClaims);
    }
  }

  lemma ClaimPart(h: State, local: EndpointId, e: EndpointId, rec: WorkspaceClaims, own: WorkspaceClaims)
    requires BelowCeiling(h) && own.version < MAX_RECORD_VERSION
    requires h.claims == own || (rec.version < MAX_RECORD_VERSION ==> h.claims == Observe(own, rec)) || e != local
    ensures ClaimsGrown(h.peerClaims, ClaimStep(h, local, e, rec).peerClaims)
    ensures e != local || rec.version >= MAX_RECORD_VERSION ==> ClaimStep(h, local, e, rec).claims == h.claims
    ensures e == local && rec.version < MAX_RECORD_VERSION ==>
              ClaimStep(h, local, e, rec).claims == Observe(own, rec)
  {
    AdoptClaimGrows(h.peers, h.peerClaims, e, rec);
    ClaimsGrownOrder(h.peerClaims, h.peerClaims, h.peerClaims);
    hide ClaimsGrown, AdoptClaim;
  }

  // The second merge leaves the peers, the own record and the mesh list.

  lemma PeersSettled(s: State, r: Membership, local: EndpointId)
    requires BelowCeiling(s)
    ensures Merge(Merge(s, r, local), r, local).peers == Merge(s, r, local).peers
    ensures Merge(Merge(s, r, local), r, local).machine == Merge(s, r, local).machine
    ensures Merge(Merge(s, r, local), r, local).meshRepos == Merge(s, r, local).meshRepos
  {
    var t := Merge(s, r, local);
    MergeParts(s, r, local);
    MergeParts(t, r, local);
    var pk, rk := Sorted.Keys(r.peers.Keys), Order.Sorted(r.repos.Keys);
    Sorted.KeysEnumerate(r.peers.Keys);
    SortedEnumerate(r.repos.Keys);
    AdoptAllAbsorbs(s.peers, PeerOffer(r.peers, local), pk, r.peers.Keys, MAX_OTHER_PEERS);
    AdoptAllAbsorbs(s.meshRepos, RepoOffer(r.repos), rk, r.repos.Keys, MAX_MESH_REPOS);
    AbsorbedUnchanged(t.peers, PeerOffer(r.peers, local), pk, r.peers.Keys, MAX_OTHER_PEERS);
    AbsorbedUnchanged(t.meshRepos, RepoOffer(r.repos), rk, r.repos.Keys, MAX_MESH_REPOS);
    ObservedTwice(s.machine, r.peers, local);
    hide Merge, AdoptAll, Absorbed, Observed, Sorted.Keys, Order.Sorted, PeerOffer, RepoOffer;
  }

  lemma ObservedTwice(machine: Machine, m: map<EndpointId, Record>, local: EndpointId)
    requires machine.version < MAX_RECORD_VERSION
    ensures Observed(Observed(machine, m, local), m, local) == Observed(machine, m, local)
  {
  }

  /** A mesh list left as it was means no repo record was adopted. */
  lemma {:induction false} ReposUntouched(s: State, m: map<Name, Record>, keys: seq<Name>)
    requires BelowCeiling(s) && forall n :: n in keys ==> n in m
    requires MergeRepos(s, m, keys).meshRepos == s.meshRepos
    ensures MergeRepos(s, m, keys) == s
    decreases |keys|
  {
    if keys != [] {
      var n := |keys| - 1;
      hide RepoStep, RepoStorable, ShouldAdopt, Grown, AtLeast;
      var h := MergeRepos(s, m, keys[..n]);
      ReposPart(s, m, keys[..n]);
      AdoptAllGrows(s.meshRepos, RepoOffer(m), keys[..n], MAX_MESH_REPOS);
      RepoPart(h, keys[n], m[keys[n]]);
      AdoptionShows(s.meshRepos, h.meshRepos, keys[n], m[keys[n]], MAX_MESH_REPOS);
      ReposUntouched(s, m, keys[..n]);
    }
  }

  lemma AdoptionShows<K(!new)>(s: map<K, Record>, h: map<K, Record>, k: K, rec: Record, cap: nat)
    requires Grown(s, h)
    ensures ShouldAdopt(h, k, rec, cap) ==> Adopt(h, k, rec, cap) != s
    ensures Adopt(h, k, rec, cap) == s ==> h == s
  {
    AtLeastOrder();
    hide Outranks, AtLeast;
    if ShouldAdopt(h, k, rec, cap) && k in s {
      assert AtLeast(h[k], s[k]);
      assert Adopt(h, k, rec, cap)[k] == rec;
    }
  }

  lemma {:induction false} ClaimsUntouched(t: State, local: EndpointId, r: Membership, keys: seq<EndpointId>)
    requires BelowCeiling(t) && forall e :: e in keys ==> e in r.claims
    requires NoneFit(t, r, local)
    requires local in r.claims && r.claims[local].version < MAX_RECORD_VERSION ==>
               Observe(t.claims, r.claims[local]) == t.claims
    ensures MergeClaims(t, local, r.claims, keys) == t
    decreases |keys|
  {
    if keys != [] {
      var n := |keys| - 1;
      hide Observe, Fits, AdoptClaim;
      ClaimsUntouched(t, local, r, keys[..n]);
      AdoptClaimGrows(t.peers, t.peerClaims, keys[n], r.claims[keys[n]]);
    }
  }

  lemma PruneAlive(s: State)
    requires ClaimsAlive(s.peerClaims, s.peers)
    ensures Prune(s) == s
  {
    SameMap(Prune(s).peerClaims, s.peerClaims);
  }

  /** The stages of a merge of `r` into a state it leaves alone up to the claims. */
  lemma SecondMergeClaims(t: State, r: Membership, local: EndpointId)
    requires BelowCeiling(t)
    requires Merge(t, r, local).peers == t.peers && Merge(t, r, local).machine == t.machine
    requires Merge(t, r, local).meshRepos == t.meshRepos
    ensures Merge(t, r, local) == Prune(MergeClaims(t, local, r.claims, Sorted.Keys(r.claims.Keys)))
  {
    hide Sorted.Keys, Order.Sorted, MergePeers, MergeRepos, MergeClaims;
    var pk, rk := Sorted.Keys(r.peers.Keys), Order.Sorted(r.repos.Keys);
    var a := MergePeers(t, local, r.peers, pk);
    var b := MergeRepos(a, r.repos, rk);
    assert a.(machine := t.machine, peers := t.peers) == t;
    assert a == t;
    assert b.meshRepos == t.meshRepos;
    ReposUntouched(t, r.repos, rk);
  }

  lemma OwnClaimsSettled(s: State, r: Membership, local: EndpointId)
    requires BelowCeiling(s) && local in r.claims && r.claims[local].version < MAX_RECORD_VERSION
    ensures Observe(Merge(s, r, local).claims, r.claims[local]) == Merge(s, r, local).claims
  {
    var a := MergePeers(s, local, r.peers, Sorted.Keys(r.peers.Keys));
    var b := MergeRepos(a, r.repos, Order.Sorted(r.repos.Keys));
    Sorted.KeysEnumerate(r.claims.Keys);
    ClaimsPart(b, local, r.claims, Sorted.Keys(r.claims.Keys));
    ObserveTwice(b.claims, r.claims[local]);
    hide MergePeers, MergeRepos, MergeClaims, Sorted.Keys, Order.Sorted, ClaimsGrown, Observe;
  }

  lemma ObserveTwice(c: WorkspaceClaims, copy: WorkspaceClaims)
    requires c.version < MAX_RECORD_VERSION
    ensures Observe(Observe(c, copy), copy) == Observe(c, copy)
  {
  }

  lemma FitsBelow(peers: map<EndpointId, Record>, held: map<EndpointId, WorkspaceClaims>, e: EndpointId,
                  rec: WorkspaceClaims)
    requires Fits(peers, held, e, rec)
    ensures rec.version < MAX_RECORD_VERSION && AdoptClaim(peers, held, e, rec) != held
  {
    AdoptClaimGrows(peers, held, e, rec);
    hide ClaimsOutrank, IsValid, Others, AdoptClaim;
  }

  /** Something that fits is adopted, so the claims change. */
  lemma {:induction false} FittingChanges(t: State, local: EndpointId, r: Membership, keys: seq<EndpointId>,
                                          e: EndpointId)
    requires BelowCeiling(t) && (forall k :: k in keys ==> k in r.claims) && e in keys && e != local
    requires Fits(t.peers, t.peerClaims, e, r.claims[e])
    ensures MergeClaims(t, local, r.claims, keys).peerClaims != t.peerClaims
    decreases |keys|
  {
    var n := |keys| - 1;
    hide Fits, AdoptClaim, ClaimsGrown;
    var h := MergeClaims(t, local, r.claims, keys[..n]);
    var after := MergeClaims(t, local, r.claims, keys);
    ClaimsPart(t, local, r.claims, keys[..n]);
    AdoptClaimGrows(h.peers, h.peerClaims, keys[n], r.claims[keys[n]]);
    ClaimsGrownOrder(t.peerClaims, h.peerClaims, h.peerClaims);
    ClaimsGrownOrder(h.peerClaims, t.peerClaims, h.peerClaims);
    ClaimsGrownOrder(t.peerClaims, h.peerClaims, t.peerClaims);
    if h.peerClaims != t.peerClaims {
      assert after.peerClaims == t.peerClaims ==> ClaimsGrown(h.peerClaims, t.peerClaims);
    } else if e in keys[..n] {
      FittingChanges(t, local, r, keys[..n], e);
    } else {
      FitsBelow(t.peers, t.peerClaims, e, r.claims[e]);
    }
  }

  /** Merging the same membership twice: the second merge changes nothing if and
      only if no claims record of another machine is wanted and fits. */
  lemma RemergeExact(s: State, r: Membership, local: EndpointId)
    requires Valid(s, local)
    ensures Merge(Merge(s, r, local), r, local) == Merge(s, r, local) <==> NoneFit(Merge(s, r, local), r, local)
  {
    var t := Merge(s, r, local);
    MergeKeeps(s, r, local);
    PeersSettled(s, r, local);
    SecondMergeClaims(t, r, local);
    var keys := Sorted.Keys(r.claims.Keys);
    Sorted.KeysEnumerate(r.claims.Keys);
    if local in r.claims && r.claims[local].version < MAX_RECORD_VERSION {
      OwnClaimsSettled(s, r, local);
    }
    hide Merge, MergeClaims, Sorted.Keys, Merging, Observe, Fits, Prune;
    if NoneFit(t, r, local) {
      ClaimsUntouched(t, local, r, keys);
      PruneAlive(t);
    } else {
      var e :| e in r.claims && e != local && Fits(t.peers, t.peerClaims, e, r.claims[e]);
      FittingChanges(t, local, r, keys, e);
      MergeClaimsKeeps(t, local, r.claims, keys);
      MergedAlive(t, local, r.claims, keys);
      PruneAlive(MergeClaims(t, local, r.claims, keys));
    }
  }

  /** Merging claims only adds those of alive machines. */
  lemma {:induction false} MergedAlive(t: State, local: EndpointId, m: map<EndpointId, WorkspaceClaims>,
                                       keys: seq<EndpointId>)
    requires BelowCeiling(t) && (forall e :: e in keys ==> e in m) && ClaimsAlive(t.peerClaims, t.peers)
    ensures ClaimsAlive(MergeClaims(t, local, m, keys).peerClaims, t.peers)
    decreases |keys|
  {
    if keys != [] {
      hide Others, ClaimsOutrank, IsValid, Observe;
      MergedAlive(t, local, m, keys[..|keys| - 1]);
    }
  }

  /** Whether a wanted record was refused for lack of room. */
  ghost predicate Refused(s: State, local: EndpointId, m: map<EndpointId, WorkspaceClaims>, keys: seq<EndpointId>)
    requires BelowCeiling(s) && forall e :: e in keys ==> e in m
    decreases |keys|
  {
    keys != [] && (
      || Refused(s, local, m, keys[..|keys| - 1])
      || (var h, e := MergeClaims(s, local, m, keys[..|keys| - 1]), keys[|keys| - 1];
          e != local && ClaimWanted(h.peers, h.peerClaims, e, m[e]) && !Fits(h.peers, h.peerClaims, e, m[e])))
  }

  /** Without a refusal, nothing read is wanted any more. */
  lemma {:induction false} UnrefusedAbsorbed(s: State, local: EndpointId, m: map<EndpointId, WorkspaceClaims>,
                                             keys: seq<EndpointId>)
    requires BelowCeiling(s) && (forall e :: e in keys ==> e in m) && !Refused(s, local, m, keys)
    ensures forall e :: e in keys && e != local ==>
              !ClaimWanted(s.peers, MergeClaims(s, local, m, keys).peerClaims, e, m[e])
    decreases |keys|
  {
    if keys != [] {
      hide ClaimWanted, Fits, ClaimStep, ClaimsGrown;
      var n := |keys| - 1;
      var h := MergeClaims(s, local, m, keys[..n]);
      UnrefusedAbsorbed(s, local, m, keys[..n]);
      LastAbsorbed(h, local, keys[n], m[keys[n]]);
      var after := MergeClaims(s, local, m, keys).peerClaims;
      forall e | e in keys && e != local ensures !ClaimWanted(s.peers, after, e, m[e]) {
        if e != keys[n] {
          assert e in keys[..n];
          ClaimStaysUnwanted(s.peers, h.peerClaims, after, e, m[e]);
        }
      }
    }
  }

  lemma LastAbsorbed(h: State, local: EndpointId, e: EndpointId, rec: WorkspaceClaims)
    requires BelowCeiling(h)
    requires e != local && ClaimWanted(h.peers, h.peerClaims, e, rec) ==> Fits(h.peers, h.peerClaims, e, rec)
    ensures ClaimsGrown(h.peerClaims, ClaimStep(h, local, e, rec).peerClaims)
    ensures e != local ==> !ClaimWanted(h.peers, ClaimStep(h, local, e, rec).peerClaims, e, rec)
  {
    AdoptClaimGrows(h.peers, h.peerClaims, e, rec);
    ClaimsGrownOrder(h.peerClaims, h.peerClaims, h.peerClaims);
    AdoptedUnwanted(h.peers, h.peerClaims, e, rec);
    WantedBelow(h.peers, h.peerClaims, e, rec);
    hide ClaimWanted, Fits, AdoptClaim, ClaimsGrown;
  }

  lemma WantedBelow(peers: map<EndpointId, Record>, held: map<EndpointId, WorkspaceClaims>, e: EndpointId,
                    rec: WorkspaceClaims)
    ensures ClaimWanted(peers, held, e, rec) ==> rec.version < MAX_RECORD_VERSION
    ensures Fits(peers, held, e, rec) ==> ClaimWanted(peers, held, e, rec)
  {
    hide ClaimsOutrank, IsValid, Others;
  }

  lemma ClaimStaysUnwanted(peers: map<EndpointId, Record>, a: map<EndpointId, WorkspaceClaims>,
                           b: map<EndpointId, WorkspaceClaims>, e: EndpointId, rec: WorkspaceClaims)
    requires ClaimsGrown(a, b) && !ClaimWanted(peers, a, e, rec)
    ensures !ClaimWanted(peers, b, e, rec)
  {
    ClaimsRanked();
    hide ClaimsOutrank, IsValid;
  }

  lemma AdoptedUnwanted(peers: map<EndpointId, Record>, held: map<EndpointId, WorkspaceClaims>, e: EndpointId,
                        rec: WorkspaceClaims)
    ensures !ClaimWanted(peers, held[e := rec], e, rec)
  {
    ClaimsRanked();
    hide ClaimsOutrank, IsValid;
  }

  /** A merge that refused no claims for lack of room is silent when repeated. */
  lemma RemergeSilent(s: State, r: Membership, local: EndpointId)
    requires Valid(s, local)
    requires var a := MergePeers(s, local, r.peers, Sorted.Keys(r.peers.Keys));
             var b := MergeRepos(a, r.repos, Order.Sorted(r.repos.Keys));
             !Refused(b, local, r.claims, Sorted.Keys(r.claims.Keys))
    ensures Merge(Merge(s, r, local), r, local) == Merge(s, r, local)
  {
    var a := MergePeers(s, local, r.peers, Sorted.Keys(r.peers.Keys));
    var b := MergeRepos(a, r.repos, Order.Sorted(r.repos.Keys));
    var keys := Sorted.Keys(r.claims.Keys);
    var c := MergeClaims(b, local, r.claims, keys);
    RemergeExact(s, r, local);
    UnrefusedAbsorbed(b, local, r.claims, keys);
    hide MergePeers, MergeRepos, MergeClaims, ClaimWanted, Valid, Refused, Sorted.Keys, Order.Sorted;
    var t := Merge(s, r, local);
    forall e | e in r.claims && e != local ensures !Fits(t.peers, t.peerClaims, e, r.claims[e]) {
      assert e in keys;
      PrunedUnwanted(c, e, r.claims[e]);
    }
  }

  lemma PrunedUnwanted(c: State, e: EndpointId, rec: WorkspaceClaims)
    requires !ClaimWanted(c.peers, c.peerClaims, e, rec)
    ensures !ClaimWanted(c.peers, Prune(c).peerClaims, e, rec)
  {
    hide ClaimsOutrank, IsValid;
  }
  // A repeated merge can change the state: the claims are full when the lower
  // endpoint's record is read, and a higher endpoint's record then frees a place.

  function NameOf(n: nat): string {
    seq(n, _ => 'a')
  }

  function Names(n: nat): set<Name> {
    set k | 1 <= k <= n :: NameOf(k)
  }

  lemma {:induction false} NamesCount(n: nat)
    ensures |Names(n)| == n
    decreases n
  {
    if n == 0 {
      assert Names(0) == {};
    } else {
      NamesCount(n - 1);
      forall k | 1 <= k < n ensures NameOf(k) != NameOf(n) {
        assert |NameOf(k)| == k && |NameOf(n)| == n;
      }
      assert NameOf(n) !in Names(n - 1);
      assert Names(n) == Names(n - 1) + {NameOf(n)};
    }
  }

  lemma {:induction false} NameLength(n: nat)
    ensures ByteLen(NameOf(n)) == n
    decreases n
  {
    if n > 0 {
      NameLength(n - 1);
      assert NameOf(n)[0] == 'a' && NameOf(n)[1..] == NameOf(n - 1);
    }
  }

  lemma NamesUsable(n: nat)
    requires 1 <= n <= MAX_MACHINE_WORKSPACES
    ensures IsValid(map["r" := Names(n)]) && Count(map["r" := Names(n)]) == n
  {
    var repos: map<RepoId, set<Name>> := map["r" := Names(n)];
    NamesCount(n);
    forall k | 1 <= k <= n ensures ValidName(NameOf(k)) {
      NameLength(k);
    }
    assert Sizes(repos) == map["r" := n];
    TotalSplit(Sizes(repos), "r");
    assert Sizes(repos) - {"r"} == map[];
    assert NameOf(1) in Names(n);
  }

  lemma {:induction false} SharesAddUp(m: map<EndpointId, nat>)
    requires forall e :: e in m ==> m[e] == MAX_MACHINE_WORKSPACES
    ensures Total(m) == |m.Keys| * MAX_MACHINE_WORKSPACES
    decreases |m.Keys|
  {
    if m.Keys != {} {
      var e :| e in m.Keys;
      TotalSplit(m, e);
      assert (m - {e}).Keys == m.Keys - {e};
      SharesAddUp(m - {e});
    }
  }

  function Endpoints(from: nat, count: nat): (s: set<EndpointId>)
    ensures |s| == count && forall e :: e in s <==> from <= e < from + count
  {
    if count == 0 then {} else Endpoints(from, count - 1) + {from + count - 1}
  }

  /** A full share of workspaces. */
  ghost function Share(): WorkspaceClaims {
    WorkspaceClaims(0, map["r" := Names(MAX_MACHINE_WORKSPACES)])
  }

  ghost function Shares(): map<EndpointId, WorkspaceClaims> {
    map e | e in Endpoints(2, 15) :: Share()
  }

  /** Sixteen machines; all but the first claim a full share of workspaces. */
  ghost function FullState(): State {
    State(Machine("m", 0), map e | e in Endpoints(1, 16) :: Record(0, Some("m")), map[], map[],
          WorkspaceClaims(0, map[]), Shares())
  }

  /** The first machine claims a workspace, the second releases all of its own. */
  function Releasing(): (m: Membership)
    ensures m.claims.Keys == {1, 2}
  {
    Membership(map[], map[], map[1 := WorkspaceClaims(1, map["r" := Names(1)]), 2 := WorkspaceClaims(1, map[])])
  }

  lemma EachShare()
    ensures Counts(Shares()).Keys == Endpoints(2, 15)
    ensures forall e :: e in Counts(Shares()) ==> Counts(Shares())[e] == MAX_MACHINE_WORKSPACES
  {
    hide Endpoints, Names, Count, Total;
    NamesUsable(MAX_MACHINE_WORKSPACES);
  }

  lemma SharesCount()
    ensures Others(Shares()) == MAX_OTHER_WORKSPACES && Total(Counts(Shares()) - {1}) == MAX_OTHER_WORKSPACES
    ensures Total(Counts(Shares()) - {2}) == MAX_OTHER_WORKSPACES - MAX_MACHINE_WORKSPACES
  {
    hide Endpoints, Total, Counts, Shares, SumOver;
    EachShare();
    var counts, e := Counts(Shares()), Endpoints(2, 15);
    assert 2 in e && 1 !in e && |e| == 15;
    SharesAddUp(counts);
    TotalSplit(counts, 2);
    AbsentKey(counts, 1);
  }

  lemma AbsentKey(m: map<EndpointId, nat>, e: EndpointId)
    requires e !in m
    ensures m - {e} == m
  {
  }

  lemma NothingClaimed()
    ensures IsValid(map[]) && Count(map[]) == 0
  {
    assert Sizes(map[]) == map[];
  }

  lemma FullPeers()
    ensures PeersValid(FullState().peers, 0) && ClaimsAlive(Shares(), FullState().peers)
  {
    hide Endpoints, Share, ValidName;
    ShortName();
    assert FullState().peers.Keys == Endpoints(1, 16);
    assert |FullState().peers| == |FullState().peers.Keys|;
  }

  lemma SharesValid()
    ensures ClaimsBounded(Shares())
  {
    hide Endpoints, Others, IsValid, Names;
    SharesCount();
    NamesUsable(MAX_MACHINE_WORKSPACES);
  }

  lemma FullValid()
    ensures Valid(FullState(), 0)
  {
    hide Others, Count, IsValid, ValidName, PeersValid, ClaimsBounded, ClaimsAlive, Endpoints, Shares;
    FullPeers();
    SharesValid();
    NothingClaimed();
    ShortName();
  }

  lemma ShortName()
    ensures ValidName("m")
  {
    assert "m"[1..] == "";
  }

  /** Replacing one machine's claims changes the count by that machine's alone. */
  lemma Recounted(held: map<EndpointId, WorkspaceClaims>, e: EndpointId, c: WorkspaceClaims)
    ensures Others(held[e := c]) == Count(c.repos) + Total(Counts(held) - {e})
    ensures Others(held[e := c]) <= Count(c.repos) + Others(held)
  {
    hide Others, Count, Counts, Total;
    CountsUpdate(held, e, c);
  }

  lemma ReleasingSizes()
    ensures Count(Releasing().claims[1].repos) == 1 && Count(Releasing().claims[2].repos) == 0
  {
    hide Names, IsValid, Count;
    NamesUsable(1);
    NothingClaimed();
  }

  lemma ReleasingCounts()
    ensures var held := Shares(); var r := Releasing().claims;
            && Others(held[1 := r[1]]) > MAX_OTHER_WORKSPACES
            && Others(held[2 := r[2]]) <= MAX_OTHER_WORKSPACES
            && Others(held[2 := r[2]][1 := r[1]]) <= MAX_OTHER_WORKSPACES
  {
    hide Names, Others, Count, Shares, Counts, Total, IsValid, Releasing;
    var held, first, second := Shares(), Releasing().claims[1], Releasing().claims[2];
    SharesCount();
    ReleasingSizes();
    Recounted(held, 1, first);
    Recounted(held, 2, second);
    Recounted(held[2 := second], 1, first);
  }

  lemma TwoKeys()
    ensures Sorted.Keys({1, 2}) == [1, 2] && Sorted.Keys({}) == [] && Order.Sorted({}) == []
  {
    hide Sorted.Keys;
    var keys := Sorted.Keys({1, 2});
    assert keys[0] in keys && keys[1] in keys;
  }

  lemma Claiming(peers: map<EndpointId, Record>)
    requires Alive(peers, 1) && Alive(peers, 2)
    ensures ClaimWanted(peers, Shares(), 1, Releasing().claims[1])
    ensures ClaimWanted(peers, Shares(), 2, Releasing().claims[2])
    ensures ClaimWanted(peers, Shares()[2 := Releasing().claims[2]], 1, Releasing().claims[1])
  {
    hide Endpoints, IsValid, Names, Listed, CmpListing;
    NamesUsable(1);
    NothingClaimed();
  }

  lemma Present()
    ensures Alive(FullState().peers, 1) && Alive(FullState().peers, 2) && BelowCeiling(FullState())
    ensures 2 in Shares()
  {
    hide Endpoints;
  }

  /** The first merge refuses the lower endpoint's claims and takes the release. */
  lemma FirstClaims()
    requires BelowCeiling(FullState())
    ensures var s, r := FullState(), Releasing();
            MergeClaims(s, 0, r.claims, [1, 2]) == s.(peerClaims := Shares()[2 := r.claims[2]])
  {
    var s, r := FullState(), Releasing();
    hide Others, Shares, Endpoints, ClaimWanted, MergeClaims, Alive;
    Present();
    Claiming(s.peers);
    ReleasingCounts();
    NoClaims(s, 0, r.claims);
    var keys := [1, 2];
    assert keys[..0] == [] && keys[..2] == keys;
    ClaimsOneMore(s, 0, r.claims, keys, 0);
    ClaimsOneMore(s, 0, r.claims, keys, 1);
    assert ClaimStep(s, 0, 1, r.claims[1]) == s;
  }

  lemma FirstMerge()
    requires BelowCeiling(FullState())
    ensures var s, r := FullState(), Releasing();
            Merge(s, r, 0) == s.(peerClaims := Shares()[2 := r.claims[2]])
  {
    var s, r := FullState(), Releasing();
    hide MergePeers, MergeRepos, MergeClaims, Sorted.Keys, Order.Sorted, Shares, Alive, Endpoints;
    TwoKeys();
    NoPeers(s, 0, r.peers);
    NoRepos(s, r.repos);
    FirstClaims();
    assert r.claims.Keys == {1, 2};
    KeptAlive();
    PruneAlive(s.(peerClaims := Shares()[2 := r.claims[2]]));
  }

  lemma KeptAlive()
    ensures ClaimsAlive(Shares()[2 := Releasing().claims[2]], FullState().peers)
  {
    hide Endpoints, PeersValid;
    FullPeers();
    Present();
  }

  /** Repeating a merge is not always silent. */
  lemma RemergeChanges() returns (s: State, r: Membership, local: EndpointId)
    ensures Valid(s, local)
    ensures Merge(Merge(s, r, local), r, local) != Merge(s, r, local)
  {
    hide Names, Others, Count, Merge, ClaimWanted, Shares, Endpoints, Valid, Alive;
    s, r, local := FullState(), Releasing(), 0;
    FullValid();
    Present();
    FirstMerge();
    ReleasingCounts();
    Claiming(s.peers);
    RemergeExact(s, r, local);
    assert Fits(Merge(s, r, local).peers, Merge(s, r, local).peerClaims, 1, r.claims[1]);
  }
}
