/** What machines agree on once exchanging memberships changes nothing. */
module Quiescence {
  import opened Collections
  import opened Registers
  import opened Claims
  import opened MeshModel
  import opened MeshValid
  import opened RankMaps
  import opened GossipMerge
  import opened Remerge
  import Order
  import Sorted

  type Net = map<EndpointId, State>

  /** Whether the caps of `to` leave room for all `from` gossips. */
  ghost predicate RoomFor(from: State, i: EndpointId, to: State, j: EndpointId) {
    && |to.peers.Keys + ((from.peers.Keys + {i}) - {j})| <= MAX_OTHER_PEERS
    && |to.meshRepos.Keys + from.meshRepos.Keys| <= MAX_MESH_REPOS
  }

  /** Merging what `i` gossips would change nothing at `j`. */
  ghost predicate Quiet(net: Net, i: EndpointId, j: EndpointId) {
    && i in net && j in net && i != j
    && Valid(net[i], i) && Valid(net[j], j)
    && RoomFor(net[i], i, net[j], j)
    && Merge(net[j], MembershipOf(net[i], i), j) == net[j]
  }

  ghost predicate Settled(net: Net, i: EndpointId, j: EndpointId) {
    Quiet(net, i, j) && Quiet(net, j, i)
  }

  /** An offer with room that changes nothing is below what is held. */
  lemma UnchangedAbove<K(!new)>(held: map<K, Record>, offered: map<K, Record>, keys: seq<K>, s: set<K>, cap: nat)
    requires Enumerates(keys, s) && offered.Keys <= s && |held.Keys + offered.Keys| <= cap
    requires AdoptAll(held, offered, keys, cap) == held
    ensures forall k :: k in offered ==> k in held && AtLeast(held[k], offered[k])
  {
    hide AdoptAll, Join, AtLeast, Enumerates;
    AdoptedIsJoin(held, offered, keys, s, cap);
    forall k | k in offered ensures k in held && AtLeast(held[k], offered[k]) {
      JoinAt(held, offered, k);
    }
  }

  /** Everything `i` gossips about the mesh list and about machines other than
      `j` is held at `j`, at least as high. */
  lemma QuietAbove(net: Net, i: EndpointId, j: EndpointId)
    requires Quiet(net, i, j)
    ensures forall n :: n in net[i].meshRepos ==>
              n in net[j].meshRepos && AtLeast(net[j].meshRepos[n], net[i].meshRepos[n])
    ensures forall k :: k in net[i].peers && k != j ==>
              k in net[j].peers && AtLeast(net[j].peers[k], net[i].peers[k])
    ensures i in net[j].peers && AtLeast(net[j].peers[i], Record(net[i].machine.version, Some(net[i].machine.name)))
    ensures j in net[i].peers ==> Observed(net[j].machine, net[i].peers, j) == net[j].machine
  {
    var r := MembershipOf(net[i], i);
    var s := net[j];
    MergeParts(s, r, j);
    Sorted.KeysEnumerate(r.peers.Keys);
    SortedEnumerate(r.repos.Keys);
    GossipedOffers(net[i], i, j);
    assert s.peers.Keys + PeerOffer(r.peers, j).Keys == s.peers.Keys + ((net[i].peers.Keys + {i}) - {j});
    hide Merge, AdoptAll, Observed, PeerOffer, RepoOffer, Merging, AtLeast, Sorted.Keys, Order.Sorted, Enumerates;
    UnchangedAbove(s.peers, PeerOffer(r.peers, j), Sorted.Keys(r.peers.Keys), r.peers.Keys, MAX_OTHER_PEERS);
    UnchangedAbove(s.meshRepos, RepoOffer(r.repos), Order.Sorted(r.repos.Keys), r.repos.Keys, MAX_MESH_REPOS);
    SameOwn(net[i], i, j, s.machine);
  }

  lemma SameOwn(s: State, i: EndpointId, j: EndpointId, machine: Machine)
    requires i != j && machine.version < MAX_RECORD_VERSION
    ensures Observed(machine, MembershipOf(s, i).peers, j) == Observed(machine, s.peers, j)
  {
  }

  /** A valid machine gossips its whole state, record by record. */
  lemma GossipedOffers(s: State, i: EndpointId, j: EndpointId)
    requires Valid(s, i) && i != j
    ensures PeerOffer(MembershipOf(s, i).peers, j).Keys == (s.peers.Keys + {i}) - {j}
    ensures forall k :: k in s.peers && k != j ==> PeerOffer(MembershipOf(s, i).peers, j)[k] == s.peers[k]
    ensures PeerOffer(MembershipOf(s, i).peers, j)[i] == Record(s.machine.version, Some(s.machine.name))
    ensures PeerOffer(MembershipOf(s, i).peers, j).Keys <= MembershipOf(s, i).peers.Keys
    ensures RepoOffer(MembershipOf(s, i).repos) == s.meshRepos
  {
    hide RegisterValid, ReposValid, ClaimsBounded, ClaimsAlive, Order.ValidName;
    PeerOfferAll(s.peers, i, Record(s.machine.version, Some(s.machine.name)), j);
    RepoOfferAll(s.meshRepos);
    hide PeerOffer, RepoOffer, PeersValid, MeshReposValid;
  }

  lemma PeerOfferAll(peers: map<EndpointId, Record>, i: EndpointId, own: Record, j: EndpointId)
    requires PeersValid(peers, i) && PeerStorable(own) && i != j
    ensures PeerOffer(peers[i := own], j).Keys == (peers.Keys + {i}) - {j}
    ensures forall k :: k in peers && k != j ==> PeerOffer(peers[i := own], j)[k] == peers[k]
    ensures PeerOffer(peers[i := own], j)[i] == own
    ensures PeerOffer(peers[i := own], j).Keys <= peers[i := own].Keys
  {
    hide PeerStorable;
  }

  lemma RepoOfferAll(meshRepos: map<Name, Record>)
    requires MeshReposValid(meshRepos)
    ensures RepoOffer(meshRepos) == meshRepos
  {
    hide RepoStorable;
    SameMap(RepoOffer(meshRepos), meshRepos);
  }

  /** Two machines that settled hold the same mesh list, and the same record of
      every third machine. */
  lemma SettledAgree(net: Net, i: EndpointId, j: EndpointId)
    requires Settled(net, i, j)
    ensures net[i].meshRepos == net[j].meshRepos
    ensures forall k :: k != i && k != j ==>
              (k in net[i].peers <==> k in net[j].peers)
              && (k in net[i].peers ==> net[i].peers[k] == net[j].peers[k])
  {
    hide *;
    SettledIn(net, i, j);
    QuietAbove(net, i, j);
    QuietAbove(net, j, i);
    BothAbove(net[i].meshRepos, net[j].meshRepos, {});
    SameMap(net[i].meshRepos, net[j].meshRepos);
    BothAbove(net[i].peers, net[j].peers, {i, j});
  }

  /** Maps that are each above the other agree. */
  lemma BothAbove<K(!new)>(a: map<K, Record>, b: map<K, Record>, except: set<K>)
    requires forall k :: k in a && k !in except ==> k in b && AtLeast(b[k], a[k])
    requires forall k :: k in b && k !in except ==> k in a && AtLeast(a[k], b[k])
    ensures forall k :: k !in except ==> (k in a <==> k in b) && (k in a ==> a[k] == b[k])
    ensures except == {} ==> a.Keys == b.Keys
  {
    hide *;
    AtLeastOrder();
  }

  /** The record a settled neighbour holds of an alive machine is the machine's
      own, below the version ceiling. */
  lemma OwnRecordWins(net: Net, k: EndpointId, j: EndpointId)
    requires Settled(net, k, j) && net[k].machine.version + 1 < MAX_RECORD_VERSION
    requires Alive(net[j].peers, k)
    ensures net[j].peers[k] == Record(net[k].machine.version, Some(net[k].machine.name))
  {
    hide Quiet;
    QuietAbove(net, k, j);
    QuietAbove(net, j, k);
    SettledIn(net, k, j);
    CopyBelow(net, k, j);
    OwnCopy(net[k].machine, net[j].peers, k);
  }

  lemma CopyBelow(net: Net, k: EndpointId, j: EndpointId)
    requires Settled(net, k, j) && k in net[j].peers
    ensures net[j].peers[k].version < MAX_RECORD_VERSION && k in net && net[k].machine.version < MAX_RECORD_VERSION
  {
    hide Merge, RoomFor, MeshReposValid, ReposValid, ClaimsBounded, ClaimsAlive, RegisterValid;
  }

  /** Our own record is past an alive copy it has observed. */
  lemma OwnCopy(machine: Machine, peers: map<EndpointId, Record>, k: EndpointId)
    requires machine.version + 1 < MAX_RECORD_VERSION && k in peers && peers[k].value.Some?
    requires Observed(machine, peers, k) == machine && peers[k].version < MAX_RECORD_VERSION
    requires AtLeast(peers[k], Record(machine.version, Some(machine.name)))
    ensures peers[k] == Record(machine.version, Some(machine.name))
  {
  }

  // Along a gossip path.

  /** Each machine of the path settled with the next. */
  ghost predicate GossipPath(net: Net, path: seq<EndpointId>) {
    && path != []
    && forall i: nat :: i + 1 < |path| ==> Settled(net, path[i], path[i + 1])
  }

  lemma {:induction false} PathAgreesOnRepos(net: Net, path: seq<EndpointId>)
    requires GossipPath(net, path) && path[0] in net && path[|path| - 1] in net
    ensures net[path[0]].meshRepos == net[path[|path| - 1]].meshRepos
    decreases |path|
  {
    hide Settled;
    if |path| > 1 {
      PathTail(net, path);
      SettledAgree(net, path[0], path[1]);
      SettledIn(net, path[0], path[1]);
      PathAgreesOnRepos(net, path[1..]);
    }
  }

  lemma SettledIn(net: Net, i: EndpointId, j: EndpointId)
    requires Settled(net, i, j)
    ensures i in net && j in net && Quiet(net, i, j) && Quiet(net, j, i)
  {
  }

  lemma PathTail(net: Net, path: seq<EndpointId>)
    requires GossipPath(net, path) && |path| > 1
    ensures GossipPath(net, path[1..]) && Settled(net, path[0], path[1])
  {
    hide Settled;
    var tail := path[1..];
    forall i: nat | i + 1 < |tail| ensures Settled(net, tail[i], tail[i + 1]) {
      assert Settled(net, path[i + 1], path[i + 1 + 1]);
    }
    assert Settled(net, path[0], path[0 + 1]);
  }

  lemma {:induction false} PathAgreesOnPeer(net: Net, path: seq<EndpointId>, k: EndpointId)
    requires GossipPath(net, path) && path[0] in net && path[|path| - 1] in net && k !in path
    ensures k in net[path[0]].peers <==> k in net[path[|path| - 1]].peers
    ensures k in net[path[0]].peers ==> net[path[0]].peers[k] == net[path[|path| - 1]].peers[k]
    decreases |path|
  {
    hide Settled;
    if |path| > 1 {
      PathTail(net, path);
      SettledAgree(net, path[0], path[1]);
      SettledIn(net, path[0], path[1]);
      assert k != path[0] && k != path[1];
      PathAgreesOnPeer(net, path[1..], k);
    }
  }

  /** Wherever a gossip path reaches, a machine's copy that is alive carries the
      machine's own name and version. */
  lemma OwnNameWins(net: Net, k: EndpointId, path: seq<EndpointId>)
    requires GossipPath(net, path) && k !in path && Settled(net, k, path[0])
    requires path[|path| - 1] in net && k in net && net[k].machine.version + 1 < MAX_RECORD_VERSION
    requires Alive(net[path[|path| - 1]].peers, k)
    ensures net[path[|path| - 1]].peers[k] == Record(net[k].machine.version, Some(net[k].machine.name))
  {
    SettledIn(net, k, path[0]);
    hide Settled;
    PathAgreesOnPeer(net, path, k);
    OwnRecordWins(net, k, path[0]);
  }

  // Claims.

  /** What a quiet delivery says of the sender's claims: they do not fit any
      more, and our own outrank the sender's copy of them. */
  lemma QuietClaims(net: Net, i: EndpointId, j: EndpointId)
    requires Quiet(net, i, j)
    ensures !Fits(net[j].peers, net[j].peerClaims, i, net[i].claims)
    ensures j in net[i].peerClaims && net[i].peerClaims[j].version < MAX_RECORD_VERSION ==>
              Observe(net[j].claims, net[i].peerClaims[j]) == net[j].claims
  {
    var t, r := net[j], MembershipOf(net[i], i);
    var keys := Sorted.Keys(r.claims.Keys);
    Sorted.KeysEnumerate(r.claims.Keys);
    SecondMergeClaims(t, r, j);
    MergedAlive(t, j, r.claims, keys);
    PruneAlive(MergeClaims(t, j, r.claims, keys));
    ClaimsPart(t, j, r.claims, keys);
    hide Merge, MergeClaims, Merging, Fits, RoomFor, Observe, Prune, ClaimsGrown, Sorted.Keys;
    assert i in keys && r.claims[i] == net[i].claims;
    if Fits(t.peers, t.peerClaims, i, net[i].claims) {
      FittingChanges(t, j, r, keys, i);
    }
    if j in net[i].peerClaims {
      assert j in keys && r.claims[j] == net[i].peerClaims[j];
    }
  }

  /** Two settled machines alive to each other, with room for the claims and
      below the version ceiling: each holds exactly what the other claims. */
  lemma ClaimsAgree(net: Net, i: EndpointId, j: EndpointId)
    requires Settled(net, i, j) && Alive(net[j].peers, i)
    requires Others(net[j].peerClaims[i := net[i].claims]) <= MAX_OTHER_WORKSPACES
    requires net[i].claims.version + 1 < MAX_RECORD_VERSION
    ensures i in net[j].peerClaims && net[j].peerClaims[i] == net[i].claims
  {
    QuietClaims(net, i, j);
    QuietClaims(net, j, i);
    ClaimsFacts(net, i, j);
    hide Quiet, Others, IsValid, ClaimsOutrank, Observe;
    OwnClaimsCopy(net[i].claims, net[j].peerClaims[i]);
  }

  lemma ClaimsFacts(net: Net, i: EndpointId, j: EndpointId)
    requires Settled(net, i, j) && Alive(net[j].peers, i)
    requires !Fits(net[j].peers, net[j].peerClaims, i, net[i].claims)
    requires Others(net[j].peerClaims[i := net[i].claims]) <= MAX_OTHER_WORKSPACES
    ensures i in net[j].peerClaims && !ClaimsOutrank(net[i].claims, net[j].peerClaims[i])
    ensures net[j].peerClaims[i].version < MAX_RECORD_VERSION && net[i].claims.version < MAX_RECORD_VERSION
  {
    hide Merge, Others, IsValid, ClaimsOutrank, PeersValid, MeshReposValid, ReposValid, MachineValid, RoomFor;
  }

  lemma OwnClaimsCopy(own: WorkspaceClaims, copy: WorkspaceClaims)
    requires own.version + 1 < MAX_RECORD_VERSION && copy.version < MAX_RECORD_VERSION
    requires Observe(own, copy) == own && !ClaimsOutrank(own, copy)
    ensures copy == own
  {
    hide CmpListing;
  }
}
