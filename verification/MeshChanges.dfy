/** What local changes of the mesh state mean to the machines they reach. */
module MeshChanges {
  import opened Collections
  import opened Totals
  import opened Registers
  import opened Claims
  import opened MeshModel
  import opened MeshValid
  import opened RankMaps
  import opened GossipMerge
  import Order
  import Sorted

  /** An offered record that outranks the held one is held after the merge. */
  lemma OfferWins<K(!new)>(held: map<K, Record>, offered: map<K, Record>, keys: seq<K>, s: set<K>, cap: nat, k: K)
    requires Enumerates(keys, s) && k in s && k in offered && k in held && AtLeast(offered[k], held[k])
    ensures k in AdoptAll(held, offered, keys, cap) && AdoptAll(held, offered, keys, cap)[k] == offered[k]
  {
    AdoptAllGrows(held, offered, keys, cap);
    AdoptAllAbsorbs(held, offered, keys, s, cap);
    AtLeastOrder();
    hide AdoptAll, Outranks, AtLeast;
    var after := AdoptAll(held, offered, keys, cap);
    assert !ShouldAdopt(after, k, offered[k], cap);
  }

  /** A local change outranks the record it replaces and touches no other key. */
  lemma BumpedEffect<K(!new)>(m: map<K, Record>, k: K, value: Option<string>)
    requires BumpedVersion(m, k).Ok?
    ensures k in m ==> Outranks(Record(BumpedVersion(m, k).value, value), m[k])
    ensures m[k := Record(BumpedVersion(m, k).value, value)] - {k} == m - {k}
  {
    var n := m[k := Record(BumpedVersion(m, k).value, value)];
    assert (n - {k}).Keys == (m - {k}).Keys;
    SameMap(n - {k}, m - {k});
  }

  /** A gossiped peer record replaces any lower one the receiver holds. */
  lemma PeerReaches(s: State, r: Membership, local: EndpointId, e: EndpointId)
    requires BelowCeiling(s) && e in r.peers && e in s.peers && e != local && PeerStorable(r.peers[e])
    requires AtLeast(r.peers[e], s.peers[e])
    ensures e in Merge(s, r, local).peers && Merge(s, r, local).peers[e] == r.peers[e]
  {
    MergeParts(s, r, local);
    Sorted.KeysEnumerate(r.peers.Keys);
    assert e in PeerOffer(r.peers, local) && PeerOffer(r.peers, local)[e] == r.peers[e];
    hide Merge, AdoptAll, PeerOffer, Sorted.Keys, PeerStorable, AtLeast, Enumerates;
    OfferWins(s.peers, PeerOffer(r.peers, local), Sorted.Keys(r.peers.Keys), r.peers.Keys, MAX_OTHER_PEERS, e);
  }

  lemma RepoReaches(s: State, r: Membership, local: EndpointId, n: Name)
    requires BelowCeiling(s) && n in r.repos && n in s.meshRepos && RepoStorable(n, r.repos[n])
    requires AtLeast(r.repos[n], s.meshRepos[n])
    ensures n in Merge(s, r, local).meshRepos && Merge(s, r, local).meshRepos[n] == r.repos[n]
  {
    MergeParts(s, r, local);
    SortedEnumerate(r.repos.Keys);
    assert n in RepoOffer(r.repos) && RepoOffer(r.repos)[n] == r.repos[n];
    hide Merge, AdoptAll, RepoOffer, Order.Sorted, RepoStorable, AtLeast, Enumerates;
    OfferWins(s.meshRepos, RepoOffer(r.repos), Order.Sorted(r.repos.Keys), r.repos.Keys, MAX_MESH_REPOS, n);
  }

  // Peers.

  /** A removal is refused only next to the version ceiling. It leaves a tombstone
      that outranks the alive record, drops the machine's claims, and touches
      nothing else. */
  lemma RemovePeerEffect(s: State, e: EndpointId, local: EndpointId)
    requires Valid(s, local) && Alive(s.peers, e)
    ensures RemovePeer(s, e).Ok? <==> s.peers[e].version + 1 < MAX_RECORD_VERSION
    ensures RemovePeer(s, e).Ok? ==>
              var t := RemovePeer(s, e).value;
              && !Alive(t.peers, e) && Outranks(t.peers[e], s.peers[e])
              && t.peers - {e} == s.peers - {e} && t.peerClaims == s.peerClaims - {e}
              && t.machine == s.machine && t.repos == s.repos && t.meshRepos == s.meshRepos && t.claims == s.claims
  {
    hide MachineValid, RegisterValid, PeersValid, MeshReposValid, ReposValid, ClaimsBounded;
    if RemovePeer(s, e).Ok? {
      var t := RemovePeer(s, e).value;
      BumpedEffect(s.peers, e, None);
      SameMap(t.peerClaims, s.peerClaims - {e});
    }
  }

  /** A machine that holds no higher record of a removed peer drops it, with its
      claims, once it merges the remover's membership. */
  lemma RemovalReaches(a: State, ia: EndpointId, e: EndpointId, b: State, ib: EndpointId)
    requires Valid(a, ia) && Valid(b, ib) && Alive(a.peers, e) && RemovePeer(a, e).Ok? && ib != e
    requires e in b.peers && AtLeast(a.peers[e], b.peers[e])
    ensures var t := Merge(b, MembershipOf(RemovePeer(a, e).value, ia), ib);
            !Alive(t.peers, e) && e !in t.peerClaims
  {
    RemovePeerEffect(a, e, ia);
    RemovePeerKeeps(a, e, ia);
    var t := RemovePeer(a, e).value;
    var r := MembershipOf(t, ia);
    AliveNotSelf(a, ia, e);
    StorablePeer(t, ia, e);
    MergeKeeps(b, r, ib);
    MergingBelow(b, ib);
    DeadHasNoClaims(Merge(b, r, ib), ib, e);
    hide Merge, RemovePeer, Outranks, AtLeast, Merging, ClaimsAlive, PeerStorable;
    AtLeastOrder();
    PeerReaches(b, r, ib, e);
  }

  lemma DeadHasNoClaims(s: State, local: EndpointId, e: EndpointId)
    requires Valid(s, local)
    ensures !Alive(s.peers, e) ==> e !in s.peerClaims
  {
  }

  lemma AliveNotSelf(s: State, local: EndpointId, e: EndpointId)
    requires Valid(s, local) && e in s.peers
    ensures e != local && BelowCeiling(s)
  {
  }

  lemma StorablePeer(s: State, local: EndpointId, e: EndpointId)
    requires Valid(s, local) && e in s.peers
    ensures PeerStorable(s.peers[e])
  {
  }

  /** Pairing is refused for an invalid name, an alive endpoint, a full mesh or a
      record next to the ceiling. It makes the machine alive under its name, over
      any tombstone, and touches nothing else. */
  lemma AddPeerEffect(s: State, e: EndpointId, name: Name)
    ensures AddPeer(s, e, name).Ok? <==>
            Order.ValidName(name) && !Alive(s.peers, e)
            && (if e in s.peers then s.peers[e].version + 1 < MAX_RECORD_VERSION else |s.peers| < MAX_OTHER_PEERS)
    ensures AddPeer(s, e, name).Ok? ==>
              var t := AddPeer(s, e, name).value;
              && Alive(t.peers, e) && t.peers[e].value == Some(name) && t.peers[e].version > 0
              && (e in s.peers ==> Outranks(t.peers[e], s.peers[e]))
              && t.peers - {e} == s.peers - {e} && t.(peers := s.peers) == s
  {
    hide Order.ValidName;
    if AddPeer(s, e, name).Ok? {
      BumpedEffect(s.peers, e, Some(name));
    }
  }

  /** A machine that held only the tombstone sees the re-paired machine alive. */
  lemma PairingReaches(a: State, ia: EndpointId, e: EndpointId, name: Name, b: State, ib: EndpointId)
    requires Valid(a, ia) && Valid(b, ib) && e != ia && AddPeer(a, e, name).Ok? && ib != e
    requires e in a.peers && e in b.peers && AtLeast(a.peers[e], b.peers[e])
    ensures var t := Merge(b, MembershipOf(AddPeer(a, e, name).value, ia), ib);
            Alive(t.peers, e) && t.peers[e].value == Some(name)
  {
    AddPeerEffect(a, e, name);
    AddPeerKeeps(a, e, name, ia);
    var t := AddPeer(a, e, name).value;
    StorablePeer(t, ia, e);
    AtLeastOrder();
    MergingBelow(b, ib);
    hide Merge, AddPeer, Outranks, AtLeast, Merging;
    PeerReaches(b, MembershipOf(t, ia), ib, e);
  }

  // Renaming.

  /** A machine whose copy of a renamed one is no higher than the old own record
      holds the new name after a merge. */
  lemma RenameReaches(a: State, ia: EndpointId, name: Name, b: State, ib: EndpointId)
    requires Valid(a, ia) && Valid(b, ib) && ia != ib && Rename(a, name).Ok? && name != a.machine.name
    requires ia in b.peers && AtLeast(Record(a.machine.version, Some(a.machine.name)), b.peers[ia])
    ensures var t := Merge(b, MembershipOf(Rename(a, name).value, ia), ib);
            Alive(t.peers, ia) && t.peers[ia].value == Some(name)
  {
    RenameKeeps(a, name, ia);
    var t := Rename(a, name).value;
    var r := MembershipOf(t, ia);
    RenamedRecord(a, ia, name);
    AtLeastOrder();
    MergingBelow(b, ib);
    hide Merge, Rename, Outranks, AtLeast, Merging, PeerStorable;
    PeerReaches(b, r, ib, ia);
  }

  lemma RenamedRecord(s: State, local: EndpointId, name: Name)
    requires Valid(s, local) && Rename(s, name).Ok? && name != s.machine.name
    ensures var rec := MembershipOf(Rename(s, name).value, local).peers[local];
            && rec.value == Some(name) && PeerStorable(rec)
            && AtLeast(rec, Record(s.machine.version, Some(s.machine.name)))
    ensures Rename(s, name).value.(machine := s.machine) == s
  {
    hide PeersValid, MeshReposValid, ReposValid, ClaimsBounded, ClaimsAlive, RegisterValid, Order.ValidName;
  }

  // Repos.

  /** Removing a repo name is refused when it is not live, or next to the version
      ceiling. */
  lemma RemoveRepoRefused(s: State, name: Name, local: EndpointId)
    requires Valid(s, local)
    ensures RemoveRepo(s, name).Ok? <==>
            Live(s.meshRepos, name) && s.meshRepos[name].version + 1 < MAX_RECORD_VERSION
  {
    RegisteredLive(s, local);
    hide Valid, Unregister;
  }

  lemma OwnRegister(s: State, local: EndpointId)
    requires Valid(s, local)
    ensures RegisterValid(s.claims)
  {
  }

  /** Unregistering releases the claims on the repo, below the version ceiling. */
  lemma UnregisterEffect(s: State, n: Name)
    requires n in s.repos && RegisterValid(s.claims)
    ensures s.claims.version + 1 < MAX_RECORD_VERSION ==> On(Unregister(s, n).claims.repos, s.repos[n].id) == {}
    ensures forall id :: id != s.repos[n].id ==> On(Unregister(s, n).claims.repos, id) == On(s.claims.repos, id)
  {
    ReleaseFails(s.claims, s.repos[n].id);
    hide Set, On, IsValid;
  }

  lemma NotRegistered(s: State, n: Name)
    requires n !in s.repos
    ensures Unregister(s, n) == s
  {
  }

  /** Removing a repo name leaves a tombstone that outranks its record, and
      unregisters it here with its claims released below the ceiling. */
  lemma RemoveRepoEffect(s: State, name: Name, local: EndpointId)
    requires Valid(s, local) && RemoveRepo(s, name).Ok?
    ensures name in s.meshRepos
    ensures var t := RemoveRepo(s, name).value;
            && !Live(t.meshRepos, name) && name in t.meshRepos && Outranks(t.meshRepos[name], s.meshRepos[name])
            && t.meshRepos - {name} == s.meshRepos - {name} && t.repos == s.repos - {name}
            && (name in s.repos && s.claims.version + 1 < MAX_RECORD_VERSION ==>
                  On(t.claims.repos, s.repos[name].id) == {})
            && (forall id :: name !in s.repos || id != s.repos[name].id ==>
                  On(t.claims.repos, id) == On(s.claims.repos, id))
            && t.machine == s.machine && t.peers == s.peers && t.peerClaims == s.peerClaims
  {
    RemoveRepoRefused(s, name, local);
    OwnRegister(s, local);
    var u := s.(meshRepos := s.meshRepos[name := Record(BumpedVersion(s.meshRepos, name).value, None)]);
    UnregisterKeeps(u, name);
    if name in s.repos {
      UnregisterEffect(u, name);
    } else {
      NotRegistered(u, name);
    }
    BumpedEffect(s.meshRepos, name, None);
    hide Valid, Unregister, RegisterValid, On, Outranks, BumpedVersion;
  }

  /** A machine that holds no higher record of a removed repo unregisters it once
      it merges the remover's membership. */
  lemma RepoRemovalReaches(a: State, ia: EndpointId, n: Name, b: State, ib: EndpointId)
    requires Valid(a, ia) && Valid(b, ib) && RemoveRepo(a, n).Ok?
    requires n in a.meshRepos && n in b.meshRepos && AtLeast(a.meshRepos[n], b.meshRepos[n])
    ensures var t := Merge(b, MembershipOf(RemoveRepo(a, n).value, ia), ib);
            !Live(t.meshRepos, n) && n !in t.repos
  {
    RemoveRepoEffect(a, n, ia);
    RemoveRepoKeeps(a, n, ia);
    var t := RemoveRepo(a, n).value;
    var r := MembershipOf(t, ia);
    StorableRepo(t, ia, n);
    AtLeastOrder();
    MergingBelow(b, ib);
    MergeKeeps(b, r, ib);
    RegisteredLive(Merge(b, r, ib), ib);
    hide Merge, RemoveRepo, Outranks, AtLeast, Merging, RepoStorable;
    RepoReaches(b, r, ib, n);
  }

  lemma StorableRepo(s: State, local: EndpointId, n: Name)
    requires Valid(s, local) && n in s.meshRepos
    ensures RepoStorable(n, s.meshRepos[n])
  {
  }

  lemma RegisteredLive(s: State, local: EndpointId)
    requires Valid(s, local)
    ensures forall n :: n in s.repos ==> Live(s.meshRepos, n)
  {
  }

  /** Registering is refused for an invalid or registered name, a registered path or id,
      a name live under another id, a full mesh list or a record next to the ceiling. It
      makes the name live under its id, over any tombstone, and touches nothing else. */
  lemma AddRepoEffect(s: State, name: Name, repo: Repo)
    ensures AddRepo(s, name, repo).Ok? <==>
            && Order.ValidName(name) && name !in s.repos
            && (forall n :: n in s.repos ==> s.repos[n].id != repo.id && s.repos[n].path != repo.path)
            && (Live(s.meshRepos, name) ==> s.meshRepos[name].value == Some(repo.id))
            && (if name in s.meshRepos then s.meshRepos[name].version + 1 < MAX_RECORD_VERSION
                else |s.meshRepos| < MAX_MESH_REPOS)
    ensures AddRepo(s, name, repo).Ok? ==>
              var t := AddRepo(s, name, repo).value;
              && t.repos == s.repos[name := repo]
              && name in t.meshRepos && t.meshRepos[name].value == Some(repo.id)
              && (name in s.meshRepos ==> Outranks(t.meshRepos[name], s.meshRepos[name]))
              && t.meshRepos - {name} == s.meshRepos - {name} && t.(repos := s.repos, meshRepos := s.meshRepos) == s
  {
    hide Order.ValidName;
    if AddRepo(s, name, repo).Ok? {
      BumpedEffect(s.meshRepos, name, Some(repo.id));
    }
  }

  /** Forgetting a registered repo leaves the mesh list: it stays known to the mesh. */
  lemma ForgetRepoEffect(s: State, name: Name, local: EndpointId)
    requires Valid(s, local)
    ensures ForgetRepo(s, name).Ok? <==> name in s.repos
    ensures name in s.repos ==>
              var t := ForgetRepo(s, name).value;
              && t.repos == s.repos - {name} && t.meshRepos == s.meshRepos && Live(t.meshRepos, name)
              && (s.claims.version + 1 < MAX_RECORD_VERSION ==> On(t.claims.repos, s.repos[name].id) == {})
              && (forall id :: id != s.repos[name].id ==> On(t.claims.repos, id) == On(s.claims.repos, id))
              && t.machine == s.machine && t.peers == s.peers && t.peerClaims == s.peerClaims
  {
    RegisteredLive(s, local);
    OwnRegister(s, local);
    UnregisterKeeps(s, name);
    if name in s.repos {
      UnregisterEffect(s, name);
    }
    hide Valid, Unregister, RegisterValid, On;
  }

  // Claims.

  /** The room a repo task is given on a repo is exactly what the store accepts. */
  lemma LimitExact(s: State, local: EndpointId, id: RepoId, names: set<Name>)
    requires Valid(s, local) && forall n :: n in names ==> Order.ValidName(n)
    ensures IsValid(Put(s.claims.repos, id, names)) <==>
            |names| <= MAX_MACHINE_WORKSPACES - (Count(s.claims.repos) - |On(s.claims.repos, id)|)
  {
    CountPut(s.claims.repos, id, names);
    RegisterNames(s.claims);
    NamesPut(s.claims.repos, id, names);
    hide Count, NamesValid, Put, On, Merging, Order.ValidName;
  }

  lemma NamesPut(repos: map<RepoId, set<Name>>, id: RepoId, names: set<Name>)
    requires NamesValid(repos) && forall n :: n in names ==> Order.ValidName(n)
    ensures NamesValid(Put(repos, id, names))
  {
    hide Order.ValidName;
  }

  lemma CountPut(repos: map<RepoId, set<Name>>, id: RepoId, names: set<Name>)
    ensures Count(Put(repos, id, names)) == Count(repos) - |On(repos, id)| + |names|
  {
    SizesPut(repos, id, names);
    hide Sizes, Put, On;
    if id in Sizes(repos) {
      TotalSplit(Sizes(repos), id);
    }
    TotalUpdate(Sizes(repos), id, |names|);
  }

  lemma SizesPut(repos: map<RepoId, set<Name>>, id: RepoId, names: set<Name>)
    ensures var sizes := Sizes(repos);
            && |On(repos, id)| == (if id in sizes then sizes[id] else 0)
            && (id !in sizes ==> sizes - {id} == sizes)
            && Sizes(Put(repos, id, names)) == if names == {} then sizes - {id} else sizes[id := |names|]
  {
    var sizes := Sizes(repos);
    if names == {} {
      SameMap(Sizes(Put(repos, id, names)), sizes - {id});
    } else {
      SameMap(Sizes(Put(repos, id, names)), sizes[id := |names|]);
    }
    if id !in sizes {
      SameMap(sizes - {id}, sizes);
    }
  }

  /** Claims on a registered repo are accepted exactly when nothing changes or the names
      are valid, fit the machine's cap and the version can rise. They then hold
      exactly those names on it, under the next version; nothing else changes. An
      unregistered repo is left unclaimed. */
  lemma SetClaimsEffect(s: State, local: EndpointId, id: RepoId, names: set<Name>)
    requires Valid(s, local)
    ensures !Registered(s.repos, id) ==> SetClaims(s, id, names) == Ok(s)
    ensures Registered(s.repos, id) ==>
              (SetClaims(s, id, names).Ok? <==>
               On(s.claims.repos, id) == names
               || ((forall n :: n in names ==> Order.ValidName(n))
                   && Count(s.claims.repos) - |On(s.claims.repos, id)| + |names| <= MAX_MACHINE_WORKSPACES
                   && s.claims.version + 1 < MAX_RECORD_VERSION))
    ensures Registered(s.repos, id) && SetClaims(s, id, names).Ok? ==>
              var t := SetClaims(s, id, names).value;
              && On(t.claims.repos, id) == names
              && (forall other :: other != id ==> On(t.claims.repos, other) == On(s.claims.repos, other))
              && t.claims.version == s.claims.version + (if On(s.claims.repos, id) == names then 0 else 1)
              && t == s.(claims := t.claims)
  {
    OwnRegister(s, local);
    SetExact(s.claims, id, names);
    ValidPut(s, id, names);
    if forall n :: n in names ==> Order.ValidName(n) {
      LimitExact(s, local, id, names);
    }
    hide Valid, Registered, Set, Put, On, Count, IsValid, Order.ValidName, RegisterValid;
  }

  lemma ValidPut(s: State, id: RepoId, names: set<Name>)
    ensures IsValid(Put(s.claims.repos, id, names)) ==> forall n :: n in names ==> Order.ValidName(n)
  {
    hide Count, Order.ValidName;
    var next := Put(s.claims.repos, id, names);
    assert On(next, id) == names;
  }

  // The own name.

  /** A rename is refused exactly for an invalid name or next to the ceiling; it carries
      the name, under the next version when it changes, and touches nothing else. */
  lemma RenameEffect(s: State, name: Name)
    ensures Rename(s, name).Ok? <==>
            Order.ValidName(name) && (name == s.machine.name || s.machine.version + 1 < MAX_RECORD_VERSION)
    ensures Rename(s, name).Ok? ==>
              var t := Rename(s, name).value;
              && t.machine.name == name && t == s.(machine := t.machine)
              && t.machine.version == s.machine.version + (if name == s.machine.name then 0 else 1)
  {
    hide Order.ValidName;
  }
}
