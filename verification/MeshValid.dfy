/** What every local change and every merge keeps: the caps, the version
    ceiling, claims only for alive machines, and registered repos alive in the
    mesh list. */
module MeshValid {
  import opened Collections
  import opened Order
  import opened Totals
  import opened Registers
  import opened Claims
  import opened MeshModel
  import Sorted

  ghost predicate PeersValid(peers: map<EndpointId, Record>, local: EndpointId) {
    local !in peers && |peers| <= MAX_OTHER_PEERS && forall e :: e in peers ==> PeerStorable(peers[e])
  }

  ghost predicate MeshReposValid(meshRepos: map<Name, Record>) {
    |meshRepos| <= MAX_MESH_REPOS && forall n :: n in meshRepos ==> RepoStorable(n, meshRepos[n])
  }

  ghost predicate ReposValid(repos: map<Name, Repo>, meshRepos: map<Name, Record>) {
    && (forall n :: n in repos ==> Live(meshRepos, n))
    && (forall m, n :: m in repos && n in repos && m != n ==> repos[m].id != repos[n].id)
    && (forall m, n :: m in repos && n in repos && m != n ==> repos[m].path != repos[n].path)
  }

  ghost predicate MachineValid(m: Machine) {
    m.version < MAX_RECORD_VERSION && ValidName(m.name)
  }

  ghost predicate RegisterValid(c: WorkspaceClaims) {
    c.version < MAX_RECORD_VERSION && IsValid(c.repos)
  }

  ghost predicate EachValid(m: map<EndpointId, WorkspaceClaims>) {
    forall e :: e in m ==> RegisterValid(m[e])
  }

  ghost predicate ClaimsBounded(m: map<EndpointId, WorkspaceClaims>) {
    Others(m) <= MAX_OTHER_WORKSPACES && EachValid(m)
  }

  ghost predicate ClaimsAlive(m: map<EndpointId, WorkspaceClaims>, peers: map<EndpointId, Record>) {
    forall e :: e in m ==> Alive(peers, e)
  }

  /** Everything but the aliveness of the claiming machines, which a merge
      restores last. */
  ghost predicate Merging(s: State, local: EndpointId) {
    && MachineValid(s.machine)
    && RegisterValid(s.claims)
    && PeersValid(s.peers, local)
    && MeshReposValid(s.meshRepos)
    && ReposValid(s.repos, s.meshRepos)
    && ClaimsBounded(s.peerClaims)
  }

  ghost predicate Valid(s: State, local: EndpointId) {
    Merging(s, local) && ClaimsAlive(s.peerClaims, s.peers)
  }

  lemma MergingBelow(s: State, local: EndpointId)
    requires Merging(s, local)
    ensures BelowCeiling(s)
  {
  }

  // Merge steps.

  lemma AdoptSize<K(!new)>(m: map<K, Record>, k: K, rec: Record, cap: nat)
    requires |m| <= cap
    ensures |Adopt(m, k, rec, cap)| <= cap
  {
    UpdateSize(m, k, rec);
  }

  lemma AdoptKeeps(peers: map<EndpointId, Record>, e: EndpointId, rec: Record, local: EndpointId)
    requires PeersValid(peers, local) && PeerStorable(rec) && e != local
    ensures PeersValid(Adopt(peers, e, rec, MAX_OTHER_PEERS), local)
  {
    AdoptSize(peers, e, rec, MAX_OTHER_PEERS);
  }

  lemma PeerStepKeeps(s: State, local: EndpointId, e: EndpointId, rec: Record)
    requires Merging(s, local)
    ensures Merging(PeerStep(s, local, e, rec), local)
  {
    if e != local && PeerStorable(rec) {
      AdoptKeeps(s.peers, e, rec, local);
    }
    hide PeersValid, RegisterValid, MeshReposValid, ReposValid, ClaimsBounded, Adopt;
  }

  lemma ReleaseKeeps(c: WorkspaceClaims, repo: RepoId)
    requires RegisterValid(c)
    ensures Set(c, repo, {}).Ok? ==> RegisterValid(Set(c, repo, {}).value)
  {
    SetKeepsValid(c, repo, {});
    hide Set, IsValid;
  }

  /** Unregistering keeps the own claims valid and touches nothing else. */
  lemma UnregisterKeeps(s: State, n: Name)
    requires RegisterValid(s.claims)
    ensures RegisterValid(Unregister(s, n).claims)
    ensures Unregister(s, n) == s.(repos := s.repos - {n}, claims := Unregister(s, n).claims)
  {
    if n in s.repos {
      ReleaseKeeps(s.claims, s.repos[n].id);
      hide RegisterValid, Set;
    } else {
      assert s.repos - {n} == s.repos;
    }
  }

  /** A registered name stays live, or is unregistered by the removal. */
  lemma RegisteredStayLive(repos: map<Name, Repo>, meshRepos: map<Name, Record>, n: Name, rec: Record)
    requires ReposValid(repos, meshRepos)
    ensures ReposValid(if rec.value.None? then repos - {n} else repos, meshRepos[n := rec])
  {
  }

  lemma AdoptRepoKeeps(meshRepos: map<Name, Record>, n: Name, rec: Record)
    requires MeshReposValid(meshRepos) && RepoStorable(n, rec) && (n in meshRepos || |meshRepos| < MAX_MESH_REPOS)
    ensures MeshReposValid(meshRepos[n := rec])
  {
    UpdateSize(meshRepos, n, rec);
    hide RepoStorable;
  }

  lemma RepoStepKeeps(s: State, n: Name, rec: Record, local: EndpointId)
    requires Merging(s, local)
    ensures Merging(RepoStep(s, n, rec), local)
  {
    if RepoStorable(n, rec) && ShouldAdopt(s.meshRepos, n, rec, MAX_MESH_REPOS) {
      RepoWriteKeeps(s, n, rec, local);
    }
    hide Merging, RepoStorable, ShouldAdopt, Unregister;
  }

  /** Writing a mesh record, with the unregistration a removal brings. */
  lemma RepoWriteKeeps(s: State, n: Name, rec: Record, local: EndpointId)
    requires Merging(s, local) && RepoStorable(n, rec) && (n in s.meshRepos || |s.meshRepos| < MAX_MESH_REPOS)
    ensures rec.value.Some? ==> Merging(s.(meshRepos := s.meshRepos[n := rec]), local)
    ensures rec.value.None? ==> Merging(Unregister(s.(meshRepos := s.meshRepos[n := rec]), n), local)
  {
    AdoptRepoKeeps(s.meshRepos, n, rec);
    UnregisterKeeps(s.(meshRepos := s.meshRepos[n := rec]), n);
    RegisteredStayLive(s.repos, s.meshRepos, n, rec);
    hide MachineValid, RegisterValid, PeersValid, MeshReposValid, ReposValid, ClaimsBounded, Unregister;
  }

  lemma AdoptClaimKeeps(peers: map<EndpointId, Record>, held: map<EndpointId, WorkspaceClaims>, e: EndpointId,
                        rec: WorkspaceClaims)
    requires ClaimsBounded(held)
    ensures ClaimsBounded(AdoptClaim(peers, held, e, rec))
  {
    hide IsValid, ClaimsOutrank;
  }

  lemma WithPeerClaims(s: State, local: EndpointId, e: EndpointId, rec: WorkspaceClaims)
    requires Merging(s, local)
    ensures Merging(s.(peerClaims := AdoptClaim(s.peers, s.peerClaims, e, rec)), local)
  {
    AdoptClaimKeeps(s.peers, s.peerClaims, e, rec);
    hide MachineValid, RegisterValid, PeersValid, MeshReposValid, ReposValid, ClaimsBounded, AdoptClaim;
  }

  lemma WithClaims(s: State, local: EndpointId, rec: WorkspaceClaims)
    requires Merging(s, local)
    ensures BelowCeiling(s) && Merging(s.(claims := Observe(s.claims, rec)), local)
  {
    assert RegisterValid(Observe(s.claims, rec));
    hide MachineValid, PeersValid, MeshReposValid, ReposValid, ClaimsBounded, Observe, IsValid;
  }

  lemma ClaimStepKeeps(s: State, local: EndpointId, e: EndpointId, rec: WorkspaceClaims)
    requires Merging(s, local)
    ensures Merging(ClaimStep(s, local, e, rec), local)
    ensures ClaimStep(s, local, e, rec).peers == s.peers
  {
    hide *;
    MergingBelow(s, local);
    WithPeerClaims(s, local, e, rec);
    WithClaims(s, local, rec);
    ClaimStepCases(s, local, e, rec);
  }

  lemma ClaimStepCases(s: State, local: EndpointId, e: EndpointId, rec: WorkspaceClaims)
    requires BelowCeiling(s)
    ensures ClaimStep(s, local, e, rec) == s
         || ClaimStep(s, local, e, rec) == s.(claims := Observe(s.claims, rec))
         || ClaimStep(s, local, e, rec) == s.(peerClaims := AdoptClaim(s.peers, s.peerClaims, e, rec))
    ensures ClaimStep(s, local, e, rec).peers == s.peers
  {
    hide AdoptClaim, Observe;
  }

  lemma PruneBounded(s: State)
    requires ClaimsBounded(s.peerClaims)
    ensures ClaimsBounded(Prune(s).peerClaims)
  {
    TotalBelow(Counts(Prune(s).peerClaims), Counts(s.peerClaims));
    hide RegisterValid;
  }

  lemma PruneKeeps(s: State, local: EndpointId)
    requires Merging(s, local)
    ensures Valid(Prune(s), local)
  {
    PruneBounded(s);
    hide MachineValid, RegisterValid, PeersValid, MeshReposValid, ReposValid, ClaimsBounded;
  }

  lemma {:induction false} MergePeersKeeps(s: State, local: EndpointId, m: map<EndpointId, Record>,
                                           keys: seq<EndpointId>)
    requires Merging(s, local) && forall e :: e in keys ==> e in m
    ensures Merging(MergePeers(s, local, m, keys), local)
    decreases |keys|
  {
    assert BelowCeiling(s);
    hide Merging, PeerStep, BelowCeiling;
    if keys != [] {
      var last := |keys| - 1;
      MergePeersKeeps(s, local, m, keys[..last]);
      PeerStepKeeps(MergePeers(s, local, m, keys[..last]), local, keys[last], m[keys[last]]);
    }
  }

  lemma {:induction false} MergeReposKeeps(s: State, m: map<Name, Record>, keys: seq<Name>, local: EndpointId)
    requires Merging(s, local) && forall n :: n in keys ==> n in m
    ensures Merging(MergeRepos(s, m, keys), local)
    decreases |keys|
  {
    assert BelowCeiling(s);
    hide Merging, RepoStep, BelowCeiling;
    if keys != [] {
      var last := |keys| - 1;
      MergeReposKeeps(s, m, keys[..last], local);
      RepoStepKeeps(MergeRepos(s, m, keys[..last]), keys[last], m[keys[last]], local);
    }
  }

  lemma {:induction false} MergeClaimsKeeps(s: State, local: EndpointId, m: map<EndpointId, WorkspaceClaims>,
                                            keys: seq<EndpointId>)
    requires Merging(s, local) && forall e :: e in keys ==> e in m
    ensures Merging(MergeClaims(s, local, m, keys), local)
    decreases |keys|
  {
    assert BelowCeiling(s);
    hide Merging, ClaimStep, BelowCeiling;
    if keys != [] {
      var last := |keys| - 1;
      MergeClaimsKeeps(s, local, m, keys[..last]);
      ClaimStepKeeps(MergeClaims(s, local, m, keys[..last]), local, keys[last], m[keys[last]]);
    }
  }

  /** Whatever a peer sends, the merged state is valid. */
  lemma MergeKeeps(s: State, remote: Membership, local: EndpointId)
    requires Valid(s, local)
    ensures Valid(Merge(s, remote, local), local)
  {
    hide Merging, MergePeers, MergeRepos, MergeClaims, Prune, Sorted.Keys, Order.Sorted, BelowCeiling;
    MergingBelow(s, local);
    var pk, rk, ck := Sorted.Keys(remote.peers.Keys), Order.Sorted(remote.repos.Keys), Sorted.Keys(remote.claims.Keys);
    MergePeersKeeps(s, local, remote.peers, pk);
    var a := MergePeers(s, local, remote.peers, pk);
    MergeReposKeeps(a, remote.repos, rk, local);
    var b := MergeRepos(a, remote.repos, rk);
    MergeClaimsKeeps(b, local, remote.claims, ck);
    PruneKeeps(MergeClaims(b, local, remote.claims, ck), local);
  }

  // Local changes.

  lemma AddPeerKeeps(s: State, e: EndpointId, name: Name, local: EndpointId)
    requires Valid(s, local) && e != local && AddPeer(s, e, name).Ok?
    ensures Valid(AddPeer(s, e, name).value, local)
  {
    var rec := Record(BumpedVersion(s.peers, e).value, Some(name));
    UpdateSize(s.peers, e, rec);
    hide MachineValid, RegisterValid, MeshReposValid, ReposValid, ClaimsBounded, ValidName;
    assert PeersValid(s.peers[e := rec], local);
  }

  lemma RenameKeeps(s: State, name: Name, local: EndpointId)
    requires Valid(s, local) && Rename(s, name).Ok?
    ensures Valid(Rename(s, name).value, local)
  {
    hide RegisterValid, PeersValid, MeshReposValid, ReposValid, ClaimsBounded, ValidName;
  }

  lemma RemovePeerKeeps(s: State, e: EndpointId, local: EndpointId)
    requires Valid(s, local) && e in s.peers && RemovePeer(s, e).Ok?
    ensures Valid(RemovePeer(s, e).value, local)
  {
    var rec := Record(BumpedVersion(s.peers, e).value, None);
    UpdateSize(s.peers, e, rec);
    assert PeersValid(s.peers[e := rec], local);
    hide MachineValid, RegisterValid, PeersValid, MeshReposValid, ReposValid, ClaimsBounded;
    PruneKeeps(s.(peers := s.peers[e := rec]), local);
    hide Valid;
  }

  lemma AddedRepoValid(repos: map<Name, Repo>, meshRepos: map<Name, Record>, n: Name, repo: Repo, rec: Record)
    requires ReposValid(repos, meshRepos) && rec.value.Some? && !Registered(repos, repo.id)
    requires !exists m :: m in repos && repos[m].path == repo.path
    ensures ReposValid(repos[n := repo], meshRepos[n := rec])
  {
  }

  lemma AddRepoKeeps(s: State, name: Name, repo: Repo, local: EndpointId)
    requires Valid(s, local) && AddRepo(s, name, repo).Ok?
    ensures Valid(AddRepo(s, name, repo).value, local)
  {
    var rec := Record(BumpedVersion(s.meshRepos, name).value, Some(repo.id));
    AdoptRepoKeeps(s.meshRepos, name, rec);
    AddedRepoValid(s.repos, s.meshRepos, name, repo, rec);
    hide MachineValid, RegisterValid, PeersValid, MeshReposValid, ReposValid, ClaimsBounded, ValidName, Registered;
  }

  lemma RemoveRepoKeeps(s: State, name: Name, local: EndpointId)
    requires Valid(s, local) && RemoveRepo(s, name).Ok?
    ensures Valid(RemoveRepo(s, name).value, local)
  {
    var rec := Record(BumpedVersion(s.meshRepos, name).value, None);
    assert name in s.meshRepos && RepoStorable(name, rec);
    RepoWriteKeeps(s, name, rec, local);
    UnregisterKeeps(s.(meshRepos := s.meshRepos[name := rec]), name);
    hide Merging, Unregister;
  }

  lemma ForgetRepoKeeps(s: State, name: Name, local: EndpointId)
    requires Valid(s, local) && ForgetRepo(s, name).Ok?
    ensures Valid(ForgetRepo(s, name).value, local)
  {
    UnregisterKeeps(s, name);
    assert ReposValid(s.repos - {name}, s.meshRepos);
    hide MachineValid, RegisterValid, PeersValid, MeshReposValid, ReposValid, ClaimsBounded, Unregister;
  }

  lemma SetClaimsKeeps(s: State, id: RepoId, names: set<Name>, local: EndpointId)
    requires Valid(s, local) && SetClaims(s, id, names).Ok?
    ensures Valid(SetClaims(s, id, names).value, local)
  {
    SetKeepsValid(s.claims, id, names);
    hide MachineValid, PeersValid, MeshReposValid, ReposValid, ClaimsBounded, Set, IsValid;
  }

  // Runs.

  datatype Action =
    | DoAddPeer(endpoint: EndpointId, name: Name)
    | DoRename(name: Name)
    | DoRemovePeer(endpoint: EndpointId)
    | DoAddRepo(name: Name, repo: Repo)
    | DoRemoveRepo(name: Name)
    | DoForgetRepo(name: Name)
    | DoSetClaims(id: RepoId, names: set<Name>)
    | DoMerge(remote: Membership)

  /** The state after an action; a refused one leaves it as it was. */
  ghost function Act(s: State, a: Action, local: EndpointId): State
    requires BelowCeiling(s)
  {
    var r := match a
      case DoAddPeer(e, name) => AddPeer(s, e, name)
      case DoRename(name) => Rename(s, name)
      case DoRemovePeer(e) => if Alive(s.peers, e) then RemovePeer(s, e) else Err
      case DoAddRepo(name, repo) => AddRepo(s, name, repo)
      case DoRemoveRepo(name) => RemoveRepo(s, name)
      case DoForgetRepo(name) => ForgetRepo(s, name)
      case DoSetClaims(id, names) => SetClaims(s, id, names)
      case DoMerge(remote) => Ok(Merge(s, remote, local));
    if r.Ok? then r.value else s
  }

  lemma ActKeeps(s: State, a: Action, local: EndpointId)
    requires Valid(s, local) && (a.DoAddPeer? ==> a.endpoint != local)
    ensures Valid(Act(s, a, local), local)
  {
    assert BelowCeiling(s);
    hide Valid, AddPeer, Rename, RemovePeer, AddRepo, RemoveRepo, ForgetRepo, SetClaims, Merge;
    var t := Act(s, a, local);
    match a
    case DoAddPeer(e, name) =>
      if AddPeer(s, e, name).Ok? { AddPeerKeeps(s, e, name, local); }
    case DoRename(name) =>
      if Rename(s, name).Ok? { RenameKeeps(s, name, local); }
    case DoRemovePeer(e) =>
      if Alive(s.peers, e) && RemovePeer(s, e).Ok? { RemovePeerKeeps(s, e, local); }
    case DoAddRepo(name, repo) =>
      if AddRepo(s, name, repo).Ok? { AddRepoKeeps(s, name, repo, local); }
    case DoRemoveRepo(name) =>
      if RemoveRepo(s, name).Ok? { RemoveRepoKeeps(s, name, local); }
    case DoForgetRepo(name) =>
      if ForgetRepo(s, name).Ok? { ForgetRepoKeeps(s, name, local); }
    case DoSetClaims(id, names) =>
      if SetClaims(s, id, names).Ok? { SetClaimsKeeps(s, id, names, local); }
    case DoMerge(remote) => MergeKeeps(s, remote, local);
  }

  function Initial(hostname: Name): State {
    State(Machine(hostname, 0), map[], map[], map[], WorkspaceClaims(0, map[]), map[])
  }

  lemma InitialValid(hostname: Name, local: EndpointId)
    requires ValidName(hostname)
    ensures Valid(Initial(hostname), local)
  {
    var none: map<RepoId, set<Name>> := map[];
    assert Sizes(none) == map[] && Count(none) == 0;
    var s := Initial(hostname);
    assert Counts(s.peerClaims) == map[] && Others(s.peerClaims) == 0;
  }

  /** States reachable by any run of local changes and merges in which this
      machine is never paired with itself. */
  ghost predicate Run(trace: seq<State>, actions: seq<Action>, local: EndpointId) {
    && |trace| == |actions| + 1
    && (exists hostname :: ValidName(hostname) && trace[0] == Initial(hostname))
    && (forall i: nat :: i < |actions| ==>
          BelowCeiling(trace[i]) && trace[i + 1] == Act(trace[i], actions[i], local)
          && (actions[i].DoAddPeer? ==> actions[i].endpoint != local))
  }

  lemma {:induction false} ReachableValid(trace: seq<State>, actions: seq<Action>, local: EndpointId, n: nat)
    requires Run(trace, actions, local) && n < |trace|
    ensures Valid(trace[n], local)
  {
    hide Valid, Act;
    if n == 0 {
      var hostname :| ValidName(hostname) && trace[0] == Initial(hostname);
      InitialValid(hostname, local);
    } else {
      ReachableValid(trace, actions, local, n - 1);
      ActKeeps(trace[n - 1], actions[n - 1], local);
    }
  }

  // Gossip.

  function RepoCounts(m: map<EndpointId, WorkspaceClaims>): map<EndpointId, nat> {
    map e | e in m :: |m[e].repos|
  }

  /** The five counts a receiver checks before it merges a membership. */
  ghost predicate WithinWire(m: Membership) {
    && |m.peers| <= MAX_MESH_PEERS
    && |m.repos| <= MAX_MESH_REPOS
    && |m.claims| <= MAX_MESH_PEERS
    && Total(RepoCounts(m.claims)) <= MAX_MESH_WORKSPACES
    && Total(Counts(m.claims)) <= MAX_MESH_WORKSPACES
  }

  lemma CountsUpdate(m: map<EndpointId, WorkspaceClaims>, k: EndpointId, c: WorkspaceClaims)
    ensures Others(m[k := c]) == Count(c.repos) + Total(Counts(m) - {k})
    ensures Total(Counts(m) - {k}) <= Others(m)
  {
    hide Count;
    var own: nat := Count(c.repos);
    assert Counts(m[k := c]) == Counts(m)[k := own];
    TotalUpdate(Counts(m), k, own);
    hide Counts;
    TotalBelow(Counts(m) - {k}, Counts(m));
  }

  /** What is left of the others' count without a machine's held record. */
  lemma WithoutHeld(m: map<EndpointId, WorkspaceClaims>, k: EndpointId)
    ensures Others(m) == Total(Counts(m) - {k}) + if k in m then Count(m[k].repos) else 0
  {
    hide Count;
    if k in m {
      TotalSplit(Counts(m), k);
    } else {
      assert Counts(m) - {k} == Counts(m);
    }
  }

  /** Swapping a machine's held record for another one on the running count. */
  lemma RunningCount(m: map<EndpointId, WorkspaceClaims>, e: EndpointId, rec: WorkspaceClaims)
    ensures (if e in m then Count(m[e].repos) else 0) <= Others(m)
    ensures Others(m[e := rec]) == Others(m) - (if e in m then Count(m[e].repos) else 0) + Count(rec.repos)
  {
    hide *;
    CountsUpdate(m, e, rec);
    WithoutHeld(m, e);
  }

  lemma RegisterNames(c: WorkspaceClaims)
    requires RegisterValid(c)
    ensures NamesValid(c.repos)
  {
  }

  lemma ReposFitNames(m: map<EndpointId, WorkspaceClaims>)
    requires EachValid(m)
    ensures Total(RepoCounts(m)) <= Others(m)
  {
    hide IsValid;
    forall e | e in m ensures |m[e].repos| <= Count(m[e].repos) {
      assert NamesValid(m[e].repos) by { RegisterNames(m[e]); }
      ReposBelowNames(m[e].repos);
    }
    TotalBelow(RepoCounts(m), Counts(m));
  }

  lemma ClaimantsFit(s: State, local: EndpointId)
    requires PeersValid(s.peers, local) && ClaimsAlive(s.peerClaims, s.peers)
    ensures |s.peerClaims[local := s.claims]| <= MAX_MESH_PEERS
  {
    UpdateSize(s.peerClaims, local, s.claims);
    SubsetSize(s.peerClaims.Keys, s.peers.Keys);
    assert |s.peerClaims| == |s.peerClaims.Keys| && |s.peers| == |s.peers.Keys|;
  }

  lemma ClaimsFit(m: map<EndpointId, WorkspaceClaims>, k: EndpointId, c: WorkspaceClaims)
    requires ClaimsBounded(m) && RegisterValid(c)
    ensures Total(RepoCounts(m[k := c])) <= Total(Counts(m[k := c])) <= MAX_MESH_WORKSPACES
  {
    CountsUpdate(m, k, c);
    assert EachValid(m[k := c]);
    assert Count(c.repos) <= MAX_MACHINE_WORKSPACES;
    ReposFitNames(m[k := c]);
    hide RepoCounts, Counts, Count, EachValid;
  }

  /** A valid state can always be gossiped: no receiver refuses it. */
  lemma Gossipable(s: State, local: EndpointId)
    requires Valid(s, local)
    ensures WithinWire(MembershipOf(s, local))
  {
    UpdateSize(s.peers, local, Record(s.machine.version, Some(s.machine.name)));
    ClaimantsFit(s, local);
    ClaimsFit(s.peerClaims, local, s.claims);
    hide RepoCounts, Counts, ClaimsBounded, RegisterValid, MachineValid, ReposValid, ClaimsAlive;
  }

  /** In a valid state the room left to claim on a repo, and the count a merge
      subtracts a held record from, never underflow. */
  lemma NoUnderflow(s: State, local: EndpointId, id: RepoId, e: EndpointId)
    requires Valid(s, local)
    ensures |On(s.claims.repos, id)| <= Count(s.claims.repos) <= MAX_MACHINE_WORKSPACES
    ensures e in s.peerClaims ==> Count(s.peerClaims[e].repos) <= Others(s.peerClaims)
  {
    if id in s.claims.repos {
      TotalAtLeast(Sizes(s.claims.repos), id);
    }
    if e in s.peerClaims {
      TotalAtLeast(Counts(s.peerClaims), e);
    }
    hide PeersValid, MeshReposValid, ReposValid, ClaimsAlive, NamesValid;
  }

  /** The cheap comparison of two states sees exactly the changes of what is
      gossiped. */
  lemma DiffersExactly(a: State, b: State, local: EndpointId)
    requires Valid(a, local) && Valid(b, local)
    ensures MembershipOf(a, local) == MembershipOf(b, local) <==>
            a.machine == b.machine && a.peers == b.peers && a.meshRepos == b.meshRepos && a.claims == b.claims
            && a.peerClaims == b.peerClaims
  {
    if MembershipOf(a, local) == MembershipOf(b, local) {
      var ra, rb := Record(a.machine.version, Some(a.machine.name)), Record(b.machine.version, Some(b.machine.name));
      WithoutKey(a.peers, b.peers, local, ra, rb);
      WithoutKey(a.peerClaims, b.peerClaims, local, a.claims, b.claims);
    }
  }

  lemma WithoutKey<V>(a: map<EndpointId, V>, b: map<EndpointId, V>, k: EndpointId, v: V, w: V)
    requires k !in a && k !in b && a[k := v] == b[k := w]
    ensures a == b && v == w
  {
    assert a[k := v] - {k} == a && b[k := w] - {k} == b;
    assert a[k := v][k] == v && b[k := w][k] == w;
  }
}
