/** The value of a machine's mesh state, its local changes and its merges as
    functions on that value, and what every one of them keeps. */
module MeshModel {
  import opened Collections
  import opened Order
  import opened Totals
  import opened Registers
  import opened Claims
  import Sorted

  type Path = string

  /** A machine's own record. */
  datatype Machine = Machine(name: Name, version: nat)

  /** A repo registered here. */
  datatype Repo = Repo(id: RepoId, path: Path)

  datatype State = State(
    machine: Machine, peers: map<EndpointId, Record>, repos: map<Name, Repo>, meshRepos: map<Name, Record>,
    claims: WorkspaceClaims, peerClaims: map<EndpointId, WorkspaceClaims>)

  /** What one machine gossips: its whole view of the mesh. */
  datatype Membership = Membership(
    peers: map<EndpointId, Record>, repos: map<Name, Record>, claims: map<EndpointId, WorkspaceClaims>)

  predicate Alive(peers: map<EndpointId, Record>, e: EndpointId) {
    e in peers && peers[e].value.Some?
  }

  predicate Live(meshRepos: map<Name, Record>, n: Name) {
    n in meshRepos && meshRepos[n].value.Some?
  }

  predicate Registered(repos: map<Name, Repo>, id: RepoId) {
    exists n :: n in repos && repos[n].id == id
  }

  /** The membership this machine gossips, its own records under `local`. */
  function MembershipOf(s: State, local: EndpointId): Membership {
    Membership(
      s.peers[local := Record(s.machine.version, Some(s.machine.name))], s.meshRepos,
      s.peerClaims[local := s.claims])
  }

  // Merging.

  /** Our own record past a copy of it that a peer gossiped back. */
  function ObserveMachine(m: Machine, copy: Record): (r: Machine)
    requires m.version < MAX_RECORD_VERSION
    ensures r.name == m.name && m.version <= r.version < MAX_RECORD_VERSION
    ensures r.version + 1 < MAX_RECORD_VERSION && copy.value.Some? ==>
              Record(r.version, Some(r.name)) == copy || r.version > copy.version
    ensures r.version + 1 < MAX_RECORD_VERSION ==> r.version >= copy.version
    ensures m.version >= copy.version && (copy.value.None? || copy.value.value == m.name) ==> r == m
    ensures r.version <= m.version || r.version <= copy.version + 1
  {
    var outranking := if copy.value.Some? && copy.value.value != m.name then copy.version + 1 else copy.version;
    m.(version := Min(Max(m.version, outranking), MAX_RECORD_VERSION - 1))
  }

  /** A record a merge may store under another machine's key. */
  predicate PeerStorable(rec: Record) {
    rec.version < MAX_RECORD_VERSION && (rec.value.Some? ==> ValidName(rec.value.value))
  }

  predicate RepoStorable(n: Name, rec: Record) {
    rec.version < MAX_RECORD_VERSION && ValidName(n)
  }

  function Adopt<K>(held: map<K, Record>, key: K, record: Record, cap: nat): map<K, Record> {
    if ShouldAdopt(held, key, record, cap) then held[key := record] else held
  }

  function PeerStep(s: State, local: EndpointId, e: EndpointId, rec: Record): State
    requires s.machine.version < MAX_RECORD_VERSION
  {
    if rec.version >= MAX_RECORD_VERSION then s
    else if e == local then s.(machine := ObserveMachine(s.machine, rec))
    else if !PeerStorable(rec) then s
    else s.(peers := Adopt(s.peers, e, rec, MAX_OTHER_PEERS))
  }

  /** Unregisters a repo here and releases its claims; claims that cannot be
      released are only logged. */
  function Unregister(s: State, n: Name): State {
    if n !in s.repos then s
    else
      var released := Set(s.claims, s.repos[n].id, {});
      s.(repos := s.repos - {n}, claims := if released.Ok? then released.value else s.claims)
  }

  function RepoStep(s: State, n: Name, rec: Record): State {
    if !RepoStorable(n, rec) || !ShouldAdopt(s.meshRepos, n, rec, MAX_MESH_REPOS) then s
    else
      var t := s.(meshRepos := s.meshRepos[n := rec]);
      if rec.value.None? then Unregister(t, n) else t
  }

  function Counts(m: map<EndpointId, WorkspaceClaims>): map<EndpointId, nat> {
    map e | e in m :: Count(m[e].repos)
  }

  /** The workspaces other machines claim. */
  ghost function Others(m: map<EndpointId, WorkspaceClaims>): nat {
    Total(Counts(m))
  }

  /** Whether a gossiped claims record is worth keeping, room aside. */
  predicate ClaimWanted(peers: map<EndpointId, Record>, held: map<EndpointId, WorkspaceClaims>, e: EndpointId,
                        rec: WorkspaceClaims) {
    rec.version < MAX_RECORD_VERSION && Alive(peers, e) && (e in held ==> ClaimsOutrank(rec, held[e]))
    && IsValid(rec.repos)
  }

  ghost function AdoptClaim(peers: map<EndpointId, Record>, held: map<EndpointId, WorkspaceClaims>, e: EndpointId,
                            rec: WorkspaceClaims): map<EndpointId, WorkspaceClaims> {
    if ClaimWanted(peers, held, e, rec) && Others(held[e := rec]) <= MAX_OTHER_WORKSPACES then held[e := rec]
    else held
  }

  ghost function ClaimStep(s: State, local: EndpointId, e: EndpointId, rec: WorkspaceClaims): State
    requires s.claims.version < MAX_RECORD_VERSION
  {
    if rec.version >= MAX_RECORD_VERSION then s
    else if e == local then s.(claims := Observe(s.claims, rec))
    else s.(peerClaims := AdoptClaim(s.peers, s.peerClaims, e, rec))
  }

  function Prune(s: State): State {
    s.(peerClaims := map e | e in s.peerClaims && Alive(s.peers, e) :: s.peerClaims[e])
  }

  /** Own versions never reach the ceiling, where every machine would discard
      them. */
  predicate BelowCeiling(s: State) {
    s.machine.version < MAX_RECORD_VERSION && s.claims.version < MAX_RECORD_VERSION
  }

  function MergePeers(s: State, local: EndpointId, m: map<EndpointId, Record>, keys: seq<EndpointId>): (t: State)
    requires BelowCeiling(s) && forall e :: e in keys ==> e in m
    ensures BelowCeiling(t)
    ensures t.(machine := s.machine, peers := s.peers) == s
    decreases |keys|
  {
    if keys == [] then s
    else
      var last := |keys| - 1;
      PeerStep(MergePeers(s, local, m, keys[..last]), local, keys[last], m[keys[last]])
  }

  function MergeRepos(s: State, m: map<Name, Record>, keys: seq<Name>): (t: State)
    requires BelowCeiling(s) && forall n :: n in keys ==> n in m
    ensures BelowCeiling(t)
    ensures t.(repos := s.repos, meshRepos := s.meshRepos, claims := s.claims) == s
    decreases |keys|
  {
    if keys == [] then s
    else
      var last := |keys| - 1;
      RepoStep(MergeRepos(s, m, keys[..last]), keys[last], m[keys[last]])
  }

  ghost function MergeClaims(s: State, local: EndpointId, m: map<EndpointId, WorkspaceClaims>, keys: seq<EndpointId>):
    (t: State)
    requires BelowCeiling(s) && forall e :: e in keys ==> e in m
    ensures BelowCeiling(t)
    ensures t.(claims := s.claims, peerClaims := s.peerClaims) == s
    decreases |keys|
  {
    if keys == [] then s
    else
      var last := |keys| - 1;
      ClaimStep(MergeClaims(s, local, m, keys[..last]), local, keys[last], m[keys[last]])
  }

  lemma NoPeers(s: State, local: EndpointId, m: map<EndpointId, Record>)
    requires BelowCeiling(s)
    ensures MergePeers(s, local, m, []) == s
  {
  }

  lemma NoRepos(s: State, m: map<Name, Record>)
    requires BelowCeiling(s)
    ensures MergeRepos(s, m, []) == s
  {
  }

  lemma NoClaims(s: State, local: EndpointId, m: map<EndpointId, WorkspaceClaims>)
    requires BelowCeiling(s)
    ensures MergeClaims(s, local, m, []) == s
  {
  }

  lemma PeersOneMore(s: State, local: EndpointId, m: map<EndpointId, Record>, keys: seq<EndpointId>, i: nat)
    requires BelowCeiling(s) && (forall e :: e in keys ==> e in m) && i < |keys|
    ensures MergePeers(s, local, m, keys[..i + 1]) ==
            PeerStep(MergePeers(s, local, m, keys[..i]), local, keys[i], m[keys[i]])
  {
    hide PeerStep;
    assert keys[..i + 1][..i] == keys[..i];
  }

  lemma ReposOneMore(s: State, m: map<Name, Record>, keys: seq<Name>, i: nat)
    requires BelowCeiling(s) && (forall n :: n in keys ==> n in m) && i < |keys|
    ensures MergeRepos(s, m, keys[..i + 1]) == RepoStep(MergeRepos(s, m, keys[..i]), keys[i], m[keys[i]])
  {
    hide RepoStep;
    assert keys[..i + 1][..i] == keys[..i];
  }

  lemma ClaimsOneMore(s: State, local: EndpointId, m: map<EndpointId, WorkspaceClaims>, keys: seq<EndpointId>, i: nat)
    requires BelowCeiling(s) && (forall e :: e in keys ==> e in m) && i < |keys|
    ensures MergeClaims(s, local, m, keys[..i + 1]) ==
            ClaimStep(MergeClaims(s, local, m, keys[..i]), local, keys[i], m[keys[i]])
  {
    hide ClaimStep;
    assert keys[..i + 1][..i] == keys[..i];
  }

  /** The state after merging a peer's membership. */
  ghost function Merge(s: State, remote: Membership, local: EndpointId): (t: State)
    requires BelowCeiling(s)
    ensures BelowCeiling(t)
  {
    var a := MergePeers(s, local, remote.peers, Sorted.Keys(remote.peers.Keys));
    var b := MergeRepos(a, remote.repos, Order.Sorted(remote.repos.Keys));
    Prune(MergeClaims(b, local, remote.claims, Sorted.Keys(remote.claims.Keys)))
  }

  // Local changes.

  function AddPeer(s: State, e: EndpointId, name: Name): Result<State> {
    if !ValidName(name) || Alive(s.peers, e) || (e !in s.peers && |s.peers| >= MAX_OTHER_PEERS) then Err
    else
      var version := BumpedVersion(s.peers, e);
      if version.Err? then Err else Ok(s.(peers := s.peers[e := Record(version.value, Some(name))]))
  }

  function Rename(s: State, name: Name): Result<State> {
    if !ValidName(name) then Err
    else if name == s.machine.name then Ok(s)
    else
      var version := NextVersion(s.machine.version);
      if version.Err? then Err else Ok(s.(machine := Machine(name, version.value)))
  }

  function Named(peers: map<EndpointId, Record>, name: Name): set<EndpointId> {
    set e | e in peers && peers[e].value == Some(name)
  }

  /** The alive peer a name or an endpoint id selects: the only one of that name, or
      when there is none the one of that id. */
  ghost predicate Selects(peers: map<EndpointId, Record>, selector: Name, parsed: Option<EndpointId>, e: EndpointId) {
    && Alive(peers, e)
    && ((peers[e].value == Some(selector) && forall f :: f in peers && peers[f].value == Some(selector) ==> f == e)
        || ((forall f :: f in peers ==> peers[f].value != Some(selector)) && parsed == Some(e)))
  }

  function RemovePeer(s: State, e: EndpointId): Result<State> {
    var version := BumpedVersion(s.peers, e);
    if version.Err? then Err else Ok(Prune(s.(peers := s.peers[e := Record(version.value, None)])))
  }

  function AddRepo(s: State, name: Name, repo: Repo): Result<State> {
    if !ValidName(name) || name in s.repos || (exists n :: n in s.repos && s.repos[n].path == repo.path)
       || (Live(s.meshRepos, name) && s.meshRepos[name].value.value != repo.id)
       || Registered(s.repos, repo.id)
       || (name !in s.meshRepos && |s.meshRepos| >= MAX_MESH_REPOS)
    then Err
    else
      var version := BumpedVersion(s.meshRepos, name);
      if version.Err? then Err
      else Ok(s.(meshRepos := s.meshRepos[name := Record(version.value, Some(repo.id))],
                 repos := s.repos[name := repo]))
  }

  function RemoveRepo(s: State, name: Name): Result<State> {
    if !Live(s.meshRepos, name) && name !in s.repos then Err
    else
      var version := BumpedVersion(s.meshRepos, name);
      if version.Err? then Err
      else Ok(Unregister(s.(meshRepos := s.meshRepos[name := Record(version.value, None)]), name))
  }

  function ForgetRepo(s: State, name: Name): Result<State> {
    if name in s.repos then Ok(Unregister(s, name)) else Err
  }

  function SetClaims(s: State, id: RepoId, names: set<Name>): Result<State> {
    if !Registered(s.repos, id) then Ok(s)
    else
      var next := Set(s.claims, id, names);
      if next.Err? then Err else Ok(s.(claims := next.value))
  }
}
