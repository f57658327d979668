/** A machine's copy of the mesh state, changed in place, and the store that
    persists it and broadcasts what it gossips. */
module MeshState {
  import opened Collections
  import opened Order
  import opened Totals
  import opened Registers
  import opened Claims
  import M = MeshModel
  import V = MeshValid
  import Sorted

  function NameOf(peers: map<EndpointId, Record>, e: EndpointId): Name
    requires M.Alive(peers, e)
  {
    peers[e].value.value
  }

  /** Machines claiming `name` on the repo, by name, in endpoint order. */
  function Claimants(peers: map<EndpointId, Record>, held: map<EndpointId, WorkspaceClaims>, id: RepoId, name: Name,
                     keys: seq<EndpointId>): seq<Name>
    requires forall e :: e in keys ==> e in held
    decreases |keys|
  {
    if keys == [] then []
    else
      var e := keys[|keys| - 1];
      Claimants(peers, held, id, name, keys[..|keys| - 1])
      + if M.Alive(peers, e) && name in On(held[e].repos, id) then [NameOf(peers, e)] else []
  }

  /** Exactly the names of the alive machines that claim the workspace are listed. */
  lemma {:induction false} ClaimantsExact(peers: map<EndpointId, Record>, held: map<EndpointId, WorkspaceClaims>,
                                          id: RepoId, name: Name, keys: seq<EndpointId>)
    requires forall e :: e in keys ==> e in held
    ensures forall machine :: machine in Claimants(peers, held, id, name, keys) <==>
              exists e :: e in keys && e in peers && peers[e].value == Some(machine)
                          && id in held[e].repos && name in held[e].repos[id]
    decreases |keys|
  {
    if keys != [] {
      var n := |keys| - 1;
      ClaimantsExact(peers, held, id, name, keys[..n]);
      assert forall e :: e in keys <==> e in keys[..n] || e == keys[n];
    }
  }

  /** The alive peers of a name among the keys read. */
  function NamedAmong(peers: map<EndpointId, Record>, name: Name, keys: seq<EndpointId>): seq<EndpointId>
    requires forall e :: e in keys ==> e in peers
    decreases |keys|
  {
    if keys == [] then []
    else
      var e := keys[|keys| - 1];
      NamedAmong(peers, name, keys[..|keys| - 1]) + if peers[e].value == Some(name) then [e] else []
  }

  lemma NoneNamed(peers: map<EndpointId, Record>, name: Name)
    ensures NamedAmong(peers, name, []) == []
  {
  }

  lemma NamedOneMore(peers: map<EndpointId, Record>, name: Name, keys: seq<EndpointId>, i: nat)
    requires (forall e :: e in keys ==> e in peers) && i < |keys|
    ensures NamedAmong(peers, name, keys[..i + 1]) ==
            NamedAmong(peers, name, keys[..i]) + if peers[keys[i]].value == Some(name) then [keys[i]] else []
  {
    assert keys[..i + 1][..i] == keys[..i];
  }

  /** The matches enumerate the alive peers of that name read so far. */
  lemma {:induction false} MatchesEnumerate(peers: map<EndpointId, Record>, name: Name, keys: seq<EndpointId>,
                                            s: set<EndpointId>)
    requires Enumerates(keys, s) && s <= peers.Keys
    ensures Enumerates(NamedAmong(peers, name, keys), M.Named(peers, name) * s)
    decreases |keys|
  {
    if keys != [] {
      var last := keys[|keys| - 1];
      EnumeratesPrefix(keys, s);
      MatchesEnumerate(peers, name, keys[..|keys| - 1], s - {last});
      Appended(NamedAmong(peers, name, keys[..|keys| - 1]), M.Named(peers, name), s, last);
    }
  }

  lemma Appended(r: seq<EndpointId>, named: set<EndpointId>, s: set<EndpointId>, last: EndpointId)
    requires Enumerates(r, named * (s - {last})) && last in s
    ensures last in named ==> Enumerates(r + [last], named * s)
    ensures last !in named ==> Enumerates(r, named * s)
  {
    assert forall i :: 0 <= i < |r| ==> r[i] in r;
    assert forall x :: x in r + [last] <==> x in r || x == last;
    assert last !in r;
  }

  /** What the list of matches says of the set of them. */
  lemma MatchesNamed(peers: map<EndpointId, Record>, name: Name, matches: seq<EndpointId>)
    requires matches == NamedAmong(peers, name, Sorted.Keys(peers.Keys))
    ensures Enumerates(matches, M.Named(peers, name)) && |matches| == |M.Named(peers, name)|
  {
    var keys, named := Sorted.Keys(peers.Keys), M.Named(peers, name);
    Sorted.KeysEnumerate(peers.Keys);
    MatchesEnumerate(peers, name, keys, peers.Keys);
    assert named * peers.Keys == named;
    hide Sorted.Keys, NamedAmong, M.Named;
    EnumeratesSize(matches, named);
  }

  lemma NamedSelected(peers: map<EndpointId, Record>, name: Name, parsed: Option<EndpointId>, matches: seq<EndpointId>)
    requires Enumerates(matches, M.Named(peers, name))
    ensures |matches| == 1 ==> forall e: EndpointId :: e == matches[0] <==> M.Selects(peers, name, parsed, e)
    ensures |matches| > 1 ==> forall e: EndpointId :: !M.Selects(peers, name, parsed, e)
    ensures |matches| == 0 ==>
              forall e: EndpointId :: parsed == Some(e) && M.Alive(peers, e) <==> M.Selects(peers, name, parsed, e)
  {
    assert forall e :: e in matches <==> e in peers && peers[e].value == Some(name);
    assert |matches| > 0 ==> matches[0] in matches;
    assert |matches| > 1 ==> matches[1] in matches && matches[0] != matches[1];
  }

  function Lookup(m: map<Name, seq<Name>>, n: Name): seq<Name> {
    if n in m then m[n] else []
  }

  /** The claimants by name, with `peer` added under each of `names`. */
  function Claimed(others: map<Name, seq<Name>>, names: set<Name>, peer: Name): (r: map<Name, seq<Name>>)
    ensures forall n :: Lookup(r, n) == Lookup(others, n) + if n in names then [peer] else []
    ensures (forall n :: n in others ==> others[n] != []) ==> forall n :: n in r ==> r[n] != []
  {
    map n | n in others.Keys + names :: Lookup(others, n) + if n in names then [peer] else []
  }

  lemma ClaimedNone(others: map<Name, seq<Name>>, peer: Name)
    ensures Claimed(others, {}, peer) == others
  {
    var r := Claimed(others, {}, peer);
    assert r.Keys == others.Keys;
    assert forall n :: n in others ==> r[n] == others[n];
  }

  lemma ClaimedOne(others: map<Name, seq<Name>>, names: set<Name>, name: Name, peer: Name)
    requires name !in names
    ensures Claimed(others, names + {name}, peer) ==
            Claimed(others, names, peer)[name := Lookup(Claimed(others, names, peer), name) + [peer]]
  {
    var a := Claimed(others, names + {name}, peer);
    var b := Claimed(others, names, peer)[name := Lookup(Claimed(others, names, peer), name) + [peer]];
    assert a.Keys == b.Keys;
    forall n | n in a.Keys ensures a[n] == b[n] {
    }
  }

  /** Records one claimant under each name it claims. */
  method AddClaimant(others: map<Name, seq<Name>>, names: set<Name>, peer: Name) returns (r: map<Name, seq<Name>>)
    ensures r == Claimed(others, names, peer)
  {
    hide Claimed;
    r := others;
    var order := Order.Sorted(names);
    ClaimedNone(others, peer);
    assert Elems(order[..0]) == {};
    hide Order.Sorted;
    for i := 0 to |order|
      invariant r == Claimed(others, Elems(order[..i]), peer)
    {
      var name := order[i];
      OneMore(order, names, i);
      ClaimedOne(others, Elems(order[..i]), name, peer);
      r := r[name := Lookup(r, name) + [peer]];
    }
    AllRead(order, names);
  }

  lemma CountsAlong(m: map<EndpointId, WorkspaceClaims>, keys: seq<EndpointId>)
    requires keys == Sorted.Keys(m.Keys)
    ensures forall e :: e in keys ==> e in m && e in M.Counts(m) && M.Counts(m)[e] == Count(m[e].repos)
    ensures SumOver(M.Counts(m), keys[..0]) == 0 && SumOver(M.Counts(m), keys) == M.Others(m)
  {
    hide Count;
    SumIsTotal(M.Counts(m), keys);
  }

  /** Under each name, the machines of `keys` that claim it. */
  ghost predicate AreClaimants(others: map<Name, seq<Name>>, peers: map<EndpointId, Record>,
                               held: map<EndpointId, WorkspaceClaims>, id: RepoId, keys: seq<EndpointId>)
    requires forall e :: e in keys ==> e in held
  {
    && (forall n :: n in others ==> others[n] != [])
    && (forall n :: Lookup(others, n) == Claimants(peers, held, id, n, keys))
  }

  lemma NoClaimants(peers: map<EndpointId, Record>, held: map<EndpointId, WorkspaceClaims>, id: RepoId)
    ensures AreClaimants(map[], peers, held, id, [])
  {
  }

  lemma MoreClaimants(others: map<Name, seq<Name>>, peers: map<EndpointId, Record>,
                      held: map<EndpointId, WorkspaceClaims>, id: RepoId, keys: seq<EndpointId>, i: nat)
    requires i < |keys| && (forall e :: e in keys ==> e in held) && AreClaimants(others, peers, held, id, keys[..i])
    ensures AreClaimants(
              if M.Alive(peers, keys[i]) then Claimed(others, On(held[keys[i]].repos, id), NameOf(peers, keys[i]))
              else others, peers, held, id, keys[..i + 1])
  {
    hide On;
    assert keys[..i + 1][..i] == keys[..i];
  }

  /** `gone` lists what left the set. */
  ghost predicate Removed(gone: seq<Name>, before: set<Name>, after: set<Name>) {
    after <= before && forall n :: n in gone <==> n in before && n !in after
  }

  lemma RemovedNone(names: set<Name>)
    ensures Removed([], names, names)
  {
  }

  lemma RemovedOne(gone: seq<Name>, before: set<Name>, after: set<Name>, n: Name)
    requires Removed(gone, before, after)
    ensures n in after ==> Removed(gone + [n], before, after - {n})
    ensures Removed(gone, before, after - {})
  {
    assert after - {} == after;
    assert forall x :: x in gone + [n] <==> x in gone || x == n;
  }

  /** The claims on one repo's workspaces, as its watch task sees them. */
  datatype RepoClaims = RepoClaims(ours: set<Name>, others: map<Name, seq<Name>>, limit: nat)

  class MeshState {
    var machine: M.Machine
    var peers: map<EndpointId, Record>
    var repos: map<Name, M.Repo>
    var meshRepos: map<Name, Record>
    var claims: WorkspaceClaims
    var peerClaims: map<EndpointId, WorkspaceClaims>

    function Value(): M.State
      reads this
    {
      M.State(machine, peers, repos, meshRepos, claims, peerClaims)
    }

    constructor From(s: M.State)
      ensures Value() == s
    {
      machine, peers, repos, meshRepos := s.machine, s.peers, s.repos, s.meshRepos;
      claims, peerClaims := s.claims, s.peerClaims;
    }

    method AddPeer(e: EndpointId, name: Name) returns (ok: bool)
      modifies `peers
      ensures ok == M.AddPeer(old(Value()), e, name).Ok?
      ensures Value() == if ok then M.AddPeer(old(Value()), e, name).value else old(Value())
    {
      if !ValidName(name) || M.Alive(peers, e) { return false; }
      if e !in peers && |peers| >= MAX_OTHER_PEERS { return false; }
      var version := BumpedVersion(peers, e);
      if version.Err? { return false; }
      peers := peers[e := Record(version.value, Some(name))];
      ok := true;
    }

    method RenameMachine(name: Name) returns (ok: bool)
      modifies `machine
      ensures ok == M.Rename(old(Value()), name).Ok?
      ensures Value() == if ok then M.Rename(old(Value()), name).value else old(Value())
    {
      if !ValidName(name) { return false; }
      if name != machine.name {
        var version := NextVersion(machine.version);
        if version.Err? { return false; }
        machine := machine.(name := name, version := version.value);
      }
      ok := true;
    }

    /** The alive peers of a name. */
    method Matches(name: Name) returns (matches: seq<EndpointId>)
      ensures matches == NamedAmong(peers, name, Sorted.Keys(peers.Keys))
    {
      hide *;
      matches := [];
      var keys := Sorted.Keys(peers.Keys);
      NoneNamed(peers, name);
      for i := 0 to |keys|
        invariant matches == NamedAmong(peers, name, keys[..i])
      {
        NamedOneMore(peers, name, keys, i);
        if peers[keys[i]].value == Some(name) {
          matches := matches + [keys[i]];
        }
      }
      assert keys[..|keys|] == keys;
    }

    /** Resolves an alive peer from a name or an endpoint id, names first. */
    method ResolvePeer(selector: Name, parsed: Option<EndpointId>) returns (r: Result<EndpointId>)
      ensures forall e: EndpointId :: r == Ok(e) <==> M.Selects(peers, selector, parsed, e)
    {
      var matches := Matches(selector);
      MatchesNamed(peers, selector, matches);
      NamedSelected(peers, selector, parsed, matches);
      if |matches| == 1 { return Ok(matches[0]); }
      if |matches| > 1 { return Err; }
      r := if parsed.Some? && M.Alive(peers, parsed.value) then Ok(parsed.value) else Err;
    }

    method PruneClaims()
      modifies `peerClaims
      ensures Value() == M.Prune(old(Value()))
    {
      peerClaims := map e | e in peerClaims && M.Alive(peers, e) :: peerClaims[e];
    }

    method RemovePeer(selector: Name, parsed: Option<EndpointId>) returns (r: Result<EndpointId>)
      modifies `peers, `peerClaims
      ensures r.Ok? <==> exists e: EndpointId :: M.Selects(old(peers), selector, parsed, e)
                                     && old(peers)[e].version + 1 < MAX_RECORD_VERSION
      ensures r.Ok? ==> M.Selects(old(peers), selector, parsed, r.value)
      ensures r.Ok? ==> M.RemovePeer(old(Value()), r.value) == Ok(Value())
      ensures r.Err? ==> Value() == old(Value())
    {
      r := ResolvePeer(selector, parsed);
      if r.Err? { return; }
      assert M.Selects(peers, selector, parsed, r.value);
      var version := BumpedVersion(peers, r.value);
      if version.Err? { return Err; }
      peers := peers[r.value := Record(version.value, None)];
      PruneClaims();
    }

    method AddRepo(name: Name, repo: M.Repo) returns (ok: bool)
      modifies `repos, `meshRepos
      ensures ok == M.AddRepo(old(Value()), name, repo).Ok?
      ensures Value() == if ok then M.AddRepo(old(Value()), name, repo).value else old(Value())
    {
      if !ValidName(name) || name in repos { return false; }
      if exists n :: n in repos && repos[n].path == repo.path { return false; }
      if M.Live(meshRepos, name) && meshRepos[name].value.value != repo.id { return false; }
      if M.Registered(repos, repo.id) { return false; }
      if name !in meshRepos && |meshRepos| >= MAX_MESH_REPOS { return false; }
      var version := BumpedVersion(meshRepos, name);
      if version.Err? { return false; }
      meshRepos := meshRepos[name := Record(version.value, Some(repo.id))];
      repos := repos[name := repo];
      ok := true;
    }

    /** Unregisters a repo here, releasing its workspace claims. */
    method UnregisterRepo(name: Name) returns (found: bool)
      modifies `repos, `claims
      ensures found == (name in old(repos))
      ensures Value() == M.Unregister(old(Value()), name)
    {
      if name !in repos { return false; }
      var repo := repos[name];
      repos := repos - {name};
      var released := Set(claims, repo.id, {});
      if released.Ok? {
        claims := released.value;
      }
      found := true;
    }

    method RemoveRepo(name: Name) returns (r: Result<bool>)
      modifies `repos, `meshRepos, `claims
      ensures r.Ok? == M.RemoveRepo(old(Value()), name).Ok?
      ensures r.Ok? ==> r.value == (name in old(repos))
      ensures Value() == if r.Ok? then M.RemoveRepo(old(Value()), name).value else old(Value())
    {
      if name !in meshRepos && name !in repos { return Err; }
      if name in meshRepos && name !in repos && meshRepos[name].value.None? { return Err; }
      var version := BumpedVersion(meshRepos, name);
      if version.Err? { return Err; }
      meshRepos := meshRepos[name := Record(version.value, None)];
      var found := UnregisterRepo(name);
      r := Ok(found);
    }

    method ForgetRepo(name: Name) returns (ok: bool)
      modifies `repos, `claims
      ensures ok == M.ForgetRepo(old(Value()), name).Ok?
      ensures Value() == if ok then M.ForgetRepo(old(Value()), name).value else old(Value())
    {
      ok := UnregisterRepo(name);
    }

    method SetClaims(id: RepoId, names: set<Name>) returns (ok: bool)
      modifies `claims
      ensures ok == M.SetClaims(old(Value()), id, names).Ok?
      ensures Value() == if ok then M.SetClaims(old(Value()), id, names).value else old(Value())
    {
      if !M.Registered(repos, id) { return true; }
      var next := Set(claims, id, names);
      if next.Err? { return false; }
      claims := next.value;
      ok := true;
    }

    lemma OwnRoom(local: EndpointId, id: RepoId)
      requires V.Valid(Value(), local)
      ensures |On(claims.repos, id)| <= Count(claims.repos) <= MAX_MACHINE_WORKSPACES
    {
      V.NoUnderflow(Value(), local, id, 0);
      hide V.Valid, On, Count;
    }

    /** The claims on the workspaces of a repo. */
    method RepoClaimsOf(id: RepoId, ghost local: EndpointId) returns (r: RepoClaims)
      requires V.Valid(Value(), local)
      ensures r.ours == On(claims.repos, id)
      ensures r.limit == MAX_MACHINE_WORKSPACES - (Count(claims.repos) - |r.ours|)
      ensures AreClaimants(r.others, peers, peerClaims, id, Sorted.Keys(peerClaims.Keys))
    {
      hide *;
      OwnRoom(local, id);
      var others := map[];
      var keys := Sorted.Keys(peerClaims.Keys);
      NoClaimants(peers, peerClaims, id);
      for i := 0 to |keys|
        invariant AreClaimants(others, peers, peerClaims, id, keys[..i])
      {
        var e := keys[i];
        MoreClaimants(others, peers, peerClaims, id, keys, i);
        if M.Alive(peers, e) {
          others := AddClaimant(others, On(peerClaims[e].repos, id), NameOf(peers, e));
        }
      }
      assert keys[..|keys|] == keys;
      var ours := On(claims.repos, id);
      r := RepoClaims(ours, others, MAX_MACHINE_WORKSPACES - (Count(claims.repos) - |ours|));
    }

    /** Whether the gossiped part of the state differs, without building it. */
    method MembershipDiffers(other: MeshState, ghost local: EndpointId) returns (differs: bool)
      requires V.Valid(Value(), local) && V.Valid(other.Value(), local)
      ensures differs <==> M.MembershipOf(Value(), local) != M.MembershipOf(other.Value(), local)
    {
      V.DiffersExactly(Value(), other.Value(), local);
      differs := machine != other.machine || peers != other.peers || meshRepos != other.meshRepos
        || claims != other.claims || peerClaims != other.peerClaims;
    }

    method MergePeerRecord(e: EndpointId, record: Record, local: EndpointId)
      requires M.BelowCeiling(Value())
      modifies `machine, `peers
      ensures Value() == M.PeerStep(old(Value()), local, e, record)
    {
      if record.version >= MAX_RECORD_VERSION { return; }
      if e == local {
        machine := M.ObserveMachine(machine, record);
        return;
      }
      if record.value.Some? && !ValidName(record.value.value) { return; }
      if ShouldAdopt(peers, e, record, MAX_OTHER_PEERS) {
        peers := peers[e := record];
      }
    }

    method MergePeerRecords(records: map<EndpointId, Record>, local: EndpointId)
      requires M.BelowCeiling(Value())
      modifies `machine, `peers
      ensures M.BelowCeiling(old(Value()))
      ensures Value() == M.MergePeers(old(Value()), local, records, Sorted.Keys(records.Keys))
    {
      hide *;
      var keys := Sorted.Keys(records.Keys);
      M.NoPeers(Value(), local, records);
      for i := 0 to |keys|
        invariant Value() == M.MergePeers(old(Value()), local, records, keys[..i])
      {
        M.PeersOneMore(old(Value()), local, records, keys, i);
        MergePeerRecord(keys[i], records[keys[i]], local);
      }
      assert keys[..|keys|] == keys;
    }

    method MergeRepoRecord(name: Name, record: Record) returns (removed: bool)
      modifies `repos, `meshRepos, `claims
      ensures Value() == M.RepoStep(old(Value()), name, record)
      ensures repos.Keys == old(repos.Keys) - if removed then {name} else {}
      ensures removed ==> name in old(repos)
    {
      removed := false;
      if !ValidName(name) || record.version >= MAX_RECORD_VERSION { return; }
      if !ShouldAdopt(meshRepos, name, record, MAX_MESH_REPOS) { return; }
      meshRepos := meshRepos[name := record];
      if record.value.None? {
        removed := UnregisterRepo(name);
      }
    }

    method MergeRepoRecords(records: map<Name, Record>) returns (removed: seq<Name>)
      requires M.BelowCeiling(Value())
      modifies `repos, `meshRepos, `claims
      ensures M.BelowCeiling(old(Value()))
      ensures Value() == M.MergeRepos(old(Value()), records, Order.Sorted(records.Keys))
      ensures Removed(removed, old(repos.Keys), repos.Keys)
    {
      hide *;
      removed := [];
      var keys := Order.Sorted(records.Keys);
      M.NoRepos(Value(), records);
      RemovedNone(repos.Keys);
      for i := 0 to |keys|
        invariant Value() == M.MergeRepos(old(Value()), records, keys[..i])
        invariant Removed(removed, old(repos.Keys), repos.Keys)
      {
        M.ReposOneMore(old(Value()), records, keys, i);
        ghost var before := repos.Keys;
        var gone := MergeRepoRecord(keys[i], records[keys[i]]);
        RemovedOne(removed, old(repos.Keys), before, keys[i]);
        if gone {
          removed := removed + [keys[i]];
        }
      }
      assert keys[..|keys|] == keys;
    }

    /** The workspaces the other machines claim, added up. */
    method CountOthers() returns (n: nat)
      ensures n == M.Others(peerClaims)
    {
      hide *;
      n := 0;
      var keys := Sorted.Keys(peerClaims.Keys);
      ghost var counts := M.Counts(peerClaims);
      CountsAlong(peerClaims, keys);
      for i := 0 to |keys|
        invariant n == SumOver(counts, keys[..i])
      {
        SumOneMore(counts, keys, i);
        n := n + Count(peerClaims[keys[i]].repos);
      }
      assert keys[..|keys|] == keys;
    }

    /** Merges the gossiped claims: only alive peers' are kept, and new or
        grown records stop being adopted at the cap. */
    method MergeClaims(records: map<EndpointId, WorkspaceClaims>, local: EndpointId)
      requires V.Merging(Value(), local)
      modifies `claims, `peerClaims
      ensures M.BelowCeiling(old(Value()))
      ensures Value() == M.Prune(M.MergeClaims(old(Value()), local, records, Sorted.Keys(records.Keys)))
    {
      hide *;
      var others := CountOthers();
      V.MergingBelow(Value(), local);
      var keys := Sorted.Keys(records.Keys);
      M.NoClaims(Value(), local, records);
      for i := 0 to |keys|
        invariant V.Merging(Value(), local)
        invariant Value() == M.MergeClaims(old(Value()), local, records, keys[..i])
        invariant others == M.Others(peerClaims)
      {
        M.ClaimsOneMore(old(Value()), local, records, keys, i);
        others := MergeClaim(keys[i], records[keys[i]], local, others);
      }
      assert keys[..|keys|] == keys;
      PruneClaims();
    }

    /** One gossiped claims record, against the running count of the others'
        workspaces. */
    method MergeClaim(e: EndpointId, record: WorkspaceClaims, local: EndpointId, others: nat) returns (count: nat)
      requires V.Merging(Value(), local) && others == M.Others(peerClaims)
      modifies `claims, `peerClaims
      ensures M.BelowCeiling(old(Value())) && V.Merging(Value(), local)
      ensures Value() == M.ClaimStep(old(Value()), local, e, record)
      ensures count == M.Others(peerClaims)
    {
      V.ClaimStepKeeps(Value(), local, e, record);
      V.MergingBelow(Value(), local);
      hide V.Merging, Observe, M.Others, M.AdoptClaim;
      count := others;
      if record.version >= MAX_RECORD_VERSION { return; }
      if e == local {
        claims := Observe(claims, record);
        return;
      }
      count := AdoptRecord(e, record, others);
    }

    method AdoptRecord(e: EndpointId, record: WorkspaceClaims, others: nat) returns (count: nat)
      requires others == M.Others(peerClaims)
      modifies `peerClaims
      ensures peerClaims == M.AdoptClaim(peers, old(peerClaims), e, record)
      ensures count == M.Others(peerClaims)
    {
      V.RunningCount(peerClaims, e, record);
      hide Count, M.Others, M.ClaimWanted;
      count := others;
      if !M.ClaimWanted(peers, peerClaims, e, record) { return; }
      var held := if e in peerClaims then Count(peerClaims[e].repos) else 0;
      var adopted := others - held + Count(record.repos);
      if adopted > MAX_OTHER_WORKSPACES { return; }
      count := adopted;
      peerClaims := peerClaims[e := record];
    }

    /** Merges a peer's membership into ours, returning the repos unregistered
        here because the mesh removed them. */
    method MergeMembership(remote: M.Membership, local: EndpointId) returns (removed: seq<Name>)
      requires V.Valid(Value(), local)
      modifies this
      ensures M.BelowCeiling(old(Value())) && V.Valid(Value(), local)
      ensures Value() == M.Merge(old(Value()), remote, local)
      ensures Removed(removed, old(repos.Keys), repos.Keys)
    {
      V.MergeKeeps(Value(), remote, local);
      V.MergePeersKeeps(Value(), local, remote.peers, Sorted.Keys(remote.peers.Keys));
      MergePeerRecords(remote.peers, local);
      V.MergeReposKeeps(Value(), remote.repos, Order.Sorted(remote.repos.Keys), local);
      removed := MergeRepoRecords(remote.repos);
      MergeClaims(remote.claims, local);
    }
  }

  /** The daemon's store: the committed state, its copy on disk, and the
      memberships broadcast so far. */
  class MeshStore {
    const local: EndpointId
    var state: MeshState
    var disk: M.State
    var published: seq<M.Membership>

    ghost predicate Consistent()
      reads this, state
    {
      disk == state.Value() && V.Valid(state.Value(), local)
    }

    constructor (local: EndpointId, state: MeshState)
      requires V.Valid(state.Value(), local)
      ensures Consistent() && this.local == local && this.state == state && published == []
    {
      this.local, this.state, this.disk, this.published := local, state, state.Value(), [];
    }

    /** Commits a mutated copy: nothing when it changes nothing or the save
        fails, and a broadcast only of a changed membership. */
    method Commit(next: MeshState, saves: bool) returns (ok: bool)
      requires Consistent() && V.Valid(next.Value(), local)
      modifies this
      ensures Consistent()
      ensures ok == (saves || next.Value() == old(state.Value()))
      ensures state.Value() == if ok then next.Value() else old(state.Value())
      ensures published == old(published) +
              if M.MembershipOf(state.Value(), local) == M.MembershipOf(old(state.Value()), local) then []
              else [M.MembershipOf(state.Value(), local)]
    {
      hide V.Valid, M.MembershipOf;
      if next.Value() == state.Value() { return true; }
      if !saves { return false; }
      disk := next.Value();
      var changed := next.MembershipDiffers(state, local);
      state := next;
      if changed {
        published := published + [M.MembershipOf(state.Value(), local)];
      }
      ok := true;
    }

    /** Merges a peer's membership; broadcasts exactly when what this machine
        gossips changed. */
    method MergeMembership(remote: M.Membership, saves: bool) returns (ok: bool)
      requires Consistent()
      modifies this
      ensures Consistent()
      ensures V.Valid(old(state.Value()), local)
      ensures ok == (saves || M.Merge(old(state.Value()), remote, local) == old(state.Value()))
      ensures state.Value() == if ok then M.Merge(old(state.Value()), remote, local) else old(state.Value())
      ensures published == old(published) +
              if M.MembershipOf(state.Value(), local) == M.MembershipOf(old(state.Value()), local) then []
              else [M.MembershipOf(state.Value(), local)]
    {
      var next := new MeshState.From(state.Value());
      var removed := next.MergeMembership(remote, local);
      ok := Commit(next, saves);
    }
  }
}
