/** The workspace scan of a repo task: which workspaces this machine claims and
    automates, and why no two machines automate the same one. */
module Workspaces {
  import opened Collections
  import opened Order
  import opened Registers
  import opened Claims
  import opened MeshModel
  import opened MeshState
  import opened Quiescence
  import MeshChanges
  import MeshValid
  import Sorted

  /** A workspace found on disk; `current` when its working copy reflects the
      single op head. */
  datatype Workspace = Workspace(name: Name, root: Path, main: bool, current: bool)

  datatype WorkspaceState =
    | Contested(machines: seq<Name>) | Foreign(machines: seq<Name>) | Claimed | Unclaimable | Stale

  datatype Found = Found(workspace: Workspace, state: WorkspaceState)

  /** Whether a scan may claim a workspace it does not hold, room aside. */
  predicate Claimable(w: Workspace, claims: RepoClaims) {
    w.name !in claims.others && ValidName(w.name) && (w.main || w.current)
  }

  /** What a scan claims on top of what it holds: claimable workspaces only,
      within the machine's room, and all of them unless the room is used up. */
  ghost predicate ClaimsGrow(held: set<Name>, claimed: set<Name>, seen: seq<Workspace>, claims: RepoClaims) {
    && held <= claimed
    && (forall n :: n in claimed && n !in held ==> exists w :: w in seen && w.name == n && Claimable(w, claims))
    && (claimed == held || |claimed| <= claims.limit)
    && (forall w :: w in seen && Claimable(w, claims) && w.name !in claimed ==> |claimed| >= claims.limit)
  }

  /** The states a scan gives: a peer's claim always shows, and an automated
      workspace is claimed here and by no peer. */
  ghost predicate StatesHold(found: seq<Found>, seen: seq<Workspace>, held: set<Name>, claimed: set<Name>,
                             claims: RepoClaims) {
    && |found| == |seen|
    && (forall i :: 0 <= i < |seen| ==> found[i].workspace == seen[i] && StateHolds(found[i], held, claimed, claims))
    && (forall n :: n in claimed && n !in held ==>
          exists f :: f in found && f.workspace.name == n && f.state == Claimed)
  }

  ghost predicate StateHolds(f: Found, held: set<Name>, claimed: set<Name>, claims: RepoClaims) {
    var n := f.workspace.name;
    if n in claims.others then
      f.state == if n in claimed then Contested(claims.others[n]) else Foreign(claims.others[n])
    else
      && (f.state == Claimed ==> n in claimed)
      && (n in held ==> f.state == Claimed)
      && (f.state == Stale ==> ValidName(n))
      && (f.state == Claimed || f.state == Stale || f.state == Unclaimable)
      && (f.state == Stale ==> !f.workspace.main && !f.workspace.current)
      && (f.state == Unclaimable ==> !ValidName(n) || |claimed| >= claims.limit)
  }

  /** Decides the claims on the workspaces found, `held` being the names claimed
      so far and `names` those the view knows. */
  method FindWorkspaces(names: set<Name>, local: seq<Workspace>, claims: RepoClaims, held: set<Name>)
    returns (found: seq<Found>, claimed: set<Name>)
    requires forall w :: w in local ==> w.name in names
    ensures ClaimsGrow(held * names, claimed, local, claims)
    ensures claimed <= names && held - claimed == held - names
    ensures StatesHold(found, local, held * names, claimed, claims)
  {
    claimed := held * names;
    found := [];
    for i := 0 to |local|
      invariant ClaimsGrow(held * names, claimed, local[..i], claims) && claimed <= names
      invariant StatesHold(found, local[..i], held * names, claimed, claims)
    {
      var w := local[i];
      var n := w.name;
      ghost var before := claimed;
      var state := Stale;
      if n in claims.others {
        state := if n in claimed then Contested(claims.others[n]) else Foreign(claims.others[n]);
      } else if n in claimed {
        state := Claimed;
      } else if !ValidName(n) || |claimed| >= claims.limit {
        state := Unclaimable;
      } else if w.main || w.current {
        claimed := claimed + {n};
        state := Claimed;
      }
      ScanOne(held * names, before, claimed, local, i, claims, found, Found(w, state));
      found := found + [Found(w, state)];
    }
    assert local[..|local|] == local;
  }

  /** One more workspace scanned. */
  lemma ScanOne(held: set<Name>, before: set<Name>, after: set<Name>, local: seq<Workspace>, i: nat,
                claims: RepoClaims, found: seq<Found>, f: Found)
    requires i < |local| && f.workspace == local[i]
    requires ClaimsGrow(held, before, local[..i], claims) && StatesHold(found, local[..i], held, before, claims)
    requires after == before
             || (after == before + {local[i].name} && local[i].name !in before && Claimable(local[i], claims)
                 && |before| < claims.limit)
    requires Claimable(local[i], claims) && local[i].name !in after ==> |after| >= claims.limit
    requires StateHolds(f, held, after, claims) && held <= after && (after != before ==> f.state == Claimed)
    ensures ClaimsGrow(held, after, local[..i + 1], claims)
    ensures StatesHold(found + [f], local[..i + 1], held, after, claims)
  {
    hide Claimable;
    var seen := local[..i + 1];
    assert seen == local[..i] + [local[i]];
    assert forall w :: w in seen <==> w in local[..i] || w == local[i];
    GrowOne(held, before, after, local[..i], local[i], seen, claims);
    forall n | n in after && n !in held
      ensures exists x :: x in found + [f] && x.workspace.name == n && x.state == Claimed
    {
      if n in before {
        var x :| x in found && x.workspace.name == n && x.state == Claimed;
        assert x in found + [f];
      } else {
        assert f in found + [f];
      }
    }
    forall k | 0 <= k < |seen|
      ensures (found + [f])[k].workspace == seen[k] && StateHolds((found + [f])[k], held, after, claims)
    {
      if k < i {
        ClaimableFree(local[i], claims);
        assert StateHolds(found[k], held, before, claims);
        KeepsState(found[k], held, before, after, claims, local[i]);
      }
    }
  }

  lemma ClaimableFree(w: Workspace, claims: RepoClaims)
    ensures Claimable(w, claims) ==> w.name !in claims.others
  {
  }

  lemma GrowOne(held: set<Name>, before: set<Name>, after: set<Name>, seen: seq<Workspace>, w: Workspace,
                more: seq<Workspace>, claims: RepoClaims)
    requires ClaimsGrow(held, before, seen, claims)
    requires forall x :: x in more <==> x in seen || x == w
    requires after == before
             || (after == before + {w.name} && w.name !in before && Claimable(w, claims) && |before| < claims.limit)
    requires Claimable(w, claims) && w.name !in after ==> |after| >= claims.limit
    ensures ClaimsGrow(held, after, more, claims)
  {
    hide Claimable;
    forall n | n in after && n !in held ensures exists x :: x in more && x.name == n && Claimable(x, claims) {
      if n in before {
        var x :| x in seen && x.name == n && Claimable(x, claims);
        assert x in more;
      } else {
        assert w in more;
      }
    }
    forall x | x in more && Claimable(x, claims) && x.name !in after ensures |after| >= claims.limit {
      SubsetSize(before, after);
    }
  }

  lemma KeepsState(f: Found, held: set<Name>, before: set<Name>, after: set<Name>, claims: RepoClaims, w: Workspace)
    requires StateHolds(f, held, before, claims)
    requires after == before || (after == before + {w.name} && w.name !in claims.others)
    ensures StateHolds(f, held, after, claims)
  {
    SubsetSize(before, after);
    hide ValidName;
  }

  /** A workspace this machine automates: claimed, and recorded by the store. */
  predicate Automated(f: Found, claims: RepoClaims) {
    f.state == Claimed && f.workspace.name in claims.ours
  }

  /** A running task of a workspace; each start gets a number of its own. */
  datatype Task = Task(name: Name, start: nat)

  /** Whether a workspace found under that root and name is automated. */
  predicate AutomatedAt(found: seq<Found>, claims: RepoClaims, root: Path, name: Name) {
    exists f :: f in found && f.workspace.root == root && f.workspace.name == name && Automated(f, claims)
  }

  /** Every running task is one of an automated workspace found. */
  ghost predicate RunsOnly(tasks: map<Path, Task>, found: seq<Found>, claims: RepoClaims) {
    forall root :: root in tasks ==> AutomatedAt(found, claims, root, tasks[root].name)
  }

  /** The unfinished tasks whose workspace is still automated. */
  function Retained(tasks: map<Path, Task>, found: seq<Found>, claims: RepoClaims, finished: set<Path>):
    (r: map<Path, Task>)
    ensures RunsOnly(r, found, claims)
  {
    map root | root in tasks && root !in finished && AutomatedAt(found, claims, root, tasks[root].name) :: tasks[root]
  }

  /** A pass over the tasks: the unfinished ones still automated are the same as before,
      every other one was started since. */
  ghost predicate Realigned(before: map<Path, Task>, after: map<Path, Task>, found: seq<Found>, claims: RepoClaims,
                            finished: set<Path>, next: nat)
  {
    && (forall root :: root in before && root !in finished && AutomatedAt(found, claims, root, before[root].name) ==>
          root in after && after[root] == before[root])
    && (forall root :: root in after && !(root in before && after[root] == before[root]) ==> after[root].start >= next)
    && (forall root :: root in after && root in finished ==> after[root].start >= next)
  }

  /** Every automated workspace found has a task. */
  ghost predicate RunsAll(tasks: map<Path, Task>, found: seq<Found>, claims: RepoClaims) {
    forall f :: f in found && Automated(f, claims) ==> f.workspace.root in tasks
  }

  /** Exactly the workspaces on disk that this machine claims and no peer does have
      tasks, and one that ran before and did not finish is the same task. */
  ghost predicate Aligned(local: seq<Workspace>, claims: RepoClaims, before: map<Path, Task>, finished: set<Path>,
                          after: map<Path, Task>)
  {
    && (forall w :: w in local && w.name in claims.ours && w.name !in claims.others ==> w.root in after)
    && (forall root :: root in after ==> OnDisk(local, claims, root, after[root].name))
    && (forall root :: root in before && root !in finished && OnDisk(local, claims, root, before[root].name) ==>
          root in after && after[root] == before[root])
  }

  /** A workspace under that root and name that this machine claims and no peer does. */
  ghost predicate OnDisk(local: seq<Workspace>, claims: RepoClaims, root: Path, name: Name) {
    name in claims.ours && name !in claims.others && exists w :: w in local && w.root == root && w.name == name
  }

  /** What is automated after a scan. */
  lemma AutomatedExact(found: seq<Found>, local: seq<Workspace>, names: set<Name>, held: set<Name>, claimed: set<Name>,
                       claims: RepoClaims, root: Path, name: Name)
    requires StatesHold(found, local, held * names, claimed, claims)
    requires claims.ours <= held && forall w :: w in local ==> w.name in names
    ensures AutomatedAt(found, claims, root, name) <==> OnDisk(local, claims, root, name)
  {
    hide ValidName;
    if AutomatedAt(found, claims, root, name) {
      var f :| f in found && f.workspace.root == root && f.workspace.name == name && Automated(f, claims);
      var i :| 0 <= i < |found| && found[i] == f;
      assert StateHolds(found[i], held * names, claimed, claims) && local[i] in local;
    }
    if OnDisk(local, claims, root, name) {
      var w :| w in local && w.root == root && w.name == name;
      var i :| 0 <= i < |local| && local[i] == w;
      assert StateHolds(found[i], held * names, claimed, claims) && found[i] in found;
    }
  }

  lemma Aligns(found: seq<Found>, local: seq<Workspace>, names: set<Name>, held: set<Name>, claimed: set<Name>,
               claims: RepoClaims, before: map<Path, Task>, after: map<Path, Task>, finished: set<Path>, next: nat)
    requires StatesHold(found, local, held * names, claimed, claims)
    requires claims.ours <= held && forall w :: w in local ==> w.name in names
    requires RunsOnly(after, found, claims) && RunsAll(after, found, claims)
    requires Realigned(before, after, found, claims, finished, next)
    ensures Aligned(local, claims, before, finished, after)
  {
    hide StatesHold;
    forall root, name ensures AutomatedAt(found, claims, root, name) <==> OnDisk(local, claims, root, name) {
      AutomatedExact(found, local, names, held, claimed, claims, root, name);
    }
    forall w | w in local && w.name in claims.ours && w.name !in claims.others ensures w.root in after {
      assert OnDisk(local, claims, w.root, w.name);
      assert AutomatedAt(found, claims, w.root, w.name);
    }
  }

  /** The claims sent to the store, and what it was sent last. */
  datatype Requests = Requests(sent: Option<set<Name>>, updates: seq<set<Name>>)

  /** A request is remembered until the store records it. */
  function Pending(r: Requests, ours: set<Name>): Option<set<Name>> {
    if r.sent == Some(ours) then None else r.sent
  }

  function Held(r: Requests, ours: set<Name>): set<Name> {
    var pending := Pending(r, ours);
    ours + if pending.Some? then pending.value else {}
  }

  function Requested(r: Requests, ours: set<Name>, claimed: set<Name>): Requests {
    var pending := Pending(r, ours);
    if claimed != ours && pending != Some(claimed) then Requests(Some(claimed), r.updates + [claimed])
    else Requests(pending, r.updates)
  }

  /** What is remembered as sent is the last update. */
  predicate SentLast(r: Requests) {
    r.sent.Some? ==> r.updates != [] && r.updates[|r.updates| - 1] == r.sent.value
  }

  /** A scan whose claims are not the recorded ones has them as the last update, and
      sends at most one, none when they are recorded. A rescan that finds the same
      claims sends nothing again, and one whose claims the store recorded holds
      exactly the recorded ones. */
  lemma RequestedOnce(r: Requests, ours: set<Name>, claimed: set<Name>)
    requires SentLast(r)
    ensures var q := Requested(r, ours, claimed);
            && SentLast(q) && r.updates <= q.updates && |q.updates| <= |r.updates| + 1
            && (claimed != ours ==> q.updates != [] && q.updates[|q.updates| - 1] == claimed)
            && (claimed == ours ==> q.updates == r.updates)
    ensures Requested(Requested(r, ours, claimed), ours, claimed) == Requested(r, ours, claimed)
    ensures Held(Requested(r, ours, claimed), claimed) == claimed || claimed == ours
    ensures claimed != ours ==> Held(Requested(r, ours, claimed), ours) == ours + claimed
  {
  }

  /** The workspace tasks of one repo watch. */
  class WorkspaceTasks {
    /** The running tasks by workspace root, and the number of starts so far. */
    var tasks: map<Path, Task>
    var starts: nat
    /** The claims last sent, until the store records them. */
    var sent: Option<set<Name>>
    /** The claim updates sent to the store. */
    var updates: seq<set<Name>>

    /** What is remembered as sent is the last update, and tasks are numbered. */
    ghost predicate Valid()
      reads this
    {
      && (sent.Some? ==> updates != [] && updates[|updates| - 1] == sent.value)
      && Numbered(tasks, starts)
    }

    function Asked(): Requests
      reads this
    {
      Requests(sent, updates)
    }

    constructor ()
      ensures Valid() && tasks == map[] && sent == None && updates == []
    {
      tasks, starts, sent, updates := map[], 0, None, [];
    }

    /** Starts the automated workspaces that have no task. */
    method Start(found: seq<Found>, claims: RepoClaims)
      requires RunsOnly(tasks, found, claims) && Numbered(tasks, starts)
      modifies `tasks, `starts
      ensures RunsOnly(tasks, found, claims) && RunsAll(tasks, found, claims)
      ensures starts >= old(starts) && Numbered(tasks, starts)
      ensures forall root :: root in old(tasks) ==> root in tasks && tasks[root] == old(tasks)[root]
      ensures forall root :: root in tasks && root !in old(tasks) ==> tasks[root].start >= old(starts)
    {
      for i := 0 to |found|
        invariant RunsOnly(tasks, found, claims) && RunsAll(tasks, found[..i], claims)
        invariant starts >= old(starts) && Numbered(tasks, starts)
        invariant forall root :: root in old(tasks) ==> root in tasks && tasks[root] == old(tasks)[root]
        invariant forall root :: root in tasks && root !in old(tasks) ==> tasks[root].start >= old(starts)
      {
        hide RunsOnly, RunsAll, Automated;
        var f := found[i];
        StartOne(tasks, found, i, claims, starts);
        if Automated(f, claims) && f.workspace.root !in tasks {
          tasks := tasks[f.workspace.root := Task(f.workspace.name, starts)];
          starts := starts + 1;
        }
      }
      assert found[..|found|] == found;
    }

    /** Stops the tasks that finished or whose workspace is no longer automated, and
        starts the missing ones. */
    method Realign(found: seq<Found>, claims: RepoClaims, finished: set<Path>)
      requires Numbered(tasks, starts)
      modifies `tasks, `starts
      ensures RunsOnly(tasks, found, claims) && RunsAll(tasks, found, claims) && Numbered(tasks, starts)
      ensures Realigned(old(tasks), tasks, found, claims, finished, old(starts))
    {
      hide RunsOnly, RunsAll, Automated, AutomatedAt;
      tasks := Retained(tasks, found, claims, finished);
      Start(found, claims);
    }

    /** Aligns the tasks and this machine's claims with the workspaces found on
        disk. */
    method Track(names: set<Name>, local: seq<Workspace>, claims: RepoClaims, finished: set<Path>)
      returns (found: seq<Found>, claimed: set<Name>)
      requires Valid() && forall w :: w in local ==> w.name in names
      modifies this
      ensures Valid()
      ensures var pending := if old(sent) == Some(claims.ours) then None else old(sent);
              updates == old(updates) + if claimed != claims.ours && pending != Some(claimed) then [claimed] else []
      ensures claimed != claims.ours ==>
                sent == Some(claimed) && updates != [] && updates[|updates| - 1] == claimed
      ensures claimed == claims.ours ==> sent == if old(sent) == Some(claims.ours) then None else old(sent)
      ensures StatesHold(found, local, Held(old(Asked()), claims.ours) * names, claimed, claims)
      ensures ClaimsGrow(Held(old(Asked()), claims.ours) * names, claimed, local, claims)
      ensures claimed <= names && Held(old(Asked()), claims.ours) - claimed == Held(old(Asked()), claims.ours) - names
      ensures Asked() == Requested(old(Asked()), claims.ours, claimed)
      ensures RunsOnly(tasks, found, claims) && RunsAll(tasks, found, claims)
      ensures Realigned(old(tasks), tasks, found, claims, finished, old(starts))
      ensures Aligned(local, claims, old(tasks), finished, tasks)
    {
      hide StatesHold, ClaimsGrow, RunsOnly, RunsAll, Automated, AutomatedAt, Aligned, Claimable, ValidName, OnDisk,
        Realigned;
      if sent == Some(claims.ours) {
        sent := None;
      }
      var held := claims.ours + if sent.Some? then sent.value else {};
      found, claimed := FindWorkspaces(names, local, claims, held);
      if claimed != claims.ours && sent != Some(claimed) {
        updates := updates + [claimed];
        sent := Some(claimed);
      }
      Realign(found, claims, finished);
      Aligns(found, local, names, held, claimed, claims, old(tasks), tasks, finished, old(starts));
    }
  }

  ghost predicate Numbered(tasks: map<Path, Task>, starts: nat) {
    forall root :: root in tasks ==> tasks[root].start < starts
  }

  lemma StartOne(tasks: map<Path, Task>, found: seq<Found>, i: nat, claims: RepoClaims, start: nat)
    requires i < |found| && RunsOnly(tasks, found, claims) && RunsAll(tasks, found[..i], claims)
    ensures var f := found[i];
            var after := if Automated(f, claims) && f.workspace.root !in tasks
                         then tasks[f.workspace.root := Task(f.workspace.name, start)] else tasks;
            RunsOnly(after, found, claims) && RunsAll(after, found[..i + 1], claims)
  {
    hide Automated;
    assert found[..i + 1] == found[..i] + [found[i]];
    if Automated(found[i], claims) {
      assert AutomatedAt(found, claims, found[i].workspace.root, found[i].workspace.name);
    }
  }

  /** The claims a repo task sees are those of the state. */
  ghost predicate SeesClaims(c: RepoClaims, s: State, id: RepoId) {
    && c.ours == On(s.claims.repos, id)
    && AreClaimants(c.others, s.peers, s.peerClaims, id, Sorted.Keys(s.peerClaims.Keys))
  }

  /** A rescan runs no task for a name a peer claims, nor for one it does not. */
  lemma RunsOwn(tasks: map<Path, Task>, found: seq<Found>, seen: seq<Workspace>, held: set<Name>, claimed: set<Name>,
                claims: RepoClaims, root: Path)
    requires RunsOnly(tasks, found, claims) && StatesHold(found, seen, held, claimed, claims) && root in tasks
    ensures tasks[root].name in claims.ours && tasks[root].name !in claims.others
  {
    var f :| f in found && f.workspace.root == root && f.workspace.name == tasks[root].name && Automated(f, claims);
    var i :| 0 <= i < |found| && found[i] == f;
    assert StateHolds(found[i], held, claimed, claims);
  }

  /** The store accepts and records the claims of a scan exactly when they are what it
      holds or fit the room the scan was given, next to the version ceiling aside; and
      they always fit when no earlier request is pending. */
  lemma ScanAccepted(s: State, local: EndpointId, id: RepoId, c: RepoClaims, r: Requests, names: set<Name>,
                     seen: seq<Workspace>, claimed: set<Name>)
    requires MeshValid.Valid(s, local) && SeesClaims(c, s, id) && c.limit == Room(s, id)
    requires r.sent.Some? ==> forall n :: n in r.sent.value ==> ValidName(n)
    requires ClaimsGrow(Held(r, c.ours) * names, claimed, seen, c)
    ensures Registered(s.repos, id) ==>
              (SetClaims(s, id, claimed).Ok? <==>
               claimed == c.ours || (|claimed| <= c.limit && s.claims.version + 1 < MAX_RECORD_VERSION))
    ensures SetClaims(s, id, claimed).Ok? && Registered(s.repos, id) ==>
              On(SetClaims(s, id, claimed).value.claims.repos, id) == claimed
    ensures Pending(r, c.ours) == None ==> |claimed| <= c.limit
  {
    OursValid(s, local, id);
    GrownValid(Held(r, c.ours) * names, claimed, seen, c);
    MeshValid.NoUnderflow(s, local, id, 0);
    MeshChanges.SetClaimsEffect(s, local, id, claimed);
    if Pending(r, c.ours) == None && claimed == Held(r, c.ours) * names {
      SubsetSize(claimed, c.ours);
    }
    hide MeshValid.Valid, IsValid, Put, On, Count, ClaimsGrow, AreClaimants, ValidName, SetClaims, Registered;
  }

  function Room(s: State, id: RepoId): int {
    MAX_MACHINE_WORKSPACES - (Count(s.claims.repos) - |On(s.claims.repos, id)|)
  }

  lemma OursValid(s: State, local: EndpointId, id: RepoId)
    requires MeshValid.Valid(s, local)
    ensures forall n :: n in On(s.claims.repos, id) ==> ValidName(n)
  {
    MeshValid.RegisterNames(s.claims);
    hide ValidName, Count, MeshValid.RegisterValid;
  }

  lemma GrownValid(held: set<Name>, claimed: set<Name>, seen: seq<Workspace>, c: RepoClaims)
    requires ClaimsGrow(held, claimed, seen, c) && forall n :: n in held ==> ValidName(n)
    ensures forall n :: n in claimed ==> ValidName(n)
    ensures claimed == held || |claimed| <= c.limit
  {
    hide ValidName;
    forall n | n in claimed && n !in held ensures ValidName(n) {
      var w :| w in seen && w.name == n && Claimable(w, c);
    }
  }

  /** A machine alive here that claims a name is one of its claimants. */
  lemma {:induction false} ClaimantSeen(peers: map<EndpointId, Record>, held: map<EndpointId, WorkspaceClaims>,
                                        id: RepoId, name: Name, keys: seq<EndpointId>, e: EndpointId)
    requires (forall k :: k in keys ==> k in held) && e in keys && Alive(peers, e) && name in On(held[e].repos, id)
    ensures Claimants(peers, held, id, name, keys) != []
    decreases |keys|
  {
    var n := |keys| - 1;
    if keys[n] != e {
      assert e in keys[..n];
      ClaimantSeen(peers, held, id, name, keys[..n], e);
    }
  }

  /** At most one machine automates a workspace name of a repo, once the gossip
      of two machines alive to each other has settled within the claim cap and
      below the version ceiling, and both have rescanned. */
  lemma OneMachineAutomates(net: Net, i: EndpointId, j: EndpointId, id: RepoId, ci: RepoClaims, cj: RepoClaims,
                            fi: seq<Found>, fj: seq<Found>, si: seq<Workspace>, sj: seq<Workspace>,
                            hi: set<Name>, hj: set<Name>, ki: set<Name>, kj: set<Name>,
                            ti: map<Path, Task>, tj: map<Path, Task>, a: Path, b: Path)
    requires Settled(net, i, j) && Alive(net[j].peers, i)
    requires MeshModel.Others(net[j].peerClaims[i := net[i].claims]) <= MAX_OTHER_WORKSPACES
    requires net[i].claims.version + 1 < MAX_RECORD_VERSION
    requires SeesClaims(ci, net[i], id) && SeesClaims(cj, net[j], id)
    requires StatesHold(fi, si, hi, ki, ci) && RunsOnly(ti, fi, ci) && a in ti
    requires StatesHold(fj, sj, hj, kj, cj) && RunsOnly(tj, fj, cj) && b in tj
    ensures ti[a].name != tj[b].name
  {
    SettledIn(net, i, j);
    hide Settled, StatesHold, RunsOnly, Claimants, MeshModel.Others, On;
    ClaimsAgree(net, i, j);
    RunsOwn(ti, fi, si, hi, ki, ci, a);
    RunsOwn(tj, fj, sj, hj, kj, cj, b);
    var s := net[j];
    ClaimantSeen(s.peers, s.peerClaims, id, ti[a].name, Sorted.Keys(s.peerClaims.Keys), i);
    var keys := Sorted.Keys(s.peerClaims.Keys);
    assert Lookup(cj.others, ti[a].name) == Claimants(s.peers, s.peerClaims, id, ti[a].name, keys);
  }
}
