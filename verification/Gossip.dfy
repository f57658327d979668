/** A mesh of machines exchanging memberships, with no local change: whatever is
    delivered, in any order and any number of times, it settles. */
module Gossip {
  import opened Collections
  import opened Totals
  import opened Registers
  import opened Claims
  import opened MeshModel
  import opened MeshValid
  import opened EchoStops

  /** Every machine's state, and every membership ever broadcast: the network may
      lose, repeat and reorder them. */
  datatype Mesh = Mesh(states: map<EndpointId, State>, sent: set<Membership>)

  ghost predicate EachMachine(m: Mesh) {
    forall e :: e in m.states ==> Valid(m.states[e], e)
  }

  /** A membership some machine broadcast reaches a machine. */
  ghost predicate Delivered(a: Mesh, b: Mesh, to: EndpointId, r: Membership) {
    && to in a.states && r in a.sent && BelowCeiling(a.states[to])
    && b.states == a.states[to := Merge(a.states[to], r, to)]
    && b.sent == a.sent + {MembershipOf(b.states[to], to)}
  }

  /** A machine broadcasts its membership again. */
  ghost predicate Republished(a: Mesh, b: Mesh, e: EndpointId) {
    && e in a.states && b.states == a.states && b.sent == a.sent + {MembershipOf(a.states[e], e)}
  }

  ghost predicate Step(a: Mesh, b: Mesh) {
    || (exists to, r :: Delivered(a, b, to, r))
    || (exists e :: Republished(a, b, e))
    || a == b
  }

  ghost predicate AllWithin(m: Mesh, u: Universe) {
    && ReleaseClosed(u)
    && (forall e :: e in m.states ==> e in u.endpoints && Within(m.states[e], u))
    && (forall r :: r in m.sent ==> MembershipWithin(r, u))
  }

  ghost predicate Bounded(m: Mesh, u: Universe) {
    EachMachine(m) && AllWithin(m, u)
  }

  lemma OwnMembershipWithin(s: State, e: EndpointId, u: Universe)
    requires Within(s, u) && e in u.endpoints
    ensures MembershipWithin(MembershipOf(s, e), u)
  {
  }

  // The weight of a mesh.

  ghost function Lefts(m: Mesh, u: Universe): map<EndpointId, nat>
    requires EachMachine(m)
  {
    map e | e in m.states :: Left(m.states[e], u)
  }

  ghost function Weight(m: Mesh, u: Universe): nat
    requires EachMachine(m)
  {
    Total(Lefts(m, u))
  }

  lemma LeftsUpdate(m: Mesh, n: Mesh, to: EndpointId, u: Universe)
    requires EachMachine(m) && EachMachine(n) && to in m.states && to in n.states
    requires n.states == m.states[to := n.states[to]]
    requires BelowCeiling(m.states[to]) && BelowCeiling(n.states[to])
    ensures Lefts(n, u) - {to} == Lefts(m, u) - {to}
    ensures Lefts(n, u)[to] == Left(n.states[to], u) && Lefts(m, u)[to] == Left(m.states[to], u)
  {
    hide Left, Valid;
    SameMap(Lefts(n, u) - {to}, Lefts(m, u) - {to});
  }

  lemma WeightUpdate(m: Mesh, n: Mesh, to: EndpointId, u: Universe)
    requires EachMachine(m) && EachMachine(n) && to in m.states && to in n.states
    requires n.states == m.states[to := n.states[to]]
    requires BelowCeiling(m.states[to]) && BelowCeiling(n.states[to])
    ensures Weight(n, u) - Left(n.states[to], u) == Weight(m, u) - Left(m.states[to], u)
  {
    LeftsUpdate(m, n, to, u);
    TotalSplit(Lefts(m, u), to);
    TotalSplit(Lefts(n, u), to);
    hide Left, EachMachine, Lefts, BelowCeiling, Total;
  }

  lemma DeliveredKeeps(a: Mesh, b: Mesh, to: EndpointId, r: Membership, u: Universe)
    requires Bounded(a, u) && Delivered(a, b, to, r)
    ensures Bounded(b, u) && Weight(b, u) <= Weight(a, u)
    ensures b.states != a.states ==> Weight(b, u) < Weight(a, u)
  {
    hide Merge, Valid, Within, MembershipWithin, ReleaseClosed, Left, Weight, MembershipOf;
    MergeKeeps(a.states[to], r, to);
    MergeUses(a.states[to], r, to, u);
    OwnMembershipWithin(b.states[to], to, u);
    assert EachMachine(b);
    WeightUpdate(a, b, to, u);
    if Merge(a.states[to], r, to) == a.states[to] {
      assert b.states == a.states;
    }
  }

  lemma StepKeeps(a: Mesh, b: Mesh, u: Universe)
    requires Bounded(a, u) && Step(a, b)
    ensures Bounded(b, u) && Weight(b, u) <= Weight(a, u)
    ensures b.states != a.states ==> Weight(b, u) < Weight(a, u)
  {
    hide Delivered, Within, MembershipWithin, ReleaseClosed, Valid, MembershipOf, Left;
    if to, r :| Delivered(a, b, to, r) {
      DeliveredKeeps(a, b, to, r, u);
    } else if e :| Republished(a, b, e) {
      OwnMembershipWithin(a.states[e], e, u);
    }
  }

  ghost predicate IsRun(run: nat -> Mesh) {
    forall n: nat :: Step(run(n), run(n + 1))
  }

  lemma {:induction false} RunKeeps(run: nat -> Mesh, n: nat, m: nat, u: Universe)
    requires IsRun(run) && Bounded(run(n), u) && n <= m
    ensures Bounded(run(m), u) && Weight(run(m), u) <= Weight(run(n), u)
    ensures run(m).states != run(n).states ==> Weight(run(m), u) < Weight(run(n), u)
    decreases m
  {
    hide Bounded, Step, Weight;
    if n < m {
      RunKeeps(run, n, m - 1, u);
      assert Step(run(m - 1), run(m - 1 + 1));
      StepKeeps(run(m - 1), run(m), u);
    }
  }

  ghost predicate SettledFrom(run: nat -> Mesh, n: nat) {
    forall m: nat :: n <= m ==> run(m).states == run(n).states
  }

  lemma {:induction false} Settles(run: nat -> Mesh, n: nat, u: Universe)
    requires IsRun(run) && Bounded(run(n), u)
    ensures exists k: nat :: SettledFrom(run, k)
    decreases Weight(run(n), u)
  {
    hide Bounded, Weight, IsRun;
    if !SettledFrom(run, n) {
      var m: nat :| n <= m && run(m).states != run(n).states;
      RunKeeps(run, n, m, u);
      Settles(run, m, u);
    }
  }

  // What circulates is finite.

  function Restrict(c: map<RepoId, set<Name>>, keep: set<RepoId>): map<RepoId, set<Name>> {
    map id | id in c && id in keep :: c[id]
  }

  // The records, claims and keys of one machine's state or of one membership.

  ghost function ClaimsIn(m: map<EndpointId, WorkspaceClaims>): set<map<RepoId, set<Name>>> {
    set e | e in m :: m[e].repos
  }

  ghost function Values<K(!new)>(m: map<K, Record>): set<Option<string>> {
    set k | k in m :: m[k].value
  }

  ghost function Collect<T(!new)>(m: Mesh, ofState: State -> set<T>, ofMembership: Membership -> set<T>): set<T> {
    (set e, x | e in m.states && x in ofState(m.states[e]) :: x)
    + (set r, x | r in m.sent && x in ofMembership(r) :: x)
  }

  lemma Collected<T(!new)>(m: Mesh, ofState: State -> set<T>, ofMembership: Membership -> set<T>)
    ensures forall e :: e in m.states ==> ofState(m.states[e]) <= Collect(m, ofState, ofMembership)
    ensures forall r :: r in m.sent ==> ofMembership(r) <= Collect(m, ofState, ofMembership)
  {
  }

  ghost function Restrictions(all: set<map<RepoId, set<Name>>>): set<map<RepoId, set<Name>>> {
    set c, keep | c in all && keep <= c.Keys :: Restrict(c, keep)
  }

  function StateKeys(s: State): set<EndpointId> {
    s.peers.Keys + s.peerClaims.Keys
  }

  function MembershipKeys(r: Membership): set<EndpointId> {
    r.peers.Keys + r.claims.Keys
  }

  ghost function StateNames(s: State): set<Option<string>> {
    Values(s.peers) + {Some(s.machine.name)}
  }

  ghost function MembershipNames(r: Membership): set<Option<string>> {
    Values(r.peers)
  }

  function StateRepos(s: State): set<Name> {
    s.meshRepos.Keys
  }

  function MembershipRepos(r: Membership): set<Name> {
    r.repos.Keys
  }

  ghost function StateIds(s: State): set<Option<string>> {
    Values(s.meshRepos)
  }

  ghost function MembershipIds(r: Membership): set<Option<string>> {
    Values(r.repos)
  }

  ghost function StateClaims(s: State): set<map<RepoId, set<Name>>> {
    ClaimsIn(s.peerClaims) + {s.claims.repos}
  }

  ghost function MembershipClaims(r: Membership): set<map<RepoId, set<Name>>> {
    ClaimsIn(r.claims)
  }

  ghost function Circulating(m: Mesh): Universe {
    Universe(
      m.states.Keys + Collect(m, StateKeys, MembershipKeys), Collect(m, StateNames, MembershipNames),
      Collect(m, StateRepos, MembershipRepos), Collect(m, StateIds, MembershipIds),
      Restrictions(Collect(m, StateClaims, MembershipClaims)))
  }

  lemma RestrictionsClosed(all: set<map<RepoId, set<Name>>>)
    ensures forall c, id :: c in Restrictions(all) ==> Put(c, id, {}) in Restrictions(all)
  {
    forall x, id | x in Restrictions(all) ensures Put(x, id, {}) in Restrictions(all) {
      var c, keep :| c in all && keep <= c.Keys && x == Restrict(c, keep);
      assert Put(x, id, {}) == Restrict(c, keep - {id}) by { DropFrom(c, keep, id); }
    }
  }

  lemma DropFrom(c: map<RepoId, set<Name>>, keep: set<RepoId>, id: RepoId)
    ensures Restrict(c, keep) - {id} == Restrict(c, keep - {id})
  {
    SameMap(Restrict(c, keep) - {id}, Restrict(c, keep - {id}));
  }

  lemma RestrictionsHold(all: set<map<RepoId, set<Name>>>)
    ensures all <= Restrictions(all)
  {
    forall c | c in all ensures c in Restrictions(all) {
      SameMap(Restrict(c, c.Keys), c);
      assert c.Keys <= c.Keys;
    }
  }

  /** Every state and every membership of the mesh is within what circulates. */
  ghost predicate Covers(m: Mesh, u: Universe) {
    && (forall e :: e in m.states ==>
          && e in u.endpoints && StateKeys(m.states[e]) <= u.endpoints && StateNames(m.states[e]) <= u.names
          && StateRepos(m.states[e]) <= u.repos && StateIds(m.states[e]) <= u.ids
          && StateClaims(m.states[e]) <= u.claims)
    && (forall r :: r in m.sent ==>
          && MembershipKeys(r) <= u.endpoints && MembershipNames(r) <= u.names && MembershipRepos(r) <= u.repos
          && MembershipIds(r) <= u.ids && MembershipClaims(r) <= u.claims)
  }

  lemma CirculatingCovers(m: Mesh)
    ensures Covers(m, Circulating(m))
  {
    Collected(m, StateKeys, MembershipKeys);
    Collected(m, StateNames, MembershipNames);
    Collected(m, StateRepos, MembershipRepos);
    Collected(m, StateIds, MembershipIds);
    Collected(m, StateClaims, MembershipClaims);
    RestrictionsHold(Collect(m, StateClaims, MembershipClaims));
    hide Collect, Restrictions, StateKeys, MembershipKeys, StateNames, MembershipNames, StateRepos, MembershipRepos,
      StateIds, MembershipIds, StateClaims, MembershipClaims;
  }

  lemma ValuesWithin<K(!new)>(m: map<K, Record>, keys: set<K>, values: set<Option<string>>)
    requires m.Keys <= keys && Values(m) <= values
    ensures RecordsWithin(m, keys, values)
  {
    assert forall k :: k in m ==> m[k].value in Values(m);
  }

  lemma ClaimsInWithin(m: map<EndpointId, WorkspaceClaims>, u: Universe)
    requires m.Keys <= u.endpoints && ClaimsIn(m) <= u.claims
    ensures ClaimsWithin(m, u)
  {
    assert forall e :: e in m ==> m[e].repos in ClaimsIn(m);
  }

  lemma CoversWithin(m: Mesh, u: Universe)
    requires Covers(m, u) && ReleaseClosed(u)
    ensures AllWithin(m, u)
  {
    hide Values, ClaimsIn, RecordsWithin, ClaimsWithin, ReleaseClosed;
    forall e | e in m.states ensures e in u.endpoints && Within(m.states[e], u) {
      var s := m.states[e];
      ValuesWithin(s.peers, u.endpoints, u.names);
      ValuesWithin(s.meshRepos, u.repos, u.ids);
      ClaimsInWithin(s.peerClaims, u);
    }
    forall r | r in m.sent ensures MembershipWithin(r, u) {
      ValuesWithin(r.peers, u.endpoints, u.names);
      ValuesWithin(r.repos, u.repos, u.ids);
      ClaimsInWithin(r.claims, u);
    }
  }

  lemma CirculatingHolds(m: Mesh)
    ensures AllWithin(m, Circulating(m))
  {
    hide Covers, AllWithin, Restrictions, Put, Collect;
    RestrictionsClosed(Collect(m, StateClaims, MembershipClaims));
    CirculatingCovers(m);
    CoversWithin(m, Circulating(m));
  }

  /** From any valid mesh, with no local change, every run of deliveries and
      rebroadcasts stops changing any machine. */
  lemma GossipStops(run: nat -> Mesh)
    requires IsRun(run) && EachMachine(run(0))
    ensures exists k: nat :: SettledFrom(run, k)
  {
    hide EachMachine, AllWithin, IsRun, SettledFrom;
    CirculatingHolds(run(0));
    Settles(run, 0, Circulating(run(0)));
  }
}
