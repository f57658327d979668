/** Every fair run of the gossip ends with the machines it links in agreement. */
module FairGossip {
  import opened Registers
  import opened MeshModel
  import opened MeshValid
  import opened Gossip
  import opened Quiescence

  /** What `i` gossips keeps reaching `j`: after any moment, something `i` held since
      is delivered. Snapshots in between may be lost, repeated or reordered. */
  ghost predicate Link(run: nat -> Mesh, i: EndpointId, j: EndpointId) {
    forall n: nat :: ReachesAfter(run, i, j, n)
  }

  ghost predicate ReachesAfter(run: nat -> Mesh, i: EndpointId, j: EndpointId, n: nat) {
    exists p: nat, m: nat :: n <= p <= m && Reaches(run, i, j, p, m)
  }

  ghost predicate Reaches(run: nat -> Mesh, i: EndpointId, j: EndpointId, p: nat, m: nat) {
    i in run(p).states && Delivered(run(m), run(m + 1), j, MembershipOf(run(p).states[i], i))
  }

  /** Both machines keep gossiping to each other, with room for what they hold. */
  ghost predicate Linked(run: nat -> Mesh, i: EndpointId, j: EndpointId) {
    && i != j && Link(run, i, j) && Link(run, j, i)
    && forall n: nat :: i in run(n).states && j in run(n).states ==>
         RoomFor(run(n).states[i], i, run(n).states[j], j) && RoomFor(run(n).states[j], j, run(n).states[i], i)
  }

  ghost predicate LinkedPath(run: nat -> Mesh, path: seq<EndpointId>) {
    path != [] && forall i: nat :: i + 1 < |path| ==> Linked(run, path[i], path[i + 1])
  }

  lemma {:induction false} StaysValid(run: nat -> Mesh, n: nat)
    requires IsRun(run) && EachMachine(run(0))
    ensures EachMachine(run(n)) && run(n).states.Keys == run(0).states.Keys
    decreases n
  {
    hide Valid, Merge, MembershipOf, IsRun;
    if n > 0 {
      StaysValid(run, n - 1);
      OneStep(run, n - 1);
      var a, b := run(n - 1), run(n);
      if to, r :| Delivered(a, b, to, r) {
        MergeKeeps(a.states[to], r, to);
      }
    }
  }

  lemma OneStep(run: nat -> Mesh, n: nat)
    requires IsRun(run)
    ensures Step(run(n), run(n + 1))
  {
  }

  /** Once nothing changes any more, what a link delivers changes nothing. */
  lemma LinkIsQuiet(run: nat -> Mesh, k: nat, i: EndpointId, j: EndpointId)
    requires IsRun(run) && EachMachine(run(0)) && SettledFrom(run, k) && Linked(run, i, j)
    ensures Quiet(run(k).states, i, j)
  {
    hide Valid, Merge, MembershipOf, IsRun, RoomFor;
    assert ReachesAfter(run, i, j, k);
    var p: nat, m: nat :| k <= p <= m && Reaches(run, i, j, p, m);
    assert run(p).states == run(k).states && run(m).states == run(k).states && run(m + 1).states == run(k).states;
    StaysValid(run, k);
    var net := run(k).states;
    assert net == net[j := Merge(net[j], MembershipOf(net[i], i), j)];
  }

  lemma LinkedBack(run: nat -> Mesh, i: EndpointId, j: EndpointId)
    requires Linked(run, i, j)
    ensures Linked(run, j, i)
  {
  }

  lemma LinkedSettles(run: nat -> Mesh, k: nat, i: EndpointId, j: EndpointId)
    requires IsRun(run) && EachMachine(run(0)) && SettledFrom(run, k) && Linked(run, i, j)
    ensures Settled(run(k).states, i, j)
  {
    hide IsRun, EachMachine, SettledFrom, Quiet, Link;
    LinkIsQuiet(run, k, i, j);
    LinkedBack(run, i, j);
    LinkIsQuiet(run, k, j, i);
  }

  /** With no local change, every run in which neighbours keep reaching each other
      comes to rest, and machines joined by such links then hold the same mesh
      list, and the same record of every machine off the path between them. */
  lemma FairRunAgrees(run: nat -> Mesh, path: seq<EndpointId>)
    requires IsRun(run) && EachMachine(run(0)) && LinkedPath(run, path)
    requires path[0] in run(0).states && path[|path| - 1] in run(0).states
    ensures exists k: nat :: SettledFrom(run, k) && EndsAgree(run(k).states, path)
  {
    hide IsRun, EachMachine, SettledFrom, Settled, Linked;
    GossipStops(run);
    var k: nat :| SettledFrom(run, k);
    forall i: nat | i + 1 < |path| ensures Settled(run(k).states, path[i], path[i + 1]) {
      LinkedSettles(run, k, path[i], path[i + 1]);
    }
    StaysValid(run, k);
    PathAgreesOnRepos(run(k).states, path);
    forall e | e !in path {
      PathAgreesOnPeer(run(k).states, path, e);
    }
    assert EndsAgree(run(k).states, path);
  }

  ghost predicate EndsAgree(net: Net, path: seq<EndpointId>) {
    && path != [] && path[0] in net && path[|path| - 1] in net
    && var a, b := net[path[0]], net[path[|path| - 1]];
       a.meshRepos == b.meshRepos
       && forall e :: e !in path ==> (e in a.peers <==> e in b.peers) && (e in a.peers ==> a.peers[e] == b.peers[e])
  }
}
