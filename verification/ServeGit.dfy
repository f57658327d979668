/** Serving the git phase of a fetch: the object stream for a request. */
module ServeGit {
  import opened Collections
  import Dag
  import opened GitObjects
  import opened ClosureWalk

  /** jj's virtual root commit: indexed, never stored. */
  const VIRTUAL_ROOT: ObjectId := Dag.ROOT

  /** The commits the op log of a repo references: closed under parents. */
  ghost predicate IndexOf(u: Content, index: set<ObjectId>) {
    && VIRTUAL_ROOT !in u && (forall c :: IsCommit(u, c) ==> VIRTUAL_ROOT !in u[c].parents)
    && (forall c :: c in index && c != VIRTUAL_ROOT ==> IsCommit(u, c))
    && Dag.Closed(History(u), index)
  }

  ghost predicate Wanted(u: Content, index: set<ObjectId>, haves: seq<ObjectId>, wants: seq<ObjectId>, c: ObjectId) {
    Dag.AncestorOfAny(History(u), c, Elems(wants)) && !Dag.AncestorOfAny(History(u), c, Elems(haves) * index)
  }

  /** What jj's index answers for `haves..wants`: the exact range, parents first.
      Haves outside the index are ignored; the virtual root may appear. */
  ghost predicate IsCommitRange(u: Content, index: set<ObjectId>, haves: seq<ObjectId>, wants: seq<ObjectId>,
                                range: seq<ObjectId>)
  {
    && NoDup(range)
    && (forall c :: c != VIRTUAL_ROOT ==> (c in range <==> Wanted(u, index, haves, wants, c)))
    && (forall i, p :: 0 <= i < |range| && p in Dag.Parents(History(u), range[i]) && p in range ==> p in range[..i])
  }

  /** Cutting the stream anywhere leaves the fetcher's store complete. */
  ghost predicate PrefixSafe(u: Content, fetcher: set<ObjectId>, out: seq<ObjectId>) {
    forall n :: 0 <= n <= |out| ==> Complete(u, fetcher + Elems(out[..n]))
  }

  lemma PrefixSafeAppend(u: Content, fetcher: set<ObjectId>, out: seq<ObjectId>, x: ObjectId)
    requires PrefixSafe(u, fetcher, out)
    requires IsCommit(u, x) ==> Holds(u, fetcher + Elems(out + [x]), x)
    ensures PrefixSafe(u, fetcher, out + [x])
  {
    var out' := out + [x];
    forall n | 0 <= n <= |out'| ensures Complete(u, fetcher + Elems(out'[..n])) {
      if n <= |out| {
        assert out'[..n] == out[..n];
      } else {
        assert out'[..n] == out' && out[..|out|] == out;
        IdsAppend(out, [x]);
        assert fetcher + Elems(out') == fetcher + Elems(out) + Elems([x]);
        AddKeepsComplete(u, fetcher + Elems(out), Elems([x]));
      }
    }
  }

  lemma {:induction false} PrefixSafeLeaves(u: Content, fetcher: set<ObjectId>, out: seq<ObjectId>,
                                            leaves: seq<ObjectId>)
    requires PrefixSafe(u, fetcher, out) && Leaves(u, leaves)
    ensures PrefixSafe(u, fetcher, out + leaves)
    decreases |leaves|
  {
    if leaves == [] {
      assert out + leaves == out;
    } else {
      PrefixSafeAppend(u, fetcher, out, leaves[0]);
      PrefixSafeLeaves(u, fetcher, out + [leaves[0]], leaves[1..]);
      assert out + [leaves[0]] + leaves[1..] == out + leaves;
    }
  }

  /** Ancestors of the wants are served or held by the fetcher. */
  lemma ServedOrHeld(u: Content, index: set<ObjectId>, haves: seq<ObjectId>, wants: seq<ObjectId>,
                     range: seq<ObjectId>, fetcher: set<ObjectId>, p: ObjectId)
    requires IndexOf(u, index) && IsCommitRange(u, index, haves, wants, range)
    requires Complete(u, fetcher) && Elems(haves) <= fetcher + {VIRTUAL_ROOT}
    requires Dag.AncestorOfAny(History(u), p, Elems(wants)) && p != VIRTUAL_ROOT
    requires Elems(wants) <= index
    ensures p in range || p in Core(u, fetcher)
  {
    if p !in range {
      assert !Wanted(u, index, haves, wants, p);
      var h :| h in Elems(haves) * index && Dag.Ancestor(History(u), p, h);
      if h == VIRTUAL_ROOT {
        assert Dag.Closed(History(u), {VIRTUAL_ROOT});
        Dag.InClosed(History(u), p, h, {VIRTUAL_ROOT});
      } else {
        assert Holds(u, fetcher, h);
        CoreClosed(u, fetcher);
        ClosedHasHistory(u, Core(u, fetcher), p, h);
      }
    }
  }

  /** A served parent is held by the fetcher or was sent earlier. */
  lemma ParentHeld(u: Content, index: set<ObjectId>, haves: seq<ObjectId>, wants: seq<ObjectId>,
                   range: seq<ObjectId>, i: nat, fetcher: set<ObjectId>, p: ObjectId)
    requires IndexOf(u, index) && IsCommitRange(u, index, haves, wants, range)
    requires Complete(u, fetcher) && Elems(haves) <= fetcher + {VIRTUAL_ROOT}
    requires Elems(wants) <= index
    requires i < |range| && range[i] != VIRTUAL_ROOT && IsCommit(u, range[i]) && p in u[range[i]].parents
    ensures p in range[..i] || p in Core(u, fetcher)
  {
    assert p in Dag.Parents(History(u), range[i]);
    assert Wanted(u, index, haves, wants, range[i]);
    var w :| w in Elems(wants) && Dag.Ancestor(History(u), range[i], w);
    Dag.ParentStep(History(u), p, range[i], w);
    ServedOrHeld(u, index, haves, wants, range, fetcher, p);
  }

  function TreeOf(server: Content, c: ObjectId): ObjectId {
    if IsCommit(server, c) then server[c].tree else VIRTUAL_ROOT
  }

  /** The trees a commit is compared against: its parents', then those of the
      other versions of its change. */
  function Candidates(server: Content, parents: seq<ObjectId>, others: seq<ObjectId>): seq<ObjectId> {
    if parents == [] then others else [TreeOf(server, parents[0])] + Candidates(server, parents[1..], others)
  }

  lemma CandidatesFrom(server: Content, parents: seq<ObjectId>, others: seq<ObjectId>)
    ensures |Candidates(server, parents, others)| == |parents| + |others|
    ensures forall i :: 0 <= i < |parents| ==> Candidates(server, parents, others)[i] == TreeOf(server, parents[i])
    ensures Candidates(server, parents, others)[|parents|..] == others
  {
    if parents != [] {
      CandidatesFrom(server, parents[1..], others);
    }
  }

  /** The first `cap` distinct candidates. */
  function Capped(bases: seq<ObjectId>, candidates: seq<ObjectId>, cap: nat): (r: seq<ObjectId>)
    requires NoDup(bases) && |bases| <= cap
    ensures NoDup(r) && |r| <= cap && bases <= r
    ensures forall b :: b in r ==> b in bases || b in candidates
    ensures |r| == cap || forall b :: b in candidates ==> b in r
    decreases |candidates|
  {
    if candidates == [] || |bases| == cap then bases
    else
      var first := candidates[0];
      assert forall b :: b in candidates ==> b == first || b in candidates[1..];
      if first in bases then
        assert exists i :: 0 <= i < |bases| && bases[i] == first;
        Capped(bases, candidates[1..], cap)
      else
        var r := Capped(bases + [first], candidates[1..], cap);
        assert r[|bases|] == first;
        r
  }

  ghost predicate FromParentOrVersion(server: Content, parents: seq<ObjectId>, others: seq<ObjectId>, b: ObjectId) {
    b in others || exists p :: p in parents && IsCommit(server, p) && b == server[p].tree
  }

  /** Collecting in two parts. */
  lemma {:induction false} CappedSplit(bases: seq<ObjectId>, a: seq<ObjectId>, b: seq<ObjectId>, cap: nat)
    requires NoDup(bases) && |bases| <= cap
    ensures Capped(bases, a + b, cap) == Capped(Capped(bases, a, cap), b, cap)
    decreases |a|
  {
    if a == [] {
      assert a + b == b;
    } else if |bases| < cap {
      assert (a + b)[1..] == a[1..] + b;
      if a[0] !in bases { NoDupAppend(bases, a[0]); }
      CappedSplit(if a[0] in bases then bases else bases + [a[0]], a[1..], b, cap);
    }
  }

  /** A parent the server lacks, met before eight bases were collected. */
  ghost predicate MissingParent(server: Content, parents: seq<ObjectId>, others: seq<ObjectId>, j: nat) {
    && j < |parents| && !IsCommit(server, parents[j])
    && (j == 0 || (j - 1 <= |Candidates(server, parents, others)|
                   && |Capped([], Candidates(server, parents, others)[..j - 1], MAX_BASES)| < MAX_BASES))
  }

  /** Once there are eight bases no further parent is looked at. */
  lemma EnoughBases(server: Content, parents: seq<ObjectId>, others: seq<ObjectId>, i: nat)
    requires i < |parents| && forall k :: 0 <= k <= i ==> IsCommit(server, parents[k])
    requires |Candidates(server, parents, others)| == |parents| + |others|
    requires |Capped([], Candidates(server, parents, others)[..i], MAX_BASES)| == MAX_BASES
    ensures forall j: nat :: !MissingParent(server, parents, others, j)
  {
    var all := Candidates(server, parents, others);
    forall j: nat ensures !MissingParent(server, parents, others, j) {
      if i < j < |parents| {
        assert all[..j - 1] == all[..i] + all[i..j - 1];
        CappedSplit([], all[..i], all[i..j - 1], MAX_BASES);
      }
    }
  }

  lemma CappedOne(bases: seq<ObjectId>, base: ObjectId)
    requires NoDup(bases) && |bases| <= MAX_BASES
    ensures Capped(bases, [base], MAX_BASES) ==
            if |bases| == MAX_BASES || base in bases then bases else bases + [base]
  {
    assert [base][1..] == [];
    if base !in bases { NoDupAppend(bases, base); }
  }

  /** One more candidate is collected, or there are enough. */
  lemma CollectOne(candidates: seq<ObjectId>, j: nat, bases: seq<ObjectId>)
    requires j < |candidates| && bases == Capped([], candidates[..j], MAX_BASES)
    ensures Capped([], candidates[..j + 1], MAX_BASES) ==
            if |bases| == MAX_BASES || candidates[j] in bases then bases else bases + [candidates[j]]
  {
    hide Capped, NoDup;
    var before, one := candidates[..j], [candidates[j]];
    NoneCollected();
    assert candidates[..j + 1] == before + one;
    CappedSplit([], before, one, MAX_BASES);
    CappedOne(bases, candidates[j]);
  }

  lemma CollectedEnough(candidates: seq<ObjectId>, j: nat, bases: seq<ObjectId>)
    requires j < |candidates| && bases == Capped([], candidates[..j], MAX_BASES) && |bases| == MAX_BASES
    ensures Capped([], candidates, MAX_BASES) == bases
  {
    assert candidates == candidates[..j] + candidates[j..];
    CappedSplit([], candidates[..j], candidates[j..], MAX_BASES);
  }

  lemma NothingMissing(server: Content, parents: seq<ObjectId>, others: seq<ObjectId>)
    requires forall k :: 0 <= k < |parents| ==> IsCommit(server, parents[k])
    ensures forall j: nat :: !MissingParent(server, parents, others, j)
  {
  }

  lemma ParentMissing(server: Content, parents: seq<ObjectId>, others: seq<ObjectId>, j: nat)
    requires j < |parents| && !IsCommit(server, parents[j])
    requires |Candidates(server, parents, others)| == |parents| + |others|
    requires j > 0 ==> |Capped([], Candidates(server, parents, others)[..j - 1], MAX_BASES)| < MAX_BASES
    ensures MissingParent(server, parents, others, j) && parents[j] in parents
  {
  }

  /** The bases of a commit. It fails exactly when a parent it looks at is missing. */
  method GatherBases(server: Content, parents: seq<ObjectId>, others: seq<ObjectId>)
    returns (ok: bool, bases: seq<ObjectId>)
    ensures ok ==> bases == Capped([], Candidates(server, parents, others), MAX_BASES)
    ensures ok ==> forall b :: b in bases ==> FromParentOrVersion(server, parents, others, b)
    ensures ok <==> forall j: nat :: !MissingParent(server, parents, others, j)
    ensures (forall p :: p in parents ==> IsCommit(server, p)) ==> ok
  {
    hide FromParentOrVersion, Capped, MissingParent, Candidates, NoDup;
    ghost var candidates := Candidates(server, parents, others);
    CandidatesFrom(server, parents, others);
    ok, bases := true, [];
    assert candidates[..0] == [];
    NoneCollected();
    for j := 0 to |parents| + |others|
      invariant bases == Capped([], candidates[..j], MAX_BASES)
      invariant j > 0 ==> |Capped([], candidates[..j - 1], MAX_BASES)| < MAX_BASES
      invariant forall k :: 0 <= k < j && k < |parents| ==> IsCommit(server, parents[k])
      invariant forall b :: b in bases ==> FromParentOrVersion(server, parents, others, b)
    {
      if j < |parents| && !IsCommit(server, parents[j]) {
        ParentMissing(server, parents, others, j);
        ok := false;
        return;
      }
      var base := if j < |parents| then server[parents[j]].tree else others[j - |parents|];
      OneCandidate(server, parents, others, j, base);
      CollectOne(candidates, j, bases);
      if |bases| == MAX_BASES {
        CollectedEnough(candidates, j, bases);
        if j < |parents| {
          EnoughBases(server, parents, others, j);
        } else {
          NothingMissing(server, parents, others);
        }
        return;
      }
      if base !in bases {
        bases := bases + [base];
      }
    }
    assert candidates[..|parents| + |others|] == candidates;
    NothingMissing(server, parents, others);
  }

  lemma NoneCollected()
    ensures Capped([], [], MAX_BASES) == [] && NoDup<ObjectId>([])
  {
  }

  /** The first candidates are all kept. */
  lemma {:induction false} CappedKeepsFirst(bases: seq<ObjectId>, candidates: seq<ObjectId>, k: nat, cap: nat)
    requires NoDup(bases) && |bases| + k <= cap && k <= |candidates|
    ensures forall i :: 0 <= i < k ==> candidates[i] in Capped(bases, candidates, cap)
    decreases k
  {
    if k > 0 {
      var first := candidates[0];
      var bases' := if first in bases then bases else bases + [first];
      CappedKeepsFirst(bases', candidates[1..], k - 1, cap);
      var r := Capped(bases', candidates[1..], cap);
      assert r == Capped(bases, candidates, cap);
      assert first in bases' && forall b :: b in bases' ==> b in r;
      forall i | 0 <= i < k ensures candidates[i] in r {
        if i > 0 { assert candidates[i] == candidates[1..][i - 1]; }
      }
    }
  }

  /** Unless a commit is a wide octopus merge, each parent's tree is a base. */
  lemma ParentsAreBases(server: Content, parents: seq<ObjectId>, others: seq<ObjectId>)
    requires |parents| <= MAX_BASES
    ensures forall p :: p in parents ==> TreeOf(server, p) in Capped([], Candidates(server, parents, others), MAX_BASES)
  {
    CandidatesFrom(server, parents, others);
    CappedKeepsFirst([], Candidates(server, parents, others), |parents|, MAX_BASES);
    forall p | p in parents ensures TreeOf(server, p) in Capped([], Candidates(server, parents, others), MAX_BASES) {
      var i :| 0 <= i < |parents| && parents[i] == p;
      assert Candidates(server, parents, others)[i] == TreeOf(server, p);
    }
  }

  lemma NoDupAppend<T>(s: seq<T>, x: T)
    requires NoDup(s) && x !in s
    ensures NoDup(s + [x])
  {
  }

  lemma OneCandidate(server: Content, parents: seq<ObjectId>, others: seq<ObjectId>, j: nat, base: ObjectId)
    requires j < |parents| + |others|
    requires j < |parents| ==> IsCommit(server, parents[j])
    requires base == if j < |parents| then server[parents[j]].tree else others[j - |parents|]
    ensures |Candidates(server, parents, others)| == |parents| + |others|
    ensures base == Candidates(server, parents, others)[j]
    ensures Candidates(server, parents, others)[j..][1..] == Candidates(server, parents, others)[j + 1..]
    ensures FromParentOrVersion(server, parents, others, base)
  {
    CandidatesFrom(server, parents, others);
    if j >= |parents| {
      assert base in others;
    } else {
      assert parents[j] in parents;
    }
  }

  type Versions = map<string, seq<ObjectId>>

  function VersionsOf(versions: Versions, change: Option<string>): seq<ObjectId> {
    if change.Some? && change.value in versions then versions[change.value] else []
  }

  function AddVersion(versions: Versions, change: Option<string>, tree: ObjectId): Versions {
    if change.None? then versions
    else versions[change.value := VersionsOf(versions, change) + [tree]]
  }

  predicate VersionOf(server: Content, d: ObjectId, change: Option<string>) {
    d != VIRTUAL_ROOT && IsCommit(server, d) && server[d].change.Some? && server[d].change == change
  }

  /** The trees of the readable commits of a change, in order. */
  ghost function VersionTrees(server: Content, ids: seq<ObjectId>, change: Option<string>): seq<ObjectId>
    decreases |ids|
  {
    if ids == [] then []
    else
      var d := ids[|ids| - 1];
      VersionTrees(server, ids[..|ids| - 1], change) + if VersionOf(server, d, change) then [server[d].tree] else []
  }

  /** Exactly the trees of the commits that carry the change id. */
  lemma {:induction false} VersionTreesExact(server: Content, ids: seq<ObjectId>, change: Option<string>)
    ensures forall t :: t in VersionTrees(server, ids, change) <==>
              exists d :: d in ids && d != VIRTUAL_ROOT && IsCommit(server, d) && server[d].change.Some?
                          && server[d].change == change && server[d].tree == t
    decreases |ids|
  {
    if ids != [] {
      var n := |ids| - 1;
      VersionTreesExact(server, ids[..n], change);
      assert forall d :: d in ids <==> d in ids[..n] || d == ids[n];
    }
  }

  /** The versions remembered are those of the commits met. */
  ghost predicate Remembers(server: Content, ids: seq<ObjectId>, versions: Versions) {
    forall k :: VersionsOf(versions, Some(k)) == VersionTrees(server, ids, Some(k))
  }

  lemma RemembersOneMore(server: Content, ids: seq<ObjectId>, versions: Versions, d: ObjectId)
    requires Remembers(server, ids, versions)
    ensures if d != VIRTUAL_ROOT && IsCommit(server, d)
            then Remembers(server, ids + [d], AddVersion(versions, server[d].change, server[d].tree))
            else Remembers(server, ids + [d], versions)
  {
    assert (ids + [d])[..|ids|] == ids;
  }

  lemma {:induction false} NoChangeNoVersions(server: Content, ids: seq<ObjectId>)
    ensures VersionTrees(server, ids, None) == []
    decreases |ids|
  {
    if ids != [] {
      NoChangeNoVersions(server, ids[..|ids| - 1]);
    }
  }

  /** What is gathered from a commit's parents and the versions remembered. */
  lemma GatheredCompared(server: Content, ids: seq<ObjectId>, versions: Versions, c: ObjectId)
    requires IsCommit(server, c) && Remembers(server, ids, versions)
    ensures var parents, others := server[c].parents, VersionsOf(versions, server[c].change);
            Compared(server, ids, c, Capped([], Candidates(server, parents, others), MAX_BASES))
  {
    hide Capped, VersionTrees;
    var parents, others := server[c].parents, VersionsOf(versions, server[c].change);
    var all := Candidates(server, parents, others);
    NoChangeNoVersions(server, ids);
    assert server[c].change.Some? ==> server[c].change == Some(server[c].change.value);
    CandidatesFrom(server, parents, others);
    if |parents| <= MAX_BASES {
      ParentsAreBases(server, parents, others);
    }
    forall j | 0 <= j < |others| && |parents| + j < MAX_BASES ensures others[j] in Capped([], all, MAX_BASES) {
      CappedKeepsFirst([], all, |parents| + j + 1, MAX_BASES);
      assert all[|parents| + j] == all[|parents|..][j];
    }
  }

  ghost predicate GoodBase(u: Content, server: Content, held: set<ObjectId>, t: ObjectId) {
    && IsTree(u, t) && t in held
    && (Complete(u, server.Keys) ==> t in Core(u, server.Keys))
  }

  ghost predicate GoodVersions(u: Content, server: Content, held: set<ObjectId>, versions: Versions) {
    forall k, t :: k in versions && t in versions[k] ==> GoodBase(u, server, held, t)
  }

  /** The tree of a commit both sides have is a base either can use. */
  lemma TreeIsGoodBase(u: Content, server: Content, held: set<ObjectId>, c: ObjectId)
    requires Sub(server, u) && WellTyped(u) && Closed(u, held)
    requires IsCommit(server, c) && c in held
    ensures GoodBase(u, server, held, server[c].tree)
  {
    assert CommitTyped(u, c);
    assert server[c].tree in References(u[c]);
    if Complete(u, server.Keys) {
      CoreClosed(u, server.Keys);
      assert c in Core(u, server.Keys);
    }
  }

  lemma AddVersionKeeps(u: Content, server: Content, held: set<ObjectId>, versions: Versions, change: Option<string>,
                        t: ObjectId)
    requires GoodVersions(u, server, held, versions) && GoodBase(u, server, held, t)
    ensures GoodVersions(u, server, held, AddVersion(versions, change, t))
  {
  }

  /** The versions the fetcher's haves bring, of the haves the server can read. */
  method HaveVersions(ghost u: Content, server: Content, haves: seq<ObjectId>, ghost fetcher: set<ObjectId>)
    returns (versions: Versions)
    requires Sub(server, u) && WellTyped(u) && Complete(u, fetcher)
    requires Elems(haves) <= fetcher + {VIRTUAL_ROOT}
    ensures GoodVersions(u, server, Core(u, fetcher), versions) && Remembers(server, haves, versions)
  {
    versions := map[];
    CoreClosed(u, fetcher);
    for i := 0 to |haves|
      invariant GoodVersions(u, server, Core(u, fetcher), versions) && Remembers(server, haves[..i], versions)
    {
      var have := haves[i];
      assert haves[..i + 1] == haves[..i] + [have];
      RemembersOneMore(server, haves[..i], versions, have);
      if have != VIRTUAL_ROOT && IsCommit(server, have) {
        assert have in Elems(haves) && IsCommit(u, have);
        assert have in Core(u, fetcher);
        TreeIsGoodBase(u, server, Core(u, fetcher), have);
        AddVersionKeeps(u, server, Core(u, fetcher), versions, server[have].change, server[have].tree);
        versions := AddVersion(versions, server[have].change, server[have].tree);
      }
    }
    assert haves[..|haves|] == haves;
  }

  /** A request as the walk sees it: what the fetcher holds and what it asks. */
  ghost predicate Request(u: Content, server: Content, index: set<ObjectId>, haves: seq<ObjectId>,
                          wants: seq<ObjectId>, range: seq<ObjectId>, fetcher: set<ObjectId>)
  {
    && Sub(server, u) && WellTyped(u) && IndexOf(u, index)
    && (Elems(wants) <= index ==> IsCommitRange(u, index, haves, wants, range))
    && Complete(u, fetcher) && Elems(haves) <= fetcher + {VIRTUAL_ROOT}
  }

  ghost predicate WithinWants(u: Content, wants: seq<ObjectId>, ids: set<ObjectId>) {
    forall c: set<ObjectId> :: Closed(u, c) && Elems(wants) <= c + {VIRTUAL_ROOT} ==> ids <= c
  }

  /** The stream is made of the trees and blobs `seen` and of the commits done. */
  ghost predicate Streamed(u: Content, done: seq<ObjectId>, seen: set<ObjectId>, out: seq<ObjectId>) {
    && NoDup(out) && seen <= Elems(out)
    && (forall x :: x in seen ==> x in u && !u[x].Commit?)
    && (forall x :: x in out ==> x in seen || x in done)
    && (forall c :: c in done && c != VIRTUAL_ROOT ==> c in out)
  }

  /** The bases of a commit hold the trees of its parents and, as far as there is room,
      those of the versions of its change among `ids`, first known first. */
  ghost predicate Compared(server: Content, ids: seq<ObjectId>, c: ObjectId, bases: seq<ObjectId>) {
    IsCommit(server, c) ==>
      var parents, others := server[c].parents, VersionTrees(server, ids, server[c].change);
      && (|parents| <= MAX_BASES ==> forall p :: p in parents ==> TreeOf(server, p) in bases)
      && (forall j :: 0 <= j < |others| && |parents| + j < MAX_BASES ==> others[j] in bases)
  }

  /** `x` differs, on some path, from what the bases of a served commit hold there:
      the trees of its parents and of the versions of its change that the fetcher has
      or was sent before. */
  ghost predicate Changed(server: Content, haves: seq<ObjectId>, done: seq<ObjectId>, x: ObjectId) {
    exists k, bases ::
      && 0 <= k < |done| && IsCommit(server, done[k])
      && Compared(server, haves + done[..k], done[k], bases)
      && server[done[k]].tree !in bases && InDelta(server, bases, server[done[k]].tree, x)
  }

  /** Between two commits of the range. */
  ghost predicate Serving(u: Content, server: Content, haves: seq<ObjectId>, wants: seq<ObjectId>,
                          done: seq<ObjectId>, fetcher: set<ObjectId>, seen: set<ObjectId>, out: seq<ObjectId>,
                          versions: Versions)
  {
    && (forall x :: x in seen ==> Changed(server, haves, done, x))
    && Closed(u, Core(u, fetcher) + Elems(out))
    && Streamed(u, done, seen, out)
    && PrefixSafe(u, fetcher, out)
    && GoodVersions(u, server, Core(u, fetcher) + Elems(out), versions)
    && WithinWants(u, wants, Elems(out))
  }

  lemma ParentsGood(u: Content, server: Content, index: set<ObjectId>, haves: seq<ObjectId>, wants: seq<ObjectId>,
                    range: seq<ObjectId>, i: nat, fetcher: set<ObjectId>, out: seq<ObjectId>)
    requires Request(u, server, index, haves, wants, range, fetcher) && Elems(wants) <= index
    requires i < |range| && range[i] != VIRTUAL_ROOT && IsCommit(u, range[i])
    requires Closed(u, Core(u, fetcher) + Elems(out))
    requires forall c :: c in range[..i] && c != VIRTUAL_ROOT ==> c in out
    ensures forall p :: p in u[range[i]].parents ==> p in Core(u, fetcher) + Elems(out)
    ensures forall p :: p in u[range[i]].parents && IsCommit(server, p) ==>
              GoodBase(u, server, Core(u, fetcher) + Elems(out), server[p].tree)
  {
    forall p | p in u[range[i]].parents
      ensures p in Core(u, fetcher) + Elems(out)
      ensures IsCommit(server, p) ==> GoodBase(u, server, Core(u, fetcher) + Elems(out), server[p].tree)
    {
      ParentHeld(u, index, haves, wants, range, i, fetcher, p);
      if IsCommit(server, p) {
        TreeIsGoodBase(u, server, Core(u, fetcher) + Elems(out), p);
      }
    }
  }

  /** A served commit lies in every closed set holding the wants. */
  lemma RangeWithinWants(u: Content, index: set<ObjectId>, haves: seq<ObjectId>, wants: seq<ObjectId>,
                         range: seq<ObjectId>, c: ObjectId)
    requires IndexOf(u, index) && IsCommitRange(u, index, haves, wants, range)
    requires c in range && c != VIRTUAL_ROOT
    ensures WithinWants(u, wants, {c})
    ensures Elems(wants) <= index ==> c in index
  {
    assert Wanted(u, index, haves, wants, c);
    var w :| w in Elems(wants) && Dag.Ancestor(History(u), c, w);
    if Elems(wants) <= index {
      Dag.InClosed(History(u), c, w, index);
    }
    if w == VIRTUAL_ROOT {
      assert Dag.Closed(History(u), {VIRTUAL_ROOT});
      Dag.InClosed(History(u), c, w, {VIRTUAL_ROOT});
    } else {
      forall s: set<ObjectId> | Closed(u, s) && Elems(wants) <= s + {VIRTUAL_ROOT} ensures {c} <= s {
        ClosedHasHistory(u, s, c, w);
      }
    }
  }

  /** What a commit's walk leaves behind, complete or cut short. */
  lemma TreeStreamed(u: Content, wants: seq<ObjectId>, done: seq<ObjectId>, fetcher: set<ObjectId>,
                     seen: set<ObjectId>, out: seq<ObjectId>, c: ObjectId, o: seq<ObjectId>)
    requires WellTyped(u) && IsCommit(u, c)
    requires Streamed(u, done, seen, out) && PrefixSafe(u, fetcher, out) && WithinWants(u, wants, Elems(out))
    requires forall d :: d in done && d != VIRTUAL_ROOT ==> IsCommit(u, d)
    requires VIRTUAL_ROOT !in u
    requires NoDup(o) && Elems(o) !! seen && Leaves(u, o)
    requires WithinWants(u, wants, {c}) && WithinClosures(u, u[c].tree, Elems(o))
    ensures NoDup(out + o) && Elems(out + o) == Elems(out) + Elems(o)
    ensures PrefixSafe(u, fetcher, out + o)
    ensures WithinWants(u, wants, Elems(out + o))
    ensures Streamed(u, done, seen + Elems(o), out + o)
  {
    IdsAppend(out, o);
    forall x | x in o ensures x !in out {
      assert x in Elems(o);
    }
    BookStep({}, Elems(out), out, o);
    PrefixSafeLeaves(u, fetcher, out, o);
    forall s: set<ObjectId> | Closed(u, s) && Elems(wants) <= s + {VIRTUAL_ROOT} ensures Elems(out + o) <= s {
      assert c in s;
      assert u[c].tree in References(u[c]);
    }
  }

  lemma CommitStreamed(u: Content, wants: seq<ObjectId>, done: seq<ObjectId>, fetcher: set<ObjectId>,
                       seen: set<ObjectId>, out: seq<ObjectId>, c: ObjectId)
    requires IsCommit(u, c) && c !in done && Streamed(u, done, seen, out)
    requires PrefixSafe(u, fetcher, out) && WithinWants(u, wants, Elems(out)) && WithinWants(u, wants, {c})
    requires Closed(u, Core(u, fetcher) + Elems(out))
    requires u[c].tree in Core(u, fetcher) + Elems(out)
    requires forall p :: p in u[c].parents ==> p in Core(u, fetcher) + Elems(out)
    ensures Elems(out + [c]) == Elems(out) + {c}
    ensures Closed(u, Core(u, fetcher) + Elems(out + [c]))
    ensures PrefixSafe(u, fetcher, out + [c])
    ensures WithinWants(u, wants, Elems(out + [c]))
    ensures Streamed(u, done + [c], seen, out + [c])
  {
    IdsAppend(out, [c]);
    assert Elems([c]) == {c};
    var held := Core(u, fetcher) + Elems(out + [c]);
    assert Closed(u, held);
    assert Holds(u, fetcher + Elems(out + [c]), c) by {
      assert c in held && held <= fetcher + Elems(out + [c]);
    }
    PrefixSafeAppend(u, fetcher, out, c);
  }

  lemma CommitServed(u: Content, server: Content, index: set<ObjectId>, haves: seq<ObjectId>, wants: seq<ObjectId>,
                     range: seq<ObjectId>, i: nat, fetcher: set<ObjectId>, seen: set<ObjectId>, out: seq<ObjectId>,
                     versions: Versions, bases: seq<ObjectId>, o: seq<ObjectId>)
    requires Request(u, server, index, haves, wants, range, fetcher) && Elems(wants) <= index
    requires i < |range| && range[i] != VIRTUAL_ROOT && IsCommit(server, range[i])
    requires Serving(u, server, haves, wants, range[..i], fetcher, seen, out, versions)
    requires Compared(server, haves + range[..i], range[i], bases)
    requires NoDup(o) && Elems(o) !! seen && Leaves(u, o)
    requires Closed(u, Core(u, fetcher) + Elems(out) + Elems(o))
    requires server[range[i]].tree in Core(u, fetcher) + Elems(out) + Elems(o)
    requires forall x :: x in o ==> server[range[i]].tree !in bases && InDelta(server, bases, server[range[i]].tree, x)
    requires WithinClosures(u, server[range[i]].tree, Elems(o))
    ensures Serving(u, server, haves, wants, range[..i + 1], fetcher, seen + Elems(o), out + o + [range[i]],
                    AddVersion(versions, server[range[i]].change, server[range[i]].tree))
  {
    hide InDelta, WithinClosures, WithinWants, PrefixSafe, Closed, Core, GoodBase, IsCommitRange;
    var c := range[i];
    var out' := out + o + [c];
    assert range[..i + 1] == range[..i] + [c];
    RangeFacts(u, index, haves, wants, range, i);
    RangeWithinWants(u, index, haves, wants, range, c);
    TreeStreamed(u, wants, range[..i], fetcher, seen, out, c, o);
    ParentsGood(u, server, index, haves, wants, range, i, fetcher, out);
    assert Core(u, fetcher) + Elems(out) + Elems(o) == Core(u, fetcher) + Elems(out + o);
    CommitStreamed(u, wants, range[..i], fetcher, seen + Elems(o), out + o, c);
    VersionsGrow(u, server, Core(u, fetcher) + Elems(out), Core(u, fetcher) + Elems(out'), versions);
    TreeIsGoodBase(u, server, Core(u, fetcher) + Elems(out'), c);
    AddVersionKeeps(u, server, Core(u, fetcher) + Elems(out'), versions, server[c].change, server[c].tree);
    ChangedGrows(server, haves, range[..i], c, seen, o, bases);
  }

  lemma RangeFacts(u: Content, index: set<ObjectId>, haves: seq<ObjectId>, wants: seq<ObjectId>,
                   range: seq<ObjectId>, i: nat)
    requires IndexOf(u, index) && IsCommitRange(u, index, haves, wants, range) && Elems(wants) <= index
    requires i < |range|
    ensures range[i] in range && range[i] !in range[..i]
    ensures forall d :: d in range[..i] && d != VIRTUAL_ROOT ==> IsCommit(u, d)
  {
    forall d | d in range[..i] && d != VIRTUAL_ROOT ensures IsCommit(u, d) {
      assert d in range;
      RangeWithinWants(u, index, haves, wants, range, d);
    }
  }

  lemma VersionsGrow(u: Content, server: Content, held: set<ObjectId>, held': set<ObjectId>, versions: Versions)
    requires GoodVersions(u, server, held, versions) && held <= held'
    ensures GoodVersions(u, server, held', versions)
  {
    forall k, t | k in versions && t in versions[k] ensures GoodBase(u, server, held', t) {
      assert GoodBase(u, server, held, t);
    }
  }

  lemma ChangedGrows(server: Content, haves: seq<ObjectId>, done: seq<ObjectId>, c: ObjectId, seen: set<ObjectId>,
                     o: seq<ObjectId>, bases: seq<ObjectId>)
    requires IsCommit(server, c) && Compared(server, haves + done, c, bases)
    requires forall x :: x in seen ==> Changed(server, haves, done, x)
    requires forall x :: x in o ==> server[c].tree !in bases && InDelta(server, bases, server[c].tree, x)
    ensures forall x :: x in seen + Elems(o) ==> Changed(server, haves, done + [c], x)
  {
    hide InDelta, Compared;
    forall x | x in seen + Elems(o) ensures Changed(server, haves, done + [c], x) {
      if x in seen {
        ChangedLater(server, haves, done, done + [c], x);
      } else {
        var k := |done|;
        assert (done + [c])[k] == c && (done + [c])[..k] == done;
        assert Compared(server, haves + (done + [c])[..k], (done + [c])[k], bases);
      }
    }
  }

  /** Walks the object closure of the wanted commits, minus what the fetcher
      holds, and streams every object once: parents first, each commit's trees
      and blobs before the commit. `range` is the commit index's answer; `ok` is
      false when a want is not in the op log or an object is missing. */
  method WalkGitClosure(ghost u: Content, server: Content, index: set<ObjectId>, haves: seq<ObjectId>,
                        wants: seq<ObjectId>, range: seq<ObjectId>, ghost fetcher: set<ObjectId>)
    returns (ok: bool, out: seq<ObjectId>)
    requires Request(u, server, index, haves, wants, range, fetcher)
    ensures NoDup(out) && PrefixSafe(u, fetcher, out) && WithinWants(u, wants, Elems(out))
    ensures forall x :: x in out ==> x in range || Changed(server, haves, range, x)
    ensures ok ==> Closed(u, Core(u, fetcher) + Elems(out))
    ensures ok ==> Elems(wants) <= Core(u, fetcher) + Elems(out) + {VIRTUAL_ROOT}
    ensures !ok && !(Elems(wants) <= index) ==> out == []
    ensures Complete(u, server.Keys) && index <= server.Keys + {VIRTUAL_ROOT} ==> (ok <==> Elems(wants) <= index)
  {
    hide InDelta, WithinClosures, WithinWants, PrefixSafe, Closed, Core, GoodBase, IsCommitRange, GoodVersions,
      Servable, IndexOf, CommitTyped, EntryTyped, ModesAgree, Changed, Streamed, Compared, Remembers, Capped,
      Candidates, AddVersion, VersionsOf;
    ok, out := true, [];
    if exists w :: w in wants && w !in index {
      Unwanted(u, wants, index, fetcher);
      return false, [];
    }
    assert Elems(wants) <= index;
    var versions := HaveVersions(u, server, haves, fetcher);
    var seen: set<ObjectId> := {};
    ServingStarts(u, server, haves, wants, fetcher, versions);
    assert range[..0] == [] && haves + range[..0] == haves;
    for i := 0 to |range|
      invariant Serving(u, server, haves, wants, range[..i], fetcher, seen, out, versions)
      invariant Remembers(server, haves + range[..i], versions)
    {
      var id := range[i];
      assert haves + range[..i + 1] == haves + range[..i] + [id];
      RemembersOneMore(server, haves + range[..i], versions, id);
      if id == VIRTUAL_ROOT {
        SkipRoot(u, server, haves, wants, range, i, fetcher, seen, out, versions);
        continue;
      }
      ServerReads(u, server, index, haves, wants, range, i, fetcher);
      ServingEmits(u, server, haves, wants, range, i, fetcher, seen, out, versions);
      if !IsCommit(server, id) {
        return false, out;
      }
      var commit := server[id];
      var others := VersionsOf(versions, commit.change);
      var gathered, bases := GatherBases(server, commit.parents, others);
      if !gathered {
        return false, out;
      }
      GatheredCompared(server, haves + range[..i], versions, id);
      BasesGood(u, server, index, haves, wants, range, i, fetcher, seen, out, versions, bases);
      var walked, seen', o := WalkTree(u, server, commit.tree, bases, seen, Core(u, fetcher) + Elems(out));
      if !walked {
        CutShort(u, server, index, haves, wants, range, i, fetcher, seen, out, versions, bases, o);
        return false, out + o;
      }
      assert Core(u, fetcher) + Elems(out) + Elems(o) == (Core(u, fetcher) + Elems(out)) + Elems(o);
      CommitServed(u, server, index, haves, wants, range, i, fetcher, seen, out, versions, bases, o);
      seen, out := seen', out + o + [id];
      versions := AddVersion(versions, commit.change, commit.tree);
    }
    assert range[..|range|] == range;
    ServingEmits(u, server, haves, wants, range, |range|, fetcher, seen, out, versions);
    ServingEnds(u, server, index, haves, wants, range, fetcher, seen, out, versions);
  }

  lemma Unwanted(u: Content, wants: seq<ObjectId>, index: set<ObjectId>, fetcher: set<ObjectId>)
    requires exists w :: w in wants && w !in index
    requires Complete(u, fetcher)
    ensures !(Elems(wants) <= index)
    ensures NoDup<ObjectId>([]) && PrefixSafe(u, fetcher, []) && WithinWants(u, wants, Elems<ObjectId>([]))
  {
    var w :| w in wants && w !in index;
    assert w in Elems(wants);
    assert fetcher + Elems<ObjectId>([]) == fetcher;
  }

  lemma ServingStarts(u: Content, server: Content, haves: seq<ObjectId>, wants: seq<ObjectId>,
                      fetcher: set<ObjectId>, versions: Versions)
    requires Complete(u, fetcher) && GoodVersions(u, server, Core(u, fetcher), versions)
    ensures Serving(u, server, haves, wants, [], fetcher, {}, [], versions)
  {
    CoreClosed(u, fetcher);
    assert Core(u, fetcher) + Elems<ObjectId>([]) == Core(u, fetcher);
    assert fetcher + Elems<ObjectId>([]) == fetcher;
  }

  lemma SkipRoot(u: Content, server: Content, haves: seq<ObjectId>, wants: seq<ObjectId>, range: seq<ObjectId>, i: nat,
                 fetcher: set<ObjectId>, seen: set<ObjectId>, out: seq<ObjectId>, versions: Versions)
    requires i < |range| && range[i] == VIRTUAL_ROOT
    requires Serving(u, server, haves, wants, range[..i], fetcher, seen, out, versions)
    ensures Serving(u, server, haves, wants, range[..i + 1], fetcher, seen, out, versions)
  {
    assert range[..i + 1] == range[..i] + [VIRTUAL_ROOT];
    forall x | x in seen ensures Changed(server, haves, range[..i + 1], x) {
      ChangedLater(server, haves, range[..i], range[..i + 1], x);
    }
  }

  lemma ChangedLater(server: Content, haves: seq<ObjectId>, done: seq<ObjectId>, done': seq<ObjectId>, x: ObjectId)
    requires done <= done' && Changed(server, haves, done, x)
    ensures Changed(server, haves, done', x)
  {
    hide InDelta, Compared;
    var k, b :| 0 <= k < |done| && IsCommit(server, done[k]) && Compared(server, haves + done[..k], done[k], b)
      && server[done[k]].tree !in b && InDelta(server, b, server[done[k]].tree, x);
    assert done'[k] == done[k] && done'[..k] == done[..k];
    assert Compared(server, haves + done'[..k], done'[k], b);
  }

  lemma ServingEmits(u: Content, server: Content, haves: seq<ObjectId>, wants: seq<ObjectId>, range: seq<ObjectId>,
                     i: nat, fetcher: set<ObjectId>, seen: set<ObjectId>, out: seq<ObjectId>, versions: Versions)
    requires i <= |range| && Serving(u, server, haves, wants, range[..i], fetcher, seen, out, versions)
    ensures NoDup(out) && PrefixSafe(u, fetcher, out) && WithinWants(u, wants, Elems(out))
    ensures forall x :: x in out ==> x in range || Changed(server, haves, range, x)
  {
    forall x | x in out && x !in range ensures Changed(server, haves, range, x) {
      assert x in seen;
      ChangedLater(server, haves, range[..i], range, x);
    }
  }

  /** A complete server reads every commit of the range and its parents. */
  lemma ServerReads(u: Content, server: Content, index: set<ObjectId>, haves: seq<ObjectId>, wants: seq<ObjectId>,
                    range: seq<ObjectId>, i: nat, fetcher: set<ObjectId>)
    requires Request(u, server, index, haves, wants, range, fetcher) && Elems(wants) <= index
    requires i < |range| && range[i] != VIRTUAL_ROOT
    ensures Complete(u, server.Keys) && index <= server.Keys + {VIRTUAL_ROOT} ==>
              IsCommit(server, range[i]) && range[i] in Core(u, server.Keys)
              && forall p :: p in server[range[i]].parents ==> IsCommit(server, p)
  {
    RangeFacts(u, index, haves, wants, range, i);
    RangeWithinWants(u, index, haves, wants, range, range[i]);
    if Complete(u, server.Keys) && index <= server.Keys + {VIRTUAL_ROOT} {
      assert range[i] in server.Keys && IsCommit(u, range[i]);
      forall p | p in server[range[i]].parents ensures IsCommit(server, p) {
        assert p in Dag.Parents(History(u), range[i]);
        assert p in index;
      }
    }
  }

  lemma BasesGood(u: Content, server: Content, index: set<ObjectId>, haves: seq<ObjectId>, wants: seq<ObjectId>,
                  range: seq<ObjectId>, i: nat, fetcher: set<ObjectId>, seen: set<ObjectId>, out: seq<ObjectId>,
                  versions: Versions, bases: seq<ObjectId>)
    requires Request(u, server, index, haves, wants, range, fetcher) && Elems(wants) <= index
    requires i < |range| && range[i] != VIRTUAL_ROOT && IsCommit(server, range[i])
    requires Serving(u, server, haves, wants, range[..i], fetcher, seen, out, versions)
    requires forall b :: b in bases ==>
               FromParentOrVersion(server, server[range[i]].parents, VersionsOf(versions, server[range[i]].change), b)
    ensures Grounded(u, server, (server[range[i]].tree, bases), seen, Core(u, fetcher) + Elems(out))
    ensures server[range[i]].tree in u ==> u[server[range[i]].tree].Tree?
    ensures Complete(u, server.Keys) && range[i] in Core(u, server.Keys) ==>
              Servable(u, server, (server[range[i]].tree, bases))
  {
    var c := range[i];
    assert CommitTyped(u, c);
    ParentsGood(u, server, index, haves, wants, range, i, fetcher, out);
    forall b | b in bases ensures GoodBase(u, server, Core(u, fetcher) + Elems(out), b) {
      if b in VersionsOf(versions, server[c].change) {
        assert server[c].change.value in versions;
      }
    }
    if Complete(u, server.Keys) && c in Core(u, server.Keys) {
      CoreClosed(u, server.Keys);
      assert server[c].tree in References(u[c]);
      assert Core(u, server.Keys) <= server.Keys;
      assert Elems(bases) <= Core(u, server.Keys);
    }
  }

  lemma CutShort(u: Content, server: Content, index: set<ObjectId>, haves: seq<ObjectId>, wants: seq<ObjectId>,
                 range: seq<ObjectId>, i: nat, fetcher: set<ObjectId>, seen: set<ObjectId>, out: seq<ObjectId>,
                 versions: Versions, bases: seq<ObjectId>, o: seq<ObjectId>)
    requires Request(u, server, index, haves, wants, range, fetcher) && Elems(wants) <= index
    requires i < |range| && range[i] != VIRTUAL_ROOT && IsCommit(server, range[i])
    requires Serving(u, server, haves, wants, range[..i], fetcher, seen, out, versions)
    requires Compared(server, haves + range[..i], range[i], bases)
    requires NoDup(o) && Elems(o) !! seen && Leaves(u, o)
    requires forall x :: x in o ==> server[range[i]].tree !in bases && InDelta(server, bases, server[range[i]].tree, x)
    requires WithinClosures(u, server[range[i]].tree, Elems(o))
    ensures NoDup(out + o) && PrefixSafe(u, fetcher, out + o) && WithinWants(u, wants, Elems(out + o))
    ensures forall x :: x in out + o ==> x in range || Changed(server, haves, range, x)
  {
    hide InDelta, WithinClosures, WithinWants, PrefixSafe, Closed, Core, GoodVersions, IsCommitRange, Changed,
      NoDup, CommitTyped, EntryTyped, ModesAgree, Complete;
    var c := range[i];
    RangeFacts(u, index, haves, wants, range, i);
    RangeWithinWants(u, index, haves, wants, range, c);
    TreeStreamed(u, wants, range[..i], fetcher, seen, out, c, o);
    ChangedGrows(server, haves, range[..i], c, seen, o, bases);
    assert range[..i] + [c] <= range;
    forall x | x in out + o && x !in range ensures Changed(server, haves, range, x) {
      assert x in seen + Elems(o);
      ChangedLater(server, haves, range[..i] + [c], range, x);
    }
  }

  lemma ServingEnds(u: Content, server: Content, index: set<ObjectId>, haves: seq<ObjectId>, wants: seq<ObjectId>,
                    range: seq<ObjectId>, fetcher: set<ObjectId>, seen: set<ObjectId>, out: seq<ObjectId>,
                    versions: Versions)
    requires Request(u, server, index, haves, wants, range, fetcher) && Elems(wants) <= index
    requires Serving(u, server, haves, wants, range, fetcher, seen, out, versions)
    ensures Closed(u, Core(u, fetcher) + Elems(out))
    ensures Elems(wants) <= Core(u, fetcher) + Elems(out) + {VIRTUAL_ROOT}
  {
    forall w | w in Elems(wants) && w != VIRTUAL_ROOT ensures w in Core(u, fetcher) + Elems(out) {
      assert Dag.Ancestor(History(u), w, w);
      ServedOrHeld(u, index, haves, wants, range, fetcher, w);
    }
  }
}
