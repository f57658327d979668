/** The register of the workspaces a machine claims: how its owner writes it
    and how the owner absorbs stale copies of it. */
module Claims {
  import opened Collections
  import opened Order
  import opened Totals
  import opened Registers

  function Sizes(repos: map<RepoId, set<Name>>): map<RepoId, nat> {
    map r | r in repos :: |repos[r]|
  }

  /** Number of claimed workspaces, all repos together. */
  function Count(repos: map<RepoId, set<Name>>): (n: nat)
    ensures n == Total(Sizes(repos))
  {
    var keys := Sorted(repos.Keys);
    SumIsTotal(Sizes(repos), keys);
    SumOver(Sizes(repos), keys)
  }

  predicate NamesValid(repos: map<RepoId, set<Name>>) {
    forall r :: r in repos ==> repos[r] != {} && forall n :: n in repos[r] ==> ValidName(n)
  }

  /** Only non-empty claims on valid names, within one machine's cap. */
  predicate IsValid(repos: map<RepoId, set<Name>>) {
    Count(repos) <= MAX_MACHINE_WORKSPACES && NamesValid(repos)
  }

  /** The names claimed on a repo. */
  function On(repos: map<RepoId, set<Name>>, repo: RepoId): set<Name> {
    if repo in repos then repos[repo] else {}
  }

  function Put(repos: map<RepoId, set<Name>>, repo: RepoId, names: set<Name>): (r: map<RepoId, set<Name>>)
    ensures On(r, repo) == names
    ensures forall other :: other != repo ==> On(r, other) == On(repos, other)
    ensures r.Keys <= repos.Keys + {repo}
  {
    if names == {} then repos - {repo} else repos[repo := names]
  }

  /** Replaces the claims on one repo, bumping the version on change. */
  function Set(c: WorkspaceClaims, repo: RepoId, names: set<Name>): (r: Result<WorkspaceClaims>)
    ensures r.Ok? ==> On(r.value.repos, repo) == names
    ensures r.Ok? ==> forall other :: other != repo ==> On(r.value.repos, other) == On(c.repos, other)
    ensures r.Ok? ==> r.value == c || (ClaimsOutrank(r.value, c) && r.value.version <= c.version + 1)
  {
    if (if repo in c.repos then c.repos[repo] == names else names == {}) then Ok(c)
    else
      var next := Put(c.repos, repo, names);
      if !IsValid(next) then Err
      else
        var version := NextVersion(c.version);
        if version.Err? then Err else Ok(WorkspaceClaims(version.value, next))
  }

  /** Our own claims past a copy of them that a peer gossiped back. */
  function Observe(c: WorkspaceClaims, copy: WorkspaceClaims): (r: WorkspaceClaims)
    requires c.version < MAX_RECORD_VERSION
    ensures r.repos == c.repos && c.version <= r.version < MAX_RECORD_VERSION
    ensures r.version + 1 < MAX_RECORD_VERSION ==> r == copy || r.version > copy.version
    ensures c.version >= copy.version && c.repos == copy.repos ==> r == c
    ensures r.version <= c.version || r.version <= copy.version + if c.repos == copy.repos then 0 else 1
  {
    var outranking := if copy.repos == c.repos then copy.version else copy.version + 1;
    c.(version := Min(Max(c.version, outranking), MAX_RECORD_VERSION - 1))
  }

  /** Releasing claims only removes names. */
  lemma RemoveKeepsValid(repos: map<RepoId, set<Name>>, repo: RepoId)
    requires IsValid(repos)
    ensures IsValid(Put(repos, repo, {}))
  {
    TotalBelow(Sizes(Put(repos, repo, {})), Sizes(repos));
  }

  lemma SetKeepsValid(c: WorkspaceClaims, repo: RepoId, names: set<Name>)
    requires IsValid(c.repos) && c.version < MAX_RECORD_VERSION
    ensures Set(c, repo, names).Ok? ==>
              IsValid(Set(c, repo, names).value.repos) && Set(c, repo, names).value.version < MAX_RECORD_VERSION
  {
    hide IsValid, Put;
  }

  /** When claims on one repo are accepted, and what they become: a change must keep the
      record valid and needs a version below the ceiling; it bumps the version by one
      and touches no other repo. */
  lemma SetExact(c: WorkspaceClaims, repo: RepoId, names: set<Name>)
    requires IsValid(c.repos)
    ensures Set(c, repo, names).Ok? <==>
            On(c.repos, repo) == names || (IsValid(Put(c.repos, repo, names)) && c.version + 1 < MAX_RECORD_VERSION)
    ensures Set(c, repo, names).Ok? ==>
              var d := Set(c, repo, names).value;
              && On(d.repos, repo) == names
              && (forall other :: other != repo ==> On(d.repos, other) == On(c.repos, other))
              && (if On(c.repos, repo) == names then d == c else d.version == c.version + 1)
  {
    assert repo in c.repos ==> c.repos[repo] != {};
    hide IsValid, Put;
  }

  /** Releasing a repo's claims fails only next to the version ceiling. */
  lemma ReleaseFails(c: WorkspaceClaims, repo: RepoId)
    requires IsValid(c.repos)
    ensures Set(c, repo, {}).Err? <==> repo in c.repos && c.version + 1 >= MAX_RECORD_VERSION
  {
    RemoveKeepsValid(c.repos, repo);
    assert repo in c.repos ==> c.repos[repo] != {};
    hide IsValid, Put;
  }

  /** Claims never hold more repos than names. */
  lemma ReposBelowNames(repos: map<RepoId, set<Name>>)
    requires NamesValid(repos)
    ensures |repos| <= Count(repos)
  {
    var ones: map<RepoId, nat> := map r | r in repos :: 1;
    TotalBelow(ones, Sizes(repos));
    OnesTotal(ones);
    assert ones.Keys == repos.Keys;
  }

  lemma {:induction false} OnesTotal(m: map<RepoId, nat>)
    requires forall r :: r in m ==> m[r] == 1
    ensures Total(m) == |m.Keys|
    decreases |m.Keys|
  {
    if m.Keys != {} {
      var k :| k in m.Keys;
      TotalSplit(m, k);
      assert (m - {k}).Keys == m.Keys - {k};
      OnesTotal(m - {k});
    }
  }
}
