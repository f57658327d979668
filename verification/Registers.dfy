/** Gossip-replicated records: versioned registers whose ties break the same way
    on every machine. */
module Registers {
  import opened Collections
  import opened Order

  const MAX_MESH_PEERS := 256
  const MAX_OTHER_PEERS := MAX_MESH_PEERS - 1
  const MAX_MESH_REPOS := 1024
  const MAX_RECORD_VERSION := 0x1_0000_0000
  const MAX_MACHINE_WORKSPACES := 64
  const MAX_MESH_WORKSPACES := 1024
  const MAX_OTHER_WORKSPACES := MAX_MESH_WORKSPACES - MAX_MACHINE_WORKSPACES

  type EndpointId = nat
  type Name = string
  type RepoId = string

  /** A machine's record, by its name while alive, or a repo's record in the mesh
      list, by its id while present. `None` is a tombstone. */
  datatype Record = Record(version: nat, value: Option<string>)

  /** Higher version first, removal winning ties, then the smaller value. */
  predicate Outranks(a: Record, b: Record) {
    if a.version != b.version then a.version > b.version
    else if a.value.None? != b.value.None? then a.value.None?
    else a.value.Some? && CmpString(a.value.value, b.value.value) < 0
  }

  lemma RecordsRanked()
    ensures forall a, b :: Outranks(a, b) ==> !Outranks(b, a) && a != b
    ensures forall a, b :: a != b ==> Outranks(a, b) || Outranks(b, a)
    ensures forall a, b, c :: Outranks(a, b) && Outranks(b, c) ==> Outranks(a, c)
  {
    StringOrder();
    forall a, b | a != b ensures Outranks(a, b) || Outranks(b, a) {
      if a.value.Some? && b.value.Some? {
        assert CmpString(a.value.value, b.value.value) == 0 <==> a.value.value == b.value.value;
      }
    }
  }

  /** A higher version wins; between two records of one version a removal wins, else
      the value first in string order. */
  lemma RecordTies(v: nat, w: nat, x: Option<string>, y: Option<string>, p: string, a: string, b: string)
    ensures v > w ==> Outranks(Record(v, x), Record(w, y))
    ensures Outranks(Record(v, None), Record(v, Some(a)))
    ensures a != [] ==> Outranks(Record(v, Some(p)), Record(v, Some(p + a)))
    ensures a != [] && b != [] && a[0] < b[0] ==> Outranks(Record(v, Some(p + a)), Record(v, Some(p + b)))
  {
    hide CmpString;
    FirstDifference(p, a, b);
  }

  lemma SortedEnumerate(s: set<string>)
    ensures Enumerates(Sorted(s), s)
  {
    hide Sorted;
  }

  function Max(a: nat, b: nat): nat {
    if a < b then b else a
  }

  function Min(a: nat, b: nat): nat {
    if a < b then a else b
  }

  /** The version after `version`; refused next to the ceiling. */
  function NextVersion(version: nat): (r: Result<nat>)
    ensures r.Ok? ==> version < r.value < MAX_RECORD_VERSION && r.value <= version + 1
    ensures r.Ok? <==> version + 1 < MAX_RECORD_VERSION
  {
    if version + 1 < MAX_RECORD_VERSION then Ok(version + 1) else Err
  }

  /** The version a local change to the record under `key` must carry. */
  function BumpedVersion<K>(m: map<K, Record>, key: K): (r: Result<nat>)
    ensures r.Ok? && key in m ==> forall v :: Outranks(Record(r.value, v), m[key])
    ensures r.Ok? ==> r.value < MAX_RECORD_VERSION
  {
    NextVersion(if key in m then m[key].version else 0)
  }

  /** A record must outrank the one held; an unknown key needs room. */
  predicate ShouldAdopt<K>(m: map<K, Record>, key: K, record: Record, cap: nat) {
    if key in m then Outranks(record, m[key]) else |m| < cap
  }

  /** The workspaces one machine claims, by repo. */
  datatype WorkspaceClaims = WorkspaceClaims(version: nat, repos: map<RepoId, set<Name>>)

  /** The entries of a claims record in reading order. */
  type Listing = seq<(RepoId, seq<Name>)>

  function CmpEntry(a: (RepoId, seq<Name>), b: (RepoId, seq<Name>)): int {
    if CmpString(a.0, b.0) != 0 then CmpString(a.0, b.0) else CmpStrings(a.1, b.1)
  }

  function CmpListing(a: Listing, b: Listing): int {
    Lex(CmpEntry, a, b)
  }

  lemma EntryOrder()
    ensures IsOrder(CmpEntry)
  {
    StringOrder();
    StringsOrder();
  }

  lemma ListingOrder()
    ensures IsOrder(CmpListing)
  {
    EntryOrder();
    forall a, b ensures CmpListing(a, b) == 0 <==> a == b ensures CmpListing(a, b) < 0 <==> CmpListing(b, a) > 0 {
      LexEqual(CmpEntry, a, b);
    }
    forall a, b, c | CmpListing(a, b) < 0 && CmpListing(b, c) < 0 ensures CmpListing(a, c) < 0 {
      LexTransitive(CmpEntry, a, b, c);
    }
  }

  function ListingOf(repos: map<RepoId, set<Name>>, keys: seq<RepoId>): (r: Listing)
    requires forall k :: k in keys ==> k in repos
    ensures |r| == |keys| && forall i :: 0 <= i < |r| ==> r[i] == (keys[i], Sorted(repos[keys[i]]))
  {
    if keys == [] then [] else [(keys[0], Sorted(repos[keys[0]]))] + ListingOf(repos, keys[1..])
  }

  function Listed(repos: map<RepoId, set<Name>>): Listing {
    ListingOf(repos, Sorted(repos.Keys))
  }

  /** The names are recovered from their ordered list. */
  lemma SortedInjective(a: set<string>, b: set<string>)
    requires Sorted(a) == Sorted(b)
    ensures a == b
  {
    assert forall x :: x in a <==> x in Sorted(a);
    assert forall x :: x in b <==> x in Sorted(b);
  }

  lemma ListedAt(repos: map<RepoId, set<Name>>, i: nat)
    requires i < |Sorted(repos.Keys)|
    ensures |Listed(repos)| == |Sorted(repos.Keys)| && Sorted(repos.Keys)[i] in repos
    ensures Listed(repos)[i] == (Sorted(repos.Keys)[i], Sorted(repos[Sorted(repos.Keys)[i]]))
  {
  }

  lemma ListedLength(repos: map<RepoId, set<Name>>)
    ensures |Listed(repos)| == |Sorted(repos.Keys)|
  {
    hide Sorted;
  }

  lemma SameKeys(a: map<RepoId, set<Name>>, b: map<RepoId, set<Name>>)
    requires Listed(a) == Listed(b)
    ensures Sorted(a.Keys) == Sorted(b.Keys)
  {
    ListedLength(a);
    ListedLength(b);
    hide Listed, Sorted;
    var ka, kb := Sorted(a.Keys), Sorted(b.Keys);
    forall i: nat | i < |ka| ensures ka[i] == kb[i] {
      ListedAt(a, i);
      ListedAt(b, i);
    }
  }

  lemma SameClaim(a: map<RepoId, set<Name>>, b: map<RepoId, set<Name>>, i: nat)
    requires Listed(a) == Listed(b) && Sorted(a.Keys) == Sorted(b.Keys) && i < |Sorted(a.Keys)|
    ensures Sorted(a.Keys)[i] in a && Sorted(a.Keys)[i] in b && a[Sorted(a.Keys)[i]] == b[Sorted(a.Keys)[i]]
  {
    ListedAt(a, i);
    ListedAt(b, i);
    hide Listed, Sorted;
    SortedInjective(a[Sorted(a.Keys)[i]], b[Sorted(a.Keys)[i]]);
  }

  lemma SameAt(a: map<RepoId, set<Name>>, b: map<RepoId, set<Name>>, k: RepoId)
    requires Listed(a) == Listed(b) && Sorted(a.Keys) == Sorted(b.Keys) && k in a
    ensures k in b && a[k] == b[k]
  {
    assert k in Sorted(a.Keys);
    hide Listed, Sorted;
    var i: nat :| i < |Sorted(a.Keys)| && Sorted(a.Keys)[i] == k;
    SameClaim(a, b, i);
  }

  lemma SameMap<K(!new), V>(a: map<K, V>, b: map<K, V>)
    requires a.Keys == b.Keys && forall k :: k in a.Keys ==> a[k] == b[k]
    ensures a == b
  {
  }

  /** A listing determines the claims it lists. */
  lemma ListedInjective(a: map<RepoId, set<Name>>, b: map<RepoId, set<Name>>)
    requires Listed(a) == Listed(b)
    ensures a == b
  {
    hide Listed, Sorted;
    SameKeys(a, b);
    SortedInjective(a.Keys, b.Keys);
    forall k | k in a.Keys ensures a[k] == b[k] {
      SameAt(a, b, k);
    }
    SameMap(a, b);
  }

  /** Higher version first, then the smaller claims. */
  predicate ClaimsOutrank(a: WorkspaceClaims, b: WorkspaceClaims) {
    if a.version != b.version then a.version > b.version else CmpListing(Listed(a.repos), Listed(b.repos)) < 0
  }

  lemma ClaimsRanked()
    ensures forall a, b :: ClaimsOutrank(a, b) ==> !ClaimsOutrank(b, a) && a != b
    ensures forall a, b :: a != b ==> ClaimsOutrank(a, b) || ClaimsOutrank(b, a)
    ensures forall a, b, c :: ClaimsOutrank(a, b) && ClaimsOutrank(b, c) ==> ClaimsOutrank(a, c)
  {
    hide Listed;
    ListingOrder();
    forall a: WorkspaceClaims, b: WorkspaceClaims | a != b ensures ClaimsOutrank(a, b) || ClaimsOutrank(b, a) {
      if a.version == b.version && Listed(a.repos) == Listed(b.repos) {
        ListedInjective(a.repos, b.repos);
      }
    }
  }

  /** A higher version wins; between two claims of one version the smaller list wins:
      at the first difference the entry of the earlier repo, of the same repo the one
      with the smaller list of names, and otherwise the shorter list. */
  lemma ClaimTies(a: WorkspaceClaims, b: WorkspaceClaims, i: nat)
    requires a.version == b.version ==>
               var x, y := Listed(a.repos), Listed(b.repos);
               && i <= |x| && i < |y| && x[..i] == y[..i]
               && (i < |x| ==> CmpString(x[i].0, y[i].0) < 0 || (x[i].0 == y[i].0 && CmpStrings(x[i].1, y[i].1) < 0))
    requires a.version >= b.version
    ensures ClaimsOutrank(a, b)
  {
    hide Listed, CmpString, CmpStrings;
    if a.version == b.version {
      EntryOrder();
      var x, y := Listed(a.repos), Listed(b.repos);
      SmallerEntry(x, y, i);
      LexAt(CmpEntry, x, y, i);
    }
  }

  lemma SmallerEntry(x: Listing, y: Listing, i: nat)
    requires i <= |x| && i < |y|
    requires i < |x| ==> CmpString(x[i].0, y[i].0) < 0 || (x[i].0 == y[i].0 && CmpStrings(x[i].1, y[i].1) < 0)
    ensures i < |x| ==> CmpEntry(x[i], y[i]) < 0
  {
    StringOrder();
  }
}
