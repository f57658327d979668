/** Validation of replicated op store messages, already decoded: which ones jj can
    read, and every commit id they reference, old encodings included. */
module Codec {
  import opened Collections

  type Bytes = seq<nat>

  /** Id length of the op store. */
  const STORE_ID_LEN := 64

  /** A ref's target in one of its encodings. */
  datatype TargetValue =
    | CommitValue(id: Bytes)
    | LegacyConflict(removes: seq<Bytes>, adds: seq<Bytes>)
    | NativeConflict(removeTerms: seq<Option<Bytes>>, addTerms: seq<Option<Bytes>>)

  /** A target message, which may be missing or carry no value. */
  datatype Target = Missing | Valueless | Value(value: TargetValue)

  /** The states jj gives a remote ref. */
  const KNOWN_STATES := {0, 1}

  datatype RemoteBookmark = RemoteBookmark(target: Target, state: Option<int>)
  datatype Bookmark = Bookmark(local: Target, remotes: seq<RemoteBookmark>)
  datatype RemoteRef = RemoteRef(terms: seq<Option<Bytes>>, state: int)
  datatype RemoteView = RemoteView(name: string, bookmarks: seq<RemoteRef>, tags: seq<RemoteRef>)
  datatype GitRef = GitRef(name: string, commitId: Bytes, target: Target)

  datatype View = View(
    headIds: seq<Bytes>, wcCommitId: Bytes, wcCommitIds: seq<Bytes>, bookmarks: seq<Bookmark>, localTags: seq<Target>,
    remoteViews: seq<RemoteView>, gitRefs: seq<GitRef>, migrated: bool, gitHeadLegacy: Bytes, gitHead: Target,
    gitHeads: seq<Target>)

  datatype Predecessors = Predecessors(commitId: Bytes, predecessorIds: seq<Bytes>)
  datatype Operation = Operation(viewId: Bytes, parents: seq<Bytes>, predecessors: seq<Predecessors>)

  datatype ViewMeta = ViewMeta(headIds: set<Bytes>, referenced: set<Bytes>)
  datatype OpMeta = OpMeta(viewId: Bytes, parents: seq<Bytes>, referenced: set<Bytes>)

  // What a message references. An empty id is an absent field.

  function IdOf(id: Bytes): set<Bytes> {
    if id == [] then {} else {id}
  }

  function TermOf(term: Option<Bytes>): set<Bytes> {
    if term.Some? then IdOf(term.value) else {}
  }

  ghost function Union<T>(s: seq<T>, ids: T -> set<Bytes>): set<Bytes> {
    set x, id | x in s && id in ids(x) :: id
  }

  ghost function TargetIds(t: Target): set<Bytes> {
    if !t.Value? then {}
    else match t.value
      case CommitValue(id) => IdOf(id)
      case LegacyConflict(removes, adds) => Union(removes, IdOf) + Union(adds, IdOf)
      case NativeConflict(removes, adds) => Union(removes, TermOf) + Union(adds, TermOf)
  }

  ghost function RemoteBookmarkIds(b: RemoteBookmark): set<Bytes> {
    TargetIds(b.target)
  }

  ghost function BookmarkIds(b: Bookmark): set<Bytes> {
    TargetIds(b.local) + Union(b.remotes, RemoteBookmarkIds)
  }

  ghost function RemoteRefIds(r: RemoteRef): set<Bytes> {
    Union(r.terms, TermOf)
  }

  ghost function RemoteViewIds(v: RemoteView): set<Bytes> {
    Union(v.bookmarks, RemoteRefIds) + Union(v.tags, RemoteRefIds)
  }

  ghost function GitRefIds(r: GitRef): set<Bytes> {
    IdOf(r.commitId) + TargetIds(r.target)
  }

  ghost function RefIds(v: View): set<Bytes> {
    Union(v.bookmarks, BookmarkIds) + Union(v.localTags, TargetIds) + Union(v.remoteViews, RemoteViewIds)
    + Union(v.gitRefs, GitRefIds)
  }

  ghost function ViewIds(v: View): set<Bytes> {
    Union(v.headIds, IdOf) + IdOf(v.wcCommitId) + Union(v.wcCommitIds, IdOf) + RefIds(v)
    + IdOf(v.gitHeadLegacy) + TargetIds(v.gitHead) + Union(v.gitHeads, TargetIds)
  }

  ghost function PredecessorIds(p: Predecessors): set<Bytes> {
    IdOf(p.commitId) + Union(p.predecessorIds, IdOf)
  }

  // What jj can read.

  ghost predicate All<T>(s: seq<T>, ok: T -> bool) {
    forall x :: x in s ==> ok(x)
  }

  predicate TargetReads(t: Target) {
    !t.Valueless? && (t.Value? && t.value.NativeConflict? ==> |t.value.addTerms| == |t.value.removeTerms| + 1)
  }

  predicate RemoteBookmarkReads(b: RemoteBookmark) {
    TargetReads(b.target) && (b.state.Some? ==> b.state.value in KNOWN_STATES)
  }

  ghost predicate BookmarkReads(b: Bookmark) {
    TargetReads(b.local) && All(b.remotes, RemoteBookmarkReads)
  }

  predicate RemoteRefReads(r: RemoteRef) {
    |r.terms| % 2 == 1 && r.state in KNOWN_STATES
  }

  ghost predicate RemoteViewReads(v: RemoteView) {
    All(v.bookmarks, RemoteRefReads) && All(v.tags, RemoteRefReads)
  }

  const TAGS := "refs/tags/"

  predicate NamesTag(r: GitRef) {
    TAGS < r.name
  }

  predicate GitRefReads(r: GitRef) {
    r.name != TAGS && TargetReads(r.target)
  }

  predicate HoldsGitTags(v: RemoteView) {
    v.name == "git" && v.tags != []
  }

  /** Whether jj's migration of git-tracking tags would find them in place. */
  ghost predicate TagsCollide(v: View) {
    !v.migrated && (exists r :: r in v.gitRefs && NamesTag(r)) && exists m :: m in v.remoteViews && HoldsGitTags(m)
  }

  ghost predicate RefsRead(v: View) {
    && All(v.bookmarks, BookmarkReads) && All(v.localTags, TargetReads) && All(v.remoteViews, RemoteViewReads)
    && All(v.gitRefs, GitRefReads)
  }

  ghost predicate ViewReads(v: View) {
    RefsRead(v) && TargetReads(v.gitHead) && All(v.gitHeads, TargetReads) && !TagsCollide(v)
  }

  ghost predicate OperationReads(o: Operation) {
    |o.viewId| == STORE_ID_LEN && o.parents != [] && forall p :: p in o.parents ==> |p| == STORE_ID_LEN
  }

  // The same without following the structure of the messages.

  /** The ref targets a view holds, of local and remote bookmarks, tags, git refs and
      heads. */
  ghost predicate HoldsTarget(v: View, t: Target) {
    || (exists b :: b in v.bookmarks && (t == b.local || exists r :: r in b.remotes && t == r.target))
    || t in v.localTags || (exists r :: r in v.gitRefs && t == r.target) || t == v.gitHead || t in v.gitHeads
  }

  /** The bookmarks and tags of remotes a view holds. */
  ghost predicate HoldsRemoteRef(v: View, r: RemoteRef) {
    exists m :: m in v.remoteViews && (r in m.bookmarks || r in m.tags)
  }

  /** A target's commit, or a side of its conflict. */
  ghost predicate Side(t: Target, id: Bytes) {
    t.Value? && match t.value
      case CommitValue(c) => id == c
      case LegacyConflict(removes, adds) => id in removes || id in adds
      case NativeConflict(removes, adds) => Some(id) in removes || Some(id) in adds
  }

  /** A view names a commit as a head, a working copy, a side of a target, a term of a
      remote ref or in one of the fields of older versions. */
  ghost predicate Mentions(v: View, id: Bytes) {
    && id != []
    && (id in v.headIds || id == v.wcCommitId || id in v.wcCommitIds || id == v.gitHeadLegacy
        || (exists r :: r in v.gitRefs && id == r.commitId)
        || (exists t :: HoldsTarget(v, t) && Side(t, id))
        || (exists r :: HoldsRemoteRef(v, r) && Some(id) in r.terms))
  }

  lemma InUnion<T>(s: seq<T>, ids: T -> set<Bytes>, id: Bytes)
    ensures id in Union(s, ids) <==> exists x :: x in s && id in ids(x)
  {
  }

  lemma TermsExact(terms: seq<Option<Bytes>>, id: Bytes)
    ensures id in Union(terms, TermOf) <==> id != [] && Some(id) in terms
  {
    InUnion(terms, TermOf, id);
    if id in Union(terms, TermOf) {
      var x :| x in terms && id in TermOf(x);
      assert x == Some(id);
    }
    if id != [] && Some(id) in terms {
      assert id in TermOf(Some(id));
    }
  }

  lemma PlainExact(list: seq<Bytes>, id: Bytes)
    ensures id in Union(list, IdOf) <==> id != [] && id in list
  {
    InUnion(list, IdOf, id);
    if id != [] && id in list {
      assert id in IdOf(id);
    }
  }

  lemma TargetIdsExact(t: Target, id: Bytes)
    ensures id in TargetIds(t) <==> id != [] && Side(t, id)
  {
    hide Union;
    if t.Value? {
      match t.value
      case CommitValue(_) =>
      case LegacyConflict(removes, adds) =>
        PlainExact(removes, id);
        PlainExact(adds, id);
      case NativeConflict(removes, adds) =>
        TermsExact(removes, id);
        TermsExact(adds, id);
    }
  }

  lemma BookmarksExact(list: seq<Bookmark>, id: Bytes)
    ensures id in Union(list, BookmarkIds) <==>
            exists b :: b in list
                        && (id in TargetIds(b.local) || exists r :: r in b.remotes && id in TargetIds(r.target))
  {
    hide TargetIds;
    InUnion(list, BookmarkIds, id);
    forall b: Bookmark
      ensures id in BookmarkIds(b) <==>
              id in TargetIds(b.local) || exists r :: r in b.remotes && id in TargetIds(r.target)
    {
      InUnion(b.remotes, RemoteBookmarkIds, id);
      assert forall r: RemoteBookmark :: id in RemoteBookmarkIds(r) <==> id in TargetIds(r.target);
    }
  }

  lemma RemoteViewsExact(list: seq<RemoteView>, id: Bytes)
    ensures id in Union(list, RemoteViewIds) <==>
            id != [] && exists m, r :: m in list && (r in m.bookmarks || r in m.tags) && Some(id) in r.terms
  {
    InUnion(list, RemoteViewIds, id);
    forall m: RemoteView
      ensures id in RemoteViewIds(m) <==>
              id != [] && exists r :: (r in m.bookmarks || r in m.tags) && Some(id) in r.terms
    {
      RemoteRefsExact(m.bookmarks, id);
      RemoteRefsExact(m.tags, id);
    }
    hide RemoteViewIds;
  }

  lemma RemoteRefsExact(list: seq<RemoteRef>, id: Bytes)
    ensures id in Union(list, RemoteRefIds) <==> id != [] && exists r :: r in list && Some(id) in r.terms
  {
    InUnion(list, RemoteRefIds, id);
    forall r: RemoteRef ensures id in RemoteRefIds(r) <==> id != [] && Some(id) in r.terms {
      TermsExact(r.terms, id);
    }
    hide RemoteRefIds;
  }

  lemma GitRefsExact(list: seq<GitRef>, id: Bytes)
    ensures id in Union(list, GitRefIds) <==>
            exists r :: r in list && ((id != [] && id == r.commitId) || id in TargetIds(r.target))
  {
    hide TargetIds;
    InUnion(list, GitRefIds, id);
    assert forall r: GitRef :: id in GitRefIds(r) <==> (id != [] && id == r.commitId) || id in TargetIds(r.target);
  }

  lemma SidesExact(v: View, id: Bytes)
    requires id != []
    ensures (exists t :: HoldsTarget(v, t) && Side(t, id)) <==>
            || (exists b :: b in v.bookmarks &&
                            (id in TargetIds(b.local) || exists r :: r in b.remotes && id in TargetIds(r.target)))
            || id in Union(v.localTags, TargetIds) || (exists r :: r in v.gitRefs && id in TargetIds(r.target))
            || id in TargetIds(v.gitHead) || id in Union(v.gitHeads, TargetIds)
  {
    forall t ensures id in TargetIds(t) <==> Side(t, id) {
      TargetIdsExact(t, id);
    }
    hide TargetIds, Side;
    if exists b :: b in v.bookmarks && exists r :: r in b.remotes && id in TargetIds(r.target) {
      var b :| b in v.bookmarks && exists r :: r in b.remotes && id in TargetIds(r.target);
      var r :| r in b.remotes && id in TargetIds(r.target);
      assert HoldsTarget(v, r.target);
    }
  }

  /** What is collected from a view is exactly what it names, in any field and any
      encoding. */
  lemma ViewIdsExact(v: View, id: Bytes)
    ensures id in ViewIds(v) <==> Mentions(v, id)
  {
    BookmarksExact(v.bookmarks, id);
    RemoteViewsExact(v.remoteViews, id);
    GitRefsExact(v.gitRefs, id);
    TargetIdsExact(v.gitHead, id);
    PlainExact(v.headIds, id);
    PlainExact(v.wcCommitIds, id);
    if id != [] {
      SidesExact(v, id);
    } else {
      NothingEmpty(v);
    }
    hide Union, TargetIds, HoldsTarget, Side;
  }

  /** What jj reads of a view: no target without a value, native conflicts with one
      more side than bases, remote refs of an odd number of terms, known states only, no
      git ref that is the bare tag prefix, and not both tag refs and tags of the git
      remote before its tags were migrated. */
  lemma ViewReadsExact(v: View)
    ensures ViewReads(v) <==>
            && (forall t :: HoldsTarget(v, t) ==>
                  t != Valueless
                  && forall removes, adds :: t == Value(NativeConflict(removes, adds)) ==> |adds| == |removes| + 1)
            && (forall b, r :: b in v.bookmarks && r in b.remotes && r.state.Some? ==> r.state.value in {0, 1})
            && (forall r :: HoldsRemoteRef(v, r) ==> |r.terms| % 2 == 1 && r.state in {0, 1})
            && (forall r :: r in v.gitRefs ==> r.name != "refs/tags/")
            && !(!v.migrated && (exists r :: r in v.gitRefs && "refs/tags/" < r.name)
                 && exists m :: m in v.remoteViews && m.name == "git" && m.tags != [])
  {
    TargetsRead(v);
    RemoteRefsRead(v);
    assert (exists r :: r in v.gitRefs && NamesTag(r)) <==> exists r :: r in v.gitRefs && "refs/tags/" < r.name;
    assert (exists m :: m in v.remoteViews && HoldsGitTags(m)) <==>
           exists m :: m in v.remoteViews && m.name == "git" && m.tags != [];
    hide TargetReads, RemoteViewReads, HoldsTarget, HoldsRemoteRef;
  }

  lemma TargetsRead(v: View)
    ensures (forall t :: HoldsTarget(v, t) ==>
               t != Valueless
               && forall removes, adds :: t == Value(NativeConflict(removes, adds)) ==> |adds| == |removes| + 1) <==>
            && (forall b :: b in v.bookmarks ==>
                  TargetReads(b.local) && forall r :: r in b.remotes ==> TargetReads(r.target))
            && All(v.localTags, TargetReads) && (forall r :: r in v.gitRefs ==> TargetReads(r.target))
            && TargetReads(v.gitHead) && All(v.gitHeads, TargetReads)
  {
    forall t
      ensures TargetReads(t) <==>
              t != Valueless
              && forall removes, adds :: t == Value(NativeConflict(removes, adds)) ==> |adds| == |removes| + 1
    {
      OneTargetReads(t);
    }
    hide TargetReads;
    if forall t :: HoldsTarget(v, t) ==> TargetReads(t) {
      forall b, r | b in v.bookmarks && r in b.remotes ensures TargetReads(r.target) {
        assert HoldsTarget(v, r.target);
      }
    }
  }

  lemma OneTargetReads(t: Target)
    ensures TargetReads(t) <==>
            t != Valueless
            && forall removes, adds :: t == Value(NativeConflict(removes, adds)) ==> |adds| == |removes| + 1
  {
    if t.Value? && t.value.NativeConflict? {
      assert t == Value(NativeConflict(t.value.removeTerms, t.value.addTerms));
    }
  }

  lemma RemoteRefsRead(v: View)
    ensures (forall r :: HoldsRemoteRef(v, r) ==> |r.terms| % 2 == 1 && r.state in {0, 1}) <==>
            All(v.remoteViews, RemoteViewReads)
  {
    forall m | m in v.remoteViews
      ensures RemoteViewReads(m) <==>
              forall r :: r in m.bookmarks || r in m.tags ==> |r.terms| % 2 == 1 && r.state in {0, 1}
    {
      assert forall r: RemoteRef :: RemoteRefReads(r) <==> |r.terms| % 2 == 1 && r.state in {0, 1};
    }
    hide RemoteViewReads;
  }

  /** Predecessor records name the commits they are about and their predecessors. */
  lemma PredecessorIdsExact(list: seq<Predecessors>, id: Bytes)
    ensures id in Union(list, PredecessorIds) <==>
            id != [] && exists p :: p in list && (id == p.commitId || id in p.predecessorIds)
  {
    InUnion(list, PredecessorIds, id);
    forall p: Predecessors
      ensures id in PredecessorIds(p) <==> id != [] && (id == p.commitId || id in p.predecessorIds)
    {
      PlainExact(p.predecessorIds, id);
    }
    hide PredecessorIds;
  }

  lemma NothingEmpty(v: View)
    ensures [] !in Union(v.headIds, IdOf) && [] !in Union(v.wcCommitIds, IdOf)
    ensures [] !in RefIds(v) && [] !in TargetIds(v.gitHead) && [] !in Union(v.gitHeads, TargetIds)
  {
    BookmarksExact(v.bookmarks, []);
    RemoteViewsExact(v.remoteViews, []);
    GitRefsExact(v.gitRefs, []);
    forall t ensures [] !in TargetIds(t) {
      TargetIdsExact(t, []);
    }
    hide TargetIds;
  }

  lemma UnionOneMore<T>(s: seq<T>, ids: T -> set<Bytes>, i: nat)
    requires i < |s|
    ensures Union(s[..i + 1], ids) == Union(s[..i], ids) + ids(s[i])
    ensures Union([], ids) == {} && s[..|s|] == s
  {
    assert s[..i + 1] == s[..i] + [s[i]];
  }

  lemma AllOneMore<T>(s: seq<T>, ok: T -> bool, i: nat)
    requires i < |s|
    ensures All(s[..i + 1], ok) <==> All(s[..i], ok) && ok(s[i])
  {
    assert s[..i + 1] == s[..i] + [s[i]];
  }

  lemma AllPrefix<T>(s: seq<T>, ok: T -> bool, i: nat)
    requires i <= |s| && !All(s[..i], ok)
    ensures !All(s, ok)
  {
  }

  lemma WholeList<T>(s: seq<T>)
    ensures s[..|s|] == s
  {
  }

  lemma EmptyList<T>(ids: T -> set<Bytes>, ok: T -> bool)
    ensures Union([], ids) == {} && All([], ok)
  {
  }

  /** A deduplicating collector of commit ids. */
  class IdSet {
    var ids: set<Bytes>

    constructor ()
      ensures ids == {}
    {
      ids := {};
    }

    method Add(id: Bytes)
      modifies this
      ensures ids == old(ids) + IdOf(id)
    {
      if id != [] {
        ids := ids + {id};
      }
    }

    method AddAll(list: seq<Bytes>)
      modifies this
      ensures ids == old(ids) + Union(list, IdOf)
    {
      hide Union, IdOf;
      EmptyList(IdOf, x => true);
      for i := 0 to |list|
        invariant ids == old(ids) + Union(list[..i], IdOf)
      {
        UnionOneMore(list, IdOf, i);
        Add(list[i]);
      }
      WholeList(list);
    }

    method AddTerms(terms: seq<Option<Bytes>>)
      modifies this
      ensures ids == old(ids) + Union(terms, TermOf)
    {
      hide Union, IdOf;
      EmptyList(TermOf, x => true);
      for i := 0 to |terms|
        invariant ids == old(ids) + Union(terms[..i], TermOf)
      {
        UnionOneMore(terms, TermOf, i);
        if terms[i].Some? {
          Add(terms[i].value);
        }
      }
      WholeList(terms);
    }

    /** Adds every commit a target references; refuses what jj's reader panics
        on. */
    method AddTarget(t: Target) returns (ok: bool)
      modifies this
      ensures ok == TargetReads(t)
      ensures ok ==> ids == old(ids) + TargetIds(t)
    {
      hide Union, IdOf;
      ok := true;
      if t.Missing? { return; }
      if t.Valueless? { return false; }
      match t.value {
        case CommitValue(id) => Add(id);
        case LegacyConflict(removes, adds) =>
          AddAll(removes);
          AddAll(adds);
        case NativeConflict(removes, adds) =>
          if |adds| != |removes| + 1 { return false; }
          AddTerms(removes);
          AddTerms(adds);
      }
    }

    method AddTargets(targets: seq<Target>) returns (ok: bool)
      modifies this
      ensures ok == All(targets, TargetReads)
      ensures ok ==> ids == old(ids) + Union(targets, TargetIds)
    {
      hide *;
      EmptyList(TargetIds, TargetReads);
      for i := 0 to |targets|
        invariant All(targets[..i], TargetReads) && ids == old(ids) + Union(targets[..i], TargetIds)
      {
        UnionOneMore(targets, TargetIds, i);
        AllOneMore(targets, TargetReads, i);
        var added := AddTarget(targets[i]);
        if !added {
          AllPrefix(targets, TargetReads, i + 1);
          return false;
        }
      }
      WholeList(targets);
      ok := true;
    }

    method AddRemoteRef(r: RemoteRef) returns (ok: bool)
      modifies this
      ensures ok == RemoteRefReads(r)
      ensures ok ==> ids == old(ids) + RemoteRefIds(r)
    {
      if |r.terms| % 2 != 1 || r.state !in KNOWN_STATES { return false; }
      AddTerms(r.terms);
      ok := true;
    }

    method AddRemoteRefs(refs: seq<RemoteRef>) returns (ok: bool)
      modifies this
      ensures ok == All(refs, RemoteRefReads)
      ensures ok ==> ids == old(ids) + Union(refs, RemoteRefIds)
    {
      hide *;
      EmptyList(RemoteRefIds, RemoteRefReads);
      for i := 0 to |refs|
        invariant All(refs[..i], RemoteRefReads) && ids == old(ids) + Union(refs[..i], RemoteRefIds)
      {
        UnionOneMore(refs, RemoteRefIds, i);
        AllOneMore(refs, RemoteRefReads, i);
        var added := AddRemoteRef(refs[i]);
        if !added {
          AllPrefix(refs, RemoteRefReads, i + 1);
          return false;
        }
      }
      WholeList(refs);
      ok := true;
    }

    method AddRemoteViews(views: seq<RemoteView>) returns (ok: bool)
      modifies this
      ensures ok == All(views, RemoteViewReads)
      ensures ok ==> ids == old(ids) + Union(views, RemoteViewIds)
    {
      hide Union, All;
      EmptyList(RemoteViewIds, RemoteViewReads);
      for i := 0 to |views|
        invariant All(views[..i], RemoteViewReads) && ids == old(ids) + Union(views[..i], RemoteViewIds)
      {
        UnionOneMore(views, RemoteViewIds, i);
        AllOneMore(views, RemoteViewReads, i);
        var bookmarks := AddRemoteRefs(views[i].bookmarks);
        var tags := AddRemoteRefs(views[i].tags);
        if !bookmarks || !tags {
          AllPrefix(views, RemoteViewReads, i + 1);
          return false;
        }
      }
      WholeList(views);
      ok := true;
    }

    method AddRemoteBookmarks(remotes: seq<RemoteBookmark>) returns (ok: bool)
      modifies this
      ensures ok == All(remotes, RemoteBookmarkReads)
      ensures ok ==> ids == old(ids) + Union(remotes, RemoteBookmarkIds)
    {
      hide Union, All, TargetReads, TargetIds;
      EmptyList(RemoteBookmarkIds, RemoteBookmarkReads);
      for i := 0 to |remotes|
        invariant All(remotes[..i], RemoteBookmarkReads) && ids == old(ids) + Union(remotes[..i], RemoteBookmarkIds)
      {
        UnionOneMore(remotes, RemoteBookmarkIds, i);
        AllOneMore(remotes, RemoteBookmarkReads, i);
        var added := AddTarget(remotes[i].target);
        if !added || (remotes[i].state.Some? && remotes[i].state.value !in KNOWN_STATES) {
          AllPrefix(remotes, RemoteBookmarkReads, i + 1);
          return false;
        }
      }
      WholeList(remotes);
      ok := true;
    }

    method AddBookmarks(bookmarks: seq<Bookmark>) returns (ok: bool)
      modifies this
      ensures ok == All(bookmarks, BookmarkReads)
      ensures ok ==> ids == old(ids) + Union(bookmarks, BookmarkIds)
    {
      hide Union, All, TargetReads, TargetIds;
      EmptyList(BookmarkIds, BookmarkReads);
      for i := 0 to |bookmarks|
        invariant All(bookmarks[..i], BookmarkReads) && ids == old(ids) + Union(bookmarks[..i], BookmarkIds)
      {
        UnionOneMore(bookmarks, BookmarkIds, i);
        AllOneMore(bookmarks, BookmarkReads, i);
        var local := AddTarget(bookmarks[i].local);
        var remotes := AddRemoteBookmarks(bookmarks[i].remotes);
        if !local || !remotes {
          AllPrefix(bookmarks, BookmarkReads, i + 1);
          return false;
        }
      }
      WholeList(bookmarks);
      ok := true;
    }

    method AddGitRefs(refs: seq<GitRef>) returns (ok: bool)
      modifies this
      ensures ok == All(refs, GitRefReads)
      ensures ok ==> ids == old(ids) + Union(refs, GitRefIds)
    {
      hide Union, All, TargetReads, TargetIds, IdOf;
      EmptyList(GitRefIds, GitRefReads);
      for i := 0 to |refs|
        invariant All(refs[..i], GitRefReads) && ids == old(ids) + Union(refs[..i], GitRefIds)
      {
        UnionOneMore(refs, GitRefIds, i);
        AllOneMore(refs, GitRefReads, i);
        var named := refs[i].name != TAGS;
        Add(refs[i].commitId);
        var added := AddTarget(refs[i].target);
        if !named || !added {
          AllPrefix(refs, GitRefReads, i + 1);
          return false;
        }
      }
      WholeList(refs);
      ok := true;
    }

    /** Every ref a view holds, of any kind. */
    method AddRefs(v: View) returns (ok: bool)
      modifies this
      ensures ok == RefsRead(v)
      ensures ok ==> ids == old(ids) + RefIds(v)
    {
      hide Union, All;
      ok := AddBookmarks(v.bookmarks);
      if !ok { return; }
      ok := AddTargets(v.localTags);
      if !ok { return; }
      ok := AddRemoteViews(v.remoteViews);
      if !ok { return; }
      ok := AddGitRefs(v.gitRefs);
    }
  }

  method TagCollision(v: View) returns (collide: bool)
    ensures collide == TagsCollide(v)
  {
    collide := !v.migrated && (exists r :: r in v.gitRefs && NamesTag(r))
      && exists m :: m in v.remoteViews && HoldsGitTags(m);
  }

  /** Reads a decoded view: accepted exactly when jj can read it, with exactly the
      commits it references. */
  method ParseView(v: View) returns (r: Option<ViewMeta>)
    ensures r.Some? <==> ViewReads(v)
    ensures r.Some? ==> r.value == ViewMeta(Union(v.headIds, IdOf), ViewIds(v))
  {
    hide Union, All, IdOf, TargetIds, TargetReads, TagsCollide, RefsRead, RefIds;
    var heads := new IdSet();
    heads.AddAll(v.headIds);
    var all := new IdSet();
    all.ids := heads.ids;
    all.Add(v.wcCommitId);
    all.AddAll(v.wcCommitIds);
    var refs := all.AddRefs(v);
    if !refs { return None; }
    var collide := TagCollision(v);
    if collide { return None; }
    all.Add(v.gitHeadLegacy);
    var gitHead := all.AddTarget(v.gitHead);
    if !gitHead { return None; }
    var gitHeads := all.AddTargets(v.gitHeads);
    if !gitHeads { return None; }
    r := Some(ViewMeta(heads.ids, all.ids));
  }

  /** Reads a decoded operation: accepted exactly when its ids have the store's
      length and it has a parent, with exactly the commits of its predecessor
      records. */
  method ParseOperation(o: Operation) returns (r: Option<OpMeta>)
    ensures r.Some? <==> OperationReads(o)
    ensures r.Some? ==> r.value == OpMeta(o.viewId, o.parents, Union(o.predecessors, PredecessorIds))
  {
    hide Union, IdOf;
    if |o.viewId| != STORE_ID_LEN || o.parents == [] { return None; }
    for i := 0 to |o.parents|
      invariant forall p :: p in o.parents[..i] ==> |p| == STORE_ID_LEN
    {
      assert o.parents[..i + 1] == o.parents[..i] + [o.parents[i]];
      if |o.parents[i]| != STORE_ID_LEN {
        assert o.parents[i] in o.parents;
        return None;
      }
    }
    WholeList(o.parents);
    var all := new IdSet();
    EmptyList(PredecessorIds, x => true);
    for i := 0 to |o.predecessors|
      invariant all.ids == Union(o.predecessors[..i], PredecessorIds)
    {
      UnionOneMore(o.predecessors, PredecessorIds, i);
      all.Add(o.predecessors[i].commitId);
      all.AddAll(o.predecessors[i].predecessorIds);
    }
    WholeList(o.predecessors);
    r := Some(OpMeta(o.viewId, o.parents, all.ids));
  }
}
