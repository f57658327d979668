/** Git objects as the closure walk sees them. `Content` is what every object id
    hashes; a store is a set of ids, or a sub-map of `Content` where contents are
    read. */
module GitObjects {
  import opened Collections
  import Dag

  type ObjectId = Dag.Id

  /** What a tree entry points at: a subtree, a leaf (any blob mode), or a commit
      of another repository. */
  datatype Mode = TreeMode | BlobMode | GitlinkMode

  datatype Entry = Entry(name: string, mode: Mode, oid: ObjectId)

  datatype Object =
    | Commit(tree: ObjectId, parents: seq<ObjectId>, change: Option<string>)
    | Tree(entries: seq<Entry>)
    | Blob

  type Content = map<ObjectId, Object>

  predicate IsCommit(u: Content, x: ObjectId) { x in u && u[x].Commit? }
  predicate IsTree(u: Content, x: ObjectId) { x in u && u[x].Tree? }

  /** What an object needs stored beside it. Gitlinks are never ours to store. */
  ghost function References(o: Object): set<ObjectId> {
    match o
    case Commit(tree, parents, _) => {tree} + set p | p in parents :: p
    case Tree(entries) => set e | e in entries && !e.mode.GitlinkMode? :: e.oid
    case Blob => {}
  }

  ghost predicate CommitTyped(u: Content, x: ObjectId) {
    IsCommit(u, x) ==>
      && (u[x].tree in u ==> u[u[x].tree].Tree?)
      && (forall p :: p in u[x].parents && p in u ==> u[p].Commit?)
  }

  ghost predicate EntryTyped(u: Content, x: ObjectId, e: Entry) {
    IsTree(u, x) && e in u[x].entries && e.oid in u ==>
      match e.mode
      case TreeMode => u[e.oid].Tree?
      case BlobMode => u[e.oid].Blob?
      case GitlinkMode => u[e.oid].Commit?
  }

  ghost predicate ModesAgree(u: Content, x: ObjectId, e: Entry, y: ObjectId, f: Entry) {
    IsTree(u, x) && e in u[x].entries && IsTree(u, y) && f in u[y].entries && e.oid == f.oid ==> e.mode == f.mode
  }

  /** Ids carry their kind: a commit names a tree and commits, a tree entry never
      names a commit, a blob entry never names a tree, and a gitlink's id is
      neither a blob's nor a tree's. */
  ghost predicate WellTyped(u: Content) {
    && (forall x :: CommitTyped(u, x))
    && (forall x, e :: EntryTyped(u, x, e))
    && (forall x, e, y, f :: ModesAgree(u, x, e, y, f))
  }

  ghost predicate Closed(u: Content, c: set<ObjectId>) {
    forall x :: x in c ==> x in u && References(u[x]) <= c
  }

  /** `x` is stored with everything it transitively references. */
  ghost predicate Holds(u: Content, store: set<ObjectId>, x: ObjectId) {
    exists c: set<ObjectId> :: x in c && c <= store && Closed(u, c)
  }

  /** The rule every git store must keep: a stored commit implies its ancestry,
      its trees and its blobs. Trees and blobs of a cut transfer may lie around. */
  ghost predicate Complete(u: Content, store: set<ObjectId>) {
    forall x :: x in store && IsCommit(u, x) ==> Holds(u, store, x)
  }

  ghost function Core(u: Content, store: set<ObjectId>): set<ObjectId> {
    set x | x in store && Holds(u, store, x)
  }

  lemma CoreClosed(u: Content, store: set<ObjectId>)
    ensures Closed(u, Core(u, store))
  {
    var core := Core(u, store);
    forall x | x in core ensures x in u && References(u[x]) <= core {
      var c :| x in c && c <= store && Closed(u, c);
      forall y | y in References(u[x]) ensures y in core {
        assert y in c;
      }
    }
  }

  lemma HoldsMonotone(u: Content, store: set<ObjectId>, store': set<ObjectId>, x: ObjectId)
    requires store <= store' && Holds(u, store, x)
    ensures Holds(u, store', x)
  {
    var c :| x in c && c <= store && Closed(u, c);
    assert c <= store';
  }

  /** Trees and blobs can be added freely, closed sets as well. */
  lemma AddKeepsComplete(u: Content, store: set<ObjectId>, added: set<ObjectId>)
    requires Complete(u, store)
    requires forall x :: x in added && IsCommit(u, x) ==> Holds(u, store + added, x)
    ensures Complete(u, store + added)
  {
    forall x | x in store + added && IsCommit(u, x) ensures Holds(u, store + added, x) {
      if x in store { HoldsMonotone(u, store, store + added, x); }
    }
  }

  /** The commit history as a graph. */
  ghost function History(u: Content): Dag.Graph {
    map x | x in u && u[x].Commit? :: u[x].parents
  }

  lemma ClosedHasHistory(u: Content, c: set<ObjectId>, a: ObjectId, x: ObjectId)
    requires Closed(u, c) && x in c && Dag.Ancestor(History(u), a, x)
    ensures a in c
  {
    assert Dag.Closed(History(u), c) by {
      forall y, p | y in c && p in Dag.Parents(History(u), y) ensures p in c {
        assert p in References(u[y]);
      }
    }
    Dag.InClosed(History(u), a, x, c);
  }
}
