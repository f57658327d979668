/** The server's walk over the object closure a fetcher lacks. */
module ClosureWalk {
  import opened Collections
  import opened GitObjects

  /** Bases a tree is compared against at most. */
  const MAX_BASES := 8

  ghost predicate Sub(server: Content, u: Content) {
    forall x :: x in server ==> x in u && server[x] == u[x]
  }

  predicate IsConflictSide(name: string) {
    ".jjconflict" <= name
  }

  /** The entry of a tree under a name, among subtrees or among leaves. */
  function Lookup(entries: seq<Entry>, name: string, tree: bool): (r: Option<Entry>)
    ensures r.Some? ==> r.value in entries && r.value.name == name && r.value.mode.TreeMode? == tree
    ensures r.None? ==> forall e :: e in entries && e.mode.TreeMode? == tree ==> e.name != name
  {
    if entries == [] then None
    else if entries[0].name == name && entries[0].mode.TreeMode? == tree then Some(entries[0])
    else Lookup(entries[1..], name, tree)
  }

  function Entries(server: Content, id: ObjectId): seq<Entry> {
    if IsTree(server, id) then server[id].entries else []
  }

  /** The id found at an entry's path in a base tree. */
  predicate Carries(server: Content, base: ObjectId, e: Entry, x: ObjectId) {
    Lookup(Entries(server, base), e.name, e.mode.TreeMode?).Some? &&
    Lookup(Entries(server, base), e.name, e.mode.TreeMode?).value.oid == x
  }

  /** The ids found at an entry's path in each of the base trees. */
  function Same(server: Content, bases: seq<ObjectId>, e: Entry): (r: seq<ObjectId>)
    ensures forall x :: x in r <==> exists b :: b in bases && Carries(server, b, e, x)
  {
    if bases == [] then []
    else
      var here := Lookup(Entries(server, bases[0]), e.name, e.mode.TreeMode?);
      var rest := Same(server, bases[1..], e);
      var r := if here.Some? then [here.value.oid] + rest else rest;
      assert forall x :: x in r <==> Carries(server, bases[0], e, x) || x in rest;
      assert forall b :: b in bases <==> b == bases[0] || b in bases[1..];
      r
  }

  /** Bases of a subtree: the trees at its path, or the root's bases for a
      conflict side nobody holds at that path. */
  function NextBases(root: seq<ObjectId>, same: seq<ObjectId>, e: Entry): seq<ObjectId> {
    if same == [] && IsConflictSide(e.name) then root else same
  }

  /** The subtrees visited, each with its bases: what lies at the same path in a
      base is never descended into. */
  type Node = (ObjectId, seq<ObjectId>)

  ghost predicate Differs(server: Content, n: Node, e: Entry) {
    e in Entries(server, n.0) && !e.mode.GitlinkMode? && e.oid !in Same(server, n.1, e)
  }

  /** Git names each entry of a tree once among its subtrees and once among its
      leaves. */
  ghost predicate NamedOnce(entries: seq<Entry>) {
    forall e, f :: e in entries && f in entries && e.name == f.name && e.mode.TreeMode? == f.mode.TreeMode? ==> e == f
  }

  lemma LooksUp(server: Content, b: ObjectId, e: Entry, f: Entry)
    requires NamedOnce(Entries(server, b))
    requires f in Entries(server, b) && f.name == e.name && f.mode.TreeMode? == e.mode.TreeMode?
    ensures Carries(server, b, e, f.oid)
  {
    hide Lookup, NamedOnce;
    var found := Lookup(Entries(server, b), e.name, e.mode.TreeMode?);
    assert found.value in Entries(server, b);
    SameEntry(Entries(server, b), found.value, f);
  }

  lemma SameEntry(entries: seq<Entry>, e: Entry, f: Entry)
    requires NamedOnce(entries) && e in entries && f in entries
    requires e.name == f.name && e.mode.TreeMode? == f.mode.TreeMode?
    ensures e == f
  {
  }

  /** An entry that stands in a base under its name with its id is never sent, and a
      leaf is sent only when no base holds it there. */
  lemma DiffersExact(server: Content, n: Node, e: Entry)
    requires forall b :: b in n.1 ==> NamedOnce(Entries(server, b))
    ensures Differs(server, n, e) <==>
              && e in Entries(server, n.0) && !e.mode.GitlinkMode?
              && forall b, f ::
                   b in n.1 && f in Entries(server, b) && f.name == e.name && f.mode.TreeMode? == e.mode.TreeMode? ==>
                     f.oid != e.oid
  {
    hide Lookup, NamedOnce;
    forall b, f | b in n.1 && f in Entries(server, b) && f.name == e.name && f.mode.TreeMode? == e.mode.TreeMode?
      ensures Carries(server, b, e, f.oid)
    {
      LooksUp(server, b, e, f);
    }
  }

  /** Descending into a subtree, what stands at the same path in a base is not sent:
      neither there nor further down. */
  lemma SamePathSkipped(server: Content, rootBases: seq<ObjectId>, n: Node, e: Entry, b: ObjectId, g: Entry, f: Entry)
    requires b in n.1 && NamedOnce(Entries(server, b)) && NamedOnce(Entries(server, g.oid))
    requires e.mode.TreeMode? && g in Entries(server, b) && g.name == e.name && g.mode.TreeMode?
    requires f in Entries(server, g.oid)
    ensures var next := (e.oid, NextBases(rootBases, Same(server, n.1, e), e));
            g.oid in next.1 && !Differs(server, next, f)
  {
    hide Lookup, NamedOnce;
    LooksUp(server, b, e, g);
    LooksUp(server, g.oid, f, f);
    var same := Same(server, n.1, e);
    assert g.oid in same && same != [];
    assert Carries(server, g.oid, f, f.oid);
  }

  /** A subtree that no base has at its path is compared with nothing, unless it is a
      conflict side: everything in it is sent, gitlinks aside. */
  lemma NewSubtreeSent(server: Content, rootBases: seq<ObjectId>, n: Node, e: Entry, f: Entry)
    requires !(".jjconflict" <= e.name) && e.mode.TreeMode?
    requires forall x, g :: x in n.1 && g in Entries(server, x) && g.mode.TreeMode? ==> g.name != e.name
    requires f in Entries(server, e.oid) && !f.mode.GitlinkMode?
    ensures Differs(server, (e.oid, NextBases(rootBases, Same(server, n.1, e), e)), f)
  {
    NoneCarried(server, n.1, e);
  }

  lemma NoneCarried(server: Content, bases: seq<ObjectId>, e: Entry)
    requires forall b, g :: b in bases && g in Entries(server, b) && g.mode.TreeMode? == e.mode.TreeMode? ==>
               g.name != e.name
    ensures Same(server, bases, e) == []
    decreases |bases|
  {
    if bases != [] {
      assert bases[0] in bases && forall b :: b in bases[1..] ==> b in bases;
      NoneCarried(server, bases[1..], e);
    }
  }

  /** A conflict side that no base has at its path is compared with the bases of the
      whole walk: what lies at the same path below them is not sent. */
  lemma ConflictSideShared(server: Content, rootBases: seq<ObjectId>, n: Node, e: Entry, b: ObjectId, f: Entry)
    requires ".jjconflict" <= e.name && e.mode.TreeMode?
    requires forall x, g :: x in n.1 && g in Entries(server, x) && g.mode.TreeMode? ==> g.name != e.name
    requires b in rootBases && NamedOnce(Entries(server, b)) && f in Entries(server, b)
    ensures var next := (e.oid, NextBases(rootBases, Same(server, n.1, e), e));
            next.1 == rootBases && !Differs(server, next, f)
  {
    hide Lookup, NamedOnce;
    NoneCarried(server, n.1, e);
    LooksUp(server, b, f, f);
    assert Carries(server, b, f, f.oid);
  }

  ghost predicate DeltaClosed(server: Content, rootBases: seq<ObjectId>, w: set<Node>) {
    forall n, e :: n in w && Differs(server, n, e) && e.mode.TreeMode? ==>
      (e.oid, NextBases(rootBases, Same(server, n.1, e), e)) in w
  }

  ghost predicate Reached(server: Content, rootBases: seq<ObjectId>, root: ObjectId, n: Node) {
    forall w: set<Node> :: (root, rootBases) in w && DeltaClosed(server, rootBases, w) ==> n in w
  }

  /** `x` differs from every base on some path to it. */
  ghost predicate InDelta(server: Content, rootBases: seq<ObjectId>, root: ObjectId, x: ObjectId) {
    exists n: Node :: Reached(server, rootBases, root, n) &&
      (x == n.0 || exists e :: Differs(server, n, e) && e.mode.BlobMode? && e.oid == x)
  }

  lemma ReachedStep(server: Content, rootBases: seq<ObjectId>, root: ObjectId, n: Node, e: Entry)
    requires Reached(server, rootBases, root, n) && Differs(server, n, e) && e.mode.TreeMode?
    ensures Reached(server, rootBases, root, (e.oid, NextBases(rootBases, Same(server, n.1, e), e)))
  {
  }

  /** Everything an object of `have` references is in `have` or still `pending`. */
  ghost predicate ClosedUpTo(u: Content, have: set<ObjectId>, pending: set<ObjectId>) {
    forall x :: x in have ==> x in u && References(u[x]) <= have + pending
  }

  ghost function Pending(stack: seq<Node>): set<ObjectId> {
    set n | n in stack :: n.0
  }

  ghost predicate Leaves(u: Content, ids: seq<ObjectId>) {
    forall x :: x in ids ==> x in u && !u[x].Commit?
  }

  /** What visiting one tree adds: the subtrees to visit and the new leaves. */
  ghost predicate Expanded(server: Content, rootBases: seq<ObjectId>, node: Node, seen: set<ObjectId>,
                           pushed: seq<Node>, blobs: seq<ObjectId>)
  {
    && NoDup(blobs) && Elems(blobs) !! seen
    && (forall x :: x in blobs ==>
          x in server && exists e :: Differs(server, node, e) && e.mode.BlobMode? && e.oid == x)
    && (forall n :: n in pushed ==>
          exists e :: Differs(server, node, e) && e.mode.TreeMode? &&
            n == (e.oid, NextBases(rootBases, Same(server, node.1, e), e)))
  }

  ghost predicate Covered(server: Content, node: Node, seen: set<ObjectId>, pushed: seq<Node>, e: Entry) {
    Differs(server, node, e) ==> if e.mode.TreeMode? then e.oid in Pending(pushed) else e.oid in seen
  }

  lemma PendingAppend(stack: seq<Node>, more: seq<Node>)
    ensures Pending(stack + more) == Pending(stack) + Pending(more)
  {
    assert forall n :: n in stack + more <==> n in stack || n in more;
  }

  /** One visited tree: descends into the subtrees and emits the leaves that
      differ from every base. */
  method ExpandTree(server: Content, rootBases: seq<ObjectId>, node: Node, seen: set<ObjectId>)
    returns (ok: bool, seen': set<ObjectId>, pushed: seq<Node>, blobs: seq<ObjectId>)
    ensures Expanded(server, rootBases, node, seen, pushed, blobs)
    ensures seen' == seen + Elems(blobs) || !ok
    ensures ok ==> forall e :: Covered(server, node, seen', pushed, e)
    ensures (forall e :: Differs(server, node, e) && e.mode.BlobMode? ==> e.oid in server) ==> ok
  {
    ok, seen', pushed, blobs := true, seen, [], [];
    var entries := Entries(server, node.0);
    for i := 0 to |entries|
      invariant ok && seen' == seen + Elems(blobs)
      invariant Expanded(server, rootBases, node, seen, pushed, blobs)
      invariant forall e :: e in entries[..i] ==> Covered(server, node, seen', pushed, e)
    {
      var e := entries[i];
      assert entries[..i + 1] == entries[..i] + [e];
      if e.mode.GitlinkMode? {
        continue;
      }
      var same := Same(server, node.1, e);
      if e.oid in same {
        continue;
      }
      if e.mode.TreeMode? {
        var next := (e.oid, NextBases(rootBases, same, e));
        PendingAppend(pushed, [next]);
        assert next in [next];
        pushed := pushed + [next];
      } else if e.oid !in seen' {
        if e.oid !in server {
          ok := false;
          return;
        }
        seen' := seen' + {e.oid};
        blobs := blobs + [e.oid];
      }
    }
  }

  ghost predicate Book(seen0: set<ObjectId>, seen: set<ObjectId>, out: seq<ObjectId>) {
    NoDup(out) && Elems(out) !! seen0 && seen == seen0 + Elems(out)
  }

  /** What may lie on the stack: trees, each compared against held trees. */
  ghost predicate Stackable(u: Content, server: Content, root: Node, held: set<ObjectId>, n: Node) {
    && (n.0 in u ==> u[n.0].Tree?)
    && (forall b :: b in n.1 ==> b in held && IsTree(u, b))
    && Reached(server, root.1, root.0, n)
    && BasesWithin(u, root.1, n.1)
  }

  ghost predicate BasesWithin(u: Content, rootBases: seq<ObjectId>, bases: seq<ObjectId>) {
    forall c: set<ObjectId> :: Closed(u, c) && Elems(rootBases) <= c ==> Elems(bases) <= c
  }

  ghost predicate WithinClosures(u: Content, root: ObjectId, ids: set<ObjectId>) {
    forall c: set<ObjectId> :: Closed(u, c) && root in c ==> ids <= c
  }

  lemma IdsAppend(a: seq<ObjectId>, b: seq<ObjectId>)
    ensures Elems(a + b) == Elems(a) + Elems(b)
  {
    assert forall x :: x in a + b <==> x in a || x in b;
  }

  lemma BookStep(seen0: set<ObjectId>, seen: set<ObjectId>, out: seq<ObjectId>, more: seq<ObjectId>)
    requires Book(seen0, seen, out)
    requires NoDup(more) && Elems(more) !! seen
    ensures Book(seen0, seen + Elems(more), out + more)
  {
    IdsAppend(out, more);
    var all := out + more;
    assert forall x :: x in out ==> x in Elems(out);
    assert forall x :: x in more ==> x in Elems(more);
    forall i, j | 0 <= i < j < |all| ensures all[i] != all[j] {
      if |out| <= j {
        assert all[j] == more[j - |out|] && all[j] in more;
        if i < |out| { assert all[i] in out; } else { assert all[i] == more[i - |out|]; }
      }
    }
  }

  /** An id found in a held base is held, under the same kind. */
  lemma CarriedIsHeld(u: Content, server: Content, held: set<ObjectId>, id: ObjectId, e: Entry, b: ObjectId,
                      x: ObjectId)
    requires Sub(server, u) && WellTyped(u) && Closed(u, held)
    requires IsTree(server, id) && e in server[id].entries && !e.mode.GitlinkMode?
    requires b in held && IsTree(u, b)
    requires Carries(server, b, e, x) && (x == e.oid || e.mode.TreeMode?)
    ensures x in held && (e.mode.TreeMode? ==> IsTree(u, x))
    ensures x in References(u[b])
  {
    var f := Lookup(Entries(server, b), e.name, e.mode.TreeMode?).value;
    assert f in u[b].entries && f.oid == x;
    assert ModesAgree(u, id, e, b, f);
    assert f.oid in References(u[b]);
    assert EntryTyped(u, b, f);
  }

  lemma BlobsAreBlobs(u: Content, server: Content, rootBases: seq<ObjectId>, node: Node, seen: set<ObjectId>,
                      pushed: seq<Node>, blobs: seq<ObjectId>)
    requires Sub(server, u) && WellTyped(u) && IsTree(server, node.0)
    requires Expanded(server, rootBases, node, seen, pushed, blobs)
    ensures forall x :: x in blobs ==> x in u && u[x].Blob?
  {
    forall x | x in blobs ensures x in u && u[x].Blob? {
      var e :| Differs(server, node, e) && e.mode.BlobMode? && e.oid == x;
      assert EntryTyped(u, node.0, e);
    }
  }

  /** Everything a visited tree references is held, emitted or on the stack. */
  lemma ExpandedReferences(u: Content, server: Content, node: Node, held: set<ObjectId>, seen: set<ObjectId>,
                           pushed: seq<Node>)
    requires Sub(server, u) && WellTyped(u) && Closed(u, held)
    requires IsTree(server, node.0)
    requires forall b :: b in node.1 ==> b in held && IsTree(u, b)
    requires forall e :: Covered(server, node, seen, pushed, e)
    ensures References(u[node.0]) <= held + seen + Pending(pushed)
  {
    forall y | y in References(u[node.0]) ensures y in held + seen + Pending(pushed) {
      var e :| e in u[node.0].entries && !e.mode.GitlinkMode? && e.oid == y;
      if Differs(server, node, e) {
        assert Covered(server, node, seen, pushed, e);
      } else {
        var b :| b in node.1 && Carries(server, b, e, e.oid);
        CarriedIsHeld(u, server, held, node.0, e, b, e.oid);
      }
    }
  }

  lemma ExpandStackable(u: Content, server: Content, root: Node, node: Node, held: set<ObjectId>, e: Entry)
    requires Sub(server, u) && WellTyped(u) && Closed(u, held)
    requires IsTree(server, node.0) && Stackable(u, server, root, held, node)
    requires forall b :: b in root.1 ==> b in held && IsTree(u, b)
    requires Differs(server, node, e) && e.mode.TreeMode?
    ensures Stackable(u, server, root, held, (e.oid, NextBases(root.1, Same(server, node.1, e), e)))
  {
    assert EntryTyped(u, node.0, e);
    ReachedStep(server, root.1, root.0, node, e);
    var same := Same(server, node.1, e);
    forall x | x in same ensures x in held && IsTree(u, x) {
      var b :| b in node.1 && Carries(server, b, e, x);
      CarriedIsHeld(u, server, held, node.0, e, b, x);
    }
    forall c: set<ObjectId> | Closed(u, c) && Elems(root.1) <= c ensures Elems(same) <= c {
      forall x | x in same ensures x in c {
        var b :| b in node.1 && Carries(server, b, e, x);
        CarriedIsHeld(u, server, held, node.0, e, b, x);
        assert b in Elems(node.1);
      }
    }
  }

  lemma ExpandDelta(server: Content, root: Node, node: Node, seen: set<ObjectId>, pushed: seq<Node>,
                    blobs: seq<ObjectId>)
    requires Reached(server, root.1, root.0, node)
    requires Expanded(server, root.1, node, seen, pushed, blobs)
    ensures InDelta(server, root.1, root.0, node.0)
    ensures forall x :: x in blobs ==> InDelta(server, root.1, root.0, x)
  {
  }

  lemma ExpandWithin(u: Content, server: Content, root: Node, node: Node, done: set<ObjectId>,
                     rest: set<ObjectId>, seen: set<ObjectId>, pushed: seq<Node>, blobs: seq<ObjectId>)
    requires Sub(server, u) && IsTree(server, node.0)
    requires WithinClosures(u, root.0, done + rest + {node.0})
    requires Expanded(server, root.1, node, seen, pushed, blobs)
    ensures WithinClosures(u, root.0, done + rest + {node.0} + Pending(pushed) + Elems(blobs))
  {
    forall c: set<ObjectId> | Closed(u, c) && root.0 in c
      ensures done + rest + {node.0} + Pending(pushed) + Elems(blobs) <= c
    {
      assert node.0 in c;
      forall e | Differs(server, node, e) ensures e.oid in c {
        assert e.oid in References(u[node.0]);
      }
    }
  }

  /** The walk can go on as long as the server holds what the trees name. */
  ghost predicate Servable(u: Content, server: Content, root: Node) {
    exists c: set<ObjectId> :: Closed(u, c) && root.0 in c && Elems(root.1) <= c && c <= server.Keys
  }

  lemma ServableReads(u: Content, server: Content, held: set<ObjectId>, root: Node, ids: set<ObjectId>, node: Node)
    requires Sub(server, u) && Servable(u, server, root)
    requires WithinClosures(u, root.0, ids) && node.0 in ids
    requires Stackable(u, server, root, held, node)
    ensures IsTree(server, node.0) && forall b :: b in node.1 ==> IsTree(server, b)
    ensures forall e :: Differs(server, node, e) ==> e.oid in server
  {
    var c :| Closed(u, c) && root.0 in c && Elems(root.1) <= c && c <= server.Keys;
    assert forall b :: b in node.1 ==> b in Elems(node.1);
    assert node.0 in c;
    forall e | Differs(server, node, e) ensures e.oid in server {
      assert e.oid in References(u[node.0]);
    }
  }

  /** Between two pops of the walk. */
  ghost predicate Walking(u: Content, server: Content, root: Node, seen0: set<ObjectId>, held: set<ObjectId>,
                          seen: set<ObjectId>, out: seq<ObjectId>, stack: seq<Node>)
  {
    && Book(seen0, seen, out) && Leaves(u, out)
    && ClosedUpTo(u, held + Elems(out), Pending(stack))
    && root.0 in held + Elems(out) + Pending(stack)
    && (forall n :: n in stack ==> Stackable(u, server, root, held, n))
    && (forall x :: x in out ==> InDelta(server, root.1, root.0, x))
    && WithinClosures(u, root.0, Elems(out) + Pending(stack))
  }

  ghost predicate Grounded(u: Content, server: Content, root: Node, seen0: set<ObjectId>, held: set<ObjectId>) {
    && Sub(server, u) && WellTyped(u)
    && Closed(u, held) && seen0 <= held
    && (forall b :: b in root.1 ==> b in held && IsTree(u, b))
  }

  lemma PopSeen(u: Content, server: Content, root: Node, seen0: set<ObjectId>, held: set<ObjectId>,
                seen: set<ObjectId>, out: seq<ObjectId>, rest: seq<Node>, node: Node)
    requires Grounded(u, server, root, seen0, held)
    requires Walking(u, server, root, seen0, held, seen, out, rest + [node]) && node.0 in seen
    ensures Walking(u, server, root, seen0, held, seen, out, rest)
  {
    PendingAppend(rest, [node]);
    assert Pending([node]) == {node.0};
    assert forall n :: n in rest ==> n in rest + [node];
  }

  /** The leaves of a visited tree may be emitted even if the visit fails. */
  lemma EmitBlobs(u: Content, server: Content, root: Node, seen0: set<ObjectId>, held: set<ObjectId>,
                  seen: set<ObjectId>, out: seq<ObjectId>, rest: seq<Node>, node: Node,
                  pushed: seq<Node>, blobs: seq<ObjectId>)
    requires Grounded(u, server, root, seen0, held)
    requires Walking(u, server, root, seen0, held, seen, out, rest + [node]) && node.0 !in seen
    requires IsTree(server, node.0) && Expanded(server, root.1, node, seen + {node.0}, pushed, blobs)
    ensures Book(seen0, seen + Elems(blobs), out + blobs)
    ensures IsTree(u, node.0) && node.0 !in seen0 && node.0 !in Elems(out + blobs)
    ensures Leaves(u, out + blobs)
    ensures forall x :: x in out + blobs ==> InDelta(server, root.1, root.0, x)
    ensures InDelta(server, root.1, root.0, node.0)
    ensures WithinClosures(u, root.0, Elems(out + blobs) + Pending(rest) + Pending(pushed) + {node.0})
    ensures WithinClosures(u, root.0, Elems(out + blobs))
  {
    assert node in rest + [node];
    PendingAppend(rest, [node]);
    assert Pending([node]) == {node.0};
    ExpandDelta(server, root, node, seen + {node.0}, pushed, blobs);
    BlobsAreBlobs(u, server, root.1, node, seen + {node.0}, pushed, blobs);
    assert WithinClosures(u, root.0, Elems(out) + Pending(rest) + {node.0});
    ExpandWithin(u, server, root, node, Elems(out), Pending(rest), seen + {node.0}, pushed, blobs);
    IdsAppend(out, blobs);
    BookStep(seen0, seen, out, blobs);
  }

  lemma ExpandClosed(u: Content, server: Content, root: Node, seen0: set<ObjectId>, held: set<ObjectId>,
                     seen: set<ObjectId>, out: seq<ObjectId>, rest: seq<Node>, node: Node,
                     pushed: seq<Node>, blobs: seq<ObjectId>)
    requires Grounded(u, server, root, seen0, held)
    requires Book(seen0, seen, out)
    requires ClosedUpTo(u, held + Elems(out), Pending(rest) + {node.0})
    requires forall b :: b in node.1 ==> b in held && IsTree(u, b)
    requires IsTree(server, node.0) && Expanded(server, root.1, node, seen + {node.0}, pushed, blobs)
    requires forall e :: Covered(server, node, seen + Elems(blobs) + {node.0}, pushed, e)
    ensures ClosedUpTo(u, held + Elems(out) + Elems(blobs) + {node.0}, Pending(rest) + Pending(pushed))
  {
    BlobsAreBlobs(u, server, root.1, node, seen + {node.0}, pushed, blobs);
    ExpandedReferences(u, server, node, held, seen + Elems(blobs) + {node.0}, pushed);
  }

  lemma ExpandStack(u: Content, server: Content, root: Node, seen0: set<ObjectId>, held: set<ObjectId>,
                    rest: seq<Node>, node: Node, seen: set<ObjectId>, pushed: seq<Node>, blobs: seq<ObjectId>)
    requires Grounded(u, server, root, seen0, held)
    requires IsTree(server, node.0) && Expanded(server, root.1, node, seen, pushed, blobs)
    requires forall n :: n in rest + [node] ==> Stackable(u, server, root, held, n)
    ensures forall n :: n in rest + pushed ==> Stackable(u, server, root, held, n)
  {
    hide Stackable;
    assert node in rest + [node];
    forall n | n in rest + pushed ensures Stackable(u, server, root, held, n) {
      if n in rest {
        assert n in rest + [node];
      } else {
        assert n in pushed;
        var e :| Differs(server, node, e) && e.mode.TreeMode? &&
                 n == (e.oid, NextBases(root.1, Same(server, node.1, e), e));
        ExpandStackable(u, server, root, node, held, e);
      }
    }
  }

  lemma LastEmitted(u: Content, seen0: set<ObjectId>, seen: set<ObjectId>, out: seq<ObjectId>, id: ObjectId)
    requires Book(seen0, seen, out) && Leaves(u, out)
    requires id !in seen0 && id !in Elems(out) && IsTree(u, id)
    ensures Book(seen0, seen + {id}, out + [id]) && Leaves(u, out + [id])
    ensures Elems(out + [id]) == Elems(out) + {id}
  {
    IdsAppend(out, [id]);
    assert Elems([id]) == {id};
    BookStep(seen0, seen, out, [id]);
  }

  lemma StackIds(rest: seq<Node>, node: Node, pushed: seq<Node>)
    ensures Pending(rest + [node]) == Pending(rest) + {node.0}
    ensures Pending(rest + pushed) == Pending(rest) + Pending(pushed)
  {
    PendingAppend(rest, [node]);
    assert Pending([node]) == {node.0};
    PendingAppend(rest, pushed);
  }

  lemma ExpandWalking(u: Content, server: Content, root: Node, seen0: set<ObjectId>, held: set<ObjectId>,
                      seen: set<ObjectId>, out: seq<ObjectId>, rest: seq<Node>, node: Node,
                      pushed: seq<Node>, blobs: seq<ObjectId>)
    requires Grounded(u, server, root, seen0, held)
    requires Walking(u, server, root, seen0, held, seen, out, rest + [node]) && node.0 !in seen
    requires IsTree(server, node.0) && Expanded(server, root.1, node, seen + {node.0}, pushed, blobs)
    requires forall e :: Covered(server, node, seen + {node.0} + Elems(blobs), pushed, e)
    ensures Walking(u, server, root, seen0, held, seen + {node.0} + Elems(blobs), out + blobs + [node.0], rest + pushed)
  {
    hide ClosedUpTo, Grounded, Expanded, InDelta, WithinClosures, Book, NoDup, Leaves, Covered, Pending, Elems;
    assert node in rest + [node] && Stackable(u, server, root, held, node);
    StackIds(rest, node, pushed);
    EmitBlobs(u, server, root, seen0, held, seen, out, rest, node, pushed, blobs);
    LastEmitted(u, seen0, seen + Elems(blobs), out + blobs, node.0);
    IdsAppend(out, blobs);
    assert seen + {node.0} + Elems(blobs) == seen + Elems(blobs) + {node.0};
    ExpandClosed(u, server, root, seen0, held, seen, out, rest, node, pushed, blobs);
    assert held + Elems(out) + Elems(blobs) + {node.0} == held + Elems(out + blobs + [node.0]);
    ExpandStack(u, server, root, seen0, held, rest, node, seen + {node.0}, pushed, blobs);
    assert Elems(out + blobs) + Pending(rest) + Pending(pushed) + {node.0}
        == Elems(out + blobs + [node.0]) + Pending(rest + pushed);
  }

  lemma WalkStarts(u: Content, server: Content, root: Node, seen0: set<ObjectId>, held: set<ObjectId>)
    requires Grounded(u, server, root, seen0, held)
    requires root.0 in u ==> u[root.0].Tree?
    ensures Walking(u, server, root, seen0, held, seen0, [], [root])
  {
    assert Pending([root]) == {root.0} by { assert root in [root]; }
    assert Elems<ObjectId>([]) == {};
  }

  lemma WalkEnds(u: Content, server: Content, root: Node, seen0: set<ObjectId>, held: set<ObjectId>,
                 seen: set<ObjectId>, out: seq<ObjectId>)
    requires Grounded(u, server, root, seen0, held)
    requires Walking(u, server, root, seen0, held, seen, out, [])
    ensures seen == seen0 + Elems(out)
    ensures Closed(u, held + Elems(out)) && root.0 in held + Elems(out)
  {
    assert Pending([]) == {};
  }

  /** What holds of the stream wherever the walk stops. */
  lemma WalkEmits(u: Content, server: Content, root: Node, seen0: set<ObjectId>, held: set<ObjectId>,
                  seen: set<ObjectId>, out: seq<ObjectId>, stack: seq<Node>)
    requires Walking(u, server, root, seen0, held, seen, out, stack)
    ensures NoDup(out) && Elems(out) !! seen0 && Leaves(u, out)
    ensures forall x :: x in out ==> InDelta(server, root.1, root.0, x)
    ensures WithinClosures(u, root.0, Elems(out))
  {
  }

  lemma PopReads(u: Content, server: Content, root: Node, seen0: set<ObjectId>, held: set<ObjectId>,
                 seen: set<ObjectId>, out: seq<ObjectId>, rest: seq<Node>, node: Node)
    requires Grounded(u, server, root, seen0, held)
    requires Walking(u, server, root, seen0, held, seen, out, rest + [node])
    requires Servable(u, server, root)
    ensures IsTree(server, node.0) && forall b :: b in node.1 ==> IsTree(server, b)
    ensures forall e :: Differs(server, node, e) ==> e.oid in server
  {
    assert node in rest + [node];
    ServableReads(u, server, held, root, Elems(out) + Pending(rest + [node]), node);
  }

  lemma HeldRoot(u: Content, server: Content, root: Node, seen0: set<ObjectId>, held: set<ObjectId>)
    requires Grounded(u, server, root, seen0, held) && root.0 in root.1
    ensures Closed(u, held + Elems<ObjectId>([])) && root.0 in held
    ensures NoDup<ObjectId>([]) && Leaves(u, []) && Elems<ObjectId>([]) == {}
    ensures WithinClosures(u, root.0, Elems<ObjectId>([]))
  {
    assert held + Elems<ObjectId>([]) == held;
  }

  lemma Visited(u: Content, server: Content, id: ObjectId)
    requires IsTree(server, id) && Sub(server, u)
    ensures id in u
  {
  }

  lemma SplitLast<T>(s: seq<T>)
    requires s != []
    ensures s == s[..|s| - 1] + [s[|s| - 1]]
  {
  }

  /** Emits a tree and its transitive entries, skipping those equal to the entry
      at the same path in a base, and those already emitted. `ok` is false when
      the server lacks an object it must read or send.
      `held` is what the fetcher holds or is sent first. */
  method WalkTree(ghost u: Content, server: Content, root: ObjectId, bases: seq<ObjectId>,
                  seen: set<ObjectId>, ghost held: set<ObjectId>)
    returns (ok: bool, seen': set<ObjectId>, out: seq<ObjectId>)
    requires Grounded(u, server, (root, bases), seen, held)
    requires root in u ==> u[root].Tree?
    ensures NoDup(out) && Elems(out) !! seen && Leaves(u, out)
    ensures ok ==> seen' == seen + Elems(out)
    ensures ok ==> Closed(u, held + Elems(out)) && root in held + Elems(out)
    ensures forall x :: x in out ==> InDelta(server, bases, root, x)
    ensures WithinClosures(u, root, Elems(out))
    ensures root in bases ==> ok && out == []
    ensures Servable(u, server, (root, bases)) ==> ok
  {
    hide Walking, Servable, Closed, InDelta, WithinClosures, NoDup, Leaves, Expanded, Covered, Differs;
    ok, seen', out := true, seen, [];
    if root in bases {
      HeldRoot(u, server, (root, bases), seen, held);
      return;
    }
    ghost var start: Node := (root, bases);
    var stack: seq<Node> := [(root, bases)];
    WalkStarts(u, server, start, seen, held);
    while stack != []
      invariant ok && Walking(u, server, start, seen, held, seen', out, stack)
      decreases u.Keys - seen', |stack|
    {
      SplitLast(stack);
      var node := stack[|stack| - 1];
      var rest := stack[..|stack| - 1];
      var id := node.0;
      if id in seen' {
        PopSeen(u, server, start, seen, held, seen', out, rest, node);
        stack := rest;
        continue;
      }
      if Servable(u, server, start) {
        PopReads(u, server, start, seen, held, seen', out, rest, node);
      }
      WalkEmits(u, server, start, seen, held, seen', out, stack);
      if !IsTree(server, id) || exists b :: b in node.1 && !IsTree(server, b) {
        ok := false;
        return;
      }
      var expanded, seen'', pushed, blobs := ExpandTree(server, bases, node, seen' + {id});
      if !expanded {
        EmitBlobs(u, server, start, seen, held, seen', out, rest, node, pushed, blobs);
        ok, out := false, out + blobs;
        return;
      }
      ExpandWalking(u, server, start, seen, held, seen', out, rest, node, pushed, blobs);
      Visited(u, server, id);
      seen', out, stack := seen'', out + blobs + [id], rest + pushed;
    }
    WalkEmits(u, server, start, seen, held, seen', out, stack);
    WalkEnds(u, server, start, seen, held, seen', out);
  }
}
