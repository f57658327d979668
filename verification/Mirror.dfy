/** The git ref mirror: refs move from a "before" value to a merged "after"
    value by atomic compare-and-swap transactions, with the HEADs taken off a
    branch before it moves. */
module Mirror {
  import opened Collections
  import opened Dag
  import opened RefMerge
  import Order
  import Registers
  import Sorted

  datatype Ref = HeadRef(worktree: nat) | Placeholder | BranchRef(name: RefName)

  datatype GitTarget = Object(id: Id) | Symbolic(to: Ref)

  type Refs = map<Ref, GitTarget>

  /** Objects that reach a commit, with that commit: a commit reaches itself, an
      annotated tag the commit it tags. */
  type Peel = map<Id, Id>

  predicate PeelsOnce(peel: Peel) {
    forall o :: o in peel ==> peel[o] in peel && peel[peel[o]] == peel[o]
  }

  /** The object a ref leads to through symbolic refs; none when one is missing
      or they loop. */
  function Follow(refs: Refs, r: Ref, seen: set<Ref>): Option<Id>
    decreases refs.Keys - seen
  {
    if r !in refs || r in seen then None
    else match refs[r]
      case Object(id) => Some(id)
      case Symbolic(to) => Follow(refs, to, seen + {r})
  }

  /** The commit a ref resolves to. */
  function Commit(refs: Refs, peel: Peel, r: Ref): Option<Id> {
    var object_ := Follow(refs, r, {});
    if object_.Some? && object_.value in peel then Some(peel[object_.value]) else None
  }

  datatype Previous = Any | MustMatch(target: GitTarget) | MustNotExist

  datatype RefEdit = Update(name: Ref, expected: Previous, new_: GitTarget) | Delete(name: Ref, expected: Previous)

  predicate Holds(refs: Refs, e: RefEdit) {
    match e.expected
    case Any => true
    case MustMatch(target) => e.name in refs && refs[e.name] == target
    case MustNotExist => e.name !in refs
  }

  function Applied(refs: Refs, e: RefEdit): Refs {
    if e.Update? then refs[e.name := e.new_] else refs - {e.name}
  }

  function ApplyAll(refs: Refs, edits: seq<RefEdit>): Refs
    decreases |edits|
  {
    if edits == [] then refs else Applied(ApplyAll(refs, edits[..|edits| - 1]), edits[|edits| - 1])
  }

  // The HEADs of a branch about to move.

  predicate OnBranch(refs: Refs, h: Ref, n: RefName) {
    h in refs && refs[h] == Symbolic(BranchRef(n))
  }

  /** Whether every HEAD on the branch can be detached at its commit. */
  predicate Unpinnable(refs: Refs, peel: Peel, heads: seq<Ref>, n: RefName) {
    forall h :: h in heads && OnBranch(refs, h, n) && BranchRef(n) in refs ==> Commit(refs, peel, h).Some?
  }

  function Unpinned(refs: Refs, peel: Peel, h: Ref, n: RefName): GitTarget {
    if BranchRef(n) in refs then Object(if Commit(refs, peel, h).Some? then Commit(refs, peel, h).value else 0)
    else Symbolic(Placeholder)
  }

  function HeadEdits(refs: Refs, peel: Peel, heads: seq<Ref>, n: RefName): seq<RefEdit>
    decreases |heads|
  {
    if heads == [] then []
    else
      var h := heads[|heads| - 1];
      HeadEdits(refs, peel, heads[..|heads| - 1], n)
      + if OnBranch(refs, h, n) then [Update(h, MustMatch(refs[h]), Unpinned(refs, peel, h, n))] else []
  }

  predicate Parks(refs: Refs, heads: seq<Ref>, n: RefName) {
    BranchRef(n) !in refs && exists h :: h in heads && OnBranch(refs, h, n)
  }

  function UnpinEdits(refs: Refs, peel: Peel, heads: seq<Ref>, n: RefName): seq<RefEdit> {
    HeadEdits(refs, peel, heads, n) + if Parks(refs, heads, n) then [Delete(Placeholder, Any)] else []
  }

  predicate AreHeads(heads: seq<Ref>) {
    && (forall h :: h in heads ==> h.HeadRef?)
    && (forall i, j :: 0 <= i < j < |heads| ==> heads[i] != heads[j])
  }

  /** What one transaction does, ref by ref. */
  ghost predicate Moves(refs: Refs, after: Refs, peel: Peel, heads: seq<Ref>, n: RefName, new_: Option<Id>) {
    && (new_.Some? ==> BranchRef(n) in after && after[BranchRef(n)] == Object(new_.value))
    && (new_.None? ==> BranchRef(n) !in after)
    && (forall h :: h in heads && OnBranch(refs, h, n) ==> h in after && after[h] == Unpinned(refs, peel, h, n))
    && (Parks(refs, heads, n) ==> Placeholder !in after)
    && (forall r ::
          (r != BranchRef(n) && !(r in heads && OnBranch(refs, r, n)) && !(r == Placeholder && Parks(refs, heads, n)))
          ==> SameAt(refs, after, r))
  }

  predicate SameAt(a: Refs, b: Refs, r: Ref) {
    (r in a <==> r in b) && (r in a && r in b ==> a[r] == b[r])
  }

  /** The HEADs on the branch moved off it, and nothing else. */
  ghost predicate HeadsMoved(refs: Refs, after: Refs, peel: Peel, heads: seq<Ref>, n: RefName) {
    && (forall h :: h in heads && OnBranch(refs, h, n) ==> h in after && after[h] == Unpinned(refs, peel, h, n))
    && (forall r :: !(r in heads && OnBranch(refs, r, n)) ==> SameAt(refs, after, r))
  }

  lemma ApplyLast(refs: Refs, edits: seq<RefEdit>, e: RefEdit)
    ensures ApplyAll(refs, edits + [e]) == Applied(ApplyAll(refs, edits), e)
    ensures ApplyAll(refs, edits + []) == ApplyAll(refs, edits)
  {
    assert (edits + [e])[..|edits|] == edits;
    assert edits + [] == edits;
  }

  lemma HeadsOneMore(refs: Refs, after: Refs, peel: Peel, heads: seq<Ref>, h: Ref, all: seq<Ref>, n: RefName)
    requires HeadsMoved(refs, after, peel, heads, n) && h !in heads
    requires forall x :: x in all <==> x in heads || x == h
    ensures var next := if OnBranch(refs, h, n) then after[h := Unpinned(refs, peel, h, n)] else after;
            HeadsMoved(refs, next, peel, all, n)
  {
    hide Unpinned;
  }

  lemma {:induction false} ApplyHeads(refs: Refs, peel: Peel, heads: seq<Ref>, n: RefName)
    requires AreHeads(heads)
    ensures HeadsMoved(refs, ApplyAll(refs, HeadEdits(refs, peel, heads, n)), peel, heads, n)
    ensures forall e :: e in HeadEdits(refs, peel, heads, n) ==> Holds(refs, e)
    decreases |heads|
  {
    if heads != [] {
      var k := |heads| - 1;
      HeadsPrefix(heads, k);
      ApplyHeads(refs, peel, heads[..k], n);
      hide Unpinned, HeadsMoved, ApplyAll;
      var edits := HeadEdits(refs, peel, heads[..k], n);
      HeadsOneMore(refs, ApplyAll(refs, edits), peel, heads[..k], heads[k], heads, n);
      if OnBranch(refs, heads[k], n) {
        ApplyLast(refs, edits, Update(heads[k], MustMatch(refs[heads[k]]), Unpinned(refs, peel, heads[k], n)));
      } else {
        assert edits + [] == edits;
      }
    }
  }

  lemma HeadsPrefix(heads: seq<Ref>, k: nat)
    requires AreHeads(heads) && |heads| == k + 1
    ensures AreHeads(heads[..k]) && heads[k] !in heads[..k]
    ensures forall h :: h in heads <==> h in heads[..k] || h == heads[k]
  {
    assert heads == heads[..k] + [heads[k]];
  }

  /** A transaction that unpins the HEADs of a branch and moves it. */
  lemma ApplyMoves(refs: Refs, peel: Peel, heads: seq<Ref>, n: RefName, edit: RefEdit, new_: Option<Id>)
    requires AreHeads(heads) && edit.name == BranchRef(n)
    requires if new_.Some? then edit.Update? && edit.new_ == Object(new_.value) else edit.Delete?
    ensures Moves(refs, ApplyAll(refs, UnpinEdits(refs, peel, heads, n) + [edit]), peel, heads, n, new_)
    ensures forall e :: e in UnpinEdits(refs, peel, heads, n) ==> Holds(refs, e)
  {
    hide HeadEdits, Unpinned, Parks, ApplyAll;
    var headEdits, unpin := HeadEdits(refs, peel, heads, n), UnpinEdits(refs, peel, heads, n);
    ApplyHeads(refs, peel, heads, n);
    ApplyLast(refs, unpin, edit);
    ApplyLast(refs, headEdits, Delete(Placeholder, Any));
  }

  // HEADs stay where they are.

  /** A HEAD that is detached, unborn, or on a branch holding an object. */
  ghost predicate Steady(refs: Refs, h: Ref) {
    && h in refs
    && (refs[h].Symbolic? ==> !refs[h].to.HeadRef? && (refs[h].to in refs ==> refs[refs[h].to].Object?))
    && (refs[h] == Symbolic(Placeholder) ==> Placeholder !in refs)
  }

  /** A HEAD resolves to the same commit, or stays unborn. */
  ghost predicate StaysAt(refs: Refs, after: Refs, peel: Peel, h: Ref) {
    && Commit(after, peel, h) == Commit(refs, peel, h)
    && (Follow(after, h, {}).None? <==> Follow(refs, h, {}).None?)
  }

  lemma SteadyFollows(refs: Refs, h: Ref)
    requires Steady(refs, h) && h.HeadRef?
    ensures refs[h].Object? ==> Follow(refs, h, {}) == Some(refs[h].id)
    ensures refs[h].Symbolic? ==>
              Follow(refs, h, {}) == if refs[h].to in refs then Some(refs[refs[h].to].id) else None
  {
  }

  lemma MoveKeepsHead(refs: Refs, after: Refs, peel: Peel, heads: seq<Ref>, n: RefName, new_: Option<Id>, h: Ref)
    requires Moves(refs, after, peel, heads, n, new_) && Unpinnable(refs, peel, heads, n)
    requires AreHeads(heads) && h in heads && Steady(refs, h) && PeelsOnce(peel)
    ensures Steady(after, h) && StaysAt(refs, after, peel, h)
  {
    hide Follow;
    SteadyFollows(refs, h);
    if OnBranch(refs, h, n) {
      assert after[h] == Unpinned(refs, peel, h, n);
    } else {
      assert SameAt(refs, after, h);
      var to := if refs[h].Symbolic? then refs[h].to else h;
      assert to != BranchRef(n);
      if to.BranchRef? {
        assert SameAt(refs, after, to);
      } else if to == Placeholder {
        assert Placeholder !in after by { PlaceholderStaysGone(refs, after, peel, heads, n, new_); }
      }
    }
    SteadyFollows(after, h);
  }

  lemma PlaceholderStaysGone(refs: Refs, after: Refs, peel: Peel, heads: seq<Ref>, n: RefName, new_: Option<Id>)
    requires Moves(refs, after, peel, heads, n, new_) && AreHeads(heads) && Placeholder !in refs
    ensures Placeholder !in after
  {
    hide Parks;
    assert Parks(refs, heads, n) || SameAt(refs, after, Placeholder);
  }

  // One pass.

  function CommitOf(t: RefTarget): Option<Id> {
    if t.Normal? then Some(t.commit) else None
  }

  /** A ref still at its `before` value. */
  predicate Expected(refs: Refs, peel: Peel, n: RefName, before: Option<Id>) {
    if before.None? then BranchRef(n) !in refs
    else BranchRef(n) in refs
         && (refs[BranchRef(n)] == Object(before.value) || Commit(refs, peel, BranchRef(n)) == before)
  }

  /** A ref at its `after` value. */
  predicate Shows(refs: Refs, n: RefName, after: Option<Id>) {
    if after.None? then BranchRef(n) !in refs else BranchRef(n) in refs && refs[BranchRef(n)] == Object(after.value)
  }

  /** What the store holds for a ref recorded at a commit. */
  function StoredTarget(refs: Refs, peel: Peel, n: RefName, commit: Id): GitTarget {
    if BranchRef(n) in refs && refs[BranchRef(n)] != Object(commit)
       && Commit(refs, peel, BranchRef(n)) == Some(commit)
    then refs[BranchRef(n)] else Object(commit)
  }

  function MoveEdit(refs: Refs, peel: Peel, n: RefName, before: Option<Id>, after: Option<Id>): RefEdit {
    var expected := if before.Some? then MustMatch(StoredTarget(refs, peel, n, before.value)) else MustNotExist;
    if after.Some? then Update(BranchRef(n), expected, Object(after.value)) else Delete(BranchRef(n), expected)
  }

  lemma MoveExpected(refs: Refs, peel: Peel, n: RefName, before: Option<Id>, after: Option<Id>)
    ensures Holds(refs, MoveEdit(refs, peel, n, before, after)) <==> Expected(refs, peel, n, before)
  {
    hide Follow;
  }

  /** A ref with nothing symbolic about it that reaches a commit, or is absent. */
  ghost predicate Plain(refs: Refs, peel: Peel, n: RefName) {
    BranchRef(n) in refs ==> refs[BranchRef(n)].Object? && refs[BranchRef(n)].id in peel
  }

  class GitRepo {
    var refs: Refs
    const peel: Peel
    /** The ref names jj imports, and those git accepts. */
    const imported: RefName -> bool
    const valid: RefName -> bool

    constructor (refs: Refs, peel: Peel, imported: RefName -> bool, valid: RefName -> bool)
      ensures this.refs == refs && this.peel == peel && this.imported == imported && this.valid == valid
    {
      this.refs, this.peel, this.imported, this.valid := refs, peel, imported, valid;
    }

    /** One transaction: all edits or none. */
    method EditReferences(edits: seq<RefEdit>, fails: bool) returns (ok: bool)
      modifies `refs
      ensures ok <==> !fails && forall e :: e in edits ==> Holds(old(refs), e)
      ensures refs == if ok then ApplyAll(old(refs), edits) else old(refs)
    {
      if fails { return false; }
      ok := true;
      for i := 0 to |edits|
        invariant ok <==> forall e :: e in edits[..i] ==> Holds(refs, e)
      {
        assert edits[..i + 1] == edits[..i] + [edits[i]];
        if !Holds(refs, edits[i]) {
          ok := false;
        }
      }
      assert edits[..|edits|] == edits;
      if !ok { return; }
      ghost var before := refs;
      for i := 0 to |edits|
        invariant refs == ApplyAll(before, edits[..i])
      {
        assert edits[..i + 1][..i] == edits[..i];
        refs := Applied(refs, edits[i]);
      }
    }

    /** The edits moving the HEADs off a branch without changing what they resolve
        to; none when one of them cannot be resolved. */
    method UnpinHeads(heads: seq<Ref>, n: RefName) returns (r: Option<seq<RefEdit>>)
      ensures r.Some? <==> Unpinnable(refs, peel, heads, n)
      ensures r.Some? ==> r.value == UnpinEdits(refs, peel, heads, n)
    {
      hide Follow;
      var edits: seq<RefEdit> := [];
      var parked := false;
      for i := 0 to |heads|
        invariant Unpinnable(refs, peel, heads[..i], n)
        invariant edits == HeadEdits(refs, peel, heads[..i], n)
        invariant parked == Parks(refs, heads[..i], n)
      {
        assert heads[..i + 1][..i] == heads[..i];
        assert forall h :: h in heads[..i + 1] <==> h in heads[..i] || h == heads[i];
        if OnBranch(refs, heads[i], n) {
          if BranchRef(n) in refs && Commit(refs, peel, heads[i]).None? {
            assert heads[i] in heads;
            return None;
          }
          edits := edits + [Update(heads[i], MustMatch(refs[heads[i]]), Unpinned(refs, peel, heads[i], n))];
          parked := parked || BranchRef(n) !in refs;
        }
      }
      assert heads[..|heads|] == heads;
      r := Some(edits + if parked then [Delete(Placeholder, Any)] else []);
    }

    /** Moves one ref, in its own transaction with the HEADs. */
    method SwapOne(heads: seq<Ref>, n: RefName, before: Option<Id>, after: Option<Id>, fails: bool)
      returns (moved: bool)
      requires AreHeads(heads)
      modifies `refs
      ensures moved <==> !fails && Expected(old(refs), peel, n, before) && Unpinnable(old(refs), peel, heads, n)
      ensures if moved then Moves(old(refs), refs, peel, heads, n, after) else refs == old(refs)
    {
      hide Expected, Unpinnable, Moves, Holds, UnpinEdits, ApplyAll, StoredTarget;
      var edit := MoveEdit(refs, peel, n, before, after);
      MoveExpected(refs, peel, n, before, after);
      ApplyMoves(refs, peel, heads, n, edit, after);
      var unpin := UnpinHeads(heads, n);
      if unpin.None? { return false; }
      ghost var edits := unpin.value + [edit];
      assert forall e :: e in edits <==> e in unpin.value || e == edit;
      moved := EditReferences(unpin.value + [edit], fails);
    }

    /** The names a pass may move. */
    ghost function Movable(before: GitRefs, after: GitRefs): set<RefName> {
      set n | n in before.Keys + after.Keys && imported(n) && valid(n)
        && !Target(before, n).Conflict? && !Target(after, n).Conflict?
        && CommitOf(Target(before, n)) != CommitOf(Target(after, n))
    }

    /** Moves each imported ref from its `before` value to its `after` value,
        skipping unchanged refs, conflicts and the transactions that fail. */
    method Swap(heads: seq<Ref>, before: GitRefs, after: GitRefs, failing: set<RefName>)
      returns (ghost trace: seq<Refs>)
      requires AreHeads(heads)
      modifies `refs
      ensures Passed(trace, old(refs), refs, peel, heads, Movable(before, after), failing, before, after)
      ensures HeadsStayed(old(refs), refs, peel, heads)
      ensures failing == {} && Ready(old(refs), peel, Movable(before, after), before) ==>
                forall n :: n in Movable(before, after) ==> Shows(refs, n, CommitOf(Target(after, n)))
      ensures Movable(before, after) == {} ==> refs == old(refs)
      ensures forall n :: !imported(n) || !valid(n) || Target(before, n).Conflict? || Target(after, n).Conflict? ==>
                          SameAt(old(refs), refs, BranchRef(n))
    {
      hide *;
      trace := [refs];
      var names := Order.Sorted(before.Keys + after.Keys);
      ghost var movable := Movable(before, after);
      NoTransaction(refs, names, peel, heads, movable, failing, before, after);
      Registers.SortedEnumerate(before.Keys + after.Keys);
      for i := 0 to |names|
        invariant Transactions(trace, names[..i], peel, heads, movable, failing, before, after)
        invariant |trace| == i + 1 && trace[0] == old(refs) && trace[i] == refs
      {
        var n := names[i];
        OneMore(names, before.Keys + after.Keys, i);
        MovableExact(before, after, n);
        ghost var now := refs;
        if imported(n) && !Target(before, n).Conflict? && !Target(after, n).Conflict?
           && CommitOf(Target(before, n)) != CommitOf(Target(after, n)) && valid(n) {
          var was, next := CommitOf(Target(before, n)), CommitOf(Target(after, n));
          var moved := SwapOne(heads, n, was, next, n in failing);
          Transacted(now, refs, peel, heads, n, movable, failing, before, after, moved);
        } else {
          Skipped(now, peel, heads, n, movable, failing, before, after);
        }
        OneTransaction(trace, names, i, refs, peel, heads, movable, failing, before, after);
        trace := trace + [refs];
      }
      assert names[..|names|] == names;
      PassOver(trace, names, before.Keys + after.Keys, |names|, peel, heads, movable, failing, before, after);
      AllNames(names, before, after, movable);
      IsPassed(trace, names, old(refs), refs, peel, heads, movable, failing, before, after);
      OthersUnmoved(old(refs), heads, before, after);
    }

    /** The imported refs the git repo holds, as the commits jj records. */
    method StoredRefs(hint: GitRefs) returns (r: GitRefs)
      ensures StoresOf(r, refs, peel, imported, hint)
    {
      hide *;
      r := map[];
      var names := Order.Sorted(Branches(refs));
      StoredNone(refs, peel, imported, hint);
      for i := 0 to |names|
        invariant StoredAmong(r, refs, peel, imported, hint, names[..i])
      {
        StoredOneMore(r, refs, peel, imported, hint, names, i);
        if imported(names[i]) && StoredAt(refs, peel, hint, names[i]) != Absent {
          r := r[names[i] := StoredAt(refs, peel, hint, names[i])];
        }
      }
      StoredNames(r, refs, peel, imported, hint, names);
    }

    /** Brings a git repo only jj writes to in line with the merged refs. */
    method Heal(heads: seq<Ref>, owns: bool, after: GitRefs, failing: set<RefName>)
      requires AreHeads(heads)
      modifies `refs
      ensures !owns ==> refs == old(refs)
      ensures HeadsStayed(old(refs), refs, peel, heads)
      ensures owns ==> exists stored: GitRefs, trace: seq<Refs> ::
                && StoresOf(stored, old(refs), peel, imported, after)
                && Passed(trace, old(refs), refs, peel, heads, Movable(stored, after), failing, stored, after)
      ensures owns && failing == {} && AllPlain(old(refs), peel, imported) ==>
                InLine(refs, peel, imported, valid, after)
      ensures InLine(old(refs), peel, imported, valid, after) ==> refs == old(refs)
      ensures forall n :: !imported(n) || !valid(n) || Target(after, n).Conflict? ==>
                          SameAt(old(refs), refs, BranchRef(n))
    {
      HeadsSame(refs, peel, heads);
      if !owns { return; }
      var stored := StoredRefs(after);
      ghost var start, movable := refs, Movable(stored, after);
      StoredMovable(stored, after);
      ghost var trace := Swap(heads, stored, after, failing);
      assert StoresOf(stored, start, peel, imported, after)
          && Passed(trace, start, refs, peel, heads, movable, failing, stored, after);
      if failing == {} && AllPlain(start, peel, imported) {
        HealedAll(start, refs, stored, after, heads, movable);
      }
      hide Movable, PassMoved, HeadsStayed, Ready, Shows, InLine, AllPlain, StoresOf, OnlyExpectedMoved, Transactions,
        Order.Sorted;
    }

    /** Stored values make every plain ref ready, and none movable once all are in
        line. */
    lemma StoredMovable(stored: GitRefs, after: GitRefs)
      requires StoresOf(stored, refs, peel, imported, after)
      ensures AllPlain(refs, peel, imported) ==> Ready(refs, peel, Movable(stored, after), stored)
      ensures InLine(refs, peel, imported, valid, after) ==> Movable(stored, after) == {}
    {
      forall n | n in Movable(stored, after)
        ensures AllPlain(refs, peel, imported) ==>
                  Plain(refs, peel, n) && Expected(refs, peel, n, CommitOf(Target(stored, n)))
        ensures !InLine(refs, peel, imported, valid, after)
      {
        MovableExact(stored, after, n);
        StoredReady(refs, peel, n, after);
        hide Movable, Commit, StoredAt;
      }
    }

    lemma HealedAll(start: Refs, now: Refs, stored: GitRefs, after: GitRefs, heads: seq<Ref>, movable: set<RefName>)
      requires StoresOf(stored, start, peel, imported, after) && movable == Movable(stored, after)
      requires PassMoved(start, now, heads, movable, after)
      requires forall n :: n in movable ==> Shows(now, n, CommitOf(Target(after, n)))
      requires AllPlain(start, peel, imported)
      ensures InLine(now, peel, imported, valid, after)
    {
      forall n | imported(n) && valid(n) && !Target(after, n).Conflict?
        ensures AtCommit(now, peel, n, CommitOf(Target(after, n)))
      {
        if n !in movable {
          assert SameAt(start, now, BranchRef(n));
          if n in stored.Keys + after.Keys {
            MovableExact(stored, after, n);
          }
          StoredReady(start, peel, n, after);
          assert CommitOf(Target(stored, n)) == CommitOf(Target(after, n));
        }
        hide Movable, StoredAt, Follow, PassMoved;
      }
    }

    /** Mirrors what a publication changes in the merged refs. */
    method Run(ghost g: Graph, views: Id -> GitRefs, merge3: Merge3, closest: Closest, opHeads: seq<Id>,
               publish: seq<(Id, seq<Id>)>, heads: seq<Ref>, owns: bool, failing: set<RefName>)
      returns (ok: bool)
      requires Acyclic(g) && FindsClosest(g, closest) && AreHeads(heads)
      modifies `refs
      ensures publish == [] || !ok ==> refs == old(refs)
      ensures ok <==> publish == [] || (Merged(g, views, merge3, closest, Published(opHeads, publish)).Some?
                                        && (owns || Merged(g, views, merge3, closest, opHeads).Some?))
      ensures HeadsStayed(old(refs), refs, peel, heads)
      ensures ok && publish != [] ==>
                var after := Merged(g, views, merge3, closest, Published(opHeads, publish));
                after.Some? && exists before: GitRefs, trace: seq<Refs> ::
                  && (if owns then StoresOf(before, old(refs), peel, imported, after.value)
                      else Merged(g, views, merge3, closest, opHeads) == Some(before))
                  && Passed(trace, old(refs), refs, peel, heads, Movable(before, after.value), failing, before,
                            after.value)
                  && forall n ::
                       !imported(n) || !valid(n) || Target(before, n).Conflict? || Target(after.value, n).Conflict? ==>
                         SameAt(old(refs), refs, BranchRef(n))
    {
      hide *;
      HeadsSame(refs, peel, heads);
      if publish == [] { return true; }
      var after := Merge(g, views, merge3, closest, Published(opHeads, publish));
      if after.None? { return false; }
      var before;
      if owns {
        before := StoredRefs(after.value);
      } else {
        var merged := Merge(g, views, merge3, closest, opHeads);
        if merged.None? { return false; }
        before := merged.value;
      }
      ghost var trace := Swap(heads, before, after.value, failing);
      ok := true;
    }

    lemma MovableExact(before: GitRefs, after: GitRefs, n: RefName)
      requires n in before.Keys + after.Keys
      ensures n in Movable(before, after) <==>
              imported(n) && !Target(before, n).Conflict? && !Target(after, n).Conflict?
              && CommitOf(Target(before, n)) != CommitOf(Target(after, n)) && valid(n)
    {
    }

    /** What a pass may not move stays: refs jj does not import, invalid names and
        conflicts. */
    lemma OthersUnmoved(start: Refs, heads: seq<Ref>, before: GitRefs, after: GitRefs)
      requires PassMoved(start, refs, heads, Movable(before, after), after)
      ensures forall n :: !imported(n) || !valid(n) || Target(before, n).Conflict? || Target(after, n).Conflict? ==>
                          SameAt(start, refs, BranchRef(n))
    {
      forall n | !imported(n) || !valid(n) || Target(before, n).Conflict? || Target(after, n).Conflict?
        ensures SameAt(start, refs, BranchRef(n))
      {
        assert n !in Movable(before, after);
        hide Target, CommitOf;
      }
    }

    lemma AllNames(names: seq<RefName>, before: GitRefs, after: GitRefs, movable: set<RefName>)
      requires names == Order.Sorted(before.Keys + after.Keys) && movable == Movable(before, after)
      ensures movable * Elems(names[..|names|]) == movable
    {
      hide Order.Sorted;
      assert names[..|names|] == names;
    }
  }

  predicate Superseded(publish: seq<(Id, seq<Id>)>, h: Id) {
    exists i :: 0 <= i < |publish| && h in publish[i].1
  }

  predicate Publishes(publish: seq<(Id, seq<Id>)>, h: Id) {
    exists i :: 0 <= i < |publish| && publish[i].0 == h
  }

  /** The op heads once `publish` lands, in order: those not superseded, and every
      want. */
  function Published(opHeads: seq<Id>, publish: seq<(Id, seq<Id>)>): (r: seq<Id>)
    ensures Sorted.Ascending(r)
    ensures forall h :: h in r <==> (h in opHeads && !Superseded(publish, h)) || Publishes(publish, h)
  {
    var superseded := set i, k | 0 <= i < |publish| && 0 <= k < |publish[i].1| :: publish[i].1[k];
    assert forall h :: h in superseded <==> Superseded(publish, h);
    Sorted.Keys((set h | h in opHeads && h !in superseded) + set i | 0 <= i < |publish| :: publish[i].0)
  }

  /** The commit jj records for a stored ref: as stored when that is what the
      hint gives it, peeled otherwise, skipped when it reaches no commit. */
  function StoredAt(refs: Refs, peel: Peel, hint: GitRefs, n: RefName): RefTarget {
    if BranchRef(n) !in refs then Absent
    else if refs[BranchRef(n)].Object? && Target(hint, n) == Normal(refs[BranchRef(n)].id)
    then Normal(refs[BranchRef(n)].id)
    else
      var commit := Commit(refs, peel, BranchRef(n));
      if commit.Some? then Normal(commit.value) else Absent
  }

  ghost predicate StoresOf(r: GitRefs, refs: Refs, peel: Peel, imported: RefName -> bool, hint: GitRefs) {
    forall n :: Target(r, n) == if imported(n) then StoredAt(refs, peel, hint, n) else Absent
  }

  function Branches(refs: Refs): set<RefName> {
    set x | x in refs && x.BranchRef? :: x.name
  }

  ghost predicate StoredAmong(r: GitRefs, refs: Refs, peel: Peel, imported: RefName -> bool, hint: GitRefs,
                              names: seq<RefName>) {
    forall n :: Target(r, n) == if n in names && imported(n) then StoredAt(refs, peel, hint, n) else Absent
  }

  lemma StoredNone(refs: Refs, peel: Peel, imported: RefName -> bool, hint: GitRefs)
    ensures StoredAmong(map[], refs, peel, imported, hint, [])
  {
  }

  lemma StoredOneMore(r: GitRefs, refs: Refs, peel: Peel, imported: RefName -> bool, hint: GitRefs,
                      names: seq<RefName>, i: nat)
    requires i < |names| && StoredAmong(r, refs, peel, imported, hint, names[..i])
    ensures var t := StoredAt(refs, peel, hint, names[i]);
            StoredAmong(if imported(names[i]) && t != Absent then r[names[i] := t] else r, refs, peel, imported, hint,
                        names[..i + 1])
  {
    hide StoredAt;
    assert names[..i + 1] == names[..i] + [names[i]];
  }

  lemma StoredNames(r: GitRefs, refs: Refs, peel: Peel, imported: RefName -> bool, hint: GitRefs, names: seq<RefName>)
    requires names == Order.Sorted(Branches(refs)) && StoredAmong(r, refs, peel, imported, hint, names[..|names|])
    ensures StoresOf(r, refs, peel, imported, hint)
  {
    hide Order.Sorted, Commit;
    assert names[..|names|] == names;
    forall n ensures n in names <==> BranchRef(n) in refs {
      assert BranchRef(n) in refs ==> BranchRef(n).name in Branches(refs);
    }
  }

  /** Every imported ref is plain. */
  ghost predicate AllPlain(refs: Refs, peel: Peel, imported: RefName -> bool) {
    forall n :: imported(n) ==> Plain(refs, peel, n)
  }

  /** A ref holding the commit or an object that reaches it, or absent. */
  ghost predicate AtCommit(refs: Refs, peel: Peel, n: RefName, c: Option<Id>) {
    if c.None? then BranchRef(n) !in refs
    else BranchRef(n) in refs && refs[BranchRef(n)].Object?
         && (refs[BranchRef(n)].id == c.value
             || (refs[BranchRef(n)].id in peel && peel[refs[BranchRef(n)].id] == c.value))
  }

  /** Every resolved imported ref equals the merged view. */
  ghost predicate InLine(refs: Refs, peel: Peel, imported: RefName -> bool, valid: RefName -> bool, after: GitRefs) {
    forall n :: imported(n) && valid(n) && !Target(after, n).Conflict? ==>
      AtCommit(refs, peel, n, CommitOf(Target(after, n)))
  }

  lemma StoredReady(refs: Refs, peel: Peel, n: RefName, hint: GitRefs)
    ensures Plain(refs, peel, n) ==> Expected(refs, peel, n, CommitOf(StoredAt(refs, peel, hint, n)))
    ensures Plain(refs, peel, n) && CommitOf(StoredAt(refs, peel, hint, n)) == CommitOf(Target(hint, n)) ==>
              AtCommit(refs, peel, n, CommitOf(Target(hint, n)))
    ensures !Target(hint, n).Conflict? && AtCommit(refs, peel, n, CommitOf(Target(hint, n))) ==>
              CommitOf(StoredAt(refs, peel, hint, n)) == CommitOf(Target(hint, n))
  {
    ObjectCommit(refs, peel, n);
    hide Commit, Follow;
  }

  lemma ObjectCommit(refs: Refs, peel: Peel, n: RefName)
    ensures BranchRef(n) in refs && refs[BranchRef(n)].Object? && refs[BranchRef(n)].id in peel ==>
              Commit(refs, peel, BranchRef(n)) == Some(peel[refs[BranchRef(n)].id])
    ensures BranchRef(n) in refs && refs[BranchRef(n)].Object? && refs[BranchRef(n)].id !in peel ==>
              Commit(refs, peel, BranchRef(n)) == None
  {
  }

  lemma HeadsSame(refs: Refs, peel: Peel, heads: seq<Ref>)
    ensures HeadsStayed(refs, refs, peel, heads)
  {
    hide Steady, Commit, Follow;
  }

  /** A pass so far: the names it was done with moved to their `after` value or
      not at all, and nothing else moved but HEADs and the placeholder. */
  ghost predicate PassMoved(start: Refs, now: Refs, heads: seq<Ref>, done: set<RefName>, after: GitRefs) {
    && (forall m :: m !in done ==> SameAt(start, now, BranchRef(m)))
    && (forall m :: m in done ==> SameAt(start, now, BranchRef(m)) || Shows(now, m, CommitOf(Target(after, m))))
    && (forall w :: HeadRef(w) !in heads ==> SameAt(start, now, HeadRef(w)))
  }

  /** A ref that holds an object, or is absent. */
  predicate Direct(refs: Refs, n: RefName) {
    BranchRef(n) in refs ==> refs[BranchRef(n)].Object?
  }

  /** A ref that moved was still at its `before` value when the pass began, unless
      it was symbolic: then an earlier move of the pass may have moved what it
      leads to. */
  ghost predicate OnlyExpectedMoved(start: Refs, now: Refs, peel: Peel, done: set<RefName>, before: GitRefs) {
    forall m :: m in done && Direct(start, m) && !SameAt(start, now, BranchRef(m)) ==>
      Expected(start, peel, m, CommitOf(Target(before, m)))
  }

  /** A pass, transaction by transaction: a name to move moves exactly when its
      transaction does not fail, the ref is then at its `before` value and the
      HEADs on it can be taken off; otherwise nothing changes. */
  ghost predicate Transactions(trace: seq<Refs>, names: seq<RefName>, peel: Peel, heads: seq<Ref>,
                               movable: set<RefName>, failing: set<RefName>, before: GitRefs, after: GitRefs)
  {
    |trace| == |names| + 1 &&
    forall i :: 0 <= i < |names| ==>
      Transaction(trace[i], trace[i + 1], peel, heads, names[i], movable, failing, before, after)
  }

  ghost predicate Transaction(now: Refs, next: Refs, peel: Peel, heads: seq<Ref>, n: RefName, movable: set<RefName>,
                              failing: set<RefName>, before: GitRefs, after: GitRefs)
  {
    if n in movable && n !in failing && Expected(now, peel, n, CommitOf(Target(before, n)))
       && Unpinnable(now, peel, heads, n)
    then Moves(now, next, peel, heads, n, CommitOf(Target(after, n)))
    else next == now
  }

  /** A whole pass: its transactions in name order, and what they come to. */
  ghost predicate Passed(trace: seq<Refs>, start: Refs, now: Refs, peel: Peel, heads: seq<Ref>, movable: set<RefName>,
                         failing: set<RefName>, before: GitRefs, after: GitRefs)
  {
    && Transactions(trace, Order.Sorted(before.Keys + after.Keys), peel, heads, movable, failing, before, after)
    && trace[0] == start && trace[|trace| - 1] == now
    && PassMoved(start, now, heads, movable, after) && OnlyExpectedMoved(start, now, peel, movable, before)
  }

  lemma IsPassed(trace: seq<Refs>, names: seq<RefName>, start: Refs, now: Refs, peel: Peel, heads: seq<Ref>,
                 movable: set<RefName>, failing: set<RefName>, before: GitRefs, after: GitRefs)
    requires names == Order.Sorted(before.Keys + after.Keys)
    requires Transactions(trace, names, peel, heads, movable, failing, before, after) && |trace| == |names| + 1
    requires trace[0] == start && trace[|names|] == now
    requires PassMoved(start, now, heads, movable, after) && OnlyExpectedMoved(start, now, peel, movable, before)
    ensures Passed(trace, start, now, peel, heads, movable, failing, before, after)
  {
    hide Order.Sorted, Transaction, PassMoved, OnlyExpectedMoved;
  }

  lemma Transacted(now: Refs, next: Refs, peel: Peel, heads: seq<Ref>, n: RefName, movable: set<RefName>,
                   failing: set<RefName>, before: GitRefs, after: GitRefs, moved: bool)
    requires n in movable
    requires moved <==> n !in failing && Expected(now, peel, n, CommitOf(Target(before, n)))
                        && Unpinnable(now, peel, heads, n)
    requires if moved then Moves(now, next, peel, heads, n, CommitOf(Target(after, n))) else next == now
    ensures Transaction(now, next, peel, heads, n, movable, failing, before, after)
  {
    hide Expected, Unpinnable, Moves;
  }

  lemma Skipped(now: Refs, peel: Peel, heads: seq<Ref>, n: RefName, movable: set<RefName>, failing: set<RefName>,
                before: GitRefs, after: GitRefs)
    requires n !in movable
    ensures Transaction(now, now, peel, heads, n, movable, failing, before, after)
  {
  }

  lemma NoTransaction(refs: Refs, names: seq<RefName>, peel: Peel, heads: seq<Ref>, movable: set<RefName>,
                      failing: set<RefName>, before: GitRefs, after: GitRefs)
    ensures Transactions([refs], names[..0], peel, heads, movable, failing, before, after)
  {
  }

  lemma OneTransaction(trace: seq<Refs>, names: seq<RefName>, i: nat, next: Refs, peel: Peel, heads: seq<Ref>,
                       movable: set<RefName>, failing: set<RefName>, before: GitRefs, after: GitRefs)
    requires i < |names| && Transactions(trace, names[..i], peel, heads, movable, failing, before, after)
    requires Transaction(trace[i], next, peel, heads, names[i], movable, failing, before, after)
    ensures Transactions(trace + [next], names[..i + 1], peel, heads, movable, failing, before, after)
  {
    hide Transaction;
  }

  lemma ExpectedStep(start: Refs, now: Refs, next: Refs, peel: Peel, heads: seq<Ref>, done: set<RefName>, n: RefName,
                     before: GitRefs, after: GitRefs, moved: bool)
    requires AreHeads(heads) && n !in done && PassMoved(start, now, heads, done, after)
    requires OnlyExpectedMoved(start, now, peel, done, before)
    requires moved ==> Expected(now, peel, n, CommitOf(Target(before, n)))
                       && Moves(now, next, peel, heads, n, CommitOf(Target(after, n)))
    requires !moved ==> next == now
    ensures OnlyExpectedMoved(start, next, peel, done + {n}, before)
  {
    if moved {
      OthersSame(now, next, peel, heads, n, CommitOf(Target(after, n)));
      assert SameAt(start, now, BranchRef(n));
      if Direct(start, n) {
        DirectCommit(start, peel, n);
        DirectCommit(now, peel, n);
      }
    } else {
      assert SameAt(start, now, BranchRef(n));
    }
    hide Moves, Commit, Follow, Shows, Target, CommitOf;
    forall m | m in done + {n} && Direct(start, m) && !SameAt(start, next, BranchRef(m))
      ensures Expected(start, peel, m, CommitOf(Target(before, m)))
    {
      if m != n {
        assert m in done;
        assert moved ==> SameAt(now, next, BranchRef(m));
      }
    }
  }

  /** What a direct ref reaches depends on nothing else. */
  lemma DirectCommit(refs: Refs, peel: Peel, n: RefName)
    requires Direct(refs, n)
    ensures Commit(refs, peel, BranchRef(n)) ==
            if BranchRef(n) in refs && refs[BranchRef(n)].id in peel then Some(peel[refs[BranchRef(n)].id]) else None
  {
  }

  /** Every steady HEAD resolves to what it did. */
  ghost predicate HeadsStayed(start: Refs, now: Refs, peel: Peel, heads: seq<Ref>) {
    PeelsOnce(peel) ==> forall h :: h in heads && Steady(start, h) ==> Steady(now, h) && StaysAt(start, now, peel, h)
  }

  /** Every ref to move is plain and at its `before` value. */
  ghost predicate Ready(refs: Refs, peel: Peel, movable: set<RefName>, before: GitRefs) {
    forall n :: n in movable ==> Plain(refs, peel, n) && Expected(refs, peel, n, CommitOf(Target(before, n)))
  }

  lemma PassStarts(refs: Refs, peel: Peel, heads: seq<Ref>, movable: set<RefName>, before: GitRefs, after: GitRefs)
    ensures OnlyExpectedMoved(refs, refs, peel, movable * Elems([]), before)
    ensures PassMoved(refs, refs, heads, movable * Elems([]), after) && HeadsStayed(refs, refs, peel, heads)
    ensures movable * Elems([]) == {}
  {
    hide Steady;
    assert Elems<RefName>([]) == {};
  }

  lemma PassStep(start: Refs, now: Refs, next: Refs, peel: Peel, heads: seq<Ref>, done: set<RefName>, n: RefName,
                 was: Option<Id>, after: GitRefs, moved: bool)
    requires AreHeads(heads) && n !in done
    requires PassMoved(start, now, heads, done, after) && HeadsStayed(start, now, peel, heads)
    requires moved ==> Unpinnable(now, peel, heads, n) && Moves(now, next, peel, heads, n, CommitOf(Target(after, n)))
    requires !moved ==> next == now
    ensures PassMoved(start, next, heads, done + {n}, after) && HeadsStayed(start, next, peel, heads)
  {
    if moved {
      HeadsStep(start, now, next, peel, heads, n, CommitOf(Target(after, n)));
      MovedOne(start, now, next, peel, heads, done, n, after);
    }
    hide Steady, StaysAt, Unpinnable, Moves;
  }

  lemma MovedOne(start: Refs, now: Refs, next: Refs, peel: Peel, heads: seq<Ref>, done: set<RefName>, n: RefName,
                 after: GitRefs)
    requires AreHeads(heads) && n !in done && PassMoved(start, now, heads, done, after)
    requires Moves(now, next, peel, heads, n, CommitOf(Target(after, n)))
    ensures PassMoved(start, next, heads, done + {n}, after)
  {
    OthersSame(now, next, peel, heads, n, CommitOf(Target(after, n)));
    assert Shows(next, n, CommitOf(Target(after, n)));
    hide Moves;
    forall m | m != n ensures SameAt(now, next, BranchRef(m)) {
    }
  }

  lemma OthersSame(now: Refs, next: Refs, peel: Peel, heads: seq<Ref>, n: RefName, new_: Option<Id>)
    requires AreHeads(heads) && Moves(now, next, peel, heads, n, new_)
    ensures forall m :: m != n ==> SameAt(now, next, BranchRef(m))
    ensures forall w :: HeadRef(w) !in heads ==> SameAt(now, next, HeadRef(w))
    ensures Shows(next, n, new_)
  {
    hide OnBranch, Parks;
    forall m | m != n ensures SameAt(now, next, BranchRef(m)) {
      assert BranchRef(m) !in heads;
    }
  }

  lemma HeadsStep(start: Refs, now: Refs, next: Refs, peel: Peel, heads: seq<Ref>, n: RefName, new_: Option<Id>)
    requires AreHeads(heads) && HeadsStayed(start, now, peel, heads)
    requires Unpinnable(now, peel, heads, n) && Moves(now, next, peel, heads, n, new_)
    ensures HeadsStayed(start, next, peel, heads)
  {
    hide Steady, Commit, Follow, Unpinnable, Moves, PeelsOnce;
    if PeelsOnce(peel) {
      forall h | h in heads && Steady(start, h) ensures Steady(next, h) && StaysAt(start, next, peel, h) {
        MoveKeepsHead(now, next, peel, heads, n, new_, h);
      }
    }
  }

  /** A ready name not done yet can be moved. */
  lemma ReadyMoves(start: Refs, now: Refs, peel: Peel, heads: seq<Ref>, done: set<RefName>, movable: set<RefName>,
                   before: GitRefs, after: GitRefs, n: RefName)
    requires AreHeads(heads) && Ready(start, peel, movable, before) && n in movable && n !in done
    requires PassMoved(start, now, heads, done, after)
    ensures Expected(now, peel, n, CommitOf(Target(before, n))) && Unpinnable(now, peel, heads, n)
  {
    assert Plain(start, peel, n) && SameAt(start, now, BranchRef(n));
    PlainCommit(start, peel, n);
    PlainCommit(now, peel, n);
    hide Follow, Commit;
    forall h | h in heads && OnBranch(now, h, n) && BranchRef(n) in now ensures Commit(now, peel, h).Some? {
      PlainHead(now, peel, h, n);
    }
  }

  lemma PlainCommit(refs: Refs, peel: Peel, n: RefName)
    requires Plain(refs, peel, n)
    ensures BranchRef(n) in refs ==> Commit(refs, peel, BranchRef(n)) == Some(peel[refs[BranchRef(n)].id])
    ensures BranchRef(n) !in refs ==> Commit(refs, peel, BranchRef(n)) == None
  {
  }

  lemma PlainHead(refs: Refs, peel: Peel, h: Ref, n: RefName)
    requires Plain(refs, peel, n) && OnBranch(refs, h, n) && BranchRef(n) in refs && h.HeadRef?
    ensures Commit(refs, peel, h).Some?
  {
    SteadyFollows(refs, h);
    hide Follow;
  }

  lemma ShowsStay(now: Refs, next: Refs, peel: Peel, heads: seq<Ref>, n: RefName, new_: Option<Id>,
                  done: set<RefName>, after: GitRefs, moved: bool)
    requires AreHeads(heads) && n !in done && moved && Moves(now, next, peel, heads, n, new_)
    requires new_ == CommitOf(Target(after, n))
    requires forall m :: m in done ==> Shows(now, m, CommitOf(Target(after, m)))
    ensures forall m :: m in done + {n} ==> Shows(next, m, CommitOf(Target(after, m)))
  {
    OthersSame(now, next, peel, heads, n, new_);
    hide Moves;
    forall m | m in done ensures Shows(next, m, CommitOf(Target(after, m))) {
      assert SameAt(now, next, BranchRef(m));
    }
  }

  /** What a pass leaves after its first `i` transactions. */
  lemma {:induction false} PassOver(trace: seq<Refs>, names: seq<RefName>, all: set<RefName>, i: nat, peel: Peel,
                                    heads: seq<Ref>, movable: set<RefName>, failing: set<RefName>, before: GitRefs,
                                    after: GitRefs)
    requires Transactions(trace, names, peel, heads, movable, failing, before, after)
    requires i <= |names| && Enumerates(names, all) && AreHeads(heads)
    ensures PassMoved(trace[0], trace[i], heads, movable * Elems(names[..i]), after)
    ensures OnlyExpectedMoved(trace[0], trace[i], peel, movable * Elems(names[..i]), before)
    ensures HeadsStayed(trace[0], trace[i], peel, heads)
    ensures failing == {} && Ready(trace[0], peel, movable, before) ==>
              forall n :: n in movable * Elems(names[..i]) ==> Shows(trace[i], n, CommitOf(Target(after, n)))
    ensures movable == {} ==> trace[i] == trace[0]
    decreases i
  {
    hide PassMoved, OnlyExpectedMoved, HeadsStayed, Ready, Shows, Moves, Unpinnable, Expected, AreHeads, Enumerates;
    if i == 0 {
      assert names[..0] == [];
      PassStarts(trace[0], peel, heads, movable, before, after);
    } else {
      PassOver(trace, names, all, i - 1, peel, heads, movable, failing, before, after);
      OneMore(names, all, i - 1);
      var n, done := names[i - 1], movable * Elems(names[..i - 1]);
      assert movable * Elems(names[..i]) == if n in movable then done + {n} else done;
      assert Transaction(trace[i - 1], trace[i - 1 + 1], peel, heads, n, movable, failing, before, after);
      if n in movable {
        PassOne(trace[0], trace[i - 1], trace[i], peel, heads, n, done, movable, failing, before, after);
      }
    }
  }

  lemma PassOne(start: Refs, now: Refs, next: Refs, peel: Peel, heads: seq<Ref>, n: RefName, done: set<RefName>,
                movable: set<RefName>, failing: set<RefName>, before: GitRefs, after: GitRefs)
    requires Transaction(now, next, peel, heads, n, movable, failing, before, after)
    requires AreHeads(heads) && n !in done && n in movable
    requires PassMoved(start, now, heads, done, after) && OnlyExpectedMoved(start, now, peel, done, before)
    requires HeadsStayed(start, now, peel, heads)
    requires failing == {} && Ready(start, peel, movable, before) ==>
               forall m :: m in done ==> Shows(now, m, CommitOf(Target(after, m)))
    ensures PassMoved(start, next, heads, done + {n}, after) && OnlyExpectedMoved(start, next, peel, done + {n}, before)
    ensures HeadsStayed(start, next, peel, heads)
    ensures failing == {} && Ready(start, peel, movable, before) ==>
              forall m :: m in done + {n} ==> Shows(next, m, CommitOf(Target(after, m)))
  {
    hide PassMoved, OnlyExpectedMoved, HeadsStayed, Ready, Shows, Moves, Unpinnable, Expected, AreHeads;
    var moved := n !in failing && Expected(now, peel, n, CommitOf(Target(before, n)))
                 && Unpinnable(now, peel, heads, n);
    PassStep(start, now, next, peel, heads, done, n, CommitOf(Target(before, n)), after, moved);
    ExpectedStep(start, now, next, peel, heads, done, n, before, after, moved);
    if failing == {} && Ready(start, peel, movable, before) {
      ReadyMoves(start, now, peel, heads, done, movable, before, after, n);
      ShowsStay(now, next, peel, heads, n, CommitOf(Target(after, n)), done, after, moved);
    }
  }
}
