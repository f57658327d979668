/** The haves a fetch names: local heads, and ancestors at exponentially growing
    first-parent distances. */
module Sampling {
  import opened Collections
  import Dag
  import Sorted
  import opened OpLog
  import opened OpWalks
  import S = ServeOps

  const SAMPLE_BUDGET := 128
  const MAX_HAVES := 256

  /** The first parent of an op, the root aside. */
  function FirstParent(ops: Ops, x: OpId): Option<OpId> {
    if x in ops && ops[x].parents != [] && ops[x].parents[0] != ROOT_OP then Some(ops[x].parents[0]) else None
  }

  /** The op `d` first-parent steps below `x`. */
  ghost function Nth(ops: Ops, x: OpId, d: nat): Option<OpId> {
    if d == 0 then Some(x)
    else match Nth(ops, x, d - 1)
         case None => None
         case Some(y) => FirstParent(ops, y)
  }

  ghost predicate StepAt(ops: Ops, path: seq<OpId>, i: nat)
    requires i + 1 < |path|
  {
    path[i] in ops && ops[path[i]].parents != [] && ops[path[i]].parents[0] == path[i + 1] != ROOT_OP
  }

  /** Following first parents down to depth `d` arrives at the `d`-th op. */
  lemma {:induction false} NthIsPath(ops: Ops, path: seq<OpId>, d: nat)
    requires d < |path| && forall i :: 0 <= i < d ==> StepAt(ops, path, i)
    ensures Nth(ops, path[0], d) == Some(path[d])
    decreases d
  {
    if d > 0 {
      NthIsPath(ops, path, d - 1);
      assert StepAt(ops, path, d - 1);
    }
  }

  ghost function Pow2(j: nat): nat {
    if j == 0 then 1 else 2 * Pow2(j - 1)
  }

  lemma {:induction false} Pow2Grows(i: nat, j: nat)
    requires i <= j
    ensures 1 <= Pow2(i) <= Pow2(j)
    decreases j
  {
    if i < j {
      Pow2Grows(i, j - 1);
    } else if i > 0 {
      Pow2Grows(i - 1, j - 1);
    }
  }

  lemma {:induction false} ChainEnds(ops: Ops, x: OpId, d: nat, e: nat)
    requires d <= e && Nth(ops, x, d).None?
    ensures Nth(ops, x, e).None?
    decreases e
  {
    if d < e {
      ChainEnds(ops, x, d, e - 1);
    }
  }

  ghost predicate OnChain(ops: Ops, heads: seq<OpId>, x: OpId) {
    exists h, d :: h in heads && Nth(ops, h, d) == Some(x)
  }

  /** A first-parent ancestor at a distance that is a power of two. */
  ghost predicate OnPower(ops: Ops, head: OpId, x: OpId) {
    exists j: nat :: Nth(ops, head, Pow2(j)) == Some(x)
  }

  ghost predicate IsSample(ops: Ops, heads: seq<OpId>, x: OpId) {
    exists h :: h in heads && OnPower(ops, h, x)
  }

  /** Sampled down the chain of one head, as far as depth `upTo`. */
  ghost predicate Sampled(ops: Ops, head: OpId, upTo: nat, haves: set<OpId>) {
    forall j :: Pow2(j) <= upTo && Nth(ops, head, Pow2(j)).Some? ==> Nth(ops, head, Pow2(j)).value in haves
  }

  /** One head's samples, within the budget left. `None` when an op on the way
      cannot be read. */
  method SampleHead(ops: Ops, head: OpId, budget: nat) returns (samples: Option<seq<OpId>>, left: nat)
    ensures left <= budget
    ensures samples.Some? ==> |samples.value| <= budget - left
    ensures samples.Some? ==> forall x :: x in samples.value ==> OnPower(ops, head, x)
    ensures samples.Some? ==> Sampled(ops, head, budget, Elems(samples.value))
    ensures samples.Some? ==> Nth(ops, head, budget - left).Some?
    ensures samples.Some? && left > 0 ==>
              Nth(ops, head, budget - left + 1).None? && HasOp(ops, Nth(ops, head, budget - left).value)
    ensures HasOp(ops, head) && Dag.ParentClosed(GraphOf(ops)) ==> samples.Some?
  {
    var current, depth, next := head, 0, 1;
    var found: seq<OpId> := [];
    left := budget;
    ghost var j := 0;
    while left > 0
      invariant depth + left == budget && |found| <= depth
      invariant Nth(ops, head, depth) == Some(current)
      invariant next == Pow2(j) && depth < next
      invariant forall i :: 0 <= i < j ==> Nth(ops, head, Pow2(i)).Some? && Nth(ops, head, Pow2(i)).value in found
      invariant forall x :: x in found ==> OnPower(ops, head, x)
      invariant HasOp(ops, head) && Dag.ParentClosed(GraphOf(ops)) ==> HasOp(ops, current)
      decreases left
    {
      if !HasOp(ops, current) {
        return None, left;
      }
      var parent := FirstParent(ops, current);
      if parent.None? {
        AllSampled(ops, head, budget, depth, j, found, true);
        return Some(found), left;
      }
      assert Nth(ops, head, depth + 1) == parent;
      FirstParentStored(ops, current);
      current, depth, left := parent.value, depth + 1, left - 1;
      if depth == next {
        assert Nth(ops, head, Pow2(j)) == Some(current);
        found := found + [current];
        next := next * 2;
        j := j + 1;
      }
    }
    AllSampled(ops, head, budget, depth, j, found, false);
    samples := Some(found);
  }

  lemma FirstParentStored(ops: Ops, x: OpId)
    requires FirstParent(ops, x).Some?
    ensures Dag.ParentClosed(GraphOf(ops)) ==> HasOp(ops, FirstParent(ops, x).value)
  {
    var g := GraphOf(ops);
    var p := ops[x].parents[0];
    assert x in g && p in g[x];
    if Dag.ParentClosed(g) {
      assert p in g || p == ROOT_OP;
    }
  }

  lemma AllSampled(ops: Ops, head: OpId, budget: nat, depth: nat, j: nat, found: seq<OpId>, ended: bool)
    requires depth <= budget && depth < Pow2(j)
    requires forall i :: 0 <= i < j ==> Nth(ops, head, Pow2(i)).Some? && Nth(ops, head, Pow2(i)).value in found
    requires if ended then Nth(ops, head, depth + 1).None? else depth == budget
    ensures Sampled(ops, head, budget, Elems(found))
  {
    forall i: nat | Pow2(i) <= budget && Nth(ops, head, Pow2(i)).Some?
      ensures Nth(ops, head, Pow2(i)).value in Elems(found)
    {
      if j <= i {
        Pow2Grows(j, i);
        ChainEnds(ops, head, depth + 1, Pow2(i));
      }
    }
  }

  lemma SampledMore(ops: Ops, head: OpId, upTo: nat, a: set<OpId>, b: set<OpId>)
    requires Sampled(ops, head, upTo, a) && a <= b
    ensures Sampled(ops, head, upTo, b)
  {
  }

  /** The budget is shared by the heads, each using up as much of what is left as its
      chain is long. */
  ghost predicate Spends(ops: Ops, heads: seq<OpId>, lefts: seq<nat>) {
    && |lefts| == |heads| + 1 && lefts[0] == SAMPLE_BUDGET
    && forall i :: 0 <= i < |heads| ==> SpendsOn(ops, heads[i], lefts[i], lefts[i + 1])
  }

  ghost predicate SpendsOn(ops: Ops, head: OpId, budget: nat, left: nat) {
    && left <= budget && Nth(ops, head, budget - left).Some?
    && (left > 0 ==> Nth(ops, head, budget - left + 1).None?)
  }

  lemma SpendsMore(ops: Ops, heads: seq<OpId>, lefts: seq<nat>, i: nat, left: nat)
    requires i < |heads| && Spends(ops, heads[..i], lefts) && SpendsOn(ops, heads[i], lefts[i], left)
    ensures Spends(ops, heads[..i + 1], lefts + [left])
  {
    hide SpendsOn;
  }

  /** Local heads and their samples, sorted, without duplicates, cut at the cap. */
  method SampleHaves(ops: Ops, heads: seq<OpId>) returns (haves: Option<seq<OpId>>, ghost lefts: seq<nat>)
    ensures haves.Some? ==> |haves.value| <= MAX_HAVES && Sorted.Ascending(haves.value)
    ensures haves.Some? ==> forall x :: x in haves.value ==> x in heads || IsSample(ops, heads, x)
    ensures haves.Some? ==> Spends(ops, heads, lefts)
    ensures haves.Some? && |heads| <= MAX_HAVES - SAMPLE_BUDGET ==>
              Elems(heads) <= Elems(haves.value)
              && forall i :: 0 <= i < |heads| ==> Sampled(ops, heads[i], lefts[i], Elems(haves.value))
    ensures haves.Some? ==> Min(|Elems(heads)|, MAX_HAVES) <= |haves.value|
    ensures (forall h :: h in heads ==> HasOp(ops, h)) && Dag.ParentClosed(GraphOf(ops)) ==> haves.Some?
  {
    hide Sampled, Nth, Dag.ParentClosed, IsSample, OnPower, Sorted.Ascending, Spends;
    var all, budget := heads, SAMPLE_BUDGET;
    lefts := [SAMPLE_BUDGET];
    NothingSpent(ops, heads);
    for i := 0 to |heads|
      invariant 0 <= budget <= SAMPLE_BUDGET && |all| + budget <= |heads| + SAMPLE_BUDGET
      invariant Elems(heads) <= Elems(all)
      invariant |lefts| == i + 1 && lefts[i] == budget && Spends(ops, heads[..i], lefts)
      invariant forall k :: 0 <= k < i ==> Sampled(ops, heads[k], lefts[k], Elems(all))
      invariant forall x :: x in all ==> x in heads || IsSample(ops, heads, x)
    {
      var samples, left := SampleHead(ops, heads[i], budget);
      if samples.None? {
        return None, lefts;
      }
      AddSamples(ops, heads, i, all, samples.value, lefts);
      SpendsMore(ops, heads, lefts, i, left);
      all, budget, lefts := all + samples.value, left, lefts + [left];
    }
    assert heads[..|heads|] == heads;
    MembersCount(all);
    SubsetSize(Elems(heads), Elems(all));
    haves := Some(SortedCut(all));
  }

  lemma NothingSpent(ops: Ops, heads: seq<OpId>)
    ensures Spends(ops, heads[..0], [SAMPLE_BUDGET])
  {
  }

  lemma AddSamples(ops: Ops, heads: seq<OpId>, i: nat, all: seq<OpId>, samples: seq<OpId>, lefts: seq<nat>)
    requires i < |heads| && |lefts| == i + 1 && forall x :: x in all ==> x in heads || IsSample(ops, heads, x)
    requires forall x :: x in samples ==> OnPower(ops, heads[i], x)
    requires Sampled(ops, heads[i], lefts[i], Elems(samples))
    requires forall k :: 0 <= k < i ==> Sampled(ops, heads[k], lefts[k], Elems(all))
    ensures forall x :: x in all + samples ==> x in heads || IsSample(ops, heads, x)
    ensures Elems(all) <= Elems(all + samples)
    ensures forall k :: 0 <= k <= i ==> Sampled(ops, heads[k], lefts[k], Elems(all + samples))
  {
    hide Sampled, OnPower;
    MembersAppend(all, samples);
    assert heads[i] in heads;
    forall k | 0 <= k <= i ensures Sampled(ops, heads[k], lefts[k], Elems(all + samples)) {
      SampledMore(ops, heads[k], lefts[k], if k == i then Elems(samples) else Elems(all), Elems(all + samples));
    }
  }

  function Min(a: nat, b: nat): nat {
    if a < b then a else b
  }

  /** Sorted, without duplicates, cut at the cap: the smallest ids stay. */
  function SortedCut(all: seq<OpId>): (r: seq<OpId>)
    ensures |r| == Min(|Elems(all)|, MAX_HAVES) && Sorted.Ascending(r)
    ensures forall x :: x in r ==> x in all
    ensures forall x, y :: x in r && y in all && y !in r ==> x < y
    ensures |Elems(all)| <= MAX_HAVES ==> Elems(r) == Elems(all)
  {
    var sorted := Sorted.Keys(Visit(all));
    assert forall x :: x in sorted <==> x in all;
    assert Visit(all) == Elems(all);
    if |sorted| <= MAX_HAVES then sorted
    else
      assert forall x :: x in sorted[..MAX_HAVES] ==> x in sorted;
      assert forall y :: y in sorted && y !in sorted[..MAX_HAVES] ==> y in sorted[MAX_HAVES..];
      sorted[..MAX_HAVES]
  }

  /** Every have lies on the first-parent chain of a head. */
  lemma HavesOnChain(ops: Ops, heads: seq<OpId>, x: OpId)
    requires x in heads || IsSample(ops, heads, x)
    ensures OnChain(ops, heads, x)
  {
    if x in heads {
      assert Nth(ops, x, 0) == Some(x);
    } else {
      var h :| h in heads && OnPower(ops, h, x);
      var j: nat :| Nth(ops, h, Pow2(j)) == Some(x);
    }
  }

  lemma {:induction false} MembersCount(s: seq<OpId>)
    ensures |Elems(s)| <= |s|
    decreases |s|
  {
    if s != [] {
      MembersCount(s[..|s| - 1]);
      MembersAppend(s[..|s| - 1], [s[|s| - 1]]);
      MembersOne(s[|s| - 1]);
      assert s == s[..|s| - 1] + [s[|s| - 1]];
    }
  }

  /** Every have of a stored op log is stored: a have is a head or one of its
      ancestors. */
  lemma {:induction false} ChainIsAncestry(ops: Ops, x: OpId, d: nat)
    requires Nth(ops, x, d).Some?
    ensures Dag.Ancestor(GraphOf(ops), Nth(ops, x, d).value, x)
    decreases d
  {
    if d > 0 {
      ChainIsAncestry(ops, x, d - 1);
      var y := Nth(ops, x, d - 1).value;
      Dag.ParentStep(GraphOf(ops), Nth(ops, x, d).value, y, x);
    }
  }

  /** A power of two lies between `k` and its double. */
  lemma {:induction false} Pow2Between(k: nat) returns (j: nat)
    requires k >= 1
    ensures k <= Pow2(j) <= 2 * k - 1
    decreases k
  {
    if k == 1 {
      j := 0;
    } else {
      var h := (k + 1) / 2;
      var i := Pow2Between(h);
      if k <= Pow2(i) {
        j := i;
      } else {
        j := i + 1;
      }
    }
  }

  /** From a depth the server knows, it knows the rest of the chain, linked alike. */
  lemma {:induction false} ChainKnown(fetcher: Ops, fviews: Views, server: Ops, sviews: Views, head: OpId, k: nat,
                                      d: nat)
    requires S.WellFormed(server, sviews) && S.WellFormed(fetcher, fviews) && Agree(server, fetcher)
    requires k <= d && Nth(fetcher, head, d).Some?
    requires Nth(fetcher, head, k).Some? ==> HasOp(server, Nth(fetcher, head, k).value)
    ensures Nth(fetcher, head, k).Some? && HasOp(server, Nth(fetcher, head, d).value)
    ensures Dag.Ancestor(GraphOf(server), Nth(fetcher, head, d).value, Nth(fetcher, head, k).value)
    decreases d
  {
    if k < d {
      ChainKnown(fetcher, fviews, server, sviews, head, k, d - 1);
      StepKnown(fetcher, server, sviews, Nth(fetcher, head, d - 1).value);
      Dag.ParentStep(GraphOf(server), Nth(fetcher, head, d).value, Nth(fetcher, head, d - 1).value,
                     Nth(fetcher, head, k).value);
    }
  }

  lemma StepKnown(fetcher: Ops, server: Ops, sviews: Views, y: OpId)
    requires S.WellFormed(server, sviews) && Agree(server, fetcher)
    requires HasOp(server, y) && FirstParent(fetcher, y).Some? && y != ROOT_OP
    ensures FirstParent(fetcher, y).value in Dag.Parents(GraphOf(server), y)
    ensures HasOp(server, FirstParent(fetcher, y).value)
  {
    var g := GraphOf(server);
    var p := FirstParent(fetcher, y).value;
    assert y in g && p in g[y];
    assert p in g || p == ROOT_OP;
  }

  /** When the first-parent chain of the only head meets the server's history at
      depth `k`, the server resends at most `k - 1` ops of the chain the fetcher
      holds: those between the meeting point and the next sample. */
  lemma ResentBound(fetcher: Ops, fviews: Views, server: Ops, sviews: Views, head: OpId, haves: seq<OpId>,
                    wants: seq<OpId>, k: nat, d: nat)
    requires S.WellFormed(server, sviews) && S.WellFormed(fetcher, fviews) && Agree(server, fetcher)
    requires 1 <= k <= SAMPLE_BUDGET && Sampled(fetcher, head, SAMPLE_BUDGET, Elems(haves))
    requires Nth(fetcher, head, k).Some? && HasOp(server, Nth(fetcher, head, k).value)
    requires forall e :: 0 <= e < k && Nth(fetcher, head, e).Some? ==> !HasOp(server, Nth(fetcher, head, e).value)
    requires forall w :: w in wants ==> HasOp(server, w)
    requires Nth(fetcher, head, d).Some? && S.Delta(server, wants, haves, Nth(fetcher, head, d).value)
    ensures k <= d < k + (k - 1)
  {
    DeltaStored(server, sviews, wants, haves, Nth(fetcher, head, d).value);
    var j := Pow2Between(k);
    Pow2Values(j);
    if Pow2(j) <= d {
      BelowSample(fetcher, fviews, server, sviews, head, haves, wants, k, j, d);
    }
  }

  /** What lies below a known sample is not resent. */
  lemma BelowSample(fetcher: Ops, fviews: Views, server: Ops, sviews: Views, head: OpId, haves: seq<OpId>,
                    wants: seq<OpId>, k: nat, j: nat, d: nat)
    requires S.WellFormed(server, sviews) && S.WellFormed(fetcher, fviews) && Agree(server, fetcher)
    requires k <= Pow2(j) <= SAMPLE_BUDGET && Sampled(fetcher, head, SAMPLE_BUDGET, Elems(haves))
    requires Nth(fetcher, head, k).Some? && HasOp(server, Nth(fetcher, head, k).value)
    requires Pow2(j) <= d && Nth(fetcher, head, d).Some?
    ensures !S.Delta(server, wants, haves, Nth(fetcher, head, d).value)
  {
    if Nth(fetcher, head, Pow2(j)).None? {
      ChainEnds(fetcher, head, Pow2(j), d);
    }
    var y := Nth(fetcher, head, Pow2(j)).value;
    ChainKnown(fetcher, fviews, server, sviews, head, k, Pow2(j));
    ChainKnown(fetcher, fviews, server, sviews, head, Pow2(j), d);
    assert y in S.Known(server, haves);
  }

  lemma Pow2Values(j: nat)
    ensures j <= 7 ==> Pow2(j) <= 128
    ensures j >= 8 ==> Pow2(j) >= 256
  {
    assert Pow2(4) == 16 && Pow2(7) == 128 && Pow2(8) == 256;
    if j <= 7 {
      Pow2Grows(j, 7);
    } else {
      Pow2Grows(8, j);
    }
  }

  lemma DeltaStored(server: Ops, sviews: Views, wants: seq<OpId>, haves: seq<OpId>, x: OpId)
    requires S.WellFormed(server, sviews) && S.Delta(server, wants, haves, x)
    requires forall w :: w in wants ==> HasOp(server, w)
    ensures HasOp(server, x)
  {
    var g := GraphOf(server);
    var w :| w in Elems(wants) && Dag.Ancestor(g, x, w);
    assert Dag.Closed(g, g.Keys + {ROOT_OP});
    Dag.InClosed(g, x, w, g.Keys + {ROOT_OP});
  }
}
