/** Finite graphs of content-addressed nodes with parent links: the op log and
    the commit history are two of them. Ids are numbers; the all-zero id, shared
    by jj's root operation and its virtual root commit, is 0.

    An ancestor is defined without paths: `a` is `x` or one of its ancestors when
    every set that contains `x` and is closed under parents contains `a`. */
module Dag {
  type Id = nat
  type Graph = map<Id, seq<Id>>

  const ROOT: Id := 0

  /** Parents of a node; a node the graph lacks is a boundary. */
  function Parents(g: Graph, x: Id): seq<Id> {
    if x in g then g[x] else []
  }

  ghost predicate Closed(g: Graph, c: set<Id>) {
    forall x, p :: x in c && p in Parents(g, x) ==> p in c
  }

  ghost predicate Ancestor(g: Graph, a: Id, x: Id) {
    forall c: set<Id> :: x in c && Closed(g, c) ==> a in c
  }

  ghost predicate StrictAncestor(g: Graph, a: Id, x: Id) {
    exists p :: p in Parents(g, x) && Ancestor(g, a, p)
  }

  ghost predicate Acyclic(g: Graph) {
    forall x :: !StrictAncestor(g, x, x)
  }

  ghost predicate AncestorOfAny(g: Graph, a: Id, xs: set<Id>) {
    exists x :: x in xs && Ancestor(g, a, x)
  }

  /** Every node a walk from `xs` can meet. */
  ghost function Span(g: Graph, xs: set<Id>): set<Id> {
    xs + g.Keys + set y, p | y in g.Keys && p in g[y] :: p
  }

  ghost function Ancestors(g: Graph, xs: set<Id>): set<Id> {
    set a | a in Span(g, xs) && AncestorOfAny(g, a, xs)
  }

  lemma AncestorsExact(g: Graph, xs: set<Id>)
    ensures forall a :: a in Ancestors(g, xs) <==> AncestorOfAny(g, a, xs)
    ensures xs <= Ancestors(g, xs)
    ensures Closed(g, Ancestors(g, xs))
  {
    assert Closed(g, Span(g, xs));
    forall x | x in xs ensures x in Ancestors(g, xs) {
      assert Ancestor(g, x, x);
    }
    forall y, p | y in Ancestors(g, xs) && p in Parents(g, y) ensures p in Ancestors(g, xs) {
      var x :| x in xs && Ancestor(g, y, x);
      ParentStep(g, p, y, x);
    }
  }

  lemma ParentStep(g: Graph, p: Id, y: Id, x: Id)
    requires p in Parents(g, y) && Ancestor(g, y, x)
    ensures Ancestor(g, p, x)
  {
  }

  lemma Transitive(g: Graph, a: Id, b: Id, c: Id)
    requires Ancestor(g, a, b) && Ancestor(g, b, c)
    ensures Ancestor(g, a, c)
  {
  }

  lemma InClosed(g: Graph, a: Id, x: Id, c: set<Id>)
    requires Ancestor(g, a, x) && x in c && Closed(g, c)
    ensures a in c
  {
  }

  /** An ancestor is the node itself or an ancestor of one of its parents. */
  lemma AncestorCases(g: Graph, a: Id, x: Id)
    requires Ancestor(g, a, x)
    ensures a == x || StrictAncestor(g, a, x)
  {
    var ps := set p | p in Parents(g, x);
    AncestorsExact(g, ps);
    var c := {x} + Ancestors(g, ps);
    assert Closed(g, c) by {
      forall y, p | y in c && p in Parents(g, y) ensures p in c {
        if y == x { assert p in ps; }
      }
    }
    InClosed(g, a, x, c);
  }

  lemma StrictIsAncestor(g: Graph, a: Id, x: Id)
    requires StrictAncestor(g, a, x)
    ensures Ancestor(g, a, x)
  {
    var p :| p in Parents(g, x) && Ancestor(g, a, p);
    assert Ancestor(g, x, x);
    ParentStep(g, p, x, x);
  }

  lemma StrictCycle(g: Graph, a: Id, b: Id)
    requires StrictAncestor(g, a, b) && Ancestor(g, b, a)
    ensures StrictAncestor(g, b, b)
  {
    var p :| p in Parents(g, b) && Ancestor(g, a, p);
    Transitive(g, b, a, p);
  }

  /** In an acyclic graph no two distinct nodes are ancestors of each other. */
  lemma AntiSymmetric(g: Graph, a: Id, b: Id)
    requires Acyclic(g)
    requires Ancestor(g, a, b) && Ancestor(g, b, a)
    ensures a == b
  {
    AncestorCases(g, a, b);
    if StrictAncestor(g, a, b) {
      StrictCycle(g, a, b);
    }
  }

  /** Growing the graph keeps every ancestry. */
  lemma Monotone(g: Graph, g': Graph, a: Id, x: Id)
    requires forall y :: y in g ==> y in g' && g'[y] == g[y]
    requires Ancestor(g, a, x)
    ensures Ancestor(g', a, x)
  {
    forall c: set<Id> | x in c && Closed(g', c) ensures a in c {
      forall y, p | y in c && p in Parents(g, y) ensures p in c {
        assert p in Parents(g', y);
      }
      assert Closed(g, c);
    }
  }

  /** A store whose nodes have their parents stored, the root aside. */
  ghost predicate ParentClosed(g: Graph) {
    forall x, p :: x in g && p in g[x] ==> p in g || p == ROOT
  }

  /** Writing a node after its parents invents no ancestry between the others. */
  lemma NewNodeReflects(g: Graph, n: Id, ps: seq<Id>, a: Id, x: Id)
    requires ParentClosed(g) && n !in g && n != ROOT && ROOT !in g
    requires x in g || x == ROOT
    requires Ancestor(g[n := ps], a, x)
    ensures Ancestor(g, a, x)
    ensures a in g || a == ROOT
  {
    var g' := g[n := ps];
    var base := g.Keys + {ROOT};
    assert Closed(g', base) by {
      forall y, p | y in base && p in Parents(g', y) ensures p in base {
        assert y in g && p in g[y];
      }
    }
    forall c: set<Id> | x in c && Closed(g, c) ensures a in c {
      var c' := c * base;
      forall y, p | y in c' && p in Parents(g', y) ensures p in c' {
        assert p in Parents(g, y);
      }
      assert Closed(g', c');
    }
  }

  lemma NewNodeReflectsCycle(g: Graph, n: Id, ps: seq<Id>, x: Id)
    requires ParentClosed(g) && n !in g && n != ROOT && ROOT !in g
    requires forall p :: p in ps ==> p in g || p == ROOT
    requires StrictAncestor(g[n := ps], x, x)
    ensures StrictAncestor(g, x, x)
  {
    var p :| p in Parents(g[n := ps], x) && Ancestor(g[n := ps], x, p);
    assert p in g || p == ROOT;
    NewNodeReflects(g, n, ps, x, p);
  }

  lemma NewNodeKeepsAcyclic(g: Graph, n: Id, ps: seq<Id>)
    requires ParentClosed(g) && n !in g && n != ROOT && ROOT !in g
    requires forall p :: p in ps ==> p in g || p == ROOT
    requires Acyclic(g)
    ensures Acyclic(g[n := ps])
    ensures ParentClosed(g[n := ps])
  {
    var g' := g[n := ps];
    forall x ensures !StrictAncestor(g', x, x) {
      if StrictAncestor(g', x, x) {
        NewNodeReflectsCycle(g, n, ps, x);
      }
    }
  }
}
