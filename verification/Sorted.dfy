/** The ascending order in which ordered maps and sets are read. */
module Sorted {
  import opened Collections

  ghost predicate Ascending(s: seq<nat>) {
    forall i, j :: 0 <= i < j < |s| ==> s[i] < s[j]
  }

  ghost predicate IsMin(s: set<nat>, m: nat) {
    m in s && forall x :: x in s ==> m <= x
  }

  lemma HasMin(s: set<nat>)
    requires s != {}
    ensures exists m :: IsMin(s, m)
    decreases s
  {
    var y :| y in s;
    if s == {y} {
      assert IsMin(s, y);
    } else {
      HasMin(s - {y});
      var m :| IsMin(s - {y}, m);
      var least := if y < m then y else m;
      assert forall x :: x in s ==> x == y || x in s - {y};
      assert IsMin(s, least);
    }
  }

  function Min(s: set<nat>): (m: nat)
    requires s != {}
    ensures IsMin(s, m)
  {
    HasMin(s);
    var m :| m in s && forall x :: x in s ==> m <= x;
    m
  }

  lemma Prepend(m: nat, rest: seq<nat>)
    requires Ascending(rest) && forall x :: x in rest ==> m < x
    ensures Ascending([m] + rest)
    ensures forall x :: x in [m] + rest <==> x == m || x in rest
  {
    var s := [m] + rest;
    forall i, j | 0 <= i < j < |s| ensures s[i] < s[j] {
      assert s[j] == rest[j - 1] && rest[j - 1] in rest;
    }
  }

  function Keys(s: set<nat>): (r: seq<nat>)
    ensures Ascending(r) && |r| == |s|
    ensures forall x :: x in r <==> x in s
    decreases s
  {
    if s == {} then []
    else
      var m := Min(s);
      var rest := Keys(s - {m});
      Prepend(m, rest);
      assert |s| == |s - {m}| + 1;
      [m] + rest
  }

  lemma KeysEnumerate(s: set<nat>)
    ensures Enumerates(Keys(s), s)
  {
    hide Keys;
  }
}
