/** Names and their order: strings compare by code point, lists by their first
    difference, a proper prefix first. */
module Order {
  /** Negative, zero or positive, as the first argument is before, equal to or
      after the second. */
  type Cmp<!T> = (T, T) -> int

  ghost predicate IsOrder<T(!new)>(cmp: Cmp<T>) {
    && (forall a, b :: cmp(a, b) == 0 <==> a == b)
    && (forall a, b :: cmp(a, b) < 0 <==> cmp(b, a) > 0)
    && (forall a, b, c :: cmp(a, b) < 0 && cmp(b, c) < 0 ==> cmp(a, c) < 0)
  }

  function Lex<T>(cmp: Cmp<T>, a: seq<T>, b: seq<T>): int
    decreases |a|
  {
    if a == [] then (if b == [] then 0 else -1)
    else if b == [] then 1
    else if cmp(a[0], b[0]) != 0 then cmp(a[0], b[0])
    else Lex(cmp, a[1..], b[1..])
  }

  lemma {:induction false} LexEqual<T(!new)>(cmp: Cmp<T>, a: seq<T>, b: seq<T>)
    requires IsOrder(cmp)
    ensures Lex(cmp, a, b) == 0 <==> a == b
    ensures Lex(cmp, a, b) < 0 <==> Lex(cmp, b, a) > 0
    decreases |a|
  {
    if a != [] && b != [] {
      LexEqual(cmp, a[1..], b[1..]);
      assert a == [a[0]] + a[1..] && b == [b[0]] + b[1..];
    }
  }

  lemma {:induction false} LexTransitive<T(!new)>(cmp: Cmp<T>, a: seq<T>, b: seq<T>, c: seq<T>)
    requires IsOrder(cmp)
    requires Lex(cmp, a, b) < 0 && Lex(cmp, b, c) < 0
    ensures Lex(cmp, a, c) < 0
    decreases |a|
  {
    if a != [] && b != [] && c != [] && a[0] == b[0] && b[0] == c[0] {
      LexTransitive(cmp, a[1..], b[1..], c[1..]);
    }
  }

  /** Lists compare at their first difference, a proper prefix first. */
  lemma {:induction false} LexAt<T(!new)>(cmp: Cmp<T>, a: seq<T>, b: seq<T>, i: nat)
    requires IsOrder(cmp) && i <= |a| && i < |b| && a[..i] == b[..i]
    requires i < |a| ==> cmp(a[i], b[i]) < 0
    ensures Lex(cmp, a, b) < 0
    decreases i
  {
    if i > 0 {
      assert a[0] == a[..i][0] && b[0] == b[..i][0];
      assert a[1..][..i - 1] == a[..i][1..] && b[1..][..i - 1] == b[..i][1..];
      LexAt(cmp, a[1..], b[1..], i - 1);
    }
  }

  function CmpChar(a: char, b: char): int {
    a as int - b as int
  }

  function CmpString(a: string, b: string): int {
    Lex(CmpChar, a, b)
  }

  function CmpStrings(a: seq<string>, b: seq<string>): int {
    Lex(CmpString, a, b)
  }

  lemma StringOrder()
    ensures IsOrder(CmpString)
  {
    assert IsOrder(CmpChar);
    forall a, b ensures CmpString(a, b) == 0 <==> a == b ensures CmpString(a, b) < 0 <==> CmpString(b, a) > 0 {
      LexEqual(CmpChar, a, b);
    }
    forall a, b, c | CmpString(a, b) < 0 && CmpString(b, c) < 0 ensures CmpString(a, c) < 0 {
      LexTransitive(CmpChar, a, b, c);
    }
  }

  lemma StringsOrder()
    ensures IsOrder(CmpStrings)
  {
    StringOrder();
    forall a, b ensures CmpStrings(a, b) == 0 <==> a == b ensures CmpStrings(a, b) < 0 <==> CmpStrings(b, a) > 0 {
      LexEqual(CmpString, a, b);
    }
    forall a, b, c | CmpStrings(a, b) < 0 && CmpStrings(b, c) < 0 ensures CmpStrings(a, c) < 0 {
      LexTransitive(CmpString, a, b, c);
    }
  }

  /** Strings compare at their first difference, a proper prefix first. */
  lemma {:induction false} FirstDifference(p: string, a: string, b: string)
    ensures a != [] ==> CmpString(p, p + a) < 0
    ensures a != [] && b != [] && a[0] != b[0] ==> (CmpString(p + a, p + b) < 0 <==> a[0] < b[0])
    decreases |p|
  {
    if p == [] {
      assert p + a == a && p + b == b;
    } else {
      FirstDifference(p[1..], a, b);
      assert (p + a)[1..] == p[1..] + a && (p + b)[1..] == p[1..] + b;
    }
  }

  ghost predicate IsFirst(s: set<string>, m: string) {
    m in s && forall x :: x in s ==> CmpString(m, x) <= 0
  }

  lemma HasFirst(s: set<string>)
    requires s != {}
    ensures exists m :: IsFirst(s, m)
    decreases s
  {
    StringOrder();
    var y :| y in s;
    if s == {y} {
      assert IsFirst(s, y);
    } else {
      HasFirst(s - {y});
      var m :| IsFirst(s - {y}, m);
      var least := if CmpString(y, m) < 0 then y else m;
      assert forall x :: x in s ==> x == y || x in s - {y};
      FirstOf(s, y, m, least);
    }
  }

  lemma FirstOf(s: set<string>, y: string, m: string, least: string)
    requires y in s && IsFirst(s - {y}, m) && least == if CmpString(y, m) < 0 then y else m
    ensures IsFirst(s, least)
  {
    StringOrder();
    forall x | x in s ensures CmpString(least, x) <= 0 {
      if x != y {
        assert x in s - {y} && CmpString(m, x) <= 0;
      }
    }
  }

  function First(s: set<string>): (m: string)
    requires s != {}
    ensures IsFirst(s, m)
  {
    HasFirst(s);
    StringOrder();
    var m :| m in s && forall x :: x in s ==> CmpString(m, x) <= 0;
    m
  }

  /** A set of strings in the order a sorted collection is read. */
  function Sorted(s: set<string>): (r: seq<string>)
    ensures |r| == |s| && (forall x :: x in r <==> x in s)
    ensures forall i, j :: 0 <= i < j < |r| ==> r[i] != r[j]
    decreases s
  {
    if s == {} then []
    else
      var m := First(s);
      var rest := Sorted(s - {m});
      assert |s| == |s - {m}| + 1;
      assert forall x :: x in [m] + rest <==> x == m || x in rest;
      assert forall j :: 0 <= j < |rest| ==> rest[j] in rest;
      [m] + rest
  }

  /** A sorted collection is read in ascending order. */
  lemma {:induction false} SortedAscending(s: set<string>)
    ensures forall i, j :: 0 <= i < j < |Sorted(s)| ==> CmpString(Sorted(s)[i], Sorted(s)[j]) < 0
    decreases s
  {
    hide CmpString;
    if s != {} {
      var m := First(s);
      var rest := Sorted(s - {m});
      SortedAscending(s - {m});
      StringOrder();
      forall i, j | 0 <= i < j < |Sorted(s)| ensures CmpString(Sorted(s)[i], Sorted(s)[j]) < 0 {
        assert Sorted(s) == [m] + rest && rest[j - 1] in rest;
        if i == 0 {
          assert CmpString(m, rest[j - 1]) <= 0 && rest[j - 1] != m;
        }
      }
    }
  }

  const MAX_NAME_LEN := 64

  function Utf8Len(c: char): nat {
    var p := c as int;
    if p < 0x80 then 1 else if p < 0x800 then 2 else if p < 0x1_0000 then 3 else 4
  }

  function ByteLen(s: string): nat {
    if s == [] then 0 else Utf8Len(s[0]) + ByteLen(s[1..])
  }

  /** Whether a character can hide or reorder text in terminal output. */
  predicate Confusable(c: char) {
    var p := c as int;
    p < 0x20 || 0x7F <= p <= 0x9F || 0x200B <= p <= 0x200F || 0x202A <= p <= 0x202E || 0x2066 <= p <= 0x2069
    || p == 0xFEFF
  }

  predicate ValidName(s: string) {
    s != [] && ByteLen(s) <= MAX_NAME_LEN && forall c :: c in s ==> !Confusable(c)
  }

  lemma {:induction false} ByteLenAdds(a: string, b: string)
    ensures ByteLen(a + b) == ByteLen(a) + ByteLen(b)
    decreases |a|
  {
    if a == [] {
      assert a + b == b;
    } else {
      ByteLenAdds(a[1..], b);
      assert (a + b)[1..] == a[1..] + b;
    }
  }

  /** A name of printable ASCII characters is valid exactly when it has 1 to 64 of
      them; any name with a control character is not. */
  lemma PlainNames(s: string)
    ensures (forall c :: c in s ==> ' ' <= c <= '~') ==> (ValidName(s) <==> 1 <= |s| <= 64)
    ensures (exists c :: c in s && c < ' ') ==> !ValidName(s)
  {
    if forall c :: c in s ==> ' ' <= c <= '~' {
      AsciiLen(s);
    }
  }

  lemma {:induction false} AsciiLen(s: string)
    requires forall c :: c in s ==> c <= '~'
    ensures ByteLen(s) == |s|
    decreases |s|
  {
    if s != [] {
      assert s[0] in s && forall c :: c in s[1..] ==> c in s;
      AsciiLen(s[1..]);
    }
  }
}
