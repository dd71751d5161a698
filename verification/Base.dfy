/** Vocabulary shared by every module: optional values and C-style comparison. */
module Base {

  datatype Option<+T> = None | Some(value: T)

  function Min(a: nat, b: nat): nat {
    if a < b then a else b
  }

  function Max(a: nat, b: nat): nat {
    if a < b then b else a
  }

  // `cmp` behaves like a C comparison callback of a total order whose ties are equalities.
  ghost predicate TotalOrder<T(!new)>(cmp: (T, T) -> int) {
    && (forall x, y :: cmp(x, y) == 0 <==> x == y)
    && (forall x, y :: cmp(x, y) < 0 <==> cmp(y, x) > 0)
    && (forall x, y, z :: cmp(x, y) < 0 && cmp(y, z) < 0 ==> cmp(x, z) < 0)
  }

  // The lexicographic comparison: the first difference decides, a proper prefix is smaller.
  function LexCompare<T>(cmp: (T, T) -> int, a: seq<T>, b: seq<T>): int {
    if a == [] then (if b == [] then 0 else -1)
    else if b == [] then 1
    else if cmp(a[0], b[0]) != 0 then cmp(a[0], b[0])
    else LexCompare(cmp, a[1..], b[1..])
  }

  lemma {:induction false} LexTies<T(!new)>(cmp: (T, T) -> int, a: seq<T>, b: seq<T>)
    requires TotalOrder(cmp)
    ensures LexCompare(cmp, a, b) == 0 <==> a == b
    ensures LexCompare(cmp, a, b) < 0 <==> LexCompare(cmp, b, a) > 0
  {
    if a != [] && b != [] {
      LexTies(cmp, a[1..], b[1..]);
      assert a == [a[0]] + a[1..] && b == [b[0]] + b[1..];
    }
  }

  lemma {:induction false} LexTransitive<T(!new)>(cmp: (T, T) -> int, a: seq<T>, b: seq<T>, c: seq<T>)
    requires TotalOrder(cmp)
    requires LexCompare(cmp, a, b) < 0 && LexCompare(cmp, b, c) < 0
    ensures LexCompare(cmp, a, c) < 0
  {
    if a != [] && b != [] && c != [] && cmp(a[0], b[0]) == 0 && cmp(b[0], c[0]) == 0 {
      LexTransitive(cmp, a[1..], b[1..], c[1..]);
    }
  }

  // string_compare(): strcmp() on NUL-free strings, with NULL (None) below every string.

  function CharCompare(a: char, b: char): int {
    if a < b then -1 else if a > b then 1 else 0
  }

  function StringCompare(a: string, b: string): int {
    LexCompare(CharCompare, a, b)
  }

  function OptionCompare(a: Option<string>, b: Option<string>): int {
    if a == b then 0
    else if a.None? then -1
    else if b.None? then 1
    else StringCompare(a.value, b.value)
  }

  lemma OptionCompareTotalOrder()
    ensures TotalOrder(OptionCompare)
  {
    forall a, b
      ensures OptionCompare(a, b) == 0 <==> a == b
      ensures OptionCompare(a, b) < 0 <==> OptionCompare(b, a) > 0
    {
      if a.Some? && b.Some? {
        LexTies(CharCompare, a.value, b.value);
      }
    }
    forall a, b, c | OptionCompare(a, b) < 0 && OptionCompare(b, c) < 0
      ensures OptionCompare(a, c) < 0
    {
      if a.Some? && b.Some? && c.Some? {
        LexTransitive(CharCompare, a.value, b.value, c.value);
        LexTies(CharCompare, a.value, c.value);
      }
    }
  }

  predicate NoDuplicates<T(==)>(s: seq<T>) {
    forall i, j :: 0 <= i < j < |s| ==> s[i] != s[j]
  }

  lemma NoDuplicatesConcat<T>(a: seq<T>, b: seq<T>)
    requires NoDuplicates(a) && NoDuplicates(b) && forall x :: x in a ==> x !in b
    ensures NoDuplicates(a + b)
  {
    forall i, j | 0 <= i < j < |a + b| ensures (a + b)[i] != (a + b)[j] {
      assert i < |a| ==> (a + b)[i] in a;
      assert j >= |a| ==> (a + b)[j] in b;
    }
  }

  // s with its first occurrence of x cut out
  function Without<T(==)>(s: seq<T>, x: T): (r: seq<T>)
    ensures x !in s ==> r == s
    ensures x in s ==> |r| == |s| - 1
  {
    if s == [] then []
    else if s[0] == x then s[1..]
    else [s[0]] + Without(s[1..], x)
  }

  lemma {:induction false} WithoutMembers<T>(s: seq<T>, x: T)
    requires NoDuplicates(s)
    ensures NoDuplicates(Without(s, x)) && x !in Without(s, x)
    ensures forall y :: y in Without(s, x) <==> y in s && y != x
  {
    if s != [] {
      var t := s[1..];
      assert s == [s[0]] + t;
      assert forall y :: y in s <==> y == s[0] || y in t;
      assert s[0] !in t;
      WithoutMembers(t, x);
    }
  }

  function Elements<T>(s: seq<T>): set<T> {
    set x | x in s
  }

  lemma ElementsSnoc<T>(s: seq<T>, i: nat)
    requires i < |s|
    ensures Elements(s[..i + 1]) == Elements(s[..i]) + {s[i]}
  {
    assert s[..i + 1] == s[..i] + [s[i]];
  }

  // `to` is the list `from` with exactly the members of `more` linked behind it, each once
  ghost predicate Extends<T>(from: seq<T>, to: seq<T>, more: set<T>) {
    NoDuplicates(to) && from <= to && Elements(to) == Elements(from) + more
  }

  // link an entry at the tail of a list unless it is linked there already
  function AddOnce<T(==)>(s: seq<T>, x: T): seq<T> {
    if x in s then s else s + [x]
  }

  lemma AddOnceElements<T>(s: seq<T>, x: T)
    requires NoDuplicates(s)
    ensures Extends(s, AddOnce(s, x), {x})
  {
  }

  lemma ExtendsChain<T>(a: seq<T>, b: seq<T>, c: seq<T>, s: set<T>, t: set<T>)
    requires Extends(a, b, s) && Extends(b, c, t)
    ensures Extends(a, c, s + t)
  {
  }

  lemma ExtendsNone<T>(a: seq<T>)
    requires NoDuplicates(a)
    ensures Extends(a, a, {})
  {
  }

  lemma Distinct<T>(a: seq<T>, b: seq<T>, s: set<T>)
    requires Extends(a, b, s)
    ensures NoDuplicates(b)
  {
  }

  lemma ConcatAssociates<T>(a: seq<T>, b: seq<T>, c: seq<T>)
    ensures a + (b + c) == (a + b) + c
  {
  }
}
