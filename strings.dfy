/** Go's ordering of strings and `sort.Strings`, which the history listing uses
    to put year directories in order. Go compares strings byte by byte; UTF-8
    preserves the order of code points, so comparing `char`s (Unicode scalar
    values) gives the same order. */
module Strings {

  /** `a < b` on Go strings: lexicographic, a proper prefix comes first. */
  predicate Less(a: string, b: string) {
    if a == [] then b != []
    else b != [] && (a[0] < b[0] || (a[0] == b[0] && Less(a[1..], b[1..])))
  }

  predicate LessEq(a: string, b: string) {
    a == b || Less(a, b)
  }

  lemma {:induction false} LessIrreflexive(a: string)
    ensures !Less(a, a)
  {
    if a != [] {
      LessIrreflexive(a[1..]);
    }
  }

  lemma {:induction false} LessTransitive(a: string, b: string, c: string)
    requires Less(a, b) && Less(b, c)
    ensures Less(a, c)
  {
    if a != [] && a[0] == b[0] && b[0] == c[0] {
      LessTransitive(a[1..], b[1..], c[1..]);
    }
  }

  lemma {:induction false} LessTotal(a: string, b: string)
    requires a != b
    ensures Less(a, b) || Less(b, a)
  {
    if a != [] && b != [] && a[0] == b[0] {
      assert a == [a[0]] + a[1..] && b == [b[0]] + b[1..];
      LessTotal(a[1..], b[1..]);
    }
  }

  lemma LessAsymmetric(a: string, b: string)
    requires Less(a, b)
    ensures !Less(b, a)
  {
    if Less(b, a) {
      LessTransitive(a, b, a);
      LessIrreflexive(a);
    }
  }

  /** Comparing two strings whose first parts have the same length decides on
      the first parts, and on the second parts only when the first parts agree. */
  lemma {:induction false} LessAppend(a: string, c: string, b: string, d: string)
    requires |a| == |b|
    ensures Less(a + c, b + d) <==> Less(a, b) || (a == b && Less(c, d))
  {
    if a != [] {
      assert (a + c)[1..] == a[1..] + c && (b + d)[1..] == b[1..] + d;
      LessAppend(a[1..], c, b[1..], d);
      assert a == [a[0]] + a[1..] && b == [b[0]] + b[1..];
    } else {
      assert a + c == c && b + d == d;
    }
  }

  /** A common first character leaves the comparison to the rest. */
  lemma LessCons(c: char, a: string, b: string)
    ensures Less([c] + a, [c] + b) <==> Less(a, b)
  {
    assert ([c] + a)[1..] == a && ([c] + b)[1..] == b;
  }

  predicate Sorted(s: seq<string>) {
    forall i, j | 0 <= i < j < |s| :: LessEq(s[i], s[j])
  }

  predicate StrictlySorted(s: seq<string>) {
    forall i, j | 0 <= i < j < |s| :: Less(s[i], s[j])
  }

  predicate Distinct<T(==)>(s: seq<T>) {
    forall i, j | 0 <= i < j < |s| :: s[i] != s[j]
  }

  /** A sequence stays sorted when an element no greater than all of it is
      put in front, and strictly so when that element is below all of it. */
  lemma ConsSorted(x: string, s: seq<string>)
    requires Sorted(s) && forall y | y in s :: LessEq(x, y)
    ensures Sorted([x] + s)
    ensures StrictlySorted(s) && (forall y | y in s :: Less(x, y)) ==> StrictlySorted([x] + s)
  {
    assert forall j | 0 < j < |[x] + s| :: ([x] + s)[j] == s[j - 1];
  }

  /** A sequence stays sorted when an element no smaller than all of it is
      put at the end. */
  lemma SnocSorted(s: seq<string>, x: string)
    requires Sorted(s) && forall y | y in s :: LessEq(y, x)
    ensures Sorted(s + [x])
  {
    assert forall i | 0 <= i < |s| :: (s + [x])[i] == s[i];
  }

  /** Everything in a sorted sequence is at least its first element, and
      above any string below that first element. */
  lemma AboveFirst(x: string, s: seq<string>)
    requires Sorted(s) && s != [] && LessEq(x, s[0])
    ensures forall y | y in s :: LessEq(x, y)
    ensures StrictlySorted(s) && x != s[0] ==> forall y | y in s :: Less(x, y)
  {
    forall y | y in s
      ensures LessEq(x, y) && (StrictlySorted(s) && x != s[0] ==> Less(x, y))
    {
      var j :| 0 <= j < |s| && s[j] == y;
      if j > 0 {
        assert LessEq(s[0], s[j]);
        if x != s[0] && s[0] != s[j] {
          LessTransitive(x, s[0], s[j]);
        }
      }
    }
  }

  /** The first element of a sorted sequence is below what inserting a
      larger string into the rest of it gives. */
  lemma HeadBelowInserted(x: string, s: seq<string>, rest: seq<string>)
    requires Sorted(s) && s != [] && Less(s[0], x)
    requires multiset(rest) == multiset(s[1..]) + multiset{x}
    ensures forall y | y in rest :: LessEq(s[0], y)
    ensures StrictlySorted(s) ==> forall y | y in rest :: Less(s[0], y)
  {
    forall y | y in rest
      ensures LessEq(s[0], y) && (StrictlySorted(s) ==> Less(s[0], y))
    {
      assert y in multiset(rest);
      if y != x {
        assert y in multiset(s[1..]);
        var k :| 0 <= k < |s[1..]| && s[1..][k] == y;
        assert s[k + 1] == y;
      }
    }
  }

  /** Inserts `x` into a sorted sequence, keeping it sorted. */
  function Insert(x: string, s: seq<string>): (r: seq<string>)
    requires Sorted(s)
    ensures Sorted(r)
    ensures multiset(r) == multiset(s) + multiset{x}
    ensures StrictlySorted(s) && x !in s ==> StrictlySorted(r)
  {
    if s == [] then
      [x]
    else if LessEq(x, s[0]) then
      AboveFirst(x, s);
      ConsSorted(x, s);
      [x] + s
    else
      assert s == [s[0]] + s[1..];
      assert StrictlySorted(s) && x !in s ==> StrictlySorted(s[1..]) && x !in s[1..];
      var rest := Insert(x, s[1..]);
      LessTotal(x, s[0]);
      HeadBelowInserted(x, s, rest);
      ConsSorted(s[0], rest);
      [s[0]] + rest
  }

  /** `sort.Strings`: a sorted permutation of its input. */
  function Sort(s: seq<string>): (r: seq<string>)
    ensures Sorted(r)
    ensures multiset(r) == multiset(s)
    ensures Distinct(s) ==> StrictlySorted(r)
  {
    if s == [] then
      []
    else
      assert s == [s[0]] + s[1..];
      var rest := Sort(s[1..]);
      assert Distinct(s) ==> s[0] !in multiset(rest);
      Insert(s[0], rest)
  }

  /** Two strings given in descending order come out swapped. */
  lemma SortOfTwo(a: string, b: string)
    requires Less(b, a)
    ensures Sort([a, b]) == [b, a]
  {
    LessAsymmetric(b, a);
    assert [a, b][1..] == [b] && [b][1..] == [];
    assert Sort([b]) == [b];
    assert Insert(a, [b]) == [b] + Insert(a, [b][1..]);
  }

  lemma {:induction false} SortOfSorted(s: seq<string>)
    requires Sorted(s)
    ensures Sort(s) == s
  {
    if s != [] {
      SortOfSorted(s[1..]);
    }
  }
}
