/** `OrderBy(t => t)` on strings, and why sorting both role lists and
    comparing them element by element is the same as comparing them as
    multisets. */
module Ordering {

  /** Ordinal (code point by code point) lexicographic order; a prefix comes
      first. */
  predicate Le(a: string, b: string) {
    if |a| == 0 then true
    else if |b| == 0 then false
    else if a[0] != b[0] then a[0] < b[0]
    else Le(a[1..], b[1..])
  }

  lemma {:induction false} LeReflexive(a: string)
    ensures Le(a, a)
  {
    if |a| > 0 { LeReflexive(a[1..]); }
  }

  lemma {:induction false} LeAntisymmetric(a: string, b: string)
    requires Le(a, b) && Le(b, a)
    ensures a == b
  {
    if |a| > 0 && |b| > 0 {
      LeAntisymmetric(a[1..], b[1..]);
      assert a == [a[0]] + a[1..] && b == [b[0]] + b[1..];
    }
  }

  lemma {:induction false} LeTransitive(a: string, b: string, c: string)
    requires Le(a, b) && Le(b, c)
    ensures Le(a, c)
  {
    if |a| > 0 && |b| > 0 && |c| > 0 && a[0] == b[0] == c[0] {
      LeTransitive(a[1..], b[1..], c[1..]);
    }
  }

  lemma {:induction false} LeTotal(a: string, b: string)
    ensures Le(a, b) || Le(b, a)
  {
    if |a| > 0 && |b| > 0 && a[0] == b[0] {
      LeTotal(a[1..], b[1..]);
    }
  }

  predicate Sorted(s: seq<string>) {
    forall i, j :: 0 <= i < j < |s| ==> Le(s[i], s[j])
  }

  /** Places `x` before the first element it does not exceed. */
  function Insert(x: string, s: seq<string>): (r: seq<string>)
    requires Sorted(s)
    ensures Sorted(r)
    ensures multiset(r) == multiset(s) + multiset{x}
  {
    if |s| == 0 then [x]
    else if Le(x, s[0]) then
      assert forall j :: 0 <= j < |s| ==> Le(x, s[j]) by {
        forall j | 0 <= j < |s| ensures Le(x, s[j]) {
          if j > 0 { LeTransitive(x, s[0], s[j]); }
        }
      }
      [x] + s
    else
      var rest := Insert(x, s[1..]);
      LeTotal(x, s[0]);
      assert s == [s[0]] + s[1..];
      assert forall y :: y in multiset(rest) ==> Le(s[0], y) by {
        forall y | y in multiset(rest) ensures Le(s[0], y) {
          assert y == x || y in s[1..];
        }
      }
      [s[0]] + rest
  }

  /** Enumerable.OrderBy(t => t): a sorted permutation of `s`. */
  function OrderBy(s: seq<string>): (r: seq<string>)
    ensures Sorted(r)
    ensures multiset(r) == multiset(s)
  {
    if |s| == 0 then []
    else
      assert s == [s[0]] + s[1..];
      Insert(s[0], OrderBy(s[1..]))
  }

  /** The head of a sorted sequence is its least element. */
  lemma SortedHeadIsLeast(s: seq<string>, x: string)
    requires Sorted(s) && x in multiset(s)
    ensures Le(s[0], x)
  {
    var k :| 0 <= k < |s| && s[k] == x;
    if k == 0 { LeReflexive(x); }
  }

  lemma HeadAndTail(s: seq<string>)
    requires Sorted(s) && |s| > 0
    ensures Sorted(s[1..])
    ensures multiset(s[1..]) == multiset(s) - multiset{s[0]}
  {
    assert s == [s[0]] + s[1..];
  }

  /** A multiset has exactly one sorted arrangement. */
  lemma {:induction false} SortedUnique(a: seq<string>, b: seq<string>)
    requires Sorted(a) && Sorted(b)
    requires multiset(a) == multiset(b)
    ensures a == b
  {
    assert |a| == |multiset(a)| == |multiset(b)| == |b|;
    if |a| > 0 {
      assert a[0] in multiset(a) && b[0] in multiset(b);
      SortedHeadIsLeast(b, a[0]);
      SortedHeadIsLeast(a, b[0]);
      LeAntisymmetric(a[0], b[0]);
      HeadAndTail(a);
      HeadAndTail(b);
      SortedUnique(a[1..], b[1..]);
      assert forall i :: 0 <= i < |a| ==> a[i] == b[i] by {
        forall i | 0 <= i < |a| ensures a[i] == b[i] {
          if i > 0 { assert a[i] == a[1..][i - 1]; assert b[i] == b[1..][i - 1]; }
        }
      }
    }
  }

  /** Sorting both sides and comparing element by element decides exactly
      multiset equality: order never matters and duplicates count. */
  lemma OrderByEqualIffSameMultiset(a: seq<string>, b: seq<string>)
    ensures OrderBy(a) == OrderBy(b) <==> multiset(a) == multiset(b)
  {
    if multiset(a) == multiset(b) {
      SortedUnique(OrderBy(a), OrderBy(b));
    }
  }
}
