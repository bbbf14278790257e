/** The few LINQ operators the security checks are written with, as functions
    over sequences.  Each keeps the order of its input, like the LINQ-to-objects
    operator it stands for. */
module Linq {

  /** Enumerable.Where: the elements of `s` that satisfy `p`, in order. */
  function Where<T(!new, ==)>(s: seq<T>, p: T -> bool): (r: seq<T>)
    ensures |r| <= |s|
    ensures forall x :: x in r <==> x in s && p(x)
    ensures |r| > 0 ==> exists i :: 0 <= i < |s| && s[i] == r[0] && forall j :: 0 <= j < i ==> !p(s[j])
  {
    if |s| == 0 then []
    else if p(s[0]) then [s[0]] + Where(s[1..], p)
    else
      var r := Where(s[1..], p);
      assert forall x :: x in s[1..] ==> x in s;
      assert |r| > 0 ==> exists i :: 1 <= i < |s| && s[i] == r[0] && forall j :: 1 <= j < i ==> !p(s[j]);
      r
  }

  /** Enumerable.Select: `f` applied to every element, in order. */
  function Select<T, U>(s: seq<T>, f: T -> U): (r: seq<U>)
    ensures |r| == |s|
    ensures forall i :: 0 <= i < |s| ==> r[i] == f(s[i])
  {
    if |s| == 0 then [] else [f(s[0])] + Select(s[1..], f)
  }

  /** Enumerable.All: does every element satisfy `p`?  True of the empty sequence. */
  function All<T(!new, ==)>(s: seq<T>, p: T -> bool): (b: bool)
    ensures b <==> forall x :: x in s ==> p(x)
  {
    if |s| == 0 then true
    else
      assert forall x :: x in s <==> x == s[0] || x in s[1..];
      p(s[0]) && All(s[1..], p)
  }

  /** Select distributes over concatenation. */
  lemma SelectAppend<T, U>(a: seq<T>, b: seq<T>, f: T -> U)
    ensures Select(a + b, f) == Select(a, f) + Select(b, f)
  {
  }

  /** Where distributes over concatenation. */
  lemma {:induction false} WhereAppend<T(!new)>(a: seq<T>, b: seq<T>, p: T -> bool)
    ensures Where(a + b, p) == Where(a, p) + Where(b, p)
  {
    if |a| > 0 {
      assert (a + b)[1..] == a[1..] + b;
      WhereAppend(a[1..], b, p);
    } else {
      assert a + b == b;
    }
  }

  /** Taking out the element at `k` leaves the rest of the multiset. */
  lemma RemoveAt<T>(t: seq<T>, k: nat)
    requires k < |t|
    ensures multiset(t[..k] + t[k + 1..]) == multiset(t) - multiset{t[k]}
  {
    assert t == t[..k] + [t[k]] + t[k + 1..];
    assert multiset(t) == multiset(t[..k]) + multiset{t[k]} + multiset(t[k + 1..]);
  }

  /** Select commutes with taking the sequence apart at `k`. */
  lemma SelectAt<T, U>(t: seq<T>, k: nat, f: T -> U)
    requires k < |t|
    ensures Select(t, f) == Select(t[..k], f) + [f(t[k])] + Select(t[k + 1..], f)
  {
    assert t == t[..k] + t[k..];
    SelectAppend(t[..k], t[k..], f);
    assert t[k..][1..] == t[k + 1..];
  }

  /** One element more in the middle is one element more in the multiset. */
  lemma MultisetMiddle<U>(a: seq<U>, x: U, b: seq<U>)
    ensures multiset(a + [x] + b) == multiset(a + b) + multiset{x}
  {
  }

  /** Mapping after taking out the element at `k` takes out its image. */
  lemma SelectRemoveAt<T, U>(t: seq<T>, k: nat, f: T -> U)
    requires k < |t|
    ensures multiset(Select(t, f)) == multiset(Select(t[..k] + t[k + 1..], f)) + multiset{f(t[k])}
  {
    SelectAt(t, k, f);
    SelectAppend(t[..k], t[k + 1..], f);
    MultisetMiddle(Select(t[..k], f), f(t[k]), Select(t[k + 1..], f));
  }

  /** Taking the same element out of two permutations of each other leaves
      permutations of each other. */
  lemma RemoveSame<T>(s: seq<T>, t: seq<T>, k: nat)
    requires multiset(s) == multiset(t)
    requires 0 < |s| && k < |t| && t[k] == s[0]
    ensures multiset(s[1..]) == multiset(t[..k] + t[k + 1..])
  {
    RemoveAt(t, k);
    RemoveAt(s, 0);
    assert s[..0] + s[1..] == s[1..];
  }

  /** Mapping a sequence does not look at its order: sequences that are
      permutations of each other map to permutations of each other. */
  lemma {:induction false} SelectPermutation<T, U>(s: seq<T>, t: seq<T>, f: T -> U)
    requires multiset(s) == multiset(t)
    ensures multiset(Select(s, f)) == multiset(Select(t, f))
  {
    if |s| == 0 {
      assert |t| == |multiset(t)| == 0;
    } else {
      assert s[0] in multiset(t);
      var k :| 0 <= k < |t| && t[k] == s[0];
      var rest := t[..k] + t[k + 1..];
      RemoveSame(s, t, k);
      SelectPermutation(s[1..], rest, f);
      SelectRemoveAt(t, k, f);
      assert s[..0] + s[1..] == s[1..];
      SelectRemoveAt(s, 0, f);
    }
  }
}
