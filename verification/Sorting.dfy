/**
 * The part of Go's sort package the node relies on: `sort.Slice` returns its elements in
 * order. Nothing is used about how it gets there, so results that follow from
 * SortedUnique do not depend on the algorithm.
 */
module Sorting {

  ghost predicate TotalPreorder<T(!new)>(leq: (T, T) -> bool) {
    && (forall x: T, y: T :: leq(x, y) || leq(y, x))
    && (forall x: T, y: T, z: T :: leq(x, y) && leq(y, z) ==> leq(x, z))
  }

  ghost predicate Sorted<T>(s: seq<T>, leq: (T, T) -> bool) {
    forall i, j :: 0 <= i < j < |s| ==> leq(s[i], s[j])
  }

  ghost predicate SortingOf<T>(r: seq<T>, s: seq<T>, leq: (T, T) -> bool) {
    Sorted(r, leq) && multiset(r) == multiset(s)
  }

  function Insert<T>(x: T, s: seq<T>, leq: (T, T) -> bool): seq<T> {
    if s == [] || leq(x, s[0]) then [x] + s else [s[0]] + Insert(x, s[1..], leq)
  }

  function SortSlice<T>(s: seq<T>, leq: (T, T) -> bool): seq<T> {
    if s == [] then [] else Insert(s[0], SortSlice(s[1..], leq), leq)
  }

  lemma InsertedBounded<T>(low: T, x: T, s: seq<T>, rest: seq<T>, leq: (T, T) -> bool)
    requires multiset(rest) == multiset(s) + multiset{x} && leq(low, x)
    requires forall k :: 0 <= k < |s| ==> leq(low, s[k])
    ensures forall k :: 0 <= k < |rest| ==> leq(low, rest[k])
  {
    forall k | 0 <= k < |rest|
      ensures leq(low, rest[k])
    {
      assert rest[k] in multiset(rest);
      assert rest[k] == x || rest[k] in s;
    }
  }

  lemma {:induction false} InsertSorts<T(!new)>(x: T, s: seq<T>, leq: (T, T) -> bool)
    requires TotalPreorder(leq) && Sorted(s, leq)
    ensures Sorted(Insert(x, s, leq), leq) && multiset(Insert(x, s, leq)) == multiset(s) + multiset{x}
    decreases |s|
  {
    if s == [] || leq(x, s[0]) {
      PrependSorted(x, s, leq);
      assert multiset([x] + s) == multiset{x} + multiset(s);
    } else {
      var tail := s[1..];
      var rest := Insert(x, tail, leq);
      assert s == [s[0]] + tail;
      InsertSorts(x, tail, leq);
      InsertedBounded(s[0], x, tail, rest, leq);
      PrependBounded(s[0], rest, leq);
      assert multiset([s[0]] + rest) == multiset{s[0]} + multiset(rest);
    }
  }

  lemma PrependBounded<T>(low: T, rest: seq<T>, leq: (T, T) -> bool)
    requires Sorted(rest, leq) && forall k :: 0 <= k < |rest| ==> leq(low, rest[k])
    ensures Sorted([low] + rest, leq)
  {
  }

  lemma PrependSorted<T(!new)>(x: T, s: seq<T>, leq: (T, T) -> bool)
    requires TotalPreorder(leq) && Sorted(s, leq) && (s == [] || leq(x, s[0]))
    ensures Sorted([x] + s, leq)
  {
    forall k | 0 <= k < |s|
      ensures leq(x, s[k])
    {
      assert leq(x, s[0]) && (k == 0 || leq(s[0], s[k]));
    }
  }

  lemma {:induction false} SortSliceSorts<T(!new)>(s: seq<T>, leq: (T, T) -> bool)
    requires TotalPreorder(leq)
    ensures SortingOf(SortSlice(s, leq), s, leq)
    decreases |s|
  {
    if s != [] {
      SortSliceSorts(s[1..], leq);
      InsertSorts(s[0], SortSlice(s[1..], leq), leq);
      assert s == [s[0]] + s[1..];
    }
  }

  lemma SameMembers<T>(r: seq<T>, t: seq<T>)
    requires multiset(r) == multiset(t)
    ensures |r| == |t| && forall x :: x in r <==> x in t
  {
    assert |r| == |multiset(r)| == |multiset(t)| == |t|;
    forall x
      ensures x in r <==> x in t
    {
      assert x in r <==> x in multiset(r);
      assert x in t <==> x in multiset(t);
    }
  }

  /** The first of a sorted arrangement is the least element. */
  lemma SameHead<T>(r: seq<T>, t: seq<T>, leq: (T, T) -> bool)
    requires |r| > 0 && Sorted(r, leq) && Sorted(t, leq) && multiset(r) == multiset(t)
    requires forall x, y :: x in r && y in r && leq(x, y) && leq(y, x) ==> x == y
    ensures |t| == |r| && r[0] == t[0]
  {
    SameMembers(r, t);
    assert r[0] in t && t[0] in r;
    var i :| 0 <= i < |t| && t[i] == r[0];
    var j :| 0 <= j < |r| && r[j] == t[0];
    if i != 0 && j != 0 {
      assert leq(t[0], t[i]) && leq(r[0], r[j]);
    }
  }

  lemma TailMultiset<T>(r: seq<T>)
    requires |r| > 0
    ensures multiset(r[1..]) == multiset(r) - multiset{r[0]}
  {
    assert r == [r[0]] + r[1..];
  }

  /** Elements no two of which are equivalent have only one sorted arrangement. */
  lemma {:induction false} SortedUnique<T>(r: seq<T>, t: seq<T>, leq: (T, T) -> bool)
    requires Sorted(r, leq) && Sorted(t, leq) && multiset(r) == multiset(t)
    requires forall x, y :: x in r && y in r && leq(x, y) && leq(y, x) ==> x == y
    ensures r == t
    decreases |r|
  {
    SameMembers(r, t);
    if |r| > 0 {
      SameHead(r, t, leq);
      TailMultiset(r);
      TailMultiset(t);
      SortedUnique(r[1..], t[1..], leq);
      assert r == [r[0]] + r[1..] && t == [t[0]] + t[1..];
    }
  }

  ghost predicate NoDuplicates<T>(s: seq<T>) { forall i, j :: 0 <= i < j < |s| ==> s[i] != s[j] }

  lemma {:induction false} OccursOnce<T>(s: seq<T>, x: T)
    requires NoDuplicates(s)
    ensures multiset(s)[x] <= 1
    decreases |s|
  {
    if s != [] {
      var init, last := s[..|s| - 1], s[|s| - 1];
      OccursOnce(init, x);
      assert s == init + [last];
      assert last !in multiset(init);
    }
  }

  /** A permutation of a list without duplicates has none either. */
  lemma PermutedNoDuplicates<T>(s: seq<T>, t: seq<T>)
    requires NoDuplicates(s) && multiset(s) == multiset(t)
    ensures NoDuplicates(t)
  {
    forall i, j | 0 <= i < j < |t|
      ensures t[i] != t[j]
    {
      OccursOnce(s, t[i]);
      assert t == t[..j] + t[j..];
      assert t[i] in multiset(t[..j]) && t[j] in multiset(t[j..]);
    }
  }

  // ----- counting -----

  function Count<T>(s: seq<T>, p: T -> bool): (n: nat)
    ensures n <= |s|
  {
    if s == [] then 0 else (if p(s[0]) then 1 else 0) + Count(s[1..], p)
  }

  lemma {:induction false} CountConcat<T>(s: seq<T>, t: seq<T>, p: T -> bool)
    ensures Count(s + t, p) == Count(s, p) + Count(t, p)
    decreases |s|
  {
    if s == [] {
      assert s + t == t;
    } else {
      assert (s + t)[1..] == s[1..] + t;
      CountConcat(s[1..], t, p);
    }
  }

  lemma {:induction false} CountAll<T>(s: seq<T>, p: T -> bool)
    ensures (forall i :: 0 <= i < |s| ==> p(s[i])) ==> Count(s, p) == |s|
    ensures (forall i :: 0 <= i < |s| ==> !p(s[i])) ==> Count(s, p) == 0
    decreases |s|
  {
    if s != [] {
      CountAll(s[1..], p);
    }
  }

  /** Two properties no element has together are held by at most |s| elements between them. */
  lemma {:induction false} CountDisjoint<T>(s: seq<T>, p: T -> bool, q: T -> bool)
    requires forall x :: x in s ==> !(p(x) && q(x))
    ensures Count(s, p) + Count(s, q) <= |s|
    decreases |s|
  {
    if s != [] {
      CountDisjoint(s[1..], p, q);
    }
  }

  lemma {:induction false} CountImplies<T>(s: seq<T>, p: T -> bool, q: T -> bool)
    requires forall x :: x in s && p(x) ==> q(x)
    ensures Count(s, p) <= Count(s, q)
    decreases |s|
  {
    if s != [] {
      CountImplies(s[1..], p, q);
    }
  }

  lemma {:induction false} CountPermuted<T>(s: seq<T>, t: seq<T>, p: T -> bool)
    requires multiset(s) == multiset(t)
    ensures Count(s, p) == Count(t, p)
    decreases |s|
  {
    SameMembers(s, t);
    if s != [] {
      assert s[0] in t;
      var i :| 0 <= i < |t| && t[i] == s[0];
      var rest := t[..i] + t[i + 1..];
      assert t == t[..i] + [t[i]] + t[i + 1..];
      TailMultiset(s);
      assert multiset(rest) == multiset(s[1..]);
      CountPermuted(s[1..], rest, p);
      CountConcat(t[..i], t[i + 1..], p);
      CountConcat(t[..i] + [t[i]], t[i + 1..], p);
      CountConcat(t[..i], [t[i]], p);
    }
  }
}
