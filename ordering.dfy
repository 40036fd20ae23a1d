/** The order in which a journal's script names come back from
    `... order by ScriptName`: ordinal lexicographic comparison of strings,
    and the sorted permutation of a list of names. */
module Ordering {

  /** `a` sorts no later than `b`: `a` is a prefix of `b`, or the first
      character where they differ is smaller in `a`. */
  predicate Le(a: string, b: string) {
    a == [] || (b != [] && (a[0] < b[0] || (a[0] == b[0] && Le(a[1..], b[1..]))))
  }

  lemma {:induction false} LeReflexive(a: string)
    ensures Le(a, a)
  {
    if a != [] { LeReflexive(a[1..]); }
  }

  lemma {:induction false} LeTotal(a: string, b: string)
    ensures Le(a, b) || Le(b, a)
  {
    if a != [] && b != [] && a[0] == b[0] { LeTotal(a[1..], b[1..]); }
  }

  lemma {:induction false} LeAntisymmetric(a: string, b: string)
    requires Le(a, b) && Le(b, a)
    ensures a == b
  {
    if a != [] {
      LeAntisymmetric(a[1..], b[1..]);
      assert a == [a[0]] + a[1..] && b == [b[0]] + b[1..];
    }
  }

  lemma {:induction false} LeTransitive(a: string, b: string, c: string)
    requires Le(a, b) && Le(b, c)
    ensures Le(a, c)
  {
    if a != [] && a[0] == b[0] && b[0] == c[0] { LeTransitive(a[1..], b[1..], c[1..]); }
  }

  /** Every name sorts no later than every name after it. */
  predicate Sorted(s: seq<string>) {
    forall i, j :: 0 <= i < j < |s| ==> Le(s[i], s[j])
  }

  /** `x` sorts no later than any name in `s`. */
  predicate AtMost(x: string, s: seq<string>) {
    forall i :: 0 <= i < |s| ==> Le(x, s[i])
  }

  lemma AtMostPermutation(x: string, s: seq<string>, t: seq<string>)
    requires AtMost(x, s) && multiset(t) == multiset(s)
    ensures AtMost(x, t)
  {
    forall i | 0 <= i < |t| ensures Le(x, t[i]) {
      assert t[i] in multiset(s);
      var j :| 0 <= j < |s| && s[j] == t[i];
    }
  }

  /** A name that sorts no later than the first of a sorted list sorts no
      later than all of it. */
  lemma AtMostSorted(x: string, s: seq<string>)
    requires Sorted(s) && s != [] && Le(x, s[0])
    ensures AtMost(x, s)
  {
    forall j | 0 <= j < |s| ensures Le(x, s[j]) {
      if j > 0 { LeTransitive(x, s[0], s[j]); }
    }
  }

  /** A sorted list stays sorted when a name that sorts no later than all of
      it is put in front. */
  lemma SortedCons(x: string, s: seq<string>)
    requires Sorted(s) && AtMost(x, s)
    ensures Sorted([x] + s)
  {
    var r := [x] + s;
    forall i, j | 0 <= i < j < |r| ensures Le(r[i], r[j]) {
      if i == 0 { assert r[j] == s[j - 1]; } else { assert r[i] == s[i - 1] && r[j] == s[j - 1]; }
    }
  }

  /** `x` placed into the sorted list `s`: the result is sorted and holds
      exactly the names of `s` and `x`. */
  function Insert(x: string, s: seq<string>): (r: seq<string>)
    requires Sorted(s)
    ensures Sorted(r)
    ensures multiset(r) == multiset(s) + multiset{x}
  {
    if s == [] then [x]
    else if Le(x, s[0]) then
      AtMostSorted(x, s);
      SortedCons(x, s);
      [x] + s
    else
      SortedTail(s);
      var rest := Insert(x, s[1..]);
      assert AtMost(s[0], rest) by {
        LeTotal(x, s[0]);
        AtMostTail(s, x);
        AtMostPermutation(s[0], s[1..] + [x], rest);
      }
      SortedCons(s[0], rest);
      MultisetTail(s);
      [s[0]] + rest
  }

  /** The first name of a sorted list sorts no later than the rest of it and
      than any name it sorts no later than. */
  lemma AtMostTail(s: seq<string>, x: string)
    requires Sorted(s) && s != [] && Le(s[0], x)
    ensures AtMost(s[0], s[1..] + [x])
  {
    var t := s[1..] + [x];
    forall i | 0 <= i < |t| ensures Le(s[0], t[i]) {
      if i < |s| - 1 { assert t[i] == s[i + 1]; }
    }
  }

  /** The names of `s`, sorted: the result is sorted and is a permutation of `s`. */
  function Sort(s: seq<string>): (r: seq<string>)
    ensures Sorted(r)
    ensures multiset(r) == multiset(s)
  {
    if s == [] then []
    else
      assert s == s[..|s| - 1] + [s[|s| - 1]];
      Insert(s[|s| - 1], Sort(s[..|s| - 1]))
  }

  /** The first name of a sorted list sorts no later than any of its names. */
  lemma SortedHeadFirst(s: seq<string>, x: string)
    requires Sorted(s) && x in multiset(s)
    ensures Le(s[0], x)
  {
    var j :| 0 <= j < |s| && s[j] == x;
    if j == 0 { LeReflexive(x); }
  }

  lemma SortedTail(s: seq<string>)
    requires Sorted(s) && s != []
    ensures Sorted(s[1..])
  {
    assert forall i, j :: 0 <= i < j < |s| - 1 ==> s[1..][i] == s[i + 1] && s[1..][j] == s[j + 1];
  }

  lemma MultisetTail(s: seq<string>)
    requires s != []
    ensures multiset(s[1..]) == multiset(s) - multiset{s[0]}
  {
    assert s == [s[0]] + s[1..];
  }

  /** There is only one sorted arrangement of a collection of names, so any
      two sorted lists with the same names are equal. */
  lemma {:induction false} SortedUnique(a: seq<string>, b: seq<string>)
    requires Sorted(a) && Sorted(b) && multiset(a) == multiset(b)
    ensures a == b
  {
    if a != [] {
      assert |b| == |a| by { assert |multiset(a)| == |a| && |multiset(b)| == |b|; }
      assert a[0] in multiset(b) && b[0] in multiset(a);
      SortedHeadFirst(b, a[0]);
      SortedHeadFirst(a, b[0]);
      LeAntisymmetric(a[0], b[0]);
      MultisetTail(a);
      MultisetTail(b);
      SortedTail(a);
      SortedTail(b);
      SortedUnique(a[1..], b[1..]);
      assert a == [a[0]] + a[1..] && b == [b[0]] + b[1..];
    }
  }

  /** Sorting a list that is already sorted leaves it as it is. */
  lemma SortSorted(s: seq<string>)
    requires Sorted(s)
    ensures Sort(s) == s
  {
    SortedUnique(Sort(s), s);
  }

  /** The result of sorting depends only on which names there are, not on
      the order they were given in. */
  lemma SortPermutationInvariant(s: seq<string>, t: seq<string>)
    requires multiset(s) == multiset(t)
    ensures Sort(s) == Sort(t)
  {
    SortedUnique(Sort(s), Sort(t));
  }
}
