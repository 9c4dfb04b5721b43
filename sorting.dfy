/** The order JavaScript's default `Array.prototype.sort` puts strings in
    (character by character, a proper prefix first), sorting by that order,
    and the duplicate removal that `[...new Set(xs)]` performs. */
module Sorting {

  /** `a` sorts strictly before `b`. */
  predicate Below(a: string, b: string)
    decreases |a|
  {
    if a == [] then b != []
    else if b == [] then false
    else if a[0] != b[0] then a[0] < b[0]
    else Below(a[1..], b[1..])
  }

  predicate AtMost(a: string, b: string) {
    a == b || Below(a, b)
  }

  lemma {:induction false} BelowIrreflexive(a: string)
    ensures !Below(a, a)
    decreases |a|
  {
    if a != [] { BelowIrreflexive(a[1..]); }
  }

  lemma {:induction false} BelowTransitive(a: string, b: string, c: string)
    requires Below(a, b) && Below(b, c)
    ensures Below(a, c)
    decreases |a|
  {
    if a != [] && b != [] && c != [] && a[0] == b[0] && b[0] == c[0] {
      BelowTransitive(a[1..], b[1..], c[1..]);
    }
  }

  /** Any two different strings are ordered one way or the other. */
  lemma {:induction false} BelowTotal(a: string, b: string)
    ensures a == b || Below(a, b) || Below(b, a)
    decreases |a|
  {
    if a != [] && b != [] && a[0] == b[0] {
      BelowTotal(a[1..], b[1..]);
      if a[1..] == b[1..] {
        assert a == [a[0]] + a[1..] && b == [b[0]] + b[1..];
      }
    }
  }

  lemma BelowAsymmetric(a: string, b: string)
    requires Below(a, b)
    ensures !Below(b, a) && a != b
  {
    BelowIrreflexive(a);
    if Below(b, a) { BelowTransitive(a, b, a); }
  }

  lemma AtMostAntisymmetric(a: string, b: string)
    requires AtMost(a, b) && AtMost(b, a)
    ensures a == b
  {
    if a != b { BelowAsymmetric(a, b); }
  }

  predicate Sorted(s: seq<string>) {
    forall i, j :: 0 <= i < j < |s| ==> AtMost(s[i], s[j])
  }

  /** No string occurs twice. */
  predicate NoDuplicates(s: seq<string>) {
    forall i, j :: 0 <= i < j < |s| ==> s[i] != s[j]
  }

  /** A string no greater than any of a sorted sequence can go in front. */
  lemma SortedCons(h: string, t: seq<string>)
    requires Sorted(t) && forall j :: 0 <= j < |t| ==> AtMost(h, t[j])
    ensures Sorted([h] + t)
  {
    var r := [h] + t;
    forall i, j | 0 <= i < j < |r| ensures AtMost(r[i], r[j]) {
      if i > 0 { assert r[i] == t[i - 1]; }
      assert r[j] == t[j - 1];
    }
  }

  /** A string no greater than the first of a sorted sequence is no greater
      than any of it. */
  lemma BelowFirst(x: string, s: seq<string>)
    requires Sorted(s) && s != [] && AtMost(x, s[0])
    ensures forall j :: 0 <= j < |s| ==> AtMost(x, s[j])
  {
    forall j | 0 < j < |s| ensures AtMost(x, s[j]) {
      if x != s[0] && s[0] != s[j] { BelowTransitive(x, s[0], s[j]); }
    }
  }

  /** The first of a sorted sequence is no greater than anything made of the
      rest of it and a string that sorts after it. */
  lemma FirstStays(x: string, s: seq<string>, t: seq<string>)
    requires Sorted(s) && s != [] && !AtMost(x, s[0])
    requires multiset(t) == multiset(s[1..]) + multiset{x}
    ensures forall j :: 0 <= j < |t| ==> AtMost(s[0], t[j])
  {
    BelowTotal(x, s[0]);
    forall j | 0 <= j < |t| ensures AtMost(s[0], t[j]) {
      assert t[j] in multiset(t);
      if t[j] != x {
        assert t[j] in multiset(s[1..]);
        var k :| 0 <= k < |s[1..]| && s[1..][k] == t[j];
        assert s[k + 1] == t[j];
      }
    }
  }

  /** Inserts `x` into a sorted sequence. */
  function Insert(x: string, s: seq<string>): (r: seq<string>)
    requires Sorted(s)
    ensures Sorted(r)
    ensures multiset(r) == multiset(s) + multiset{x}
  {
    if s == [] then [x]
    else if AtMost(x, s[0]) then
      BelowFirst(x, s);
      SortedCons(x, s);
      [x] + s
    else
      assert Sorted(s[1..]);
      var t := Insert(x, s[1..]);
      FirstStays(x, s, t);
      SortedCons(s[0], t);
      assert s == [s[0]] + s[1..];
      [s[0]] + t
  }

  /** The sorted copy of a list of strings. */
  function Sort(s: seq<string>): (r: seq<string>)
    ensures Sorted(r)
    ensures multiset(r) == multiset(s)
    ensures |r| == |s|
  {
    if s == [] then []
    else
      assert s == s[..|s| - 1] + [s[|s| - 1]];
      var r := Insert(s[|s| - 1], Sort(s[..|s| - 1]));
      assert |r| == |multiset(r)| == |multiset(s)| == |s|;
      r
  }

  /** Two sorted arrangements of the same strings start alike. */
  lemma HeadsEqual(a: seq<string>, b: seq<string>)
    requires Sorted(a) && Sorted(b) && multiset(a) == multiset(b) && a != []
    ensures b != [] && a[0] == b[0]
  {
    assert a[0] in multiset(b);
    assert b[0] in multiset(a);
    var i :| 0 <= i < |b| && b[i] == a[0];
    var j :| 0 <= j < |a| && a[j] == b[0];
    assert AtMost(a[0], a[j]) by { if j > 0 { assert AtMost(a[0], a[j]); } }
    assert AtMost(b[0], b[i]) by { if i > 0 { assert AtMost(b[0], b[i]); } }
    AtMostAntisymmetric(a[0], b[0]);
  }

  /** Dropping the first string of a sorted sequence. */
  lemma Rest(a: seq<string>)
    requires Sorted(a) && a != []
    ensures Sorted(a[1..])
    ensures multiset(a[1..]) == multiset(a) - multiset{a[0]}
    ensures a == [a[0]] + a[1..]
  {
    assert a == [a[0]] + a[1..];
    assert multiset(a) == multiset{a[0]} + multiset(a[1..]);
  }

  /** Sorting is determined by the contents alone: two sorted arrangements of
      the same strings are the same sequence. This is why the order of the
      input, and the algorithm the runtime happens to use, do not matter. */
  lemma {:induction false} SortedUnique(a: seq<string>, b: seq<string>)
    requires Sorted(a) && Sorted(b) && multiset(a) == multiset(b)
    ensures a == b
    decreases |a|
  {
    if a == [] {
      assert |b| == 0 by { assert |multiset(b)| == 0; }
    } else {
      HeadsEqual(a, b);
      Rest(a);
      Rest(b);
      SortedUnique(a[1..], b[1..]);
    }
  }

  /** `[...new Set(s)]`: the first occurrence of each string, in order. */
  function Dedup(s: seq<string>): (r: seq<string>)
    ensures NoDuplicates(r)
    ensures forall x :: x in r <==> x in s
  {
    if s == [] then []
    else
      var r := Dedup(s[..|s| - 1]);
      assert forall x :: x in s <==> x in s[..|s| - 1] || x == s[|s| - 1] by {
        assert s == s[..|s| - 1] + [s[|s| - 1]];
      }
      if s[|s| - 1] in r then r else r + [s[|s| - 1]]
  }

  /** A sorted arrangement of strings that were all different has no two
      equal neighbours: it is strictly increasing. */
  lemma SortKeepsNoDuplicates(s: seq<string>)
    requires NoDuplicates(s)
    ensures NoDuplicates(Sort(s))
    ensures forall i, j :: 0 <= i < j < |Sort(s)| ==> Below(Sort(s)[i], Sort(s)[j])
  {
    var r := Sort(s);
    forall i, j | 0 <= i < j < |r| ensures r[i] != r[j] {
      if r[i] == r[j] {
        MultiplicityAtLeastTwo(r, i, j);
        MultiplicityAtMostOne(s, r[i]);
        assert false;
      }
    }
  }

  lemma MultiplicityAtLeastTwo(r: seq<string>, i: nat, j: nat)
    requires i < j < |r| && r[i] == r[j]
    ensures multiset(r)[r[i]] >= 2
  {
    assert r == r[..j] + [r[j]] + r[j + 1..];
    assert r[i] == r[..j][i];
    assert multiset(r[..j])[r[i]] >= 1;
  }

  lemma {:induction false} MultiplicityAtMostOne(s: seq<string>, x: string)
    requires NoDuplicates(s)
    ensures multiset(s)[x] <= 1
  {
    if s != [] {
      var t := s[..|s| - 1];
      assert s == t + [s[|s| - 1]];
      MultiplicityAtMostOne(t, x);
      if x == s[|s| - 1] {
        assert x !in t by {
          forall k | 0 <= k < |t| ensures t[k] != x { assert s[k] != s[|s| - 1]; }
        }
      }
    }
  }
}
