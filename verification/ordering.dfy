/** Comparisons in the style of Go's cmp package, and what sorting by them determines. */
module Ordering {
  import opened Core

  /** strings.Compare: lexicographic, negative / zero / positive. */
  function Compare(a: string, b: string): int {
    if a == [] && b == [] then 0
    else if a == [] then -1
    else if b == [] then 1
    else if a[0] < b[0] then -1
    else if b[0] < a[0] then 1
    else Compare(a[1..], b[1..])
  }

  function CompareInt(a: int, b: int): int {
    if a < b then -1 else if b < a then 1 else 0
  }

  /** cmp.Or: the first non-zero comparison decides. */
  function Or(first: int, second: int): int {
    if first != 0 then first else second
  }

  lemma {:induction false} CompareMirror(a: string, b: string)
    ensures Compare(a, b) == -Compare(b, a)
    ensures Compare(a, b) == 0 <==> a == b
  {
    if a != [] && b != [] && a[0] == b[0] {
      CompareMirror(a[1..], b[1..]);
      assert a == [a[0]] + a[1..] && b == [b[0]] + b[1..];
    }
  }

  /** a comes first in dictionary order: it is a proper prefix, or smaller where they first differ. */
  ghost predicate Before(a: string, b: string) {
    exists i :: 0 <= i <= |a| && DiffersAt(a, b, i)
  }

  predicate DiffersAt(a: string, b: string, i: int)
    requires 0 <= i <= |a|
  {
    i < |b| && a[..i] == b[..i] && (i == |a| || a[i] < b[i])
  }

  lemma {:induction false} CompareMeans(a: string, b: string)
    ensures Compare(a, b) < 0 <==> Before(a, b)
  {
    if a != [] && b != [] {
      CompareMeans(a[1..], b[1..]);
      if a[0] == b[0] {
        forall i | 0 <= i <= |a[1..]| ensures DiffersAt(a[1..], b[1..], i) == DiffersAt(a, b, i + 1) {
          PrefixesMatch(a, b, i);
        }
        assert !DiffersAt(a, b, 0);
        if Before(a, b) {
          var i :| 0 <= i <= |a| && DiffersAt(a, b, i);
          assert DiffersAt(a[1..], b[1..], i - 1);
        }
      } else {
        assert DiffersAt(a, b, 0) <==> a[0] < b[0];
        forall i | 0 < i <= |a| ensures !DiffersAt(a, b, i) { FirstsDiffer(a, b, i); }
      }
    } else if b != [] {
      assert DiffersAt(a, b, 0);
    }
  }

  lemma FirstsDiffer(a: string, b: string, i: int)
    requires a != [] && b != [] && a[0] != b[0] && 0 < i <= |a|
    ensures !DiffersAt(a, b, i)
  {
    if i < |b| { assert a[..i][0] != b[..i][0]; }
  }

  lemma PrefixesMatch(a: string, b: string, i: int)
    requires a != [] && b != [] && a[0] == b[0] && 0 <= i < |a|
    ensures i < |b[1..]| ==> (a[1..][..i] == b[1..][..i] <==> a[..i + 1] == b[..i + 1])
  {
    if i < |b[1..]| {
      assert a[..i + 1] == [a[0]] + a[1..][..i] && b[..i + 1] == [b[0]] + b[1..][..i];
      assert a[1..][..i] == a[..i + 1][1..] && b[1..][..i] == b[..i + 1][1..];
    }
  }

  /** What transitivity of one comparison says about a triple, in a form closed under Or. */
  predicate Chain(ab: int, bc: int, ac: int) {
    ab <= 0 && bc <= 0 ==> ac <= 0 && (ac == 0 ==> ab == 0 && bc == 0)
  }

  lemma {:induction false} CompareChain(a: string, b: string, c: string)
    ensures Chain(Compare(a, b), Compare(b, c), Compare(a, c))
  {
    if a != [] && b != [] && c != [] && a[0] == b[0] == c[0] {
      CompareChain(a[1..], b[1..], c[1..]);
    }
  }

  // ----- findings ---------------------------------------------------------

  /** engine.CompareFindings: target, severity (highest first), check ID, subject. */
  function CompareFindings(a: Finding, b: Finding): int {
    Or(Compare(a.target, b.target),
       Or(CompareInt(b.severity, a.severity),
          Or(Compare(a.checkID, b.checkID),
             Compare(a.subject, b.subject))))
  }

  predicate FindingLeq(a: Finding, b: Finding) { CompareFindings(a, b) <= 0 }

  lemma FindingsMirror(a: Finding, b: Finding)
    ensures CompareFindings(a, b) == -CompareFindings(b, a)
    ensures CompareFindings(a, b) == 0 ==> a.Print() == b.Print()
  {
    CompareMirror(a.target, b.target);
    CompareMirror(a.checkID, b.checkID);
    CompareMirror(a.subject, b.subject);
  }

  lemma FindingsChain(a: Finding, b: Finding, c: Finding)
    ensures Chain(CompareFindings(a, b), CompareFindings(b, c), CompareFindings(a, c))
    ensures CompareFindings(a, b) == 0 && CompareFindings(b, c) == 0 ==> CompareFindings(a, c) == 0
  {
    CompareChain(a.target, b.target, c.target);
    CompareChain(a.checkID, b.checkID, c.checkID);
    CompareChain(a.subject, b.subject, c.subject);
    CompareMirror(a.target, b.target);
    CompareMirror(b.target, c.target);
    CompareMirror(a.checkID, b.checkID);
    CompareMirror(b.checkID, c.checkID);
    CompareMirror(a.subject, b.subject);
    CompareMirror(b.subject, c.subject);
  }

  // ----- sorting ------------------------------------------------------------

  /** A comparison slices.SortFunc can sort by: a total preorder. */
  ghost predicate Ordered<T(!new)>(leq: (T, T) -> bool) {
    && (forall a, b :: leq(a, b) || leq(b, a))
    && (forall a, b, c :: leq(a, b) && leq(b, c) ==> leq(a, c))
  }

  ghost predicate SortedBy<T>(s: seq<T>, leq: (T, T) -> bool) {
    forall i, j :: 0 <= i < j < |s| ==> leq(s[i], s[j])
  }

  function Insert<T>(x: T, s: seq<T>, leq: (T, T) -> bool): (r: seq<T>)
    ensures multiset(r) == multiset{x} + multiset(s)
  {
    if s == [] then [x]
    else if leq(x, s[0]) then [x] + s
    else
      assert s == [s[0]] + s[1..];
      [s[0]] + Insert(x, s[1..], leq)
  }

  /** Stands for slices.SortFunc; SortedUnique says when any other sort gives the same. */
  function Sort<T>(s: seq<T>, leq: (T, T) -> bool): (r: seq<T>)
    ensures multiset(r) == multiset(s)
  {
    if s == [] then []
    else
      assert s == [s[0]] + s[1..];
      Insert(s[0], Sort(s[1..], leq), leq)
  }

  lemma MultisetMembers<T>(a: seq<T>, b: seq<T>)
    requires multiset(a) == multiset(b)
    ensures |a| == |b|
    ensures forall x :: x in a <==> x in b
  {
    assert |a| == |multiset(a)| && |b| == |multiset(b)|;
    forall x ensures x in a <==> x in b {
      assert x in a <==> x in multiset(a);
      assert x in b <==> x in multiset(b);
    }
  }

  lemma {:induction false} InsertSorts<T(!new)>(x: T, s: seq<T>, leq: (T, T) -> bool)
    requires Ordered(leq) && SortedBy(s, leq)
    ensures SortedBy(Insert(x, s, leq), leq)
  {
    if s != [] && !leq(x, s[0]) {
      InsertSorts(x, s[1..], leq);
      var rest := Insert(x, s[1..], leq);
      assert multiset(rest) == multiset([x] + s[1..]);
      MultisetMembers(rest, [x] + s[1..]);
      forall i | 0 <= i < |rest| ensures leq(s[0], rest[i]) {
        assert rest[i] in [x] + s[1..];
      }
    }
  }

  lemma {:induction false} SortSorts<T(!new)>(s: seq<T>, leq: (T, T) -> bool)
    requires Ordered(leq)
    ensures SortedBy(Sort(s, leq), leq)
  {
    if s != [] {
      SortSorts(s[1..], leq);
      InsertSorts(s[0], Sort(s[1..], leq), leq);
    }
  }

  /** No two distinct elements of s tie under leq. */
  ghost predicate NoTies<T>(s: seq<T>, leq: (T, T) -> bool) {
    && (forall x :: x in s ==> leq(x, x))
    && (forall x, y :: x in s && y in s && leq(x, y) && leq(y, x) ==> x == y)
  }

  lemma HeadIsLeast<T>(s: seq<T>, x: T, leq: (T, T) -> bool)
    requires SortedBy(s, leq) && x in s && leq(x, x)
    ensures leq(s[0], x)
  {
  }

  /**
   * Two sorted arrangements of the same elements are equal when no two of the
   * elements tie, so the outcome does not depend on the sorting algorithm
   * (slices.SortFunc is not stable) nor on the order the elements came in.
   */
  lemma {:induction false} SortedUnique<T(!new)>(a: seq<T>, b: seq<T>, leq: (T, T) -> bool)
    requires multiset(a) == multiset(b)
    requires SortedBy(a, leq) && SortedBy(b, leq)
    requires NoTies(a, leq)
    ensures a == b
  {
    MultisetMembers(a, b);
    if a != [] {
      HeadIsLeast(a, b[0], leq);
      HeadIsLeast(b, a[0], leq);
      var x := a[0];
      assert b[0] == x;
      TailMultiset(a);
      TailMultiset(b);
      TailNoTies(a, leq);
      hide NoTies;
      SortedUnique(a[1..], b[1..], leq);
      assert a == [x] + a[1..];
      assert b == [x] + b[1..];
    }
  }

  lemma TwiceCounts<T>(s: seq<T>, i: int, j: int)
    requires 0 <= i < j < |s| && s[i] == s[j]
    ensures multiset(s)[s[i]] >= 2
  {
    assert s == s[..j] + s[j..];
    assert s[i] in s[..j] && s[j] in s[j..];
  }

  lemma TailMultiset<T>(s: seq<T>)
    requires s != []
    ensures multiset(s[1..]) == multiset(s) - multiset{s[0]}
  {
    assert s == [s[0]] + s[1..];
  }

  lemma TailNoTies<T>(s: seq<T>, leq: (T, T) -> bool)
    requires s != [] && NoTies(s, leq)
    ensures NoTies(s[1..], leq)
  {
  }

  /** In a sorted list targets ascend, then severities descend, then check IDs and subjects ascend. */
  lemma SortedFindings(fs: seq<Finding>, i: int, j: int)
    requires SortedBy(fs, FindingLeq) && 0 <= i < j < |fs|
    ensures
      var f, g := fs[i], fs[j];
      && !Before(g.target, f.target)
      && (f.target == g.target ==> f.severity >= g.severity)
      && (f.target == g.target && f.severity == g.severity ==> !Before(g.checkID, f.checkID))
      && (f.target == g.target && f.severity == g.severity && f.checkID == g.checkID ==> !Before(g.subject, f.subject))
  {
    hide Compare, Before;
    var f, g := fs[i], fs[j];
    CompareMirror(f.target, g.target);
    CompareMirror(f.checkID, g.checkID);
    CompareMirror(f.subject, g.subject);
    CompareMeans(g.target, f.target);
    CompareMeans(g.checkID, f.checkID);
    CompareMeans(g.subject, f.subject);
  }

  lemma FindingsOrdered()
    ensures Ordered(FindingLeq)
  {
    hide CompareFindings, Compare;
    forall a: Finding, b: Finding ensures FindingLeq(a, b) || FindingLeq(b, a) { FindingsMirror(a, b); }
    forall a: Finding, b: Finding, c: Finding | FindingLeq(a, b) && FindingLeq(b, c) ensures FindingLeq(a, c) {
      FindingsChain(a, b, c);
    }
  }
}
