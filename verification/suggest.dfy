/** Edit distance with two reused rows, and the nearest known name. */
module Suggest {
  import opened Ordering

  // ----- edits, one character at a time ------------------------------------------------------

  predicate Inserts(a: string, b: string, i: int) {
    0 <= i <= |a| && |b| == |a| + 1 && b[..i] == a[..i] && b[i + 1..] == a[i..]
  }

  predicate Substitutes(a: string, b: string, i: int) {
    0 <= i < |a| && |b| == |a| && b[..i] == a[..i] && b[i + 1..] == a[i + 1..]
  }

  /** One insertion, deletion or substitution anywhere turns a into b. */
  predicate OneEdit(a: string, b: string) {
    || (exists i :: 0 <= i <= |a| && Inserts(a, b, i))
    || (exists i :: 0 <= i <= |b| && Inserts(b, a, i))
    || (exists i :: 0 <= i < |a| && Substitutes(a, b, i))
  }

  /** The texts passed through on the way from a to b, one edit each. */
  ghost predicate Script(path: seq<string>, a: string, b: string) {
    && path != [] && path[0] == a && path[|path| - 1] == b
    && forall k :: 0 <= k < |path| - 1 ==> OneEdit(path[k], path[k + 1])
  }

  // ----- the recurrence ------------------------------------------------------------------------

  function Min(a: int, b: int): int { if a < b then a else b }

  function Distance(a: string, b: string): nat
    decreases |a| + |b|
  {
    if a == "" then |b|
    else if b == "" then |a|
    else
      var cost := if a[|a| - 1] == b[|b| - 1] then 0 else 1;
      Min(Min(Distance(a[..|a| - 1], b) + 1, Distance(a, b[..|b| - 1]) + 1),
          Distance(a[..|a| - 1], b[..|b| - 1]) + cost)
  }

  predicate Near(m: int, n: int) { m <= n + 1 && n <= m + 1 }

  lemma EndMoves(u: string, x: string, c: string)
    requires |x| == 1
    ensures Near(Distance(u + x, c), Distance(u, c))
  {
  }

  /** Different last characters move the distance by at most one. */
  lemma {:induction false} LastMoves(u: string, x: string, y: string, c: string)
    requires |x| == 1 && |y| == 1
    ensures Near(Distance(u + x, c), Distance(u + y, c))
    decreases |c|
  {
    if c != "" {
      assert (u + x)[..|u + x| - 1] == u && (u + y)[..|u + y| - 1] == u;
      LastMoves(u, x, y, c[..|c| - 1]);
    }
  }

  /** Three texts that move by at most one each move the distance of the texts they are prefixes of. */
  lemma SuffixMoves(a: string, b: string, c: string)
    requires a != "" && b != "" && c != "" && a[|a| - 1] == b[|b| - 1]
    requires var a', b', c' := a[..|a| - 1], b[..|b| - 1], c[..|c| - 1];
      Near(Distance(a', c), Distance(b', c)) && Near(Distance(a, c'), Distance(b, c')) &&
      Near(Distance(a', c'), Distance(b', c'))
    ensures Near(Distance(a, c), Distance(b, c))
  {
  }

  /** An edit in front of a common suffix moves the distance to any text by at most one. */
  lemma {:induction false} EditMoves(u: string, x: string, y: string, v: string, c: string)
    requires |x| <= 1 && |y| <= 1
    ensures Near(Distance(u + x + v, c), Distance(u + y + v, c))
    decreases |v| + |c|
  {
    hide Distance;
    var a, b := u + x + v, u + y + v;
    if v == "" {
      assert a == u + x && b == u + y && u + "" == u;
      if |x| == 1 { EndMoves(u, x, c); }
      if |y| == 1 { EndMoves(u, y, c); }
      if |x| == 1 && |y| == 1 { LastMoves(u, x, y, c); }
    } else if c == "" {
      DistanceToNothing(a);
      DistanceToNothing(b);
    } else {
      var v', c' := v[..|v| - 1], c[..|c| - 1];
      assert a[..|a| - 1] == u + x + v' && b[..|b| - 1] == u + y + v';
      EditMoves(u, x, y, v', c);
      EditMoves(u, x, y, v, c');
      EditMoves(u, x, y, v', c');
      SuffixMoves(a, b, c);
    }
  }

  lemma DistanceToNothing(a: string)
    ensures Distance(a, "") == |a|
  {
  }

  lemma OneEditMoves(a: string, b: string, c: string)
    requires OneEdit(a, b)
    ensures Distance(a, c) <= Distance(b, c) + 1
  {
    hide Distance;
    if i :| 0 <= i <= |a| && Inserts(a, b, i) {
      assert a == a[..i] + "" + a[i..] && b == a[..i] + [b[i]] + a[i..];
      EditMoves(a[..i], "", [b[i]], a[i..], c);
    } else if i :| 0 <= i <= |b| && Inserts(b, a, i) {
      assert b == b[..i] + "" + b[i..] && a == b[..i] + [a[i]] + b[i..];
      EditMoves(b[..i], [a[i]], "", b[i..], c);
    } else {
      var i :| 0 <= i < |a| && Substitutes(a, b, i);
      assert a == a[..i] + [a[i]] + a[i + 1..] && b == a[..i] + [b[i]] + a[i + 1..];
      EditMoves(a[..i], [a[i]], [b[i]], a[i + 1..], c);
    }
  }

  lemma {:induction false} NoDistance(a: string)
    ensures Distance(a, a) == 0
  {
    if a != "" { NoDistance(a[..|a| - 1]); }
  }

  /** No script, whatever it edits in whatever order, is shorter than the distance. */
  lemma {:induction false} NoScriptIsShorter(path: seq<string>, a: string, b: string)
    requires Script(path, a, b)
    ensures Distance(a, b) <= |path| - 1
  {
    if |path| == 1 {
      NoDistance(a);
    } else {
      NoScriptIsShorter(path[1..], path[1], b);
      OneEditMoves(a, path[1], b);
    }
  }

  lemma AppendKeepsEdit(a: string, b: string, s: string)
    requires OneEdit(a, b)
    ensures OneEdit(a + s, b + s)
  {
    if i :| 0 <= i <= |a| && Inserts(a, b, i) {
      assert Inserts(a + s, b + s, i);
    } else if i :| 0 <= i <= |b| && Inserts(b, a, i) {
      assert Inserts(b + s, a + s, i);
    } else {
      var i :| 0 <= i < |a| && Substitutes(a, b, i);
      assert Substitutes(a + s, b + s, i);
    }
  }

  lemma EndEdits(a: string, b: string)
    ensures a != "" ==> OneEdit(a, a[..|a| - 1])
    ensures b != "" ==> OneEdit(b[..|b| - 1], b)
    ensures a != "" && b != "" && a[..|a| - 1] == b[..|b| - 1] ==> OneEdit(a, b)
  {
    if a != "" { assert Inserts(a[..|a| - 1], a, |a| - 1); }
    if b != "" { assert Inserts(b[..|b| - 1], b, |b| - 1); }
    if a != "" && b != "" && a[..|a| - 1] == b[..|b| - 1] { assert Substitutes(a, b, |a| - 1); }
  }

  /** A script with every text extended by s. */
  lemma ExtendScript(path: seq<string>, a: string, b: string, s: string) returns (longer: seq<string>)
    requires Script(path, a, b)
    ensures Script(longer, a + s, b + s) && |longer| == |path|
  {
    longer := seq(|path|, k requires 0 <= k < |path| => path[k] + s);
    forall k | 0 <= k < |longer| - 1 ensures OneEdit(longer[k], longer[k + 1]) {
      AppendKeepsEdit(path[k], path[k + 1], s);
    }
  }

  lemma EditThenScript(a: string, path: seq<string>, a': string, b: string)
    requires Script(path, a', b) && OneEdit(a, a')
    ensures Script([a] + path, a, b)
  {
  }

  lemma ScriptThenEdit(a: string, path: seq<string>, b': string, b: string)
    requires Script(path, a, b') && OneEdit(b', b)
    ensures Script(path + [b], a, b)
  {
  }

  /** From a script between the texts without their last characters, one between the texts. */
  lemma KeepLast(rest: seq<string>, a: string, b: string) returns (path: seq<string>)
    requires a != "" && b != "" && Script(rest, a[..|a| - 1], b[..|b| - 1])
    ensures Script(path, a, b) && |path| == |rest| + if a[|a| - 1] == b[|b| - 1] then 0 else 1
  {
    var a', b', last := a[..|a| - 1], b[..|b| - 1], [a[|a| - 1]];
    path := ExtendScript(rest, a', b', last);
    assert a' + last == a;
    if a[|a| - 1] == b[|b| - 1] {
      assert b' + last == b;
    } else {
      assert (b' + last)[..|b' + last| - 1] == b';
      EndEdits(b' + last, b);
      ScriptThenEdit(a, path, b' + last, b);
      path := path + [b];
    }
  }

  /** Some script is as short as the distance. */
  lemma {:induction false} SomeScriptReachesIt(a: string, b: string) returns (path: seq<string>)
    ensures Script(path, a, b) && |path| == Distance(a, b) + 1
    decreases |a| + |b|
  {
    hide Script, OneEdit;
    EndEdits(a, b);
    if a == "" && b == "" {
      path := NoEdits(a);
    } else if a != "" && (b == "" || Distance(a, b) == Distance(a[..|a| - 1], b) + 1) {
      var rest := SomeScriptReachesIt(a[..|a| - 1], b);
      EditThenScript(a, rest, a[..|a| - 1], b);
      path := [a] + rest;
    } else if a == "" || Distance(a, b) == Distance(a, b[..|b| - 1]) + 1 {
      var rest := SomeScriptReachesIt(a, b[..|b| - 1]);
      ScriptThenEdit(a, rest, b[..|b| - 1], b);
      path := rest + [b];
    } else {
      var rest := SomeScriptReachesIt(a[..|a| - 1], b[..|b| - 1]);
      path := KeepLast(rest, a, b);
    }
  }

  lemma NoEdits(a: string) returns (path: seq<string>)
    ensures Script(path, a, a) && path == [a]
  {
    path := [a];
  }

  // ----- the two rows ---------------------------------------------------------------------------

  /** row[j] is the distance from the first i characters of a to the first j of b. */
  ghost predicate RowIs(row: seq<int>, a: string, b: string, i: int, upto: int)
    requires 0 <= i <= |a| && 0 <= upto <= |b| + 1 && |row| == |b| + 1
  {
    forall j :: 0 <= j < upto ==> row[j] == Distance(a[..i], b[..j])
  }

  lemma Recurrence(a: string, b: string, i: int, j: int)
    requires 1 <= i <= |a| && 1 <= j <= |b|
    ensures Distance(a[..i], b[..j]) ==
      Min(Min(Distance(a[..i - 1], b[..j]) + 1, Distance(a[..i], b[..j - 1]) + 1),
          Distance(a[..i - 1], b[..j - 1]) + if a[i - 1] == b[j - 1] then 0 else 1)
  {
    assert a[..i][..|a[..i]| - 1] == a[..i - 1] && b[..j][..|b[..j]| - 1] == b[..j - 1];
  }

  method FillRow(prev: array<int>, cur: array<int>, a: string, b: string, i: int)
    requires prev.Length == cur.Length == |b| + 1 && prev != cur
    requires 1 <= i <= |a| && RowIs(prev[..], a, b, i - 1, |b| + 1)
    modifies cur
    ensures RowIs(cur[..], a, b, i, |b| + 1)
  {
    cur[0] := i;
    for j := 1 to |b| + 1
      invariant RowIs(cur[..], a, b, i, j)
    {
      var cost := if a[i - 1] == b[j - 1] then 0 else 1;
      Recurrence(a, b, i, j);
      cur[j] := Min(Min(prev[j] + 1, cur[j - 1] + 1), prev[j - 1] + cost);
    }
  }

  method EditDistance(a: string, b: string) returns (d: nat)
    ensures d == Distance(a, b)
    ensures exists path :: Script(path, a, b) && |path| - 1 == d
    ensures forall path :: Script(path, a, b) ==> d <= |path| - 1
  {
    var prev := new int[|b| + 1];
    var cur := new int[|b| + 1];
    for j := 0 to |b| + 1
      invariant forall k :: 0 <= k < j ==> prev[k] == k
    {
      prev[j] := j;
    }
    assert RowIs(prev[..], a, b, 0, |b| + 1);
    for i := 1 to |a| + 1
      invariant prev != cur && prev.Length == cur.Length == |b| + 1
      invariant fresh(prev) && fresh(cur)
      invariant RowIs(prev[..], a, b, i - 1, |b| + 1)
    {
      FillRow(prev, cur, a, b, i);
      prev, cur := cur, prev;
    }
    assert a[..|a|] == a && b[..|b|] == b && prev[..][|b|] == prev[|b|];
    d := prev[|b|];
    var path := SomeScriptReachesIt(a, b);
    forall path | Script(path, a, b) ensures d <= |path| - 1 { NoScriptIsShorter(path, a, b); }
  }

  // ----- the nearest name --------------------------------------------------------------------------

  const CLOSE: int := 2

  predicate Better(d: int, name: string, d': int, name': string) {
    d < d' || (d == d' && Compare(name, name') < 0)
  }

  /** The nearest of the names within two edits, the least among equals; "" if none is that close. */
  ghost predicate Suggests(best: string, key: string, names: set<string>) {
    if exists n :: n in names && Distance(key, n) <= CLOSE then
      && best in names && Distance(key, best) <= CLOSE
      && forall n :: n in names && n != best ==> Better(Distance(key, best), best, Distance(key, n), n)
    else best == ""
  }

  /** The search so far: best among the names seen, or nothing closer than three. */
  ghost predicate BestOf(best: string, dist: int, key: string, seen: set<string>) {
    if dist == CLOSE + 1 then best == "" && forall n :: n in seen ==> Distance(key, n) > CLOSE
    else
      && dist <= CLOSE && best in seen && dist == Distance(key, best)
      && forall n :: n in seen && n != best ==> Better(dist, best, Distance(key, n), n)
  }

  lemma TakeBetter(best: string, dist: int, key: string, seen: set<string>, n: string)
    requires BestOf(best, dist, key, seen) && n !in seen
    ensures
      var d := Distance(key, n);
      if Better(d, n, dist, best) then BestOf(n, d, key, seen + {n}) else BestOf(best, dist, key, seen + {n})
  {
    var d := Distance(key, n);
    CompareMirror(n, best);
    if Better(d, n, dist, best) {
      forall m | m in seen ensures Better(d, n, Distance(key, m), m) {
        CompareChain(n, best, m);
      }
      if d == dist { NothingBeforeEmpty(n); }
    }
  }

  lemma NothingBeforeEmpty(n: string)
    ensures Compare(n, "") >= 0
  {
  }

  /** For whatever order the map of known names is walked in. */
  method Suggest(key: string, names: set<string>) returns (best: string)
    ensures Suggests(best, key, names)
  {
    best := "";
    var bestDist := 3;
    var todo := names;
    while todo != {}
      invariant todo <= names
      invariant BestOf(best, bestDist, key, names - todo)
      decreases todo
    {
      var name :| name in todo;
      var d := EditDistance(key, name);
      TakeBetter(best, bestDist, key, names - todo, name);
      assert names - (todo - {name}) == names - todo + {name};
      if d < bestDist || (d == bestDist && Compare(name, best) < 0) {
        best, bestDist := name, d;
      }
      todo := todo - {name};
    }
    assert names - {} == names;
  }
}
