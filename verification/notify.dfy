/** Delivery of run digests to channels, with a stored backlog of undelivered changes. */
module Notify {
  import opened Core
  import opened Ordering
  import opened Lifecycle
  import opened State

  datatype Rule = Rule(on: set<Kind>, minSeverity: int, heartbeat: int)

  datatype Channel = Channel(name: string, rule: Rule)

  datatype Event = Digest | Heartbeat

  datatype Message = Message(event: Event, diff: Diff, changes: seq<Change>, notifier: string)

  const MAX_PENDING: nat := 500

  // ----- filtering --------------------------------------------------------------------------

  predicate Wanted(r: Rule, c: Change) {
    !c.suppressed && c.kind in r.on && c.finding.severity >= r.minSeverity
  }

  function Filter(r: Rule, cs: seq<Change>): seq<Change> {
    if cs == [] then []
    else Filter(r, cs[..|cs| - 1]) + if Wanted(r, cs[|cs| - 1]) then [cs[|cs| - 1]] else []
  }

  method FilterChanges(r: Rule, cs: seq<Change>) returns (out: seq<Change>)
    ensures out == Filter(r, cs)
  {
    out := [];
    for n := 0 to |cs|
      invariant out == Filter(r, cs[..n])
    {
      assert cs[..n + 1][..n] == cs[..n];
      if Wanted(r, cs[n]) { out := out + [cs[n]]; }
    }
    assert cs[..|cs|] == cs;
  }

  /** Exactly the wanted changes, in the same order. */
  lemma FilterKeeps(r: Rule, cs: seq<Change>)
    ensures forall c :: c in Filter(r, cs) <==>
      c in cs && !c.suppressed && c.kind in r.on && c.finding.severity >= r.minSeverity
    ensures Distinct(cs) ==> Distinct(Filter(r, cs))
    ensures SortedBy(cs, ChangeLeq) ==> SortedBy(Filter(r, cs), ChangeLeq)
  {
    FilterMembers(r, cs);
    FilterDistinct(r, cs);
    FilterSorted(r, cs);
  }

  lemma {:induction false} FilterMembers(r: Rule, cs: seq<Change>)
    ensures forall c :: c in Filter(r, cs) <==> c in cs && Wanted(r, c)
  {
    hide Wanted;
    if cs != [] {
      FilterMembers(r, cs[..|cs| - 1]);
      assert cs == cs[..|cs| - 1] + [cs[|cs| - 1]];
    }
  }

  lemma {:induction false} FilterDistinct(r: Rule, cs: seq<Change>)
    ensures Distinct(cs) ==> Distinct(Filter(r, cs))
  {
    hide Wanted;
    if cs != [] && Distinct(cs) {
      var n := |cs| - 1;
      FilterDistinct(r, cs[..n]);
      FilterMembers(r, cs[..n]);
      var f := Filter(r, cs[..n]);
      forall i | 0 <= i < |f| ensures f[i].finding.Print() != cs[n].finding.Print() { assert f[i] in cs[..n]; }
    }
  }

  lemma {:induction false} FilterSorted(r: Rule, cs: seq<Change>)
    ensures SortedBy(cs, ChangeLeq) ==> SortedBy(Filter(r, cs), ChangeLeq)
  {
    hide Wanted, ChangeLeq;
    if cs != [] && SortedBy(cs, ChangeLeq) {
      var n := |cs| - 1;
      FilterSorted(r, cs[..n]);
      FilterMembers(r, cs[..n]);
      var f := Filter(r, cs[..n]);
      forall i | 0 <= i < |f| ensures ChangeLeq(f[i], cs[n]) { assert f[i] in cs[..n]; }
    }
  }

  lemma FilterFor(r: Rule, cs: seq<Change>, fp: Fingerprint)
    requires Distinct(cs)
    ensures Distinct(Filter(r, cs))
    ensures ChangeFor(Filter(r, cs), fp) ==
      match ChangeFor(cs, fp)
      case None => None
      case Some(c) =>
        if !c.suppressed && c.kind in r.on && c.finding.severity >= r.minSeverity then Some(c) else None
  {
    FilterKeeps(r, cs);
    ChangeForMember(cs, fp);
    ChangeForMember(Filter(r, cs), fp);
    match ChangeFor(cs, fp)
    case None =>
      assert forall c :: c in Filter(r, cs) ==> c.finding.Print() != fp;
    case Some(c) =>
      assert c in cs && c.finding.Print() == fp;
      if Wanted(r, c) {
        assert c in Filter(r, cs);
      } else {
        forall d | d in Filter(r, cs) ensures d.finding.Print() != fp {
          assert d in cs && Wanted(r, d);
        }
      }
  }

  // ----- merging --------------------------------------------------------------------------------

  /** "Persisting" does not hide an undelivered new, regressed or resolved. */
  predicate Replaces(c: Change, undelivered: Change) {
    c.kind != Persisting || undelivered.kind == Persisting
  }

  function Place(out: seq<Change>, c: Change): seq<Change> {
    if out == [] then [c]
    else if out[0].finding.Print() == c.finding.Print() then
      (if Replaces(c, out[0]) then [c] + out[1..] else out)
    else [out[0]] + Place(out[1..], c)
  }

  function Overlay(out: seq<Change>, cur: seq<Change>): seq<Change> {
    if cur == [] then out else Place(Overlay(out, cur[..|cur| - 1]), cur[|cur| - 1])
  }

  function Merged(pending: seq<Change>, cur: seq<Change>): seq<Change> {
    if pending == [] then cur else Sort(Overlay(pending, cur), ChangeLeq)
  }

  lemma {:induction false} PlaceAt(out: seq<Change>, c: Change, i: int)
    requires Distinct(out) && 0 <= i < |out| && out[i].finding.Print() == c.finding.Print()
    ensures Place(out, c) == if Replaces(c, out[i]) then out[i := c] else out
  {
    if i > 0 {
      assert out[0].finding.Print() != out[i].finding.Print();
      PlaceAt(out[1..], c, i - 1);
    }
  }

  lemma {:induction false} PlaceNew(out: seq<Change>, c: Change)
    requires forall i :: 0 <= i < |out| ==> out[i].finding.Print() != c.finding.Print()
    ensures Place(out, c) == out + [c]
  {
    if out != [] { PlaceNew(out[1..], c); }
  }

  /** index says where the change of each finding stands in out. */
  ghost predicate Indexes(index: map<Fingerprint, nat>, out: seq<Change>) {
    && (forall fp :: fp in index ==> index[fp] < |out| && out[index[fp]].finding.Print() == fp)
    && (forall i :: 0 <= i < |out| ==> out[i].finding.Print() in index && index[out[i].finding.Print()] == i)
  }

  lemma IndexedPlace(index: map<Fingerprint, nat>, out: seq<Change>, c: Change)
    requires Indexes(index, out)
    ensures Distinct(out)
    ensures Place(out, c) ==
      var fp := c.finding.Print();
      if fp !in index then out + [c]
      else if Replaces(c, out[index[fp]]) then out[index[fp] := c]
      else out
  {
    if c.finding.Print() in index { PlaceAt(out, c, index[c.finding.Print()]); } else { PlaceNew(out, c); }
  }

  method BuildIndex(out: seq<Change>) returns (index: map<Fingerprint, nat>)
    ensures forall fp :: fp in index ==> index[fp] < |out|
    ensures Distinct(out) ==> Indexes(index, out)
  {
    index := map[];
    for i := 0 to |out|
      invariant forall fp :: fp in index ==> index[fp] < i && out[index[fp]].finding.Print() == fp
      invariant forall k :: 0 <= k < i ==> out[k].finding.Print() in index
      invariant Distinct(out) ==> forall k :: 0 <= k < i ==> index[out[k].finding.Print()] == k
    {
      index := index[out[i].finding.Print() := i];
    }
  }

  lemma IndexAppended(index: map<Fingerprint, nat>, out: seq<Change>, c: Change)
    requires Indexes(index, out) && c.finding.Print() !in index
    ensures Indexes(index[c.finding.Print() := |out|], out + [c])
  {
  }

  lemma IndexReplaced(index: map<Fingerprint, nat>, out: seq<Change>, c: Change)
    requires Indexes(index, out) && c.finding.Print() in index
    ensures Indexes(index, out[index[c.finding.Print()] := c])
  {
  }

  /** One step of the loop in Merge. */
  method PlaceIndexed(index: map<Fingerprint, nat>, out: seq<Change>, c: Change)
    returns (index': map<Fingerprint, nat>, out': seq<Change>)
    requires forall fp :: fp in index ==> index[fp] < |out|
    ensures forall fp :: fp in index' ==> index'[fp] < |out'|
    ensures Indexes(index, out) ==> Indexes(index', out') && out' == Place(out, c)
    ensures |out'| >= |out|
  {
    index', out' := index, out;
    var fp := c.finding.Print();
    if Indexes(index, out) { IndexedPlace(index, out, c); }
    if fp !in index {
      if Indexes(index, out) { IndexAppended(index, out, c); }
      index' := index[fp := |out|];
      out' := out + [c];
    } else if c.kind != Persisting || out[index[fp]].kind == Persisting {
      if Indexes(index, out) { IndexReplaced(index, out, c); }
      out' := out[index[fp] := c];
    }
  }

  /** Adds this run's changes to the undelivered ones. */
  method Merge(pending: seq<Change>, cur: seq<Change>) returns (r: seq<Change>)
    ensures Distinct(pending) ==> r == Merged(pending, cur)
    ensures |r| >= |pending|
  {
    hide Indexes, Distinct;
    if |pending| == 0 { return cur; }
    var index: map<Fingerprint, nat> := BuildIndex(pending);
    var out := pending;
    for n := 0 to |cur|
      invariant |out| >= |pending|
      invariant forall fp :: fp in index ==> index[fp] < |out|
      invariant Distinct(pending) ==> Indexes(index, out) && out == Overlay(pending, cur[..n])
    {
      assert cur[..n + 1][..n] == cur[..n];
      index, out := PlaceIndexed(index, out, cur[n]);
    }
    assert cur[..|cur|] == cur;
    r := Sort(out, ChangeLeq);
    assert |multiset(r)| == |multiset(out)|;
  }

  // ----- what a list of changes leaves to say about one finding -----------------------------------

  /** c arrives when prior is what is left to say. */
  function Latest(prior: Option<Change>, c: Change): Option<Change> {
    if prior.Some? && !Replaces(c, prior.value) then prior else Some(c)
  }

  function CollapseFrom(prior: Option<Change>, cs: seq<Change>, fp: Fingerprint): Option<Change> {
    if cs == [] then prior
    else
      var before := CollapseFrom(prior, cs[..|cs| - 1], fp);
      if cs[|cs| - 1].finding.Print() == fp then Latest(before, cs[|cs| - 1]) else before
  }

  function Collapse(cs: seq<Change>, fp: Fingerprint): Option<Change> { CollapseFrom(None, cs, fp) }

  ghost predicate About(cs: seq<Change>, i: int, fp: Fingerprint) {
    0 <= i < |cs| && cs[i].finding.Print() == fp
  }

  /** Change i is the last that is not "persisting", or else the last that is. */
  ghost predicate Prevails(cs: seq<Change>, i: int, fp: Fingerprint)
    requires About(cs, i, fp)
  {
    forall j :: j != i && About(cs, j, fp) ==>
      (if j > i then cs[i].kind != Persisting && cs[j].kind == Persisting
       else cs[i].kind == Persisting ==> cs[j].kind == Persisting)
  }

  /** Collapsing keeps the change that prevails. */
  lemma {:induction false} CollapseMeans(cs: seq<Change>, fp: Fingerprint)
    ensures Collapse(cs, fp).None? <==> forall i :: !About(cs, i, fp)
    ensures Collapse(cs, fp).Some? ==>
      exists i :: About(cs, i, fp) && Collapse(cs, fp) == Some(cs[i]) && Prevails(cs, i, fp)
  {
    if cs != [] {
      var n := |cs| - 1;
      var before := cs[..n];
      CollapseMeans(before, fp);
      assert forall i :: 0 <= i < n ==> About(before, i, fp) == About(cs, i, fp);
      if Collapse(before, fp).Some? {
        var i :| About(before, i, fp) && Collapse(before, fp) == Some(before[i]) && Prevails(before, i, fp);
        assert About(cs, i, fp) && cs[i] == before[i];
        if About(cs, n, fp) {
          CollapseLast(cs, fp, i);
        } else {
          assert Prevails(cs, i, fp) by {
            assert forall j :: About(cs, j, fp) ==> About(before, j, fp);
          }
        }
      } else if About(cs, n, fp) {
        assert forall j :: About(cs, j, fp) ==> j == n;
      } else {
        assert forall j :: About(cs, j, fp) ==> About(before, j, fp);
      }
    }
  }

  lemma CollapseLast(cs: seq<Change>, fp: Fingerprint, i: int)
    requires cs != [] && About(cs, |cs| - 1, fp)
    requires About(cs[..|cs| - 1], i, fp) && Collapse(cs[..|cs| - 1], fp) == Some(cs[i])
    requires Prevails(cs[..|cs| - 1], i, fp)
    ensures exists i :: About(cs, i, fp) && Collapse(cs, fp) == Some(cs[i]) && Prevails(cs, i, fp)
  {
  }

  lemma {:induction false} CollapseConcat(prior: Option<Change>, a: seq<Change>, b: seq<Change>, fp: Fingerprint)
    ensures CollapseFrom(prior, a + b, fp) == CollapseFrom(CollapseFrom(prior, a, fp), b, fp)
  {
    if b == [] {
      assert a + b == a;
    } else {
      var n := |b| - 1;
      assert (a + b)[..|a + b| - 1] == a + b[..n];
      CollapseConcat(prior, a, b[..n], fp);
    }
  }

  /** A list with one change per finding collapses to itself. */
  lemma {:induction false} CollapseDistinct(prior: Option<Change>, cs: seq<Change>, fp: Fingerprint)
    requires Distinct(cs)
    ensures CollapseFrom(prior, cs, fp) ==
      match ChangeFor(cs, fp) case None => prior case Some(c) => Latest(prior, c)
  {
    ChangeForMember(cs, fp);
    if cs != [] {
      var n := |cs| - 1;
      CollapseDistinct(prior, cs[..n], fp);
      ChangeForMember(cs[..n], fp);
      assert cs == cs[..n] + [cs[n]];
      if cs[n].finding.Print() == fp {
        assert forall c :: c in cs[..n] ==> c.finding.Print() != fp;
        assert ChangeFor(cs, fp) == Some(cs[n]);
      } else {
        match ChangeFor(cs[..n], fp)
        case None => assert forall c :: c in cs ==> c.finding.Print() != fp;
        case Some(c) => assert c in cs[..n];
      }
    }
  }

  lemma {:induction false} PlaceFor(out: seq<Change>, c: Change, fp: Fingerprint)
    requires Distinct(out)
    ensures Distinct(Place(out, c))
    ensures forall d :: d in Place(out, c) ==> d in out || d == c
    ensures ChangeFor(Place(out, c), fp) ==
      if c.finding.Print() == fp then Latest(ChangeFor(out, fp), c) else ChangeFor(out, fp)
  {
    if out != [] && out[0].finding.Print() != c.finding.Print() {
      PlaceFor(out[1..], c, fp);
      var rest := Place(out[1..], c);
      forall i | 0 <= i < |rest| ensures rest[i].finding.Print() != out[0].finding.Print() {
        assert rest[i] in rest;
        assert rest[i] in out[1..] || rest[i] == c;
      }
    } else if out != [] {
      assert out == [out[0]] + out[1..];
    }
  }

  lemma {:induction false} OverlayFor(out: seq<Change>, cur: seq<Change>, fp: Fingerprint)
    requires Distinct(out)
    ensures Distinct(Overlay(out, cur))
    ensures ChangeFor(Overlay(out, cur), fp) == CollapseFrom(ChangeFor(out, fp), cur, fp)
    ensures out != [] ==> Overlay(out, cur) != []
  {
    if cur != [] {
      OverlayFor(out, cur[..|cur| - 1], fp);
      PlaceFor(Overlay(out, cur[..|cur| - 1]), cur[|cur| - 1], fp);
    }
  }

  lemma SortFor(cs: seq<Change>, fp: Fingerprint)
    requires Distinct(cs)
    ensures Distinct(Sort(cs, ChangeLeq)) && ChangeFor(Sort(cs, ChangeLeq), fp) == ChangeFor(cs, fp)
  {
    DistinctPermutes(cs, Sort(cs, ChangeLeq));
    MultisetMembers(cs, Sort(cs, ChangeLeq));
    ChangeForMember(cs, fp);
    ChangeForIs(Sort(cs, ChangeLeq), fp, ChangeFor(cs, fp));
  }

  /** Merging collapses: what is left to say about a finding is the collapse of both lists. */
  lemma MergedFor(pending: seq<Change>, cur: seq<Change>, fp: Fingerprint)
    requires Distinct(pending) && Distinct(cur)
    ensures Distinct(Merged(pending, cur))
    ensures ChangeFor(Merged(pending, cur), fp) ==
      match ChangeFor(cur, fp) case None => ChangeFor(pending, fp) case Some(c) => Latest(ChangeFor(pending, fp), c)
    ensures Merged(pending, cur) == [] <==> pending == [] && cur == []
    ensures SortedBy(cur, ChangeLeq) ==> SortedBy(Merged(pending, cur), ChangeLeq)
  {
    if pending != [] {
      OverlayFor(pending, cur, fp);
      SortFor(Overlay(pending, cur), fp);
      CollapseDistinct(ChangeFor(pending, fp), cur, fp);
      ChangesOrdered();
      SortSorts(Overlay(pending, cur), ChangeLeq);
      MultisetMembers(Overlay(pending, cur), Merged(pending, cur));
    }
  }
}
