/** The backlog of undelivered changes over any sequence of deliveries, and what the cap does to it. */
module Pending {
  import opened Core
  import opened Ordering
  import opened Lifecycle
  import opened State
  import opened Notify
  import opened Delivery

  /** One delivery: the changes the channel's rule lets through, and how the outside world answers. */
  datatype Attempt = Attempt(cur: seq<Change>, e: Env)

  /** The stored backlog after one more delivery. */
  function NextBacklog(pending: seq<Change>, a: Attempt): seq<Change> {
    var changes := Merged(pending, a.cur);
    if !a.e.readPending || changes == [] then pending
    else if !a.e.sendOK then (if a.e.write then Capped(changes) else pending)
    else if pending != [] && !a.e.remove then pending
    else []
  }

  /** What the digest tells the recipient, if one arrives. */
  function Digested(pending: seq<Change>, a: Attempt): seq<Change> {
    if a.e.readPending && a.e.sendOK then Merged(pending, a.cur) else []
  }

  /** Whatever fails, a delivery is one step of the backlog. */
  lemma DeliveryIsAttempt(kv: KV, ch: Channel, diff: Diff, e: Env)
    ensures
      var o := Attempted(kv, ch, diff, e);
      var a := Attempt(Filter(ch.rule, diff.changes), e);
      && Backlog(o.kv, ch) == NextBacklog(Backlog(kv, ch), a)
      && (if o.sent.Some? then o.sent.value.changes else []) == Digested(Backlog(kv, ch), a)
      && (o.sent.Some? && o.sent.value.event == Heartbeat ==> o.sent.value.changes == [])
  {
    hide Merged, Filter;
    MergedKeepsAll(Backlog(kv, ch), Filter(ch.rule, diff.changes));
    KeysDiffer(ch, ch);
  }

  lemma {:induction false} OverlayGrows(out: seq<Change>, cur: seq<Change>)
    ensures |Overlay(out, cur)| >= |out|
  {
    if cur != [] {
      OverlayGrows(out, cur[..|cur| - 1]);
      PlaceGrows(Overlay(out, cur[..|cur| - 1]), cur[|cur| - 1]);
    }
  }

  lemma {:induction false} PlaceGrows(out: seq<Change>, c: Change)
    ensures |Place(out, c)| >= |out|
  {
    if out != [] && out[0].finding.Print() != c.finding.Print() { PlaceGrows(out[1..], c); }
  }

  lemma MergedKeepsAll(pending: seq<Change>, cur: seq<Change>)
    ensures |Merged(pending, cur)| >= |pending|
  {
    OverlayGrows(pending, cur);
    assert |multiset(Sort(Overlay(pending, cur), ChangeLeq))| == |multiset(Overlay(pending, cur))|;
  }

  function BacklogAfter(h: seq<Attempt>): seq<Change> {
    if h == [] then [] else NextBacklog(BacklogAfter(h[..|h| - 1]), h[|h| - 1])
  }

  /** All changes let through since the last digest that arrived. */
  function SinceDigest(h: seq<Attempt>): seq<Change> {
    if h == [] then []
    else if h[|h| - 1].e.sendOK then []
    else SinceDigest(h[..|h| - 1]) + h[|h| - 1].cur
  }

  ghost predicate OnePerRun(h: seq<Attempt>) {
    forall i :: 0 <= i < |h| ==> Distinct(h[i].cur) && SortedBy(h[i].cur, ChangeLeq)
  }

  /** The database answered, and no failed digest was over the cap. */
  ghost predicate UnderCap(h: seq<Attempt>) {
    forall n :: 0 <= n < |h| ==>
      Reliable(h[n].e) && (!h[n].e.sendOK ==> |Merged(BacklogAfter(h[..n]), h[n].cur)| <= MAX_PENDING)
  }

  lemma CappedKeeps(cs: seq<Change>)
    ensures |Capped(cs)| <= MAX_PENDING
    ensures Distinct(cs) ==> Distinct(Capped(cs))
    ensures SortedBy(cs, ChangeLeq) ==> SortedBy(Capped(cs), ChangeLeq)
    ensures cs != [] ==> Capped(cs) != []
    ensures |cs| <= MAX_PENDING ==> Capped(cs) == cs
  {
  }

  /** Over the cap or not, whatever fails: at most 500 entries, one per finding, in order. */
  lemma {:induction false} BacklogIsTidy(h: seq<Attempt>)
    requires OnePerRun(h)
    ensures |BacklogAfter(h)| <= 500
    ensures Distinct(BacklogAfter(h)) && SortedBy(BacklogAfter(h), ChangeLeq)
  {
    if h != [] {
      var n := |h| - 1;
      BacklogIsTidy(h[..n]);
      MergedFor(BacklogAfter(h[..n]), h[n].cur, Fingerprint("", "", ""));
      CappedKeeps(Merged(BacklogAfter(h[..n]), h[n].cur));
    }
  }

  lemma StepStaysDistinct(pending: seq<Change>, a: Attempt)
    requires Distinct(pending) && Distinct(a.cur)
    ensures Distinct(NextBacklog(pending, a))
  {
    MergedFor(pending, a.cur, Fingerprint("", "", ""));
    CappedKeeps(Merged(pending, a.cur));
  }

  /**
   * Under the cap the backlog loses nothing: after any sequence of deliveries it
   * is the collapse of everything let through since the last digest that arrived.
   * (BacklogIsTidy makes it the only such list.)
   */
  lemma {:induction false} BacklogIsCollapse(h: seq<Attempt>, fp: Fingerprint)
    requires OnePerRun(h) && UnderCap(h)
    ensures ChangeFor(BacklogAfter(h), fp) == Collapse(SinceDigest(h), fp)
  {
    if h != [] {
      var n := |h| - 1;
      assert UnderCap(h[..n]) by {
        forall m | 0 <= m < n ensures h[..n][..m] == h[..m] { }
      }
      BacklogIsCollapse(h[..n], fp);
      BacklogIsTidy(h[..n]);
      MergedFor(BacklogAfter(h[..n]), h[n].cur, fp);
      CappedKeeps(Merged(BacklogAfter(h[..n]), h[n].cur));
      CollapseConcat(None, SinceDigest(h[..n]), h[n].cur, fp);
      CollapseDistinct(Collapse(SinceDigest(h[..n]), fp), h[n].cur, fp);
    }
  }

  // ----- the cap ----------------------------------------------------------------------------------

  /** How many changes sort after c. */
  function After(cs: seq<Change>, c: Change): nat {
    if cs == [] then 0 else After(cs[..|cs| - 1], c) + if ChangeLeq(cs[|cs| - 1], c) then 0 else 1
  }

  lemma {:induction false} AfterAt(cs: seq<Change>, k: int, n: int)
    requires SortedBy(cs, ChangeLeq) && NoTies(cs, ChangeLeq) && 0 <= k < |cs| && 0 <= n <= |cs|
    requires forall i, j :: 0 <= i < j < |cs| ==> cs[i] != cs[j]
    ensures After(cs[..n], cs[k]) == if n <= k + 1 then 0 else n - 1 - k
  {
    hide ChangeLeq;
    if n > 0 {
      AfterAt(cs, k, n - 1);
      assert cs[..n][..n - 1] == cs[..n - 1];
      assert cs[n - 1] in cs && cs[k] in cs;
    }
  }

  lemma CapCuts<T>(cs: seq<T>, k: int, off: int)
    requires 0 <= k < |cs| && 0 <= off <= |cs|
    requires forall i, j :: 0 <= i < j < |cs| ==> cs[i] != cs[j]
    ensures cs[k] in cs[off..] <==> k >= off
  {
    if k >= off { assert cs[off..][k - off] == cs[k]; }
  }

  /** The cap keeps a change exactly if fewer than 500 sort after it. */
  lemma CapKeepsExactly(cs: seq<Change>, c: Change)
    requires Distinct(cs) && SortedBy(cs, ChangeLeq) && c in cs
    ensures c in Capped(cs) <==> After(cs, c) < 500
  {
    hide ChangeLeq, After;
    DistinctNoTies(cs);
    var k :| 0 <= k < |cs| && cs[k] == c;
    AfterAt(cs, k, |cs|);
    assert cs[..|cs|] == cs;
    CapCuts(cs, k, if |cs| > MAX_PENDING then |cs| - MAX_PENDING else 0);
    hide Distinct, SortedBy, NoTies;
  }

  /** The delivery read its backlog, could not send, and stored what is left to say. */
  predicate StoredAgain(e: Env) { e.readPending && !e.sendOK && e.write }

  /** For any run: a fresh change is dropped exactly if at least 500 merged changes sort after it. */
  lemma DroppedExactlyWhen(pending: seq<Change>, a: Attempt, c: Change)
    requires Distinct(pending) && Distinct(a.cur) && SortedBy(a.cur, ChangeLeq) && StoredAgain(a.e)
    requires c in a.cur && ChangeFor(pending, c.finding.Print()).None?
    ensures c !in NextBacklog(pending, a) <==> After(Merged(pending, a.cur), c) >= 500
  {
    var fp, merged := c.finding.Print(), Merged(pending, a.cur);
    MergedFor(pending, a.cur, fp);
    ChangeForMember(a.cur, fp);
    ChangeForMember(merged, fp);
    CapKeepsExactly(merged, c);
  }

  lemma AppendFresh(pending: seq<Change>, c: Change)
    requires Distinct(pending) && ChangeFor(pending, c.finding.Print()).None? && pending != []
    ensures Merged(pending, [c]) == Sort(pending + [c], ChangeLeq) && Distinct(pending + [c])
  {
    hide Sort;
    ChangeForMember(pending, c.finding.Print());
    PlaceNew(pending, c);
    assert [c][..0] == [];
    assert Overlay(pending, []) == pending;
  }

  /**
   * A full backlog and one fresh change: it is the fresh change that is dropped
   * exactly if it sorts first, and otherwise the entry that sorts first, however
   * old either of them is.
   */
  lemma CapDropsFirst(pending: seq<Change>, c: Change, e: Env)
    requires |pending| == 500 && Distinct(pending) && SortedBy(pending, ChangeLeq) && StoredAgain(e)
    requires ChangeFor(pending, c.finding.Print()).None?
    ensures c in NextBacklog(pending, Attempt([c], e)) <==> !ChangeLeq(c, pending[0])
    ensures pending[0] in NextBacklog(pending, Attempt([c], e)) <==> ChangeLeq(c, pending[0])
    ensures forall d :: d in pending[1..] ==> d in NextBacklog(pending, Attempt([c], e))
  {
    hide Sort, ChangeLeq, Distinct;
    var all := pending + [c];
    AppendFresh(pending, c);
    var merged := Sort(all, ChangeLeq);
    ChangesOrdered();
    SortSorts(all, ChangeLeq);
    MultisetMembers(all, merged);
    DistinctPermutes(all, merged);
    DistinctNoTies(all);
    assert |multiset(merged)| == |multiset(all)| && |merged| == |all|;
    FirstAndRest(merged, NextBacklog(pending, Attempt([c], e)));
    FreshIsNew(pending, c);
    LeastIsFirst(all, merged, if ChangeLeq(c, pending[0]) then c else pending[0]);
  }

  lemma FreshIsNew(pending: seq<Change>, c: Change)
    requires Distinct(pending) && ChangeFor(pending, c.finding.Print()).None?
    ensures c !in pending && (pending != [] ==> pending[0] !in pending[1..])
  {
    ChangeForMember(pending, c.finding.Print());
  }

  lemma FirstAndRest(merged: seq<Change>, kept: seq<Change>)
    requires |merged| == MAX_PENDING + 1 && Distinct(merged) && kept == Capped(merged)
    ensures forall d :: d in kept <==> d in merged && d != merged[0]
  {
    assert kept == merged[1..];
    assert merged == [merged[0]] + merged[1..];
  }

  lemma LeastIsFirst(all: seq<Change>, sorted: seq<Change>, c: Change)
    requires NoTies(all, ChangeLeq) && SortedBy(sorted, ChangeLeq) && sorted != []
    requires forall x :: x in sorted <==> x in all
    requires c in all && forall x :: x in all ==> ChangeLeq(c, x)
    ensures sorted[0] == c
  {
    hide ChangeLeq;
    assert sorted[0] in sorted && c in sorted;
    var k :| 0 <= k < |sorted| && sorted[k] == c;
    assert ChangeLeq(sorted[0], c);
  }

  // ----- a full backlog exists ---------------------------------------------------------------------

  function Letters(n: nat): string { seq(n, i => 'a') }

  lemma {:induction false} LongerIsLater(i: nat, j: nat)
    requires i < j
    ensures Compare(Letters(i), Letters(j)) < 0
  {
    if i > 0 {
      assert Letters(i)[1..] == Letters(i - 1) && Letters(j)[1..] == Letters(j - 1);
      LongerIsLater(i - 1, j - 1);
    }
  }

  /** The n-th of a row of changes about one check and target. */
  function Numbered(n: nat): Change {
    Change(New, Finding("m.a.c", "t", Letters(n), SEVERITY_INFO, "", map[], "", None), false, 0)
  }

  lemma NumberedInOrder(i: nat, j: nat)
    requires i < j
    ensures ChangeLeq(Numbered(i), Numbered(j)) && !ChangeLeq(Numbered(j), Numbered(i))
    ensures Numbered(i).finding.Print() != Numbered(j).finding.Print()
  {
    LongerIsLater(i, j);
    CompareMirror(Letters(i), Letters(j));
    CompareMirror("m.a.c", "m.a.c");
    CompareMirror("t", "t");
    assert |Letters(i)| != |Letters(j)|;
  }

  /** There is a full backlog, with a fresh change that the cap drops and another that it keeps. */
  lemma FullBacklogExists(e: Env) returns (pending: seq<Change>, dropped: Change, kept: Change)
    requires StoredAgain(e)
    ensures |pending| == 500 && Distinct(pending) && SortedBy(pending, ChangeLeq)
    ensures dropped !in NextBacklog(pending, Attempt([dropped], e))
    ensures kept in NextBacklog(pending, Attempt([kept], e)) && pending[0] !in NextBacklog(pending, Attempt([kept], e))
  {
    hide ChangeLeq, Numbered, NextBacklog;
    pending := seq(MAX_PENDING, i requires 0 <= i < MAX_PENDING => Numbered(i + 1));
    dropped, kept := Numbered(0), Numbered(MAX_PENDING + 1);
    forall i, j | 0 <= i < j < |pending|
      ensures ChangeLeq(pending[i], pending[j]) && pending[i].finding.Print() != pending[j].finding.Print()
    {
      NumberedInOrder(i + 1, j + 1);
    }
    forall c | c in pending
      ensures c.finding.Print() != dropped.finding.Print() && c.finding.Print() != kept.finding.Print()
    {
      var i :| 0 <= i < |pending| && pending[i] == c;
      NumberedInOrder(0, i + 1);
      NumberedInOrder(i + 1, MAX_PENDING + 1);
    }
    ChangeForMember(pending, dropped.finding.Print());
    ChangeForMember(pending, kept.finding.Print());
    NumberedInOrder(0, 1);
    NumberedInOrder(1, MAX_PENDING + 1);
    CapDropsFirst(pending, dropped, e);
    CapDropsFirst(pending, kept, e);
  }

  // ----- what a channel is told, by its rule -----------------------------------------------------------

  /** The channel asked for such changes. */
  predicate AskedFor(r: Rule, c: Change) {
    !c.suppressed && c.kind in r.on && c.finding.severity >= r.minSeverity
  }

  /** Consecutive deliveries to one channel, from an empty backlog. */
  ghost predicate Served(kvs: seq<KV>, ch: Channel, diffs: seq<Diff>, es: seq<Env>) {
    && |kvs| == |es| + 1 && |diffs| == |es|
    && Backlog(kvs[0], ch) == []
    && forall i :: 0 <= i < |es| ==> Own(kvs[i + 1], ch) == Own(Attempted(kvs[i], ch, diffs[i], es[i]).kv, ch)
  }

  /** Some run up to the n-th reported the change. */
  ghost predicate Reported(diffs: seq<Diff>, n: int, c: Change) {
    exists j :: 0 <= j < n && j < |diffs| && c in diffs[j].changes
  }

  lemma {:induction false} PlaceMembers(out: seq<Change>, c: Change)
    ensures forall d :: d in Place(out, c) ==> d in out || d == c
  {
    if out != [] && out[0].finding.Print() != c.finding.Print() {
      PlaceMembers(out[1..], c);
      assert out == [out[0]] + out[1..];
    }
  }

  lemma {:induction false} OverlayMembers(out: seq<Change>, cur: seq<Change>)
    ensures forall d :: d in Overlay(out, cur) ==> d in out || d in cur
  {
    hide Place;
    if cur != [] {
      OverlayMembers(out, cur[..|cur| - 1]);
      PlaceMembers(Overlay(out, cur[..|cur| - 1]), cur[|cur| - 1]);
    }
  }

  lemma MergedMembers(pending: seq<Change>, cur: seq<Change>)
    ensures forall d :: d in Merged(pending, cur) ==> d in pending || d in cur
  {
    OverlayMembers(pending, cur);
    MultisetMembers(Overlay(pending, cur), Sort(Overlay(pending, cur), ChangeLeq));
    hide Sort, Overlay;
  }

  /** One delivery: what is stored or sent was stored before, or the run reports it and the channel asked for it. */
  lemma OnlyAskedFor(kv: KV, ch: Channel, diff: Diff, e: Env)
    ensures
      var o := Attempted(kv, ch, diff, e);
      && (forall c :: c in Backlog(o.kv, ch) ==> c in Backlog(kv, ch) || (c in diff.changes && AskedFor(ch.rule, c)))
      && (o.sent.Some? ==> forall c :: c in o.sent.value.changes ==>
            c in Backlog(kv, ch) || (c in diff.changes && AskedFor(ch.rule, c)))
  {
    var cur := Filter(ch.rule, diff.changes);
    DeliveryIsAttempt(kv, ch, diff, e);
    FilterKeeps(ch.rule, diff.changes);
    MergedMembers(Backlog(kv, ch), cur);
    hide Attempted, Filter, Merged;
    assert forall c :: c in Capped(Merged(Backlog(kv, ch), cur)) ==> c in Merged(Backlog(kv, ch), cur);
  }

  /** Whatever is ever sent to a channel or stored for it, some run reported and the channel asked for. */
  lemma {:induction false} OnlyAskedForEver(kvs: seq<KV>, ch: Channel, diffs: seq<Diff>, es: seq<Env>, n: int)
    requires Served(kvs, ch, diffs, es) && 0 <= n <= |es|
    ensures forall c :: c in Backlog(kvs[n], ch) ==> AskedFor(ch.rule, c) && Reported(diffs, n, c)
    ensures n < |es| ==>
      var sent := Attempted(kvs[n], ch, diffs[n], es[n]).sent;
      sent.Some? ==> forall c :: c in sent.value.changes ==> AskedFor(ch.rule, c) && Reported(diffs, n + 1, c)
  {
    hide Attempted, AskedFor, Backlog;
    if n > 0 {
      OnlyAskedForEver(kvs, ch, diffs, es, n - 1);
      OnlyAskedFor(kvs[n - 1], ch, diffs[n - 1], es[n - 1]);
      SameBacklog(kvs[n], Attempted(kvs[n - 1], ch, diffs[n - 1], es[n - 1]).kv, ch);
    }
    if n < |es| { OnlyAskedFor(kvs[n], ch, diffs[n], es[n]); }
  }

  lemma SameBacklog(kv: KV, other: KV, ch: Channel)
    requires Own(kv, ch) == Own(other, ch)
    ensures Backlog(kv, ch) == Backlog(other, ch)
  {
  }

  /** A change about the same finding that is more than "persisting". */
  predicate StandsFor(d: Change, c: Change) {
    && d.kind != Persisting
    && d.finding.checkID == c.finding.checkID && d.finding.target == c.finding.target
    && d.finding.subject == c.finding.subject
  }

  /**
   * And everything asked for is told: if the run reports such a change and the
   * message gets through, a digest holds it, unless an undelivered change about
   * the same finding stands where a "persisting" would.
   */
  lemma AllAskedFor(kv: KV, ch: Channel, diff: Diff, e: Env, c: Change)
    requires Distinct(Backlog(kv, ch)) && Distinct(diff.changes)
    requires c in diff.changes && AskedFor(ch.rule, c) && e.readPending && e.sendOK
    ensures
      var sent := Attempted(kv, ch, diff, e).sent;
      && sent.Some? && sent.value.event == Digest
      && (c in sent.value.changes ||
          (c.kind == Persisting && exists d :: d in sent.value.changes && StandsFor(d, c)))
  {
    var fp, cur := c.finding.Print(), Filter(ch.rule, diff.changes);
    var merged := Merged(Backlog(kv, ch), cur);
    FilterKeeps(ch.rule, diff.changes);
    MergedFor(Backlog(kv, ch), cur, fp);
    ChangeForMember(cur, fp);
    ChangeForMember(merged, fp);
    hide Merged, Filter, ChangeFor, Distinct;
    assert c in cur && ChangeFor(cur, fp) == Some(c);
    assert ChangeFor(merged, fp).value in merged;
  }

  /** A message without changes is a heartbeat, and only such a one is. */
  lemma DigestsHaveChanges(kv: KV, ch: Channel, diff: Diff, e: Env)
    ensures
      var sent := Attempted(kv, ch, diff, e).sent;
      sent.Some? ==> (sent.value.event == Heartbeat <==> sent.value.changes == [])
  {
    hide Merged, Filter;
  }
}
