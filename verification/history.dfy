/** The findings table over whole histories of runs, renames and prunes. */
module History {
  import opened Core
  import opened Lifecycle
  import opened State
  import opened Recording

  /** canon is the renaming of check IDs in force when the run is recorded. */
  datatype StoreEvent = Recorded(res: RunResult, canon: string -> string) | PrunedAt(cutoff: int)

  ghost predicate StoreStep(t: Table, e: StoreEvent, resolveAfter: int, t': Table) {
    match e
    case Recorded(res, canon) => Renameable(t, canon) && TableSteps(Renamed(t, canon), res, resolveAfter, t')
    case PrunedAt(cutoff) => t' == KeptFindings(t, cutoff)
  }

  /** A history of the table, from empty. */
  ghost predicate Tables(ts: seq<Table>, es: seq<StoreEvent>, resolveAfter: int) {
    && |ts| == |es| + 1 && ts[0] == map[]
    && forall i :: 0 <= i < |es| ==> StoreStep(ts[i], es[i], resolveAfter, ts[i + 1])
  }

  /** A row filed under fp before the event is filed under fp' after it, and no other row is. */
  ghost predicate Carries(t: Table, e: StoreEvent, fp: Fingerprint, fp': Fingerprint) {
    match e
    case Recorded(_, canon) => forall k :: k in t ==> (Canonical(k, canon) == fp' <==> k == fp)
    case PrunedAt(_) => fp' == fp
  }

  /** One finding's fingerprints over the history, renames followed. */
  ghost predicate Traces(ts: seq<Table>, es: seq<StoreEvent>, fps: seq<Fingerprint>) {
    && |ts| == |es| + 1 && |fps| == |ts|
    && forall i :: 0 <= i < |es| ==> Carries(ts[i], es[i], fps[i], fps[i + 1])
  }

  /** What the finding sees of an event; fp is its fingerprint afterwards. */
  function MomentOf(e: StoreEvent, fp: Fingerprint): Moment {
    match e
    case Recorded(res, _) => Ran(Observe(res, fp), res.started + res.duration)
    case PrunedAt(cutoff) => Prune(cutoff)
  }

  /** What one finding sees of the store's history. */
  function SeenBy(es: seq<StoreEvent>, fps: seq<Fingerprint>): (h: seq<Moment>)
    requires |fps| == |es| + 1
    ensures |h| == |es|
  {
    seq(|es|, i requires 0 <= i < |es| => MomentOf(es[i], fps[i + 1]))
  }

  function Refiled(st: Option<Stored>, id: string): Option<Stored> {
    match st case None => None case Some(s) => Some(s.(f := s.f.(checkID := id)))
  }

  lemma RenamedRow(t: Table, canon: string -> string, res: RunResult, fp: Fingerprint, fp': Fingerprint)
    requires Renameable(t, canon) && Carries(t, Recorded(res, canon), fp, fp')
    ensures Get(Renamed(t, canon), fp') == Refiled(Get(t, fp), fp'.checkID)
  {
    if fp in t { assert Canonical(fp, canon) == fp'; }
  }

  /** Filing a row under another check ID does not alter its life. */
  lemma RefiledStep(st: Option<Stored>, e: StoreEvent, fp: Fingerprint, resolveAfter: int)
    ensures
      match MomentOf(e, fp)
      case Ran(o, now) =>
        Next(Refiled(st, fp.checkID), o, resolveAfter, now) == Refiled(Next(st, o, resolveAfter, now), fp.checkID)
      case Prune(cutoff) => Pruned(Refiled(st, fp.checkID), cutoff) == Refiled(Pruned(st, cutoff), fp.checkID)
  {
    if e.Recorded? { OccurrenceMember(Current(e.res), fp); }
  }

  lemma RefiledTwice(st: Option<Stored>, a: string, b: string)
    ensures Refiled(Refiled(st, a), b) == Refiled(st, b)
  {
  }

  lemma PrunedRow(t: Table, cutoff: int, fp: Fingerprint)
    ensures Get(KeptFindings(t, cutoff), fp) == Pruned(Get(t, fp), cutoff)
  {
  }

  /**
   * The row of every finding, renames followed, is what its own history says,
   * so the lifecycle theorems apply to the store.
   */
  lemma {:induction false} StoreFollowsHistory(
    ts: seq<Table>, es: seq<StoreEvent>, resolveAfter: int, fps: seq<Fingerprint>)
    requires Tables(ts, es, resolveAfter) && Traces(ts, es, fps)
    ensures Get(ts[|es|], fps[|es|]) ==
      Refiled(StateAfter(SeenBy(es, fps), Max(resolveAfter, 1)), fps[|es|].checkID)
  {
    hide Observe, Next, Pruned, Refiled, Renameable, Renamed, KeptFindings;
    if es == [] {
      NoRowYet(fps[0].checkID);
    } else {
      var n := |es| - 1;
      var before := StateAfter(SeenBy(es[..n], fps[..n + 1]), Max(resolveAfter, 1));
      StoreFollowsHistory(ts[..n + 1], es[..n], resolveAfter, fps[..n + 1]);
      assert SeenBy(es, fps)[..n] == SeenBy(es[..n], fps[..n + 1]);
      assert StoreStep(ts[n], es[n], resolveAfter, ts[n + 1]) && Carries(ts[n], es[n], fps[n], fps[n + 1]);
      RefiledStep(before, es[n], fps[n + 1], Max(resolveAfter, 1));
      RefiledTwice(before, fps[n].checkID, fps[n + 1].checkID);
      match es[n]
      case PrunedAt(cutoff) => PrunedRow(ts[n], cutoff, fps[n]);
      case Recorded(res, canon) => RenamedRow(ts[n], canon, res, fps[n], fps[n + 1]);
    }
  }

  lemma NoRowYet(id: string)
    ensures Refiled(None, id) == None
  {
  }

  // ----- every finding has such a trace ---------------------------------------------------------

  lemma UnusedKey(t: Table) returns (fp: Fingerprint)
    ensures fp !in t
  {
    var longest: nat := 0;
    var todo := t.Keys;
    while todo != {}
      invariant todo <= t.Keys
      invariant forall k :: k in t && k !in todo ==> |k.checkID| <= longest
      decreases todo
    {
      var k :| k in todo;
      longest := Max(longest, |k.checkID|);
      todo := todo - {k};
    }
    fp := Fingerprint(seq(longest + 1, i => 'a'), "", "");
    assert |fp.checkID| == longest + 1;
  }

  lemma CarriedFrom(t: Table, e: StoreEvent, fp': Fingerprint) returns (fp: Fingerprint)
    requires e.Recorded? ==> Renameable(t, e.canon)
    ensures Carries(t, e, fp, fp')
  {
    if e.PrunedAt? {
      fp := fp';
    } else if k :| k in t && Canonical(k, e.canon) == fp' {
      fp := k;
    } else {
      fp := UnusedKey(t);
    }
  }

  /** Whatever is stored at the end, its fingerprints can be followed back to the beginning. */
  lemma {:induction false} TraceBack(ts: seq<Table>, es: seq<StoreEvent>, resolveAfter: int, fp: Fingerprint)
    returns (fps: seq<Fingerprint>)
    requires Tables(ts, es, resolveAfter)
    ensures Traces(ts, es, fps) && fps[|es|] == fp
    decreases |es|
  {
    hide Carries;
    if es == [] {
      fps := [fp];
    } else {
      var n := |es| - 1;
      assert StoreStep(ts[n], es[n], resolveAfter, ts[n + 1]);
      var previous := CarriedFrom(ts[n], es[n], fp);
      var earlier := TraceBack(ts[..n + 1], es[..n], resolveAfter, previous);
      fps := earlier + [fp];
      forall i | 0 <= i < |es| ensures Carries(ts[i], es[i], fps[i], fps[i + 1]) {
        if i < n { assert Carries(ts[..n + 1][i], es[..n][i], earlier[i], earlier[i + 1]); }
      }
    }
  }

  // ----- the lifecycle, said of the runs themselves -------------------------------------------------

  /** The event is a run that misses the finding although its check ran without error. */
  ghost predicate Misses(e: StoreEvent, fp: Fingerprint) { e.Recorded? && MissedBy(e.res, fp) }

  /** The event is a run that lists the finding, or drops its target. */
  ghost predicate Settles(e: StoreEvent, fp: Fingerprint) {
    e.Recorded? && (Listed(e.res, fp) || DroppedBy(e.res, fp))
  }

  /** How many of the events from..to miss the finding. */
  ghost function TimesMissed(es: seq<StoreEvent>, fps: seq<Fingerprint>, from: nat, to: nat): nat
    requires from <= to <= |es| && |fps| == |es| + 1
  {
    if from == to then 0
    else TimesMissed(es, fps, from, to - 1) + if Misses(es[to - 1], fps[to]) then 1 else 0
  }

  /** Run i listed the finding, and none since has listed it or dropped its target. */
  ghost predicate LastListed(es: seq<StoreEvent>, fps: seq<Fingerprint>, i: int)
    requires |fps| == |es| + 1
  {
    && 0 <= i < |es| && es[i].Recorded? && Listed(es[i].res, fps[i + 1])
    && forall j :: i < j < |es| ==> !Settles(es[j], fps[j + 1])
  }

  /** Event k is the run that misses the finding for the limit-th time since run i. */
  ghost predicate ResolvedBy(es: seq<StoreEvent>, fps: seq<Fingerprint>, i: int, k: int, limit: int)
    requires |fps| == |es| + 1
  {
    0 <= i < k < |es| && Misses(es[k], fps[k + 1]) && TimesMissed(es, fps, i + 1, k) + 1 == limit
  }

  /** A prune since run k was late enough to delete what run k resolved. */
  ghost predicate DeletedSince(es: seq<StoreEvent>, k: int)
    requires 0 <= k < |es| && es[k].Recorded?
  {
    exists j :: k < j < |es| && es[j].PrunedAt? && es[k].res.started + es[k].res.duration < es[j].cutoff
  }

  lemma MomentTells(e: StoreEvent, fp: Fingerprint)
    ensures IsClean(MomentOf(e, fp)) <==> Misses(e, fp)
    ensures Decides(MomentOf(e, fp)) <==> Settles(e, fp)
    ensures MomentOf(e, fp).Ran? && MomentOf(e, fp).o.Present? <==> e.Recorded? && Listed(e.res, fp)
  {
    if e.Recorded? { ObservedAbsent(e.res, fp); }
    hide Observe;
  }

  lemma {:induction false} SameCount(es: seq<StoreEvent>, fps: seq<Fingerprint>, from: nat, to: nat)
    requires from <= to <= |es| && |fps| == |es| + 1
    ensures CleanAbsences(SeenBy(es, fps), from, to) == TimesMissed(es, fps, from, to)
  {
    hide IsClean, MomentOf, Misses;
    if from < to {
      SameCount(es, fps, from, to - 1);
      MomentTells(es[to - 1], fps[to]);
    }
  }

  lemma SameLast(es: seq<StoreEvent>, fps: seq<Fingerprint>, i: int)
    requires |fps| == |es| + 1
    ensures LastPresentAt(SeenBy(es, fps), i) <==> LastListed(es, fps, i)
  {
    hide MomentOf, Decides, Settles, Listed;
    forall j | 0 <= j < |es|
      ensures Decides(SeenBy(es, fps)[j]) <==> Settles(es[j], fps[j + 1])
      ensures SeenBy(es, fps)[j].Ran? && SeenBy(es, fps)[j].o.Present? <==>
          es[j].Recorded? && Listed(es[j].res, fps[j + 1])
    {
      MomentTells(es[j], fps[j + 1]);
    }
  }

  lemma SameResolution(es: seq<StoreEvent>, fps: seq<Fingerprint>, i: int, k: int, limit: int)
    requires |fps| == |es| + 1
    ensures ResolvedIn(SeenBy(es, fps), i, k, limit) <==> ResolvedBy(es, fps, i, k, limit)
    ensures ResolvedBy(es, fps, i, k, limit) ==> (PrunedSince(SeenBy(es, fps), k) <==> DeletedSince(es, k))
  {
    if 0 <= i < k < |es| {
      SameCount(es, fps, i + 1, k);
      MomentTells(es[k], fps[k + 1]);
      var h := SeenBy(es, fps);
      assert forall j :: 0 <= j < |es| ==>
        (h[j].Prune? <==> es[j].PrunedAt?) && (h[j].Prune? ==> h[j].cutoff == es[j].cutoff);
      if es[k].Recorded? { assert h[k].now == es[k].res.started + es[k].res.duration; }
      hide MomentOf, SeenBy, Misses, IsClean;
    }
  }

  /** Filing a row elsewhere does not alter what is reported about it but for the check ID. */
  lemma RefiledReport(st: Option<Stored>, id: string, o: Observation, resolveAfter: int, now: int)
    ensures
      var (r, r') := (Report(st, o, resolveAfter, now), Report(Refiled(st, id), o, resolveAfter, now));
      r.None? <==> r'.None?
    ensures
      var (r, r') := (Report(st, o, resolveAfter, now), Report(Refiled(st, id), o, resolveAfter, now));
      r.Some? ==> r.value.kind == r'.value.kind
  {
  }

  /** One more run, recorded after the history, and what it reports about the finding. */
  ghost predicate NextRun(
    ts: seq<Table>, es: seq<StoreEvent>, resolveAfter: int, fps: seq<Fingerprint>, last: StoreEvent, fp: Fingerprint,
    cs: seq<Change>)
  {
    && Tables(ts, es, resolveAfter) && Traces(ts, es, fps)
    && last.Recorded? && Renameable(ts[|es|], last.canon) && Carries(ts[|es|], last, fps[|es|], fp)
    && DiffTells(Renamed(ts[|es|], last.canon), last.res, resolveAfter, cs)
  }

  lemma NextRunReports(
    ts: seq<Table>, es: seq<StoreEvent>, resolveAfter: int, fps: seq<Fingerprint>, last: StoreEvent, fp: Fingerprint,
    cs: seq<Change>)
    requires NextRun(ts, es, resolveAfter, fps, last, fp, cs)
    ensures
      var r := ReportAfter(SeenBy(es, fps), Observe(last.res, fp), Max(resolveAfter, 1),
                           last.res.started + last.res.duration);
      && (ChangeFor(cs, fp).Some? <==> r.Some?)
      && (r.Some? ==> ChangeFor(cs, fp).value.kind == r.value.kind)
  {
    hide Observe, Report, Renameable, Renamed, Refiled, Carries;
    var now := last.res.started + last.res.duration;
    var st := StateAfter(SeenBy(es, fps), Max(resolveAfter, 1));
    StoreFollowsHistory(ts, es, resolveAfter, fps);
    RenamedRow(ts[|es|], last.canon, last.res, fps[|es|], fp);
    RefiledTwice(st, fps[|es|].checkID, fp.checkID);
    RefiledReport(st, fp.checkID, Observe(last.res, fp), Max(resolveAfter, 1), now);
  }

  /**
   * Over any history of runs, renames and prunes: a run reports a finding as
   * resolved exactly if it misses it with a clean check, and is exactly the
   * limit-th run to do so since a run last listed it.
   */
  lemma ReportedResolvedExactlyWhen(
    ts: seq<Table>, es: seq<StoreEvent>, resolveAfter: int, fps: seq<Fingerprint>, last: StoreEvent, fp: Fingerprint,
    cs: seq<Change>)
    requires NextRun(ts, es, resolveAfter, fps, last, fp, cs)
    ensures (exists c :: c in cs && IsAbout(c.finding, fp) && c.kind == Resolved) <==>
      && MissedBy(last.res, fp)
      && exists i :: LastListed(es, fps, i) && TimesMissed(es, fps, i + 1, |es|) + 1 == Limit(resolveAfter)
  {
    hide Carries, Renameable, Renamed;
    var h := SeenBy(es, fps);
    NextRunReports(ts, es, resolveAfter, fps, last, fp, cs);
    ResolvedExactlyWhen(h, Observe(last.res, fp), Max(resolveAfter, 1), last.res.started + last.res.duration);
    ObservedAbsent(last.res, fp);
    ChangeForMember(cs, fp);
    forall i ensures LastPresentAt(h, i) <==> LastListed(es, fps, i) { SameLast(es, fps, i); }
    forall i | LastListed(es, fps, i) ensures CleanAbsences(h, i + 1, |es|) == TimesMissed(es, fps, i + 1, |es|) {
      SameCount(es, fps, i + 1, |es|);
    }
    hide NextRun, Observe, MissedBy, LastPresentAt, LastListed, ChangeFor, ReportAfter, SeenBy, DiffTells;
  }

  /**
   * Likewise regressed: the run lists the finding again after a run resolved it,
   * with no prune since that was late enough to delete it.
   */
  lemma ReportedRegressedExactlyWhen(
    ts: seq<Table>, es: seq<StoreEvent>, resolveAfter: int, fps: seq<Fingerprint>, last: StoreEvent, fp: Fingerprint,
    cs: seq<Change>)
    requires NextRun(ts, es, resolveAfter, fps, last, fp, cs) && Listed(last.res, fp)
    ensures (exists c :: c in cs && IsAbout(c.finding, fp) && c.kind == Regressed) <==>
      exists i, k :: LastListed(es, fps, i) && ResolvedBy(es, fps, i, k, Limit(resolveAfter)) && !DeletedSince(es, k)
  {
    hide Carries, Renameable, Renamed;
    var h := SeenBy(es, fps);
    NextRunReports(ts, es, resolveAfter, fps, last, fp, cs);
    ObservedAbsent(last.res, fp);
    RegressedExactlyWhen(h, Observe(last.res, fp).p, Max(resolveAfter, 1), last.res.started + last.res.duration);
    ChangeForMember(cs, fp);
    var limit := Limit(resolveAfter);
    assert limit == Max(resolveAfter, 1);
    hide NextRun, Observe, LastPresentAt, LastListed, ChangeFor, ReportAfter, SeenBy, DiffTells, PrunedSince;
    hide ResolvedIn, DeletedSince;
    if i, k :| LastPresentAt(h, i) && ResolvedIn(h, i, k, limit) && !PrunedSince(h, k) {
      SameLast(es, fps, i);
      SameResolution(es, fps, i, k, limit);
    }
    if i, k :| LastListed(es, fps, i) && ResolvedBy(es, fps, i, k, limit) && !DeletedSince(es, k) {
      SameLast(es, fps, i);
      SameResolution(es, fps, i, k, limit);
    }
  }
}
