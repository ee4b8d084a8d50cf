/**
 * The lifecycle of one finding, as a function of what each run says about it.
 * The store's methods are proved against these functions, and the theorems
 * over whole histories are about them.
 */
module Lifecycle {
  import opened Core
  import opened Ordering

  datatype Kind = New | Persisting | Resolved | Regressed

  datatype Change = Change(kind: Kind, finding: Finding, suppressed: bool, firstSeen: int)

  /** The findings table's columns; the primary key is f.Print(). */
  datatype Stored = Stored(
    f: Finding,
    open: bool,
    suppressed: bool,
    missing: nat,
    firstSeen: int,
    lastSeen: int,
    resolvedAt: Option<int>)

  /** What the table keeps of a finding: no references, and only severities that have a name. */
  function Kept(f: Finding): Finding {
    f.(references := None, severity := if ValidSeverity(f.severity) then f.severity else SEVERITY_UNSET)
  }

  // ----- what one run says about one finding ---------------------------------

  datatype Presence = Presence(f: Finding, suppressed: bool)

  /** Unsuppressed findings first, then the suppressed ones. */
  function Current(res: RunResult): seq<Presence> {
    seq(|res.findings|, i requires 0 <= i < |res.findings| => Presence(res.findings[i], false)) +
    seq(|res.suppressed|, i requires 0 <= i < |res.suppressed| => Presence(res.suppressed[i], true))
  }

  datatype Observation = Present(p: Presence) | Clean | Silent | Removed

  function Occurrence(cur: seq<Presence>, fp: Fingerprint): Option<Presence> {
    if cur == [] then None
    else if cur[0].f.Print() == fp then Some(cur[0])
    else Occurrence(cur[1..], fp)
  }

  /** The executions that ran and did not fail. */
  function CleanRuns(res: RunResult): set<Execution> {
    (set e | e in res.ran) - (set c | c in res.errors :: Execution(c.target, c.checkID))
  }

  function Observe(res: RunResult, fp: Fingerprint): Observation {
    match Occurrence(Current(res), fp)
    case Some(p) => Present(p)
    case None =>
      if fp.target !in res.targets then Removed
      else if Execution(fp.target, fp.checkID) in CleanRuns(res) then Clean
      else Silent
  }

  /** No finding occurs twice in the run, suppressed or not. */
  ghost predicate NoRepeats(res: RunResult) {
    DistinctPresences(Current(res))
  }

  ghost predicate DistinctPresences(cur: seq<Presence>) {
    forall i, j :: 0 <= i < j < |cur| ==> cur[i].f.Print() != cur[j].f.Print()
  }

  // ----- one step --------------------------------------------------------------

  function Next(st: Option<Stored>, o: Observation, resolveAfter: int, now: int): Option<Stored> {
    match o
    case Present(p) =>
      Some(Stored(Kept(p.f), true, p.suppressed, 0, if st.Some? then st.value.firstSeen else now, now, None))
    case Removed => None
    case Silent => st
    case Clean =>
      if st.None? || !st.value.open then st
      else if st.value.missing + 1 >= resolveAfter then
        Some(st.value.(open := false, missing := 0, resolvedAt := Some(now)))
      else Some(st.value.(missing := st.value.missing + 1))
  }

  function PresentKind(st: Option<Stored>, suppressed: bool): Kind {
    if st.None? then New
    else if !st.value.open then Regressed
    else if st.value.suppressed && !suppressed then New
    else Persisting
  }

  function Report(st: Option<Stored>, o: Observation, resolveAfter: int, now: int): Option<Change> {
    match o
    case Present(p) =>
      Some(Change(PresentKind(st, p.suppressed), p.f, p.suppressed, if st.Some? then st.value.firstSeen else now))
    case Removed => None
    case Silent => None
    case Clean =>
      if st.Some? && st.value.open && st.value.missing + 1 >= resolveAfter then
        Some(Change(Resolved, st.value.f, st.value.suppressed, st.value.firstSeen))
      else None
  }

  function Pruned(st: Option<Stored>, cutoff: int): Option<Stored> {
    if st.Some? && !st.value.open && st.value.resolvedAt.Some? && st.value.resolvedAt.value < cutoff then None else st
  }

  predicate IsOpen(st: Option<Stored>) { st.Some? && st.value.open }

  // ----- histories ---------------------------------------------------------------

  /** One thing that happens to the store, as seen by one finding. */
  datatype Moment = Ran(o: Observation, now: int) | Prune(cutoff: int)

  function StateAfter(h: seq<Moment>, resolveAfter: int): Option<Stored> {
    if h == [] then None
    else
      var st := StateAfter(h[..|h| - 1], resolveAfter);
      match h[|h| - 1]
      case Ran(o, now) => Next(st, o, resolveAfter, now)
      case Prune(cutoff) => Pruned(st, cutoff)
  }

  predicate Decides(m: Moment) { m.Ran? && (m.o.Present? || m.o.Removed?) }

  predicate IsClean(m: Moment) { m.Ran? && m.o.Clean? }

  /** How many runs in h[from..to] missed the finding although its check ran without error. */
  function CleanAbsences(h: seq<Moment>, from: nat, to: nat): nat
    requires from <= to <= |h|
  {
    if from == to then 0
    else CleanAbsences(h, from, to - 1) + (if IsClean(h[to - 1]) then 1 else 0)
  }

  /** The finding was last present in run i: neither seen nor forgotten since. */
  ghost predicate LastPresentAt(h: seq<Moment>, i: int) {
    && 0 <= i < |h|
    && h[i].Ran? && h[i].o.Present?
    && forall j :: i < j < |h| ==> !Decides(h[j])
  }

  /** Run k is the resolveAfter-th clean absence since the finding was present in run i. */
  predicate ResolvedIn(h: seq<Moment>, i: int, k: int, resolveAfter: int) {
    && 0 <= i < k < |h|
    && IsClean(h[k])
    && CleanAbsences(h, i + 1, k) + 1 == resolveAfter
  }

  /** A prune after run k was late enough to drop what run k resolved. */
  ghost predicate PrunedSince(h: seq<Moment>, k: int)
    requires 0 <= k < |h| && h[k].Ran?
  {
    exists j :: k < j < |h| && h[j].Prune? && h[k].now < h[j].cutoff
  }

  /** Everything the stored row says, read off the history since the finding was last present. */
  ghost predicate RowTells(h: seq<Moment>, i: int, st: Option<Stored>, resolveAfter: int)
    requires LastPresentAt(h, i)
  {
    var n := CleanAbsences(h, i + 1, |h|);
    if n < resolveAfter then
      && st.Some? && st.value.open
      && st.value.missing == n
      && st.value.f == Kept(h[i].o.p.f)
      && st.value.suppressed == h[i].o.p.suppressed
      && st.value.lastSeen == h[i].now
    else
      exists k :: ResolvedIn(h, i, k, resolveAfter) &&
        if PrunedSince(h, k) then st.None?
        else st.Some? && !st.value.open && st.value.resolvedAt == Some(h[k].now) &&
             st.value.f == Kept(h[i].o.p.f) && st.value.suppressed == h[i].o.p.suppressed
  }

  lemma {:induction false} AbsencesOfPrefix(h: seq<Moment>, from: int, to: int, n: int)
    requires 0 <= from <= to <= n <= |h|
    ensures CleanAbsences(h[..n], from, to) == CleanAbsences(h, from, to)
  {
    if from < to { AbsencesOfPrefix(h, from, to - 1, n); }
  }

  /** ResolvedIn and PrunedSince look no further than they say. */
  lemma ResolvedInPrefix(h: seq<Moment>, i: int, k: int, resolveAfter: int)
    requires h != [] && k < |h| - 1
    ensures ResolvedIn(h[..|h| - 1], i, k, resolveAfter) == ResolvedIn(h, i, k, resolveAfter)
  {
    if 0 <= i < k { AbsencesOfPrefix(h, i + 1, k, |h| - 1); }
  }

  /** The absence counter of the store is the number of clean absences, over any history. */
  lemma {:induction false} RowTellsHistory(h: seq<Moment>, i: int, resolveAfter: int)
    requires resolveAfter >= 1
    requires LastPresentAt(h, i)
    ensures RowTells(h, i, StateAfter(h, resolveAfter), resolveAfter)
  {
    var before := h[..|h| - 1];
    var st := StateAfter(before, resolveAfter);
    var last := h[|h| - 1];
    if i < |h| - 1 {
      assert LastPresentAt(before, i);
      RowTellsHistory(before, i, resolveAfter);
      AbsencesOfPrefix(h, i + 1, |h| - 1, |h| - 1);
      var n := CleanAbsences(before, i + 1, |before|);
      if n >= resolveAfter {
        RowStaysClosed(h, i, resolveAfter);
      } else if IsClean(last) && n + 1 == resolveAfter {
        assert ResolvedIn(h, i, |h| - 1, resolveAfter);
      }
    }
  }

  lemma RowStaysClosed(h: seq<Moment>, i: int, resolveAfter: int)
    requires resolveAfter >= 1
    requires LastPresentAt(h, i) && i < |h| - 1
    requires LastPresentAt(h[..|h| - 1], i)
    requires CleanAbsences(h[..|h| - 1], i + 1, |h| - 1) >= resolveAfter
    requires RowTells(h[..|h| - 1], i, StateAfter(h[..|h| - 1], resolveAfter), resolveAfter)
    ensures CleanAbsences(h, i + 1, |h|) >= resolveAfter
    ensures RowTells(h, i, StateAfter(h, resolveAfter), resolveAfter)
  {
    var before := h[..|h| - 1];
    AbsencesOfPrefix(h, i + 1, |h| - 1, |h| - 1);
    var st := StateAfter(before, resolveAfter);
    var k :| ResolvedIn(before, i, k, resolveAfter) &&
      if PrunedSince(before, k) then st.None?
      else st.Some? && !st.value.open && st.value.resolvedAt == Some(before[k].now) &&
           st.value.f == Kept(before[i].o.p.f) && st.value.suppressed == before[i].o.p.suppressed;
    ResolvedInPrefix(h, i, k, resolveAfter);
    var last := h[|h| - 1];
    if PrunedSince(before, k) {
      var j :| k < j < |before| && before[j].Prune? && before[k].now < before[j].cutoff;
      assert h[j] == before[j];
      assert PrunedSince(h, k);
    } else if last.Prune? && h[k].now < last.cutoff {
      assert PrunedSince(h, k);
    } else {
      assert !PrunedSince(h, k) by {
        forall j | k < j < |h| ensures !(h[j].Prune? && h[k].now < h[j].cutoff) {
          assert j < |before| ==> h[j] == before[j];
        }
      }
    }
  }

  /** Nothing is stored about a finding never present, or forgotten since. */
  lemma {:induction false} NothingStored(h: seq<Moment>, resolveAfter: int)
    requires forall i :: !LastPresentAt(h, i)
    ensures StateAfter(h, resolveAfter).None?
  {
    if h != [] {
      var before := h[..|h| - 1];
      var last := h[|h| - 1];
      if Decides(last) {
        assert last.o.Present? ==> LastPresentAt(h, |h| - 1);
      } else {
        forall i ensures !LastPresentAt(before, i) {
          if LastPresentAt(before, i) { assert LastPresentAt(h, i); }
        }
        NothingStored(before, resolveAfter);
      }
    }
  }

  /** Run j listed the finding when nothing was stored about it, and a row has been stored ever since. */
  ghost predicate StoredSince(h: seq<Moment>, j: int, resolveAfter: int) {
    && 0 <= j < |h| && h[j].Ran? && h[j].o.Present?
    && StateAfter(h[..j], resolveAfter).None?
    && forall m :: j < m <= |h| ==> StateAfter(h[..m], resolveAfter).Some?
  }

  /** first_seen is the time of the first run to list the finding since it was last forgotten or pruned. */
  lemma {:induction false} FirstSeenTells(h: seq<Moment>, resolveAfter: int)
    requires StateAfter(h, resolveAfter).Some?
    ensures exists j :: StoredSince(h, j, resolveAfter) && StateAfter(h, resolveAfter).value.firstSeen == h[j].now
  {
    var n := |h| - 1;
    assert h[..|h|] == h;
    if StateAfter(h[..n], resolveAfter).Some? {
      FirstSeenTells(h[..n], resolveAfter);
      var j :| StoredSince(h[..n], j, resolveAfter) &&
               StateAfter(h[..n], resolveAfter).value.firstSeen == h[..n][j].now;
      assert h[..n][..j] == h[..j];
      assert forall m :: 0 <= m <= n ==> h[..n][..m] == h[..m];
      assert StoredSince(h, j, resolveAfter);
    } else {
      assert StoredSince(h, n, resolveAfter);
    }
  }

  ghost function ReportAfter(h: seq<Moment>, o: Observation, resolveAfter: int, now: int): Option<Change> {
    Report(StateAfter(h, resolveAfter), o, resolveAfter, now)
  }

  /**
   * A finding is reported resolved exactly in the resolveAfter-th run that
   * misses it although its check ran without error, counted since it was last
   * present. Runs in which the check failed or was not selected neither count
   * nor reset the count, and pruning never matters here.
   */
  lemma ResolvedExactlyWhen(h: seq<Moment>, o: Observation, resolveAfter: int, now: int)
    requires resolveAfter >= 1
    ensures (var r := ReportAfter(h, o, resolveAfter, now); r.Some? && r.value.kind == Resolved)
       <==> o.Clean? && exists i :: LastPresentAt(h, i) && CleanAbsences(h, i + 1, |h|) + 1 == resolveAfter
  {
    var r := ReportAfter(h, o, resolveAfter, now);
    if i :| LastPresentAt(h, i) {
      RowTellsHistory(h, i, resolveAfter);
      assert forall j :: LastPresentAt(h, j) ==> j == i;
    } else {
      NothingStored(h, resolveAfter);
    }
  }

  /** Regressed: present again after it resolved, with no forgetting and no late prune in between. */
  lemma RegressedExactlyWhen(h: seq<Moment>, p: Presence, resolveAfter: int, now: int)
    requires resolveAfter >= 1
    ensures ReportAfter(h, Present(p), resolveAfter, now).value.kind == Regressed
       <==> exists i, k :: LastPresentAt(h, i) && ResolvedIn(h, i, k, resolveAfter) && !PrunedSince(h, k)
  {
    if i :| LastPresentAt(h, i) {
      RowTellsHistory(h, i, resolveAfter);
      assert forall j :: LastPresentAt(h, j) ==> j == i;
      if CleanAbsences(h, i + 1, |h|) >= resolveAfter {
        var st := StateAfter(h, resolveAfter);
        var k :| ResolvedIn(h, i, k, resolveAfter) &&
          (if PrunedSince(h, k) then st.None? else IsOpen(st) == false && st.Some?);
        forall k' | ResolvedIn(h, i, k', resolveAfter) ensures k' == k { ResolvedOnce(h, i, k, k', resolveAfter); }
      } else {
        forall k | ResolvedIn(h, i, k, resolveAfter) ensures false {
          AbsencesGrow(h, i + 1, k + 1, |h|);
        }
      }
    } else {
      NothingStored(h, resolveAfter);
    }
  }

  /**
   * New: never present, forgotten, or pruned after resolving; or still open but
   * no longer suppressed.
   */
  lemma NewExactlyWhen(h: seq<Moment>, p: Presence, resolveAfter: int, now: int)
    requires resolveAfter >= 1
    ensures ReportAfter(h, Present(p), resolveAfter, now).value.kind == New
       <==> || (forall i :: !LastPresentAt(h, i))
            || (exists i, k :: LastPresentAt(h, i) && ResolvedIn(h, i, k, resolveAfter) && PrunedSince(h, k))
            || (exists i :: LastPresentAt(h, i) && CleanAbsences(h, i + 1, |h|) < resolveAfter &&
                            h[i].o.p.suppressed && !p.suppressed)
  {
    if i :| LastPresentAt(h, i) {
      RowTellsHistory(h, i, resolveAfter);
      assert forall j :: LastPresentAt(h, j) ==> j == i;
      if CleanAbsences(h, i + 1, |h|) >= resolveAfter {
        var st := StateAfter(h, resolveAfter);
        var k :| ResolvedIn(h, i, k, resolveAfter) &&
          (if PrunedSince(h, k) then st.None? else st.Some? && !st.value.open);
        forall k' | ResolvedIn(h, i, k', resolveAfter) ensures k' == k { ResolvedOnce(h, i, k, k', resolveAfter); }
      } else {
        forall k | ResolvedIn(h, i, k, resolveAfter) ensures false {
          AbsencesGrow(h, i + 1, k + 1, |h|);
        }
      }
    } else {
      NothingStored(h, resolveAfter);
    }
  }

  lemma {:induction false} AbsencesGrow(h: seq<Moment>, from: int, mid: int, to: int)
    requires 0 <= from <= mid <= to <= |h|
    ensures CleanAbsences(h, from, mid) <= CleanAbsences(h, from, to)
  {
    if mid < to { AbsencesGrow(h, from, mid, to - 1); }
  }

  lemma ResolvedOnce(h: seq<Moment>, i: int, k: int, k': int, resolveAfter: int)
    requires ResolvedIn(h, i, k, resolveAfter) && ResolvedIn(h, i, k', resolveAfter)
    ensures k == k'
  {
    if k < k' { AbsencesGrow(h, i + 1, k + 1, k'); }
    if k' < k { AbsencesGrow(h, i + 1, k' + 1, k); }
  }
}
