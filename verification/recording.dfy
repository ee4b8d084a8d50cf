/** What recording a run means, said of the run itself and of nothing in between. */
module Recording {
  import opened Core
  import opened Lifecycle
  import opened State

  /** The finding is about this check, target and subject. */
  predicate IsAbout(f: Finding, fp: Fingerprint) {
    f.checkID == fp.checkID && f.target == fp.target && f.subject == fp.subject
  }

  ghost predicate Listed(res: RunResult, fp: Fingerprint) {
    exists f :: (f in res.findings || f in res.suppressed) && IsAbout(f, fp)
  }

  /** The check ran on the target, and came back without an error. */
  ghost predicate RanClean(res: RunResult, fp: Fingerprint) {
    && Execution(fp.target, fp.checkID) in res.ran
    && forall e :: e in res.errors ==> !(e.target == fp.target && e.checkID == fp.checkID)
  }

  /** The run covers the finding and misses it, although its check ran without error. */
  ghost predicate MissedBy(res: RunResult, fp: Fingerprint) {
    !Listed(res, fp) && fp.target in res.targets && RanClean(res, fp)
  }

  /** The run no longer covers the finding's target, and does not list it. */
  ghost predicate DroppedBy(res: RunResult, fp: Fingerprint) { !Listed(res, fp) && fp.target !in res.targets }

  /** resolve_after, at least one. */
  function Limit(resolveAfter: int): int { if resolveAfter < 1 then 1 else resolveAfter }

  // ----- what a run says about one finding -----------------------------------------------------------

  lemma ListedIsOccurrence(res: RunResult, fp: Fingerprint)
    ensures Listed(res, fp) <==> Occurrence(Current(res), fp).Some?
    ensures Listed(res, fp) ==>
      var p := Occurrence(Current(res), fp).value;
      p in Current(res) && IsAbout(p.f, fp) && p.f in if p.suppressed then res.suppressed else res.findings
  {
    OccurrenceMember(Current(res), fp);
    if Listed(res, fp) {
      var f :| (f in res.findings || f in res.suppressed) && IsAbout(f, fp);
      ListedIsCurrent(res, f);
    }
    forall p | p in Current(res) ensures p.f in if p.suppressed then res.suppressed else res.findings {
      CurrentIsListed(res, p);
    }
  }

  lemma ListedIsCurrent(res: RunResult, f: Finding)
    ensures f in res.findings ==> Presence(f, false) in Current(res)
    ensures f in res.suppressed ==> Presence(f, true) in Current(res)
  {
    if i :| 0 <= i < |res.findings| && res.findings[i] == f { assert Current(res)[i] == Presence(f, false); }
    if i :| 0 <= i < |res.suppressed| && res.suppressed[i] == f {
      assert Current(res)[|res.findings| + i] == Presence(f, true);
    }
  }

  lemma CurrentIsListed(res: RunResult, p: Presence)
    requires p in Current(res)
    ensures p.f in if p.suppressed then res.suppressed else res.findings
  {
    var i :| 0 <= i < |Current(res)| && Current(res)[i] == p;
    if i < |res.findings| { assert p.f == res.findings[i]; } else { assert p.f == res.suppressed[i - |res.findings|]; }
  }

  /** A run without repeats lists a finding in one place only. */
  lemma OnlyListing(res: RunResult, fp: Fingerprint, f: Finding, suppressed: bool)
    requires NoRepeats(res) && IsAbout(f, fp) && f in if suppressed then res.suppressed else res.findings
    ensures Observe(res, fp) == Present(Presence(f, suppressed))
  {
    ListedIsCurrent(res, f);
    ListedIsOccurrence(res, fp);
    var p := Occurrence(Current(res), fp).value;
    var i :| 0 <= i < |Current(res)| && Current(res)[i] == p;
    var j :| 0 <= j < |Current(res)| && Current(res)[j] == Presence(f, suppressed);
    assert i == j;
  }

  /** What the store takes from a run about a finding it does not list. */
  lemma ObservedAbsent(res: RunResult, fp: Fingerprint)
    ensures Observe(res, fp).Present? <==> Listed(res, fp)
    ensures Observe(res, fp).Clean? <==> MissedBy(res, fp)
    ensures Observe(res, fp).Removed? <==> DroppedBy(res, fp)
  {
    ListedIsOccurrence(res, fp);
    assert (exists c :: c in res.errors && Execution(c.target, c.checkID) == Execution(fp.target, fp.checkID)) <==>
      exists c :: c in res.errors && c.target == fp.target && c.checkID == fp.checkID;
    hide Occurrence, Current;
  }

  // ----- the table ----------------------------------------------------------------------------------

  /** What the table keeps of a listed finding. */
  predicate KeptAs(f: Finding, g: Finding) {
    && g.checkID == f.checkID && g.target == f.target && g.subject == f.subject
    && g.title == f.title && g.evidence == f.evidence && g.remediation == f.remediation && g.references == None
    && g.severity == if 1 <= f.severity <= 5 then f.severity else 0
  }

  /**
   * The table after a run: a listed finding is open as listed; one whose target
   * is gone is forgotten; one that is open and missed by a clean check comes one
   * step closer to being resolved; and every other row stays as it is, however
   * its check failed or was left out.
   */
  ghost predicate TableAfterRun(before: Table, res: RunResult, resolveAfter: int, after: Table, fp: Fingerprint) {
    var now := res.started + res.duration;
    && (forall f :: f in res.findings && IsAbout(f, fp) ==>
          fp in after && ListedRow(before, fp, f, false, now, after[fp]))
    && (forall f :: f in res.suppressed && IsAbout(f, fp) ==>
          fp in after && ListedRow(before, fp, f, true, now, after[fp]))
    && (DroppedBy(res, fp) ==> fp !in after)
    && (MissedBy(res, fp) && fp in before && before[fp].open ==>
          fp in after && after[fp] ==
            if before[fp].missing + 1 >= Limit(resolveAfter) then
              before[fp].(open := false, missing := 0, resolvedAt := Some(now))
            else before[fp].(missing := before[fp].missing + 1))
    && (!Listed(res, fp) && !DroppedBy(res, fp) && !(MissedBy(res, fp) && fp in before && before[fp].open) ==>
          Get(after, fp) == Get(before, fp))
  }

  predicate ListedRow(before: Table, fp: Fingerprint, f: Finding, suppressed: bool, now: int, row: Stored) {
    && KeptAs(f, row.f) && row.open && row.suppressed == suppressed && row.missing == 0
    && row.lastSeen == now && row.resolvedAt == None
    && row.firstSeen == if fp in before then before[fp].firstSeen else now
  }

  lemma RunMeansTable(before: Table, res: RunResult, resolveAfter: int, after: Table, fp: Fingerprint)
    requires NoRepeats(res) && TableSteps(before, res, resolveAfter, after)
    ensures TableAfterRun(before, res, resolveAfter, after, fp)
  {
    var now := res.started + res.duration;
    assert Get(after, fp) == Next(Get(before, fp), Observe(res, fp), Max(resolveAfter, 1), now);
    ObservedAbsent(res, fp);
    forall f, suppressed | (f in if suppressed then res.suppressed else res.findings) && IsAbout(f, fp)
      ensures fp in after && ListedRow(before, fp, f, suppressed, now, after[fp])
    {
      OnlyListing(res, fp, f, suppressed);
    }
    assert forall f :: f in res.findings && IsAbout(f, fp) ==> f in if false then res.suppressed else res.findings;
    assert forall f :: f in res.suppressed && IsAbout(f, fp) ==> f in if true then res.suppressed else res.findings;
    hide Observe, MissedBy, DroppedBy, Listed, ListedRow;
  }

  // ----- the changes --------------------------------------------------------------------------------

  /** A finding the run lists is reported as new, regressed or persisting, by the row it had. */
  ghost predicate ReportsListed(before: Table, res: RunResult, c: Change) {
    var fp := Fingerprint(c.finding.checkID, c.finding.target, c.finding.subject);
    && c.finding in (if c.suppressed then res.suppressed else res.findings)
    && c.firstSeen == (if fp in before then before[fp].firstSeen else res.started + res.duration)
    && c.kind ==
       if fp !in before then New
       else if !before[fp].open then Regressed
       else if before[fp].suppressed && !c.suppressed then New
       else Persisting
  }

  /** An open finding is resolved by the run that misses it for the last time it may. */
  ghost predicate ReportsResolved(before: Table, res: RunResult, resolveAfter: int, c: Change) {
    var fp := Fingerprint(c.finding.checkID, c.finding.target, c.finding.subject);
    && c.kind == Resolved && MissedBy(res, fp)
    && fp in before && before[fp].open && before[fp].missing + 1 >= Limit(resolveAfter)
    && c.finding == before[fp].f && c.suppressed == before[fp].suppressed && c.firstSeen == before[fp].firstSeen
  }

  /** Exactly these changes are reported. */
  lemma RunMeansChanges(before: Table, res: RunResult, resolveAfter: int, cs: seq<Change>, c: Change)
    requires NoRepeats(res) && DiffTells(before, res, resolveAfter, cs) && WellKeyed(before)
    ensures c in cs <==> ReportsListed(before, res, c) || ReportsResolved(before, res, resolveAfter, c)
  {
    var fp := c.finding.Print();
    ChangeForMember(cs, fp);
    ObservedAbsent(res, fp);
    ListedIsOccurrence(res, fp);
    if c.finding in if c.suppressed then res.suppressed else res.findings {
      OnlyListing(res, fp, c.finding, c.suppressed);
    }
    assert c in cs <==>
      Report(Get(before, fp), Observe(res, fp), Max(resolveAfter, 1), res.started + res.duration) == Some(c);
    hide MissedBy, DroppedBy, Listed, Current, Occurrence, CleanRuns, ChangeFor, Distinct;
  }
}
