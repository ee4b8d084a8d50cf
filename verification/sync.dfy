/** What a channel's recipient knows: one round of the daemon, and any number of them. */
module Sync {
  import opened Core
  import opened Ordering
  import opened Lifecycle
  import opened State
  import opened Notify
  import opened Delivery
  import opened Pending

  /** What a recipient who reads the changes in order believes at the end. */
  function Replay(cs: seq<Change>, fp: Fingerprint): bool {
    if cs == [] then false
    else if cs[|cs| - 1].finding.Print() == fp then cs[|cs| - 1].kind != Resolved
    else Replay(cs[..|cs| - 1], fp)
  }

  lemma {:induction false} ReplayThen(a: seq<Change>, b: seq<Change>, fp: Fingerprint)
    requires Distinct(b)
    ensures Replay(a + b, fp) == Believes(ChangeFor(b, fp), Replay(a, fp))
  {
    ChangeForMember(b, fp);
    if b == [] {
      assert a + b == a;
    } else {
      var n := |b| - 1;
      assert (a + b)[..|a + b| - 1] == a + b[..n];
      ReplayThen(a, b[..n], fp);
      ChangeForMember(b[..n], fp);
      assert b == b[..n] + [b[n]];
      if b[n].finding.Print() == fp {
        assert ChangeFor(b, fp) == Some(b[n]);
      } else {
        match ChangeFor(b[..n], fp)
        case None => assert forall c :: c in b ==> c.finding.Print() != fp;
        case Some(c) => assert c in b[..n] && c in b;
      }
    }
  }

  /** What the recipient will believe, given the backlog's entry and what was told before. */
  function Believes(entry: Option<Change>, before: bool): bool {
    if entry.Some? then entry.value.kind != Resolved else before
  }

  /** An open finding that nobody suppressed: what a recipient should know of. */
  predicate Alerting(st: Option<Stored>) { st.Some? && st.value.open && !st.value.suppressed }

  /** The store's findings, one channel's backlog, and all its recipient was told so far. */
  datatype World = World(table: Table, pending: seq<Change>, told: seq<Change>)

  /** What was told, and then what is pending, gives exactly the findings that alert. */
  ghost predicate InSync(w: World) {
    forall fp :: Replay(w.told + w.pending, fp) == Alerting(Get(w.table, fp))
  }

  /** One round's inputs, the changes it reported, and how the outside world answered the delivery. */
  datatype Turn = Turn(
    res: RunResult, resolveAfter: int, canon: string -> string, changes: seq<Change>, e: Env, cutoff: int)

  function AttemptOf(t: Turn, rule: Rule): Attempt { Attempt(Filter(rule, t.changes), t.e) }

  /** One round of the daemon: record the run, deliver the digest, prune. */
  ghost predicate Round(w: World, t: Turn, rule: Rule, w': World) {
    && Renameable(w.table, t.canon) && CurrentIDs(Current(t.res), t.canon)
    && DiffTells(Renamed(w.table, t.canon), t.res, t.resolveAfter, t.changes)
    && (exists mid :: TableSteps(Renamed(w.table, t.canon), t.res, t.resolveAfter, mid) &&
                      w'.table == KeptFindings(mid, t.cutoff))
    && w'.pending == NextBacklog(w.pending, AttemptOf(t, rule))
    && w'.told == w.told + Digested(w.pending, AttemptOf(t, rule))
  }

  /** The rule leaves out nothing but persisting findings. */
  predicate TellsAll(rule: Rule) {
    {New, Regressed, Resolved} <= rule.on && rule.minSeverity <= SEVERITY_UNSET
  }

  /** The run's findings have named severities. */
  predicate Named(res: RunResult) {
    forall f :: f in res.findings ==> ValidSeverity(f.severity)
  }

  /** What holds of the world between rounds. */
  ghost predicate Sane(w: World) { WellKeyed(w.table) && Distinct(w.pending) }

  // ----- what can go wrong ------------------------------------------------------------------------

  predicate Muted(o: Observation) { o.Present? && o.p.suppressed }

  /**
   * An alerting finding drops out of the recipient's sight: its check is
   * renamed, its target leaves the configuration, or it is suppressed.
   */
  ghost predicate Lost(w: World, t: Turn, fp: Fingerprint) {
    && Alerting(Get(w.table, fp))
    && (t.canon(fp.checkID) != fp.checkID || Observe(t.res, fp).Removed? || Muted(Observe(t.res, fp)))
  }

  ghost predicate LosesNothing(w: World, t: Turn) { forall fp :: !Lost(w, t, fp) }

  /** A change that alters what the recipient should know. */
  predicate Flips(c: Change) { !c.suppressed && c.kind != Persisting }

  /** Neither sent nor stored. */
  predicate Unstored(e: Env) { !e.readPending || (!e.sendOK && !e.write) }

  function Undelivered(w: World, t: Turn, rule: Rule): seq<Change> { Merged(w.pending, Filter(rule, t.changes)) }

  predicate FitsCap(w: World, t: Turn, rule: Rule) {
    StoredAgain(t.e) ==> |Undelivered(w, t, rule)| <= MAX_PENDING
  }

  /** Without this change the recipient would be left with a wrong belief. */
  predicate Needed(told: seq<Change>, c: Change) { Replay(told, c.finding.Print()) == (c.kind == Resolved) }

  /**
   * How a delivery can fail its recipient: it stores nothing and there was
   * something to say; it cannot delete a backlog that this run contradicts; or
   * the cap drops something the recipient needs.
   */
  ghost predicate Faulty(w: World, t: Turn, rule: Rule) {
    if Unstored(t.e) then exists c :: c in t.changes && Flips(c)
    else if t.e.sendOK then
      !t.e.remove && exists c :: c in t.changes && Flips(c) && ChangeFor(w.pending, c.finding.Print()).Some?
    else
      var cs := Undelivered(w, t, rule);
      exists i :: 0 <= i < |cs| - MAX_PENDING && Needed(w.told, cs[i])
  }

  // ----- one finding through one round ---------------------------------------------------------------

  function MergedEntry(prior: Option<Change>, cur: Option<Change>): Option<Change> {
    match cur case None => prior case Some(c) => Latest(prior, c)
  }

  /** What the recipient believes after a delivery, by how it went. */
  lemma BeliefAfter(pending: seq<Change>, a: Attempt, told: seq<Change>, fp: Fingerprint)
    requires Distinct(pending) && Distinct(a.cur)
    ensures Distinct(Merged(pending, a.cur)) && Distinct(Capped(Merged(pending, a.cur)))
    ensures ChangeFor(Merged(pending, a.cur), fp) == MergedEntry(ChangeFor(pending, fp), ChangeFor(a.cur, fp))
    ensures
      var prior, before := ChangeFor(pending, fp), Replay(told, fp);
      var entry := MergedEntry(prior, ChangeFor(a.cur, fp));
      Replay((told + Digested(pending, a)) + NextBacklog(pending, a), fp) ==
        if Unstored(a.e) then Believes(prior, before)
        else if !a.e.sendOK then Believes(ChangeFor(Capped(Merged(pending, a.cur)), fp), before)
        else if a.e.remove then Believes(entry, before)
        else Believes(prior, Believes(entry, before))
  {
    hide Merged, Distinct, Latest;
    var merged := Merged(pending, a.cur);
    MergedFor(pending, a.cur, fp);
    CappedKeeps(merged);
    var kept := NextBacklog(pending, a);
    StepStaysDistinct(pending, a);
    ReplayThen(told + Digested(pending, a), kept, fp);
    ReplayThen(told, merged, fp);
    assert told + [] == told;
  }

  /** Every change the run reports is told, but those suppressed and persisting ones a rule may leave out. */
  lemma ReportIsWanted(
    before: Table, res: RunResult, resolveAfter: int, rule: Rule, changes: seq<Change>, fp: Fingerprint)
    requires WellKeyed(before) && TellsAll(rule) && Named(res)
    requires DiffTells(before, res, resolveAfter, changes)
    ensures Distinct(Filter(rule, changes))
    ensures
      var r := Report(Get(before, fp), Observe(res, fp), Max(resolveAfter, 1), res.started + res.duration);
      var cur := ChangeFor(Filter(rule, changes), fp);
      && (cur.Some? ==> cur == r && !r.value.suppressed)
      && (cur.None? && r.Some? ==> !Flips(r.value))
  {
    FilterFor(rule, changes, fp);
    OccurrenceMember(Current(res), fp);
    var r := Report(Get(before, fp), Observe(res, fp), Max(resolveAfter, 1), res.started + res.duration);
    assert r == ChangeFor(changes, fp);
    if r.Some? && Observe(res, fp).Present? && !r.value.suppressed {
      var p := Observe(res, fp).p;
      var i :| 0 <= i < |Current(res)| && Current(res)[i] == p;
      assert p.f == res.findings[i] && p.f in res.findings;
    }
  }

  lemma StepOfOne(
    st: Option<Stored>, o: Observation, resolveAfter: int, now: int,
    prior: Option<Change>, cur: Option<Change>, before: bool)
    requires
      var r := Report(st, o, resolveAfter, now);
      (cur.Some? ==> cur == r && !r.value.suppressed) && (cur.None? && r.Some? ==> !Flips(r.value))
    requires Believes(prior, before) == Alerting(st)
    requires !(Alerting(st) && (o.Removed? || Muted(o)))
    ensures Believes(MergedEntry(prior, cur), before) == Alerting(Next(st, o, resolveAfter, now))
    ensures
      var r := Report(st, o, resolveAfter, now);
      Alerting(Next(st, o, resolveAfter, now)) != Alerting(st) <==> r.Some? && Flips(r.value)
  {
  }

  /** After a rename a finding alerts as before, unless a finding that alerts was renamed. */
  lemma RenamedAlerts(t: Table, canon: string -> string, fp: Fingerprint)
    requires WellKeyed(t) && Renameable(t, canon)
    ensures canon(fp.checkID) != fp.checkID ==> Get(Renamed(t, canon), fp).None?
    ensures canon(fp.checkID) == fp.checkID && fp in t ==> Get(Renamed(t, canon), fp) == Get(t, fp)
    ensures (forall k :: Alerting(Get(t, k)) ==> canon(k.checkID) == k.checkID) ==>
      Alerting(Get(Renamed(t, canon), fp)) == Alerting(Get(t, fp))
  {
    var after := Renamed(t, canon);
    if fp in after {
      var k :| k in t && Canonical(k, canon) == fp;
      assert canon(canon(k.checkID)) == canon(k.checkID);
      if k != fp { assert canon(k.checkID) != k.checkID; }
    }
    if canon(fp.checkID) == fp.checkID && fp in t {
      assert Canonical(fp, canon) == fp;
      assert after[fp] == t[fp].(f := t[fp].f.(checkID := fp.checkID));
    }
  }

  lemma RenamedStaysKeyed(t: Table, canon: string -> string)
    requires WellKeyed(t) && Renameable(t, canon)
    ensures WellKeyed(Renamed(t, canon))
  {
  }

  /** No finding that alerts has its check renamed. */
  ghost predicate Unrenamed(w: World, t: Turn) {
    forall k :: Alerting(Get(w.table, k)) ==> t.canon(k.checkID) == k.checkID
  }

  /** What a round does to one finding that is not lost. */
  lemma OneFinding(w: World, t: Turn, rule: Rule, mid: Table, fp: Fingerprint)
    requires Sane(w) && TellsAll(rule) && Named(t.res)
    requires Renameable(w.table, t.canon) && Unrenamed(w, t) && !Lost(w, t, fp)
    requires DiffTells(Renamed(w.table, t.canon), t.res, t.resolveAfter, t.changes)
    requires TableSteps(Renamed(w.table, t.canon), t.res, t.resolveAfter, mid)
    requires Replay(w.told + w.pending, fp) == Alerting(Get(w.table, fp))
    ensures Distinct(Filter(rule, t.changes))
    ensures
      var prior, cur := ChangeFor(w.pending, fp), ChangeFor(Filter(rule, t.changes), fp);
      && Believes(prior, Replay(w.told, fp)) == Alerting(Get(w.table, fp))
      && Believes(MergedEntry(prior, cur), Replay(w.told, fp)) == Alerting(Get(mid, fp))
    ensures
      var r := ChangeFor(t.changes, fp);
      Alerting(Get(mid, fp)) != Alerting(Get(w.table, fp)) <==> r.Some? && Flips(r.value)
  {
    hide Distinct, WellKeyed, Current, Observe, Report, Next, Named, Filter, Flips, Muted, Renamed, Renameable;
    var before := Renamed(w.table, t.canon);
    RenamedStaysKeyed(w.table, t.canon);
    RenamedAlerts(w.table, t.canon, fp);
    ReportIsWanted(before, t.res, t.resolveAfter, rule, t.changes, fp);
    ReplayThen(w.told, w.pending, fp);
    StepOfOne(Get(before, fp), Observe(t.res, fp), Max(t.resolveAfter, 1), t.res.started + t.res.duration,
              ChangeFor(w.pending, fp), ChangeFor(Filter(rule, t.changes), fp), Replay(w.told, fp));
  }

  lemma LosslessIsUnrenamed(w: World, t: Turn)
    requires LosesNothing(w, t)
    ensures Unrenamed(w, t)
  {
    hide Observe;
    forall k | Alerting(Get(w.table, k)) ensures t.canon(k.checkID) == k.checkID { assert !Lost(w, t, k); }
  }

  lemma NotListed(t: Turn, fp: Fingerprint)
    requires CurrentIDs(Current(t.res), t.canon)
    ensures t.canon(fp.checkID) != fp.checkID ==> !Observe(t.res, fp).Present?
  {
    OccurrenceMember(Current(t.res), fp);
  }

  /** Nobody is told of a lost finding, which no longer alerts. */
  lemma LostIsUntold(w: World, t: Turn, rule: Rule, mid: Table, fp: Fingerprint)
    requires Sane(w) && TellsAll(rule) && Named(t.res) && Lost(w, t, fp)
    requires Renameable(w.table, t.canon) && CurrentIDs(Current(t.res), t.canon)
    requires DiffTells(Renamed(w.table, t.canon), t.res, t.resolveAfter, t.changes)
    requires TableSteps(Renamed(w.table, t.canon), t.res, t.resolveAfter, mid)
    ensures !Alerting(Get(mid, fp))
    ensures Distinct(Filter(rule, t.changes)) && ChangeFor(Filter(rule, t.changes), fp).None?
  {
    hide Filter, Distinct, WellKeyed, Renamed, Renameable, Observe, CurrentIDs, Current, Named;
    var before, now := Renamed(w.table, t.canon), t.res.started + t.res.duration;
    RenamedStaysKeyed(w.table, t.canon);
    RenamedAlerts(w.table, t.canon, fp);
    ReportIsWanted(before, t.res, t.resolveAfter, rule, t.changes, fp);
    NotListed(t, fp);
    assert Get(mid, fp) == Next(Get(before, fp), Observe(t.res, fp), Max(t.resolveAfter, 1), now);
  }

  /** A lost finding leaves the recipient believing in it. */
  lemma LostIsWrong(w: World, t: Turn, rule: Rule, mid: Table, fp: Fingerprint)
    requires Sane(w) && TellsAll(rule) && Named(t.res) && Lost(w, t, fp) && FitsCap(w, t, rule)
    requires Renameable(w.table, t.canon) && CurrentIDs(Current(t.res), t.canon)
    requires DiffTells(Renamed(w.table, t.canon), t.res, t.resolveAfter, t.changes)
    requires TableSteps(Renamed(w.table, t.canon), t.res, t.resolveAfter, mid)
    requires Replay(w.told + w.pending, fp)
    ensures !Alerting(Get(mid, fp))
    ensures
      var a := AttemptOf(t, rule);
      Replay((w.told + Digested(w.pending, a)) + NextBacklog(w.pending, a), fp)
  {
    hide Filter, Distinct, WellKeyed, Renamed, Renameable, DiffTells, TableSteps, NextBacklog, Digested, Merged, Lost;
    LostIsUntold(w, t, rule, mid, fp);
    ReplayThen(w.told, w.pending, fp);
    BeliefAfter(w.pending, AttemptOf(t, rule), w.told, fp);
    CappedKeeps(Undelivered(w, t, rule));
  }

  // ----- one round ---------------------------------------------------------------------------------

  /** A round from a world in sync in which nothing is lost; mid is the table before pruning. */
  ghost predicate Lossless(w: World, t: Turn, rule: Rule, mid: Table) {
    && Sane(w) && InSync(w) && TellsAll(rule) && Named(t.res) && LosesNothing(w, t)
    && Renameable(w.table, t.canon)
    && DiffTells(Renamed(w.table, t.canon), t.res, t.resolveAfter, t.changes)
    && TableSteps(Renamed(w.table, t.canon), t.res, t.resolveAfter, mid)
  }

  /** All the recipient is told, and then what is pending, after the round. */
  function SaidAfter(w: World, t: Turn, rule: Rule): seq<Change> {
    (w.told + Digested(w.pending, AttemptOf(t, rule))) + NextBacklog(w.pending, AttemptOf(t, rule))
  }

  ghost predicate WrongAbout(w: World, t: Turn, rule: Rule, mid: Table, fp: Fingerprint) {
    Replay(SaidAfter(w, t, rule), fp) != Alerting(Get(mid, fp))
  }

  ghost predicate FlippedBy(cs: seq<Change>, fp: Fingerprint) {
    ChangeFor(cs, fp).Some? && Flips(ChangeFor(cs, fp).value)
  }

  ghost predicate DroppedInNeed(told: seq<Change>, cs: seq<Change>, i: int, fp: Fingerprint) {
    0 <= i < |cs| - MAX_PENDING && cs[i].finding.Print() == fp && Needed(told, cs[i])
  }

  lemma DroppedEntry(cs: seq<Change>, fp: Fingerprint, i: int)
    requires Distinct(cs) && 0 <= i < |cs| && cs[i].finding.Print() == fp
    ensures ChangeFor(cs, fp) == Some(cs[i])
    ensures ChangeFor(Capped(cs), fp) == if i < |cs| - MAX_PENDING then None else Some(cs[i])
  {
    ChangeForMember(cs, fp);
    CappedKeeps(cs);
    ChangeForMember(Capped(cs), fp);
    hide ChangeFor;
    var cut := if |cs| > MAX_PENDING then |cs| - MAX_PENDING else 0;
    CapCuts(cs, i, cut);
    assert cs[i] in cs;
    forall c | c in Capped(cs) && c.finding.Print() == fp ensures c == cs[i] { assert c in cs; }
  }

  lemma NoEntry(cs: seq<Change>, fp: Fingerprint)
    requires Distinct(cs) && ChangeFor(cs, fp).None?
    ensures ChangeFor(Capped(cs), fp).None? && forall i :: 0 <= i < |cs| ==> cs[i].finding.Print() != fp
  {
    ChangeForMember(cs, fp);
    CappedKeeps(cs);
    ChangeForMember(Capped(cs), fp);
    hide ChangeFor;
    assert forall c :: c in Capped(cs) ==> c in cs;
  }

  /** What the cap drops matters exactly if the recipient needs it. */
  lemma DropDecides(told: seq<Change>, cs: seq<Change>, fp: Fingerprint)
    requires Distinct(cs)
    ensures
      var before := Replay(told, fp);
      Believes(ChangeFor(Capped(cs), fp), before) != Believes(ChangeFor(cs, fp), before) <==>
        exists i :: DroppedInNeed(told, cs, i, fp)
  {
    if ChangeFor(cs, fp).None? {
      NoEntry(cs, fp);
    } else {
      ChangeForMember(cs, fp);
      var i :| 0 <= i < |cs| && cs[i] == ChangeFor(cs, fp).value;
      DroppedEntry(cs, fp, i);
      hide ChangeFor, Capped;
      if i < |cs| - MAX_PENDING {
        assert DroppedInNeed(told, cs, i, fp) <==> Needed(told, cs[i]);
        assert forall j :: DroppedInNeed(told, cs, j, fp) ==> j == i;
      } else {
        assert forall j :: !DroppedInNeed(told, cs, j, fp);
      }
    }
  }

  /** Whom a delivery leaves with a wrong belief, by how it went. */
  lemma WrongExactlyWhen(w: World, t: Turn, rule: Rule, mid: Table, fp: Fingerprint)
    requires Lossless(w, t, rule, mid)
    ensures Unstored(t.e) ==> (WrongAbout(w, t, rule, mid, fp) <==> FlippedBy(t.changes, fp))
    ensures !Unstored(t.e) && t.e.sendOK ==>
      (WrongAbout(w, t, rule, mid, fp) <==>
        !t.e.remove && FlippedBy(t.changes, fp) && ChangeFor(w.pending, fp).Some?)
  {
    assert Replay(w.told + w.pending, fp) == Alerting(Get(w.table, fp));
    LosslessIsUnrenamed(w, t);
    OneFinding(w, t, rule, mid, fp);
    BeliefAfter(w.pending, AttemptOf(t, rule), w.told, fp);
    hide DiffTells, TableSteps, InSync, Sane, LosesNothing, Distinct, NextBacklog, Digested, Filter, Merged;
    hide Capped, Latest;
    hide Renameable, Renamed, TellsAll, Named, Flips;
  }

  lemma WrongWhenDropped(w: World, t: Turn, rule: Rule, mid: Table, fp: Fingerprint)
    requires Lossless(w, t, rule, mid) && StoredAgain(t.e)
    ensures WrongAbout(w, t, rule, mid, fp) <==>
      exists i :: DroppedInNeed(w.told, Undelivered(w, t, rule), i, fp)
  {
    assert Replay(w.told + w.pending, fp) == Alerting(Get(w.table, fp));
    LosslessIsUnrenamed(w, t);
    OneFinding(w, t, rule, mid, fp);
    BeliefAfter(w.pending, AttemptOf(t, rule), w.told, fp);
    DropDecides(w.told, Undelivered(w, t, rule), fp);
    hide DiffTells, TableSteps, InSync, Sane, LosesNothing, Distinct, NextBacklog, Digested, Filter, Merged;
    hide Capped, Latest;
    hide Renameable, Renamed, TellsAll, Named, ChangeFor, DroppedInNeed, Flips;
  }

  lemma FlipsSomewhere(cs: seq<Change>)
    requires Distinct(cs)
    ensures forall c :: c in cs && Flips(c) ==>
      FlippedBy(cs, c.finding.Print()) && ChangeFor(cs, c.finding.Print()) == Some(c)
    ensures forall fp :: FlippedBy(cs, fp) ==>
      ChangeFor(cs, fp).value in cs && ChangeFor(cs, fp).value.finding.Print() == fp
  {
    hide Flips;
    forall fp ensures forall c :: ChangeFor(cs, fp) == Some(c) <==> c in cs && c.finding.Print() == fp {
      ChangeForMember(cs, fp);
    }
  }

  /** Somebody is left with a wrong belief exactly if the delivery was faulty. */
  lemma FaultsDecide(w: World, t: Turn, rule: Rule, mid: Table)
    requires Lossless(w, t, rule, mid)
    ensures (exists fp :: WrongAbout(w, t, rule, mid, fp)) <==> Faulty(w, t, rule)
  {
    FlipsSomewhere(t.changes);
    hide Lossless, WrongAbout, Undelivered, Needed, Flips;
    if fp :| WrongAbout(w, t, rule, mid, fp) {
      if StoredAgain(t.e) { WrongWhenDropped(w, t, rule, mid, fp); } else { WrongExactlyWhen(w, t, rule, mid, fp); }
    }
    if Faulty(w, t, rule) {
      var fp := FaultIsAbout(w, t, rule);
      if StoredAgain(t.e) { WrongWhenDropped(w, t, rule, mid, fp); } else { WrongExactlyWhen(w, t, rule, mid, fp); }
      assert WrongAbout(w, t, rule, mid, fp);
    }
  }

  /** The finding a faulty delivery is about. */
  lemma FaultIsAbout(w: World, t: Turn, rule: Rule) returns (fp: Fingerprint)
    requires Faulty(w, t, rule) && Distinct(t.changes)
    ensures StoredAgain(t.e) ==> exists i :: DroppedInNeed(w.told, Undelivered(w, t, rule), i, fp)
    ensures !StoredAgain(t.e) ==> FlippedBy(t.changes, fp)
    ensures !StoredAgain(t.e) && !Unstored(t.e) ==> !t.e.remove && ChangeFor(w.pending, fp).Some?
  {
    FlipsSomewhere(t.changes);
    hide Undelivered, Needed, Flips;
    if Unstored(t.e) {
      var c :| c in t.changes && Flips(c);
      fp := c.finding.Print();
    } else if t.e.sendOK {
      var c :| c in t.changes && Flips(c) && ChangeFor(w.pending, c.finding.Print()).Some?;
      fp := c.finding.Print();
    } else {
      var cs := Undelivered(w, t, rule);
      var i :| 0 <= i < |cs| - MAX_PENDING && Needed(w.told, cs[i]);
      fp := cs[i].finding.Print();
      assert DroppedInNeed(w.told, cs, i, fp);
    }
  }

  lemma PruningKeepsAlerts(t: Table, cutoff: int)
    ensures forall fp :: Alerting(Get(KeptFindings(t, cutoff), fp)) == Alerting(Get(t, fp))
  {
  }

  /**
   * One round, whatever fails: the recipient stays in sync exactly if nothing
   * that alerts is lost and the delivery is not faulty. (Where the cap drops
   * changes in the very round that loses a finding, two wrongs may make a right:
   * SyncOverTheCap.)
   */
  lemma SyncExactlyWhen(w: World, t: Turn, rule: Rule, w': World)
    requires Sane(w) && InSync(w) && TellsAll(rule) && Named(t.res) && Round(w, t, rule, w')
    requires LosesNothing(w, t) || FitsCap(w, t, rule)
    ensures InSync(w') <==> LosesNothing(w, t) && !Faulty(w, t, rule)
  {
    hide Sane, InSync, TellsAll, Named, Renameable, CurrentIDs, DiffTells, TableSteps, LosesNothing, Lost, NextBacklog;
    hide Digested, Faulty, FitsCap, KeptFindings;
    var mid: Table :| TableSteps(Renamed(w.table, t.canon), t.res, t.resolveAfter, mid) &&
                      w'.table == KeptFindings(mid, t.cutoff);
    assert w'.told + w'.pending == SaidAfter(w, t, rule);
    if LosesNothing(w, t) {
      FaultsDecide(w, t, rule, mid);
      RightAboutAll(w, t, rule, mid, w');
    } else {
      LossySync(w, t, rule, mid, w');
    }
  }

  lemma RightAboutAll(w: World, t: Turn, rule: Rule, mid: Table, w': World)
    requires w'.table == KeptFindings(mid, t.cutoff) && w'.told + w'.pending == SaidAfter(w, t, rule)
    ensures InSync(w') <==> !exists fp :: WrongAbout(w, t, rule, mid, fp)
  {
    hide SaidAfter, KeptFindings;
    PruningKeepsAlerts(mid, t.cutoff);
    forall fp
      ensures WrongAbout(w, t, rule, mid, fp) <==>
        Replay(w'.told + w'.pending, fp) != Alerting(Get(w'.table, fp)) { }
    hide WrongAbout;
  }

  lemma LossySync(w: World, t: Turn, rule: Rule, mid: Table, w': World)
    requires Sane(w) && InSync(w) && TellsAll(rule) && Named(t.res) && FitsCap(w, t, rule) && !LosesNothing(w, t)
    requires Renameable(w.table, t.canon) && CurrentIDs(Current(t.res), t.canon)
    requires DiffTells(Renamed(w.table, t.canon), t.res, t.resolveAfter, t.changes)
    requires TableSteps(Renamed(w.table, t.canon), t.res, t.resolveAfter, mid)
    requires w'.table == KeptFindings(mid, t.cutoff) && w'.told + w'.pending == SaidAfter(w, t, rule)
    ensures !InSync(w')
  {
    hide Sane, TellsAll, Named, Renameable, CurrentIDs, DiffTells, TableSteps, Lost, NextBacklog, Digested, FitsCap;
    hide KeptFindings, Renamed, Current;
    var fp :| Lost(w, t, fp);
    LostAlerts(w, t, fp);
    LostIsWrong(w, t, rule, mid, fp);
    PruningKeepsAlerts(mid, t.cutoff);
    assert Replay(w'.told + w'.pending, fp) != Alerting(Get(w'.table, fp));
  }

  ghost predicate DroppedAt(cs: seq<Change>, i: int, fp: Fingerprint) {
    0 <= i < |cs| - MAX_PENDING && cs[i].finding.Print() == fp
  }

  /** What is right to believe of a finding whose entry the cap drops. */
  ghost predicate RightlyDropped(w: World, t: Turn, c: Change) {
    var fp := c.finding.Print();
    Replay(w.told, fp) == (c.kind != Resolved && !Lost(w, t, fp))
  }

  lemma OverTheCapAbout(w: World, t: Turn, rule: Rule, mid: Table, fp: Fingerprint)
    requires Sane(w) && InSync(w) && TellsAll(rule) && Named(t.res) && Unrenamed(w, t) && StoredAgain(t.e)
    requires Renameable(w.table, t.canon) && CurrentIDs(Current(t.res), t.canon)
    requires DiffTells(Renamed(w.table, t.canon), t.res, t.resolveAfter, t.changes)
    requires TableSteps(Renamed(w.table, t.canon), t.res, t.resolveAfter, mid)
    ensures
      var cs := Undelivered(w, t, rule);
      WrongAbout(w, t, rule, mid, fp) <==>
        if exists i :: DroppedAt(cs, i, fp) then exists i :: DroppedAt(cs, i, fp) && !RightlyDropped(w, t, cs[i])
        else Lost(w, t, fp)
  {
    hide DiffTells, TableSteps, Sane, NextBacklog, Digested, Filter, Merged, Capped, Latest, Lost, Distinct;
    hide Renameable, Renamed, TellsAll, Named, Unrenamed, CurrentIDs, Current;
    assert Replay(w.told + w.pending, fp) == Alerting(Get(w.table, fp));
    hide InSync;
    if Lost(w, t, fp) {
      LostAlerts(w, t, fp);
      LostIsUntold(w, t, rule, mid, fp);
      assert Distinct(w.pending) by { SaneDistinct(w); }
      ReplayThen(w.told, w.pending, fp);
    } else {
      OneFinding(w, t, rule, mid, fp);
      assert Distinct(w.pending) by { SaneDistinct(w); }
    }
    BeliefAfter(w.pending, AttemptOf(t, rule), w.told, fp);
    var cs := Undelivered(w, t, rule);
    CappedBelief(w.told, cs, fp);
    hide Undelivered, Capped, ChangeFor, MergedEntry, DroppedAt;
    if i :| DroppedAt(cs, i, fp) {
      assert ChangeFor(cs, fp) == Some(cs[i]);
      assert WrongAbout(w, t, rule, mid, fp) <==> !RightlyDropped(w, t, cs[i]) by { DroppedIsAbout(cs, i, fp); }
      assert forall j :: DroppedAt(cs, j, fp) ==> cs[j] == cs[i];
    }
  }

  lemma DroppedIsAbout(cs: seq<Change>, i: int, fp: Fingerprint)
    requires DroppedAt(cs, i, fp)
    ensures 0 <= i < |cs| && cs[i].finding.Print() == fp
  {
  }

  lemma CappedBelief(told: seq<Change>, cs: seq<Change>, fp: Fingerprint)
    requires Distinct(cs)
    ensures forall i :: DroppedAt(cs, i, fp) ==> 0 <= i < |cs| && ChangeFor(cs, fp) == Some(cs[i])
    ensures
      Believes(ChangeFor(Capped(cs), fp), Replay(told, fp)) ==
        if exists i :: DroppedAt(cs, i, fp) then Replay(told, fp) else Believes(ChangeFor(cs, fp), Replay(told, fp))
  {
    hide Distinct, ChangeFor, Capped, Replay;
    if ChangeFor(cs, fp).None? {
      NoEntry(cs, fp);
    } else {
      var i := EntryAt(cs, fp);
      DroppedEntry(cs, fp, i);
      OnlyEntry(cs, fp, i);
      if i < |cs| - MAX_PENDING { assert DroppedAt(cs, i, fp); }
    }
  }

  lemma SaneDistinct(w: World)
    requires Sane(w)
    ensures Distinct(w.pending)
  {
  }

  lemma EntryAt(cs: seq<Change>, fp: Fingerprint) returns (i: int)
    requires Distinct(cs) && ChangeFor(cs, fp).Some?
    ensures 0 <= i < |cs| && cs[i].finding.Print() == fp && ChangeFor(cs, fp) == Some(cs[i])
  {
    ChangeForMember(cs, fp);
    assert ChangeFor(cs, fp).value in cs;
    i :| 0 <= i < |cs| && cs[i] == ChangeFor(cs, fp).value;
  }

  lemma OnlyEntry(cs: seq<Change>, fp: Fingerprint, i: int)
    requires Distinct(cs) && 0 <= i < |cs| && cs[i].finding.Print() == fp
    ensures forall j :: DroppedAt(cs, j, fp) <==> j == i && i < |cs| - MAX_PENDING
  {
  }

  /**
   * A failed send that is stored, over the cap or not, with findings lost in
   * the same round: the recipient stays in sync exactly if every lost finding
   * is dropped from the backlog, and whatever is dropped is what the recipient
   * already believes.
   */
  lemma SyncOverTheCap(w: World, t: Turn, rule: Rule, w': World)
    requires Sane(w) && InSync(w) && TellsAll(rule) && Named(t.res) && Round(w, t, rule, w')
    requires Unrenamed(w, t) && StoredAgain(t.e)
    ensures
      var cs := Undelivered(w, t, rule);
      InSync(w') <==>
        && (forall fp :: Lost(w, t, fp) ==> exists i :: DroppedAt(cs, i, fp))
        && (forall i :: 0 <= i < |cs| - MAX_PENDING ==> RightlyDropped(w, t, cs[i]))
  {
    hide Sane, TellsAll, Named, Renameable, CurrentIDs, DiffTells, TableSteps, Lost, NextBacklog, Digested, Unrenamed;
    hide KeptFindings, Renamed, Current, RightlyDropped, Undelivered, StoredAgain;
    var mid: Table :| TableSteps(Renamed(w.table, t.canon), t.res, t.resolveAfter, mid) &&
                      w'.table == KeptFindings(mid, t.cutoff);
    PruningKeepsAlerts(mid, t.cutoff);
    assert w'.told + w'.pending == SaidAfter(w, t, rule);
    var cs := Undelivered(w, t, rule);
    forall fp
      ensures WrongAbout(w, t, rule, mid, fp) <==>
        if exists i :: DroppedAt(cs, i, fp) then exists i :: DroppedAt(cs, i, fp) && !RightlyDropped(w, t, cs[i])
        else Lost(w, t, fp)
      ensures WrongAbout(w, t, rule, mid, fp) <==> Replay(w'.told + w'.pending, fp) != Alerting(Get(w'.table, fp))
    {
      OverTheCapAbout(w, t, rule, mid, fp);
    }
    hide WrongAbout, SaidAfter;
    assert InSync(w') <==> forall fp :: !WrongAbout(w, t, rule, mid, fp);
    if InSync(w') {
      forall fp | Lost(w, t, fp) ensures exists i :: DroppedAt(cs, i, fp) { assert !WrongAbout(w, t, rule, mid, fp); }
      forall i | 0 <= i < |cs| - MAX_PENDING ensures RightlyDropped(w, t, cs[i]) {
        assert DroppedAt(cs, i, cs[i].finding.Print()) && !WrongAbout(w, t, rule, mid, cs[i].finding.Print());
      }
    }
  }

  lemma LostAlerts(w: World, t: Turn, fp: Fingerprint)
    requires Lost(w, t, fp)
    ensures Alerting(Get(w.table, fp))
  {
  }

  lemma RoundKeepsSane(w: World, t: Turn, rule: Rule, w': World)
    requires Sane(w) && Round(w, t, rule, w')
    ensures Sane(w')
  {
    hide Distinct, NextBacklog, Filter, Renameable, CurrentIDs, TableSteps, KeptFindings;
    var before := Renamed(w.table, t.canon);
    var mid: Table :| TableSteps(before, t.res, t.resolveAfter, mid) && w'.table == KeptFindings(mid, t.cutoff);
    RenamedStaysKeyed(w.table, t.canon);
    TableStaysKeyed(before, t, mid);
    hide WellKeyed, DiffTells;
    assert Distinct(t.changes) by { ReportsOnce(before, t); }
    FilterKeeps(rule, t.changes);
    StepStaysDistinct(w.pending, AttemptOf(t, rule));
  }

  lemma ReportsOnce(before: Table, t: Turn)
    requires DiffTells(before, t.res, t.resolveAfter, t.changes)
    ensures Distinct(t.changes)
  {
  }

  lemma NextStaysKeyed(st: Option<Stored>, res: RunResult, resolveAfter: int, fp: Fingerprint)
    requires st.Some? ==>
      var s := st.value; s.f.Print() == fp && s.f == Kept(s.f) && (s.open <==> s.resolvedAt.None?)
    ensures
      var next := Next(st, Observe(res, fp), Max(resolveAfter, 1), res.started + res.duration);
      next.Some? ==>
        var s := next.value; s.f.Print() == fp && s.f == Kept(s.f) && (s.open <==> s.resolvedAt.None?)
  {
    OccurrenceMember(Current(res), fp);
  }

  lemma TableStaysKeyed(before: Table, t: Turn, mid: Table)
    requires WellKeyed(before) && TableSteps(before, t.res, t.resolveAfter, mid)
    ensures WellKeyed(KeptFindings(mid, t.cutoff))
  {
    hide Observe, Next;
    forall fp | fp in mid
      ensures mid[fp].f.Print() == fp && mid[fp].f == Kept(mid[fp].f) && (mid[fp].open <==> mid[fp].resolvedAt.None?)
    {
      NextStaysKeyed(Get(before, fp), t.res, t.resolveAfter, fp);
      assert Get(mid, fp) ==
        Next(Get(before, fp), Observe(t.res, fp), Max(t.resolveAfter, 1), t.res.started + t.res.duration);
    }
  }

  // ----- any number of rounds ------------------------------------------------------------------------

  const NOTHING: World := World(map[], [], [])

  /** From nothing, one round after the other. */
  ghost predicate Runs(ws: seq<World>, turns: seq<Turn>, rule: Rule) {
    && |ws| == |turns| + 1
    && ws[0] == NOTHING
    && forall i :: 0 <= i < |turns| ==> Round(ws[i], turns[i], rule, ws[i + 1])
  }

  lemma {:induction false} RunsStaySane(ws: seq<World>, turns: seq<Turn>, rule: Rule, i: int)
    requires Runs(ws, turns, rule) && 0 <= i < |ws|
    ensures Sane(ws[i])
  {
    if i > 0 {
      RunsStaySane(ws, turns, rule, i - 1);
      RoundKeepsSane(ws[i - 1], turns[i - 1], rule, ws[i]);
    }
  }

  lemma NothingIsInSync()
    ensures InSync(NOTHING)
  {
    assert NOTHING.told + NOTHING.pending == [];
  }

  /** A round that neither loses a finding nor delivers faultily. */
  ghost predicate Good(w: World, t: Turn, rule: Rule) { LosesNothing(w, t) && !Faulty(w, t, rule) }

  /** Over any history the recipient is in sync throughout exactly if every round was good. */
  lemma InSyncExactlyWhile(ws: seq<World>, turns: seq<Turn>, rule: Rule)
    requires Runs(ws, turns, rule) && TellsAll(rule)
    requires forall i :: 0 <= i < |turns| ==>
      Named(turns[i].res) && (LosesNothing(ws[i], turns[i]) || FitsCap(ws[i], turns[i], rule))
    ensures (forall i :: 0 <= i < |ws| ==> InSync(ws[i])) <==>
            forall i :: 0 <= i < |turns| ==> Good(ws[i], turns[i], rule)
  {
    hide Round, InSync, Named, LosesNothing, FitsCap, Faulty, Sane;
    NothingIsInSync();
    if forall i :: 0 <= i < |ws| ==> InSync(ws[i]) {
      forall i | 0 <= i < |turns| ensures Good(ws[i], turns[i], rule) {
        RunsStaySane(ws, turns, rule, i);
        SyncExactlyWhen(ws[i], turns[i], rule, ws[i + 1]);
      }
    } else if forall i :: 0 <= i < |turns| ==> Good(ws[i], turns[i], rule) {
      forall i | 0 <= i < |ws| ensures InSync(ws[i]) { InSyncSoFar(ws, turns, rule, i); }
    }
  }

  lemma {:induction false} InSyncSoFar(ws: seq<World>, turns: seq<Turn>, rule: Rule, n: int)
    requires Runs(ws, turns, rule) && TellsAll(rule) && 0 <= n < |ws|
    requires forall i :: 0 <= i < n ==> Named(turns[i].res) && Good(ws[i], turns[i], rule)
    ensures InSync(ws[n])
  {
    hide Round, InSync, Named, LosesNothing, FitsCap, Faulty, Sane;
    NothingIsInSync();
    if n > 0 {
      InSyncSoFar(ws, turns, rule, n - 1);
      RunsStaySane(ws, turns, rule, n - 1);
      SyncExactlyWhen(ws[n - 1], turns[n - 1], rule, ws[n]);
    }
  }

  // ----- ordinary operation -----------------------------------------------------------------------------

  /** The run covers exactly these targets and suppresses nothing, the database answers, and the cap is not exceeded. */
  ghost predicate Ordinary(w: World, t: Turn, rule: Rule, targets: set<string>, canon: string -> string) {
    && t.canon == canon && Reliable(t.e) && FitsCap(w, t, rule)
    && Named(t.res) && t.res.suppressed == []
    && (set x | x in t.res.targets) == targets
    && (forall f :: f in t.res.findings ==> f.target in targets)
  }

  /** Rows of these targets, under today's check IDs, none suppressed. */
  ghost predicate Usual(t: Table, targets: set<string>, canon: string -> string) {
    forall fp :: fp in t ==> fp.target in targets && canon(fp.checkID) == fp.checkID && !t[fp].suppressed
  }

  lemma UsualLosesNothing(w: World, t: Turn, rule: Rule, targets: set<string>, canon: string -> string)
    requires Usual(w.table, targets, canon) && Ordinary(w, t, rule, targets, canon)
    ensures Good(w, t, rule)
  {
    hide Undelivered, Needed, Flips;
    forall fp ensures !Lost(w, t, fp) {
      if fp in w.table {
        assert fp.target in targets;
        OccurrenceMember(Current(t.res), fp);
      }
    }
  }

  lemma UsualRow(
    res: RunResult, st: Option<Stored>, resolveAfter: int, fp: Fingerprint, targets: set<string>,
    canon: string -> string)
    requires res.suppressed == [] && (forall f :: f in res.findings ==> f.target in targets)
    requires CurrentIDs(Current(res), canon)
    requires st.Some? ==> fp.target in targets && canon(fp.checkID) == fp.checkID && !st.value.suppressed
    ensures
      var next := Next(st, Observe(res, fp), Max(resolveAfter, 1), res.started + res.duration);
      next.Some? ==> fp.target in targets && canon(fp.checkID) == fp.checkID && !next.value.suppressed
  {
    OccurrenceMember(Current(res), fp);
    if Observe(res, fp).Present? {
      var p := Observe(res, fp).p;
      var i :| 0 <= i < |Current(res)| && Current(res)[i] == p;
      assert p.f == res.findings[i] && p.f in res.findings;
    }
  }

  lemma RoundStaysUsual(w: World, t: Turn, rule: Rule, w': World, targets: set<string>, canon: string -> string)
    requires Sane(w) && Usual(w.table, targets, canon) && Ordinary(w, t, rule, targets, canon)
    requires Round(w, t, rule, w')
    ensures Usual(w'.table, targets, canon)
  {
    hide DiffTells, NextBacklog, Digested, Observe, Next, FitsCap, Named, Renameable, CurrentIDs, Current;
    hide WellKeyed, Distinct;
    var before := Renamed(w.table, t.canon);
    var mid: Table :| TableSteps(before, t.res, t.resolveAfter, mid) && w'.table == KeptFindings(mid, t.cutoff);
    forall fp | fp in mid
      ensures fp.target in targets && canon(fp.checkID) == fp.checkID && !mid[fp].suppressed
    {
      UnrenamedRow(w.table, t.canon, fp);
      UsualRow(t.res, Get(before, fp), t.resolveAfter, fp, targets, canon);
      assert Get(mid, fp) ==
        Next(Get(before, fp), Observe(t.res, fp), Max(t.resolveAfter, 1), t.res.started + t.res.duration);
    }
  }

  lemma UnrenamedRow(t: Table, canon: string -> string, fp: Fingerprint)
    requires WellKeyed(t) && Renameable(t, canon) && forall k :: k in t ==> canon(k.checkID) == k.checkID
    ensures Get(Renamed(t, canon), fp) == Get(t, fp)
  {
    NothingRenamed(t, canon);
  }

  lemma NothingRenamed(t: Table, canon: string -> string)
    requires WellKeyed(t) && forall k :: k in t ==> canon(k.checkID) == k.checkID
    ensures Renameable(t, canon) && Renamed(t, canon) == t
  {
    forall k | k in t ensures Canonical(k, canon) == k && t[k].f.Print() == k { }
  }

  lemma {:induction false} RunsStayUsual(
    ws: seq<World>, turns: seq<Turn>, rule: Rule, targets: set<string>, canon: string -> string, i: int)
    requires Runs(ws, turns, rule) && 0 <= i < |ws|
    requires forall j :: 0 <= j < |turns| ==> Ordinary(ws[j], turns[j], rule, targets, canon)
    ensures Usual(ws[i].table, targets, canon)
  {
    if i > 0 {
      RunsStayUsual(ws, turns, rule, targets, canon, i - 1);
      RunsStaySane(ws, turns, rule, i - 1);
      RoundStaysUsual(ws[i - 1], turns[i - 1], rule, ws[i], targets, canon);
    }
  }

  /**
   * End to end, starting from nothing: whatever the checks report and whichever
   * digests fail to arrive, after every round what the recipient was told, and
   * then what is still pending, is exactly what the store holds open.
   */
  lemma AlwaysInSync(
    ws: seq<World>, turns: seq<Turn>, rule: Rule, targets: set<string>, canon: string -> string, i: int)
    requires Runs(ws, turns, rule) && TellsAll(rule) && 0 <= i < |ws|
    requires forall j :: 0 <= j < |turns| ==> Ordinary(ws[j], turns[j], rule, targets, canon)
    ensures forall fp :: Replay(ws[i].told + ws[i].pending, fp) == IsOpen(Get(ws[i].table, fp))
  {
    forall j | 0 <= j < |turns| ensures Good(ws[j], turns[j], rule) {
      RunsStayUsual(ws, turns, rule, targets, canon, j);
      UsualLosesNothing(ws[j], turns[j], rule, targets, canon);
    }
    InSyncSoFar(ws, turns, rule, i);
    RunsStayUsual(ws, turns, rule, targets, canon, i);
  }

  // ----- what goes wrong does happen -------------------------------------------------------------------

  /** A run that covers one target and one check, with these findings. */
  function RunOf(f: Finding, findings: seq<Finding>): RunResult {
    RunResult(0, 0, [f.target], [Execution(f.target, f.checkID)], [], findings, [])
  }

  const NO_TARGETS: RunResult := RunResult(0, 0, [], [], [], [], [])

  const FINE: Env := Env(true, true, true, true, true, true, 0)

  function Row(f: Finding): Stored { Stored(f, true, false, 0, 0, 0, None) }

  /** The first run finds f. */
  function FirstTurn(f: Finding, e: Env): Turn {
    Turn(RunOf(f, [f]), 1, id => id, [Change(New, f, false, 0)], e, 0)
  }

  /** The second run misses f, or no longer covers its target. */
  function SecondTurn(f: Finding, e: Env, covered: bool): Turn {
    if covered then Turn(RunOf(f, []), 1, id => id, [Change(Resolved, f, false, 0)], e, 0)
    else Turn(NO_TARGETS, 1, id => id, [], e, 0)
  }

  lemma ObservedIn(f: Finding, fp: Fingerprint)
    ensures fp == f.Print() ==> Observe(RunOf(f, [f]), fp) == Present(Presence(f, false))
    ensures fp != f.Print() ==> !Observe(RunOf(f, [f]), fp).Present?
    ensures fp == f.Print() ==> Observe(RunOf(f, []), fp) == Clean
    ensures !Observe(RunOf(f, []), fp).Present?
    ensures Observe(NO_TARGETS, fp) == Removed
  {
    OccurrenceMember(Current(RunOf(f, [f])), fp);
    assert Current(RunOf(f, [f])) == [Presence(f, false)];
    assert Current(RunOf(f, [])) == [] && Current(NO_TARGETS) == [];
  }

  lemma FirstTells(f: Finding, e: Env)
    requires f == Kept(f)
    ensures DiffTells(map[], RunOf(f, [f]), 1, FirstTurn(f, e).changes)
    ensures TableSteps(map[], RunOf(f, [f]), 1, map[f.Print() := Row(f)])
  {
    hide Observe;
    forall fp
      ensures ChangeFor(FirstTurn(f, e).changes, fp) == Report(None, Observe(RunOf(f, [f]), fp), 1, 0)
      ensures Get(map[f.Print() := Row(f)], fp) == Next(None, Observe(RunOf(f, [f]), fp), 1, 0)
    {
      ObservedIn(f, fp);
    }
  }

  /** The table after the second run. */
  function SecondTable(f: Finding, covered: bool): Table {
    if covered then map[f.Print() := Row(f).(open := false, resolvedAt := Some(0))] else map[]
  }

  lemma SecondTells(f: Finding, e: Env, covered: bool)
    ensures DiffTells(map[f.Print() := Row(f)], SecondTurn(f, e, covered).res, 1, SecondTurn(f, e, covered).changes)
    ensures TableSteps(map[f.Print() := Row(f)], SecondTurn(f, e, covered).res, 1, SecondTable(f, covered))
  {
    hide Observe;
    var t := SecondTurn(f, e, covered);
    forall fp
      ensures ChangeFor(t.changes, fp) == Report(Get(map[f.Print() := Row(f)], fp), Observe(t.res, fp), 1, 0)
      ensures Get(SecondTable(f, covered), fp) == Next(Get(map[f.Print() := Row(f)], fp), Observe(t.res, fp), 1, 0)
    {
      ObservedIn(f, fp);
    }
  }

  lemma FirstRound(f: Finding, rule: Rule, e: Env) returns (w: World)
    requires f == Kept(f) && TellsAll(rule) && ValidSeverity(f.severity)
    ensures Round(NOTHING, FirstTurn(f, e), rule, w) && w.table == map[f.Print() := Row(f)]
    ensures w.pending == NextBacklog([], Attempt([Change(New, f, false, 0)], e))
  {
    hide NextBacklog, Digested, DiffTells, TableSteps, Renamed, Renameable;
    var t := FirstTurn(f, e);
    var table: Table := map[f.Print() := Row(f)];
    NothingRenamed(map[], t.canon);
    FirstTells(f, e);
    assert KeptFindings(table, 0) == table;
    assert Filter(rule, t.changes[..0]) == [] && Filter(rule, t.changes) == t.changes;
    w := World(table, NextBacklog([], AttemptOf(t, rule)), [] + Digested([], AttemptOf(t, rule)));
  }

  lemma SecondRound(f: Finding, rule: Rule, w: World, e: Env, covered: bool) returns (w': World)
    requires f == Kept(f) && TellsAll(rule) && w.table == map[f.Print() := Row(f)]
    ensures Round(w, SecondTurn(f, e, covered), rule, w')
  {
    hide NextBacklog, Digested, DiffTells, TableSteps, Renamed, Renameable, Filter;
    var t := SecondTurn(f, e, covered);
    NothingRenamed(w.table, t.canon);
    SecondTells(f, e, covered);
    assert Current(t.res) == [];
    w' := World(KeptFindings(SecondTable(f, covered), 0), NextBacklog(w.pending, AttemptOf(t, rule)),
                w.told + Digested(w.pending, AttemptOf(t, rule)));
  }

  /** Two rounds from nothing: f is found, and in the second round missed or forgotten. */
  lemma TwoRounds(f: Finding, rule: Rule, e: Env, e': Env, covered: bool) returns (ws: seq<World>, turns: seq<Turn>)
    requires f == Kept(f) && TellsAll(rule) && ValidSeverity(f.severity) && Reliable(e)
    ensures turns == [FirstTurn(f, e), SecondTurn(f, e', covered)] && Runs(ws, turns, rule)
    ensures InSync(ws[1]) && ws[1].table == map[f.Print() := Row(f)]
    ensures ws[1].pending == if e.sendOK then [] else [Change(New, f, false, 0)]
    ensures FitsCap(ws[1], turns[1], rule) ==>
      (InSync(ws[2]) <==> LosesNothing(ws[1], turns[1]) && !Faulty(ws[1], turns[1], rule))
  {
    hide Round, InSync, Sane, NextBacklog, FitsCap;
    var w := FirstRound(f, rule, e);
    var w' := SecondRound(f, rule, w, e', covered);
    ws, turns := [NOTHING, w, w'], [FirstTurn(f, e), SecondTurn(f, e', covered)];
    FirstIsGood(f, rule, e);
    InSyncSoFar(ws, turns, rule, 1);
    RunsStaySane(ws, turns, rule, 1);
    if FitsCap(w, turns[1], rule) { SyncExactlyWhen(w, turns[1], rule, w'); }
  }

  lemma FirstIsGood(f: Finding, rule: Rule, e: Env)
    requires TellsAll(rule) && ValidSeverity(f.severity) && Reliable(e)
    ensures Good(NOTHING, FirstTurn(f, e), rule)
    ensures NextBacklog([], Attempt([Change(New, f, false, 0)], e)) ==
      if e.sendOK then [] else [Change(New, f, false, 0)]
  {
    var t := FirstTurn(f, e);
    assert Filter(rule, t.changes[..0]) == [] && Filter(rule, t.changes) == t.changes;
  }

  /** An open finding is forgotten: its target leaves, and the recipient goes on believing in it. */
  lemma ForgettingHappens(f: Finding, rule: Rule) returns (ws: seq<World>, turns: seq<Turn>)
    requires f == Kept(f) && TellsAll(rule) && ValidSeverity(f.severity)
    ensures Runs(ws, turns, rule) && |turns| == 2 && forall t :: t in turns ==> Reliable(t.e)
    ensures Lost(ws[1], turns[1], f.Print()) && InSync(ws[1]) && !InSync(ws[2])
  {
    hide InSync, Round;
    ws, turns := TwoRounds(f, rule, FINE, FINE, false);
    assert Lost(ws[1], turns[1], f.Print());
    assert FitsCap(ws[1], turns[1], rule);
  }

  /** A failed read loses a resolution for good. */
  lemma FailedReadLosesChanges(f: Finding, rule: Rule) returns (ws: seq<World>, turns: seq<Turn>)
    requires f == Kept(f) && TellsAll(rule) && ValidSeverity(f.severity)
    ensures Runs(ws, turns, rule) && |turns| == 2 && turns[1].e == FINE.(readPending := false)
    ensures LosesNothing(ws[1], turns[1]) && InSync(ws[1]) && !InSync(ws[2])
  {
    hide InSync, Round;
    ws, turns := TwoRounds(f, rule, FINE, FINE.(readPending := false), true);
    SecondLosesNothing(f, ws[1], turns[1].e);
    assert turns[1].changes[0] in turns[1].changes && FitsCap(ws[1], turns[1], rule);
  }

  /** A failed delete leaves a "new" in the backlog after its "resolved" was sent. */
  lemma FailedDeleteMisleads(f: Finding, rule: Rule) returns (ws: seq<World>, turns: seq<Turn>)
    requires f == Kept(f) && TellsAll(rule) && ValidSeverity(f.severity)
    ensures Runs(ws, turns, rule) && |turns| == 2 && turns[1].e == FINE.(remove := false)
    ensures LosesNothing(ws[1], turns[1]) && InSync(ws[1]) && !InSync(ws[2])
  {
    hide InSync, Round;
    ws, turns := TwoRounds(f, rule, FINE.(sendOK := false), FINE.(remove := false), true);
    SecondLosesNothing(f, ws[1], turns[1].e);
    assert turns[1].changes[0] in turns[1].changes && FitsCap(ws[1], turns[1], rule);
  }

  lemma SecondLosesNothing(f: Finding, w: World, e: Env)
    requires w.table == map[f.Print() := Row(f)]
    ensures LosesNothing(w, SecondTurn(f, e, true))
  {
  }
}
