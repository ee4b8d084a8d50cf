/** The state store: its tables as maps, and the methods that record runs in them. */
module State {
  import opened Core
  import opened Ordering
  import opened Lifecycle

  // ----- change order ------------------------------------------------------------

  function KindOrder(k: Kind): int {
    match k case New => 0 case Regressed => 1 case Resolved => 2 case Persisting => 3
  }

  /** Target, then kind, then as findings. */
  function CompareChanges(a: Change, b: Change): int {
    Or(Compare(a.finding.target, b.finding.target),
       Or(CompareInt(KindOrder(a.kind), KindOrder(b.kind)),
          CompareFindings(a.finding, b.finding)))
  }

  predicate ChangeLeq(a: Change, b: Change) { CompareChanges(a, b) <= 0 }

  lemma ChangesMirror(a: Change, b: Change)
    ensures CompareChanges(a, b) == -CompareChanges(b, a)
    ensures CompareChanges(a, b) == 0 ==> a.finding.Print() == b.finding.Print()
  {
    CompareMirror(a.finding.target, b.finding.target);
    FindingsMirror(a.finding, b.finding);
  }

  lemma ChangesOrdered()
    ensures Ordered(ChangeLeq)
  {
    hide Compare, CompareFindings;
    forall a: Change, b: Change ensures ChangeLeq(a, b) || ChangeLeq(b, a) { ChangesMirror(a, b); }
    forall a: Change, b: Change, c: Change | ChangeLeq(a, b) && ChangeLeq(b, c) ensures ChangeLeq(a, c) {
      CompareChain(a.finding.target, b.finding.target, c.finding.target);
      CompareMirror(a.finding.target, b.finding.target);
      CompareMirror(b.finding.target, c.finding.target);
      FindingsChain(a.finding, b.finding, c.finding);
    }
  }

  /** In a sorted diff targets ascend, and each target's changes go new, regressed, resolved, persisting. */
  lemma SortedDiff(cs: seq<Change>, i: int, j: int)
    requires SortedBy(cs, ChangeLeq) && 0 <= i < j < |cs|
    ensures
      var c, d := cs[i], cs[j];
      && !Before(d.finding.target, c.finding.target)
      && (c.finding.target == d.finding.target && c.kind != d.kind ==>
            c.kind != Persisting && d.kind != New && (c.kind == Resolved ==> d.kind == Persisting) &&
            (d.kind == Regressed ==> c.kind == New))
      && (c.finding.target == d.finding.target && c.kind == d.kind ==> FindingLeq(c.finding, d.finding))
  {
    hide Compare, Before, CompareFindings;
    CompareMirror(cs[i].finding.target, cs[j].finding.target);
    CompareMeans(cs[j].finding.target, cs[i].finding.target);
  }

  /** At most one change per finding. */
  ghost predicate Distinct(cs: seq<Change>) {
    forall i, j :: 0 <= i < j < |cs| ==> cs[i].finding.Print() != cs[j].finding.Print()
  }

  function ChangeFor(cs: seq<Change>, fp: Fingerprint): Option<Change> {
    if cs == [] then None
    else if cs[0].finding.Print() == fp then Some(cs[0])
    else ChangeFor(cs[1..], fp)
  }

  lemma {:induction false} ChangeForMember(cs: seq<Change>, fp: Fingerprint)
    requires Distinct(cs)
    ensures forall c :: ChangeFor(cs, fp) == Some(c) <==> c in cs && c.finding.Print() == fp
    ensures ChangeFor(cs, fp).None? <==> forall c :: c in cs ==> c.finding.Print() != fp
  {
    if cs != [] {
      ChangeForMember(cs[1..], fp);
      assert cs == [cs[0]] + cs[1..];
      assert forall c :: c in cs <==> c == cs[0] || c in cs[1..];
    }
  }

  // ----- rows in memory ------------------------------------------------------------

  /** A findings row while a run is recorded. oldFP is set when its check was renamed. */
  datatype Row = Row(cols: Stored, dirty: bool, gone: bool, oldFP: Option<Fingerprint>)

  type Rows = map<Fingerprint, Row>

  type Table = map<Fingerprint, Stored>

  function Canonical(fp: Fingerprint, canon: string -> string): Fingerprint {
    fp.(checkID := canon(fp.checkID))
  }

  function LoadRow(k: Fingerprint, st: Stored, canon: string -> string): Row {
    var id := canon(st.f.checkID);
    if id != st.f.checkID then Row(st.(f := st.f.(checkID := id)), true, false, Some(k))
    else Row(st, false, false, None)
  }

  /** The row as the columns of the table would hold it. */
  function Columns(rw: Row): Stored { rw.cols.(f := Kept(rw.cols.f)) }

  ghost predicate WellKeyed(t: Table) {
    forall k :: k in t ==>
      && t[k].f.Print() == k
      && t[k].f == Kept(t[k].f)
      && (t[k].open <==> t[k].resolvedAt.None?)
  }

  /** No two stored rows are renamed to one fingerprint. */
  ghost predicate NoneMeet(t: Table, canon: string -> string) {
    forall k, k' :: k in t && k' in t && Canonical(k, canon) == Canonical(k', canon) ==> k == k'
  }

  /** No two stored rows are renamed to one fingerprint, and renaming twice is renaming once. */
  ghost predicate Renameable(t: Table, canon: string -> string) {
    NoneMeet(t, canon) && forall k :: k in t ==> canon(canon(k.checkID)) == canon(k.checkID)
  }

  /** The table as a reader with today's check IDs sees it. */
  ghost function Renamed(t: Table, canon: string -> string): Table
    requires Renameable(t, canon)
  {
    map k | k in t :: Canonical(k, canon) := t[k].(f := t[k].f.(checkID := canon(k.checkID)))
  }

  /** The rows of a freshly loaded table. */
  ghost predicate IsLoaded(t: Table, canon: string -> string, rows: Rows) {
    && (forall k :: k in t ==> Canonical(k, canon) in rows)
    && (forall fp :: fp in rows ==>
      exists k :: k in t && Canonical(k, canon) == fp && rows[fp] == LoadRow(k, t[k], canon))
  }

  // ----- loop 1: findings the run reports ---------------------------------------------

  function Mark(rw: Option<Row>, p: Presence, now: int): Row {
    var firstSeen := if rw.Some? then rw.value.cols.firstSeen else now;
    Row(Stored(p.f, true, p.suppressed, 0, firstSeen, now, None), true,
        rw.Some? && rw.value.gone, if rw.Some? then rw.value.oldFP else None)
  }

  function MarkChange(rw: Option<Row>, p: Presence, now: int): Change {
    var st := if rw.Some? then Some(rw.value.cols) else None;
    Change(PresentKind(st, p.suppressed), p.f, p.suppressed, Mark(rw, p, now).cols.firstSeen)
  }

  function MarkAll(rows: Rows, cur: seq<Presence>, now: int): (Rows, seq<Change>) {
    if cur == [] then (rows, [])
    else
      var (r, cs) := MarkAll(rows, cur[..|cur| - 1], now);
      var p := cur[|cur| - 1];
      var fp := p.f.Print();
      (r[fp := Mark(Get(r, fp), p, now)], cs + [MarkChange(Get(r, fp), p, now)])
  }

  // ----- loop 2: findings the run does not report ---------------------------------------

  datatype Absence = Absence(targets: set<string>, ran: set<Execution>, resolveAfter: int, now: int)

  predicate Misses(rw: Row, a: Absence) {
    rw.cols.f.target in a.targets && rw.cols.open && Execution(rw.cols.f.target, rw.cols.f.checkID) in a.ran
  }

  predicate Resolves(rw: Row, a: Absence) {
    Misses(rw, a) && rw.cols.missing + 1 >= a.resolveAfter
  }

  function Age(rw: Row, a: Absence): Row {
    if rw.cols.f.target !in a.targets then rw.(gone := true)
    else if Resolves(rw, a) then
      rw.(cols := rw.cols.(open := false, missing := 0, resolvedAt := Some(a.now)), dirty := true)
    else if Misses(rw, a) then rw.(cols := rw.cols.(missing := rw.cols.missing + 1), dirty := true)
    else rw
  }

  function ResolvedChange(rw: Row): Change {
    Change(Resolved, rw.cols.f, rw.cols.suppressed, rw.cols.firstSeen)
  }

  function AgeAll(rows: Rows, seen: set<Fingerprint>, a: Absence): Rows {
    map fp | fp in rows :: if fp in seen then rows[fp] else Age(rows[fp], a)
  }

  predicate CountsOpen(rw: Row) { rw.cols.open && !rw.cols.suppressed && !rw.gone }

  // ----- write-back -----------------------------------------------------------------------

  /** INSERT ... ON CONFLICT DO UPDATE: target, subject and first_seen keep their old values. */
  function Upsert(t: Table, fp: Fingerprint, st: Stored): Table {
    if fp in t then
      t[fp := st.(f := st.f.(target := t[fp].f.target, subject := t[fp].f.subject), firstSeen := t[fp].firstSeen)]
    else t[fp := st]
  }

  function WriteBack(t: Table, fp: Fingerprint, rw: Row): Table {
    var t1 := if rw.oldFP.Some? then t - {rw.oldFP.value} else t;
    if rw.gone then t1 - {fp}
    else if !rw.dirty then t1
    else Upsert(t1, fp, Columns(rw))
  }

  function Surviving(rows: Rows): Table {
    map fp | fp in rows && !rows[fp].gone :: Columns(rows[fp])
  }

  /** How the rows in memory stand to the table they were loaded from. */
  ghost predicate Consistent(t: Table, canon: string -> string, rows: Rows) {
    && (forall fp :: fp in rows ==> rows[fp].cols.f.Print() == fp && canon(fp.checkID) == fp.checkID)
    && (forall fp :: fp in rows && rows[fp].oldFP.Some? ==>
          var k := rows[fp].oldFP.value; k in t && fp == Canonical(k, canon) && k != fp)
    && (forall k :: k in t ==> Canonical(k, canon) in rows)
    && (forall k :: k in t && Canonical(k, canon) != k ==> rows[Canonical(k, canon)].oldFP == Some(k))
    && (forall fp :: fp in rows && !rows[fp].dirty && !rows[fp].gone ==> fp in t && t[fp] == Columns(rows[fp]))
    && (forall fp :: fp in rows && fp in t ==> rows[fp].cols.firstSeen == t[fp].firstSeen)
  }

  /** The table when the rows in done have been written back. */
  ghost predicate Half(t0: Table, canon: string -> string, rows: Rows, done: set<Fingerprint>, t: Table) {
    forall k :: Get(t, k) ==
      if k in rows && k in done then Get(Surviving(rows), k)
      else if Canonical(k, canon) in done && Canonical(k, canon) != k then None
      else Get(t0, k)
  }

  lemma WriteBackElsewhere(t: Table, fp: Fingerprint, rw: Row, k: Fingerprint)
    requires k != fp
    ensures Get(WriteBack(t, fp, rw), k) == if rw.oldFP == Some(k) then None else Get(t, k)
  {
  }

  lemma WrittenBack(t0: Table, canon: string -> string, rows: Rows, t: Table, fp: Fingerprint)
    requires WellKeyed(t0) && Consistent(t0, canon, rows) && fp in rows && Get(t, fp) == Get(t0, fp)
    ensures Get(WriteBack(t, fp, rows[fp]), fp) == Get(Surviving(rows), fp)
  {
    if rows[fp].oldFP.Some? { assert rows[fp].oldFP.value != fp; }
  }

  lemma WriteBackStep(t0: Table, canon: string -> string, rows: Rows, done: set<Fingerprint>, t: Table, fp: Fingerprint)
    requires WellKeyed(t0) && Consistent(t0, canon, rows)
    requires done <= rows.Keys && fp in rows && fp !in done
    requires Half(t0, canon, rows, done, t)
    ensures Half(t0, canon, rows, done + {fp}, WriteBack(t, fp, rows[fp]))
  {
    var rw := rows[fp];
    assert Get(t, fp) == Get(t0, fp);
    forall k ensures Get(WriteBack(t, fp, rw), k) ==
        if k in rows && k in done + {fp} then Get(Surviving(rows), k)
        else if Canonical(k, canon) in done + {fp} && Canonical(k, canon) != k then None
        else Get(t0, k)
    {
      if k == fp {
        WrittenBack(t0, canon, rows, t, fp);
      } else {
        WriteBackElsewhere(t, fp, rw, k);
        hide WriteBack, Surviving, Columns;
        if k in t0 && Canonical(k, canon) == fp { assert rw.oldFP == Some(k); }
      }
    }
  }

  predicate Sound(rw: Row, fp: Fingerprint) {
    rw.cols.f.Print() == fp && (rw.cols.open <==> rw.cols.resolvedAt.None?)
  }

  lemma WriteBackKeyed(t: Table, fp: Fingerprint, rw: Row)
    requires WellKeyed(t) && Sound(rw, fp)
    ensures WellKeyed(WriteBack(t, fp, rw))
  {
  }

  lemma WriteBackDone(t0: Table, canon: string -> string, rows: Rows, t: Table)
    requires Consistent(t0, canon, rows) && Half(t0, canon, rows, rows.Keys, t)
    ensures t == Surviving(rows)
  {
    forall k ensures Get(t, k) == Get(Surviving(rows), k) {
      if k !in rows && k in t0 {
        assert Canonical(k, canon) in rows;
      }
    }
    SameMap(t, Surviving(rows));
  }

  /** The table after the rows are written back in the given order. */
  function WriteBackAll(t: Table, rows: Rows, order: seq<Fingerprint>): Table
    requires forall fp :: fp in order ==> fp in rows
  {
    if order == [] then t
    else
      var fp := order[|order| - 1];
      WriteBack(WriteBackAll(t, rows, order[..|order| - 1]), fp, rows[fp])
  }

  function Members(order: seq<Fingerprint>): set<Fingerprint> { set fp | fp in order }

  /** Every row once. */
  ghost predicate OrderOf(order: seq<Fingerprint>, rows: Rows) {
    && (forall fp :: fp in order <==> fp in rows)
    && (forall i, j :: 0 <= i < j < |order| ==> order[i] != order[j])
  }

  lemma {:induction false} HalfInOrder(t0: Table, canon: string -> string, rows: Rows, order: seq<Fingerprint>, n: int)
    requires WellKeyed(t0) && Consistent(t0, canon, rows) && OrderOf(order, rows) && 0 <= n <= |order|
    ensures Half(t0, canon, rows, Members(order[..n]), WriteBackAll(t0, rows, order[..n]))
  {
    hide Consistent, WellKeyed, WriteBack;
    if n > 0 {
      HalfInOrder(t0, canon, rows, order, n - 1);
      var before, done := order[..n - 1], Members(order[..n - 1]);
      assert order[..n][..n - 1] == before && order[..n] == before + [order[n - 1]];
      WriteBackStep(t0, canon, rows, done, WriteBackAll(t0, rows, before), order[n - 1]);
      assert Members(order[..n]) == done + {order[n - 1]};
    }
  }

  lemma ExactInOrder(t: Table, canon: string -> string, rows: Rows, order: seq<Fingerprint>)
    requires WellKeyed(t) && Renameable(t, canon) && IsLoaded(t, canon, rows) && OrderOf(order, rows)
    ensures WriteBackAll(t, rows, order) == Surviving(rows)
  {
    LoadedConsistent(t, canon, rows);
    HalfInOrder(t, canon, rows, order, |order|);
    assert order[..|order|] == order && Members(order) == rows.Keys;
    WriteBackDone(t, canon, rows, WriteBackAll(t, rows, order));
  }

  lemma {:induction false} StaleStays(t: Table, rows: Rows, order: seq<Fingerprint>, stale: Fingerprint)
    requires forall fp :: fp in order ==> fp in rows
    requires stale !in rows && forall fp :: fp in rows ==> rows[fp].oldFP != Some(stale)
    ensures Get(WriteBackAll(t, rows, order), stale) == Get(t, stale)
  {
    hide WriteBack;
    if order != [] {
      var before, fp := order[..|order| - 1], order[|order| - 1];
      StaleStays(t, rows, before, stale);
      WriteBackElsewhere(WriteBackAll(t, rows, before), fp, rows[fp], stale);
    }
  }

  lemma Enumerate(s: set<Fingerprint>) returns (order: seq<Fingerprint>)
    ensures forall fp :: fp in order <==> fp in s
    ensures forall i, j :: 0 <= i < j < |order| ==> order[i] != order[j]
  {
    if s == {} { return []; }
    var fp :| fp in s;
    var rest := Enumerate(s - {fp});
    order := [fp] + rest;
  }

  /** A load in which the row of k is the one that stays in memory. */
  lemma LoadKeeping(t: Table, canon: string -> string, k: Fingerprint) returns (rows: Rows)
    requires k in t
    ensures IsLoaded(t, canon, rows) && rows[Canonical(k, canon)] == LoadRow(k, t[k], canon)
  {
    hide LoadRow;
    rows := map[];
    var todo := t.Keys;
    while todo != {}
      invariant todo <= t.Keys
      invariant forall j :: j in t && j !in todo ==> Canonical(j, canon) in rows
      invariant forall fp :: fp in rows ==>
        exists j :: j in t && Canonical(j, canon) == fp && rows[fp] == LoadRow(j, t[j], canon)
      decreases todo
    {
      var j :| j in todo;
      rows := rows[Canonical(j, canon) := LoadRow(j, t[j], canon)];
      todo := todo - {j};
    }
    rows := rows[Canonical(k, canon) := LoadRow(k, t[k], canon)];
  }

  /** Loading and writing back gives the rows in memory, in whatever order the rows come. */
  ghost predicate AlwaysExact(t: Table, canon: string -> string) {
    forall rows, order :: IsLoaded(t, canon, rows) && OrderOf(order, rows) ==>
      WriteBackAll(t, rows, order) == Surviving(rows)
  }

  /** Of two rows that meet, one can stay behind in the table. */
  lemma MeetingIsInexact(t: Table, canon: string -> string, k: Fingerprint, stale: Fingerprint)
    requires WellKeyed(t) && k in t && stale in t && k != stale && stale != Canonical(k, canon)
    requires Canonical(k, canon) == Canonical(stale, canon)
    requires forall j :: j in t ==> canon(canon(j.checkID)) == canon(j.checkID)
    ensures !AlwaysExact(t, canon)
  {
    var rows := LoadKeeping(t, canon, k);
    var order := Enumerate(rows.Keys);
    forall fp | fp in rows ensures fp != stale && rows[fp].oldFP != Some(stale) {
      var j :| j in t && Canonical(j, canon) == fp && rows[fp] == LoadRow(j, t[j], canon);
      assert t[j].f.Print() == j;
    }
    StaleStays(t, rows, order, stale);
    assert stale !in Surviving(rows);
  }

  /**
   * Writing back is exact for every order the rows are loaded and written in
   * exactly when no two stored rows are renamed to one fingerprint.
   */
  lemma ExactExactlyWhen(t: Table, canon: string -> string)
    requires WellKeyed(t)
    requires forall k :: k in t ==> canon(canon(k.checkID)) == canon(k.checkID)
    ensures AlwaysExact(t, canon) <==> NoneMeet(t, canon)
  {
    hide Canonical, IsLoaded, Surviving, WellKeyed;
    if NoneMeet(t, canon) {
      forall rows, order | IsLoaded(t, canon, rows) && OrderOf(order, rows)
        ensures (forall fp :: fp in order ==> fp in rows) && WriteBackAll(t, rows, order) == Surviving(rows)
      {
        ExactInOrder(t, canon, rows, order);
      }
    } else {
      var k, k' :| k in t && k' in t && Canonical(k, canon) == Canonical(k', canon) && k != k';
      if k' != Canonical(k, canon) { MeetingIsInexact(t, canon, k, k'); } else { MeetingIsInexact(t, canon, k', k); }
    }
  }

  // ----- the loops keep the rows consistent with the table --------------------------------

  ghost predicate Keyed(rows: Rows) {
    forall fp :: fp in rows ==> rows[fp].cols.f.Print() == fp
  }

  /** Every finding of the run carries a current check ID. */
  ghost predicate CurrentIDs(cur: seq<Presence>, canon: string -> string) {
    forall p :: p in cur ==> canon(p.f.checkID) == p.f.checkID
  }

  lemma LoadedRow(t: Table, canon: string -> string, rows: Rows, k: Fingerprint)
    requires Renameable(t, canon) && IsLoaded(t, canon, rows) && k in t
    ensures Canonical(k, canon) in rows && rows[Canonical(k, canon)] == LoadRow(k, t[k], canon)
  {
  }

  /** Where a loaded row comes from. */
  lemma LoadedFrom(t: Table, canon: string -> string, rows: Rows, fp: Fingerprint) returns (k: Fingerprint)
    requires WellKeyed(t) && Renameable(t, canon) && IsLoaded(t, canon, rows) && fp in rows
    ensures k in t && Canonical(k, canon) == fp && rows[fp] == LoadRow(k, t[k], canon)
    ensures canon(fp.checkID) == fp.checkID && rows[fp].cols.f.Print() == fp
    ensures rows[fp].oldFP == if k == fp then None else Some(k)
    ensures !rows[fp].gone && Columns(rows[fp]) == rows[fp].cols
    ensures rows[fp].cols == t[k].(f := t[k].f.(checkID := canon(k.checkID)))
    ensures rows[fp].dirty <==> k != fp
    ensures fp in t ==> k == fp
  {
    k :| k in t && Canonical(k, canon) == fp && rows[fp] == LoadRow(k, t[k], canon);
    assert t[k].f.Print() == k;
    if fp in t { assert Canonical(fp, canon) == fp; }
  }

  lemma LoadedConsistent(t: Table, canon: string -> string, rows: Rows)
    requires WellKeyed(t) && Renameable(t, canon) && IsLoaded(t, canon, rows)
    ensures Consistent(t, canon, rows)
  {
    forall fp | fp in rows
      ensures rows[fp].cols.f.Print() == fp && canon(fp.checkID) == fp.checkID
      ensures rows[fp].oldFP.Some? ==> var k := rows[fp].oldFP.value; k in t && fp == Canonical(k, canon) && k != fp
      ensures !rows[fp].dirty && !rows[fp].gone ==> fp in t && t[fp] == Columns(rows[fp])
      ensures fp in t ==> rows[fp].cols.firstSeen == t[fp].firstSeen
    {
      var k := LoadedFrom(t, canon, rows, fp);
    }
    forall k | k in t && Canonical(k, canon) != k ensures rows[Canonical(k, canon)].oldFP == Some(k) {
      LoadedRow(t, canon, rows, k);
    }
  }

  lemma LoadedAt(t: Table, canon: string -> string, rows: Rows, fp: Fingerprint)
    requires WellKeyed(t) && Renameable(t, canon) && IsLoaded(t, canon, rows)
    ensures Get(Renamed(t, canon), fp) == if fp in rows then Some(rows[fp].cols) else None
    ensures fp in rows ==> !rows[fp].gone && Columns(rows[fp]) == rows[fp].cols && rows[fp].cols.f.Print() == fp
  {
  }

  lemma MarkConsistent(t: Table, canon: string -> string, rows: Rows, p: Presence, now: int)
    requires Consistent(t, canon, rows) && canon(p.f.checkID) == p.f.checkID
    ensures Consistent(t, canon, rows[p.f.Print() := Mark(Get(rows, p.f.Print()), p, now)])
  {
  }

  lemma {:induction false} MarkAllConsistent(
    t: Table, canon: string -> string, rows: Rows, cur: seq<Presence>, now: int)
    requires Consistent(t, canon, rows) && CurrentIDs(cur, canon)
    ensures Consistent(t, canon, MarkAll(rows, cur, now).0)
  {
    if cur != [] {
      var n := |cur| - 1;
      MarkAllConsistent(t, canon, rows, cur[..n], now);
      MarkConsistent(t, canon, MarkAll(rows, cur[..n], now).0, cur[n], now);
    }
  }

  lemma AgeConsistent(t: Table, canon: string -> string, rows: Rows, seen: set<Fingerprint>, a: Absence)
    requires Consistent(t, canon, rows)
    ensures Consistent(t, canon, AgeAll(rows, seen, a))
  {
    var aged := AgeAll(rows, seen, a);
    forall fp | fp in rows
      ensures aged[fp].oldFP == rows[fp].oldFP && aged[fp].cols.f == rows[fp].cols.f
      ensures aged[fp].cols.firstSeen == rows[fp].cols.firstSeen
      ensures aged[fp].dirty || aged[fp].gone || aged[fp] == rows[fp] { }
    assert aged.Keys == rows.Keys;
    hide Age, AgeAll;
  }

  // ----- what the loops do to one finding ---------------------------------------------------

  lemma {:induction false} OccurrenceMember(cur: seq<Presence>, fp: Fingerprint)
    ensures Occurrence(cur, fp).None? <==> forall p :: p in cur ==> p.f.Print() != fp
    ensures Occurrence(cur, fp).Some? ==> Occurrence(cur, fp).value in cur && Occurrence(cur, fp).value.f.Print() == fp
  {
    if cur != [] {
      OccurrenceMember(cur[1..], fp);
      assert cur == [cur[0]] + cur[1..];
    }
  }

  lemma {:induction false} MarkAllAt(rows: Rows, cur: seq<Presence>, now: int, fp: Fingerprint)
    requires DistinctPresences(cur)
    ensures Get(MarkAll(rows, cur, now).0, fp) ==
      match Occurrence(cur, fp) case None => Get(rows, fp) case Some(p) => Some(Mark(Get(rows, fp), p, now))
  {
    hide Mark, MarkChange;
    if cur != [] {
      MarkAllAt(rows, cur[..|cur| - 1], now, fp);
      LastOccurrence(cur, fp);
    }
  }

  lemma LastOccurrence(cur: seq<Presence>, fp: Fingerprint)
    requires cur != [] && DistinctPresences(cur)
    ensures
      var n := |cur| - 1;
      Occurrence(cur, fp) == (if cur[n].f.Print() == fp then Some(cur[n]) else Occurrence(cur[..n], fp)) &&
      (cur[n].f.Print() == fp ==> Occurrence(cur[..n], fp).None?)
  {
    var n := |cur| - 1;
    OccurrenceMember(cur, fp);
    OccurrenceMember(cur[..n], fp);
    hide Occurrence;
    assert cur == cur[..n] + [cur[n]];
  }

  lemma {:induction false} MarkChangesAt(rows: Rows, cur: seq<Presence>, now: int)
    requires DistinctPresences(cur)
    ensures var cs := MarkAll(rows, cur, now).1;
      |cs| == |cur| && forall i :: 0 <= i < |cur| ==> cs[i] == MarkChange(Get(rows, cur[i].f.Print()), cur[i], now)
  {
    if cur != [] {
      var n := |cur| - 1;
      MarkChangesAt(rows, cur[..n], now);
      var fp := cur[n].f.Print();
      MarkAllAt(rows, cur[..n], now, fp);
      OccurrenceMember(cur[..n], fp);
    }
  }

  ghost function SeenIn(cur: seq<Presence>): set<Fingerprint> { set p | p in cur :: p.f.Print() }

  ghost function AbsenceOf(res: RunResult, resolveAfter: int): Absence {
    Absence((set x | x in res.targets), CleanRuns(res), Max(resolveAfter, 1), res.started + res.duration)
  }

  /** Loop 1 and loop 2 as one row goes through them. */
  function StepRow(rw: Option<Row>, occ: Option<Presence>, a: Absence): Option<Row> {
    match occ
    case Some(p) => Some(Mark(rw, p, a.now))
    case None => if rw.Some? then Some(Age(rw.value, a)) else None
  }

  function Survivor(rw: Option<Row>): Option<Stored> {
    if rw.Some? && !rw.value.gone then Some(Columns(rw.value)) else None
  }

  function ColumnsOf(rw: Option<Row>): Option<Stored> {
    if rw.Some? then Some(rw.value.cols) else None
  }

  lemma StepRowIsNext(rw: Option<Row>, res: RunResult, fp: Fingerprint, resolveAfter: int)
    requires rw.Some? ==> !rw.value.gone && Columns(rw.value) == rw.value.cols && rw.value.cols.f.Print() == fp
    ensures var a := AbsenceOf(res, resolveAfter);
      Survivor(StepRow(rw, Occurrence(Current(res), fp), a)) ==
        Next(ColumnsOf(rw), Observe(res, fp), a.resolveAfter, a.now)
  {
  }

  lemma StepRowIsReport(rw: Option<Row>, res: RunResult, fp: Fingerprint, resolveAfter: int)
    requires rw.Some? ==> rw.value.cols.f.Print() == fp
    ensures var a := AbsenceOf(res, resolveAfter);
      Report(ColumnsOf(rw), Observe(res, fp), a.resolveAfter, a.now) ==
        match Occurrence(Current(res), fp)
        case Some(p) => Some(MarkChange(rw, p, a.now))
        case None => if rw.Some? && Resolves(rw.value, a) then Some(ResolvedChange(rw.value)) else None
  {
  }

  lemma LoopsAt(rows: Rows, res: RunResult, a: Absence, fp: Fingerprint)
    requires NoRepeats(res)
    ensures Get(AgeAll(MarkAll(rows, Current(res), a.now).0, SeenIn(Current(res)), a), fp) ==
      StepRow(Get(rows, fp), Occurrence(Current(res), fp), a)
  {
    MarkAllAt(rows, Current(res), a.now, fp);
    OccurrenceMember(Current(res), fp);
  }

  /** Both loops together take every finding one lifecycle step. */
  lemma LoopsTakeOneStep(
    t: Table, canon: string -> string, rows: Rows, res: RunResult, resolveAfter: int, fp: Fingerprint)
    requires WellKeyed(t) && Renameable(t, canon) && IsLoaded(t, canon, rows) && NoRepeats(res)
    ensures
      var a := AbsenceOf(res, resolveAfter);
      var after := AgeAll(MarkAll(rows, Current(res), a.now).0, SeenIn(Current(res)), a);
      Get(Surviving(after), fp) == Next(Get(Renamed(t, canon), fp), Observe(res, fp), a.resolveAfter, a.now)
  {
    var a := AbsenceOf(res, resolveAfter);
    LoadedAt(t, canon, rows, fp);
    LoopsAt(rows, res, a, fp);
    StepRowIsNext(Get(rows, fp), res, fp, resolveAfter);
  }

  /** What this run reports about one finding: a change of loop 1, or a resolution of loop 2. */
  ghost predicate ReportedBy(marked: Rows, marks: seq<Change>, seen: set<Fingerprint>, a: Absence, c: Change) {
    || c in marks
    || (var fp := c.finding.Print();
        fp in marked && fp !in seen && Resolves(marked[fp], a) && c == ResolvedChange(marked[fp]))
  }

  lemma MarkedMember(rows: Rows, cur: seq<Presence>, now: int, c: Change)
    requires DistinctPresences(cur)
    ensures c in MarkAll(rows, cur, now).1 <==>
      var fp := c.finding.Print();
      Occurrence(cur, fp).Some? && c == MarkChange(Get(rows, fp), Occurrence(cur, fp).value, now)
  {
    var fp := c.finding.Print();
    MarkChangesAt(rows, cur, now);
    OccurrenceMember(cur, fp);
    var marks := MarkAll(rows, cur, now).1;
    if c in marks {
      var i :| 0 <= i < |marks| && marks[i] == c;
      assert cur[i] in cur && cur[i].f.Print() == fp;
      var j :| 0 <= j < |cur| && cur[j] == Occurrence(cur, fp).value;
      assert i == j;
    }
    if Occurrence(cur, fp).Some? {
      var i :| 0 <= i < |cur| && cur[i] == Occurrence(cur, fp).value;
      assert marks[i] in marks;
    }
  }

  lemma ReportedIsReport(t: Table, canon: string -> string, rows: Rows, res: RunResult, resolveAfter: int, c: Change)
    requires WellKeyed(t) && Renameable(t, canon) && IsLoaded(t, canon, rows) && NoRepeats(res)
    ensures
      var a := AbsenceOf(res, resolveAfter);
      var (marked, marks) := MarkAll(rows, Current(res), a.now);
      ReportedBy(marked, marks, SeenIn(Current(res)), a, c) <==>
        Report(Get(Renamed(t, canon), c.finding.Print()), Observe(res, c.finding.Print()), a.resolveAfter, a.now) ==
          Some(c)
  {
    var a := AbsenceOf(res, resolveAfter);
    var fp := c.finding.Print();
    LoadedAt(t, canon, rows, fp);
    StepRowIsReport(Get(rows, fp), res, fp, resolveAfter);
    MarkedMember(rows, Current(res), a.now, c);
    MarkAllAt(rows, Current(res), a.now, fp);
    OccurrenceMember(Current(res), fp);
  }

  // ----- the events key (run, fingerprint) is never violated ---------------------------------

  /** At most one change per finding that is not "persisting". */
  ghost predicate OneEvent(cs: seq<Change>) {
    forall i, j :: 0 <= i < j < |cs| && cs[i].kind != Persisting && cs[j].kind != Persisting ==>
      cs[i].finding.Print() != cs[j].finding.Print()
  }

  ghost predicate SuppressedLast(cur: seq<Presence>) {
    forall i, j :: 0 <= i < j < |cur| && cur[i].suppressed ==> cur[j].suppressed
  }

  lemma CurrentSuppressedLast(res: RunResult)
    ensures SuppressedLast(Current(res))
  {
  }

  /** After the loop, the row of every listed finding is open as its last listing says. */
  lemma {:induction false} MarkedRow(rows: Rows, cur: seq<Presence>, now: int, i: int)
    requires SuppressedLast(cur) && 0 <= i < |cur|
    ensures var r := MarkAll(rows, cur, now).0;
      cur[i].f.Print() in r && r[cur[i].f.Print()].cols.open &&
      (r[cur[i].f.Print()].cols.suppressed ==> exists j :: i <= j < |cur| && cur[j].suppressed)
  {
    var n := |cur| - 1;
    if i < n {
      MarkedRow(rows, cur[..n], now, i);
      assert cur[n].suppressed ==> i <= n && cur[n].suppressed;
      if j :| i <= j < n && cur[..n][j].suppressed { assert cur[j].suppressed; }
    }
  }

  /** Even for a run that lists a finding more than once. */
  lemma {:induction false} MarkAllOneEvent(rows: Rows, cur: seq<Presence>, now: int)
    requires SuppressedLast(cur)
    ensures var cs := MarkAll(rows, cur, now).1;
      |cs| == |cur| && OneEvent(cs) && forall i :: 0 <= i < |cs| ==> cs[i].finding == cur[i].f
  {
    if cur != [] {
      var n := |cur| - 1;
      MarkAllOneEvent(rows, cur[..n], now);
      var cs := MarkAll(rows, cur, now).1;
      forall i | 0 <= i < n && cs[i].finding.Print() == cs[n].finding.Print()
        ensures cs[n].kind == Persisting
      {
        MarkedRow(rows, cur[..n], now, i);
      }
    }
  }

  // ----- lists of changes -------------------------------------------------------------------

  lemma {:induction false} DistinctCounts(cs: seq<Change>, c: Change)
    requires Distinct(cs)
    ensures multiset(cs)[c] <= 1
  {
    if cs != [] {
      DistinctCounts(cs[1..], c);
      assert cs == [cs[0]] + cs[1..];
    }
  }

  lemma DistinctPermutes(a: seq<Change>, b: seq<Change>)
    requires multiset(a) == multiset(b) && Distinct(a)
    ensures Distinct(b)
  {
    MultisetMembers(a, b);
    forall i, j | 0 <= i < j < |b| ensures b[i].finding.Print() != b[j].finding.Print() {
      assert b[i] in a && b[j] in a;
      if b[i] == b[j] {
        TwiceCounts(b, i, j);
        DistinctCounts(a, b[i]);
      }
    }
  }

  lemma {:induction false} SameMembers(a: seq<Change>, b: seq<Change>)
    requires Distinct(a) && Distinct(b)
    requires forall c :: c in a <==> c in b
    ensures multiset(a) == multiset(b)
  {
    forall c ensures multiset(a)[c] == multiset(b)[c] {
      DistinctCounts(a, c);
      DistinctCounts(b, c);
      assert c in multiset(a) <==> c in a;
      assert c in multiset(b) <==> c in b;
    }
  }

  lemma DistinctNoTies(cs: seq<Change>)
    requires Distinct(cs)
    ensures NoTies(cs, ChangeLeq)
  {
    forall x | x in cs ensures ChangeLeq(x, x) { ChangesMirror(x, x); }
    forall x, y | x in cs && y in cs && ChangeLeq(x, y) && ChangeLeq(y, x) ensures x == y { ChangesMirror(x, y); }
  }

  /** A sorted list with one change per finding is determined by the changes it holds. */
  lemma DiffUnique(a: seq<Change>, b: seq<Change>)
    requires Distinct(a) && Distinct(b) && SortedBy(a, ChangeLeq) && SortedBy(b, ChangeLeq)
    requires forall fp :: ChangeFor(a, fp) == ChangeFor(b, fp)
    ensures a == b
  {
    forall c ensures c in a <==> c in b {
      ChangeForMember(a, c.finding.Print());
      ChangeForMember(b, c.finding.Print());
      assert c in a <==> ChangeFor(a, c.finding.Print()) == Some(c);
    }
    SameMembers(a, b);
    DistinctNoTies(a);
    SortedUnique(a, b, ChangeLeq);
  }

  // ----- the store ---------------------------------------------------------------------------

  datatype RunRow = RunRow(started: int, duration: int, checksRun: nat, findings: nat, errors: nat)

  datatype EventKey = EventKey(run: int, fp: Fingerprint)

  datatype EventRow = EventRow(kind: Kind, severity: int)

  /** A kv text, by what reading it back gives: undelivered changes, a time, or neither. */
  datatype Value = Undelivered(changes: seq<Change>) | Stamp(at: int) | Unreadable

  datatype Diff = Diff(
    runID: int, started: int, duration: int, targets: seq<string>,
    changes: seq<Change>, errors: seq<CheckError>, open: nat)

  /** Every change but the persisting ones is logged, under the run and the finding. */
  ghost predicate Logged(before: map<EventKey, EventRow>, after: map<EventKey, EventRow>, run: int, cs: seq<Change>) {
    && (forall e :: e in before ==> e in after && after[e] == before[e])
    && (forall e :: e in after && e !in before ==>
          exists c :: c in cs && c.kind != Persisting && e == EventKey(run, c.finding.Print()))
    && (forall c :: c in cs && c.kind != Persisting ==>
          Get(after, EventKey(run, c.finding.Print())) == Some(EventRow(c.kind, c.finding.severity)))
  }

  lemma LoggedSame(
    before: map<EventKey, EventRow>, after: map<EventKey, EventRow>, run: int, cs: seq<Change>, ds: seq<Change>)
    requires Logged(before, after, run, cs) && forall c :: c in ds <==> c in cs
    ensures Logged(before, after, run, ds)
  {
  }

  /** What a recorded run must report, for every finding. */
  ghost predicate DiffTells(before: Table, res: RunResult, resolveAfter: int, cs: seq<Change>) {
    && Distinct(cs)
    && (forall fp :: ChangeFor(cs, fp) ==
          Report(Get(before, fp), Observe(res, fp), Max(resolveAfter, 1), res.started + res.duration))
  }

  /** What a recorded run must leave in the table, for every finding. */
  ghost predicate TableSteps(before: Table, res: RunResult, resolveAfter: int, after: Table) {
    forall fp :: Get(after, fp) ==
      Next(Get(before, fp), Observe(res, fp), Max(resolveAfter, 1), res.started + res.duration)
  }

  ghost function OpenIn(t: Table): set<Fingerprint> {
    set fp | fp in t && t[fp].open && !t[fp].suppressed
  }

  ghost predicate AllSound(rows: Rows) {
    forall fp :: fp in rows ==> Sound(rows[fp], fp)
  }

  lemma LoadedSound(t: Table, canon: string -> string, rows: Rows)
    requires WellKeyed(t) && IsLoaded(t, canon, rows)
    ensures AllSound(rows)
  {
  }

  lemma {:induction false} MarkAllSound(rows: Rows, cur: seq<Presence>, now: int)
    requires AllSound(rows)
    ensures AllSound(MarkAll(rows, cur, now).0)
    ensures MarkAll(rows, cur, now).0.Keys == rows.Keys + SeenIn(cur)
  {
    if cur != [] {
      MarkAllSound(rows, cur[..|cur| - 1], now);
      assert cur == cur[..|cur| - 1] + [cur[|cur| - 1]];
      assert SeenIn(cur) == SeenIn(cur[..|cur| - 1]) + {cur[|cur| - 1].f.Print()};
    }
  }

  /** The resolutions of loop 2, in any order. */
  ghost predicate ResolvedList(rows: Rows, seen: set<Fingerprint>, a: Absence, cs: seq<Change>) {
    && Distinct(cs)
    && forall c :: c in cs <==>
         (var fp := c.finding.Print();
          fp in rows && fp !in seen && Resolves(rows[fp], a) && c == ResolvedChange(rows[fp]))
  }

  lemma AllChanges(rows: Rows, res: RunResult, marked: Rows, a: Absence, resolved: seq<Change>)
    requires SuppressedLast(Current(res))
    requires marked == MarkAll(rows, Current(res), a.now).0
    requires ResolvedList(marked, SeenIn(Current(res)), a, resolved)
    ensures OneEvent(MarkAll(rows, Current(res), a.now).1 + resolved)
    ensures NoRepeats(res) ==> Distinct(MarkAll(rows, Current(res), a.now).1 + resolved)
  {
    var marks := MarkAll(rows, Current(res), a.now).1;
    MarkAllOneEvent(rows, Current(res), a.now);
    forall i, j | 0 <= i < |marks| && 0 <= j < |resolved|
      ensures marks[i].finding.Print() != resolved[j].finding.Print()
    {
      assert Current(res)[i] in Current(res);
      assert resolved[j] in resolved;
    }
  }

  lemma ChangeForIs(cs: seq<Change>, fp: Fingerprint, r: Option<Change>)
    requires Distinct(cs)
    requires r.Some? ==> r.value.finding.Print() == fp
    requires forall c :: c in cs && c.finding.Print() == fp ==> r == Some(c)
    requires r.Some? ==> r.value in cs
    ensures ChangeFor(cs, fp) == r
  {
  }

  lemma ReportPrint(st: Option<Stored>, res: RunResult, fp: Fingerprint, resolveAfter: int, now: int)
    requires st.Some? ==> st.value.f.Print() == fp
    ensures var r := Report(st, Observe(res, fp), resolveAfter, now); r.Some? ==> r.value.finding.Print() == fp
  {
    OccurrenceMember(Current(res), fp);
  }

  lemma SortedMembers(rows: Rows, res: RunResult, a: Absence, resolved: seq<Change>, cs: seq<Change>)
    requires NoRepeats(res) && SuppressedLast(Current(res))
    requires ResolvedList(MarkAll(rows, Current(res), a.now).0, SeenIn(Current(res)), a, resolved)
    requires multiset(cs) == multiset(MarkAll(rows, Current(res), a.now).1 + resolved)
    ensures Distinct(cs)
    ensures
      var (marked, marks) := MarkAll(rows, Current(res), a.now);
      forall c :: c in cs <==> ReportedBy(marked, marks, SeenIn(Current(res)), a, c)
  {
    var (marked, marks) := MarkAll(rows, Current(res), a.now);
    AllChanges(rows, res, marked, a, resolved);
    DistinctPermutes(marks + resolved, cs);
    MultisetMembers(marks + resolved, cs);
  }

  lemma ReportHolds(
    t: Table, canon: string -> string, rows: Rows, res: RunResult, resolveAfter: int, cs: seq<Change>,
    fp: Fingerprint)
    requires WellKeyed(t) && Renameable(t, canon) && IsLoaded(t, canon, rows) && NoRepeats(res)
    requires Distinct(cs)
    requires
      var a := AbsenceOf(res, resolveAfter);
      var (marked, marks) := MarkAll(rows, Current(res), a.now);
      forall c :: c in cs <==> ReportedBy(marked, marks, SeenIn(Current(res)), a, c)
    ensures
      var a := AbsenceOf(res, resolveAfter);
      ChangeFor(cs, fp) == Report(Get(Renamed(t, canon), fp), Observe(res, fp), a.resolveAfter, a.now)
  {
    var a := AbsenceOf(res, resolveAfter);
    LoadedAt(t, canon, rows, fp);
    ReportPrint(Get(Renamed(t, canon), fp), res, fp, a.resolveAfter, a.now);
    var r := Report(Get(Renamed(t, canon), fp), Observe(res, fp), a.resolveAfter, a.now);
    if r.Some? { ReportedIsReport(t, canon, rows, res, resolveAfter, r.value); }
    forall c | c in cs && c.finding.Print() == fp ensures r == Some(c) {
      ReportedIsReport(t, canon, rows, res, resolveAfter, c);
    }
    ChangeForIs(cs, fp, r);
  }

  /** Put together: what the sorted list of all changes says about every finding. */
  lemma ChangesTell(
    t: Table, canon: string -> string, rows: Rows, res: RunResult, resolveAfter: int, resolved: seq<Change>,
    cs: seq<Change>)
    requires WellKeyed(t) && Renameable(t, canon) && IsLoaded(t, canon, rows) && NoRepeats(res)
    requires
      var a := AbsenceOf(res, resolveAfter);
      var (marked, marks) := MarkAll(rows, Current(res), a.now);
      ResolvedList(marked, SeenIn(Current(res)), a, resolved) && multiset(cs) == multiset(marks + resolved)
    ensures DiffTells(Renamed(t, canon), res, resolveAfter, cs)
  {
    hide Report, Observe, MarkAll, AgeAll, IsLoaded, Renameable, WellKeyed, Renamed, Current, SeenIn;
    hide ResolvedList, ChangeFor;
    var a := AbsenceOf(res, resolveAfter);
    CurrentSuppressedLast(res);
    SortedMembers(rows, res, a, resolved, cs);
    forall fp ensures ChangeFor(cs, fp) == Report(Get(Renamed(t, canon), fp), Observe(res, fp), a.resolveAfter, a.now) {
      ReportHolds(t, canon, rows, res, resolveAfter, cs, fp);
    }
  }

  lemma OpenCount(rows: Rows)
    ensures (set fp | fp in rows && CountsOpen(rows[fp])) == OpenIn(Surviving(rows))
  {
  }

  lemma AgeAllSound(rows: Rows, seen: set<Fingerprint>, a: Absence)
    requires AllSound(rows)
    ensures AllSound(AgeAll(rows, seen, a))
  {
  }

  lemma SortedChanges(cs: seq<Change>)
    ensures SortedBy(Sort(cs, ChangeLeq), ChangeLeq)
    ensures forall c :: c in Sort(cs, ChangeLeq) <==> c in cs
    ensures OneEvent(cs) ==> OneEvent(Sort(cs, ChangeLeq))
  {
    ChangesOrdered();
    SortSorts(cs, ChangeLeq);
    MultisetMembers(cs, Sort(cs, ChangeLeq));
    if OneEvent(cs) { OneEventPermutes(cs, Sort(cs, ChangeLeq)); }
  }

  lemma {:induction false} OneEventCounts(cs: seq<Change>, c: Change)
    requires OneEvent(cs) && c.kind != Persisting
    ensures multiset(cs)[c] <= 1
  {
    if cs != [] {
      OneEventCounts(cs[1..], c);
      assert cs == [cs[0]] + cs[1..];
    }
  }

  lemma OneEventPermutes(a: seq<Change>, b: seq<Change>)
    requires multiset(a) == multiset(b) && OneEvent(a)
    ensures OneEvent(b)
  {
    MultisetMembers(a, b);
    forall i, j | 0 <= i < j < |b| && b[i].kind != Persisting && b[j].kind != Persisting
      ensures b[i].finding.Print() != b[j].finding.Print()
    {
      assert b[i] in a && b[j] in a;
      if b[i] == b[j] {
        TwiceCounts(b, i, j);
        OneEventCounts(a, b[i]);
      }
    }
  }

  /** Everything Record needs to know about the rows it has in memory. */
  lemma RunRecorded(
    t: Table, canon: string -> string, rows: Rows, res: RunResult, resolveAfter: int, resolved: seq<Change>)
    requires WellKeyed(t) && IsLoaded(t, canon, rows)
    requires
      var a := AbsenceOf(res, resolveAfter);
      ResolvedList(MarkAll(rows, Current(res), a.now).0, SeenIn(Current(res)), a, resolved)
    ensures
      var a := AbsenceOf(res, resolveAfter);
      var (marked, marks) := MarkAll(rows, Current(res), a.now);
      var aged := AgeAll(marked, SeenIn(Current(res)), a);
      && AllSound(aged)
      && OneEvent(marks + resolved)
      && (NoRepeats(res) && CurrentIDs(Current(res), canon) && Renameable(t, canon) ==>
            && Consistent(t, canon, aged)
            && TableSteps(Renamed(t, canon), res, resolveAfter, Surviving(aged))
            && DiffTells(Renamed(t, canon), res, resolveAfter, Sort(marks + resolved, ChangeLeq)))
  {
    var a := AbsenceOf(res, resolveAfter);
    var (marked, marks) := MarkAll(rows, Current(res), a.now);
    LoadedSound(t, canon, rows);
    MarkAllSound(rows, Current(res), a.now);
    AgeAllSound(marked, SeenIn(Current(res)), a);
    CurrentSuppressedLast(res);
    AllChanges(rows, res, marked, a, resolved);
    if NoRepeats(res) && CurrentIDs(Current(res), canon) && Renameable(t, canon) {
      LoadedConsistent(t, canon, rows);
      MarkAllConsistent(t, canon, rows, Current(res), a.now);
      AgeConsistent(t, canon, marked, SeenIn(Current(res)), a);
      TableAfter(t, canon, rows, res, resolveAfter);
      ChangesTell(t, canon, rows, res, resolveAfter, resolved, Sort(marks + resolved, ChangeLeq));
    }
  }

  lemma TableAfter(t: Table, canon: string -> string, rows: Rows, res: RunResult, resolveAfter: int)
    requires WellKeyed(t) && Renameable(t, canon) && IsLoaded(t, canon, rows) && NoRepeats(res)
    ensures
      var a := AbsenceOf(res, resolveAfter);
      var after := AgeAll(MarkAll(rows, Current(res), a.now).0, SeenIn(Current(res)), a);
      TableSteps(Renamed(t, canon), res, resolveAfter, Surviving(after))
  {
    hide Next, Observe, MarkAll, AgeAll, IsLoaded, Renameable, WellKeyed, Surviving, Renamed, Current, SeenIn;
    forall fp {
      LoopsTakeOneStep(t, canon, rows, res, resolveAfter, fp);
    }
  }

  /** The rows after loop 1, and one change per listed finding. */
  method MarkPresent(rows: Rows, cur: seq<Presence>, now: int)
    returns (marked: Rows, cs: seq<Change>, seen: set<Fingerprint>)
    ensures (marked, cs) == MarkAll(rows, cur, now)
    ensures seen == SeenIn(cur)
  {
    marked, cs, seen := rows, [], {};
    for n := 0 to |cur|
      invariant (marked, cs) == MarkAll(rows, cur[..n], now)
      invariant seen == SeenIn(cur[..n])
    {
      assert cur[..n + 1] == cur[..n] + [cur[n]];
      var p := cur[n];
      var fp := p.f.Print();
      seen := seen + {fp};
      var rw := Get(marked, fp);
      cs := cs + [MarkChange(rw, p, now)];
      marked := marked[fp := Mark(rw, p, now)];
    }
    assert cur[..|cur|] == cur;
  }

  lemma AgeOneMore(rows: Rows, skip: set<Fingerprint>, a: Absence, fp: Fingerprint)
    requires fp in rows && fp in skip
    ensures AgeAll(rows, skip - {fp}, a) == AgeAll(rows, skip, a)[fp := Age(rows[fp], a)]
  {
  }

  lemma ResolveOneMore(rows: Rows, skip: set<Fingerprint>, a: Absence, fp: Fingerprint, cs: seq<Change>)
    requires Keyed(rows) && fp in rows && fp in skip && ResolvedList(rows, skip, a, cs)
    ensures ResolvedList(rows, skip - {fp}, a, if Resolves(rows[fp], a) then cs + [ResolvedChange(rows[fp])] else cs)
  {
  }

  ghost function OpenExcept(rows: Rows, todo: set<Fingerprint>): set<Fingerprint> {
    set fp | fp in rows && fp !in todo && CountsOpen(rows[fp])
  }

  lemma CountOneMore(rows: Rows, todo: set<Fingerprint>, fp: Fingerprint, rw: Row)
    requires fp in rows && fp in todo
    ensures |OpenExcept(rows[fp := rw], todo - {fp})| == |OpenExcept(rows, todo)| + if CountsOpen(rw) then 1 else 0
  {
    var before := OpenExcept(rows, todo);
    assert fp !in before;
    assert OpenExcept(rows[fp := rw], todo - {fp}) == if CountsOpen(rw) then before + {fp} else before;
  }

  lemma AgeSkips(rows: Rows, skip: set<Fingerprint>, a: Absence, fp: Fingerprint)
    requires fp in rows && fp in skip
    ensures AgeAll(rows, skip, a)[fp := rows[fp]] == AgeAll(rows, skip, a)
  {
  }

  lemma AgeNone(rows: Rows, seen: set<Fingerprint>, a: Absence)
    ensures AgeAll(rows, seen + rows.Keys, a) == rows && ResolvedList(rows, seen + rows.Keys, a, [])
    ensures OpenExcept(rows, rows.Keys) == {} && AgeAll(rows, seen, a).Keys == rows.Keys
  {
  }

  lemma OpenInAll(rows: Rows)
    ensures OpenExcept(rows, {}) == set fp | fp in rows && CountsOpen(rows[fp])
  {
  }

  /** The rows after loop 2, the resolutions and the number of open findings, for any order of the rows. */
  method AgeAbsent(rows: Rows, seen: set<Fingerprint>, a: Absence) returns (aged: Rows, cs: seq<Change>, open: nat)
    requires Keyed(rows)
    ensures aged == AgeAll(rows, seen, a)
    ensures ResolvedList(rows, seen, a, cs)
    ensures open == |set fp | fp in aged && CountsOpen(aged[fp])|
  {
    hide Age, AgeAll, Resolves, ResolvedList, ResolvedChange, CountsOpen, OpenExcept;
    AgeNone(rows, seen, a);
    aged, cs, open := rows, [], 0;
    var todo := rows.Keys;
    while todo != {}
      invariant todo <= rows.Keys && aged.Keys == rows.Keys
      invariant aged == AgeAll(rows, seen + todo, a)
      invariant ResolvedList(rows, seen + todo, a, cs)
      invariant open == |OpenExcept(aged, todo)|
      decreases todo
    {
      var fp :| fp in todo;
      var rw := rows[fp];
      if fp in seen {
        assert seen + (todo - {fp}) == seen + todo;
        AgeSkips(rows, seen + todo, a, fp);
      } else {
        assert seen + (todo - {fp}) == seen + todo - {fp};
        AgeOneMore(rows, seen + todo, a, fp);
        ResolveOneMore(rows, seen + todo, a, fp, cs);
        if Resolves(rw, a) { cs := cs + [ResolvedChange(rw)]; }
        rw := Age(rw, a);
      }
      CountOneMore(aged, todo, fp, rw);
      aged := aged[fp := rw];
      if CountsOpen(rw) { open := open + 1; }
      todo := todo - {fp};
    }
    assert seen + {} == seen;
    OpenInAll(aged);
  }

  /** Started before cutoff, and not the latest run. */
  predicate Expired(runs: map<int, RunRow>, id: int, cutoff: int) {
    id in runs && runs[id].started < cutoff && exists later :: later in runs && id < later
  }

  /** However much is deleted, the latest run stays. */
  ghost predicate KeepsLatest(before: map<int, RunRow>, after: map<int, RunRow>) {
    forall id :: id in before ==> exists later :: later in after && id <= later
  }

  /** Below every run, expired or not, stands one that is kept. */
  lemma {:induction false} LaterKept(runs: map<int, RunRow>, cutoff: int, lastID: int, id: int) returns (kept: int)
    requires id in runs && forall r :: r in runs ==> r <= lastID
    ensures id <= kept && kept in runs && !Expired(runs, kept, cutoff)
    decreases lastID - id
  {
    kept := id;
    if Expired(runs, id, cutoff) {
      var later :| later in runs && id < later;
      kept := LaterKept(runs, cutoff, lastID, later);
    }
  }

  /** DELETE FROM runs WHERE started_at < cutoff AND id < (SELECT MAX(id) FROM runs) */
  function KeptRuns(runs: map<int, RunRow>, cutoff: int): map<int, RunRow> {
    map id | id in runs && !Expired(runs, id, cutoff) :: runs[id]
  }

  /** ON DELETE CASCADE */
  function KeptEvents(events: map<EventKey, EventRow>, runs: map<int, RunRow>): map<EventKey, EventRow> {
    map e | e in events && e.run in runs :: events[e]
  }

  /** DELETE FROM findings WHERE open = 0 AND resolved_at < cutoff */
  function KeptFindings(t: Table, cutoff: int): Table {
    map fp | fp in t && !(!t[fp].open && t[fp].resolvedAt.Some? && t[fp].resolvedAt.value < cutoff) :: t[fp]
  }

  predicate ResolvedFrom(st: Stored, cutoff: int) { st.resolvedAt.Some? && st.resolvedAt.value >= cutoff }

  /**
   * What a prune leaves: the runs that started at the cutoff or later, and the
   * latest; their events; and the findings that are open or resolved at the
   * cutoff or later. All of it unchanged.
   */
  lemma PruneMeans(
    runs: map<int, RunRow>, events: map<EventKey, EventRow>, t: Table, cutoff: int,
    runs': map<int, RunRow>, events': map<EventKey, EventRow>, t': Table)
    requires WellKeyed(t)
    requires runs' == KeptRuns(runs, cutoff) && events' == KeptEvents(events, runs') && t' == KeptFindings(t, cutoff)
    ensures forall id :: id in runs' <==>
      id in runs && (runs[id].started >= cutoff || forall other :: other in runs ==> other <= id)
    ensures forall e :: e in events' <==> e in events && e.run in runs'
    ensures forall fp :: fp in t' <==> fp in t && (t[fp].open || ResolvedFrom(t[fp], cutoff))
    ensures forall id :: id in runs' ==> runs'[id] == runs[id]
    ensures forall e :: e in events' ==> events'[e] == events[e]
    ensures forall fp :: fp in t' ==> t'[fp] == t[fp]
  {
  }

  lemma LatestRunIsKept(runs: map<int, RunRow>, cutoff: int, lastID: int)
    requires forall id :: id in runs ==> id <= lastID
    ensures KeepsLatest(runs, KeptRuns(runs, cutoff)) && |KeptRuns(runs, cutoff)| <= |runs|
  {
    var kept := KeptRuns(runs, cutoff);
    forall id | id in runs ensures exists later :: later in kept && id <= later {
      var later := LaterKept(runs, cutoff, lastID, id);
      assert later in kept;
    }
    SubsetSize(kept.Keys, runs.Keys);
    assert |kept.Keys| == |kept| && |runs.Keys| == |runs|;
  }

  /** Pruning the table is the lifecycle's prune, for every finding; what is open is untouched. */
  lemma PruneFindings(t: Table, cutoff: int)
    requires WellKeyed(t)
    ensures WellKeyed(KeptFindings(t, cutoff))
    ensures forall fp :: Get(KeptFindings(t, cutoff), fp) == Pruned(Get(t, fp), cutoff)
    ensures OpenIn(KeptFindings(t, cutoff)) == OpenIn(t)
  {
  }

  lemma SubsetSize(a: set<int>, b: set<int>)
    requires a <= b
    ensures |a| <= |b|
  {
    assert b == a + (b - a);
    assert |b| == |a| + |b - a|;
  }

  class Store {
    var findings: Table
    var runs: map<int, RunRow>
    var events: map<EventKey, EventRow>
    var kv: map<string, Value>
    var lastID: int

    ghost predicate Valid()
      reads this
    {
      && WellKeyed(findings)
      && (forall id :: id in runs ==> id <= lastID)
      && (forall e :: e in events ==> e.run in runs)
    }

    constructor ()
      ensures Valid()
      ensures findings == map[] && runs == map[] && events == map[] && kv == map[] && lastID == 0
    {
      findings, runs, events, kv, lastID := map[], map[], map[], map[], 0;
    }

    /** Rows arrive in whatever order the database gives them. */
    method LoadRows(canon: string -> string) returns (rows: Rows)
      ensures IsLoaded(findings, canon, rows)
    {
      rows := map[];
      var todo := findings.Keys;
      while todo != {}
        invariant todo <= findings.Keys
        invariant forall k :: k in findings && k !in todo ==> Canonical(k, canon) in rows
        invariant forall fp :: fp in rows ==>
          exists k :: k in findings && Canonical(k, canon) == fp && rows[fp] == LoadRow(k, findings[k], canon)
        decreases todo
      {
        var k :| k in todo;
        rows := rows[Canonical(k, canon) := LoadRow(k, findings[k], canon)];
        todo := todo - {k};
      }
    }

    /** Writes rows back, in any order. */
    method SaveRows(rows: Rows, ghost canon: string -> string)
      requires Valid()
      requires forall fp :: fp in rows ==> Sound(rows[fp], fp)
      modifies this`findings
      ensures Valid()
      ensures Consistent(old(findings), canon, rows) ==> findings == Surviving(rows)
    {
      ghost var t0 := findings;
      ghost var exact := Consistent(t0, canon, rows);
      var todo := rows.Keys;
      while todo != {}
        invariant todo <= rows.Keys
        invariant WellKeyed(findings)
        invariant exact ==> Half(t0, canon, rows, rows.Keys - todo, findings)
        decreases todo
      {
        var fp :| fp in todo;
        WriteBackKeyed(findings, fp, rows[fp]);
        if exact { WriteBackStep(t0, canon, rows, rows.Keys - todo, findings, fp); }
        assert rows.Keys - (todo - {fp}) == rows.Keys - todo + {fp};
        findings := WriteBack(findings, fp, rows[fp]);
        todo := todo - {fp};
      }
      if exact {
        assert rows.Keys - {} == rows.Keys;
        WriteBackDone(t0, canon, rows, findings);
      }
    }

    method InsertEvent(e: EventKey, row: EventRow)
      requires Valid()
      requires e !in events && e.run in runs  // the table's primary and foreign keys
      modifies this`events
      ensures Valid()
      ensures events == old(events)[e := row]
    {
      events := events[e := row];
    }

    method LogEvents(run: int, cs: seq<Change>)
      requires Valid() && run in runs
      requires OneEvent(cs)
      requires forall e :: e in events ==> e.run != run
      modifies this`events
      ensures Valid()
      ensures Logged(old(events), events, run, cs)
    {
      for n := 0 to |cs|
        invariant Valid()
        invariant Logged(old(events), events, run, cs[..n])
      {
        var c := cs[n];
        assert cs[..n + 1] == cs[..n] + [c];
        if c.kind != Persisting {
          var e := EventKey(run, c.finding.Print());
          assert e !in events;
          InsertEvent(e, EventRow(c.kind, c.finding.severity));
        }
      }
      assert cs[..|cs|] == cs;
    }

    /**
     * Records a run. The lifecycle clauses hold when no finding is listed
     * twice, every listed finding has a current check ID, and renames are
     * idempotent and send no two stored rows to one fingerprint.
     */
    method Record(res: RunResult, resolveAfter: int, canon: string -> string) returns (d: Diff)
      requires Valid()
      modifies this
      ensures Valid()
      ensures kv == old(kv) && lastID == old(lastID) + 1 == d.runID
      ensures runs == old(runs)[d.runID :=
        RunRow(res.started, res.duration, |res.ran|, |res.findings|, |res.errors|)]
      ensures Logged(old(events), events, d.runID, d.changes) && OneEvent(d.changes)
      ensures SortedBy(d.changes, ChangeLeq)
      ensures d == Diff(d.runID, res.started, res.duration, res.targets, d.changes, res.errors, d.open)
      ensures NoRepeats(res) && CurrentIDs(Current(res), canon) && Renameable(old(findings), canon) ==>
        && TableSteps(Renamed(old(findings), canon), res, resolveAfter, findings)
        && DiffTells(Renamed(old(findings), canon), res, resolveAfter, d.changes)
        && d.open == |OpenIn(findings)|
    {
      hide MarkAll, AgeAll, IsLoaded, Renameable, Renamed, Current, SeenIn, ResolvedList, TableSteps;
      hide DiffTells, Consistent, OneEvent, Surviving, WellKeyed, CurrentIDs, NoRepeats, CleanRuns, OpenIn;
      hide SortedBy, Logged, Sort, Compare, ChangeLeq;
      lastID := lastID + 1;
      runs := runs[lastID := RunRow(res.started, res.duration, |res.ran|, |res.findings|, |res.errors|)];
      var rows := LoadRows(canon);
      LoadedSound(findings, canon, rows);
      var cur := Current(res);
      var now := res.started + res.duration;
      MarkAllSound(rows, cur, now);
      var marked, marks, seen := MarkPresent(rows, cur, now);
      var a := Absence((set x | x in res.targets), CleanRuns(res), Max(resolveAfter, 1), now);
      var aged, resolved, open := AgeAbsent(marked, seen, a);
      RunRecorded(old(findings), canon, rows, res, resolveAfter, resolved);
      SaveRows(aged, canon);
      OpenCount(aged);
      var cs := marks + resolved;
      LogEvents(lastID, cs);
      var sorted := Sort(cs, ChangeLeq);
      SortedChanges(cs);
      LoggedSame(old(events), events, lastID, cs, sorted);
      d := Diff(lastID, res.started, res.duration, res.targets, sorted, res.errors, open);
    }

    /**
     * Deletes the runs that started before cutoff, except the latest, with
     * their events, and the findings that resolved before cutoff.
     */
    method Prune(cutoff: int) returns (removed: nat)
      requires Valid()
      modifies this
      ensures Valid()
      ensures runs == KeptRuns(old(runs), cutoff) && KeepsLatest(old(runs), runs)
      ensures events == KeptEvents(old(events), runs)
      ensures findings == KeptFindings(old(findings), cutoff)
      ensures removed == |old(runs)| - |runs|
      ensures kv == old(kv) && lastID == old(lastID)
    {
      hide KeepsLatest, Expired;
      LatestRunIsKept(runs, cutoff, lastID);
      PruneFindings(findings, cutoff);
      removed := |runs| - |KeptRuns(runs, cutoff)|;
      runs := KeptRuns(runs, cutoff);
      events := KeptEvents(events, runs);
      findings := KeptFindings(findings, cutoff);
    }

    // ----- the kv table; up says whether the database answers --------------------------

    method Read(key: string, up: bool) returns (r: Result<Option<Value>, ()>)
      ensures r == if up then Ok(Get(kv, key)) else Err(())
    {
      if up { r := Ok(Get(kv, key)); } else { r := Err(()); }
    }

    method Write(key: string, value: Value, up: bool) returns (ok: bool)
      requires Valid()
      modifies this`kv
      ensures Valid() && ok == up
      ensures kv == if up then old(kv)[key := value] else old(kv)
    {
      if up { kv := kv[key := value]; }
      ok := up;
    }

    method Delete(key: string, up: bool) returns (ok: bool)
      requires Valid()
      modifies this`kv
      ensures Valid() && ok == up
      ensures kv == if up then old(kv) - {key} else old(kv)
    {
      if up { kv := kv - {key}; }
      ok := up;
    }
  }
}
