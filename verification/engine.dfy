/** Running checks with bounded concurrency, and collecting what they find. */
module Engine {
  import opened Core
  import opened Ordering

  datatype Meta = Meta(id: string, severity: int, title: string, remediation: string, references: Option<seq<string>>)

  // ----- normalize ----------------------------------------------------------------------------

  /** The finding with its check's defaults filled in. */
  function Filled(m: Meta, target: string, f: Finding): Finding {
    f.(checkID := m.id,
       target := target,
       severity := if f.severity == SEVERITY_UNSET then m.severity else f.severity,
       title := if f.title == "" then m.title else f.title,
       remediation := if f.remediation == "" then m.remediation else f.remediation,
       references := if f.references.None? then m.references else f.references)
  }

  /** The finding does not claim another check, another target or a nonexistent severity. */
  predicate Honest(m: Meta, target: string, f: Finding) {
    && (f.checkID == "" || f.checkID == m.id)
    && (f.target == "" || f.target == target)
    && (f.severity == SEVERITY_UNSET || ValidSeverity(f.severity))
  }

  ghost predicate Acceptable(m: Meta, target: string, fs: seq<Finding>) {
    && (forall i :: 0 <= i < |fs| ==> Honest(m, target, fs[i]))
    && (forall i, j :: 0 <= i < j < |fs| ==> fs[i].subject != fs[j].subject)
  }

  function FilledAll(m: Meta, target: string, fs: seq<Finding>): (r: seq<Finding>)
    ensures |r| == |fs| && forall i :: 0 <= i < |fs| ==> r[i] == Filled(m, target, fs[i])
  {
    seq(|fs|, i requires 0 <= i < |fs| => Filled(m, target, fs[i]))
  }

  method Normalize(m: Meta, target: string, fs: seq<Finding>) returns (r: Result<seq<Finding>, ()>)
    ensures r.Ok? <==> Acceptable(m, target, fs)
    ensures r.Ok? ==> r.value == FilledAll(m, target, fs)
  {
    hide Filled, FilledAll, ValidSeverity;
    var out: seq<Finding> := [];
    var subjects: set<string> := {};
    for n := 0 to |fs|
      invariant |out| == n && forall i :: 0 <= i < n ==> out[i] == Filled(m, target, fs[i])
      invariant forall i :: 0 <= i < n ==> Honest(m, target, fs[i])
      invariant forall i, j :: 0 <= i < j < n ==> fs[i].subject != fs[j].subject
      invariant forall x :: x in subjects <==> exists i :: 0 <= i < n && fs[i].subject == x
    {
      var f := fs[n];
      if f.subject in subjects { return Err(()); }
      subjects := subjects + {f.subject};
      if f.checkID != "" && f.checkID != m.id { return Err(()); }
      if f.target != "" && f.target != target { return Err(()); }
      if f.severity != SEVERITY_UNSET && !ValidSeverity(f.severity) { return Err(()); }
      out := out + [Filled(m, target, f)];
    }
    r := Ok(out);
  }

  // ----- the plan of a run ------------------------------------------------------------------------

  /** What a check comes back with: nothing in time (an error, a panic, a timeout), or findings. */
  datatype Raw = Failed | Returned(findings: seq<Finding>)

  /** One (target, check) pair; pairs of one job share the job's slots. */
  datatype Task = Task(job: nat, target: string, meta: Meta, raw: Raw)

  datatype Plan = Plan(tasks: seq<Task>, jobs: nat, workers: int, perTarget: int)

  const DEFAULT_WORKERS := 16
  const DEFAULT_PER_TARGET := 4

  function OrDefault(v: int, def: int): int { if v <= 0 then def else v }

  function Workers(p: Plan): int { OrDefault(p.workers, DEFAULT_WORKERS) }

  function PerTarget(p: Plan): int { OrDefault(p.perTarget, DEFAULT_PER_TARGET) }

  /** Targets are distinct between jobs and checks within a job, so pairs are distinct. */
  ghost predicate DistinctPairs(p: Plan) {
    && (forall i :: 0 <= i < |p.tasks| ==> p.tasks[i].job < p.jobs)
    && (forall i, j :: 0 <= i < j < |p.tasks| ==>
          p.tasks[i].target != p.tasks[j].target || p.tasks[i].meta.id != p.tasks[j].meta.id)
  }

  /** The pair's contribution: its findings, or exactly one error. */
  ghost function FindingsOf(t: Task): seq<Finding> {
    if t.raw.Returned? && Acceptable(t.meta, t.target, t.raw.findings) then
      FilledAll(t.meta, t.target, t.raw.findings)
    else []
  }

  ghost function ErrorsOf(t: Task): seq<CheckError> {
    if t.raw.Returned? && Acceptable(t.meta, t.target, t.raw.findings) then [] else [CheckError(t.meta.id, t.target)]
  }

  // ----- the scheduler -------------------------------------------------------------------------------

  datatype PC = Unborn | WantsTarget | WantsGlobal | Running | Recorded | Leaving | Done

  /** Tokens in the channels, each goroutine's position, and the results appended so far. */
  datatype State = State(
    pcs: seq<PC>,
    global: nat,
    slots: seq<nat>,
    findings: seq<Finding>,
    errors: seq<CheckError>)

  datatype Step =
    | Spawn(i: nat)
    | TakeTarget(i: nat)
    | TakeGlobal(i: nat)
    | Record(i: nat)
    | FreeGlobal(i: nat)
    | FreeTarget(i: nat)

  predicate Shaped(p: Plan, s: State) {
    |s.pcs| == |p.tasks| && |s.slots| == p.jobs
  }

  ghost predicate Enabled(p: Plan, s: State, t: Step)
    requires DistinctPairs(p) && Shaped(p, s)
  {
    && t.i < |s.pcs|
    && match t
       case Spawn(i) => s.pcs[i] == Unborn && forall k :: 0 <= k < i ==> s.pcs[k] != Unborn
       case TakeTarget(i) => s.pcs[i] == WantsTarget && s.slots[p.tasks[i].job] < PerTarget(p)
       case TakeGlobal(i) => s.pcs[i] == WantsGlobal && s.global < Workers(p)
       case Record(i) => s.pcs[i] == Running
       case FreeGlobal(i) => s.pcs[i] == Recorded && s.global > 0
       case FreeTarget(i) => s.pcs[i] == Leaving && s.slots[p.tasks[i].job] > 0
  }

  ghost function Apply(p: Plan, s: State, t: Step): State
    requires DistinctPairs(p) && Shaped(p, s) && Enabled(p, s, t)
  {
    var job := p.tasks[t.i].job;
    match t
    case Spawn(i) => s.(pcs := s.pcs[i := WantsTarget])
    case TakeTarget(i) => s.(pcs := s.pcs[i := WantsGlobal], slots := s.slots[job := s.slots[job] + 1])
    case TakeGlobal(i) => s.(pcs := s.pcs[i := Running], global := s.global + 1)
    case Record(i) => s.(
      pcs := s.pcs[i := PC.Recorded],
      findings := s.findings + FindingsOf(p.tasks[i]),
      errors := s.errors + ErrorsOf(p.tasks[i]))
    case FreeGlobal(i) => s.(pcs := s.pcs[i := Leaving], global := s.global - 1)
    case FreeTarget(i) => s.(pcs := s.pcs[i := Done], slots := s.slots[job := s.slots[job] - 1])
  }

  ghost function Initial(p: Plan): State {
    State(seq(|p.tasks|, i => Unborn), 0, seq(p.jobs, j => 0), [], [])
  }

  predicate HoldsTarget(pc: PC) { pc in {WantsGlobal, Running, PC.Recorded, Leaving} }

  predicate HoldsGlobal(pc: PC) { pc in {Running, PC.Recorded} }

  predicate HasRecorded(pc: PC) { pc in {PC.Recorded, Leaving, Done} }

  /** How many of the first n pairs hold a slot of the job. */
  ghost function TargetHolders(p: Plan, pcs: seq<PC>, job: int, n: nat): nat
    requires |pcs| == |p.tasks| && n <= |pcs|
  {
    if n == 0 then 0
    else TargetHolders(p, pcs, job, n - 1) + if HoldsTarget(pcs[n - 1]) && p.tasks[n - 1].job == job then 1 else 0
  }

  ghost function GlobalHolders(pcs: seq<PC>, n: nat): nat
    requires n <= |pcs|
  {
    if n == 0 then 0 else GlobalHolders(pcs, n - 1) + if HoldsGlobal(pcs[n - 1]) then 1 else 0
  }

  /** All that the recorded ones among the first n pairs contributed. */
  ghost function FindingsUpTo(p: Plan, pcs: seq<PC>, n: nat): multiset<Finding>
    requires |pcs| == |p.tasks| && n <= |pcs|
  {
    if n == 0 then multiset{}
    else
      FindingsUpTo(p, pcs, n - 1) +
      if HasRecorded(pcs[n - 1]) then multiset(FindingsOf(p.tasks[n - 1])) else multiset{}
  }

  ghost function ErrorsUpTo(p: Plan, pcs: seq<PC>, n: nat): multiset<CheckError>
    requires |pcs| == |p.tasks| && n <= |pcs|
  {
    if n == 0 then multiset{}
    else ErrorsUpTo(p, pcs, n - 1) + if HasRecorded(pcs[n - 1]) then multiset(ErrorsOf(p.tasks[n - 1])) else multiset{}
  }

  /** The tokens in the channels are the ones held, and within the limits. */
  ghost predicate SlotsCounted(p: Plan, s: State)
    requires Shaped(p, s)
  {
    && s.global == GlobalHolders(s.pcs, |s.pcs|) && s.global <= Workers(p)
    && forall j :: 0 <= j < p.jobs ==> s.slots[j] == TargetHolders(p, s.pcs, j, |s.pcs|) && s.slots[j] <= PerTarget(p)
  }

  /** The results so far are the contributions of the pairs that have recorded. */
  ghost predicate ResultsCounted(p: Plan, s: State)
    requires Shaped(p, s)
  {
    && multiset(s.findings) == FindingsUpTo(p, s.pcs, |s.pcs|)
    && multiset(s.errors) == ErrorsUpTo(p, s.pcs, |s.pcs|)
  }

  ghost predicate Inv(p: Plan, s: State) {
    Shaped(p, s) && SlotsCounted(p, s) && ResultsCounted(p, s)
  }

  lemma {:induction false} OneMoves(p: Plan, pcs: seq<PC>, i: nat, pc: PC, job: int, n: nat)
    requires |pcs| == |p.tasks| && n <= |pcs| && i < |pcs|
    ensures TargetHolders(p, pcs[i := pc], job, n) - TargetHolders(p, pcs, job, n) ==
      if i < n && p.tasks[i].job == job then (if HoldsTarget(pc) then 1 else 0) - (if HoldsTarget(pcs[i]) then 1 else 0)
      else 0
    ensures GlobalHolders(pcs[i := pc], n) - GlobalHolders(pcs, n) ==
      if i < n then (if HoldsGlobal(pc) then 1 else 0) - (if HoldsGlobal(pcs[i]) then 1 else 0) else 0
  {
    if n > 0 { OneMoves(p, pcs, i, pc, job, n - 1); }
  }

  lemma {:induction false} OneRecords(p: Plan, pcs: seq<PC>, i: nat, pc: PC, n: nat)
    requires |pcs| == |p.tasks| && n <= |pcs| && i < |pcs|
    requires HasRecorded(pcs[i]) ==> HasRecorded(pc)
    ensures FindingsUpTo(p, pcs[i := pc], n) == FindingsUpTo(p, pcs, n) +
      if i < n && HasRecorded(pc) && !HasRecorded(pcs[i]) then multiset(FindingsOf(p.tasks[i])) else multiset{}
    ensures ErrorsUpTo(p, pcs[i := pc], n) == ErrorsUpTo(p, pcs, n) +
      if i < n && HasRecorded(pc) && !HasRecorded(pcs[i]) then multiset(ErrorsOf(p.tasks[i])) else multiset{}
  {
    hide FindingsOf, ErrorsOf;
    if n > 0 { OneRecords(p, pcs, i, pc, n - 1); }
  }

  lemma StepCountsGlobal(p: Plan, s: State, t: Step)
    requires DistinctPairs(p) && Shaped(p, s) && Enabled(p, s, t)
    requires s.global == GlobalHolders(s.pcs, |s.pcs|) && s.global <= Workers(p)
    ensures var s' := Apply(p, s, t); s'.global == GlobalHolders(s'.pcs, |s.pcs|) && s'.global <= Workers(p)
  {
    OneMoves(p, s.pcs, t.i, Apply(p, s, t).pcs[t.i], 0, |s.pcs|);
    hide GlobalHolders, FindingsOf, ErrorsOf;
  }

  lemma StepCountsJob(p: Plan, s: State, t: Step, j: int)
    requires DistinctPairs(p) && Shaped(p, s) && Enabled(p, s, t) && 0 <= j < p.jobs
    requires s.slots[j] == TargetHolders(p, s.pcs, j, |s.pcs|) && s.slots[j] <= PerTarget(p)
    ensures var s' := Apply(p, s, t); s'.slots[j] == TargetHolders(p, s'.pcs, j, |s.pcs|) && s'.slots[j] <= PerTarget(p)
  {
    OneMoves(p, s.pcs, t.i, Apply(p, s, t).pcs[t.i], j, |s.pcs|);
    hide TargetHolders, FindingsOf, ErrorsOf;
  }

  lemma StepCountsResults(p: Plan, s: State, t: Step)
    requires DistinctPairs(p) && Shaped(p, s) && ResultsCounted(p, s) && Enabled(p, s, t)
    ensures ResultsCounted(p, Apply(p, s, t))
  {
    hide FindingsUpTo, ErrorsUpTo, FindingsOf, ErrorsOf;
    var s' := Apply(p, s, t);
    OneRecords(p, s.pcs, t.i, s'.pcs[t.i], |s.pcs|);
    if t.Record? {
      assert multiset(s'.findings) == multiset(s.findings) + multiset(FindingsOf(p.tasks[t.i]));
      assert multiset(s'.errors) == multiset(s.errors) + multiset(ErrorsOf(p.tasks[t.i]));
    } else {
      assert HasRecorded(s'.pcs[t.i]) == HasRecorded(s.pcs[t.i]);
    }
  }

  lemma InvStep(p: Plan, s: State, t: Step)
    requires DistinctPairs(p) && Inv(p, s) && Enabled(p, s, t)
    ensures Inv(p, Apply(p, s, t))
  {
    StepCountsGlobal(p, s, t);
    StepCountsResults(p, s, t);
    forall j | 0 <= j < p.jobs ensures var s' := Apply(p, s, t);
      s'.slots[j] == TargetHolders(p, s'.pcs, j, |s.pcs|) && s'.slots[j] <= PerTarget(p)
    {
      StepCountsJob(p, s, t, j);
    }
    StepKeepsShape(p, s, t);
    hide Apply, Enabled, ResultsCounted, TargetHolders, GlobalHolders;
  }

  lemma StepKeepsShape(p: Plan, s: State, t: Step)
    requires DistinctPairs(p) && Shaped(p, s) && Enabled(p, s, t)
    ensures Shaped(p, Apply(p, s, t)) && |Apply(p, s, t).pcs| == |s.pcs|
  {
  }

  lemma {:induction false} NothingYet(p: Plan, n: nat, job: int)
    requires n <= |p.tasks|
    ensures
      var pcs := Initial(p).pcs;
      GlobalHolders(pcs, n) == 0 && TargetHolders(p, pcs, job, n) == 0 &&
      FindingsUpTo(p, pcs, n) == multiset{} && ErrorsUpTo(p, pcs, n) == multiset{}
  {
    if n > 0 { NothingYet(p, n - 1, job); }
  }

  // ----- runs -----------------------------------------------------------------------------------------

  ghost predicate Behaviour(p: Plan, ss: seq<State>, ts: seq<Step>) {
    && DistinctPairs(p)
    && |ss| == |ts| + 1 && ss[0] == Initial(p)
    && (forall i :: 0 <= i < |ss| ==> Shaped(p, ss[i]))
    && (forall i :: 0 <= i < |ts| ==> Enabled(p, ss[i], ts[i]) && ss[i + 1] == Apply(p, ss[i], ts[i]))
  }

  lemma {:induction false} AlwaysInv(p: Plan, ss: seq<State>, ts: seq<Step>, i: int)
    requires Behaviour(p, ss, ts) && 0 <= i < |ss|
    ensures Inv(p, ss[i])
  {
    if i == 0 {
      forall j | 0 <= j < p.jobs ensures TargetHolders(p, ss[0].pcs, j, |p.tasks|) == 0 { NothingYet(p, |p.tasks|, j); }
      NothingYet(p, |p.tasks|, 0);
    } else {
      AlwaysInv(p, ss, ts, i - 1);
      InvStep(p, ss[i - 1], ts[i - 1]);
    }
  }

  /** In every reachable state the checks that hold slots are within both bounds. */
  lemma SlotsAreBounded(p: Plan, ss: seq<State>, ts: seq<Step>, i: int, job: int)
    requires Behaviour(p, ss, ts) && 0 <= i < |ss| && 0 <= job < p.jobs
    ensures GlobalHolders(ss[i].pcs, |p.tasks|) <= if p.workers > 0 then p.workers else 16
    ensures TargetHolders(p, ss[i].pcs, job, |p.tasks|) <= if p.perTarget > 0 then p.perTarget else 4
  {
    AlwaysInv(p, ss, ts, i);
  }

  ghost predicate AllDone(s: State) { forall k :: 0 <= k < |s.pcs| ==> s.pcs[k] == Done }

  lemma {:induction false} NoHolders(p: Plan, pcs: seq<PC>, job: int, n: nat)
    requires |pcs| == |p.tasks| && n <= |pcs|
    ensures (forall k :: 0 <= k < n ==> !HoldsGlobal(pcs[k])) ==> GlobalHolders(pcs, n) == 0
    ensures (forall k :: 0 <= k < n ==> !HoldsTarget(pcs[k])) ==> TargetHolders(p, pcs, job, n) == 0
  {
    if n > 0 { NoHolders(p, pcs, job, n - 1); }
  }

  lemma {:induction false} HolderCounts(p: Plan, pcs: seq<PC>, k: nat, n: nat)
    requires |pcs| == |p.tasks| && k < n <= |pcs|
    ensures HoldsGlobal(pcs[k]) ==> GlobalHolders(pcs, n) > 0
    ensures HoldsTarget(pcs[k]) ==> TargetHolders(p, pcs, p.tasks[k].job, n) > 0
  {
    if k < n - 1 { HolderCounts(p, pcs, k, n - 1); }
  }

  /** The two-level semaphores never deadlock: until every check is done, some step is enabled. */
  lemma NeverStuck(p: Plan, ss: seq<State>, ts: seq<Step>, i: int)
    requires Behaviour(p, ss, ts) && 0 <= i < |ss| && !AllDone(ss[i])
    ensures exists t :: Enabled(p, ss[i], t)
  {
    var s := ss[i];
    AlwaysInv(p, ss, ts, i);
    var n := |s.pcs|;
    if k: nat :| k < n && s.pcs[k] == Running {
      assert Enabled(p, s, Record(k));
    } else if k: nat :| k < n && s.pcs[k] == PC.Recorded {
      HolderCounts(p, s.pcs, k, n);
      assert Enabled(p, s, FreeGlobal(k));
    } else if k: nat :| k < n && s.pcs[k] == Leaving {
      HolderCounts(p, s.pcs, k, n);
      assert Enabled(p, s, FreeTarget(k));
    } else if k: nat :| k < n && s.pcs[k] == WantsGlobal {
      NoHolders(p, s.pcs, 0, n);
      assert Enabled(p, s, TakeGlobal(k));
    } else if k: nat :| k < n && s.pcs[k] == WantsTarget {
      NoHolders(p, s.pcs, p.tasks[k].job, n);
      assert Enabled(p, s, TakeTarget(k));
    } else {
      var k: nat :| k < n && s.pcs[k] != Done;
      FirstUnborn(p, s, k);
    }
  }

  lemma {:induction false} FirstUnborn(p: Plan, s: State, k: nat)
    requires DistinctPairs(p) && Shaped(p, s) && k < |s.pcs| && s.pcs[k] == Unborn
    ensures exists t :: Enabled(p, s, t)
  {
    if forall j :: 0 <= j < k ==> s.pcs[j] != Unborn {
      assert Enabled(p, s, Spawn(k));
    } else {
      var j: nat :| j < k && s.pcs[j] == Unborn;
      FirstUnborn(p, s, j);
    }
  }

  /** Every pair goes through six steps, so a run is over after six steps per pair. */
  ghost function Remaining(pcs: seq<PC>, n: nat): nat
    requires n <= |pcs|
  {
    if n == 0 then 0
    else Remaining(pcs, n - 1) + match pcs[n - 1]
      case Unborn => 6 case WantsTarget => 5 case WantsGlobal => 4 case Running => 3
      case Recorded => 2 case Leaving => 1 case Done => 0
  }

  lemma {:induction false} StepRemains(p: Plan, s: State, t: Step, n: nat)
    requires DistinctPairs(p) && Shaped(p, s) && Enabled(p, s, t) && n <= |s.pcs|
    ensures Remaining(Apply(p, s, t).pcs, n) == Remaining(s.pcs, n) - if t.i < n then 1 else 0
  {
    if n > 0 { StepRemains(p, s, t, n - 1); }
  }

  lemma {:induction false} UnbornRemains(p: Plan, n: nat)
    requires n <= |p.tasks|
    ensures Remaining(Initial(p).pcs, n) == 6 * n
  {
    if n > 0 { UnbornRemains(p, n - 1); }
  }

  lemma {:induction false} RunsEnd(p: Plan, ss: seq<State>, ts: seq<Step>)
    requires Behaviour(p, ss, ts)
    ensures |ts| + Remaining(ss[|ts|].pcs, |p.tasks|) == 6 * |p.tasks|
    decreases |ts|
  {
    if ts == [] {
      UnbornRemains(p, |p.tasks|);
    } else {
      var n := |ts| - 1;
      RunsEnd(p, ss[..n + 1], ts[..n]);
      StepRemains(p, ss[n], ts[n], |p.tasks|);
    }
  }

  // ----- what a finished run returns ------------------------------------------------------------------

  /** Each pair's findings, all together. */
  ghost function AllFindings(p: Plan, n: nat): multiset<Finding>
    requires n <= |p.tasks|
  {
    if n == 0 then multiset{} else AllFindings(p, n - 1) + multiset(FindingsOf(p.tasks[n - 1]))
  }

  /** Each pair's errors, all together. */
  ghost function AllErrors(p: Plan, n: nat): multiset<CheckError>
    requires n <= |p.tasks|
  {
    if n == 0 then multiset{} else AllErrors(p, n - 1) + multiset(ErrorsOf(p.tasks[n - 1]))
  }

  lemma {:induction false} DoneMeansEverything(p: Plan, pcs: seq<PC>, n: nat)
    requires |pcs| == |p.tasks| && n <= |pcs| && forall k :: 0 <= k < n ==> pcs[k] == Done
    ensures FindingsUpTo(p, pcs, n) == AllFindings(p, n) && ErrorsUpTo(p, pcs, n) == AllErrors(p, n)
  {
    hide FindingsOf, ErrorsOf;
    if n > 0 { DoneMeansEverything(p, pcs, n - 1); }
  }

  /** A finished run holds exactly every pair's contribution: its findings or its one error, never part of them. */
  lemma FinishedRunHoldsEverything(p: Plan, ss: seq<State>, ts: seq<Step>)
    requires Behaviour(p, ss, ts) && AllDone(ss[|ts|])
    ensures multiset(ss[|ts|].findings) == AllFindings(p, |p.tasks|)
    ensures multiset(ss[|ts|].errors) == AllErrors(p, |p.tasks|)
  {
    AlwaysInv(p, ss, ts, |ts|);
    DoneMeansEverything(p, ss[|ts|].pcs, |p.tasks|);
  }

  ghost predicate FromTask(p: Plan, f: Finding, k: int) {
    0 <= k < |p.tasks| && f in FindingsOf(p.tasks[k])
  }

  lemma TaskFinding(t: Task, f: Finding)
    requires f in FindingsOf(t)
    ensures f.target == t.target && f.checkID == t.meta.id
    ensures ValidSeverity(t.meta.severity) ==> ValidSeverity(f.severity)
    ensures multiset(FindingsOf(t))[f] == 1
    ensures forall g :: g in FindingsOf(t) && g.subject == f.subject ==> g == f
  {
    var fs := FindingsOf(t);
    SubjectsCount(fs, f);
    forall g | g in fs && g.subject == f.subject ensures g == f {
      var i :| 0 <= i < |fs| && fs[i] == f;
      var j :| 0 <= j < |fs| && fs[j] == g;
      assert fs[i].subject == t.raw.findings[i].subject && fs[j].subject == t.raw.findings[j].subject;
    }
  }

  lemma {:induction false} SubjectsCount(fs: seq<Finding>, f: Finding)
    requires forall i, j :: 0 <= i < j < |fs| ==> fs[i].subject != fs[j].subject
    ensures f in fs ==> multiset(fs)[f] == 1
    ensures f !in fs ==> multiset(fs)[f] == 0
  {
    if fs != [] {
      SubjectsCount(fs[1..], f);
      assert fs == [fs[0]] + fs[1..];
    }
  }

  /** Where a finding of the run comes from, and that it comes once. */
  lemma {:induction false} EveryFinding(p: Plan, n: nat, f: Finding)
    requires DistinctPairs(p) && n <= |p.tasks|
    ensures f in AllFindings(p, n) <==> exists k :: FromTask(p, f, k) && k < n
    ensures AllFindings(p, n)[f] <= 1
  {
    hide FindingsOf;
    if n > 0 {
      EveryFinding(p, n - 1, f);
      OneOfTwo(AllFindings(p, n - 1), FindingsOf(p.tasks[n - 1]), f);
      if FromTask(p, f, n - 1) {
        TaskFinding(p.tasks[n - 1], f);
        forall k | FromTask(p, f, k) ensures k == n - 1 { SameTask(p, f, k, n - 1); }
      }
    }
  }

  lemma SameTask(p: Plan, f: Finding, k: int, l: int)
    requires DistinctPairs(p) && FromTask(p, f, k) && FromTask(p, f, l)
    ensures k == l
  {
  }

  lemma OneOfTwo<T>(m: multiset<T>, s: seq<T>, x: T)
    ensures (m + multiset(s))[x] == m[x] + multiset(s)[x]
    ensures x in s <==> multiset(s)[x] > 0
  {
  }

  /** No two findings of the run share check, target and subject. */
  lemma FindingsAreDistinct(p: Plan, f: Finding, g: Finding)
    requires DistinctPairs(p)
    requires f in AllFindings(p, |p.tasks|) && g in AllFindings(p, |p.tasks|) && f.Print() == g.Print()
    ensures f == g
  {
    EveryFinding(p, |p.tasks|, f);
    EveryFinding(p, |p.tasks|, g);
    var k :| FromTask(p, f, k);
    var l :| FromTask(p, g, l);
    TaskFinding(p.tasks[k], f);
    TaskFinding(p.tasks[l], g);
    assert k == l;
  }

  lemma ErrorOf(t: Task, e: CheckError)
    requires e in ErrorsOf(t)
    ensures e == CheckError(t.meta.id, t.target)
    ensures multiset(ErrorsOf(t))[e] == 1
  {
  }

  ghost predicate ErrorFrom(p: Plan, e: CheckError, k: int) {
    0 <= k < |p.tasks| && e in ErrorsOf(p.tasks[k])
  }

  lemma {:induction false} EveryError(p: Plan, n: nat, e: CheckError)
    requires DistinctPairs(p) && n <= |p.tasks|
    ensures e in AllErrors(p, n) <==> exists k :: ErrorFrom(p, e, k) && k < n
    ensures AllErrors(p, n)[e] <= 1
  {
    hide ErrorsOf;
    if n > 0 {
      EveryError(p, n - 1, e);
      OneOfTwo(AllErrors(p, n - 1), ErrorsOf(p.tasks[n - 1]), e);
      if ErrorFrom(p, e, n - 1) {
        ErrorOf(p.tasks[n - 1], e);
        forall k | ErrorFrom(p, e, k) ensures k == n - 1 { ErrorOf(p.tasks[k], e); }
      }
    }
  }

  // ----- what each pair contributes, said of what its check returned --------------------------------

  /** The finding a check returned, and the one it ends as. */
  predicate Completed(m: Meta, target: string, raw: Finding, f: Finding) {
    && f.checkID == m.id && f.target == target && f.subject == raw.subject && f.evidence == raw.evidence
    && f.severity == (if raw.severity != 0 then raw.severity else m.severity)
    && f.title == (if raw.title != "" then raw.title else m.title)
    && f.remediation == (if raw.remediation != "" then raw.remediation else m.remediation)
    && f.references == (if raw.references.Some? then raw.references else m.references)
  }

  /** The finding names another check, another target or a severity there is not. */
  predicate Foreign(m: Meta, target: string, raw: Finding) {
    || (raw.checkID != "" && raw.checkID != m.id)
    || (raw.target != "" && raw.target != target)
    || (raw.severity != 0 && !(1 <= raw.severity <= 5))
  }

  /** The check came back with nothing in time, or with findings that cannot be accepted. */
  ghost predicate Fails(t: Task) {
    || t.raw.Failed?
    || (exists i :: 0 <= i < |t.raw.findings| && Foreign(t.meta, t.target, t.raw.findings[i]))
    || (exists i, j :: 0 <= i < j < |t.raw.findings| && t.raw.findings[i].subject == t.raw.findings[j].subject)
  }

  lemma ContributionOf(t: Task)
    ensures Fails(t) ==> FindingsOf(t) == [] && ErrorsOf(t) == [CheckError(t.meta.id, t.target)]
    ensures !Fails(t) ==> ErrorsOf(t) == [] && |FindingsOf(t)| == |t.raw.findings|
    ensures !Fails(t) ==>
      forall i :: 0 <= i < |FindingsOf(t)| ==> Completed(t.meta, t.target, t.raw.findings[i], FindingsOf(t)[i])
  {
    if t.raw.Returned? {
      assert forall i :: 0 <= i < |t.raw.findings| ==>
        (Honest(t.meta, t.target, t.raw.findings[i]) <==> !Foreign(t.meta, t.target, t.raw.findings[i]));
    }
    hide Honest, Foreign;
  }

  /** The finding is filed under the pair. */
  predicate FiledUnder(t: Task, f: Finding) { f.checkID == t.meta.id && f.target == t.target }

  /** A pair that fails contributes exactly one error to a finished run, and no finding. */
  lemma FailedPair(p: Plan, ss: seq<State>, ts: seq<Step>, k: int)
    requires Behaviour(p, ss, ts) && AllDone(ss[|ts|]) && 0 <= k < |p.tasks| && Fails(p.tasks[k])
    ensures multiset(ss[|ts|].errors)[CheckError(p.tasks[k].meta.id, p.tasks[k].target)] == 1
    ensures forall f :: f in ss[|ts|].findings ==> !FiledUnder(p.tasks[k], f)
  {
    FinishedRunHoldsEverything(p, ss, ts);
    ContributionOf(p.tasks[k]);
    PairError(p, k);
    PairFindings(p, ss[|ts|].findings, k);
    hide FindingsOf, ErrorsOf, AllDone, FiledUnder, Fails;
  }

  /** One that does not contributes all its findings, completed, and nothing else. */
  lemma CompletedPair(p: Plan, ss: seq<State>, ts: seq<Step>, k: int)
    requires Behaviour(p, ss, ts) && AllDone(ss[|ts|]) && 0 <= k < |p.tasks| && !Fails(p.tasks[k])
    ensures CheckError(p.tasks[k].meta.id, p.tasks[k].target) !in ss[|ts|].errors
    ensures CompletedAll(p.tasks[k], ss[|ts|].findings)
  {
    var t, end := p.tasks[k], ss[|ts|];
    FinishedRunHoldsEverything(p, ss, ts);
    ContributionOf(t);
    PairError(p, k);
    CountIsMember(end.errors, CheckError(t.meta.id, t.target));
    PairFindings(p, end.findings, k);
    hide ErrorsOf, AllDone, FiledUnder, FindingsOf, Behaviour;
    CompletedFrom(t, FindingsOf(t), end.findings);
  }

  /** Each finding the check returned is there, completed, and what is filed under the pair is one of these. */
  ghost predicate CompletedAll(t: Task, fs: seq<Finding>)
    requires t.raw.Returned?
  {
    && (forall i :: 0 <= i < |t.raw.findings| ==> CompletedIn(t, i, fs))
    && forall f :: f in fs && FiledUnder(t, f) ==>
         exists i :: 0 <= i < |t.raw.findings| && Completed(t.meta, t.target, t.raw.findings[i], f)
  }

  ghost predicate CompletedIn(t: Task, i: int, fs: seq<Finding>)
    requires t.raw.Returned? && 0 <= i < |t.raw.findings|
  {
    exists f :: f in fs && Completed(t.meta, t.target, t.raw.findings[i], f)
  }

  lemma CompletedFrom(t: Task, own: seq<Finding>, fs: seq<Finding>)
    requires t.raw.Returned? && |own| == |t.raw.findings|
    requires forall i :: 0 <= i < |own| ==> Completed(t.meta, t.target, t.raw.findings[i], own[i])
    requires forall f :: f in fs && FiledUnder(t, f) <==> f in own
    ensures CompletedAll(t, fs)
  {
    hide Completed, FiledUnder;
    forall i | 0 <= i < |own| ensures CompletedIn(t, i, fs) { assert own[i] in own; }
    forall f | f in fs && FiledUnder(t, f)
      ensures exists i :: 0 <= i < |own| && Completed(t.meta, t.target, t.raw.findings[i], f)
    {
      var i :| 0 <= i < |own| && own[i] == f;
    }
  }

  lemma CountIsMember<T>(s: seq<T>, x: T)
    ensures x in s <==> multiset(s)[x] > 0
  {
  }

  /** Among the findings of a finished run, those filed under the pair are the pair's. */
  lemma PairFindings(p: Plan, fs: seq<Finding>, k: int)
    requires DistinctPairs(p) && 0 <= k < |p.tasks| && multiset(fs) == AllFindings(p, |p.tasks|)
    ensures forall f :: f in fs && FiledUnder(p.tasks[k], f) <==> f in FindingsOf(p.tasks[k])
  {
    hide FindingsOf;
    forall f ensures f in fs && FiledUnder(p.tasks[k], f) <==> f in FindingsOf(p.tasks[k]) {
      CountIsMember(fs, f);
      EveryFinding(p, |p.tasks|, f);
      if f in fs && FiledUnder(p.tasks[k], f) {
        var j :| FromTask(p, f, j);
        TaskFinding(p.tasks[j], f);
      }
      if f in FindingsOf(p.tasks[k]) {
        TaskFinding(p.tasks[k], f);
        assert FromTask(p, f, k);
      }
    }
  }

  lemma PairError(p: Plan, k: int)
    requires DistinctPairs(p) && 0 <= k < |p.tasks|
    ensures
      var e := CheckError(p.tasks[k].meta.id, p.tasks[k].target);
      AllErrors(p, |p.tasks|)[e] == if ErrorsOf(p.tasks[k]) == [e] then 1 else 0
  {
    var e := CheckError(p.tasks[k].meta.id, p.tasks[k].target);
    EveryError(p, |p.tasks|, e);
    forall j | ErrorFrom(p, e, j) ensures j == k { ErrorOf(p.tasks[j], e); }
    if ErrorFrom(p, e, k) { ErrorOf(p.tasks[k], e); }
    assert ErrorFrom(p, e, k) <==> ErrorsOf(p.tasks[k]) == [e];
  }

  /** The whole run, pair by pair, that far and no further. */
  lemma NothingElse(p: Plan, ss: seq<State>, ts: seq<Step>)
    requires Behaviour(p, ss, ts) && AllDone(ss[|ts|])
    ensures forall f :: f in ss[|ts|].findings ==> exists k :: 0 <= k < |p.tasks| && FiledUnder(p.tasks[k], f)
    ensures forall e :: e in ss[|ts|].errors ==>
      exists k :: 0 <= k < |p.tasks| && e == CheckError(p.tasks[k].meta.id, p.tasks[k].target)
  {
    hide FindingsOf, ErrorsOf, AllDone;
    FinishedRunHoldsEverything(p, ss, ts);
    forall f | f in ss[|ts|].findings ensures exists k :: 0 <= k < |p.tasks| && FiledUnder(p.tasks[k], f) {
      assert f in multiset(ss[|ts|].findings);
      EveryFinding(p, |p.tasks|, f);
      var k :| FromTask(p, f, k);
      TaskFinding(p.tasks[k], f);
    }
    forall e | e in ss[|ts|].errors
      ensures exists k :: 0 <= k < |p.tasks| && e == CheckError(p.tasks[k].meta.id, p.tasks[k].target)
    {
      assert e in multiset(ss[|ts|].errors);
      EveryError(p, |p.tasks|, e);
      var k :| ErrorFrom(p, e, k);
      ErrorOf(p.tasks[k], e);
    }
  }

  // ----- the sorted result does not depend on the interleaving ---------------------------------------

  predicate ErrorLeq(a: CheckError, b: CheckError) {
    Or(Compare(a.target, b.target), Compare(a.checkID, b.checkID)) <= 0
  }

  lemma ErrorsNeverTie(a: CheckError, b: CheckError)
    ensures ErrorLeq(a, a)
    ensures ErrorLeq(a, b) && ErrorLeq(b, a) ==> a == b
  {
    CompareMirror(a.target, b.target);
    CompareMirror(a.checkID, b.checkID);
    CompareMirror(a.target, a.target);
    CompareMirror(a.checkID, a.checkID);
  }

  /** In sorted errors targets ascend, then check IDs. */
  lemma SortedErrors(es: seq<CheckError>, i: int, j: int)
    requires SortedBy(es, ErrorLeq) && 0 <= i < j < |es|
    ensures !Before(es[j].target, es[i].target)
    ensures es[i].target == es[j].target ==> !Before(es[j].checkID, es[i].checkID)
  {
    hide Compare, Before;
    CompareMirror(es[i].target, es[j].target);
    CompareMirror(es[i].checkID, es[j].checkID);
    CompareMeans(es[j].target, es[i].target);
    CompareMeans(es[j].checkID, es[i].checkID);
  }

  lemma RunFindingsNeverTie(p: Plan, fs: seq<Finding>)
    requires DistinctPairs(p) && multiset(fs) == AllFindings(p, |p.tasks|)
    ensures NoTies(fs, FindingLeq)
  {
    forall f | f in fs ensures FindingLeq(f, f) { FindingsMirror(f, f); }
    forall f, g | f in fs && g in fs && FindingLeq(f, g) && FindingLeq(g, f) ensures f == g {
      FindingsMirror(f, g);
      assert f in multiset(fs) && g in multiset(fs);
      FindingsAreDistinct(p, f, g);
    }
  }

  /**
   * Whatever order the checks ran and finished in, the sorted findings and
   * errors are the same: any two finished runs of a plan, sorted by any
   * algorithm, agree.
   */
  lemma SameResultEveryTime(
    p: Plan, ss: seq<State>, ts: seq<Step>, ss': seq<State>, ts': seq<Step>,
    findings: seq<Finding>, findings': seq<Finding>, errors: seq<CheckError>, errors': seq<CheckError>)
    requires Behaviour(p, ss, ts) && AllDone(ss[|ts|]) && Behaviour(p, ss', ts') && AllDone(ss'[|ts'|])
    requires multiset(findings) == multiset(ss[|ts|].findings) && SortedBy(findings, FindingLeq)
    requires multiset(findings') == multiset(ss'[|ts'|].findings) && SortedBy(findings', FindingLeq)
    requires multiset(errors) == multiset(ss[|ts|].errors) && SortedBy(errors, ErrorLeq)
    requires multiset(errors') == multiset(ss'[|ts'|].errors) && SortedBy(errors', ErrorLeq)
    ensures findings == findings' && errors == errors'
  {
    FinishedRunHoldsEverything(p, ss, ts);
    FinishedRunHoldsEverything(p, ss', ts');
    RunFindingsNeverTie(p, findings);
    SortedUnique(findings, findings', FindingLeq);
    forall a, b | a in errors && b in errors ensures ErrorLeq(a, a) && (ErrorLeq(a, b) && ErrorLeq(b, a) ==> a == b) {
      ErrorsNeverTie(a, b);
    }
    SortedUnique(errors, errors', ErrorLeq);
  }

  /** The findings of a finished run name no (check, target, subject) twice. */
  lemma {:induction false} OnceEach(p: Plan, fs: seq<Finding>, i: int, j: int)
    requires DistinctPairs(p) && multiset(fs) == AllFindings(p, |p.tasks|) && 0 <= i < j < |fs|
    ensures fs[i].Print() != fs[j].Print()
  {
    assert fs[i] in multiset(fs) && fs[j] in multiset(fs);
    EveryFinding(p, |p.tasks|, fs[i]);
    if fs[i].Print() == fs[j].Print() {
      FindingsAreDistinct(p, fs[i], fs[j]);
      TwiceCounts(fs, i, j);
    }
  }
}
