/** The walker that evaluates an SPF record with counters, a path set and early stops. */
module Walk {
  import opened Core
  import opened SPF
  import opened SPFTree

  function SumCosts(cs: seq<TermCost>): int {
    if cs == [] then 0 else SumCosts(cs[..|cs| - 1]) + cs[|cs| - 1].lookups
  }

  ghost predicate NoRepeats(ps: seq<Problem>) {
    forall i, j :: 0 <= i < j < |ps| ==> ps[i] != ps[j]
  }

  /** Problems already recorded are not recorded again. */
  function AddProblems(ps: seq<Problem>, more: seq<Problem>): seq<Problem> {
    if more == [] then ps
    else
      var before := AddProblems(ps, more[..|more| - 1]);
      if more[|more| - 1] in before then before else before + [more[|more| - 1]]
  }

  /** The accumulators of a walk at one moment. */
  datatype Totals = Totals(
    lookups: int, queries: int, voids: seq<string>, unexpanded: seq<string>, permissive: seq<string>,
    problems: seq<Problem>)

  function Add(a: Totals, t: Tally): Totals {
    Totals(a.lookups + t.lookups, a.queries + t.queries, a.voids + t.voids, a.unexpanded + t.unexpanded,
           a.permissive + t.permissive, AddProblems(a.problems, t.problems))
  }

  lemma {:induction false} AddProblemsConcat(ps: seq<Problem>, a: seq<Problem>, b: seq<Problem>)
    ensures AddProblems(ps, a + b) == AddProblems(AddProblems(ps, a), b)
  {
    if b == [] {
      assert a + b == a;
    } else {
      assert (a + b)[..|a + b| - 1] == a + b[..|b| - 1];
      AddProblemsConcat(ps, a, b[..|b| - 1]);
    }
  }

  lemma AddPlus(a: Totals, t: Tally, u: Tally)
    ensures Add(a, Plus(t, u)) == Add(Add(a, t), u)
  {
    AddProblemsConcat(a.problems, t.problems, u.problems);
  }

  lemma AddZero(a: Totals)
    ensures Add(a, ZERO) == a
  {
  }

  lemma AddLookup(a: Totals, u: seq<string>)
    ensures Add(a, ONE_LOOKUP) == a.(lookups := a.lookups + 1)
    ensures Add(a, ONE_LOOKUP.(unexpanded := u)) == a.(lookups := a.lookups + 1, unexpanded := a.unexpanded + u)
  {
  }

  lemma AddArrival(a: Totals, sub: Record, via: string, top: bool)
    ensures Add(a, Arrival(sub, via, top)) ==
      a.(queries := a.queries + 1, permissive := a.permissive + if !top && PassesAll(sub) then [via] else [])
  {
  }

  lemma AddOneProblem(ps: seq<Problem>, p: Problem)
    ensures AddProblems(ps, [p]) == if p in ps then ps else ps + [p]
  {
  }

  lemma SumCostsOfTerm(cs: seq<TermCost>, term: string)
    ensures forall n :: SumCosts(cs + [TermCost(term, n)]) == SumCosts(cs) + n
  {
  }

  /** Room left when a record at this depth is entered: no check stands between nested first terms. */
  predicate Room(totals: Totals, depth: int) {
    totals.lookups <= 5 * MAX_LOOKUPS + depth && totals.queries <= MAX_QUERIES - 1 + depth
  }

  predicate Bounded(totals: Totals) {
    totals.lookups <= 5 * MAX_LOOKUPS + MAX_DEPTH + 1 && totals.queries <= MAX_QUERIES + MAX_DEPTH + 1
  }

  /** So little work that no stop can trigger. */
  predicate Modest(a: Totals, t: Tally) {
    a.lookups + t.lookups <= 5 * MAX_LOOKUPS && a.queries + t.queries < MAX_QUERIES
  }

  predicate Exceeds(a: Totals, t: Option<Tally>) { t.None? || !Modest(a, t.value) }

  /**
   * How a part of the walk ends, from totals a to b: unless it is incomplete
   * its tally is exactly what was added, and it neither fails nor becomes
   * incomplete as long as its tally is modest.
   */
  ghost predicate Ended(a: Totals, t: Option<Tally>, b: Totals, was: bool, now: bool, failed: bool) {
    && (was ==> now)
    && (failed ==> Exceeds(a, t))
    && (!failed && !now ==> t.Some? && b == Add(a, t.value))
    && (!Exceeds(a, t) ==> now == was && b == Add(a, t.value))
  }

  function Both(t: Option<Tally>, u: Option<Tally>): Option<Tally> {
    if t.Some? && u.Some? then Some(Plus(t.value, u.value)) else None
  }

  function TallyOf(v: Option<Verdict>): Option<Tally> {
    match v case None => None case Some(x) => Some(x.tally)
  }

  lemma EndedStep(
    a: Totals, t: Option<Tally>, b: Totals, u: Option<Tally>, c: Totals, was: bool, mid: bool, now: bool,
    failed: bool)
    requires Ended(a, t, b, was, mid, false) && Ended(b, u, c, mid, now, failed)
    ensures Ended(a, Both(t, u), c, was, now, failed)
  {
    if t.Some? && u.Some? { AddPlus(a, t.value, u.value); }
  }

  lemma EndedNow(a: Totals, t: Tally, incomplete: bool)
    ensures Ended(a, Some(t), Add(a, t), incomplete, incomplete, false)
  {
  }

  lemma {:induction false} PrefixExceeds(
    w: World, domain: string, ms: seq<Mechanism>, at: string, path: set<string>, levels: nat, i: int, a: Totals)
    requires 0 <= i <= |ms|
    requires Exceeds(a, EvalMechanisms(w, domain, ms[..i], at, path, levels))
    ensures Exceeds(a, EvalMechanisms(w, domain, ms, at, path, levels))
  {
    if i == |ms| {
      assert ms[..i] == ms;
    } else {
      assert ms[..|ms| - 1][..i] == ms[..i];
      PrefixExceeds(w, domain, ms[..|ms| - 1], at, path, levels, i, a);
    }
  }

  lemma StopExceeds(a: Totals, t: Option<Tally>, b: Totals, was: bool, now: bool)
    requires Ended(a, t, b, was, now, false)
    requires b.queries >= MAX_QUERIES || b.lookups > 5 * MAX_LOOKUPS
    ensures Exceeds(a, t)
  {
  }

  const NO_TOTALS: Totals := Totals(0, 0, [], [], [], [])

  /** The loop over the terms ends early after the first i. */
  lemma EndedEarly(w: World, domain: string, ms: seq<Mechanism>, at: string, path: set<string>, levels: nat, i: int,
                   a: Totals, b: Totals, was: bool, now: bool, failed: bool)
    requires 0 <= i <= |ms| && (was ==> now) && (!failed ==> now)
    requires Exceeds(a, EvalMechanisms(w, domain, ms[..i], at, path, levels))
    ensures Exceeds(a, EvalMechanisms(w, domain, ms, at, path, levels))
    ensures Ended(a, EvalMechanisms(w, domain, ms, at, path, levels), b, was, now, failed)
  {
    PrefixExceeds(w, domain, ms, at, path, levels, i, a);
  }

  lemma FailedExceeds(a: Totals, t: Option<Tally>, b: Totals, was: bool, now: bool)
    requires Ended(a, t, b, was, now, true)
    ensures Exceeds(a, t)
  {
  }

  lemma CostIsTally(a: Totals, t: Option<Tally>, b: Totals, was: bool, now: bool)
    requires Ended(a, t, b, was, now, false)
    ensures was ==> now
    ensures !now ==> t.Some? && b.lookups - a.lookups == t.value.lookups
  {
  }

  /** A record costs no less than its terms. */
  lemma RecordExceeds(
    w: World, domain: string, rec: Record, at: string, path: set<string>, levels: nat, top: bool, a: Totals)
    requires Exceeds(a, EvalMechanisms(w, domain, rec.mechanisms, at, path, levels))
    ensures Exceeds(a, TallyOf(EvalRecord(w, domain, rec, at, path, levels, top)))
  {
  }

  /** What each term of the target's own record costs, a redirect that applies included. */
  function RecordCosts(w: World, domain: string, rec: Record, path: set<string>, levels: nat): seq<TermCost> {
    var costs := TermCosts(w, domain, rec.mechanisms, path, levels);
    if AllOf(rec.mechanisms).Some? || rec.redirect == "" then costs
    else match EvalRedirect(w, rec.redirect, path, levels, true)
      case None => costs
      case Some(v) => costs + [TermCost("redirect=" + rec.redirect, v.tally.lookups)]
  }

  class Walker {
    const w: World
    var totals: Totals
    var voidLookups: int
    var cost: seq<TermCost>
    var effective: Option<Mechanism>
    var incomplete: bool
    var stack: set<string>

    /** Voids are counted, and no problem is recorded twice. */
    ghost predicate Tidy()
      reads this
    {
      voidLookups == |totals.voids| && NoRepeats(totals.problems)
    }

    constructor (w: World, domain: string)
      ensures this.w == w && Tidy()
      ensures totals == Totals(0, 0, [], [], [], []) && cost == [] && effective == None && !incomplete
      ensures stack == {w.canonical(domain)}
    {
      this.w := w;
      totals := Totals(0, 0, [], [], [], []);
      voidLookups, cost, effective, incomplete := 0, [], None, false;
      stack := {w.canonical(domain)};
    }

    method Count()
      modifies this`totals
      ensures totals == Add(old(totals), ONE_LOOKUP)
    {
      totals := totals.(lookups := totals.lookups + 1);
    }

    method Lookup(name: string, q: QType) returns (a: Option<Answer>)
      modifies this`totals
      ensures totals == Add(old(totals), ZERO.(queries := 1)) && a == w.lookup(name, q)
    {
      totals := totals.(queries := totals.queries + 1);
      a := w.lookup(name, q);
    }

    method Void(term: string)
      requires Tidy()
      modifies this`totals, this`voidLookups
      ensures Tidy() && totals == Add(old(totals), ZERO.(voids := [term]))
    {
      voidLookups := voidLookups + 1;
      totals := totals.(voids := totals.voids + [term]);
    }

    method Report(at: string, complaint: Complaint)
      requires Tidy()
      modifies this`totals
      ensures Tidy() && totals == Add(old(totals), ZERO.(problems := [Problem(at, complaint)]))
    {
      var p := Problem(at, complaint);
      AddOneProblem(totals.problems, p);
      for i := 0 to |totals.problems|
        invariant p !in totals.problems[..i]
      {
        if totals.problems[i] == p { return; }
        assert totals.problems[..i + 1] == totals.problems[..i] + [totals.problems[i]];
      }
      assert totals.problems[..|totals.problems|] == totals.problems;
      totals := totals.(problems := totals.problems + [p]);
    }

    method Unexpanded(term: string)
      modifies this`totals
      ensures totals == old(totals).(unexpanded := old(totals).unexpanded + [term])
    {
      totals := totals.(unexpanded := totals.unexpanded + [term]);
    }

    method Stop() returns (stop: bool)
      modifies this`incomplete
      ensures stop <==> totals.queries >= MAX_QUERIES || totals.lookups > 5 * MAX_LOOKUPS
      ensures incomplete == (old(incomplete) || stop)
    {
      stop := totals.queries >= MAX_QUERIES || totals.lookups > 5 * MAX_LOOKUPS;
      if stop { incomplete := true; }
    }

    /** a and exists: every address query comes back empty, or the term is not void. */
    method Queries(qs: seq<QType>, target: string, m: Mechanism) returns (failed: bool)
      requires Tidy()
      modifies this`totals, this`voidLookups
      ensures Tidy()
      ensures totals.lookups == old(totals.lookups)
      ensures old(totals.queries) <= totals.queries <= old(totals.queries) + |qs|
      ensures failed <==> EvalQueries(w, qs, target, m).None?
      ensures !failed ==> totals == Add(old(totals), EvalQueries(w, qs, target, m).value)
    {
      var empty := true;
      failed := false;
      for i := 0 to |qs|
        invariant Tidy() && !failed
        invariant totals == old(totals).(queries := old(totals.queries) + i)
        invariant forall k :: 0 <= k < i ==> w.lookup(target, qs[k]).Some?
        invariant empty <==> forall k :: 0 <= k < i ==> w.lookup(target, qs[k]).value.records == 0
      {
        var a := Lookup(target, qs[i]);
        if a.None? { return true; }
        if a.value.records > 0 { empty := false; }
      }
      if empty { Void(Term(m)); }
    }

    method MailServers(target: string, m: Mechanism, at: string) returns (failed: bool)
      requires Tidy()
      modifies this`totals, this`voidLookups
      ensures Tidy()
      ensures totals.lookups == old(totals.lookups) && totals.queries == old(totals.queries) + 1
      ensures failed <==> EvalMail(w, target, m, at).None?
      ensures !failed ==> totals == Add(old(totals), EvalMail(w, target, m, at).value)
    {
      var a := Lookup(target, QMX);
      if a.None? { return true; }
      var n := a.value.mx;
      if n == 0 { Void(Term(m)); }
      if n > MAX_MX_NAMES { Report(at, TooManyMX(Term(m), target, n)); }
      failed := false;
    }

    /** Asks a name for its SPF record; no usable record is a problem, not a failure. */
    method Fetch(target: string, via: string) returns (failed: bool, sub: Option<SPF.Record>)
      requires Tidy()
      modifies this`totals, this`voidLookups
      ensures Tidy()
      ensures totals.lookups == old(totals.lookups) && totals.queries == old(totals.queries) + 1
      ensures match FetchAt(w, target, via)
        case Broken => failed
        case Dead(t) => !failed && sub.None? && totals == Add(old(totals), t)
        case Live(r) => !failed && sub == Some(r) && totals == Add(old(totals), ZERO.(queries := 1))
    {
      failed, sub := false, None;
      var a := Lookup(target, QTXT);
      if a.None? { return true, None; }
      var records := SPFRecords(a.value.txts);
      if |records| == 0 {
        if a.value.txts == [] { Void(via); }
        Report(via, NoRecord(target));
      } else if |records| > 1 {
        Report(via, ManyRecords(target, |records|));
      } else {
        var parsed := w.parse(records[0]);
        match parsed
        case Err(e) => Report(via, Invalid(target, e));
        case Ok(r) => sub := Some(r);
      }
    }

    /** What the walk keeps, however it ends. */
    ghost predicate Sound()
      reads this
    {
      Tidy() && Bounded(totals)
    }

    method WalkTerm(domain: string, m: Mechanism, at: string, depth: int) returns (failed: bool)
      requires 0 <= depth <= MAX_DEPTH && CountsLookup(m)
      requires |stack| == depth + 1 && Tidy() && Room(totals, depth)
      modifies this
      ensures Sound() && stack == old(stack) && cost == old(cost) && effective == old(effective)
      ensures totals.lookups >= old(totals.lookups)
      ensures Ended(old(totals), EvalMechanism(w, domain, m, at, stack, MAX_DEPTH - depth), totals,
                    old(incomplete), incomplete, failed)
      decreases MAX_DEPTH - depth, 2
    {
      failed := false;
      Count();
      ghost var counted := totals;
      EndedNow(old(totals), ONE_LOOKUP, incomplete);
      var target := domain;
      if m.domain != "" {
        if HasMacro(m.domain) {
          Unexpanded(Term(m));
          EndedNow(old(totals), ONE_LOOKUP.(unexpanded := [Term(m)]), incomplete);
          return;
        }
        target := Target(m.domain);
      }
      failed := WalkTarget(target, m, at, depth);
      EndedStep(old(totals), Some(ONE_LOOKUP), counted, EvalTarget(w, target, m, at, stack, MAX_DEPTH - depth), totals,
                old(incomplete), old(incomplete), incomplete, failed);
    }

    method WalkTarget(target: string, m: Mechanism, at: string, depth: int) returns (failed: bool)
      requires 0 <= depth <= MAX_DEPTH
      requires |stack| == depth + 1 && Tidy() && Room(totals.(lookups := totals.lookups - 1), depth)
      modifies this
      ensures Sound() && stack == old(stack) && cost == old(cost) && effective == old(effective)
      ensures totals.lookups >= old(totals.lookups)
      ensures Ended(old(totals), EvalTarget(w, target, m, at, stack, MAX_DEPTH - depth), totals,
                    old(incomplete), incomplete, failed)
      decreases MAX_DEPTH - depth, 1
    {
      failed := false;
      AddZero(totals);
      match m.kind
      case Include => failed := WalkFollow(target, "include:" + target, depth, false);
      case Addr => failed := Queries([QA, QAAAA], target, m);
      case Exists => failed := Queries([QA], target, m);
      case Mail => failed := MailServers(target, m, at);
      case _ =>
    }

    /** Evaluates the record at target, reached via an include or redirect. */
    method WalkFollow(target: string, via: string, depth: int, top: bool) returns (failed: bool)
      requires 0 <= depth <= MAX_DEPTH && via != ""
      requires |stack| == depth + 1 && Tidy() && Room(totals.(lookups := totals.lookups - 1), depth)
      modifies this
      ensures Sound() && stack == old(stack) && cost == old(cost)
      ensures totals.lookups >= old(totals.lookups)
      ensures !top ==> effective == old(effective)
      ensures
        var v := EvalFollow(w, target, via, stack, MAX_DEPTH - depth, top);
        && Ended(old(totals), TallyOf(v), totals, old(incomplete), incomplete, failed)
        && (top && !failed && !incomplete ==>
          effective == if v.value.effective.Some? then v.value.effective else old(effective))
      decreases MAX_DEPTH - depth, 0
    {
      hide NoRepeats, Modest, EvalRecord, PassesAll, Arrival, SPFRecords;
      failed := false;
      var key := w.canonical(target);
      if key in stack {
        Report(via, Loops(via));
        return;
      }
      if depth + 1 > MAX_DEPTH {
        incomplete := true;
        return;
      }
      var sub;
      failed, sub := Fetch(target, via);
      if failed || sub.None? { return; }
      if !top && PassesAll(sub.value) {
        totals := totals.(permissive := totals.permissive + [via]);
      }
      ghost var arrived := totals;
      AddArrival(old(totals), sub.value, via, top);
      EndedNow(old(totals), Arrival(sub.value, via, top), incomplete);
      stack := stack + {key};
      failed := WalkRecord(target, sub.value, via, depth + 1, top);
      ghost var v := EvalRecord(w, target, sub.value, via, stack, MAX_DEPTH - depth - 1, top);
      EndedStep(old(totals), Some(Arrival(sub.value, via, top)), arrived, TallyOf(v), totals,
                old(incomplete), old(incomplete), incomplete, failed);
      stack := stack - {key};
    }

    /** Visits a record; top is true for the target's own record and its redirect chain. */
    method WalkRecord(domain: string, rec: Record, at: string, depth: int, top: bool) returns (failed: bool)
      requires 0 <= depth <= MAX_DEPTH
      requires |stack| == depth + 1 && Tidy() && Room(totals, depth)
      requires top && at == "" ==> depth == 0 && cost == [] && totals.lookups == 0
      modifies this
      ensures Sound() && stack == old(stack)
      ensures totals.lookups >= old(totals.lookups)
      ensures !top ==> effective == old(effective)
      ensures if top && at == "" then !failed ==> SumCosts(cost) == totals.lookups else cost == old(cost)
      ensures top && at == "" && !failed && !incomplete ==>
        cost == RecordCosts(w, domain, rec, stack, MAX_DEPTH - depth)
      ensures
        var v := EvalRecord(w, domain, rec, at, stack, MAX_DEPTH - depth, top);
        && Ended(old(totals), TallyOf(v), totals, old(incomplete), incomplete, failed)
        && (top && !failed && !incomplete ==>
          effective == if v.value.effective.Some? then v.value.effective else old(effective))
      decreases MAX_DEPTH - depth, 5
    {
      hide Add, NoRepeats, SumCosts, EvalMechanisms, EvalRedirect, TermCosts, Modest, HasMacro;
      ghost var t := EvalMechanisms(w, domain, rec.mechanisms, at, stack, MAX_DEPTH - depth);
      var stopped;
      failed, stopped := WalkTerms(domain, rec.mechanisms, at, depth, top);
      if failed || stopped {
        if t.Some? { RecordExceeds(w, domain, rec, at, stack, MAX_DEPTH - depth, top, old(totals)); }
        return;
      }
      var all := AllOf(rec.mechanisms);
      if all.Some? {
        if top { effective := all; }
        return;
      }
      if rec.redirect == "" { return; }
      ghost var walked, mid := totals, incomplete;
      failed := WalkRedirect(rec.redirect, at, depth, top);
      ghost var v := EvalRedirect(w, rec.redirect, stack, MAX_DEPTH - depth, top);
      EndedStep(old(totals), t, walked, TallyOf(v), totals, old(incomplete), mid, incomplete, failed);
      if !failed { CostIsTally(walked, TallyOf(v), totals, mid, incomplete); }
    }

    /** One term, noting its cost when it is the target's own. */
    method CostedTerm(domain: string, m: Mechanism, at: string, depth: int, tracked: bool) returns (failed: bool)
      requires 0 <= depth <= MAX_DEPTH && CountsLookup(m)
      requires |stack| == depth + 1 && Tidy() && Room(totals, depth)
      modifies this
      ensures Sound() && stack == old(stack) && effective == old(effective)
      ensures totals.lookups >= old(totals.lookups)
      ensures if !tracked then cost == old(cost)
              else !failed ==> cost == old(cost) + [TermCost(Term(m), totals.lookups - old(totals.lookups))]
      ensures Ended(old(totals), EvalMechanism(w, domain, m, at, stack, MAX_DEPTH - depth), totals,
                    old(incomplete), incomplete, failed)
      decreases MAX_DEPTH - depth, 3
    {
      if tracked { cost := cost + [TermCost(Term(m), 0)]; }
      var before := totals.lookups;
      failed := WalkTerm(domain, m, at, depth);
      if tracked && !failed {
        cost := cost[..|cost| - 1] + [cost[|cost| - 1].(lookups := totals.lookups - before)];
      }
    }

    /** The loop over a record's terms; stopped says the work caps ended it. */
    method WalkTerms(domain: string, ms: seq<Mechanism>, at: string, depth: int, top: bool)
      returns (failed: bool, stopped: bool)
      requires 0 <= depth <= MAX_DEPTH
      requires |stack| == depth + 1 && Tidy() && Room(totals, depth)
      requires top && at == "" ==> depth == 0 && cost == [] && totals.lookups == 0
      modifies this
      ensures Sound() && stack == old(stack) && effective == old(effective)
      ensures totals.lookups >= old(totals.lookups)
      ensures if top && at == "" then !failed ==> SumCosts(cost) == totals.lookups else cost == old(cost)
      ensures !failed && !stopped ==> Room(totals, depth)
      ensures stopped ==>
        incomplete && Exceeds(old(totals), EvalMechanisms(w, domain, ms, at, stack, MAX_DEPTH - depth))
      ensures Ended(old(totals), EvalMechanisms(w, domain, ms, at, stack, MAX_DEPTH - depth), totals,
                    old(incomplete), incomplete, failed)
      ensures top && at == "" && !failed && !incomplete ==> cost == TermCosts(w, domain, ms, stack, MAX_DEPTH - depth)
      decreases MAX_DEPTH - depth, 4
    {
      hide EvalMechanism, Add, NoRepeats, Ended, Exceeds, CountsLookup, Term, HasMacro;
      failed, stopped := false, false;
      ghost var levels := MAX_DEPTH - depth;
      var tracked := top && at == "";
      AddZero(totals);
      EndedNow(totals, ZERO, incomplete);
      for i := 0 to |ms|
        invariant Sound() && Room(totals, depth) && stack == old(stack) && effective == old(effective)
        invariant !failed && !stopped
        invariant totals.lookups >= old(totals.lookups)
        invariant if tracked then SumCosts(cost) == totals.lookups else cost == old(cost)
        invariant Ended(old(totals), EvalMechanisms(w, domain, ms[..i], at, stack, levels), totals,
                        old(incomplete), incomplete, false)
        invariant tracked && !incomplete ==> cost == TermCosts(w, domain, ms[..i], stack, levels)
      {
        var m := ms[i];
        assert ms[..i + 1][..i] == ms[..i];
        if !CountsLookup(m) { continue; }
        SumCostsOfTerm(cost, Term(m));
        ghost var before, mid := totals, incomplete;
        failed := CostedTerm(domain, m, at, depth, tracked);
        EndedStep(old(totals), EvalMechanisms(w, domain, ms[..i], at, stack, levels), before,
                  EvalMechanism(w, domain, m, at, stack, levels), totals, old(incomplete), mid, incomplete, failed);
        ghost var upto := EvalMechanisms(w, domain, ms[..i + 1], at, stack, levels);
        if failed {
          FailedExceeds(old(totals), upto, totals, old(incomplete), incomplete);
          EndedEarly(w, domain, ms, at, stack, levels, i + 1, old(totals), totals, old(incomplete), incomplete, true);
          return;
        }
        CostIsTally(before, EvalMechanism(w, domain, m, at, stack, levels), totals, mid, incomplete);
        ghost var now := incomplete;
        stopped := Stop();
        if stopped {
          StopExceeds(old(totals), upto, totals, old(incomplete), now);
          EndedEarly(w, domain, ms, at, stack, levels, i + 1, old(totals), totals, old(incomplete), incomplete, false);
          return;
        }
      }
      assert ms[..|ms|] == ms;
    }

    method WalkRedirect(redirect: string, at: string, depth: int, top: bool) returns (failed: bool)
      requires 0 <= depth <= MAX_DEPTH
      requires |stack| == depth + 1 && Tidy() && Room(totals, depth)
      requires top && at == "" ==> depth == 0 && SumCosts(cost) == totals.lookups
      modifies this
      ensures Sound() && stack == old(stack)
      ensures totals.lookups >= old(totals.lookups)
      ensures !top ==> effective == old(effective)
      ensures if top && at == ""
        then !failed ==> (SumCosts(cost) == totals.lookups &&
                          cost == old(cost) + [TermCost("redirect=" + redirect, totals.lookups - old(totals.lookups))])
        else cost == old(cost)
      ensures
        var v := EvalRedirect(w, redirect, stack, MAX_DEPTH - depth, top);
        && Ended(old(totals), TallyOf(v), totals, old(incomplete), incomplete, failed)
        && (top && !failed && !incomplete ==>
          effective == if v.value.effective.Some? then v.value.effective else old(effective))
      decreases MAX_DEPTH - depth, 1
    {
      hide Add, NoRepeats, HasMacro, SumCosts, Modest, EvalFollow;
      AddLookup(totals, ["redirect=" + redirect]);
      failed := false;
      Count();
      ghost var counted := totals;
      EndedNow(old(totals), ONE_LOOKUP, incomplete);
      var tracked := top && at == "";
      SumCostsOfTerm(cost, "redirect=" + redirect);
      if tracked { cost := cost + [TermCost("redirect=" + redirect, 1)]; }
      var before := totals.lookups;
      if HasMacro(redirect) {
        Unexpanded("redirect=" + redirect);
        EndedNow(old(totals), ONE_LOOKUP.(unexpanded := ["redirect=" + redirect]), incomplete);
        return;
      }
      var target := Target(redirect);
      failed := WalkFollow(target, "redirect:" + target, depth, top);
      EndedStep(old(totals), Some(ONE_LOOKUP), counted,
                TallyOf(EvalFollow(w, target, "redirect:" + target, stack, MAX_DEPTH - depth, top)), totals,
                old(incomplete), old(incomplete), incomplete, failed);
      if tracked && !failed {
        var c := cost[|cost| - 1];
        cost := cost[..|cost| - 1] + [c.(lookups := c.lookups + totals.lookups - before)];
      }
    }
  }

  /** Evaluates a record published at domain, with everything it includes or redirects to. */
  method Evaluate(w: World, domain: string, rec: Record) returns (r: Option<Walker>)
    // Every evaluation stays within the work caps, whatever the DNS answers.
    ensures r.Some? ==> 0 <= r.value.totals.lookups <= 61 && r.value.totals.queries <= 111
    // Bookkeeping holds early stops included.
    ensures r.Some? ==> r.value.voidLookups == |r.value.totals.voids| && NoRepeats(r.value.totals.problems)
    ensures r.Some? ==> SumCosts(r.value.cost) == r.value.totals.lookups
    ensures r.Some? ==> r.value.stack == {w.canonical(domain)}
    // A complete evaluation is the record's meaning.
    ensures r.Some? && !r.value.incomplete ==>
      var v := EvalRecord(w, domain, rec, "", {w.canonical(domain)}, MAX_DEPTH, true);
      && v.Some? && r.value.effective == v.value.effective
      && r.value.totals == Add(NO_TOTALS, v.value.tally)
      && r.value.cost == RecordCosts(w, domain, rec, {w.canonical(domain)}, MAX_DEPTH)
    // An evaluation within the caps is complete.
    ensures
      var v := EvalRecord(w, domain, rec, "", {w.canonical(domain)}, MAX_DEPTH, true);
      v.Some? && v.value.tally.lookups <= 5 * MAX_LOOKUPS && v.value.tally.queries < MAX_QUERIES ==>
        r.Some? && !r.value.incomplete
    // That meaning is what is counted over the records visited, at most ten names deep.
    ensures r.Some? && !r.value.incomplete ==> exists t :: TreeOf(w, domain, rec, t)
    ensures r.Some? && !r.value.incomplete ==> forall t :: TreeOf(w, domain, rec, t) ==> CountedOver(r.value, t)
    ensures forall t :: TreeOf(w, domain, rec, t) && Counted(Visited(t)) <= 50 && Total(w, t).queries < 100 ==>
      r.Some? && !r.value.incomplete
  {
    hide EvalRecord, TreeOf, Counted, Visited, Total, RecordCosts, SumCosts, NoRepeats, Add, CostsOf, CountedOver;
    TreesMean(w, domain, rec);
    var walker := new Walker(w, domain);
    var failed := walker.WalkRecord(domain, rec, "", 0, true);
    if failed { return None; }
    r := Some(walker);
    if !walker.incomplete {
      forall t | TreeOf(w, domain, rec, t) ensures CountedOver(walker, t) {
        CompleteIsCounted(w, domain, rec, t, walker);
      }
    }
  }

  /** The evaluation's counters, costs and effective "all" are those of the tree. */
  ghost predicate CountedOver(walker: Walker, t: Tree)
    reads walker
  {
    && walker.totals.lookups == Counted(Visited(t)) && walker.totals.queries == Total(walker.w, t).queries
    && walker.voidLookups == Total(walker.w, t).voids && |walker.totals.unexpanded| == Total(walker.w, t).unexpanded
    && FirstAll(LastOnChain(t), walker.effective)
    && |t.terms| == |t.rec.mechanisms| && walker.cost == CostsOf(t)
  }

  lemma CompleteIsCounted(w: World, domain: string, rec: Record, t: Tree, walker: Walker)
    requires TreeOf(w, domain, rec, t) && walker.w == w
    requires
      var v := EvalRecord(w, domain, rec, "", {w.canonical(domain)}, MAX_DEPTH, true);
      && v.Some? && walker.effective == v.value.effective
      && walker.totals == Add(NO_TOTALS, v.value.tally)
    requires walker.voidLookups == |walker.totals.voids|
    requires walker.cost == RecordCosts(w, domain, rec, {w.canonical(domain)}, MAX_DEPTH)
    ensures CountedOver(walker, t)
  {
    hide EvalRecord, Grown, NoDeeper, Counted, Visited, Total, FirstAll, LastOnChain, RecordCosts, CostsOf;
    TreesMean(w, domain, rec);
    CostsMean(w, t, {w.canonical(domain)});
  }

  lemma CostsMean(w: World, t: Tree, path: set<string>)
    requires Grown(w, t, path) && NoDeeper(t, 10) && t.at == ""
    ensures |t.terms| == |t.rec.mechanisms| && RecordCosts(w, t.domain, t.rec, path, MAX_DEPTH) == CostsOf(t)
  {
    hide Grown, NoDeeper, Counted, Visited, VisitedBeyond, EvalRedirect, TermCosts, CostsAmong, FirstAll;
    hide NamesAll, AllOf;
    GrownShape(w, t, path);
    var ms := t.rec.mechanisms;
    assert ms[..|ms|] == ms;
    AllMeans(ms, t.rec.redirect);
    assert t.rec == Record(ms, t.rec.redirect);
    CostsOfTerms(w, t, |ms|, path, MAX_DEPTH);
    if !NamesAll(t.rec) && t.rec.redirect != "" { RedirectCost(w, t, path, MAX_DEPTH); }
  }
}
