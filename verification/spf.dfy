/** SPF records and what evaluating them means, whatever the DNS answers (RFC 7208). */
module SPF {
  import opened Core

  const MAX_LOOKUPS: int := 10
  const MAX_MX_NAMES: int := 10
  const MAX_DEPTH: int := 10
  const MAX_QUERIES: int := 100

  datatype Qualifier = Pass | Fail | SoftFail | Neutral

  datatype Kind = All | Include | Addr | Mail | Ptr | Net4 | Net6 | Exists

  /** Networks and CIDR lengths play no part in the walk. */
  datatype Mechanism = Mechanism(qualifier: Qualifier, kind: Kind, domain: string)

  datatype Record = Record(mechanisms: seq<Mechanism>, redirect: string)

  function KindText(k: Kind): string {
    match k
    case All => "all" case Include => "include" case Addr => "a" case Mail => "mx"
    case Ptr => "ptr" case Net4 => "ip4" case Net6 => "ip6" case Exists => "exists"
  }

  function Term(m: Mechanism): string {
    (match m.qualifier case Pass => "" case Fail => "-" case SoftFail => "~" case Neutral => "?") +
    KindText(m.kind) + if m.domain != "" then ":" + m.domain else ""
  }

  /** Section 4.6.4 of RFC 7208; redirect counts too, but is no mechanism. */
  predicate CountsLookup(m: Mechanism) { m.kind in {Include, Addr, Mail, Ptr, Exists} }

  function AllOf(ms: seq<Mechanism>): Option<Mechanism> {
    if ms == [] then None else if ms[0].kind == All then Some(ms[0]) else AllOf(ms[1..])
  }

  predicate HasMacro(ds: string) {
    exists i :: 0 <= i < |ds| - 1 && ds[i] == '%' && ds[i + 1] == '{'
  }

  function Lower(s: string): string {
    if s == "" then "" else [LowerChar(s[0])] + Lower(s[1..])
  }

  function TrimDot(s: string): string {
    if s != "" && s[|s| - 1] == '.' then s[..|s| - 1] else s
  }

  function Target(ds: string): string { TrimDot(Lower(ds)) }

  /** "v=spf1" followed by a space or nothing, in any case. */
  predicate IsSPF(txt: string) {
    |txt| >= 6 && Lower(txt[..6]) == "v=spf1" && (|txt| == 6 || txt[6] == ' ')
  }

  function SPFRecords(txts: seq<string>): seq<string> {
    if txts == [] then [] else (if IsSPF(txts[0]) then [txts[0]] else []) + SPFRecords(txts[1..])
  }

  // ----- the outside world ------------------------------------------------------------------

  datatype QType = QA | QAAAA | QMX | QTXT

  /** One response: how many records of the queried type, how many MX, and the TXT texts. */
  datatype Answer = Answer(records: nat, mx: nat, txts: seq<string>)

  /** Any DNS, cyclic or not: None is a failed query. Parsing and name canonicalisation are functions too. */
  datatype World = World(
    lookup: (string, QType) -> Option<Answer>,
    parse: string -> Result<Record, string>,
    canonical: string -> string)

  // ----- findings of an evaluation --------------------------------------------------------------

  datatype Complaint =
    | TooManyMX(term: string, target: string, n: nat)
    | Loops(via: string)
    | NoRecord(target: string)
    | ManyRecords(target: string, n: nat)
    | Invalid(target: string, error: string)

  datatype Problem = Problem(at: string, complaint: Complaint)

  datatype TermCost = TermCost(term: string, lookups: int)

  /** What evaluating some part of the tree contributes. */
  datatype Tally = Tally(
    lookups: nat,
    queries: nat,
    voids: seq<string>,
    unexpanded: seq<string>,
    permissive: seq<string>,
    problems: seq<Problem>)

  const ZERO: Tally := Tally(0, 0, [], [], [], [])
  const ONE_LOOKUP: Tally := ZERO.(lookups := 1)

  function Plus(a: Tally, b: Tally): Tally {
    Tally(a.lookups + b.lookups, a.queries + b.queries, a.voids + b.voids,
          a.unexpanded + b.unexpanded, a.permissive + b.permissive, a.problems + b.problems)
  }

  /** A record's contribution, and the "all" that applies to its sender. */
  datatype Verdict = Verdict(tally: Tally, effective: Option<Mechanism>)

  // ----- the meaning of a record, by recursion on the include/redirect tree -----------------------
  // path holds the names being evaluated; levels is how many more records may be nested.
  // None: a query failed, or the tree is deeper than levels.

  function EvalRecord(
    w: World, domain: string, rec: Record, at: string, path: set<string>, levels: nat, top: bool): Option<Verdict>
    decreases levels, 3, 0
  {
    match EvalMechanisms(w, domain, rec.mechanisms, at, path, levels)
    case None => None
    case Some(t) =>
      if AllOf(rec.mechanisms).Some? then Some(Verdict(t, AllOf(rec.mechanisms)))
      else if rec.redirect == "" then Some(Verdict(t, None))
      else match EvalRedirect(w, rec.redirect, path, levels, top)
        case None => None
        case Some(v) => Some(Verdict(Plus(t, v.tally), v.effective))
  }

  function EvalRedirect(w: World, redirect: string, path: set<string>, levels: nat, top: bool): Option<Verdict>
    decreases levels, 1, 0
  {
    if HasMacro(redirect) then Some(Verdict(ONE_LOOKUP.(unexpanded := ["redirect=" + redirect]), None))
    else match EvalFollow(w, Target(redirect), "redirect:" + Target(redirect), path, levels, top)
      case None => None
      case Some(v) => Some(Verdict(Plus(ONE_LOOKUP, v.tally), v.effective))
  }

  function EvalMechanisms(
    w: World, domain: string, ms: seq<Mechanism>, at: string, path: set<string>, levels: nat): Option<Tally>
    decreases levels, 2, |ms|
  {
    if ms == [] then Some(ZERO)
    else
      var m := ms[|ms| - 1];
      match EvalMechanisms(w, domain, ms[..|ms| - 1], at, path, levels)
      case None => None
      case Some(t) =>
        if !CountsLookup(m) then Some(t)
        else match EvalMechanism(w, domain, m, at, path, levels)
          case None => None
          case Some(u) => Some(Plus(t, u))
  }

  function EvalMechanism(
    w: World, domain: string, m: Mechanism, at: string, path: set<string>, levels: nat): Option<Tally>
    decreases levels, 1, 1
  {
    if HasMacro(m.domain) then Some(ONE_LOOKUP.(unexpanded := [Term(m)]))
    else match EvalTarget(w, if m.domain == "" then domain else Target(m.domain), m, at, path, levels)
      case None => None
      case Some(t) => Some(Plus(ONE_LOOKUP, t))
  }

  function EvalTarget(w: World, target: string, m: Mechanism, at: string, path: set<string>, levels: nat): Option<Tally>
    decreases levels, 1, 0
  {
    match m.kind
    case Include =>
      (match EvalFollow(w, target, "include:" + target, path, levels, false)
       case None => None
       case Some(v) => Some(v.tally))
    case Addr => EvalQueries(w, [QA, QAAAA], target, m)
    case Exists => EvalQueries(w, [QA], target, m)
    case Mail => EvalMail(w, target, m, at)
    case _ => Some(ZERO)
  }

  function EvalMail(w: World, target: string, m: Mechanism, at: string): Option<Tally> {
    match w.lookup(target, QMX)
    case None => None
    case Some(a) => Some(ZERO.(
      queries := 1,
      voids := if a.mx == 0 then [Term(m)] else [],
      problems := if a.mx > MAX_MX_NAMES then [Problem(at, TooManyMX(Term(m), target, a.mx))] else []))
  }

  function EvalQueries(w: World, qs: seq<QType>, target: string, m: Mechanism): Option<Tally> {
    if exists q :: q in qs && w.lookup(target, q).None? then None
    else Some(ZERO.(
      queries := |qs|,
      voids := if forall q :: q in qs ==> w.lookup(target, q).value.records == 0 then [Term(m)] else []))
  }

  function EvalFollow(w: World, target: string, via: string, path: set<string>, levels: nat, top: bool): Option<Verdict>
    decreases levels, 0, 0
  {
    var key := w.canonical(target);
    if key in path then Some(Verdict(ZERO.(problems := [Problem(via, Loops(via))]), None))
    else if levels == 0 then None
    else match FetchAt(w, target, via)
      case Broken => None
      case Dead(t) => Some(Verdict(t, None))
      case Live(sub) =>
        match EvalRecord(w, target, sub, via, path + {key}, levels - 1, top)
        case None => None
        case Some(v) => Some(Verdict(Plus(Arrival(sub, via, top), v.tally), v.effective))
  }

  /** Reaching a record costs one query, and is noted if an include's record passes everyone. */
  function Arrival(sub: Record, via: string, top: bool): Tally {
    ZERO.(queries := 1, permissive := if !top && PassesAll(sub) then [via] else [])
  }

  /** A name is asked for its record: the query fails, there is no usable record, or there is one. */
  datatype Fetched = Broken | Dead(tally: Tally) | Live(sub: Record)

  function FetchAt(w: World, target: string, via: string): Fetched {
    match w.lookup(target, QTXT)
    case None => Broken
    case Some(a) =>
      var records := SPFRecords(a.txts);
      var asked := ZERO.(queries := 1);
      if |records| == 0 then
        Dead(asked.(voids := if a.txts == [] then [via] else [], problems := [Problem(via, NoRecord(target))]))
      else if |records| > 1 then Dead(asked.(problems := [Problem(via, ManyRecords(target, |records|))]))
      else match w.parse(records[0])
        case Err(e) => Dead(asked.(problems := [Problem(via, Invalid(target, e))]))
        case Ok(sub) => Live(sub)
  }

  predicate PassesAll(rec: Record) {
    AllOf(rec.mechanisms).Some? && AllOf(rec.mechanisms).value.qualifier == Pass
  }

  /** What each counting term of the record costs. */
  function TermCosts(w: World, domain: string, ms: seq<Mechanism>, path: set<string>, levels: nat): seq<TermCost> {
    if ms == [] then []
    else
      var m := ms[|ms| - 1];
      var before := TermCosts(w, domain, ms[..|ms| - 1], path, levels);
      if !CountsLookup(m) then before
      else match EvalMechanism(w, domain, m, "", path, levels)
        case None => before
        case Some(t) => before + [TermCost(Term(m), t.lookups)]
  }

  // ----- the depth allowance does not change the meaning -------------------------------------------

  lemma {:induction false} MoreLevelsRecord(
    w: World, domain: string, rec: Record, at: string, path: set<string>, levels: nat, top: bool)
    requires EvalRecord(w, domain, rec, at, path, levels, top).Some?
    ensures EvalRecord(w, domain, rec, at, path, levels + 1, top) == EvalRecord(w, domain, rec, at, path, levels, top)
    decreases levels, 2, 0
  {
    MoreLevelsMechanisms(w, domain, rec.mechanisms, at, path, levels);
    if AllOf(rec.mechanisms).None? && rec.redirect != "" && !HasMacro(rec.redirect) {
      MoreLevelsFollow(w, Target(rec.redirect), "redirect:" + Target(rec.redirect), path, levels, top);
    }
  }

  lemma {:induction false} MoreLevelsMechanisms(
    w: World, domain: string, ms: seq<Mechanism>, at: string, path: set<string>, levels: nat)
    requires EvalMechanisms(w, domain, ms, at, path, levels).Some?
    ensures EvalMechanisms(w, domain, ms, at, path, levels + 1) == EvalMechanisms(w, domain, ms, at, path, levels)
    decreases levels, 1, |ms|
  {
    if ms != [] {
      MoreLevelsMechanisms(w, domain, ms[..|ms| - 1], at, path, levels);
      if CountsLookup(ms[|ms| - 1]) { MoreLevelsMechanism(w, domain, ms[|ms| - 1], at, path, levels); }
    }
  }

  lemma {:induction false} MoreLevelsMechanism(
    w: World, domain: string, m: Mechanism, at: string, path: set<string>, levels: nat)
    ensures EvalMechanism(w, domain, m, at, path, levels).Some? ==>
      EvalMechanism(w, domain, m, at, path, levels + 1) == EvalMechanism(w, domain, m, at, path, levels)
    decreases levels, 0, 1
  {
    var target := if m.domain == "" then domain else Target(m.domain);
    if m.kind == Include && !HasMacro(m.domain) && EvalMechanism(w, domain, m, at, path, levels).Some? {
      assert EvalTarget(w, target, m, at, path, levels).Some?;
      MoreLevelsFollow(w, target, "include:" + target, path, levels, false);
    }
  }

  lemma {:induction false} MoreLevelsFollow(
    w: World, target: string, via: string, path: set<string>, levels: nat, top: bool)
    requires EvalFollow(w, target, via, path, levels, top).Some?
    ensures EvalFollow(w, target, via, path, levels + 1, top) == EvalFollow(w, target, via, path, levels, top)
    decreases levels, 0, 0
  {
    var key := w.canonical(target);
    if key !in path {
      var f := FetchAt(w, target, via);
      if f.Live? { MoreLevelsRecord(w, target, f.sub, via, path + {key}, levels - 1, top); }
    }
  }

  /** A record has at most one meaning: any two allowances that suffice agree. */
  lemma {:induction false} MeaningIsUnique(
    w: World, domain: string, rec: Record, path: set<string>, levels: nat, more: nat)
    requires levels <= more
    requires EvalRecord(w, domain, rec, "", path, levels, true).Some?
    ensures EvalRecord(w, domain, rec, "", path, more, true) == EvalRecord(w, domain, rec, "", path, levels, true)
    decreases more - levels
  {
    if levels < more {
      MeaningIsUnique(w, domain, rec, path, levels, more - 1);
      MoreLevelsRecord(w, domain, rec, "", path, more - 1, true);
    }
  }
}
