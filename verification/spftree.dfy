/**
 * The include and redirect tree of an SPF record, and what is counted over it:
 * the rules of sections 4.6.4 and 6.1 of RFC 7208 said of the records visited.
 */
module SPFTree {
  import opened Core
  import opened SPF

  /**
   * A record published at domain: where each of its terms leads, and where its
   * redirect does. at says how it was reached.
   */
  datatype Tree = Tree(at: string, domain: string, rec: Record, terms: seq<Branch>, next: Branch)

  datatype Branch =
    | Nowhere                                        // there is nothing to follow
    | Loop(target: string)                           // back to a record being evaluated
    | Unpublished(target: string, silent: bool)      // no SPF record; silent: no TXT record at all
    | Several(target: string, n: nat)
    | Unreadable(target: string, error: string)
    | Leads(tree: Tree)

  // ----- texts ---------------------------------------------------------------------------------------

  /** "%{" occurs in the text. */
  predicate Macro(s: string) { exists i :: 0 <= i < |s| - 1 && MacroAt(s, i) }

  predicate MacroAt(s: string, i: int)
    requires 0 <= i < |s| - 1
  {
    s[i] == '%' && s[i + 1] == '{'
  }

  predicate SmallLetter(c: char, small: char) {
    if 'A' <= c <= 'Z' then small as int == c as int + 32 else small == c
  }

  /** The name a domain-spec without macros stands for: in small letters, and without a dot at the end. */
  predicate NameOf(ds: string, name: string) {
    && |name| == (if ds != "" && ds[|ds| - 1] == '.' then |ds| - 1 else |ds|)
    && forall i :: 0 <= i < |name| ==> SmallLetter(ds[i], name[i])
  }

  /** v=spf1, in any case, at the end or before a space. */
  predicate Published(txt: string) {
    && |txt| >= 6
    && txt[0] in "vV" && txt[1] == '=' && txt[2] in "sS" && txt[3] in "pP" && txt[4] in "fF" && txt[5] == '1'
    && (|txt| > 6 ==> txt[6] == ' ')
  }

  /** The text of a term: its qualifier unless it is "+", its kind, and its domain if it names one. */
  function Written(m: Mechanism): string {
    (if m.qualifier == Fail then "-" else if m.qualifier == SoftFail then "~"
     else if m.qualifier == Neutral then "?" else "") +
    (if m.kind == All then "all" else if m.kind == Include then "include" else if m.kind == Addr then "a"
     else if m.kind == Mail then "mx" else if m.kind == Ptr then "ptr" else if m.kind == Net4 then "ip4"
     else if m.kind == Net6 then "ip6" else "exists") +
    if m.domain == "" then "" else ":" + m.domain
  }

  // ----- the tree --------------------------------------------------------------------------------------

  /** The name a term asks about: its own domain, or that of the record. */
  ghost predicate Asks(domain: string, m: Mechanism, name: string) {
    if m.domain == "" then name == domain else NameOf(m.domain, name)
  }

  predicate NamesAll(rec: Record) { exists i :: 0 <= i < |rec.mechanisms| && rec.mechanisms[i].kind == All }

  /** The tree is what the DNS holds; path holds the names being evaluated. */
  ghost predicate Grown(w: World, t: Tree, path: set<string>)
    decreases t
  {
    && |t.terms| == |t.rec.mechanisms|
    && (forall i :: 0 <= i < |t.terms| ==> GrownTerm(w, t.domain, t.rec.mechanisms[i], t.terms[i], path))
    && if NamesAll(t.rec) || t.rec.redirect == "" || Macro(t.rec.redirect) then t.next == Nowhere
       else exists name :: NameOf(t.rec.redirect, name) && GrownBranch(w, name, "redirect:" + name, t.next, path)
  }

  /** Where a term leads: an include to its record; for the others the DNS has answered. */
  ghost predicate GrownTerm(w: World, domain: string, m: Mechanism, b: Branch, path: set<string>)
    decreases b, 1
  {
    if m.kind == Include && !Macro(m.domain) then
      exists name :: Asks(domain, m, name) && GrownBranch(w, name, "include:" + name, b, path)
    else
      && b == Nowhere
      && (!Macro(m.domain) ==> forall name :: Asks(domain, m, name) ==> Answered(w, m, name))
  }

  predicate Answered(w: World, m: Mechanism, name: string) {
    && (m.kind == Addr ==> w.lookup(name, QA).Some? && w.lookup(name, QAAAA).Some?)
    && (m.kind == Exists ==> w.lookup(name, QA).Some?)
    && (m.kind == Mail ==> w.lookup(name, QMX).Some?)
  }

  ghost predicate GrownBranch(w: World, target: string, via: string, b: Branch, path: set<string>)
    decreases b, 0
  {
    if w.canonical(target) in path then b == Loop(target)
    else
      var a := w.lookup(target, QTXT);
      a.Some? && match b
        case Unpublished(name, silent) =>
          && name == target && (silent <==> a.value.txts == [])
          && forall i :: 0 <= i < |a.value.txts| ==> !Published(a.value.txts[i])
        case Several(name, n) =>
          name == target && n == HowMany(a.value.txts) && n > 1
        case Unreadable(name, error) =>
          name == target && exists i :: OnlyPublished(a.value.txts, i) && w.parse(a.value.txts[i]) == Err(error)
        case Leads(t) =>
          && t.domain == target && t.at == via
          && (exists i :: OnlyPublished(a.value.txts, i) && w.parse(a.value.txts[i]) == Ok(t.rec))
          && Grown(w, t, path + {w.canonical(target)})
        case _ => false
  }

  /** How many of the texts are SPF records. */
  function HowMany(txts: seq<string>): nat {
    if txts == [] then 0 else HowMany(txts[1..]) + if Published(txts[0]) then 1 else 0
  }

  /** Text i is an SPF record and no other is. */
  predicate OnlyPublished(txts: seq<string>, i: int) {
    0 <= i < |txts| && forall j :: 0 <= j < |txts| ==> (Published(txts[j]) <==> j == i)
  }

  /** No more than so many names asked for one below the other. */
  ghost predicate NoDeeper(t: Tree, levels: nat)
    decreases t, 0
  {
    && (forall i :: 0 <= i < |t.terms| ==> BranchNoDeeper(t.terms[i], levels))
    && BranchNoDeeper(t.next, levels)
  }

  ghost predicate BranchNoDeeper(b: Branch, levels: nat)
    decreases b, 0
  {
    match b
    case Nowhere => true
    case Loop(_) => true
    case Leads(t) => levels > 0 && NoDeeper(t, levels - 1)
    case _ => levels > 0
  }

  // ----- what is counted -------------------------------------------------------------------------------

  /** The records visited, from the first on. */
  function Visited(t: Tree): seq<Record>
    decreases t
  {
    [t.rec] + VisitedFrom(t, |t.terms|) + match t.next case Leads(s) => Visited(s) case _ => []
  }

  function VisitedFrom(t: Tree, n: nat): seq<Record>
    requires n <= |t.terms|
    decreases t, n
  {
    if n == 0 then []
    else VisitedFrom(t, n - 1) + match t.terms[n - 1] case Leads(s) => Visited(s) case _ => []
  }

  /** Terms that cost a lookup (section 4.6.4): include, a, mx, ptr and exists. */
  function CountingTerms(ms: seq<Mechanism>): nat {
    |set i | 0 <= i < |ms| && ms[i].kind in {Include, Addr, Mail, Ptr, Exists}|
  }

  /** A redirect costs one too, if it applies: not beside an "all" (section 6.1). */
  function CountedIn(rec: Record): nat {
    CountingTerms(rec.mechanisms) + if rec.redirect != "" && !NamesAll(rec) then 1 else 0
  }

  function Counted(recs: seq<Record>): nat {
    if recs == [] then 0 else CountedIn(recs[0]) + Counted(recs[1..])
  }

  /** The first "all" of the record, if it has one. */
  ghost predicate FirstAll(rec: Record, all: Option<Mechanism>) {
    match all
    case None => !NamesAll(rec)
    case Some(m) => exists i ::
      && 0 <= i < |rec.mechanisms| && rec.mechanisms[i] == m && m.kind == All
      && forall j :: 0 <= j < i ==> rec.mechanisms[j].kind != All
  }

  /** The record at the end of the redirect chain. */
  function LastOnChain(t: Tree): Record
    decreases t
  {
    match t.next case Leads(s) => LastOnChain(s) case _ => t.rec
  }

  /** How many lookups, queries, void answers and terms left unexpanded. */
  datatype Counts = Counts(lookups: nat, queries: nat, voids: nat, unexpanded: nat)

  function And(a: Counts, b: Counts): Counts {
    Counts(a.lookups + b.lookups, a.queries + b.queries, a.voids + b.voids, a.unexpanded + b.unexpanded)
  }

  /** All addresses asked for are missing, or there is no MX. */
  ghost predicate ComesBackEmpty(w: World, domain: string, m: Mechanism) {
    forall name :: Asks(domain, m, name) ==>
      && (m.kind == Addr ==> Records(w, name, QA) == 0 && Records(w, name, QAAAA) == 0)
      && (m.kind == Exists ==> Records(w, name, QA) == 0)
      && (m.kind == Mail ==> MXs(w, name) == 0)
  }

  function Records(w: World, name: string, q: QType): nat {
    match w.lookup(name, q) case None => 0 case Some(a) => a.records
  }

  function MXs(w: World, name: string): nat {
    match w.lookup(name, QMX) case None => 0 case Some(a) => a.mx
  }

  /** What term i costs, with all it leads to. */
  ghost function TermTotal(w: World, t: Tree, i: int): Counts
    requires 0 <= i < |t.terms| == |t.rec.mechanisms|
    decreases t, 0, 0
  {
    var m := t.rec.mechanisms[i];
    if m.kind !in {Include, Addr, Mail, Ptr, Exists} then Counts(0, 0, 0, 0)
    else if Macro(m.domain) then Counts(1, 0, 0, 1)
    else if m.kind == Include then And(Counts(1, 0, 0, 0), BranchTotal(w, t.terms[i]))
    else if m.kind == Ptr then Counts(1, 0, 0, 0)
    else Counts(1, if m.kind == Addr then 2 else 1, if ComesBackEmpty(w, t.domain, m) then 1 else 0, 0)
  }

  ghost function BranchTotal(w: World, b: Branch): Counts
    decreases b, 0
  {
    match b
    case Leads(t) => And(Counts(0, 1, 0, 0), Total(w, t))
    case Unpublished(_, silent) => Counts(0, 1, if silent then 1 else 0, 0)
    case Several(_, _) => Counts(0, 1, 0, 0)
    case Unreadable(_, _) => Counts(0, 1, 0, 0)
    case _ => Counts(0, 0, 0, 0)
  }

  ghost function TermsTotal(w: World, t: Tree, n: nat): Counts
    requires n <= |t.terms| == |t.rec.mechanisms|
    decreases t, 1, n
  {
    if n == 0 then Counts(0, 0, 0, 0) else And(TermsTotal(w, t, n - 1), TermTotal(w, t, n - 1))
  }

  ghost function RedirectTotal(w: World, t: Tree): Counts
    decreases t, 0
  {
    if NamesAll(t.rec) || t.rec.redirect == "" then Counts(0, 0, 0, 0)
    else if Macro(t.rec.redirect) then Counts(1, 0, 0, 1)
    else And(Counts(1, 0, 0, 0), BranchTotal(w, t.next))
  }

  /** The whole tree's. */
  ghost function Total(w: World, t: Tree): Counts
    decreases t, 2
  {
    if |t.terms| != |t.rec.mechanisms| then Counts(0, 0, 0, 0)
    else And(TermsTotal(w, t, |t.terms|), RedirectTotal(w, t))
  }

  // ----- the texts are those of the evaluator -----------------------------------------------------------

  lemma MacroMeans(s: string)
    ensures HasMacro(s) <==> Macro(s)
  {
    if HasMacro(s) {
      var i :| 0 <= i < |s| - 1 && s[i] == '%' && s[i + 1] == '{';
      assert MacroAt(s, i);
    }
  }

  lemma {:induction false} LowerMeans(s: string)
    ensures |Lower(s)| == |s| && forall i :: 0 <= i < |s| ==> SmallLetter(s[i], Lower(s)[i])
  {
    if s != "" { LowerMeans(s[1..]); }
  }

  lemma NameIsTarget(ds: string, name: string)
    ensures NameOf(ds, name) <==> name == Target(ds)
  {
    LowerMeans(ds);
    var low, t := Lower(ds), Target(ds);
    hide Lower;
    if ds != "" { assert SmallLetter(ds[|ds| - 1], low[|ds| - 1]); }
    assert (ds != "" && ds[|ds| - 1] == '.') <==> (low != "" && low[|low| - 1] == '.');
    if NameOf(ds, name) {
      assert |name| == |t|;
      forall i | 0 <= i < |name| ensures name[i] == t[i] {
        assert SmallLetter(ds[i], name[i]) && SmallLetter(ds[i], low[i]);
      }
    }
  }

  lemma PublishedMeans(txt: string)
    ensures IsSPF(txt) <==> Published(txt)
  {
    if |txt| >= 6 {
      var six := txt[..6];
      LowerMeans(six);
      hide Lower;
      assert Lower(six) == "v=spf1" <==> forall i :: 0 <= i < 6 ==> Lower(six)[i] == "v=spf1"[i];
      assert forall i :: 0 <= i < 6 ==> SmallLetter(txt[i], Lower(six)[i]) by {
        assert forall i :: 0 <= i < 6 ==> six[i] == txt[i];
      }
      assert SmallLetter(txt[0], Lower(six)[0]) && SmallLetter(txt[1], Lower(six)[1]);
      assert SmallLetter(txt[2], Lower(six)[2]) && SmallLetter(txt[3], Lower(six)[3]);
      assert SmallLetter(txt[4], Lower(six)[4]) && SmallLetter(txt[5], Lower(six)[5]);
      assert "v=spf1"[0] == 'v' && "v=spf1"[1] == '=' && "v=spf1"[2] == 's';
      assert "v=spf1"[3] == 'p' && "v=spf1"[4] == 'f' && "v=spf1"[5] == '1';
      var low := Lower(six);
      assert low == "v=spf1" <==>
        low[0] == 'v' && low[1] == '=' && low[2] == 's' && low[3] == 'p' && low[4] == 'f' && low[5] == '1';
    }
  }

  lemma WrittenMeans(m: Mechanism)
    ensures Term(m) == Written(m)
  {
  }

  lemma {:induction false} AllMeans(ms: seq<Mechanism>, redirect: string)
    ensures FirstAll(Record(ms, redirect), AllOf(ms))
    ensures AllOf(ms).Some? <==> NamesAll(Record(ms, redirect))
  {
    var rec := Record(ms, redirect);
    if ms != [] {
      if ms[0].kind == All {
        assert rec.mechanisms[0] == ms[0];
      } else {
        AllMeans(ms[1..], redirect);
        var rest := Record(ms[1..], redirect);
        assert forall i :: 0 <= i < |ms[1..]| ==> rest.mechanisms[i] == rec.mechanisms[i + 1];
        if NamesAll(rec) {
          var i :| 0 <= i < |ms| && ms[i].kind == All;
          assert rest.mechanisms[i - 1].kind == All;
        }
        match AllOf(ms[1..])
        case None =>
        case Some(m) =>
          var i :| 0 <= i < |ms[1..]| && ms[1..][i] == m && m.kind == All &&
                   forall j :: 0 <= j < i ==> ms[1..][j].kind != All;
          assert rec.mechanisms[i + 1] == m;
          forall j | 0 <= j < i + 1 ensures rec.mechanisms[j].kind != All {
            if j > 0 { assert ms[1..][j - 1].kind != All; }
          }
      }
    }
  }

  lemma RecordsStep(txts: seq<string>)
    ensures txts == [] ==> HowMany(txts) == 0 && SPFRecords(txts) == []
    ensures txts != [] ==> HowMany(txts) == HowMany(txts[1..]) + if Published(txts[0]) then 1 else 0
    ensures txts != [] ==> SPFRecords(txts) == (if IsSPF(txts[0]) then [txts[0]] else []) + SPFRecords(txts[1..])
  {
    hide Published, IsSPF;
  }

  lemma {:induction false} RecordsMean(txts: seq<string>)
    ensures |SPFRecords(txts)| == HowMany(txts)
    ensures HowMany(txts) == 0 <==> forall i :: 0 <= i < |txts| ==> !Published(txts[i])
    ensures forall i :: OnlyPublished(txts, i) ==> SPFRecords(txts) == [txts[i]]
    ensures HowMany(txts) == 1 ==> exists i :: OnlyPublished(txts, i)
  {
    hide Published, IsSPF, HowMany, SPFRecords;
    RecordsStep(txts);
    if txts != [] {
      var rest := txts[1..];
      RecordsMean(rest);
      PublishedMeans(txts[0]);
      assert forall i :: 0 < i < |txts| ==> txts[i] == rest[i - 1];
      assert forall i :: 0 <= i < |rest| ==> rest[i] == txts[i + 1];
      forall i | OnlyPublished(txts, i) ensures SPFRecords(txts) == [txts[i]] {
        if i > 0 {
          assert OnlyPublished(rest, i - 1);
        } else {
          assert forall j :: 0 <= j < |rest| ==> !Published(rest[j]);
        }
      }
      if HowMany(txts) == 1 {
        if Published(txts[0]) {
          assert OnlyPublished(txts, 0);
        } else {
          var i :| OnlyPublished(rest, i);
          assert OnlyPublished(txts, i + 1);
        }
      }
    }
  }

  // ----- a tree is what the evaluator adds up -------------------------------------------------------------

  ghost predicate Adds(t: Tally, c: Counts) {
    t.lookups == c.lookups && t.queries == c.queries && |t.voids| == c.voids && |t.unexpanded| == c.unexpanded
  }

  lemma {:induction false} AddsUp(t: Tally, c: Counts, u: Tally, d: Counts)
    requires Adds(t, c) && Adds(u, d)
    ensures Adds(Plus(t, u), And(c, d))
  {
  }

  /** What a name is found to hold decides the branch. */
  lemma {:induction false} FetchedBranch(w: World, target: string, via: string, b: Branch, path: set<string>)
    requires GrownBranch(w, target, via, b, path) && w.canonical(target) !in path
    ensures
      match FetchAt(w, target, via)
      case Broken => false
      case Dead(t) => !b.Leads? && Adds(t, BranchTotal(w, b)) && !b.Loop? && b != Nowhere
      case Live(sub) => b.Leads? && b.tree.rec == sub && b.tree.domain == target && b.tree.at == via
  {
    var txts := w.lookup(target, QTXT).value.txts;
    RecordsMean(txts);
    hide Published, IsSPF, SPFRecords, Grown;
    match b
    case Unreadable(_, error) =>
      var i :| OnlyPublished(txts, i) && w.parse(txts[i]) == Err(error);
    case Leads(t) =>
      var i :| OnlyPublished(txts, i) && w.parse(txts[i]) == Ok(t.rec);
    case _ =>
  }

  lemma {:induction false} SumsOfBranch(
    w: World, target: string, via: string, b: Branch, path: set<string>, levels: nat, top: bool)
    requires GrownBranch(w, target, via, b, path) && BranchNoDeeper(b, levels)
    ensures
      var v := EvalFollow(w, target, via, path, levels, top);
      && v.Some? && Adds(v.value.tally, BranchTotal(w, b))
      && (if b.Leads? then FirstAll(LastOnChain(b.tree), v.value.effective) else v.value.effective == None)
    decreases b, 1
  {
    hide Grown, NoDeeper, Total, EvalRecord, FirstAll, SPFRecords, FetchAt, PassesAll;
    if w.canonical(target) !in path {
      FetchedBranch(w, target, via, b, path);
      if b.Leads? {
        var sub := b.tree;
        GrownLeads(w, target, via, b, path);
        SumsOfRecord(w, sub, path + {w.canonical(target)}, levels - 1, top);
      }
    }
  }

  lemma {:induction false} GrownLeads(w: World, target: string, via: string, b: Branch, path: set<string>)
    requires GrownBranch(w, target, via, b, path) && b.Leads? && w.canonical(target) !in path
    ensures Grown(w, b.tree, path + {w.canonical(target)})
  {
  }

  lemma {:induction false} SumsOfTerms(w: World, t: Tree, n: nat, path: set<string>, levels: nat)
    requires Grown(w, t, path) && NoDeeper(t, levels) && n <= |t.terms|
    ensures
      var v := EvalMechanisms(w, t.domain, t.rec.mechanisms[..n], t.at, path, levels);
      v.Some? && Adds(v.value, TermsTotal(w, t, n))
    decreases t, 1, n
  {
    assert |t.terms| == |t.rec.mechanisms|;
    OneAdds();
    hide EvalMechanism, CountsLookup, TermTotal, NoDeeper, GrownTerm, Grown, Adds;
    if n > 0 {
      var ms := t.rec.mechanisms;
      assert ms[..n][..n - 1] == ms[..n - 1];
      SumsOfTerms(w, t, n - 1, path, levels);
      SumsOfTerm(w, t, n - 1, path, levels);
      var v := EvalMechanisms(w, t.domain, ms[..n - 1], t.at, path, levels);
      if CountsLookup(ms[n - 1]) {
        var u := EvalMechanism(w, t.domain, ms[n - 1], t.at, path, levels);
        AddsUp(v.value, TermsTotal(w, t, n - 1), u.value, TermTotal(w, t, n - 1));
      }
    }
  }

  lemma {:induction false} SumsOfTerm(w: World, t: Tree, i: int, path: set<string>, levels: nat)
    requires Grown(w, t, path) && NoDeeper(t, levels) && 0 <= i < |t.terms|
    ensures
      var m := t.rec.mechanisms[i];
      var u := EvalMechanism(w, t.domain, m, t.at, path, levels);
      if CountsLookup(m) then u.Some? && Adds(u.value, TermTotal(w, t, i))
      else TermTotal(w, t, i) == Counts(0, 0, 0, 0)
    decreases t, 0, 0
  {
    assert |t.terms| == |t.rec.mechanisms|;
    assert GrownTerm(w, t.domain, t.rec.mechanisms[i], t.terms[i], path) && BranchNoDeeper(t.terms[i], levels);
    hide Grown, NoDeeper, Macro, HasMacro, Target, Asks, GrownBranch, BranchNoDeeper, BranchTotal, GrownTerm, Term;
    hide ComesBackEmpty, Answered, EvalMechanism, EvalTarget, Adds, TermTotal;
    var m := t.rec.mechanisms[i];
    var name := AskedName(t.domain, m);
    MacroMeans(m.domain);
    MechanismIs(w, t.domain, m, t.at, path, levels, name);
    TotalIs(w, t, i);
    hide CountsLookup;
    if CountsLookup(m) {
      if HasMacro(m.domain) { MacroAdds(m); } else { SumsOfTarget(w, t, i, path, levels, name); }
    }
  }

  lemma {:induction false} SumsOfTarget(
    w: World, t: Tree, i: int, path: set<string>, levels: nat, name: string)
    requires 0 <= i < |t.terms| == |t.rec.mechanisms|
    requires GrownTerm(w, t.domain, t.rec.mechanisms[i], t.terms[i], path) && BranchNoDeeper(t.terms[i], levels)
    requires CountsLookup(t.rec.mechanisms[i]) && !Macro(t.rec.mechanisms[i].domain)
    requires forall other :: Asks(t.domain, t.rec.mechanisms[i], other) <==> other == name
    ensures
      var u := EvalTarget(w, name, t.rec.mechanisms[i], t.at, path, levels);
      u.Some? && Adds(Plus(ONE_LOOKUP, u.value), TermTotal(w, t, i))
    decreases t.terms[i], 3
  {
    hide Macro, Asks, GrownBranch, BranchNoDeeper, BranchTotal, GrownTerm, Term, ComesBackEmpty, Answered;
    hide EvalTarget, Adds, TermTotal, Plus;
    var m := t.rec.mechanisms[i];
    TotalIs(w, t, i);
    if m.kind == Include {
      SumsOfInclude(w, t, i, name, path, levels);
    } else if m.kind != Ptr {
      IsAnswered(w, t, i, path, name);
      SumsOfQueries(w, t.domain, m, name, t.at, path, levels);
    } else {
      PtrAsksNothing(w, m, name, t.at, path, levels);
      PtrAdds();
    }
  }

  lemma {:induction false} MechanismIs(
    w: World, domain: string, m: Mechanism, at: string, path: set<string>, levels: nat, name: string)
    requires name == if m.domain == "" then domain else Target(m.domain)
    ensures
      var (u, t) := (EvalMechanism(w, domain, m, at, path, levels), EvalTarget(w, name, m, at, path, levels));
      if HasMacro(m.domain) then u == Some(ONE_LOOKUP.(unexpanded := [Term(m)]))
      else if t.None? then u.None?
      else u == Some(Plus(ONE_LOOKUP, t.value))
  {
    hide EvalTarget, Target, HasMacro, Term;
  }

  lemma {:induction false} TotalIs(w: World, t: Tree, i: int)
    requires 0 <= i < |t.terms| == |t.rec.mechanisms|
    ensures
      var m := t.rec.mechanisms[i];
      TermTotal(w, t, i) ==
        if !CountsLookup(m) then Counts(0, 0, 0, 0)
        else if Macro(m.domain) then Counts(1, 0, 0, 1)
        else if m.kind == Include then And(Counts(1, 0, 0, 0), BranchTotal(w, t.terms[i]))
        else if m.kind == Ptr then Counts(1, 0, 0, 0)
        else Counts(1, if m.kind == Addr then 2 else 1, if ComesBackEmpty(w, t.domain, m) then 1 else 0, 0)
  {
    hide Macro, BranchTotal, ComesBackEmpty;
  }

  lemma PtrAdds()
    ensures Adds(Plus(ONE_LOOKUP, ZERO), Counts(1, 0, 0, 0))
  {
    OneAdds();
    AddsUp(ONE_LOOKUP, Counts(1, 0, 0, 0), ZERO, Counts(0, 0, 0, 0));
    hide Plus, Adds;
  }

  lemma OneAdds()
    ensures Adds(ONE_LOOKUP, Counts(1, 0, 0, 0)) && Adds(ZERO, Counts(0, 0, 0, 0))
  {
  }

  lemma RedirectMacroAdds(term: string)
    ensures Adds(ONE_LOOKUP.(unexpanded := [term]), Counts(1, 0, 0, 1))
  {
  }

  lemma {:induction false} MacroAdds(m: Mechanism)
    ensures Adds(ONE_LOOKUP.(unexpanded := [Term(m)]), Counts(1, 0, 0, 1))
  {
  }

  lemma {:induction false} IsAnswered(w: World, t: Tree, i: int, path: set<string>, name: string)
    requires 0 <= i < |t.terms| == |t.rec.mechanisms| && GrownTerm(w, t.domain, t.rec.mechanisms[i], t.terms[i], path)
    requires t.rec.mechanisms[i].kind != Include && !Macro(t.rec.mechanisms[i].domain)
    requires Asks(t.domain, t.rec.mechanisms[i], name)
    ensures Answered(w, t.rec.mechanisms[i], name)
  {
  }

  lemma {:induction false} PtrAsksNothing(
    w: World, m: Mechanism, name: string, at: string, path: set<string>, levels: nat
  )
    requires m.kind == Ptr
    ensures EvalTarget(w, name, m, at, path, levels) == Some(ZERO)
  {
  }

  lemma {:induction false} SumsOfInclude(
    w: World, t: Tree, i: int, name: string, path: set<string>, levels: nat)
    requires 0 <= i < |t.terms| == |t.rec.mechanisms|
    requires GrownTerm(w, t.domain, t.rec.mechanisms[i], t.terms[i], path) && BranchNoDeeper(t.terms[i], levels)
    requires t.rec.mechanisms[i].kind == Include && !Macro(t.rec.mechanisms[i].domain)
    requires forall other :: Asks(t.domain, t.rec.mechanisms[i], other) <==> other == name
    ensures
      var u := EvalTarget(w, name, t.rec.mechanisms[i], t.at, path, levels);
      u.Some? && Adds(Plus(ONE_LOOKUP, u.value), And(Counts(1, 0, 0, 0), BranchTotal(w, t.terms[i])))
    decreases t.terms[i], 2
  {
    hide Macro, Asks, EvalFollow, GrownBranch, BranchNoDeeper, BranchTotal;
    var m := t.rec.mechanisms[i];
    var n :| Asks(t.domain, m, n) && GrownBranch(w, n, "include:" + n, t.terms[i], path);
    SumsOfBranch(w, name, "include:" + name, t.terms[i], path, levels, false);
    var v := EvalFollow(w, name, "include:" + name, path, levels, false);
    AddsUp(ONE_LOOKUP, Counts(1, 0, 0, 0), v.value.tally, BranchTotal(w, t.terms[i]));
  }

  /** The name a term asks about. */
  lemma {:induction false} AskedName(domain: string, m: Mechanism) returns (name: string)
    ensures name == if m.domain == "" then domain else Target(m.domain)
    ensures forall other :: Asks(domain, m, other) <==> other == name
  {
    name := if m.domain == "" then domain else Target(m.domain);
    forall other ensures Asks(domain, m, other) <==> other == name { NameIsTarget(m.domain, other); }
  }

  lemma {:induction false} SumsOfQueries(
    w: World, domain: string, m: Mechanism, name: string, at: string, path: set<string>, levels: nat)
    requires m.kind in {Addr, Exists, Mail} && Answered(w, m, name)
    requires forall other :: Asks(domain, m, other) <==> other == name
    ensures
      var t := EvalTarget(w, name, m, at, path, levels);
      t.Some? && Adds(Plus(ONE_LOOKUP, t.value),
                      Counts(1, if m.kind == Addr then 2 else 1, if ComesBackEmpty(w, domain, m) then 1 else 0, 0))
  {
    EmptyMeans(w, domain, m, name);
    OneAdds();
    QueriesAdd(w, domain, m, name, at, path, levels);
    var t := EvalTarget(w, name, m, at, path, levels).value;
    hide Asks, EvalTarget, Term, ComesBackEmpty, Adds, Answered;
    AddsUp(ONE_LOOKUP, Counts(1, 0, 0, 0), t,
           Counts(0, if m.kind == Addr then 2 else 1, if ComesBackEmpty(w, domain, m) then 1 else 0, 0));
  }

  lemma {:induction false} QueriesAdd(
    w: World, domain: string, m: Mechanism, name: string, at: string, path: set<string>, levels: nat)
    requires m.kind in {Addr, Exists, Mail} && Answered(w, m, name)
    requires forall other :: Asks(domain, m, other) <==> other == name
    ensures
      var t := EvalTarget(w, name, m, at, path, levels);
      var own := Counts(0, if m.kind == Addr then 2 else 1, if ComesBackEmpty(w, domain, m) then 1 else 0, 0);
      t.Some? && Adds(t.value, own)
  {
    EmptyMeans(w, domain, m, name);
    hide Asks, EvalFollow, Term, ComesBackEmpty;
    assert forall q :: q in [QA, QAAAA] <==> q == QA || q == QAAAA;
    assert forall q :: q in [QA] <==> q == QA;
  }

  lemma {:induction false} EmptyMeans(w: World, domain: string, m: Mechanism, name: string)
    requires forall other :: Asks(domain, m, other) <==> other == name
    ensures ComesBackEmpty(w, domain, m) <==>
      && (m.kind == Addr ==> Records(w, name, QA) == 0 && Records(w, name, QAAAA) == 0)
      && (m.kind == Exists ==> Records(w, name, QA) == 0)
      && (m.kind == Mail ==> MXs(w, name) == 0)
  {
    assert Asks(domain, m, name);
    hide Asks;
  }

  lemma {:induction false} SumsOfRecord(w: World, t: Tree, path: set<string>, levels: nat, top: bool)
    requires Grown(w, t, path) && NoDeeper(t, levels)
    ensures
      var v := EvalRecord(w, t.domain, t.rec, t.at, path, levels, top);
      v.Some? && Adds(v.value.tally, Total(w, t)) && FirstAll(LastOnChain(t), v.value.effective)
    decreases t, 2
  {
    hide EvalMechanisms, EvalFollow, Macro, HasMacro, Target, NameOf, AllOf, TermsTotal, GrownBranch;
    hide BranchTotal, BranchNoDeeper;
    var ms := t.rec.mechanisms;
    SumsOfTerms(w, t, |ms|, path, levels);
    assert ms[..|ms|] == ms;
    AllMeans(ms, t.rec.redirect);
    MacroMeans(t.rec.redirect);
    assert t.rec == Record(ms, t.rec.redirect);
    OneAdds();
    RedirectMacroAdds("redirect=" + t.rec.redirect);
    hide FirstAll, NamesAll, Adds;
    if !NamesAll(t.rec) && t.rec.redirect != "" && !Macro(t.rec.redirect) {
      var name :| NameOf(t.rec.redirect, name) && GrownBranch(w, name, "redirect:" + name, t.next, path);
      NameIsTarget(t.rec.redirect, name);
      SumsOfBranch(w, name, "redirect:" + name, t.next, path, levels, top);
      var v := EvalFollow(w, name, "redirect:" + name, path, levels, top);
      AddsUp(ONE_LOOKUP, Counts(1, 0, 0, 0), v.value.tally, BranchTotal(w, t.next));
      AddsUp(EvalMechanisms(w, t.domain, ms, t.at, path, levels).value, TermsTotal(w, t, |ms|),
             Plus(ONE_LOOKUP, v.value.tally), And(Counts(1, 0, 0, 0), BranchTotal(w, t.next)));
    }
  }

  // ----- the evaluator grows a tree ----------------------------------------------------------------------

  lemma {:induction false} GrowRecord(
    w: World, domain: string, rec: Record, at: string, path: set<string>, levels: nat, top: bool) returns (t: Tree)
    requires EvalRecord(w, domain, rec, at, path, levels, top).Some?
    ensures t.at == at && t.domain == domain && t.rec == rec && Grown(w, t, path) && NoDeeper(t, levels)
    decreases levels, 3, 0
  {
    var ms := rec.mechanisms;
    AllMeans(ms, rec.redirect);
    MacroMeans(rec.redirect);
    assert rec == Record(ms, rec.redirect) && ms[..|ms|] == ms;
    var terms := GrowTerms(w, domain, ms, |ms|, at, path, levels);
    var next := Nowhere;
    if !NamesAll(rec) && rec.redirect != "" && !Macro(rec.redirect) {
      var name := Target(rec.redirect);
      NameIsTarget(rec.redirect, name);
      next := GrowBranch(w, name, "redirect:" + name, path, levels, top);
    }
    t := Tree(at, domain, rec, terms, next);
    hide GrownTerm, GrownBranch, BranchNoDeeper, Macro, NamesAll, NameOf, FirstAll, AllOf, Target;
  }

  lemma {:induction false} GrowTerms(
    w: World, domain: string, ms: seq<Mechanism>, n: nat, at: string, path: set<string>, levels: nat)
    returns (bs: seq<Branch>)
    requires n <= |ms| && EvalMechanisms(w, domain, ms[..n], at, path, levels).Some?
    ensures |bs| == n
    ensures forall i :: 0 <= i < n ==> GrownTerm(w, domain, ms[i], bs[i], path) && BranchNoDeeper(bs[i], levels)
    decreases levels, 2, n
  {
    hide GrownTerm, BranchNoDeeper, EvalMechanism;
    if n == 0 {
      bs := [];
    } else {
      assert ms[..n][..n - 1] == ms[..n - 1];
      var before := GrowTerms(w, domain, ms, n - 1, at, path, levels);
      var b := GrowTerm(w, domain, ms[n - 1], at, path, levels);
      bs := before + [b];
    }
  }

  lemma {:induction false} GrowTerm(
    w: World, domain: string, m: Mechanism, at: string, path: set<string>, levels: nat) returns (b: Branch)
    requires CountsLookup(m) ==> EvalMechanism(w, domain, m, at, path, levels).Some?
    ensures GrownTerm(w, domain, m, b, path) && BranchNoDeeper(b, levels)
    decreases levels, 1, 1
  {
    hide Macro, HasMacro, Asks, EvalMechanism, GrownBranch, EvalFollow, EvalTarget, Answered, Term;
    hide BranchNoDeeper, Target;
    var name := AskedName(domain, m);
    MacroMeans(m.domain);
    MechanismIs(w, domain, m, at, path, levels, name);
    NowhereIsNoDeeper(levels);
    b := Nowhere;
    if m.kind == Include && !HasMacro(m.domain) {
      IncludeFollows(w, m, name, at, path, levels);
      b := GrowBranch(w, name, "include:" + name, path, levels, false);
      assert Asks(domain, m, name);
    } else if !HasMacro(m.domain) {
      if CountsLookup(m) { HasAnswered(w, m, name, at, path, levels); } else { NotAsked(w, m, name); }
    }
  }

  lemma NowhereIsNoDeeper(levels: nat)
    ensures BranchNoDeeper(Nowhere, levels)
  {
  }

  lemma NotAsked(w: World, m: Mechanism, name: string)
    requires !CountsLookup(m)
    ensures Answered(w, m, name)
  {
  }

  lemma {:induction false} IncludeFollows(
    w: World, m: Mechanism, name: string, at: string, path: set<string>, levels: nat)
    requires m.kind == Include && EvalTarget(w, name, m, at, path, levels).Some?
    ensures EvalFollow(w, name, "include:" + name, path, levels, false).Some?
  {
    hide EvalFollow;
  }

  lemma {:induction false} HasAnswered(
    w: World, m: Mechanism, name: string, at: string, path: set<string>, levels: nat)
    requires m.kind != Include && EvalTarget(w, name, m, at, path, levels).Some?
    ensures Answered(w, m, name)
  {
    hide EvalFollow, Term;
    assert QA in [QA, QAAAA] && QAAAA in [QA, QAAAA] && QA in [QA];
  }

  lemma {:induction false} GrowBranch(
    w: World, target: string, via: string, path: set<string>, levels: nat, top: bool) returns (b: Branch)
    requires EvalFollow(w, target, via, path, levels, top).Some?
    ensures GrownBranch(w, target, via, b, path) && BranchNoDeeper(b, levels)
    decreases levels, 0, 0
  {
    hide EvalRecord, Grown, NoDeeper, Published, IsSPF;
    if w.canonical(target) in path { return Loop(target); }
    var txts := w.lookup(target, QTXT).value.txts;
    RecordsMean(txts);
    hide SPFRecords;
    if HowMany(txts) == 0 {
      b := Unpublished(target, txts == []);
    } else if HowMany(txts) > 1 {
      b := Several(target, HowMany(txts));
    } else {
      var i :| OnlyPublished(txts, i);
      match w.parse(txts[i])
      case Err(error) => b := Unreadable(target, error);
      case Ok(sub) =>
        var t := GrowRecord(w, target, sub, via, path + {w.canonical(target)}, levels - 1, top);
        b := Leads(t);
    }
  }

  // ----- lookups are counted over the records visited ---------------------------------------------------

  lemma {:induction false} CountedInTwo(a: seq<Record>, b: seq<Record>)
    ensures Counted(a + b) == Counted(a) + Counted(b)
  {
    hide CountedIn;
    if a == [] {
      assert a + b == b;
    } else {
      assert (a + b)[1..] == a[1..] + b;
      CountedInTwo(a[1..], b);
    }
  }

  /** The counting terms among the first n. */
  function CountingAmong(ms: seq<Mechanism>, n: nat): nat
    requires n <= |ms|
  {
    |set i | 0 <= i < n && ms[i].kind in {Include, Addr, Mail, Ptr, Exists}|
  }

  lemma OneMoreCounting(ms: seq<Mechanism>, n: nat)
    requires n < |ms|
    ensures CountingAmong(ms, n + 1) == CountingAmong(ms, n) + if CountsLookup(ms[n]) then 1 else 0
  {
    var before := set i | 0 <= i < n && ms[i].kind in {Include, Addr, Mail, Ptr, Exists};
    var after := set i | 0 <= i < n + 1 && ms[i].kind in {Include, Addr, Mail, Ptr, Exists};
    assert after == before + if CountsLookup(ms[n]) then {n} else {};
  }

  function VisitedBeyond(b: Branch): seq<Record> { match b case Leads(t) => Visited(t) case _ => [] }

  lemma {:induction false} LookupsOfBranch(w: World, target: string, via: string, b: Branch, path: set<string>)
    requires GrownBranch(w, target, via, b, path)
    ensures BranchTotal(w, b).lookups == Counted(VisitedBeyond(b))
    decreases b, 1
  {
    hide Grown, Total, Visited;
    if b.Leads? {
      assert w.canonical(target) !in path;
      LookupsAreCounted(w, b.tree, path + {w.canonical(target)});
    }
  }

  lemma {:induction false} LookupsOfTerms(w: World, t: Tree, n: nat, path: set<string>)
    requires Grown(w, t, path) && n <= |t.terms|
    ensures TermsTotal(w, t, n).lookups == CountingAmong(t.rec.mechanisms, n) + Counted(VisitedFrom(t, n))
    decreases t, 1, n
  {
    hide TermTotal, TermsTotal, CountingAmong, Counted, Grown, Visited, VisitedFrom, VisitedBeyond, CountsLookup;
    GrownShape(w, t, path);
    VisitedStep(t, n);
    TotalStep(w, t, n);
    if n == 0 {
      NothingCounted(t.rec.mechanisms);
    } else {
      LookupsOfTerms(w, t, n - 1, path);
      LookupsOfTerm(w, t, n - 1, path);
      OneMoreCounting(t.rec.mechanisms, n - 1);
      CountedInTwo(VisitedFrom(t, n - 1), VisitedBeyond(t.terms[n - 1]));
    }
  }

  lemma {:induction false} GrownShape(w: World, t: Tree, path: set<string>)
    requires Grown(w, t, path)
    ensures |t.terms| == |t.rec.mechanisms|
  {
  }

  lemma {:induction false} TotalStep(w: World, t: Tree, n: nat)
    requires n <= |t.terms| == |t.rec.mechanisms|
    ensures TermsTotal(w, t, 0).lookups == 0
    ensures n > 0 ==> TermsTotal(w, t, n).lookups == TermsTotal(w, t, n - 1).lookups + TermTotal(w, t, n - 1).lookups
  {
    hide TermTotal;
  }

  lemma {:induction false} VisitedStep(t: Tree, n: nat)
    requires n <= |t.terms|
    ensures VisitedFrom(t, 0) == []
    ensures n > 0 ==> VisitedFrom(t, n) == VisitedFrom(t, n - 1) + VisitedBeyond(t.terms[n - 1])
  {
  }

  lemma NothingCounted(ms: seq<Mechanism>)
    ensures CountingAmong(ms, 0) == 0 && Counted([]) == 0
  {
  }

  lemma {:induction false} LookupsOfTerm(w: World, t: Tree, i: int, path: set<string>)
    requires Grown(w, t, path) && 0 <= i < |t.terms|
    ensures TermTotal(w, t, i).lookups ==
      (if CountsLookup(t.rec.mechanisms[i]) then 1 else 0) + Counted(VisitedBeyond(t.terms[i]))
    decreases t, 0, 0
  {
    var m, b := t.rec.mechanisms[i], t.terms[i];
    assert |t.terms| == |t.rec.mechanisms| && GrownTerm(w, t.domain, m, b, path);
    TotalIs(w, t, i);
    NothingCounted([]);
    hide Grown, TermTotal, Counted, Asks, Macro, GrownBranch, BranchTotal, Visited, ComesBackEmpty;
    if m.kind == Include && !Macro(m.domain) {
      var name :| Asks(t.domain, m, name) && GrownBranch(w, name, "include:" + name, b, path);
      LookupsOfBranch(w, name, "include:" + name, b, path);
    }
  }

  /** Every lookup is a counting term or a redirect of a record visited, and each of these is a lookup. */
  lemma {:induction false} LookupsAreCounted(w: World, t: Tree, path: set<string>)
    requires Grown(w, t, path)
    ensures Total(w, t).lookups == Counted(Visited(t))
    decreases t, 2
  {
    var from, beyond := VisitedFrom(t, |t.terms|), VisitedBeyond(t.next);
    LookupsOfTerms(w, t, |t.terms|, path);
    assert |t.terms| == |t.rec.mechanisms|;
    assert CountingAmong(t.rec.mechanisms, |t.terms|) == CountingTerms(t.rec.mechanisms);
    NothingCounted([]);
    assert Visited(t) == [t.rec] + from + beyond;
    CountedInTwo([t.rec] + from, beyond);
    CountedInTwo([t.rec], from);
    assert Counted([t.rec]) == CountedIn(t.rec);
    hide Counted, CountingTerms, CountingAmong, TermsTotal, Visited, VisitedFrom, Macro, NameOf, GrownBranch;
    hide BranchTotal, NamesAll, GrownTerm;
    if !NamesAll(t.rec) && t.rec.redirect != "" && !Macro(t.rec.redirect) {
      var name :| NameOf(t.rec.redirect, name) && GrownBranch(w, name, "redirect:" + name, t.next, path);
      LookupsOfBranch(w, name, "redirect:" + name, t.next, path);
    }
  }

  // ----- the meaning of a record --------------------------------------------------------------------------

  /** The tree of the record published at domain, no more than ten names deep. */
  ghost predicate TreeOf(w: World, domain: string, rec: Record, t: Tree) {
    t.at == "" && t.domain == domain && t.rec == rec && Grown(w, t, {w.canonical(domain)}) && NoDeeper(t, 10)
  }

  /** A record has a meaning exactly if it has such a tree, and then it is what is counted over the tree. */
  lemma TreesMean(w: World, domain: string, rec: Record)
    ensures
      var v := EvalRecord(w, domain, rec, "", {w.canonical(domain)}, MAX_DEPTH, true);
      && (v.Some? <==> exists t :: TreeOf(w, domain, rec, t))
      && forall t :: TreeOf(w, domain, rec, t) ==>
           && v.Some?
           && v.value.tally.lookups == Counted(Visited(t)) && v.value.tally.queries == Total(w, t).queries
           && |v.value.tally.voids| == Total(w, t).voids && |v.value.tally.unexpanded| == Total(w, t).unexpanded
           && FirstAll(LastOnChain(t), v.value.effective)
  {
    hide EvalRecord, Grown, NoDeeper, Total, Visited, Counted, FirstAll;
    var path := {w.canonical(domain)};
    if EvalRecord(w, domain, rec, "", path, MAX_DEPTH, true).Some? {
      var t := GrowRecord(w, domain, rec, "", path, MAX_DEPTH, true);
      assert TreeOf(w, domain, rec, t);
    }
    forall t | TreeOf(w, domain, rec, t)
      ensures
        var v := EvalRecord(w, domain, rec, "", path, MAX_DEPTH, true);
        v.Some? && Adds(v.value.tally, Total(w, t)) && FirstAll(LastOnChain(t), v.value.effective)
      ensures Total(w, t).lookups == Counted(Visited(t))
    {
      SumsOfRecord(w, t, path, MAX_DEPTH, true);
      LookupsAreCounted(w, t, path);
    }
  }

  /** What each counting term among the first n costs: itself, and all it leads to. */
  function CostsAmong(t: Tree, n: nat): seq<TermCost>
    requires n <= |t.terms| == |t.rec.mechanisms|
  {
    if n == 0 then []
    else
      var m := t.rec.mechanisms[n - 1];
      CostsAmong(t, n - 1) +
      if m.kind in {Include, Addr, Mail, Ptr, Exists} then
        [TermCost(Written(m), 1 + Counted(VisitedBeyond(t.terms[n - 1])))]
      else []
  }

  /** And what the redirect costs, if it applies. */
  function CostsOf(t: Tree): seq<TermCost>
    requires |t.terms| == |t.rec.mechanisms|
  {
    CostsAmong(t, |t.terms|) +
    if t.rec.redirect == "" || NamesAll(t.rec) then []
    else [TermCost("redirect=" + t.rec.redirect, 1 + Counted(VisitedBeyond(t.next)))]
  }

  lemma {:induction false} CostsOfTerms(w: World, t: Tree, n: nat, path: set<string>, levels: nat)
    requires Grown(w, t, path) && NoDeeper(t, levels) && t.at == "" && n <= |t.terms| == |t.rec.mechanisms|
    ensures TermCosts(w, t.domain, t.rec.mechanisms[..n], path, levels) == CostsAmong(t, n)
  {
    hide Grown, NoDeeper, EvalMechanism, CountsLookup, TermTotal, Counted, VisitedBeyond, Term, Written;
    if n > 0 {
      var ms := t.rec.mechanisms;
      assert ms[..n][..n - 1] == ms[..n - 1];
      CostsOfTerms(w, t, n - 1, path, levels);
      SumsOfTerm(w, t, n - 1, path, levels);
      LookupsOfTerm(w, t, n - 1, path);
      WrittenMeans(ms[n - 1]);
      assert CountsLookup(ms[n - 1]) <==> ms[n - 1].kind in {Include, Addr, Mail, Ptr, Exists} by {
        CountsMeans(ms[n - 1]);
      }
    }
  }

  lemma CountsMeans(m: Mechanism)
    ensures CountsLookup(m) <==> m.kind in {Include, Addr, Mail, Ptr, Exists}
  {
  }

  /** What a redirect that applies costs. */
  lemma {:induction false} RedirectCost(w: World, t: Tree, path: set<string>, levels: nat)
    requires Grown(w, t, path) && NoDeeper(t, levels) && !NamesAll(t.rec) && t.rec.redirect != ""
    ensures
      var v := EvalRedirect(w, t.rec.redirect, path, levels, true);
      v.Some? && v.value.tally.lookups == 1 + Counted(VisitedBeyond(t.next))
  {
    NothingCounted([]);
    MacroMeans(t.rec.redirect);
    hide Macro, HasMacro, NameOf, Target, GrownBranch, BranchNoDeeper, BranchTotal, Counted, Visited, EvalFollow;
    if !Macro(t.rec.redirect) {
      var name :| NameOf(t.rec.redirect, name) && GrownBranch(w, name, "redirect:" + name, t.next, path);
      NameIsTarget(t.rec.redirect, name);
      SumsOfBranch(w, name, "redirect:" + name, t.next, path, levels, true);
      LookupsOfBranch(w, name, "redirect:" + name, t.next, path);
    }
  }

  /** An include admits everyone if the first "all" of its record is a "+all". */
  lemma PassesAllMeans(rec: Record)
    ensures PassesAll(rec) <==> exists m :: FirstAll(rec, Some(m)) && m.qualifier == Pass
  {
    AllMeans(rec.mechanisms, rec.redirect);
    assert rec == Record(rec.mechanisms, rec.redirect);
  }

  /** More than ten mail servers are a problem of their own. */
  lemma MailMeans(w: World, target: string, m: Mechanism, at: string)
    ensures
      var t := EvalMail(w, target, m, at);
      t.Some? ==> (t.value.problems != [] <==> MXs(w, target) > 10) && (t.value.voids != [] <==> MXs(w, target) == 0)
  {
  }
}
