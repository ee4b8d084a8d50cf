/** Moving accepted findings out of a run's results, in place: suppressions and baselines. */
module Partition {
  import opened Core
  import opened Ordering
  import L = Lifecycle
  import E = Engine

  // ----- suppressions -----------------------------------------------------------------------

  /** ids are the check IDs the pattern selects; empty target or subject matches any. */
  datatype Suppression = Suppression(
    ids: set<string>,
    target: string,
    subject: string,
    reason: string,
    expires: Option<int>)

  datatype Suppressed = Suppressed(finding: Finding, reason: string, expires: Option<int>)

  datatype Config = Config(suppressions: seq<Suppression>, severityOverrides: map<string, int>)

  predicate Matches(s: Suppression, f: Finding) {
    f.checkID in s.ids && (s.target == "" || s.target == f.target) && (s.subject == "" || s.subject == f.subject)
  }

  predicate Expired(s: Suppression, now: int) { s.expires.Some? && now >= s.expires.value }

  function Overridden(c: Config, f: Finding): Finding {
    if f.checkID in c.severityOverrides then f.(severity := c.severityOverrides[f.checkID]) else f
  }

  function ActiveOf(ss: seq<Suppression>, now: int): seq<Suppression> {
    if ss == [] then [] else ActiveOf(ss[..|ss| - 1], now) + if Expired(ss[|ss| - 1], now) then [] else [ss[|ss| - 1]]
  }

  function ExpiredOf(ss: seq<Suppression>, now: int): seq<Suppression> {
    if ss == [] then [] else ExpiredOf(ss[..|ss| - 1], now) + if Expired(ss[|ss| - 1], now) then [ss[|ss| - 1]] else []
  }

  /** The first suppression that covers the finding. */
  function FirstMatch(ss: seq<Suppression>, f: Finding): Option<Suppression> {
    if ss == [] then None else if Matches(ss[0], f) then Some(ss[0]) else FirstMatch(ss[1..], f)
  }

  method FindMatch(ss: seq<Suppression>, f: Finding) returns (m: Option<Suppression>)
    ensures m == FirstMatch(ss, f)
  {
    for i := 0 to |ss|
      invariant FirstMatch(ss, f) == FirstMatch(ss[i..], f)
    {
      assert ss[i..][1..] == ss[i + 1..];
      if Matches(ss[i], f) { return Some(ss[i]); }
    }
    m := None;
  }

  function KeptOf(c: Config, active: seq<Suppression>, fs: seq<Finding>): seq<Finding> {
    if fs == [] then []
    else
      var f := Overridden(c, fs[|fs| - 1]);
      KeptOf(c, active, fs[..|fs| - 1]) + if FirstMatch(active, f).None? then [f] else []
  }

  function MovedOf(c: Config, active: seq<Suppression>, fs: seq<Finding>): seq<Suppressed> {
    if fs == [] then []
    else
      var f := Overridden(c, fs[|fs| - 1]);
      var m := FirstMatch(active, f);
      MovedOf(c, active, fs[..|fs| - 1]) + if m.Some? then [Suppressed(f, m.value.reason, m.value.expires)] else []
  }

  predicate SuppressedLeq(a: Suppressed, b: Suppressed) { FindingLeq(a.finding, b.finding) }

  /** slices.SortFunc on the first n elements of an array. */
  method SortPrefix(a: array<Finding>, n: nat)
    requires n <= a.Length
    modifies a
    ensures a[..n] == Sort(old(a[..n]), FindingLeq) && a[n..] == old(a[n..])
  {
    var sorted := Sort(a[..n], FindingLeq);
    assert |sorted| == |multiset(sorted)| == n;
    forall i | 0 <= i < n { a[i] := sorted[i]; }
    assert a[..n] == sorted;
  }

  // ----- baselines --------------------------------------------------------------------------------

  datatype Entry = Entry(checkID: string, target: string, subject: string)

  function KnownOf(entries: seq<Entry>, canon: string -> string): set<Fingerprint> {
    set e | e in entries :: Fingerprint(canon(e.checkID), e.target, e.subject)
  }

  function Unknown(known: set<Fingerprint>, fs: seq<Finding>): seq<Finding> {
    if fs == [] then []
    else Unknown(known, fs[..|fs| - 1]) + if fs[|fs| - 1].Print() in known then [] else [fs[|fs| - 1]]
  }

  function Known(known: set<Fingerprint>, fs: seq<Finding>): seq<Finding> {
    if fs == [] then []
    else Known(known, fs[..|fs| - 1]) + if fs[|fs| - 1].Print() in known then [fs[|fs| - 1]] else []
  }

  function Prints(fs: seq<Finding>): set<Fingerprint> { set f | f in fs :: f.Print() }

  /** A run's results: Findings is the slice data[..count]. */
  class Results {
    var data: array<Finding>
    var count: nat
    var suppressed: seq<Suppressed>
    var baselined: seq<Finding>

    ghost predicate Valid()
      reads this
    {
      count <= data.Length
    }

    ghost function Findings(): seq<Finding>
      requires Valid()
      reads this, data
    {
      data[..count]
    }

    constructor (findings: seq<Finding>)
      ensures Valid() && fresh(data) && Findings() == findings && suppressed == [] && baselined == []
    {
      data := new Finding[|findings|](i requires 0 <= i < |findings| => findings[i]);
      count := |findings|;
      suppressed, baselined := [], [];
      new;
      assert data[..] == findings;
    }

    /** Applies severity overrides and moves suppressed findings out; the expired suppressions are returned. */
    method ApplyConfig(c: Config, now: int) returns (expired: seq<Suppression>)
      requires Valid()
      modifies this, data
      ensures Valid() && data == old(data) && baselined == old(baselined)
      ensures expired == ExpiredOf(c.suppressions, now)
      ensures Findings() == Sort(KeptOf(c, ActiveOf(c.suppressions, now), old(Findings())), FindingLeq)
      ensures suppressed ==
        Sort(old(suppressed) + MovedOf(c, ActiveOf(c.suppressions, now), old(Findings())), SuppressedLeq)
    {
      hide KeptOf, MovedOf, ActiveOf, ExpiredOf;
      var active;
      active, expired := SplitExpired(c.suppressions, now);
      MoveSuppressed(c, active);
      SortPrefix(data, count);
      suppressed := Sort(suppressed, SuppressedLeq);
    }

    method MoveSuppressed(c: Config, active: seq<Suppression>)
      requires Valid()
      modifies this`count, this`suppressed, data
      ensures Valid()
      ensures Findings() == KeptOf(c, active, old(Findings()))
      ensures suppressed == old(suppressed) + MovedOf(c, active, old(Findings()))
    {
      hide FirstMatch, Overridden, KeptOf, MovedOf;
      ghost var was := Findings();
      NothingMoved(c, active);
      var n := 0;
      for i := 0 to count
        invariant n <= i <= count && count == |was| <= data.Length
        invariant data[..n] == KeptOf(c, active, was[..i])
        invariant suppressed == old(suppressed) + MovedOf(c, active, was[..i])
        invariant forall k :: i <= k < count ==> data[k] == was[k]
      {
        OneMoved(c, active, was, i);
        var f := Overridden(c, data[i]);
        var m := FindMatch(active, f);
        if m.Some? {
          suppressed := suppressed + [Suppressed(f, m.value.reason, m.value.expires)];
        } else {
          Keep(n, i, f);
          n := n + 1;
        }
      }
      assert was[..count] == was;
      count := n;
    }

    /** res.Findings = append(kept, f), into the slice being read. */
    method Keep(n: nat, i: nat, f: Finding)
      requires n <= i < data.Length
      modifies data
      ensures data[..n + 1] == old(data[..n]) + [f]
      ensures forall k :: i < k < data.Length ==> data[k] == old(data[k])
    {
      data[n] := f;
    }

    /** Moves the findings the baseline lists out; returns how many entries no longer occur. */
    method ApplyBaseline(entries: seq<Entry>, canon: string -> string) returns (gone: int)
      requires Valid()
      modifies this, data
      ensures Valid() && data == old(data) && suppressed == old(suppressed)
      ensures Findings() == Unknown(KnownOf(entries, canon), old(Findings()))
      ensures baselined == old(baselined) + Known(KnownOf(entries, canon), old(Findings()))
      ensures gone == |KnownOf(entries, canon) - Prints(old(Findings()))|
    {
      var known := CollectKnown(entries, canon);
      var seen := MoveKnown(known);
      assert seen == known * Prints(old(Findings()));
      assert known == seen + (known - Prints(old(Findings())));
      assert |known| == |seen| + |known - Prints(old(Findings()))|;
      gone := |known| - |seen|;
    }

    method MoveKnown(known: set<Fingerprint>) returns (seen: set<Fingerprint>)
      requires Valid()
      modifies this`count, this`baselined, data
      ensures Valid()
      ensures Findings() == Unknown(known, old(Findings()))
      ensures baselined == old(baselined) + Known(known, old(Findings()))
      ensures seen == known * Prints(old(Findings()))
    {
      hide Prints, Unknown, Known;
      ghost var was := Findings();
      NoneKnown(known, was);
      seen := {};
      var n := 0;
      for i := 0 to count
        invariant n <= i <= count && count == |was| <= data.Length
        invariant data[..n] == Unknown(known, was[..i])
        invariant baselined == old(baselined) + Known(known, was[..i])
        invariant seen == known * Prints(was[..i])
        invariant forall k :: i <= k < count ==> data[k] == was[k]
      {
        OneKnown(known, was, i);
        var x := data[i];
        if x.Print() in known {
          seen := seen + {x.Print()};
          baselined := baselined + [x];
        } else {
          Keep(n, i, x);
          n := n + 1;
        }
      }
      assert was[..count] == was;
      count := n;
    }
  }

  lemma NothingMoved(c: Config, active: seq<Suppression>)
    ensures KeptOf(c, active, []) == [] && MovedOf(c, active, []) == []
  {
  }

  lemma OneMoved(c: Config, active: seq<Suppression>, fs: seq<Finding>, i: int)
    requires 0 <= i < |fs|
    ensures
      var f := Overridden(c, fs[i]);
      var m := FirstMatch(active, f);
      && KeptOf(c, active, fs[..i + 1]) == KeptOf(c, active, fs[..i]) + (if m.None? then [f] else [])
      && MovedOf(c, active, fs[..i + 1]) ==
         MovedOf(c, active, fs[..i]) + if m.Some? then [Suppressed(f, m.value.reason, m.value.expires)] else []
  {
    hide Overridden, FirstMatch;
    assert fs[..i + 1][..i] == fs[..i];
  }

  lemma NoneKnown(known: set<Fingerprint>, fs: seq<Finding>)
    ensures Prints(fs[..0]) == {} && Unknown(known, fs[..0]) == [] && Known(known, fs[..0]) == []
  {
  }

  lemma OneKnown(known: set<Fingerprint>, fs: seq<Finding>, i: int)
    requires 0 <= i < |fs|
    ensures Prints(fs[..i + 1]) == Prints(fs[..i]) + {fs[i].Print()}
    ensures Unknown(known, fs[..i + 1]) == Unknown(known, fs[..i]) + if fs[i].Print() in known then [] else [fs[i]]
    ensures Known(known, fs[..i + 1]) == Known(known, fs[..i]) + if fs[i].Print() in known then [fs[i]] else []
  {
    assert fs[..i + 1] == fs[..i] + [fs[i]];
  }

  method SplitExpired(ss: seq<Suppression>, now: int) returns (active: seq<Suppression>, expired: seq<Suppression>)
    ensures active == ActiveOf(ss, now) && expired == ExpiredOf(ss, now)
  {
    active, expired := [], [];
    for i := 0 to |ss|
      invariant active == ActiveOf(ss[..i], now) && expired == ExpiredOf(ss[..i], now)
    {
      assert ss[..i + 1][..i] == ss[..i];
      if Expired(ss[i], now) { expired := expired + [ss[i]]; } else { active := active + [ss[i]]; }
    }
    assert ss[..|ss|] == ss;
  }

  method CollectKnown(entries: seq<Entry>, canon: string -> string) returns (known: set<Fingerprint>)
    ensures known == KnownOf(entries, canon)
  {
    known := {};
    for i := 0 to |entries|
      invariant known == KnownOf(entries[..i], canon)
    {
      var e := entries[i];
      assert entries[..i + 1] == entries[..i] + [e];
      known := known + {Fingerprint(canon(e.checkID), e.target, e.subject)};
    }
    assert entries[..|entries|] == entries;
  }

  // ----- nothing is lost, nothing is doubled ------------------------------------------------------------

  function OverriddenAll(c: Config, fs: seq<Finding>): seq<Finding> {
    if fs == [] then [] else OverriddenAll(c, fs[..|fs| - 1]) + [Overridden(c, fs[|fs| - 1])]
  }

  function FindingsIn(ss: seq<Suppressed>): (fs: seq<Finding>)
    ensures |fs| == |ss| && forall i :: 0 <= i < |ss| ==> fs[i] == ss[i].finding
  {
    seq(|ss|, i requires 0 <= i < |ss| => ss[i].finding)
  }

  lemma FindingsInAppend(a: seq<Suppressed>, s: Suppressed)
    ensures FindingsIn(a + [s]) == FindingsIn(a) + [s.finding]
  {
  }

  /** Kept and moved findings together are the run's findings, severities overridden. */
  lemma {:induction false} NothingIsLost(c: Config, active: seq<Suppression>, fs: seq<Finding>)
    ensures multiset(KeptOf(c, active, fs)) + multiset(FindingsIn(MovedOf(c, active, fs))) ==
      multiset(OverriddenAll(c, fs))
  {
    hide Overridden, FirstMatch, FindingsIn;
    NoFindingsIn();
    if fs != [] {
      var n := |fs| - 1;
      NothingIsLost(c, active, fs[..n]);
      var f, m := Overridden(c, fs[n]), FirstMatch(active, Overridden(c, fs[n]));
      assert OverriddenAll(c, fs) == OverriddenAll(c, fs[..n]) + [f];
      if m.Some? {
        var s := Suppressed(f, m.value.reason, m.value.expires);
        assert KeptOf(c, active, fs) == KeptOf(c, active, fs[..n]);
        assert MovedOf(c, active, fs) == MovedOf(c, active, fs[..n]) + [s];
        FindingsInAppend(MovedOf(c, active, fs[..n]), s);
      } else {
        assert KeptOf(c, active, fs) == KeptOf(c, active, fs[..n]) + [f];
        assert MovedOf(c, active, fs) == MovedOf(c, active, fs[..n]);
      }
    }
  }

  lemma NoFindingsIn()
    ensures FindingsIn([]) == []
  {
  }

  /** The first suppression to cover the finding stands at i. */
  ghost predicate FirstAt(ss: seq<Suppression>, f: Finding, i: int) {
    0 <= i < |ss| && Matches(ss[i], f) && forall k :: 0 <= k < i ==> !Matches(ss[k], f)
  }

  /** What is kept no active suppression covers; what is moved carries the reason of the first that does. */
  lemma {:induction false} MovedForAReason(c: Config, active: seq<Suppression>, fs: seq<Finding>)
    ensures forall f :: f in KeptOf(c, active, fs) ==> forall s :: s in active ==> !Matches(s, f)
    ensures forall m :: m in MovedOf(c, active, fs) ==>
      exists i :: FirstAt(active, m.finding, i) && m.reason == active[i].reason && m.expires == active[i].expires
  {
    hide Overridden, FirstMatch, Matches, FirstAt;
    if fs != [] {
      MovedForAReason(c, active, fs[..|fs| - 1]);
      MatchIsFirst(active, Overridden(c, fs[|fs| - 1]));
    }
  }

  lemma {:induction false} MatchIsFirst(ss: seq<Suppression>, f: Finding)
    ensures FirstMatch(ss, f).Some? ==> exists i :: FirstAt(ss, f, i) && FirstMatch(ss, f).value == ss[i]
    ensures FirstMatch(ss, f).None? <==> forall s :: s in ss ==> !Matches(s, f)
  {
    hide Matches;
    if ss != [] {
      MatchIsFirst(ss[1..], f);
      assert ss == [ss[0]] + ss[1..];
      if Matches(ss[0], f) {
        assert FirstAt(ss, f, 0);
      } else if i :| FirstAt(ss[1..], f, i) && FirstMatch(ss[1..], f) == Some(ss[1..][i]) {
        FirstAtLater(ss, f, i);
      }
    }
  }

  lemma FirstAtLater(ss: seq<Suppression>, f: Finding, i: int)
    requires ss != [] && !Matches(ss[0], f) && FirstAt(ss[1..], f, i)
    ensures FirstAt(ss, f, i + 1)
  {
  }

  /** A baseline loses nothing: it only splits the findings. */
  lemma {:induction false} BaselineSplits(known: set<Fingerprint>, fs: seq<Finding>)
    ensures multiset(Unknown(known, fs)) + multiset(Known(known, fs)) == multiset(fs)
  {
    if fs != [] {
      var n := |fs| - 1;
      BaselineSplits(known, fs[..n]);
      var u, k, f := Unknown(known, fs[..n]), Known(known, fs[..n]), fs[n];
      assert multiset(u + [f]) == multiset(u) + multiset{f} && multiset(k + [f]) == multiset(k) + multiset{f};
      assert fs == fs[..n] + [f];
      assert multiset(fs) == multiset(fs[..n]) + multiset{f};
      if f.Print() in known {
        assert Unknown(known, fs) == u && Known(known, fs) == k + [f];
      } else {
        assert Unknown(known, fs) == u + [f] && Known(known, fs) == k;
      }
      hide Unknown, Known;
    }
  }

  lemma {:induction false} SplitByBaseline(known: set<Fingerprint>, fs: seq<Finding>)
    ensures forall f :: f in Unknown(known, fs) <==> f in fs && f.Print() !in known
    ensures forall f :: f in Known(known, fs) <==> f in fs && f.Print() in known
  {
    if fs != [] {
      SplitByBaseline(known, fs[..|fs| - 1]);
      assert fs == fs[..|fs| - 1] + [fs[|fs| - 1]];
    }
  }

  // ----- what a configuration does, letter by letter --------------------------------------------------

  /** The suppression has not expired, and names the finding's check, and its target and subject if it names any. */
  predicate Covers(s: Suppression, f: Finding, now: int) {
    && (s.expires.Some? ==> now < s.expires.value)
    && f.checkID in s.ids && s.target in {"", f.target} && s.subject in {"", f.subject}
  }

  /** The finding with the severity the configuration gives its check. */
  predicate EndsAs(c: Config, f: Finding, g: Finding) {
    && g.severity == (if f.checkID in c.severityOverrides then c.severityOverrides[f.checkID] else f.severity)
    && g.(severity := f.severity) == f
  }

  /** Suppression i is the first to cover the finding. */
  ghost predicate FirstToCover(ss: seq<Suppression>, f: Finding, now: int, i: int) {
    0 <= i < |ss| && Covers(ss[i], f, now) && forall j :: 0 <= j < i ==> !Covers(ss[j], f, now)
  }

  lemma CoversMeans(s: Suppression, f: Finding, now: int)
    ensures Covers(s, f, now) <==> !Expired(s, now) && Matches(s, f)
  {
  }

  lemma OverriddenMeans(c: Config, f: Finding, g: Finding)
    ensures EndsAs(c, f, g) <==> g == Overridden(c, f)
  {
  }

  lemma {:induction false} MatchInTwo(a: seq<Suppression>, b: seq<Suppression>, f: Finding)
    ensures FirstMatch(a + b, f) == if FirstMatch(a, f).Some? then FirstMatch(a, f) else FirstMatch(b, f)
  {
    hide Matches;
    if a == [] {
      assert a + b == b;
    } else {
      assert (a + b)[1..] == a[1..] + b;
      MatchInTwo(a[1..], b, f);
    }
  }

  lemma {:induction false} ActiveMatch(ss: seq<Suppression>, f: Finding, now: int)
    ensures
      var m := FirstMatch(ActiveOf(ss, now), f);
      && (m.None? <==> forall i :: 0 <= i < |ss| ==> !Covers(ss[i], f, now))
      && (m.Some? ==> exists i :: FirstToCover(ss, f, now, i) && m.value == ss[i])
  {
    hide Matches, Expired, Covers;
    if ss != [] {
      var n := |ss| - 1;
      ActiveMatch(ss[..n], f, now);
      CoversMeans(ss[n], f, now);
      MatchInTwo(ActiveOf(ss[..n], now), if Expired(ss[n], now) then [] else [ss[n]], f);
      if i :| FirstToCover(ss[..n], f, now, i) && FirstMatch(ActiveOf(ss[..n], now), f) == Some(ss[..n][i]) {
        assert FirstToCover(ss, f, now, i);
      } else if Covers(ss[n], f, now) {
        assert forall i :: 0 <= i < n ==> !Covers(ss[..n][i], f, now);
        assert FirstToCover(ss, f, now, n);
      }
    }
  }

  /** A finding f of the run ends as g, which nothing covers. */
  ghost predicate Keeps(c: Config, now: int, f: Finding, g: Finding) {
    EndsAs(c, f, g) && forall i :: 0 <= i < |c.suppressions| ==> !Covers(c.suppressions[i], g, now)
  }

  /** A finding f of the run is moved, with the reason and expiry of the first suppression to cover it. */
  ghost predicate Moves(c: Config, now: int, f: Finding, m: Suppressed) {
    EndsAs(c, f, m.finding) && exists i ::
      && FirstToCover(c.suppressions, m.finding, now, i)
      && m.reason == c.suppressions[i].reason && m.expires == c.suppressions[i].expires
  }

  lemma {:induction false} KeptMeans(c: Config, now: int, fs: seq<Finding>)
    ensures forall g :: g in KeptOf(c, ActiveOf(c.suppressions, now), fs) <==>
      exists f :: f in fs && Keeps(c, now, f, g)
  {
    hide Overridden, FirstMatch, ActiveOf, Keeps;
    if fs != [] {
      var n := |fs| - 1;
      KeptMeans(c, now, fs[..n]);
      assert fs == fs[..n] + [fs[n]];
      forall g ensures Keeps(c, now, fs[n], g) <==> g in KeptOf(c, ActiveOf(c.suppressions, now), [fs[n]]) {
        OneKeeps(c, now, fs[n], g);
      }
      LastKept(c, ActiveOf(c.suppressions, now), fs);
    }
  }

  lemma LastKept(c: Config, active: seq<Suppression>, fs: seq<Finding>)
    requires fs != []
    ensures
      var n := |fs| - 1;
      KeptOf(c, active, fs) == KeptOf(c, active, fs[..n]) + KeptOf(c, active, [fs[n]])
  {
    hide Overridden, FirstMatch;
    var last := [fs[|fs| - 1]];
    assert last[..0] == [];
    assert KeptOf(c, active, last[..0]) == [];
  }

  lemma OneKeeps(c: Config, now: int, f: Finding, g: Finding)
    ensures Keeps(c, now, f, g) <==> g in KeptOf(c, ActiveOf(c.suppressions, now), [f])
  {
    var active, h := ActiveOf(c.suppressions, now), Overridden(c, f);
    ActiveMatch(c.suppressions, h, now);
    OverriddenMeans(c, f, g);
    assert [f][..0] == [] && KeptOf(c, active, []) == [];
    assert KeptOf(c, active, [f]) == if FirstMatch(active, h).None? then [h] else [];
    hide Overridden, FirstMatch, ActiveOf, EndsAs, Covers, KeptOf;
  }

  lemma {:induction false} MovedMeans(c: Config, now: int, fs: seq<Finding>)
    ensures forall m :: m in MovedOf(c, ActiveOf(c.suppressions, now), fs) <==>
      exists f :: f in fs && Moves(c, now, f, m)
  {
    hide Overridden, FirstMatch, ActiveOf, Moves;
    if fs != [] {
      var n := |fs| - 1;
      MovedMeans(c, now, fs[..n]);
      assert fs == fs[..n] + [fs[n]];
      forall m ensures Moves(c, now, fs[n], m) <==> m in MovedOf(c, ActiveOf(c.suppressions, now), [fs[n]]) {
        OneMoves(c, now, fs[n], m);
      }
      LastMoved(c, ActiveOf(c.suppressions, now), fs);
    }
  }

  lemma LastMoved(c: Config, active: seq<Suppression>, fs: seq<Finding>)
    requires fs != []
    ensures
      var n := |fs| - 1;
      MovedOf(c, active, fs) == MovedOf(c, active, fs[..n]) + MovedOf(c, active, [fs[n]])
  {
    hide Overridden, FirstMatch;
    var last := [fs[|fs| - 1]];
    assert last[..0] == [];
    assert MovedOf(c, active, last[..0]) == [];
  }

  lemma OneMoves(c: Config, now: int, f: Finding, m: Suppressed)
    ensures Moves(c, now, f, m) <==> m in MovedOf(c, ActiveOf(c.suppressions, now), [f])
  {
    var active, g := ActiveOf(c.suppressions, now), Overridden(c, f);
    ActiveMatch(c.suppressions, g, now);
    OverriddenMeans(c, f, m.finding);
    assert [f][..0] == [] && MovedOf(c, active, []) == [];
    var first := FirstMatch(active, g);
    assert MovedOf(c, active, [f]) ==
      if first.Some? then [Suppressed(g, first.value.reason, first.value.expires)] else [];
    hide Overridden, FirstMatch, ActiveOf, EndsAs, Covers, MovedOf;
    if first.Some? {
      var i :| FirstToCover(c.suppressions, g, now, i) && first.value == c.suppressions[i];
      assert forall j :: FirstToCover(c.suppressions, g, now, j) ==> j == i;
    }
  }

  lemma {:induction false} ExpiredMeans(ss: seq<Suppression>, now: int)
    ensures forall s :: s in ExpiredOf(ss, now) <==> s in ss && s.expires.Some? && now >= s.expires.value
  {
    if ss != [] {
      ExpiredMeans(ss[..|ss| - 1], now);
      assert ss == ss[..|ss| - 1] + [ss[|ss| - 1]];
    }
  }

  /**
   * What applying a configuration leaves, finding by finding: kept are those no
   * suppression in force covers, moved are the others, both with the severity
   * that the configuration gives their check; both in the order of reports; and
   * the suppressions returned are those no longer in force.
   */
  lemma ConfigMeans(c: Config, now: int, fs: seq<Finding>, kept: seq<Finding>, moved: seq<Suppressed>)
    requires kept == Sort(KeptOf(c, ActiveOf(c.suppressions, now), fs), FindingLeq)
    requires moved == Sort(MovedOf(c, ActiveOf(c.suppressions, now), fs), SuppressedLeq)
    ensures forall g :: g in kept <==> exists f :: f in fs && Keeps(c, now, f, g)
    ensures forall m :: m in moved <==> exists f :: f in fs && Moves(c, now, f, m)
    ensures SortedBy(kept, FindingLeq)
    ensures forall i, j :: 0 <= i < j < |moved| ==> FindingLeq(moved[i].finding, moved[j].finding)
    ensures forall s :: s in ExpiredOf(c.suppressions, now) <==>
      s in c.suppressions && s.expires.Some? && now >= s.expires.value
  {
    var k, m := KeptOf(c, ActiveOf(c.suppressions, now), fs), MovedOf(c, ActiveOf(c.suppressions, now), fs);
    KeptMeans(c, now, fs);
    MovedMeans(c, now, fs);
    ExpiredMeans(c.suppressions, now);
    hide KeptOf, MovedOf, ActiveOf, ExpiredOf, Keeps, Moves;
    FindingsOrdered();
    SuppressedOrdered();
    SortSorts(k, FindingLeq);
    SortSorts(m, SuppressedLeq);
    MultisetMembers(k, kept);
    MultisetMembers(m, moved);
  }

  lemma SuppressedOrdered()
    ensures Ordered(SuppressedLeq)
  {
    FindingsOrdered();
    hide FindingLeq;
  }

  ghost predicate DistinctFindings(fs: seq<Finding>) {
    forall i, j :: 0 <= i < j < |fs| ==> fs[i].Print() != fs[j].Print()
  }

  lemma {:induction false} OverridingKeepsPrints(c: Config, fs: seq<Finding>)
    ensures |OverriddenAll(c, fs)| == |fs|
    ensures forall i :: 0 <= i < |fs| ==>
      OverriddenAll(c, fs)[i] == Overridden(c, fs[i]) && OverriddenAll(c, fs)[i].Print() == fs[i].Print()
  {
    if fs != [] { OverridingKeepsPrints(c, fs[..|fs| - 1]); }
  }

  lemma {:induction false} DistinctCounts(fs: seq<Finding>, f: Finding)
    requires DistinctFindings(fs)
    ensures multiset(fs)[f] <= 1
  {
    if fs != [] {
      DistinctCounts(fs[1..], f);
      assert fs == [fs[0]] + fs[1..];
    }
  }

  lemma DistinctPermutes(a: seq<Finding>, b: seq<Finding>)
    requires multiset(a) == multiset(b) && DistinctFindings(a)
    ensures DistinctFindings(b)
  {
    MultisetMembers(a, b);
    forall i, j | 0 <= i < j < |b| ensures b[i].Print() != b[j].Print() {
      assert b[i] in a && b[j] in a;
      if b[i] == b[j] {
        TwiceCounts(b, i, j);
        DistinctCounts(a, b[i]);
      }
    }
  }

  /** A run's findings after suppression, in the order the store reads them. */
  function AfterConfig(c: Config, now: int, fs: seq<Finding>): (seq<Finding>, seq<Finding>) {
    var active := ActiveOf(c.suppressions, now);
    (Sort(KeptOf(c, active, fs), FindingLeq), FindingsIn(Sort(MovedOf(c, active, fs), SuppressedLeq)))
  }

  lemma FindingsInConcat(a: seq<Suppressed>, b: seq<Suppressed>)
    ensures FindingsIn(a + b) == FindingsIn(a) + FindingsIn(b)
  {
  }

  lemma TakeOut(b: seq<Suppressed>, i: int) returns (rest: seq<Suppressed>)
    requires 0 <= i < |b|
    ensures multiset(rest) == multiset(b) - multiset{b[i]}
    ensures multiset(FindingsIn(b)) == multiset(FindingsIn(rest)) + multiset{b[i].finding}
  {
    hide FindingsIn;
    rest := b[..i] + b[i + 1..];
    assert b == b[..i] + [b[i]] + b[i + 1..];
    FindingsInConcat(b[..i], b[i + 1..]);
    FindingsInAppend(b[..i], b[i]);
    FindingsInConcat(b[..i] + [b[i]], b[i + 1..]);
  }

  lemma {:induction false} FindingsInMultiset(a: seq<Suppressed>, b: seq<Suppressed>)
    requires multiset(a) == multiset(b)
    ensures multiset(FindingsIn(a)) == multiset(FindingsIn(b))
    decreases |a|
  {
    MultisetLength(a, b);
    if a != [] {
      assert a[0] in multiset(b);
      var i :| 0 <= i < |b| && b[i] == a[0];
      var fewer := TakeOut(a, 0);
      var rest := TakeOut(b, i);
      assert |multiset(fewer)| == |a| - 1;
      FindingsInMultiset(fewer, rest);
    }
  }

  lemma MultisetLength<T>(a: seq<T>, b: seq<T>)
    requires multiset(a) == multiset(b)
    ensures |a| == |b|
  {
    assert |multiset(a)| == |a| && |multiset(b)| == |b|;
  }

  /** Suppressing only moves findings, so a run without repeats stays one. */
  lemma ConfigKeepsDistinct(c: Config, now: int, fs: seq<Finding>)
    requires DistinctFindings(fs)
    ensures var (kept, moved) := AfterConfig(c, now, fs); DistinctFindings(kept + moved)
  {
    var active := ActiveOf(c.suppressions, now);
    var (kept, moved) := AfterConfig(c, now, fs);
    NothingIsLost(c, active, fs);
    OverridingKeepsPrints(c, fs);
    assert DistinctFindings(OverriddenAll(c, fs));
    FindingsInMultiset(MovedOf(c, active, fs), Sort(MovedOf(c, active, fs), SuppressedLeq));
    assert multiset(kept + moved) == multiset(OverriddenAll(c, fs));
    DistinctPermutes(OverriddenAll(c, fs), kept + moved);
  }

  /**
   * From the engine to the store: whatever the checks return, in whatever
   * order they finish, the recorded run names no finding twice, so the store
   * reports at most one change per finding.
   */
  lemma RecordedRunsHaveNoRepeats(
    p: E.Plan, ss: seq<E.State>, ts: seq<E.Step>, sorted: seq<Finding>, c: Config, now: int, res: RunResult)
    requires E.Behaviour(p, ss, ts) && E.AllDone(ss[|ts|])
    requires multiset(sorted) == multiset(ss[|ts|].findings)
    requires (res.findings, res.suppressed) == AfterConfig(c, now, sorted)
    ensures L.NoRepeats(res)
  {
    EngineRunsAreDistinct(p, ss, ts, sorted);
    hide E.Behaviour, E.AllDone, AfterConfig, DistinctFindings;
    ConfigKeepsDistinct(c, now, sorted);
    CurrentIsDistinct(res);
  }

  lemma EngineRunsAreDistinct(p: E.Plan, ss: seq<E.State>, ts: seq<E.Step>, sorted: seq<Finding>)
    requires E.Behaviour(p, ss, ts) && E.AllDone(ss[|ts|])
    requires multiset(sorted) == multiset(ss[|ts|].findings)
    ensures DistinctFindings(sorted)
  {
    E.FinishedRunHoldsEverything(p, ss, ts);
    hide E.AllDone;
    forall i, j | 0 <= i < j < |sorted| ensures sorted[i].Print() != sorted[j].Print() { E.OnceEach(p, sorted, i, j); }
  }

  lemma CurrentIsDistinct(res: RunResult)
    requires DistinctFindings(res.findings + res.suppressed)
    ensures L.NoRepeats(res)
  {
    var cur := L.Current(res);
    var all := res.findings + res.suppressed;
    forall i | 0 <= i < |cur| ensures cur[i].f == all[i] { }
  }
}
