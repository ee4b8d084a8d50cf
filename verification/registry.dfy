/** The set of available checks, and selecting them with glob patterns. */
module Registry {
  import opened Core
  import opened Ordering

  /** '*' stands for any run of characters, '?' for exactly one. */
  ghost predicate Glob(pattern: string, id: string)
    decreases |pattern|
  {
    if pattern == [] then id == []
    else if pattern[0] == '*' then exists k :: 0 <= k <= |id| && Glob(pattern[1..], id[k..])
    else id != [] && (pattern[0] == '?' || pattern[0] == id[0]) && Glob(pattern[1..], id[1..])
  }

  predicate StarFree(s: string) { '*' !in s }

  /**
   * The glob as Match reads it: the literal comparison comes before the star,
   * so a star that faces a star stands for exactly that one.
   */
  ghost predicate Meets(pattern: string, id: string)
    decreases |pattern|
  {
    if pattern == [] then id == []
    else if id == [] then pattern[0] == '*' && Meets(pattern[1..], [])
    else if pattern[0] == '?' || pattern[0] == id[0] then Meets(pattern[1..], id[1..])
    else pattern[0] == '*' && exists k :: 0 <= k <= |id| && Meets(pattern[1..], id[k..])
  }

  lemma {:induction false} OnlyStarsMeetNothing(pattern: string)
    ensures Meets(pattern, "") <==> forall i :: 0 <= i < |pattern| ==> pattern[i] == '*'
  {
    if pattern != [] {
      OnlyStarsMeetNothing(pattern[1..]);
      assert forall i :: 1 <= i < |pattern| ==> pattern[i] == pattern[1..][i - 1];
    }
  }

  // ----- the search ----------------------------------------------------------------------------------

  /** Some reading in which the last star takes in more than it has so far. */
  ghost predicate LaterMatch(pattern: string, id: string, star: int, mark: int)
    requires -1 <= star < |pattern| && 0 <= mark
  {
    star >= 0 && exists k :: mark < k <= |id| && Meets(pattern[star + 1..], id[k..])
  }

  /** The segment stands in the text at m, character for character. */
  predicate Stands(segment: string, id: string, m: int) {
    && 0 <= m && m + |segment| <= |id|
    && forall i :: 0 <= i < |segment| ==> segment[i] == '?' || segment[i] == id[m + i]
  }

  /**
   * Wherever a segment that stands at m is read from k on, it takes the reader
   * at least as far: a star that could fall behind faces a star, and takes it.
   */
  lemma {:induction false} ReadsAtLeastAsFar(segment: string, rest: string, id: string, m: int, k: int) returns (s: int)
    requires Stands(segment, id, m) && m <= k <= |id| && Meets(segment + rest, id[k..])
    ensures m + |segment| <= s <= |id| && Meets(rest, id[s..])
    decreases |segment|
  {
    if segment == [] {
      assert segment + rest == rest;
      s := k;
    } else {
      var whole, text := segment + rest, id[k..];
      assert whole[0] == segment[0] && whole[1..] == segment[1..] + rest;
      assert Stands(segment[1..], id, m + 1) by {
        assert forall i :: 0 <= i < |segment[1..]| ==> segment[1..][i] == segment[i + 1];
      }
      if text == [] {
        s := ReadsAtLeastAsFar(segment[1..], rest, id, m + 1, k);
      } else if segment[0] == '?' || segment[0] == text[0] {
        assert text[1..] == id[k + 1..];
        s := ReadsAtLeastAsFar(segment[1..], rest, id, m + 1, k + 1);
      } else {
        var j :| 0 <= j <= |text| && Meets(whole[1..], text[j..]);
        assert text[j..] == id[k + j..] && text[0] == id[k] && segment[0] == '*';
        s := ReadsAtLeastAsFar(segment[1..], rest, id, m + 1, k + j);
      }
    }
  }

  /** Where the matcher stands: pattern position p, text position s, last star and its mark. */
  datatype At = At(p: int, s: int, star: int, mark: int)

  predicate InRange(pattern: string, id: string, a: At) {
    && 0 <= a.p <= |pattern| && 0 <= a.mark <= a.s <= |id|
    && (-1 <= a.star < a.p || (a.star == -1 && a.p == 0))
    && (a.star >= 0 ==>
          a.p - a.star - 1 == a.s - a.mark && pattern[a.star] == '*' && Stands(pattern[a.star + 1..a.p], id, a.mark))
  }

  /** The pattern meets the id iff it does from here on, or after the last star takes in more. */
  ghost predicate Searching(pattern: string, id: string, a: At)
    requires InRange(pattern, id, a)
  {
    Meets(pattern, id) <==> Meets(pattern[a.p..], id[a.s..]) || LaterMatch(pattern, id, a.star, a.mark)
  }

  lemma SearchStart(pattern: string, id: string)
    ensures Searching(pattern, id, At(0, 0, -1, 0))
  {
    assert pattern[0..] == pattern && id[0..] == id;
  }

  lemma SearchLiteral(pattern: string, id: string, a: At)
    requires InRange(pattern, id, a) && Searching(pattern, id, a)
    requires a.p < |pattern| && a.s < |id| && (pattern[a.p] == '?' || pattern[a.p] == id[a.s])
    ensures InRange(pattern, id, a.(p := a.p + 1, s := a.s + 1))
    ensures Searching(pattern, id, a.(p := a.p + 1, s := a.s + 1))
  {
    hide Meets, LaterMatch;
    OneCharacter(pattern, id, a.p, a.s);
    if a.star >= 0 {
      StandsLonger(pattern[a.star + 1..a.p], pattern[a.p], id, a.mark);
      assert pattern[a.star + 1..a.p + 1] == pattern[a.star + 1..a.p] + [pattern[a.p]];
    }
  }

  lemma OneCharacter(pattern: string, id: string, p: int, s: int)
    requires 0 <= p < |pattern| && 0 <= s < |id| && (pattern[p] == '?' || pattern[p] == id[s])
    ensures Meets(pattern[p..], id[s..]) <==> Meets(pattern[p + 1..], id[s + 1..])
  {
    assert pattern[p..][1..] == pattern[p + 1..] && id[s..][1..] == id[s + 1..];
  }

  lemma StandsLonger(segment: string, c: char, id: string, m: int)
    requires Stands(segment, id, m) && m + |segment| < |id| && (c == '?' || c == id[m + |segment|])
    ensures Stands(segment + [c], id, m)
  {
  }

  /** A star that faces no star takes in any run. */
  lemma StarReads(pattern: string, id: string, p: int, s: int)
    requires 0 <= p < |pattern| && 0 <= s < |id| && pattern[p] == '*' && id[s] != '*'
    ensures Meets(pattern[p..], id[s..]) <==> exists k :: s <= k <= |id| && Meets(pattern[p + 1..], id[k..])
  {
    var rest, text := pattern[p..], id[s..];
    assert rest[0] == '*' && rest[1..] == pattern[p + 1..] && text[0] == id[s];
    if Meets(rest, text) {
      var k :| 0 <= k <= |text| && Meets(rest[1..], text[k..]);
      assert text[k..] == id[s + k..];
    }
    if k :| s <= k <= |id| && Meets(pattern[p + 1..], id[k..]) {
      assert text[k - s..] == id[k..];
    }
  }

  /** However a star is read, what follows it is read at the same place or later. */
  lemma AfterStar(pattern: string, id: string, p: int, s: int) returns (k: int)
    requires 0 <= p < |pattern| && 0 <= s <= |id| && pattern[p] == '*' && Meets(pattern[p..], id[s..])
    ensures s <= k <= |id| && Meets(pattern[p + 1..], id[k..])
  {
    var rest, text := pattern[p..], id[s..];
    assert rest[1..] == pattern[p + 1..];
    if text == [] {
      k := s;
    } else if text[0] == '*' {
      k := s + 1;
      assert text[1..] == id[k..];
    } else {
      var j :| 0 <= j <= |text| && Meets(rest[1..], text[j..]);
      k := s + j;
      assert text[j..] == id[k..];
    }
  }

  /** Reaching a new star: whatever an earlier star could still do, the new one can. */
  lemma NewStarSuffices(pattern: string, id: string, a: At)
    requires InRange(pattern, id, a) && a.p < |pattern| && a.s < |id| && pattern[a.p] == '*' && id[a.s] != '*'
    requires LaterMatch(pattern, id, a.star, a.mark)
    ensures Meets(pattern[a.p..], id[a.s..])
  {
    hide Meets;
    var k :| a.mark < k <= |id| && Meets(pattern[a.star + 1..], id[k..]);
    var segment := pattern[a.star + 1..a.p];
    assert pattern[a.star + 1..] == segment + pattern[a.p..];
    var s := ReadsAtLeastAsFar(segment, pattern[a.p..], id, a.mark, k);
    var j := AfterStar(pattern, id, a.p, s);
    StarReads(pattern, id, a.p, a.s);
  }

  lemma SearchStar(pattern: string, id: string, a: At)
    requires InRange(pattern, id, a) && Searching(pattern, id, a)
    requires a.p < |pattern| && a.s < |id| && pattern[a.p] == '*' && id[a.s] != '*'
    ensures InRange(pattern, id, At(a.p + 1, a.s, a.p, a.s))
    ensures Searching(pattern, id, At(a.p + 1, a.s, a.p, a.s))
  {
    hide Meets, LaterMatch, Stands;
    StarAlternatives(pattern, id, a.p, a.s);
    if LaterMatch(pattern, id, a.star, a.mark) { NewStarSuffices(pattern, id, a); }
    EmptyStands(pattern, id, a.p + 1, a.s);
  }

  lemma EmptyStands(pattern: string, id: string, p: int, s: int)
    requires 0 <= p <= |pattern| && 0 <= s <= |id|
    ensures Stands(pattern[p..p], id, s)
  {
  }

  /** A star takes in nothing, or more. */
  lemma StarAlternatives(pattern: string, id: string, p: int, s: int)
    requires 0 <= p < |pattern| && 0 <= s < |id| && pattern[p] == '*' && id[s] != '*'
    ensures Meets(pattern[p..], id[s..]) <==> Meets(pattern[p + 1..], id[s..]) || LaterMatch(pattern, id, p, s)
  {
    hide Meets;
    StarReads(pattern, id, p, s);
  }

  lemma SearchBack(pattern: string, id: string, a: At)
    requires InRange(pattern, id, a) && Searching(pattern, id, a) && a.star >= 0 && a.s < |id|
    requires a.p == |pattern| || (pattern[a.p] != '*' && pattern[a.p] != '?' && pattern[a.p] != id[a.s])
    ensures InRange(pattern, id, At(a.star + 1, a.mark + 1, a.star, a.mark + 1))
    ensures Searching(pattern, id, At(a.star + 1, a.mark + 1, a.star, a.mark + 1))
  {
    hide Meets, LaterMatch, Stands;
    DeadEnd(pattern, id, a);
    BackAlternatives(pattern, id, a.star, a.mark);
    EmptyStands(pattern, id, a.star + 1, a.mark + 1);
  }

  lemma BackAlternatives(pattern: string, id: string, star: int, mark: int)
    requires 0 <= star < |pattern| && 0 <= mark < |id|
    ensures LaterMatch(pattern, id, star, mark) <==>
      Meets(pattern[star + 1..], id[mark + 1..]) || LaterMatch(pattern, id, star, mark + 1)
  {
    hide Meets;
  }

  lemma DeadEnd(pattern: string, id: string, a: At)
    requires InRange(pattern, id, a) && a.s < |id|
    requires a.p == |pattern| || (pattern[a.p] != '*' && pattern[a.p] != '?' && pattern[a.p] != id[a.s])
    ensures !Meets(pattern[a.p..], id[a.s..])
  {
    if a.p < |pattern| { assert pattern[a.p..][0] == pattern[a.p] && id[a.s..][0] == id[a.s]; }
  }

  lemma SearchEnds(pattern: string, id: string, a: At)
    requires InRange(pattern, id, a) && Searching(pattern, id, a) && a.s == |id|
    ensures Meets(pattern, id) <==> forall i :: a.p <= i < |pattern| ==> pattern[i] == '*'
  {
    hide Meets, LaterMatch, Stands;
    assert id[a.s..] == "";
    RestIsStars(pattern, a.p);
    if LaterMatch(pattern, id, a.star, a.mark) { NothingLater(pattern, id, a); }
  }

  lemma RestIsStars(pattern: string, p: int)
    requires 0 <= p <= |pattern|
    ensures Meets(pattern[p..], "") <==> forall i :: p <= i < |pattern| ==> pattern[i] == '*'
  {
    var rest := pattern[p..];
    OnlyStarsMeetNothing(rest);
    hide Meets;
    assert forall i :: p <= i < |pattern| ==> pattern[i] == rest[i - p];
    assert forall i :: 0 <= i < |rest| ==> rest[i] == pattern[p + i];
  }

  /** At the end of the text, taking in more with the last star leads nowhere else. */
  lemma NothingLater(pattern: string, id: string, a: At)
    requires InRange(pattern, id, a) && a.s == |id| && LaterMatch(pattern, id, a.star, a.mark)
    ensures Meets(pattern[a.p..], "")
  {
    hide Meets;
    var rest := pattern[a.p..];
    var k :| a.mark < k <= |id| && Meets(pattern[a.star + 1..], id[k..]);
    assert pattern[a.star + 1..] == pattern[a.star + 1..a.p] + rest;
    var s := ReadsAtLeastAsFar(pattern[a.star + 1..a.p], rest, id, a.mark, k);
    assert id[s..] == "";
  }

  // ----- how long it takes ------------------------------------------------------------------------------

  /** Iterations so far are paid for by how far the mark and the pattern position have come. */
  predicate Paid(steps: int, mark: int, p: int, width: int) { steps <= mark * width + p }

  lemma NothingPaid(width: int)
    ensures Paid(0, 0, 0, width)
  {
  }

  lemma PaidStep(steps: int, mark: int, p: int, mark': int, p': int, width: int)
    requires Paid(steps, mark, p, width) && 0 <= p < width
    requires (mark <= mark' && p' == p + 1) || (mark' == mark + 1 && 0 <= p')
    ensures Paid(steps + 1, mark', p', width)
  {
  }

  lemma PaidInAll(steps: int, mark: int, p: int, width: int, n: int)
    requires Paid(steps, mark, p, width) && 0 <= p < width && 0 <= mark <= n
    ensures steps <= n * width + width - 1 && steps + 1 <= (n + 1) * width
  {
  }

  /** Single-star backtracking. steps counts the iterations of the main loop. */
  method Match(pattern: string, id: string) returns (r: bool, ghost steps: nat)
    ensures r <==> Meets(pattern, id)
    ensures steps <= (|id| + 1) * (|pattern| + 1)
  {
    hide Searching, Stands, Paid, Meets;
    var p, s := 0, 0;
    var star, mark := -1, 0;
    steps := 0;
    SearchStart(pattern, id);
    NothingPaid(|pattern| + 1);
    while s < |id|
      invariant InRange(pattern, id, At(p, s, star, mark))
      invariant Searching(pattern, id, At(p, s, star, mark))
      invariant Paid(steps, mark, p, |pattern| + 1)
      decreases |id| - mark, |pattern| - p
    {
      ghost var a := At(p, s, star, mark);
      if p < |pattern| && (pattern[p] == '?' || pattern[p] == id[s]) {
        SearchLiteral(pattern, id, a);
        PaidStep(steps, mark, p, mark, p + 1, |pattern| + 1);
        p := p + 1;
        s := s + 1;
      } else if p < |pattern| && pattern[p] == '*' {
        SearchStar(pattern, id, a);
        PaidStep(steps, mark, p, s, p + 1, |pattern| + 1);
        star, mark := p, s;
        p := p + 1;
      } else if star >= 0 {
        SearchBack(pattern, id, a);
        PaidStep(steps, mark, p, mark + 1, star + 1, |pattern| + 1);
        p := star + 1;
        mark := mark + 1;
        s := mark;
      } else {
        DeadEnd(pattern, id, a);
        SearchFails(pattern, id, a);
        PaidInAll(steps, mark, p, |pattern| + 1, |id|);
        return false, steps + 1;
      }
      steps := steps + 1;
    }
    PaidInAll(steps, mark, p, |pattern| + 1, |id|);
    ghost var a := At(p, s, star, mark);
    SearchEnds(pattern, id, a);
    while p < |pattern| && pattern[p] == '*'
      invariant a.p <= p <= |pattern|
      invariant forall i :: a.p <= i < p ==> pattern[i] == '*'
    {
      p := p + 1;
    }
    r := p == |pattern|;
  }

  lemma SearchFails(pattern: string, id: string, a: At)
    requires InRange(pattern, id, a) && Searching(pattern, id, a) && a.star == -1
    requires !Meets(pattern[a.p..], id[a.s..])
    ensures !Meets(pattern, id)
  {
    hide Meets;
  }

  // ----- when that is the glob -----------------------------------------------------------------------

  /** What Match accepts always matches. */
  lemma {:induction false} MeetsIsGlob(pattern: string, id: string)
    requires Meets(pattern, id)
    ensures Glob(pattern, id)
    decreases |pattern|
  {
    if pattern != [] {
      var rest := pattern[1..];
      if id == [] {
        MeetsIsGlob(rest, []);
        assert id[0..] == [];
      } else if pattern[0] == '?' || pattern[0] == id[0] {
        MeetsIsGlob(rest, id[1..]);
      } else {
        var k :| 0 <= k <= |id| && Meets(rest, id[k..]);
        MeetsIsGlob(rest, id[k..]);
      }
    }
  }

  lemma StarFreeTail(s: string, k: int)
    requires StarFree(s) && 0 <= k <= |s|
    ensures StarFree(s[k..]) && (s != [] ==> s[0] != '*')
  {
    if s != [] { assert s[0] in s; }
  }

  /** Without a star in the id, or without one in the pattern, Match accepts exactly what the glob does. */
  lemma {:induction false} NoStarNoDifference(pattern: string, id: string)
    requires StarFree(id) || StarFree(pattern)
    ensures Meets(pattern, id) <==> Glob(pattern, id)
    decreases |pattern|
  {
    if Meets(pattern, id) {
      MeetsIsGlob(pattern, id);
    } else if pattern != [] && Glob(pattern, id) {
      if StarFree(pattern) { StarFreeTail(pattern, 1); }
      if pattern[0] == '*' {
        var k :| 0 <= k <= |id| && Glob(pattern[1..], id[k..]);
        StarFreeTail(id, k);
        NoStarNoDifference(pattern[1..], id[k..]);
      } else {
        if StarFree(id) { StarFreeTail(id, 1); }
        NoStarNoDifference(pattern[1..], id[1..]);
      }
    }
  }

  /** All '?' but for one '*' at i. */
  predicate OnlyStarAt(pattern: string, i: int)
    requires 0 <= i < |pattern|
  {
    pattern[i] == '*' && forall j :: 0 <= j < |pattern| && j != i ==> pattern[j] == '?'
  }

  lemma {:induction false} WildcardsCount(pattern: string, id: string)
    requires forall j :: 0 <= j < |pattern| ==> pattern[j] == '?'
    ensures Glob(pattern, id) <==> |pattern| == |id|
    ensures Meets(pattern, id) <==> |pattern| == |id|
  {
    if pattern != [] && id != [] { WildcardsCount(pattern[1..], id[1..]); }
  }

  /** A star with one character too many around it takes in nothing, unless it is taken for the star it faces. */
  lemma {:induction false} OneStarTooMany(pattern: string, id: string, i: int)
    requires |pattern| == |id| + 1 && 0 <= i < |id| && OnlyStarAt(pattern, i) && id[i] == '*'
    ensures Glob(pattern, id) && !Meets(pattern, id)
    decreases i
  {
    if i == 0 {
      WildcardsCount(pattern[1..], id);
      WildcardsCount(pattern[1..], id[1..]);
      assert id[0..] == id;
    } else {
      OneStarTooMany(pattern[1..], id[1..], i - 1);
    }
  }

  /** Match agrees with the glob on every pattern exactly for the ids without a star. */
  lemma AgreesExactlyWithoutStars(id: string)
    ensures (forall pattern :: Meets(pattern, id) <==> Glob(pattern, id)) <==> StarFree(id)
  {
    if StarFree(id) {
      forall pattern ensures Meets(pattern, id) <==> Glob(pattern, id) { NoStarNoDifference(pattern, id); }
    } else {
      var i :| 0 <= i < |id| && id[i] == '*';
      var pattern := seq(|id| + 1, j => if j == i then '*' else '?');
      assert OnlyStarAt(pattern, i);
      OneStarTooMany(pattern, id, i);
    }
  }

  // ----- check IDs --------------------------------------------------------------------------

  predicate WordChar(c: char) { 'a' <= c <= 'z' || '0' <= c <= '9' || c == '_' }

  predicate Word(s: string) {
    s != "" && 'a' <= s[0] <= 'z' && forall i :: 0 <= i < |s| ==> WordChar(s[i])
  }

  /** <module>.<area>.<condition> */
  predicate ValidID(s: string) {
    exists i, j :: 0 <= i < j < |s| && s[i] == '.' && s[j] == '.' &&
                   Word(s[..i]) && Word(s[i + 1..j]) && Word(s[j + 1..])
  }

  lemma ValidIDIsStarFree(s: string)
    requires ValidID(s)
    ensures StarFree(s)
  {
  }

  predicate IDChar(c: char) { 'a' <= c <= 'z' || '0' <= c <= '9' || c == '_' || c == '.' }

  /** Where a word begins, at the front or after a dot, there is a letter. */
  predicate LetterFirst(s: string, k: int)
    requires 0 <= k <= |s|
  {
    k == 0 || s[k - 1] == '.' ==> k < |s| && 'a' <= s[k] <= 'z'
  }

  predicate OnlyDots(s: string, i: int, j: int) {
    && 0 <= i < j < |s| && s[i] == '.' && s[j] == '.'
    && forall k :: 0 <= k < |s| && s[k] == '.' ==> k == i || k == j
  }

  /** Exactly two dots, no other characters than an ID has, and a letter at each beginning. */
  ghost predicate ThreeWords(s: string) {
    && (exists i, j :: OnlyDots(s, i, j))
    && (forall k :: 0 <= k < |s| ==> IDChar(s[k]))
    && (forall k :: 0 <= k <= |s| ==> LetterFirst(s, k))
  }

  lemma ValidIDMeans(s: string)
    ensures ValidID(s) <==> ThreeWords(s)
  {
    if ValidID(s) {
      var i, j :| 0 <= i < j < |s| && s[i] == '.' && s[j] == '.' &&
                  Word(s[..i]) && Word(s[i + 1..j]) && Word(s[j + 1..]);
      WordsBetween(s, i, j);
    }
    if ThreeWords(s) {
      var i, j :| OnlyDots(s, i, j);
      WordsFrom(s, i, j);
    }
  }

  lemma WordsBetween(s: string, i: int, j: int)
    requires 0 <= i < j < |s| && s[i] == '.' && s[j] == '.'
    requires Word(s[..i]) && Word(s[i + 1..j]) && Word(s[j + 1..])
    ensures OnlyDots(s, i, j) && (forall k :: 0 <= k < |s| ==> IDChar(s[k]))
    ensures forall k :: 0 <= k <= |s| ==> LetterFirst(s, k)
  {
    assert forall k :: 0 <= k < i ==> s[k] == s[..i][k];
    assert forall k :: i < k < j ==> s[k] == s[i + 1..j][k - i - 1];
    assert forall k :: j < k < |s| ==> s[k] == s[j + 1..][k - j - 1];
  }

  lemma WordsFrom(s: string, i: int, j: int)
    requires OnlyDots(s, i, j) && (forall k :: 0 <= k < |s| ==> IDChar(s[k]))
    requires forall k :: 0 <= k <= |s| ==> LetterFirst(s, k)
    ensures Word(s[..i]) && Word(s[i + 1..j]) && Word(s[j + 1..])
  {
    assert LetterFirst(s, 0) && LetterFirst(s, i + 1) && LetterFirst(s, j + 1);
  }

  /**
   * What registration looks at; prefix is the module name and complete stands
   * for the checks on title, severity and mode.
   */
  datatype Meta = Meta(id: string, aliases: seq<string>, prefix: string, complete: bool)

  predicate HasPrefix(id: string, prefix: string) {
    |prefix| < |id| && id[..|prefix|] == prefix && id[|prefix|] == '.' && '.' !in prefix
  }

  predicate Valid(m: Meta) {
    && ValidID(m.id) && HasPrefix(m.id, m.prefix) && m.complete
    && forall a :: a in m.aliases ==> ValidID(a) && a != m.id
  }

  lemma ValidMeta(m: Meta)
    requires Valid(m)
    ensures ValidID(m.id) && forall a :: a in m.aliases ==> a != m.id
  {
  }

  /** The module is the ID up to its first dot. */
  predicate ModuleOf(id: string, module_: string) {
    && |module_| < |id| && id[|module_|] == '.'
    && forall k :: 0 <= k < |module_| ==> module_[k] == id[k] && id[k] != '.'
  }

  lemma ValidMeans(m: Meta)
    ensures Valid(m) <==>
      && ThreeWords(m.id) && ModuleOf(m.id, m.prefix) && m.complete
      && forall a :: a in m.aliases ==> ThreeWords(a) && a != m.id
  {
    forall s ensures ValidID(s) <==> ThreeWords(s) { ValidIDMeans(s); }
    hide ValidID, ThreeWords;
    if ModuleOf(m.id, m.prefix) { assert m.id[..|m.prefix|] == m.prefix; }
    if HasPrefix(m.id, m.prefix) {
      assert forall k :: 0 <= k < |m.prefix| ==> m.prefix[k] == m.id[..|m.prefix|][k] && m.prefix[k] in m.prefix;
    }
  }

  predicate ByID(a: Meta, b: Meta) { Compare(a.id, b.id) <= 0 }

  ghost predicate OncePerID(ms: seq<Meta>) {
    forall i, j :: 0 <= i < j < |ms| ==> ms[i].id != ms[j].id
  }

  lemma {:induction false} OncePerIDCounts(ms: seq<Meta>, m: Meta)
    requires OncePerID(ms)
    ensures multiset(ms)[m] <= 1
  {
    if ms != [] {
      OncePerIDCounts(ms[1..], m);
      assert ms == [ms[0]] + ms[1..];
    }
  }

  lemma ByIDIsOrder()
    ensures forall a: Meta, b: Meta :: ByID(a, b) || ByID(b, a)
    ensures forall a: Meta, b: Meta, c: Meta :: ByID(a, b) && ByID(b, c) ==> ByID(a, c)
  {
    hide Compare;
    forall a: Meta, b: Meta ensures ByID(a, b) || ByID(b, a) { CompareMirror(a.id, b.id); }
    forall a: Meta, b: Meta, c: Meta | ByID(a, b) && ByID(b, c) ensures ByID(a, c) { CompareChain(a.id, b.id, c.id); }
  }

  lemma PermutedOncePerID(ms: seq<Meta>, out: seq<Meta>)
    requires multiset(out) == multiset(ms) && OncePerID(ms)
    ensures OncePerID(out)
    ensures forall m :: m in out <==> m in ms
  {
    MultisetMembers(ms, out);
    forall i, j | 0 <= i < j < |out| ensures out[i].id != out[j].id {
      assert out[i] in ms && out[j] in ms;
      if out[i] == out[j] {
        TwiceCounts(out, i, j);
        OncePerIDCounts(ms, out[i]);
      }
    }
  }

  lemma SortChecks(ms: seq<Meta>)
    requires OncePerID(ms)
    ensures SortedBy(Sort(ms, ByID), ByID) && OncePerID(Sort(ms, ByID))
    ensures forall m :: m in Sort(ms, ByID) <==> m in ms
  {
    ByIDIsOrder();
    SortSorts(ms, ByID);
    PermutedOncePerID(ms, Sort(ms, ByID));
  }

  lemma SortedByID(ms: seq<Meta>, i: int, j: int)
    requires SortedBy(ms, ByID) && OncePerID(ms) && 0 <= i < j < |ms|
    ensures Before(ms[i].id, ms[j].id)
  {
    hide Compare, Before;
    CompareMirror(ms[i].id, ms[j].id);
    CompareMeans(ms[i].id, ms[j].id);
  }

  predicate HasWildcard(p: string) { '*' in p || '?' in p }

  predicate ValidPattern(p: string) {
    p != "" && forall i :: 0 <= i < |p| ==> WordChar(p[i]) || p[i] in ".*?"
  }

  predicate Negated(p: string) { p != "" && p[0] == '!' }

  function Bare(p: string): string { if Negated(p) then p[1..] else p }

  class Checks {
    var checks: map<string, Meta>
    var aliases: map<string, string>

    ghost predicate Coherent()
      reads this
    {
      && checks.Keys !! aliases.Keys
      && (forall id :: id in checks ==> checks[id].id == id && ValidID(id))
      && (forall a :: a in aliases ==> aliases[a] in checks)
    }

    constructor ()
      ensures Coherent() && checks == map[] && aliases == map[]
    {
      checks, aliases := map[], map[];
    }

    predicate Taken(id: string)
      reads this
    {
      id in checks || id in aliases
    }

    method Register(m: Meta) returns (ok: bool)
      requires Coherent()
      modifies this
      ensures Coherent()
      ensures ok <==>
        && Valid(m) && m.id !in old(checks) && m.id !in old(aliases)
        && forall a :: a in m.aliases ==> a !in old(checks) && a !in old(aliases)
      ensures checks == if ok then old(checks)[m.id := m] else old(checks)
      ensures aliases == if ok then old(aliases) + (map a | a in m.aliases :: m.id) else old(aliases)
    {
      hide Valid, ValidID;
      if !Valid(m) || Taken(m.id) { return false; }
      ValidMeta(m);
      for i := 0 to |m.aliases|
        invariant forall k :: 0 <= k < i ==> !Taken(m.aliases[k])
      {
        if Taken(m.aliases[i]) { return false; }
      }
      checks := checks[m.id := m];
      AddAliases(m);
      ok := true;
    }

    method AddAliases(m: Meta)
      modifies this`aliases
      ensures aliases == old(aliases) + (map a | a in m.aliases :: m.id)
    {
      for i := 0 to |m.aliases|
        invariant aliases == old(aliases) + (map a | a in m.aliases[..i] :: m.id)
      {
        assert forall a :: a in m.aliases[..i + 1] <==> a in m.aliases[..i] || a == m.aliases[i];
        aliases := aliases[m.aliases[i] := m.id];
      }
      assert m.aliases[..|m.aliases|] == m.aliases;
    }

    function Lookup(id: string): Option<Meta>
      reads this
    {
      Get(checks, if id in aliases then aliases[id] else id)
    }

    /** Maps a former check ID to the current one. */
    function CanonicalID(id: string): string
      reads this
    {
      match Lookup(id) case None => id case Some(m) => m.id
    }

    /** Renaming twice is renaming once, and registered IDs are never renamed. */
    lemma CanonicalIDSettles(id: string)
      requires Coherent()
      ensures CanonicalID(CanonicalID(id)) == CanonicalID(id)
      ensures id in checks ==> CanonicalID(id) == id
      ensures id in aliases ==> CanonicalID(id) == aliases[id] && CanonicalID(id) in checks
      ensures id !in checks && id !in aliases ==> CanonicalID(id) == id && Lookup(id) == None
      ensures id in checks ==> Lookup(id) == Some(checks[id])
      ensures id in aliases ==> Lookup(id) == Some(checks[aliases[id]])
    {
    }

    /** What one pattern, its "!" removed, selects. */
    ghost predicate Picks(pattern: string, id: string)
      reads this
    {
      if HasWildcard(pattern) then Glob(pattern, id)
      else if pattern in aliases then aliases[pattern] == id
      else pattern == id
    }

    method Matches(pattern: string, id: string) returns (r: bool)
      requires Coherent() && id in checks
      ensures r <==> Picks(pattern, id)
    {
      if !HasWildcard(pattern) {
        if pattern in aliases { return aliases[pattern] == id; }
        return pattern == id;
      }
      ValidIDIsStarFree(id);
      NoStarNoDifference(pattern, id);
      ghost var steps;
      r, steps := Match(pattern, id);
    }

    /** The checks a pattern picks out of some. */
    method PickedFrom(pattern: string, from: map<string, Meta>) returns (picked: map<string, Meta>)
      requires Coherent() && from.Keys <= checks.Keys
      ensures picked == map id | id in from && Picks(pattern, id) :: from[id]
    {
      hide Picks, ValidID;
      picked := map[];
      var todo := from.Keys;
      while todo != {}
        invariant todo <= from.Keys
        invariant picked == map id | id in from && id !in todo && Picks(pattern, id) :: from[id]
        decreases todo
      {
        var id :| id in todo;
        var r := Matches(pattern, id);
        if r { picked := picked[id := from[id]]; }
        todo := todo - {id};
      }
    }

    ghost predicate Included(patterns: seq<string>, id: string)
      reads this
    {
      || (forall p :: p in patterns ==> Negated(p))
      || (exists p :: p in patterns && !Negated(p) && Picks(p, id))
    }

    ghost predicate Excluded(patterns: seq<string>, id: string)
      reads this
    {
      exists p :: p in patterns && Negated(p) && Picks(Bare(p), id)
    }

    /** A pattern that is malformed, or an inclusion that matches nothing, is an error. */
    ghost predicate Refused(patterns: seq<string>)
      reads this
    {
      || (exists p :: p in patterns && !ValidPattern(Bare(p)))
      || (exists p :: p in patterns && !Negated(p) && forall id :: id in checks ==> !Picks(p, id))
    }

    method SplitPatterns(patterns: seq<string>) returns (ok: bool, wanted: seq<string>, unwanted: seq<string>)
      ensures ok <==> forall p :: p in patterns ==> ValidPattern(Bare(p))
      ensures ok ==> forall p :: p in wanted <==> p in patterns && !Negated(p)
      ensures ok ==> forall q :: q in unwanted <==> exists p :: p in patterns && Negated(p) && q == Bare(p)
    {
      hide ValidPattern;
      wanted, unwanted := [], [];
      for i := 0 to |patterns|
        invariant forall p :: p in patterns[..i] ==> ValidPattern(Bare(p))
        invariant forall p :: p in wanted <==> p in patterns[..i] && !Negated(p)
        invariant forall q :: q in unwanted <==> exists p :: p in patterns[..i] && Negated(p) && q == Bare(p)
      {
        var p := patterns[i];
        assert forall x :: x in patterns[..i + 1] <==> x in patterns[..i] || x == p;
        if !ValidPattern(Bare(p)) { return false, [], []; }
        if Negated(p) { unwanted := unwanted + [Bare(p)]; } else { wanted := wanted + [p]; }
      }
      assert patterns[..|patterns|] == patterns;
      ok := true;
    }

    ghost predicate AnyPicks(patterns: seq<string>, id: string)
      reads this
    {
      exists p :: p in patterns && Picks(p, id)
    }

    ghost predicate PicksSome(pattern: string)
      reads this
    {
      exists id :: id in checks && Picks(pattern, id)
    }

    lemma OneMorePattern(patterns: seq<string>, i: int)
      requires 0 <= i < |patterns|
      ensures forall p :: p in patterns[..i + 1] <==> p in patterns[..i] || p == patterns[i]
      ensures forall id :: AnyPicks(patterns[..i + 1], id) <==> AnyPicks(patterns[..i], id) || Picks(patterns[i], id)
    {
    }

    lemma NoPatternYet(patterns: seq<string>)
      ensures forall p :: p !in patterns[..0]
      ensures forall id :: !AnyPicks(patterns[..0], id)
      ensures patterns[..|patterns|] == patterns
    {
    }

    lemma PickedSome(pattern: string, picked: map<string, Meta>)
      requires picked == map id | id in checks && Picks(pattern, id) :: checks[id]
      ensures PicksSome(pattern) <==> picked != map[]
    {
      hide Picks;
      if PicksSome(pattern) {
        var id :| id in checks && Picks(pattern, id);
        assert id in picked;
      }
    }

    lemma AddPicked(wanted: seq<string>, i: int, selected: map<string, Meta>, picked: map<string, Meta>)
      requires 0 <= i < |wanted|
      requires forall id :: AnyPicks(wanted[..i + 1], id) <==> AnyPicks(wanted[..i], id) || Picks(wanted[i], id)
      requires selected == map id | id in checks && AnyPicks(wanted[..i], id) :: checks[id]
      requires picked == map id | id in checks && Picks(wanted[i], id) :: checks[id]
      ensures selected + picked == map id | id in checks && AnyPicks(wanted[..i + 1], id) :: checks[id]
    {
    }

    method KeepWanted(wanted: seq<string>) returns (ok: bool, selected: map<string, Meta>)
      requires Coherent()
      ensures ok <==> forall p :: p in wanted ==> PicksSome(p)
      ensures ok ==> selected == map id | id in checks && (wanted == [] || AnyPicks(wanted, id)) :: checks[id]
    {
      hide Picks, PicksSome, AnyPicks, Coherent;
      if |wanted| == 0 { return true, checks; }
      NoPatternYet(wanted);
      selected := map[];
      for i := 0 to |wanted|
        invariant forall p :: p in wanted[..i] ==> PicksSome(p)
        invariant selected == map id | id in checks && AnyPicks(wanted[..i], id) :: checks[id]
      {
        OneMorePattern(wanted, i);
        var picked := PickedFrom(wanted[i], checks);
        PickedSome(wanted[i], picked);
        if picked == map[] { return false, map[]; }
        AddPicked(wanted, i, selected, picked);
        selected := selected + picked;
      }
      ok := true;
    }

    method DropUnwanted(unwanted: seq<string>, all: map<string, Meta>) returns (selected: map<string, Meta>)
      requires Coherent() && all.Keys <= checks.Keys
      ensures selected == map id | id in all && !AnyPicks(unwanted, id) :: all[id]
    {
      hide Picks, AnyPicks, Coherent;
      NoPatternYet(unwanted);
      selected := all;
      for i := 0 to |unwanted|
        invariant selected == map id | id in all && !AnyPicks(unwanted[..i], id) :: all[id]
      {
        OneMorePattern(unwanted, i);
        var picked := PickedFrom(unwanted[i], selected);
        selected := selected - picked.Keys;
      }
    }

    lemma SplitMeans(patterns: seq<string>, wanted: seq<string>, unwanted: seq<string>)
      requires forall p :: p in wanted <==> p in patterns && !Negated(p)
      requires forall q :: q in unwanted <==> exists p :: p in patterns && Negated(p) && q == Bare(p)
      ensures forall id :: Included(patterns, id) <==> wanted == [] || AnyPicks(wanted, id)
      ensures forall id :: Excluded(patterns, id) <==> AnyPicks(unwanted, id)
      ensures (exists p :: p in patterns && !Negated(p) && forall id :: id in checks ==> !Picks(p, id)) <==>
              exists p :: p in wanted && !PicksSome(p)
    {
      hide Picks, Negated, Bare;
      assert wanted == [] <==> forall p :: p in patterns ==> Negated(p) by {
        if wanted != [] { assert wanted[0] in wanted; }
      }
      forall id ensures Excluded(patterns, id) <==> AnyPicks(unwanted, id) {
        if Excluded(patterns, id) {
          var p :| p in patterns && Negated(p) && Picks(Bare(p), id);
          assert Bare(p) in unwanted;
        }
      }
      forall p ensures PicksSome(p) <==> !forall id :: id in checks ==> !Picks(p, id) { }
    }

    method SortedChecks(selected: map<string, Meta>) returns (out: seq<Meta>)
      requires forall id :: id in selected ==> selected[id].id == id
      ensures forall m :: m in out <==> m.id in selected && m == selected[m.id]
      ensures SortedBy(out, ByID) && OncePerID(out)
    {
      out := [];
      var todo := selected.Keys;
      while todo != {}
        invariant todo <= selected.Keys
        invariant forall m :: m in out <==> m.id in selected && m.id !in todo && m == selected[m.id]
        invariant OncePerID(out)
        decreases todo
      {
        var id :| id in todo;
        out := out + [selected[id]];
        todo := todo - {id};
      }
      SortChecks(out);
      out := Sort(out, ByID);
    }

    /** The checks the patterns select, sorted by ID; exclusions win wherever they stand. */
    method Select(patterns: seq<string>) returns (r: Result<seq<Meta>, ()>)
      requires Coherent()
      ensures r.Err? <==> Refused(patterns)
      ensures r.Ok? ==> forall m :: m in r.value <==>
        m.id in checks && m == checks[m.id] && Included(patterns, m.id) && !Excluded(patterns, m.id)
      ensures r.Ok? ==> SortedBy(r.value, ByID) && OncePerID(r.value)
    {
      hide Picks, ValidPattern, SortedBy, Included, Excluded, AnyPicks, PicksSome, OncePerID, Bare, Negated;
      var ok, wanted, unwanted := SplitPatterns(patterns);
      if !ok { return Err(()); }
      SplitMeans(patterns, wanted, unwanted);
      var selected;
      ok, selected := KeepWanted(wanted);
      if !ok { return Err(()); }
      selected := DropUnwanted(unwanted, selected);
      var out := SortedChecks(selected);
      r := Ok(out);
    }

    // ----- what patterns select, letter by letter ----------------------------------------------------

    /** A pattern names checks as a glob if it has a wildcard, or else by a current or former ID. */
    ghost predicate Names(pattern: string, id: string)
      reads this
    {
      if exists k :: 0 <= k < |pattern| && (pattern[k] == '*' || pattern[k] == '?') then Glob(pattern, id)
      else if pattern in aliases then id == aliases[pattern]
      else id == pattern
    }

    lemma PicksMeans(pattern: string, id: string)
      ensures Picks(pattern, id) <==> Names(pattern, id)
    {
      assert HasWildcard(pattern) <==> exists k :: 0 <= k < |pattern| && (pattern[k] == '*' || pattern[k] == '?');
    }

    /** p is "!" and then q. */
    lemma NegatedMeans(p: string)
      ensures Negated(p) <==> |p| > 0 && p[0] == '!'
      ensures Negated(p) ==> p == "!" + Bare(p)
      ensures !Negated(p) ==> p == Bare(p)
    {
    }

    lemma IncludedMeans(patterns: seq<string>, id: string)
      ensures Included(patterns, id) <==>
        || (forall p :: p in patterns ==> |p| > 0 && p[0] == '!')
        || exists p :: p in patterns && !(|p| > 0 && p[0] == '!') && Names(p, id)
    {
      forall p ensures Picks(p, id) <==> Names(p, id) { PicksMeans(p, id); }
      forall p ensures Negated(p) <==> |p| > 0 && p[0] == '!' { NegatedMeans(p); }
      hide Picks, Names, Negated;
    }

    lemma ExcludedMeans(patterns: seq<string>, id: string)
      ensures Excluded(patterns, id) <==> exists q :: ("!" + q) in patterns && Names(q, id)
    {
      if Excluded(patterns, id) {
        var p :| p in patterns && Negated(p) && Picks(Bare(p), id);
        NegatedMeans(p);
        PicksMeans(Bare(p), id);
        assert ("!" + Bare(p)) in patterns;
      }
      if q :| ("!" + q) in patterns && Names(q, id) {
        var p := "!" + q;
        assert Negated(p) && Bare(p) == q;
        PicksMeans(q, id);
      }
    }

    /** Empty, or with a character that is neither an ID's nor a wildcard. */
    predicate Malformed(q: string) {
      q == "" || exists k :: 0 <= k < |q| && !IDChar(q[k]) && q[k] != '*' && q[k] != '?'
    }

    lemma ValidPatternMeans(q: string)
      ensures ValidPattern(q) <==> !Malformed(q)
    {
    }

    lemma RefusedMeans(patterns: seq<string>)
      ensures Refused(patterns) <==>
        || (exists q :: ("!" + q) in patterns && Malformed(q))
        || (exists p :: p in patterns && !(|p| > 0 && p[0] == '!') && Malformed(p))
        || exists p :: p in patterns && !(|p| > 0 && p[0] == '!') && forall id :: id in checks ==> !Names(p, id)
    {
      forall p, id ensures Picks(p, id) <==> Names(p, id) { PicksMeans(p, id); }
      forall q ensures ValidPattern(q) <==> !Malformed(q) { ValidPatternMeans(q); }
      hide Picks, Names, ValidPattern, Malformed;
      if p :| p in patterns && !ValidPattern(Bare(p)) {
        NegatedMeans(p);
        assert Negated(p) ==> ("!" + Bare(p)) in patterns;
      }
      if q :| ("!" + q) in patterns && Malformed(q) { assert Bare("!" + q) == q; }
    }
  }
}
