/** SPF macro-strings and domain-specs (section 7.1 of RFC 7208): the scanner against the grammar. */
module Macros {
  import opened Core

  predicate IsAlpha(c: char) { 'a' <= c <= 'z' || 'A' <= c <= 'Z' }

  predicate IsDigit(c: char) { '0' <= c <= '9' }

  // ----- the grammar --------------------------------------------------------------------------

  /**
   * The elements of a macro-string: a literal character, "%%", "%_" or "%-",
   * or an expansion "%{" letter, digits, optional "r", delimiters "}".
   */
  datatype Element =
    | Literal(c: char)
    | Escape(c: char)
    | Expand(letter: char, digits: string, reverse: string, delimiters: string)

  /** s l o d i p h v in either case, and c r t only in an exp= modifier. */
  predicate Letter(c: char, exp: bool) {
    var l := LowerChar(c);
    || l == 's' || l == 'l' || l == 'o' || l == 'd' || l == 'i' || l == 'p' || l == 'h' || l == 'v'
    || (exp && (l == 'c' || l == 'r' || l == 't'))
  }

  predicate Delimiter(c: char) {
    c == '.' || c == '-' || c == '+' || c == ',' || c == '/' || c == '_' || c == '='
  }

  predicate Escapable(c: char) { c == '%' || c == '_' || c == '-' }

  predicate WellFormed(e: Element, exp: bool) {
    match e
    case Literal(c) => 0x21 as char <= c <= 0x7e as char && c != '%'
    case Escape(c) => Escapable(c)
    case Expand(letter, digits, reverse, delimiters) =>
      && Letter(letter, exp)
      && (forall i :: 0 <= i < |digits| ==> IsDigit(digits[i]))
      && (reverse == "" || reverse == "r" || reverse == "R")
      && (forall i :: 0 <= i < |delimiters| ==> Delimiter(delimiters[i]))
  }

  function Body(e: Element): string
    requires e.Expand?
  {
    [e.letter] + e.digits + e.reverse + e.delimiters
  }

  function Text(e: Element): string {
    match e
    case Literal(c) => [c]
    case Escape(c) => ['%', c]
    case Expand(_, _, _, _) => "%{" + Body(e) + "}"
  }

  function Texts(es: seq<Element>): string {
    if es == [] then "" else Text(es[0]) + Texts(es[1..])
  }

  /** The elements are a reading of s in the grammar. */
  ghost predicate Reads(es: seq<Element>, s: string, exp: bool) {
    (forall i :: 0 <= i < |es| ==> WellFormed(es[i], exp)) && Texts(es) == s
  }

  predicate EndsWithExpansion(es: seq<Element>) { es != [] && es[|es| - 1].Expand? }

  predicate EndsWithEscape(es: seq<Element>) { es != [] && es[|es| - 1].Escape? }

  /** The character classes of section 7.1, written out. */
  lemma Alphabets(c: char, exp: bool)
    ensures Letter(c, exp) <==> c in "slodiphvSLODIPHV" || (exp && c in "crtCRT")
    ensures Delimiter(c) <==> c in ".-+,/_="
    ensures Escapable(c) <==> c in "%_-"
    ensures IsDigit(c) <==> c in "0123456789"
    ensures IsAlpha(c) <==> 65 <= c as int <= 90 || 97 <= c as int <= 122
  {
  }

  // ----- one element at a time ---------------------------------------------------------------------

  /** The body of an expansion, taken apart the way the scanner does. */
  ghost predicate SplitsBody(body: string, e: Element, exp: bool) {
    e.Expand? && WellFormed(e, exp) && body == Body(e)
  }

  lemma BodyHasNoBrace(e: Element, exp: bool, k: int)
    requires e.Expand? && WellFormed(e, exp) && 0 <= k < |Body(e)|
    ensures Body(e)[k] != '}'
  {
    var n, m := |e.digits|, |e.reverse|;
    if k == 0 {
      assert Body(e)[k] == e.letter;
    } else if k < 1 + n {
      assert Body(e)[k] == e.digits[k - 1];
    } else if k < 1 + n + m {
      assert Body(e)[k] == e.reverse[k - 1 - n];
    } else {
      assert Body(e)[k] == e.delimiters[k - 1 - n - m];
    }
  }

  lemma NoLetter(body: string, exp: bool)
    requires body == "" || !Letter(body[0], exp)
    ensures !exists x :: SplitsBody(body, x, exp)
  {
    forall x: Element | x.Expand? && WellFormed(x, exp) ensures body != Body(x) { assert Body(x)[0] == x.letter; }
  }

  /** The scanner's reading of a body: digits as far as they go, an optional r, and the rest must be delimiters. */
  method ScanBody(body: string, exp: bool) returns (ok: bool, ghost e: Element)
    ensures ok <==> exists x :: SplitsBody(body, x, exp)
    ensures ok ==> SplitsBody(body, e, exp)
  {
    hide Letter, Delimiter, SplitsBody;
    e := Literal('x');
    if |body| == 0 || !Letter(body[0], exp) {
      NoLetter(body, exp);
      return false, e;
    }
    var j := 1;
    while j < |body| && IsDigit(body[j])
      invariant 1 <= j <= |body|
      invariant forall k :: 1 <= k < j ==> IsDigit(body[k])
    {
      j := j + 1;
    }
    ghost var d := j;
    if j < |body| && LowerChar(body[j]) == 'r' { j := j + 1; }
    ghost var r := j;
    while j < |body|
      invariant r <= j <= |body|
      invariant forall k :: r <= k < j ==> Delimiter(body[k])
    {
      if !Delimiter(body[j]) {
        NoOtherReading(body, exp, d, r, j);
        return false, e;
      }
      j := j + 1;
    }
    e := Expand(body[0], body[1..d], body[d..r], body[r..]);
    BodyRead(body, exp, d, r);
    ok := true;
  }

  /** A text is its parts. */
  lemma FourParts(s: string, a: int, b: int)
    requires 1 <= a <= b <= |s|
    ensures s == [s[0]] + s[1..a] + s[a..b] + s[b..]
  {
  }

  lemma OptionalR(body: string, d: int, r: int)
    requires 1 <= d <= r <= |body|
    requires r == if d < |body| && LowerChar(body[d]) == 'r' then d + 1 else d
    ensures body[d..r] == "" || body[d..r] == "r" || body[d..r] == "R"
  {
    if r == d + 1 { assert body[d..r] == [body[d]]; }
  }

  lemma BodyRead(body: string, exp: bool, d: int, r: int)
    requires 1 <= d <= r <= |body| && Letter(body[0], exp)
    requires forall k :: 1 <= k < d ==> IsDigit(body[k])
    requires r == if d < |body| && LowerChar(body[d]) == 'r' then d + 1 else d
    requires forall k :: r <= k < |body| ==> Delimiter(body[k])
    ensures SplitsBody(body, Expand(body[0], body[1..d], body[d..r], body[r..]), exp)
  {
    OptionalR(body, d, r);
    FourParts(body, d, r);
    hide Delimiter, Letter, IsDigit, LowerChar;
  }

  /** How many digits s begins with. */
  function DigitRun(s: string): nat {
    if s != "" && IsDigit(s[0]) then 1 + DigitRun(s[1..]) else 0
  }

  lemma {:induction false} DigitsRunOut(digits: string, rest: string)
    requires forall i :: 0 <= i < |digits| ==> IsDigit(digits[i])
    requires rest == "" || !IsDigit(rest[0])
    ensures DigitRun(digits + rest) == |digits|
  {
    if digits == "" {
      assert digits + rest == rest;
    } else {
      assert (digits + rest)[1..] == digits[1..] + rest;
      DigitsRunOut(digits[1..], rest);
    }
  }

  /** Past the digits and the optional r, a well-formed body has nothing but delimiters. */
  lemma OnlyDelimitersLeft(x: Element, exp: bool, d: int, r: int, k: int)
    requires x.Expand? && WellFormed(x, exp)
    requires 1 <= d <= r <= k < |Body(x)|
    requires forall i :: 1 <= i < d ==> IsDigit(Body(x)[i])
    requires !IsDigit(Body(x)[d])
    requires r == if LowerChar(Body(x)[d]) == 'r' then d + 1 else d
    ensures Delimiter(Body(x)[k])
  {
    TailStarts(x, exp);
    hide Letter, Delimiter, IsDigit, LowerChar;
    var body, tail := Body(x), x.reverse + x.delimiters;
    assert body[1..] == x.digits + tail && body[1..] == body[1..d] + body[d..];
    DigitsRunOut(x.digits, tail);
    DigitsRunOut(body[1..d], body[d..]);
    assert d == 1 + |x.digits|;
    BodyTail(x, k);
    BodyTail(x, d);
  }

  lemma TailStarts(x: Element, exp: bool)
    requires x.Expand? && WellFormed(x, exp)
    ensures var tail := x.reverse + x.delimiters; tail != "" ==> !IsDigit(tail[0])
    ensures x.reverse != "" ==> |x.reverse| == 1 && LowerChar(x.reverse[0]) == 'r'
    ensures x.reverse == "" && x.delimiters != "" ==> LowerChar(x.delimiters[0]) != 'r'
  {
    var tail := x.reverse + x.delimiters;
    if tail != "" { assert tail[0] == if x.reverse == "" then x.delimiters[0] else x.reverse[0]; }
  }

  lemma BodyTail(x: Element, k: int)
    requires x.Expand? && 1 + |x.digits| <= k < |Body(x)|
    ensures Body(x)[1 + |x.digits|] == (x.reverse + x.delimiters)[0]
    ensures var i := k - 1 - |x.digits|;
      Body(x)[k] == if i < |x.reverse| then x.reverse[i] else x.delimiters[i - |x.reverse|]
  {
  }

  lemma NoOtherReading(body: string, exp: bool, d: int, r: int, bad: int)
    requires 1 <= d <= r <= bad < |body|
    requires forall k :: 1 <= k < d ==> IsDigit(body[k])
    requires !IsDigit(body[d])
    requires r == if LowerChar(body[d]) == 'r' then d + 1 else d
    requires !Delimiter(body[bad])
    ensures !exists x :: SplitsBody(body, x, exp)
  {
    forall x: Element | x.Expand? && WellFormed(x, exp) ensures body == Body(x) ==> Delimiter(body[bad]) {
      if body == Body(x) { OnlyDelimitersLeft(x, exp, d, r, bad); }
    }
  }

  // ----- the whole string -----------------------------------------------------------------------------

  lemma {:induction false} TextsAppend(es: seq<Element>, e: Element)
    ensures Texts(es + [e]) == Texts(es) + Text(e)
  {
    if es == [] {
      assert es + [e] == [e];
      assert Texts([e]) == Text(e) + Texts([]);
    } else {
      assert (es + [e])[1..] == es[1..] + [e];
      TextsAppend(es[1..], e);
    }
  }

  /** What stands at the front of s: one element, or nothing the grammar allows. */
  ghost predicate Front(e: Element, s: string, exp: bool) {
    WellFormed(e, exp) && Text(e) <= s
  }

  lemma FrontIsUnique(e: Element, f: Element, s: string, exp: bool)
    requires Front(e, s, exp) && Front(f, s, exp)
    ensures Text(e) == Text(f) && e.Expand? == f.Expand? && e.Escape? == f.Escape?
  {
    if e.Expand? && f.Expand? {
      SameBody(e, f, s, exp);
    } else {
      assert s[0] == Text(e)[0] == Text(f)[0];
      assert e.Literal? <==> s[0] != '%';
      if !e.Literal? {
        assert s[1] == Text(e)[1] == Text(f)[1];
        assert e.Expand? <==> s[1] == '{';
      }
    }
  }

  /** The position of the first closing brace. */
  function Brace(s: string, from: nat): nat
    requires from <= |s|
    decreases |s| - from
  {
    if from == |s| || s[from] == '}' then from else Brace(s, from + 1)
  }

  lemma {:induction false} BraceFound(s: string, from: nat, at: nat)
    requires from <= at < |s| && s[at] == '}' && forall k :: from <= k < at ==> s[k] != '}'
    ensures Brace(s, from) == at
    decreases at - from
  {
    if from < at { BraceFound(s, from + 1, at); }
  }

  lemma BraceAfterBody(e: Element, s: string, exp: bool)
    requires e.Expand? && Front(e, s, exp)
    ensures Brace(s, 0) == 2 + |Body(e)| && |s| > 2 + |Body(e)|
    ensures s[..2] == "%{" && s[2..2 + |Body(e)|] == Body(e)
  {
    var n := |Body(e)|;
    assert Text(e) == s[..n + 3];
    forall k | 0 <= k < n + 2 ensures s[k] != '}' {
      assert s[k] == Text(e)[k];
      if k >= 2 { BodyHasNoBrace(e, exp, k - 2); }
    }
    assert s[n + 2] == Text(e)[n + 2];
    BraceFound(s, 0, n + 2);
    assert s[2..2 + n] == Text(e)[2..2 + n];
  }

  lemma SameBody(e: Element, f: Element, s: string, exp: bool)
    requires e.Expand? && f.Expand? && Front(e, s, exp) && Front(f, s, exp)
    ensures Text(e) == Text(f)
  {
    BraceAfterBody(e, s, exp);
    BraceAfterBody(f, s, exp);
  }

  lemma TextsNotEmpty(es: seq<Element>)
    ensures Texts(es) == "" <==> es == []
  {
    if es != [] { assert |Text(es[0])| > 0; }
  }

  lemma Cut(s: string, n: int, dot: int)
    requires 0 <= n <= dot <= |s|
    ensures s[n..][..dot - n] == s[n..dot] && s[..dot] == s[..n] + s[n..dot] && s == s[..n] + s[n..]
  {
  }

  lemma FirstElement(es: seq<Element>, s: string, exp: bool)
    requires es != [] && Reads(es, s, exp)
    ensures Front(es[0], s, exp) && s[..|Text(es[0])|] == Text(es[0]) && Reads(es[1..], s[|Text(es[0])|..], exp)
  {
  }

  /** Any two readings of a string agree on its elements' texts and on what kind of element ends it. */
  lemma {:induction false} ReadingIsUnique(es: seq<Element>, fs: seq<Element>, s: string, exp: bool)
    requires Reads(es, s, exp) && Reads(fs, s, exp)
    ensures |es| == |fs|
    ensures EndsWithExpansion(es) == EndsWithExpansion(fs) && EndsWithEscape(es) == EndsWithEscape(fs)
    ensures forall i :: 0 <= i < |es| ==> Text(es[i]) == Text(fs[i])
    decreases |es|
  {
    TextsNotEmpty(es);
    TextsNotEmpty(fs);
    if es != [] && fs != [] {
      FirstElement(es, s, exp);
      FirstElement(fs, s, exp);
      FrontIsUnique(es[0], fs[0], s, exp);
      hide Reads, Front, Text, Texts;
      ReadingIsUnique(es[1..], fs[1..], s[|Text(es[0])|..], exp);
    }
  }

  /** Once a prefix is read, any reading of the string goes on from there. */
  lemma {:induction false} ReadingContinues(es: seq<Element>, s: string, i: int, exp: bool, fs: seq<Element>)
    requires 0 <= i <= |s| && Reads(es, s[..i], exp) && Reads(fs, s, exp)
    ensures |es| <= |fs| && Reads(fs[|es|..], s[i..], exp)
    decreases |es|
  {
    if es == [] {
      assert |s[..i]| == 0;
      assert fs[0..] == fs && s[0..] == s;
    } else {
      var n := SameFirst(es, s, i, exp, fs);
      hide Reads;
      ReadingContinues(es[1..], s[n..], i - n, exp, fs[1..]);
      assert s[n..][i - n..] == s[i..];
      assert fs[1..][|es| - 1..] == fs[|es|..];
    }
  }

  /** Both readings begin with an element of the same text, of length n. */
  lemma SameFirst(es: seq<Element>, s: string, i: int, exp: bool, fs: seq<Element>) returns (n: int)
    requires 0 <= i <= |s| && Reads(es, s[..i], exp) && Reads(fs, s, exp) && es != []
    ensures fs != [] && 0 < n <= i
    ensures Reads(es[1..], s[n..][..i - n], exp) && Reads(fs[1..], s[n..], exp)
  {
    TextsNotEmpty(es);
    TextsNotEmpty(fs);
    FirstElement(es, s[..i], exp);
    FirstElement(fs, s, exp);
    n := |Text(es[0])|;
    FrontGrows(es[0], s, i, exp);
    FrontIsUnique(es[0], fs[0], s, exp);
    hide Reads, Front, Text, Texts, WellFormed;
    Cut(s, n, i);
  }

  lemma FrontGrows(e: Element, s: string, i: int, exp: bool)
    requires 0 <= i <= |s| && Front(e, s[..i], exp)
    ensures Front(e, s, exp) && 0 < |Text(e)| <= i && s[..i][|Text(e)|..] == s[|Text(e)|..i]
  {
  }

  lemma SomethingInFront(es: seq<Element>, s: string, i: int, exp: bool, fs: seq<Element>)
    requires 0 <= i < |s| && Reads(es, s[..i], exp) && Reads(fs, s, exp)
    ensures exists e :: Front(e, s[i..], exp)
  {
    ReadingContinues(es, s, i, exp, fs);
    var rest := fs[|es|..];
    TextsNotEmpty(rest);
    assert Texts(rest) == Text(rest[0]) + Texts(rest[1..]);
    assert Front(rest[0], s[i..], exp);
  }

  /** No reading of s exists when the rest of s has no element in front. */
  lemma NoReading(es: seq<Element>, s: string, i: int, exp: bool)
    requires 0 <= i < |s| && Reads(es, s[..i], exp)
    ensures (exists e :: Front(e, s[i..], exp)) || !exists fs :: Reads(fs, s, exp)
  {
    forall fs | Reads(fs, s, exp) ensures exists e :: Front(e, s[i..], exp) {
      SomethingInFront(es, s, i, exp, fs);
    }
  }

  lemma OneMoreElement(es: seq<Element>, e: Element, s: string, i: int, exp: bool)
    requires 0 <= i < |s| && Reads(es, s[..i], exp) && Front(e, s[i..], exp)
    ensures i + |Text(e)| <= |s| && Reads(es + [e], s[..i + |Text(e)|], exp)
  {
    TextsAppend(es, e);
    assert s[..i + |Text(e)|] == s[..i] + Text(e);
  }

  /** Does c begin an element, and which? Shared by the two cases that do not scan ahead. */
  lemma FrontOf(s: string, exp: bool)
    requires s != ""
    ensures s[0] != '%' ==>
      if 0x21 as char <= s[0] <= 0x7e as char then Front(Literal(s[0]), s, exp) else forall e :: !Front(e, s, exp)
    ensures s[0] == '%' && |s| > 1 && Escapable(s[1]) ==> Front(Escape(s[1]), s, exp)
    ensures s[0] == '%' && (|s| == 1 || (!Escapable(s[1]) && s[1] != '{')) ==> forall e :: !Front(e, s, exp)
  {
    forall e | Front(e, s, exp)
      ensures s[0] == Text(e)[0] && (e.Literal? || (|s| > 1 && s[1] == Text(e)[1])) { }
    if s[0] == '%' && |s| > 1 && Escapable(s[1]) { assert s == ['%', s[1]] + s[2..]; }
    if s[0] != '%' { assert s == [s[0]] + s[1..]; }
  }

  lemma Braced(s: string, end: int, x: Element)
    requires 2 <= end < |s| && s[0] == '%' && s[1] == '{' && s[end] == '}'
    requires x.Expand? && Body(x) == s[2..end]
    ensures Text(x) == s[..end + 1] && |Text(x)| == end + 1
  {
    hide Body;
  }

  lemma ExpandFront(e: Element, s: string, exp: bool)
    requires Front(e, s, exp) && |s| > 1 && s[0] == '%' && s[1] == '{'
    ensures e.Expand?
  {
    assert s[0] == Text(e)[0] && (e.Literal? || s[1] == Text(e)[1]);
  }

  /** An expansion in front is a body up to the first closing brace that splits as the grammar says. */
  lemma ExpansionInFront(s: string, exp: bool)
    requires |s| > 1 && s[0] == '%' && s[1] == '{'
    ensures
      var end := Brace(s, 0);
      (exists e :: Front(e, s, exp)) <==> 2 <= end < |s| && exists x :: SplitsBody(s[2..end], x, exp)
    ensures
      var end := Brace(s, 0);
      end < |s| ==> end >= 2 && forall x :: SplitsBody(s[2..end], x, exp) ==> Front(x, s, exp) && |Text(x)| == end + 1
  {
    var end := Brace(s, 0);
    BraceIsFirst(s, 0);
    forall e | Front(e, s, exp) ensures end < |s| && SplitsBody(s[2..end], e, exp) { FrontSplits(e, s, exp); }
    hide Front, SplitsBody, Brace;
    if end < |s| {
      forall x | SplitsBody(s[2..end], x, exp) ensures Front(x, s, exp) && |Text(x)| == end + 1 {
        SplitIsFront(x, s, exp, end);
      }
    }
  }

  lemma FrontSplits(e: Element, s: string, exp: bool)
    requires Front(e, s, exp) && |s| > 1 && s[0] == '%' && s[1] == '{'
    ensures var end := Brace(s, 0); 2 <= end < |s| && SplitsBody(s[2..end], e, exp)
  {
    ExpandFront(e, s, exp);
    BraceAfterBody(e, s, exp);
    hide Text, Body, WellFormed;
  }

  lemma SplitIsFront(x: Element, s: string, exp: bool, end: int)
    requires 2 <= end < |s| && s[0] == '%' && s[1] == '{' && s[end] == '}' && SplitsBody(s[2..end], x, exp)
    ensures Front(x, s, exp) && |Text(x)| == end + 1
  {
    hide Text, Body, WellFormed;
    Braced(s, end, x);
  }

  lemma {:induction false} BraceIsFirst(s: string, from: nat)
    requires from <= |s|
    ensures from <= Brace(s, from) <= |s|
    ensures Brace(s, from) < |s| ==> s[Brace(s, from)] == '}'
    ensures forall k :: from <= k < Brace(s, from) ==> s[k] != '}'
    decreases |s| - from
  {
    if from < |s| && s[from] != '}' { BraceIsFirst(s, from + 1); }
  }

  /** strings.IndexByte for '}', or the length if there is none. */
  method FindBrace(s: string) returns (end: nat)
    ensures end == Brace(s, 0)
    ensures end < |s| ==> s[end] == '}'
    ensures end <= |s|
  {
    end := 0;
    while end < |s| && s[end] != '}'
      invariant end <= |s| && Brace(s, end) == Brace(s, 0)
    {
      end := end + 1;
    }
  }

  /** One element at the front of s, if there is one. */
  method ScanElement(s: string, exp: bool) returns (ok: bool, ghost e: Element, length: nat, expansion: bool)
    requires s != ""
    ensures ok <==> exists x :: Front(x, s, exp)
    ensures ok ==> Front(e, s, exp) && length == |Text(e)| > 0 && expansion == e.Expand?
  {
    hide Front, WellFormed, SplitsBody, Escapable;
    ok, e, length, expansion := false, Literal('x'), 0, false;
    FrontOf(s, exp);
    var c := s[0];
    if c != '%' {
      if c < 0x21 as char || c > 0x7e as char { return; }
      return true, Literal(c), 1, false;
    }
    if 1 >= |s| { return; }
    if Escapable(s[1]) { return true, Escape(s[1]), 2, false; }
    if s[1] != '{' { return; }
    ExpansionInFront(s, exp);
    var end := FindBrace(s);
    if end == |s| { return; }
    ok, e := ScanBody(s[2..end], exp);
    if ok { SplitIsExpansion(s[2..end], e, exp); }
    length, expansion := end + 1, true;
  }

  lemma SplitIsExpansion(body: string, e: Element, exp: bool)
    requires SplitsBody(body, e, exp)
    ensures e.Expand?
  {
  }

  /** parseMacroString accepts exactly the grammar and says truthfully how the string ends. */
  method ParseMacroString(s: string, exp: bool) returns (ok: bool, endsWithMacro: bool)
    ensures ok <==> exists es :: Reads(es, s, exp)
    ensures ok ==> forall es :: Reads(es, s, exp) ==> endsWithMacro == EndsWithExpansion(es)
  {
    hide Front, Reads;
    endsWithMacro := false;
    var i := 0;
    ghost var es: seq<Element> := [];
    NothingRead(s, exp);
    while i < |s|
      invariant 0 <= i <= |s| && Reads(es, s[..i], exp)
      invariant endsWithMacro == EndsWithExpansion(es)
      decreases |s| - i
    {
      ghost var e;
      var length, expansion;
      NoReading(es, s, i, exp);
      ok, e, length, expansion := ScanElement(s[i..], exp);
      if !ok { return false, false; }
      OneMoreElement(es, e, s, i, exp);
      es := es + [e];
      i := i + length;
      endsWithMacro := expansion;
    }
    assert s[..i] == s;
    forall fs | Reads(fs, s, exp) ensures endsWithMacro == EndsWithExpansion(fs) { ReadingIsUnique(es, fs, s, exp); }
    ok := true;
  }

  lemma NothingRead(s: string, exp: bool)
    ensures Reads([], s[..0], exp)
  {
  }

  // ----- domain-spec = macro-string domain-end ----------------------------------------------------------

  predicate AlphaNum(c: char) { IsAlpha(c) || IsDigit(c) }

  /** Letters and digits with a letter among them, or with inner hyphens. */
  ghost predicate TopLabel(l: string) {
    || ((forall i :: 0 <= i < |l| ==> AlphaNum(l[i])) && exists i :: 0 <= i < |l| && IsAlpha(l[i]))
    || (|l| > 0 && AlphaNum(l[0]) && AlphaNum(l[|l| - 1]) &&
        (forall i :: 0 <= i < |l| ==> AlphaNum(l[i]) || l[i] == '-') && exists i :: 0 <= i < |l| && l[i] == '-')
  }

  ghost predicate MacroString(s: string, exp: bool) { exists es :: Reads(es, s, exp) }

  /** A top-level label, perhaps with a final ".". */
  ghost predicate LabelEnd(t: string) {
    TopLabel(t) || (t != "" && t[|t| - 1] == '.' && TopLabel(t[..|t| - 1]))
  }

  /**
   * A macro-string, then "." and a top-level label, or a macro-string that ends
   * in a macro-expand, which is an expansion or one of "%%", "%_" and "%-".
   */
  ghost predicate DomainSpec(ds: string, exp: bool) {
    || (exists es :: Reads(es, ds, exp) && (EndsWithExpansion(es) || EndsWithEscape(es)))
    || (exists dot :: 0 <= dot < |ds| && EndsInLabel(ds, dot) && MacroString(ds[..dot], exp))
  }

  ghost predicate EndsInLabel(ds: string, dot: int) {
    0 <= dot < |ds| && ds[dot] == '.' && LabelEnd(ds[dot + 1..])
  }

  method ValidTopLabel(l: string) returns (ok: bool)
    ensures ok <==> TopLabel(l)
  {
    if l == "" || l[0] == '-' || l[|l| - 1] == '-' { return false; }
    var hasAlpha, hasHyphen := false, false;
    for i := 0 to |l|
      invariant forall k :: 0 <= k < i ==> AlphaNum(l[k]) || l[k] == '-'
      invariant hasAlpha <==> exists k :: 0 <= k < i && IsAlpha(l[k])
      invariant hasHyphen <==> exists k :: 0 <= k < i && l[k] == '-'
    {
      if IsAlpha(l[i]) { hasAlpha := true; }
      else if l[i] == '-' { hasHyphen := true; }
      else if !IsDigit(l[i]) { return false; }
    }
    ok := hasAlpha || hasHyphen;
  }

  /** Each character of a plain text is a literal element. */
  function Literals(s: string): (es: seq<Element>)
    ensures |es| == |s| && forall i :: 0 <= i < |s| ==> es[i] == Literal(s[i])
  {
    seq(|s|, i requires 0 <= i < |s| => Literal(s[i]))
  }

  lemma {:induction false} LiteralsRead(s: string)
    ensures Texts(Literals(s)) == s
  {
    if s != "" {
      assert Literals(s)[1..] == Literals(s[1..]);
      LiteralsRead(s[1..]);
    }
  }

  lemma {:induction false} TextsConcat(a: seq<Element>, b: seq<Element>)
    ensures Texts(a + b) == Texts(a) + Texts(b)
  {
    if a == [] {
      assert a + b == b;
    } else {
      assert (a + b)[1..] == a[1..] + b;
      TextsConcat(a[1..], b);
    }
  }

  predicate Plain(c: char) { AlphaNum(c) || c == '-' || c == '.' }

  lemma PlainReads(s: string, exp: bool)
    requires forall i :: 0 <= i < |s| ==> Plain(s[i])
    ensures Reads(Literals(s), s, exp)
  {
    LiteralsRead(s);
  }

  lemma ReadsConcat(a: seq<Element>, s: string, b: seq<Element>, t: string, exp: bool)
    requires Reads(a, s, exp) && Reads(b, t, exp)
    ensures Reads(a + b, s + t, exp)
  {
    TextsConcat(a, b);
  }

  lemma PlainTail(m: string, tail: string, exp: bool)
    requires MacroString(m, exp) && forall i :: 0 <= i < |tail| ==> Plain(tail[i])
    ensures MacroString(m + tail, exp)
  {
    hide Reads, Plain, Literals;
    var es :| Reads(es, m, exp);
    PlainReads(tail, exp);
    ReadsConcat(es, m, Literals(tail), tail, exp);
  }

  lemma ReadsCons(e: Element, es: seq<Element>, s: string, exp: bool)
    requires WellFormed(e, exp) && Reads(es, s, exp)
    ensures Reads([e] + es, Text(e) + s, exp)
  {
    assert ([e] + es)[1..] == es;
  }

  /** A "." with no "}" after it stands between elements, so what precedes it is a macro-string. */
  lemma {:induction false} DotSplits(es: seq<Element>, s: string, dot: int, exp: bool)
    requires Reads(es, s, exp) && 0 <= dot < |s| && s[dot] == '.' && forall i :: dot < i < |s| ==> s[i] != '}'
    ensures MacroString(s[..dot], exp)
    decreases dot
  {
    if dot == 0 {
      assert Reads([], s[..0], exp);
    } else {
      TextsNotEmpty(es);
      FirstElement(es, s, exp);
      var e := es[0];
      var n := |Text(e)|;
      ElementEndsBefore(e, s, dot, exp);
      hide Reads, Text, WellFormed;
      DotSplits(es[1..], s[n..], dot - n, exp);
      Cut(s, n, dot);
      var fs :| Reads(fs, s[n..][..dot - n], exp);
      ReadsCons(e, fs, s[n..dot], exp);
    }
  }

  lemma ElementEndsBefore(e: Element, s: string, dot: int, exp: bool)
    requires Front(e, s, exp) && 0 < dot < |s| && s[dot] == '.' && forall i :: dot < i < |s| ==> s[i] != '}'
    ensures |Text(e)| <= dot
  {
    assert forall k :: 0 <= k < |Text(e)| ==> s[k] == Text(e)[k];
    if e.Expand? { assert Text(e)[|Text(e)| - 1] == '}'; }
  }

  method LastDot(s: string) returns (i: int)
    ensures -1 <= i < |s|
    ensures i >= 0 ==> s[i] == '.'
    ensures forall k :: i < k < |s| ==> s[k] != '.'
  {
    i := |s| - 1;
    while i >= 0 && s[i] != '.'
      invariant -1 <= i < |s|
      invariant forall k :: i < k < |s| ==> s[k] != '.'
    {
      i := i - 1;
    }
  }

  lemma LabelChars(l: string)
    requires TopLabel(l)
    ensures l != "" && forall i :: 0 <= i < |l| ==> (AlphaNum(l[i]) || l[i] == '-') && l[i] != '.' && l[i] != '}'
  {
  }

  lemma LabelEndChars(t: string)
    requires LabelEnd(t)
    ensures t != "" && t[0] != '.' && (AlphaNum(t[|t| - 1]) || t[|t| - 1] == '.')
    ensures forall i :: 0 <= i < |t| ==> Plain(t[i]) && t[i] != '}' && (t[i] == '.' ==> i == |t| - 1)
  {
    if TopLabel(t) {
      LabelChars(t);
    } else {
      LabelChars(t[..|t| - 1]);
      forall i | 0 <= i < |t| - 1 ensures t[i] == t[..|t| - 1][i] { }
    }
  }

  /** strings.TrimSuffix(ds, ".") */
  function Trimmed(ds: string): string {
    if ds != "" && ds[|ds| - 1] == '.' then ds[..|ds| - 1] else ds
  }

  /** The last dot of the trimmed text is the only one a domain's label can follow. */
  lemma OnlyOneLabel(ds: string, dot: int, d: int)
    requires -1 <= dot < |Trimmed(ds)| && (dot >= 0 ==> ds[dot] == '.')
    requires forall k :: dot < k < |Trimmed(ds)| ==> ds[k] != '.'
    requires EndsInLabel(ds, d)
    ensures d == dot
  {
    var t := ds[d + 1..];
    LabelEndChars(t);
    hide LabelEnd, Plain;
    assert forall i :: 0 <= i < |t| ==> t[i] == ds[d + 1 + i];
    assert forall k :: d < k < |ds| ==> ds[k] == t[k - d - 1];
  }

  /** The label after the last dot decides. */
  lemma LabelDecides(ds: string, dot: int)
    requires 0 <= dot < |Trimmed(ds)| && ds[dot] == '.' && forall k :: dot < k < |Trimmed(ds)| ==> ds[k] != '.'
    ensures EndsInLabel(ds, dot) <==> TopLabel(Trimmed(ds)[dot + 1..])
  {
    var t, l := ds[dot + 1..], Trimmed(ds)[dot + 1..];
    if |Trimmed(ds)| < |ds| {
      assert l == t[..|t| - 1];
      if TopLabel(t) { LabelChars(t); }
    } else {
      assert l == t;
    }
  }

  /** The last element is "%%", "%_" or "%-", in every reading (ReadingIsUnique). */
  ghost predicate EndsInEscape(ds: string, exp: bool) {
    exists es :: Reads(es, ds, exp) && EndsWithEscape(es)
  }

  /**
   * validateDomainSpec accepts the grammar's domain-specs, but for those that
   * end in "%%", "%_" or "%-": these it refuses.
   */
  method ValidateDomainSpec(ds: string, exp: bool) returns (ok: bool)
    ensures ok <==> DomainSpec(ds, exp) && !EndsInEscape(ds, exp)
  {
    hide Reads, TopLabel, EndsWithExpansion, EndsWithEscape, EndsInLabel;
    var parsed, endsWithMacro := ParseMacroString(ds, exp);
    SpecIsMacroString(ds, exp);
    if !parsed { return false; }
    ghost var es :| Reads(es, ds, exp);
    SameEnding(es, ds, exp);
    if endsWithMacro { return true; }
    var name := if ds != "" && ds[|ds| - 1] == '.' then ds[..|ds| - 1] else ds;
    var dot := LastDot(name);
    forall d | EndsInLabel(ds, d) ensures d == dot { OnlyOneLabel(ds, dot, d); }
    if dot < 0 {
      forall d ensures !EndsInLabel(ds, d) { NotBeforeStart(ds, d); }
      return false;
    }
    LabelDecides(ds, dot);
    ok := ValidTopLabel(name[dot + 1..]);
    if ok {
      LabelledSpec(es, ds, dot, exp);
      LabelIsNoEscape(es, ds, dot, exp);
    }
  }

  lemma SameEnding(es: seq<Element>, ds: string, exp: bool)
    requires Reads(es, ds, exp)
    ensures EndsInEscape(ds, exp) <==> EndsWithEscape(es)
    ensures !(EndsWithEscape(es) && EndsWithExpansion(es))
    ensures forall fs :: Reads(fs, ds, exp) ==> EndsWithExpansion(es) == EndsWithExpansion(fs)
    ensures forall fs :: Reads(fs, ds, exp) ==> EndsWithEscape(es) == EndsWithEscape(fs)
  {
    forall fs | Reads(fs, ds, exp)
      ensures EndsWithExpansion(es) == EndsWithExpansion(fs) && EndsWithEscape(es) == EndsWithEscape(fs)
    {
      ReadingIsUnique(es, fs, ds, exp);
    }
  }

  lemma LastText(es: seq<Element>)
    requires es != []
    ensures |Texts(es)| >= |Text(es[|es| - 1])| > 0
    ensures Texts(es)[|Texts(es)| - 1] == Text(es[|es| - 1])[|Text(es[|es| - 1])| - 1]
  {
    var n := |es| - 1;
    assert es == es[..n] + [es[n]];
    TextsAppend(es[..n], es[n]);
  }

  lemma LabelIsNoEscape(es: seq<Element>, ds: string, dot: int, exp: bool)
    requires Reads(es, ds, exp) && EndsInLabel(ds, dot)
    ensures !EndsWithEscape(es)
  {
    LabelEndChars(ds[dot + 1..]);
    if es != [] { LastText(es); }
  }

  /** A domain-spec of the grammar that is refused. */
  lemma EscapeIsRefused()
    ensures DomainSpec("a%%", false) && EndsInEscape("a%%", false)
  {
    var es := [Literal('a'), Escape('%')];
    assert Texts(es[1..]) == "%%";
    assert Reads(es, "a%%", false) && EndsWithEscape(es);
  }

  lemma NotBeforeStart(ds: string, d: int)
    ensures EndsInLabel(ds, d) ==> d >= 0
  {
  }

  lemma LabelledIsMacroString(ds: string, dot: int, exp: bool)
    requires EndsInLabel(ds, dot) && MacroString(ds[..dot], exp)
    ensures MacroString(ds, exp)
  {
    LabelEndChars(ds[dot + 1..]);
    hide LabelEnd, MacroString;
    forall i | 0 <= i < |ds[dot..]| ensures Plain(ds[dot..][i]) {
      if i > 0 { assert ds[dot..][i] == ds[dot + 1..][i - 1]; }
    }
    assert ds == ds[..dot] + ds[dot..];
    PlainTail(ds[..dot], ds[dot..], exp);
  }

  lemma SpecIsMacroString(ds: string, exp: bool)
    ensures DomainSpec(ds, exp) ==> MacroString(ds, exp)
  {
    hide EndsInLabel, Reads, EndsWithExpansion, EndsWithEscape;
    forall dot | 0 <= dot < |ds| && EndsInLabel(ds, dot) && MacroString(ds[..dot], exp) ensures MacroString(ds, exp) {
      LabelledIsMacroString(ds, dot, exp);
    }
  }

  lemma LabelledSpec(es: seq<Element>, ds: string, dot: int, exp: bool)
    requires Reads(es, ds, exp) && EndsInLabel(ds, dot)
    ensures DomainSpec(ds, exp)
  {
    LabelEndChars(ds[dot + 1..]);
    assert forall i :: dot < i < |ds| ==> ds[i] == ds[dot + 1..][i - dot - 1];
    DotSplits(es, ds, dot, exp);
  }
}
