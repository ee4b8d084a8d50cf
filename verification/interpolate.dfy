/** Replacing ${VAR} in configuration values; "$${" stands for a literal "${". */
module Interpolate {
  import opened Core

  datatype Error = Unterminated(rest: string) | BadName(name: string) | Unset(name: string)

  predicate OpensAt(s: string, i: int) { 0 <= i < |s| - 1 && s[i] == '$' && s[i + 1] == '{' }

  /** Where the first "${" stands, or -1. */
  function First(s: string): (i: int)
    ensures i == -1 || OpensAt(s, i)
    ensures forall k :: 0 <= k < |s| && (k < i || i == -1) ==> !OpensAt(s, k)
  {
    if |s| < 2 then -1
    else if OpensAt(s, 0) then 0
    else
      var r := First(s[1..]);
      assert forall k :: 1 <= k < |s| ==> OpensAt(s, k) == OpensAt(s[1..], k - 1);
      if r == -1 then -1 else r + 1
  }

  function Close(s: string): (n: nat)
    ensures n <= |s| && (n < |s| ==> s[n] == '}') && forall k :: 0 <= k < n ==> s[k] != '}'
  {
    if s == "" || s[0] == '}' then 0 else 1 + Close(s[1..])
  }

  predicate NameChar(c: char, first: bool) {
    'A' <= c <= 'Z' || 'a' <= c <= 'z' || c == '_' || (!first && '0' <= c <= '9')
  }

  predicate ValidName(n: string) {
    n != "" && NameChar(n[0], true) && forall i :: 0 <= i < |n| ==> NameChar(n[i], false)
  }

  function Prepend(p: string, r: Result<string, Error>): Result<string, Error> {
    match r case Ok(v) => Ok(p + v) case Err(e) => Err(e)
  }

  predicate EscapesAt(s: string, i: int) { 0 <= i < |s| && s[i] == '$' && OpensAt(s, i + 1) }

  /** What a value expands to under an environment, read from the front. */
  function Expanded(s: string, env: map<string, string>): Result<string, Error>
    decreases |s|
  {
    if s == "" then Ok("")
    else if EscapesAt(s, 0) then Prepend("${", Expanded(s[3..], env))
    else if OpensAt(s, 0) then
      var end := Close(s);
      if end == |s| then Err(Unterminated(s))
      else
        var name := s[2..end];
        if !ValidName(name) then Err(BadName(name))
        else if name !in env then Err(Unset(name))
        else Prepend(env[name], Expanded(s[end + 1..], env))
    else Prepend([s[0]], Expanded(s[1..], env))
  }

  /** Nothing happens before the first escape or variable. */
  lemma {:induction false} SkipText(s: string, n: int, env: map<string, string>)
    requires 0 <= n <= |s| && forall k :: 0 <= k < n ==> !EscapesAt(s, k) && !OpensAt(s, k)
    ensures Expanded(s, env) == Prepend(s[..n], Expanded(s[n..], env))
    decreases n
  {
    hide Close, ValidName, Prepend;
    if n == 0 {
      assert s[0..] == s && s[..0] == "";
      PrependNothing(Expanded(s, env));
    } else {
      assert forall k :: 0 <= k < |s| - 1 ==>
        OpensAt(s[1..], k) == OpensAt(s, k + 1) && EscapesAt(s[1..], k) == EscapesAt(s, k + 1);
      SkipText(s[1..], n - 1, env);
      assert s[1..][n - 1..] == s[n..] && [s[0]] + s[1..][..n - 1] == s[..n];
      assert !EscapesAt(s, 0) && !OpensAt(s, 0);
      PrependTwice([s[0]], s[1..][..n - 1], Expanded(s[n..], env));
    }
  }

  /** What the first "${", at i, does. */
  lemma FirstDecides(s: string, i: int, env: map<string, string>)
    requires First(s) == i >= 0
    ensures i > 0 && s[i - 1] == '$' ==>
      Expanded(s, env) == Prepend(s[..i - 1] + "${", Expanded(s[i + 2..], env))
    ensures !(i > 0 && s[i - 1] == '$') ==> Expanded(s, env) == Prepend(s[..i], Expanded(s[i..], env))
    ensures OpensAt(s[i..], 0) && !EscapesAt(s[i..], 0)
  {
    hide First, Prepend;
    if i > 0 && s[i - 1] == '$' {
      SkipText(s, i - 1, env);
      assert EscapesAt(s[i - 1..], 0) && s[i - 1..][3..] == s[i + 2..];
      PrependTwice(s[..i - 1], "${", Expanded(s[i + 2..], env));
    } else {
      SkipText(s, i, env);
    }
  }

  lemma NoneDecides(s: string, env: map<string, string>)
    requires First(s) < 0
    ensures Expanded(s, env) == Ok(s)
  {
    SkipText(s, |s|, env);
    assert s[..|s|] == s && s + "" == s;
  }

  method Expand(value: string, env: map<string, string>) returns (r: Result<string, Error>)
    ensures r == Expanded(value, env)
  {
    hide First, ValidName, OpensAt;
    var b, s := "", value;
    PrependNothing(Expanded(value, env));
    while true
      invariant Prepend(b, Expanded(s, env)) == Expanded(value, env)
      decreases |s|
    {
      var i := First(s);
      if i < 0 {
        NoneDecides(s, env);
        return Ok(b + s);
      }
      OpensInside(s, i);
      FirstDecides(s, i, env);
      if i > 0 && s[i - 1] == '$' {
        PrependTwice(b, s[..i - 1] + "${", Expanded(s[i + 2..], env));
        b := b + (s[..i - 1] + "${");
        s := s[i + 2..];
        continue;
      }
      PrependTwice(b, s[..i], Expanded(s[i..], env));
      b := b + s[..i];
      var end := Close(s[i..]);
      if end == |s[i..]| { return Err(Unterminated(s[i..])); }
      BraceIsLater(s[i..]);
      var name := s[i..][2..end];
      if !ValidName(name) { return Err(BadName(name)); }
      if name !in env { return Err(Unset(name)); }
      PrependTwice(b, env[name], Expanded(s[i..][end + 1..], env));
      b := b + env[name];
      s := s[i..][end + 1..];
    }
  }

  lemma OpensInside(s: string, i: int)
    requires First(s) == i >= 0
    ensures i < |s| - 1 && s[i] == '$' && s[i + 1] == '{'
  {
  }

  lemma BraceIsLater(s: string)
    requires OpensAt(s, 0)
    ensures Close(s) >= 2
  {
  }

  lemma PrependNothing(r: Result<string, Error>)
    ensures Prepend("", r) == r
  {
    if r.Ok? { assert "" + r.value == r.value; }
  }

  lemma PrependTwice(a: string, b: string, r: Result<string, Error>)
    ensures Prepend(a, Prepend(b, r)) == Prepend(a + b, r)
  {
    if r.Ok? { assert a + (b + r.value) == a + b + r.value; }
  }

  // ----- any text can be written as a value --------------------------------------------------------

  function Quote(t: string): string
    decreases |t|
  {
    var i := First(t);
    if i < 0 then t else t[..i] + "$${" + Quote(t[i + 2..])
  }

  /** A text before an escape or a variable is skipped, unless it ends in what opens one. */
  lemma TextThen(u: string, rest: string, env: map<string, string>)
    requires forall k :: !OpensAt(u, k)
    requires rest != "" && rest[0] == '$' && (OpensAt(rest, 0) ==> u == "" || u[|u| - 1] != '$')
    ensures Expanded(u + rest, env) == Prepend(u, Expanded(rest, env))
  {
    var s := u + rest;
    forall k | 0 <= k < |u| ensures !EscapesAt(s, k) && !OpensAt(s, k) {
      assert !OpensAt(u, k) && !OpensAt(u, k + 1);
      assert s[k] == u[k] && s[|u|] == '$';
      if k < |u| - 1 { assert s[k + 1] == u[k + 1]; }
      if k < |u| - 2 { assert s[k + 2] == u[k + 2]; }
      if k == |u| - 1 { assert OpensAt(s, |u|) == OpensAt(rest, 0); }
    }
    SkipText(s, |u|, env);
    assert s[|u|..] == rest && s[..|u|] == u;
  }

  lemma NoneBefore(t: string, i: int)
    requires 0 <= i <= |t| && forall k :: 0 <= k < i ==> !OpensAt(t, k)
    ensures forall k :: !OpensAt(t[..i], k)
  {
    forall k ensures !OpensAt(t[..i], k) {
      if 0 <= k < i - 1 { assert !OpensAt(t, k); }
    }
  }

  /** Quoting a text and expanding it gives the text back, whatever the environment. */
  lemma {:induction false} QuotedExpandsToItself(t: string, env: map<string, string>)
    ensures Expanded(Quote(t), env) == Ok(t)
    decreases |t|
  {
    var i := First(t);
    if i < 0 {
      NoneDecides(t, env);
    } else {
      var u, rest := t[..i], Quote(t[i + 2..]);
      QuotedExpandsToItself(t[i + 2..], env);
      NoneBefore(t, i);
      QuoteParts(t, i);
      hide First, OpensAt, Close, Expanded, Quote;
      QuotedRest(u, rest, env);
    }
  }

  lemma QuoteParts(t: string, i: int)
    requires First(t) == i >= 0
    ensures t == t[..i] + ("${" + t[i + 2..]) && Quote(t) == t[..i] + ("$${" + Quote(t[i + 2..]))
  {
    OpensInside(t, i);
    hide First, OpensAt;
    assert t[..i] + "$${" + Quote(t[i + 2..]) == t[..i] + ("$${" + Quote(t[i + 2..]));
  }

  lemma QuotedRest(u: string, rest: string, env: map<string, string>)
    requires forall k :: !OpensAt(u, k)
    ensures Expanded(u + ("$${" + rest), env) == Prepend(u, Prepend("${", Expanded(rest, env)))
  {
    EscapeStep(rest, env);
    TextThen(u, "$${" + rest, env);
  }

  lemma EscapeStep(t: string, env: map<string, string>)
    ensures Expanded("$${" + t, env) == Prepend("${", Expanded(t, env))
  {
    var s := "$${" + t;
    assert EscapesAt(s, 0) && s[3..] == t;
  }

  lemma VariableStep(name: string, t: string, env: map<string, string>)
    requires ValidName(name)
    ensures Expanded("${" + name + "}" + t, env) ==
      if name in env then Prepend(env[name], Expanded(t, env)) else Err(Unset(name))
  {
    var s, end := "${" + name + "}" + t, |name| + 2;
    assert OpensAt(s, 0) && !EscapesAt(s, 0) && s[end] == '}';
    forall k | 0 <= k < end ensures s[k] != '}' {
      if k >= 2 { assert s[k] == name[k - 2] && NameChar(name[k - 2], false); }
    }
    assert Close(s) == end && s[2..end] == name && s[end + 1..] == t;
    hide ValidName;
  }

  /** A variable's value is put in as it is: it is never expanded again. */
  lemma ValuesAreNotRescanned(u: string, name: string, v: string, env: map<string, string>)
    requires (forall k :: !OpensAt(u, k)) && (u == "" || u[|u| - 1] != '$')
    requires ValidName(name) && name in env
    ensures Expanded(u + ("${" + name + "}" + v), env) == Prepend(u + env[name], Expanded(v, env))
  {
    VariableStep(name, v, env);
    TextThen(u, "${" + name + "}" + v, env);
    PrependTwice(u, env[name], Expanded(v, env));
  }

  // ----- which values expand, and to what -----------------------------------------------------------

  /** A value is characters, escapes "$${" and variables "${name}". */
  datatype Piece = Char(c: char) | Escape | Variable(name: string)

  function Written(p: Piece): string {
    match p case Char(c) => [c] case Escape => "$${" case Variable(name) => "${" + name + "}"
  }

  function WrittenAll(ps: seq<Piece>): string {
    if ps == [] then "" else Written(ps[0]) + WrittenAll(ps[1..])
  }

  /** [A-Za-z_][A-Za-z0-9_]* */
  predicate EnvName(n: string) {
    && n != "" && !('0' <= n[0] <= '9')
    && forall i :: 0 <= i < |n| ==>
         'A' <= n[i] <= 'Z' || 'a' <= n[i] <= 'z' || '0' <= n[i] <= '9' || n[i] == '_'
  }

  lemma ValidNameMeans(n: string)
    ensures ValidName(n) <==> EnvName(n)
  {
  }

  /** A '$' on its own opens nothing: no "{" and no variable follows it. */
  predicate Apart(p: Piece, q: Piece) { p == Char('$') ==> q != Char('{') && !q.Variable? }

  predicate Proper(ps: seq<Piece>) {
    && (forall i :: 0 <= i < |ps| && ps[i].Variable? ==> EnvName(ps[i].name))
    && (forall i :: 0 <= i < |ps| - 1 ==> Apart(ps[i], ps[i + 1]))
  }

  ghost predicate Reads(ps: seq<Piece>, s: string) { Proper(ps) && WrittenAll(ps) == s }

  function Meant(p: Piece, env: map<string, string>): Result<string, Error> {
    match p
    case Char(c) => Ok([c])
    case Escape => Ok("${")
    case Variable(name) => if name in env then Ok(env[name]) else Err(Unset(name))
  }

  /**
   * Characters stand for themselves, escapes for "${", variables for their
   * values; the first unset one is the error.
   */
  function MeantAll(ps: seq<Piece>, env: map<string, string>): Result<string, Error> {
    if ps == [] then Ok("")
    else match Meant(ps[0], env)
      case Err(e) => Err(e)
      case Ok(v) => Prepend(v, MeantAll(ps[1..], env))
  }

  /** What a text that is not the beginning of an escape or a variable may be put in front of. */
  predicate OpensNothing(c: char, t: string) {
    c == '$' ==> !(t != "" && t[0] == '{') && !OpensAt(t, 0)
  }

  lemma CharStep(c: char, t: string, env: map<string, string>)
    requires OpensNothing(c, t)
    ensures Expanded([c] + t, env) == Prepend([c], Expanded(t, env))
  {
    var s := [c] + t;
    assert s[1..] == t && OpensAt(s, 1) == OpensAt(t, 0);
  }

  lemma Tails(ps: seq<Piece>)
    requires ps != [] && Proper(ps)
    ensures Proper(ps[1..])
    ensures forall c :: ps[0] == Char(c) ==> OpensNothing(c, WrittenAll(ps[1..]))
  {
    var qs := ps[1..];
    assert forall i :: 0 <= i < |qs| ==> qs[i] == ps[i + 1];
    if ps[0] == Char('$') && qs != [] {
      assert Apart(ps[0], ps[1]);
      FrontOfPieces(qs);
    }
  }

  /** Only a "{" begins with '{', and only a variable with "${". */
  lemma FrontOfPieces(qs: seq<Piece>)
    requires qs != [] && Proper(qs)
    ensures WrittenAll(qs) != "" && (WrittenAll(qs)[0] == '{' <==> qs[0] == Char('{'))
    ensures OpensAt(WrittenAll(qs), 0) ==> qs[0].Variable?
  {
    if qs[0].Char? && |qs| > 1 {
      assert Apart(qs[0], qs[1]);
      assert WrittenAll(qs) == [qs[0].c] + WrittenAll(qs[1..]);
      assert WrittenAll(qs[1..]) == Written(qs[1]) + WrittenAll(qs[2..]);
      assert WrittenAll(qs[1..])[0] == Written(qs[1])[0];
    } else {
      assert WrittenAll(qs[1..]) == "" || !qs[0].Char?;
    }
  }

  /** Read as pieces, a value expands to what they mean, whichever way it is read. */
  lemma {:induction false} ExpandsAsRead(ps: seq<Piece>, s: string, env: map<string, string>)
    requires Reads(ps, s)
    ensures Expanded(s, env) == MeantAll(ps, env)
    decreases |ps|
  {
    hide Expanded, Proper, ValidName;
    if ps == [] {
      NothingToExpand(env);
    } else {
      var t := WrittenAll(ps[1..]);
      Tails(ps);
      ExpandsAsRead(ps[1..], t, env);
      match ps[0]
      case Char(c) => CharStep(c, t, env);
      case Escape => EscapeStep(t, env);
      case Variable(name) =>
        assert ValidName(name) by { NamesAreValid(ps); }
        VariableStep(name, t, env);
    }
  }

  lemma NamesAreValid(ps: seq<Piece>)
    requires ps != [] && Proper(ps) && ps[0].Variable?
    ensures ValidName(ps[0].name)
  {
    ValidNameMeans(ps[0].name);
  }

  lemma NothingToExpand(env: map<string, string>)
    ensures Expanded("", env) == Ok("")
  {
  }

  /** If a value expands, so does what is left of it. */
  lemma RestExpands(s: string, env: map<string, string>)
    requires s != "" && Expanded(s, env).Ok?
    ensures EscapesAt(s, 0) ==> Expanded(s[3..], env).Ok? && s == "$${" + s[3..]
    ensures !EscapesAt(s, 0) && OpensAt(s, 0) ==>
      var end := Close(s);
      && 2 <= end < |s| && ValidName(s[2..end]) && Expanded(s[end + 1..], env).Ok?
      && s == "${" + s[2..end] + "}" + s[end + 1..]
    ensures !EscapesAt(s, 0) && !OpensAt(s, 0) ==> Expanded(s[1..], env).Ok? && s == [s[0]] + s[1..]
  {
    hide ValidName;
    if !EscapesAt(s, 0) && OpensAt(s, 0) { BraceIsLater(s); }
  }

  /** How a value that expands is read. */
  lemma {:induction false} ReadingExists(s: string, env: map<string, string>) returns (ps: seq<Piece>)
    requires Expanded(s, env).Ok?
    ensures Reads(ps, s)
    decreases |s|
  {
    if s == "" { return []; }
    RestExpands(s, env);
    hide Expanded, Reads, EscapesAt, OpensAt, Close, ValidName, Apart;
    if EscapesAt(s, 0) {
      var rest := ReadingExists(s[3..], env);
      ps := [Escape] + rest;
      EscapeIsApart(rest);
      ReadsCons(Escape, rest, s[3..]);
    } else if OpensAt(s, 0) {
      var end := Close(s);
      var rest := ReadingExists(s[end + 1..], env);
      ps := [Variable(s[2..end])] + rest;
      EscapeIsApart(rest);
      ValidNameMeans(s[2..end]);
      ReadsCons(Variable(s[2..end]), rest, s[end + 1..]);
    } else {
      var rest := ReadingExists(s[1..], env);
      ps := [Char(s[0])] + rest;
      FrontAllows(s, rest);
      ReadsCons(Char(s[0]), rest, s[1..]);
    }
  }

  lemma EscapeIsApart(ps: seq<Piece>)
    ensures ps != [] ==> Apart(Escape, ps[0]) && forall name :: Apart(Variable(name), ps[0])
  {
  }

  lemma FrontAllows(s: string, rest: seq<Piece>)
    requires s != "" && !EscapesAt(s, 0) && !OpensAt(s, 0) && Reads(rest, s[1..])
    ensures rest != [] ==> Apart(Char(s[0]), rest[0])
  {
    if rest != [] {
      assert WrittenAll(rest) == Written(rest[0]) + WrittenAll(rest[1..]);
      assert OpensAt(s, 1) == OpensAt(s[1..], 0);
      FrontOfPieces(rest);
      if rest[0].Variable? { assert s[1..][0] == '$' && s[1..][1] == '{'; }
    }
  }

  lemma ReadsCons(p: Piece, ps: seq<Piece>, s: string)
    requires Reads(ps, s) && (p.Variable? ==> EnvName(p.name)) && (ps != [] ==> Apart(p, ps[0]))
    ensures Reads([p] + ps, Written(p) + s)
  {
    var qs := [p] + ps;
    assert qs[1..] == ps;
    assert forall i :: 1 <= i < |qs| ==> qs[i] == ps[i - 1];
  }

  /** A value expands to a text exactly if it reads as pieces that mean it. */
  lemma ExpandsExactly(s: string, env: map<string, string>, v: string)
    ensures Expanded(s, env) == Ok(v) <==> exists ps :: Reads(ps, s) && MeantAll(ps, env) == Ok(v)
  {
    if Expanded(s, env) == Ok(v) {
      var ps := ReadingExists(s, env);
      ExpandsAsRead(ps, s, env);
    }
    forall ps | Reads(ps, s) ensures Expanded(s, env) == MeantAll(ps, env) { ExpandsAsRead(ps, s, env); }
  }
}
