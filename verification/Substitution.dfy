/** Substitution of scenario variables in templates. */
module Substitution {
  import opened Results
  import opened Text
  import opened Templates
  import Env = EnvExpansion

  datatype Unresolved = Unresolved(name: string)

  datatype Piece =
    | Literal(c: char)
    | Escaped(body: string)
    | Variable(name: string)
  {
    /** The number of characters a piece was read from. */
    function Length(): (n: nat)
      ensures n > 0
    {
      match this
      case Literal(_) => 1
      case Escaped(body) => |body| + 4
      case Variable(name) => |name| + 3
    }

    /** The text a piece was read from. */
    function Source(): string {
      match this
      case Literal(c) => [c]
      case Escaped(body) => "$" + Placeholder(body)
      case Variable(name) => Placeholder(name)
    }

    /** What a piece becomes. */
    function Value(vars: map<string, string>): Result<string, Unresolved> {
      match this
      case Literal(c) => Success([c])
      case Escaped(body) => Success(Placeholder(body))
      case Variable(name) => if name in vars then Success(vars[name]) else Failure(Unresolved(name))
    }
  }

  /** What `${` at a position opens: the text up to the first closing brace, if any. */
  function Enclosed(s: string, at: nat): (body: Option<string>)
    requires at + 2 <= |s|
    ensures body.Some? ==> at + 3 + |body.value| <= |s|
  {
    var end := IndexFrom(s, '}', at + 2);
    if end == -1 then None else Some(s[at + 2..end])
  }

  /** The piece at the head of a text. What is not a closed placeholder is plain text. */
  function First(s: string): (p: Piece)
    requires s != ""
    ensures p.Length() <= |s|
  {
    if |s| > 2 && s[0] == '$' && s[1] == '$' && s[2] == '{' && Enclosed(s, 1).Some? then
      Escaped(Enclosed(s, 1).value)
    else if |s| > 1 && s[0] == '$' && s[1] == '{' && Enclosed(s, 0).Some? then
      Variable(Enclosed(s, 0).value)
    else
      Literal(s[0])
  }

  /** The substitution of a text: each piece in turn, up to the first unbound variable. */
  function Substitute(s: string, vars: map<string, string>): Result<string, Unresolved>
    decreases |s|
  {
    if s == "" then Success("")
    else
      var head := First(s).Value(vars);
      if head.Failure? then head else Prepend(head.value, Substitute(s[First(s).Length()..], vars))
  }

  /** What reading the piece at a position yields: its value and its length. */
  predicate Reads(t: string, i: nat, vars: map<string, string>, value: Result<string, Unresolved>, read: nat)
    requires i < |t|
  {
    value == First(t[i..]).Value(vars) && read == First(t[i..]).Length()
  }

  /** What is written so far, and the substitution of what is left, make up the whole. */
  ghost predicate Progress(t: string, vars: map<string, string>, i: nat, written: string) {
    i <= |t| && Prepend(written, Substitute(t[i..], vars)) == Substitute(t, vars)
  }

  lemma ReadOn(t: string, vars: map<string, string>, i: nat, written: string, value: Result<string, Unresolved>, read: nat)
    requires i < |t| && Progress(t, vars, i, written) && Reads(t, i, vars, value, read)
    ensures value.Failure? ==> Substitute(t, vars) == value
    ensures value.Success? ==> read > 0 && Progress(t, vars, i + read, written + value.value)
  {
    assert t[i..][read..] == t[i + read..];
    if value.Success? { PrependTwice(written, value.value, Substitute(t[i + read..], vars)); }
  }

  /** Reads what `${` at a position opens. */
  method ReadEnclosed(t: string, i: nat, at: nat) returns (body: Option<string>)
    requires i + at + 2 <= |t|
    ensures body == Enclosed(t[i..], at)
  {
    var end := IndexFrom(t, '}', i + at + 2);
    IndexInSuffix(t, i, '}', at + 2);
    if end == -1 { return None; }
    assert t[i..][at + 2..end - i] == t[i + at + 2..end];
    body := Some(t[i + at + 2..end]);
  }

  /** Reads one piece; returns its value and its length in the template. */
  method ReadPiece(t: string, i: nat, vars: map<string, string>) returns (value: Result<string, Unresolved>, read: nat)
    requires i < |t|
    ensures Reads(t, i, vars, value, read)
  {
    var n := |t|;
    if t[i] == '$' {
      if i + 1 < n && t[i + 1] == '$' && i + 2 < n && t[i + 2] == '{' {
        var body := ReadEnclosed(t, i, 1);
        if body.Some? { return Success(Placeholder(body.value)), |body.value| + 4; }
      }
      if i + 1 < n && t[i + 1] == '{' {
        var varName := ReadEnclosed(t, i, 0);
        if varName.Some? {
          if varName.value !in vars { return Failure(Unresolved(varName.value)), |varName.value| + 3; }
          return Success(vars[varName.value]), |varName.value| + 3;
        }
      }
    }
    value, read := Success([t[i]]), 1;
  }

  /** Substitutes variables in one pass, left to right. */
  method SubstituteVariables(template: string, vars: map<string, string>) returns (r: Result<string, Unresolved>)
    ensures r == Substitute(template, vars)
  {
    if '$' !in template {
      PlainUnchanged(template, vars);
      return Success(template);
    }
    var sb, i := "", 0;
    ProgressStarts(template, vars);
    while i < |template|
      invariant 0 <= i <= |template| && Progress(template, vars, i, sb)
    {
      var value, read := ReadPiece(template, i, vars);
      ReadOn(template, vars, i, sb, value, read);
      if value.Failure? { return value; }
      sb, i := sb + value.value, i + read;
    }
    ProgressEnds(template, vars, sb);
    r := Success(sb);
  }

  lemma ProgressStarts(t: string, vars: map<string, string>)
    ensures Progress(t, vars, 0, "")
  {
    assert t[0..] == t;
    PrependNothing(Substitute(t, vars));
  }

  lemma ProgressEnds(t: string, vars: map<string, string>, written: string)
    requires Progress(t, vars, |t|, written)
    ensures Substitute(t, vars) == Success(written)
  {
    assert written + "" == written;
  }

  lemma {:induction false} PlainUnchanged(t: string, vars: map<string, string>)
    requires '$' !in t
    ensures Substitute(t, vars) == Success(t)
  {
    if t != "" {
      PlainUnchanged(t[1..], vars);
      assert t == [t[0]] + t[1..];
    }
  }

  // -- Laws ----------------------------------------------------------------------------

  /** The pieces of a text. */
  function Pieces(s: string): seq<Piece>
    decreases |s|
  {
    if s == "" then [] else [First(s)] + Pieces(s[First(s).Length()..])
  }

  function Joined(pieces: seq<Piece>): string {
    if pieces == [] then "" else pieces[0].Source() + Joined(pieces[1..])
  }

  function Rendered(pieces: seq<Piece>, vars: map<string, string>): string
    requires AllBound(pieces, vars)
  {
    if pieces == [] then "" else pieces[0].Value(vars).value + Rendered(pieces[1..], vars)
  }

  predicate Bound(p: Piece, vars: map<string, string>) {
    p.Variable? ==> p.name in vars
  }

  ghost predicate AllBound(pieces: seq<Piece>, vars: map<string, string>) {
    forall k :: 0 <= k < |pieces| ==> Bound(pieces[k], vars)
  }

  ghost predicate FirstUnboundAt(pieces: seq<Piece>, vars: map<string, string>, k: nat) {
    k < |pieces| && !Bound(pieces[k], vars) && AllBound(pieces[..k], vars)
  }

  /** The variable a failed substitution reports: the first unbound one. */
  ghost predicate FirstUnbound(pieces: seq<Piece>, vars: map<string, string>, name: string) {
    exists k :: 0 <= k < |pieces| && FirstUnboundAt(pieces, vars, k) && pieces[k].name == name
  }

  lemma BoundHead(p: Piece, rest: seq<Piece>, vars: map<string, string>)
    ensures AllBound([p] + rest, vars) <==> Bound(p, vars) && AllBound(rest, vars)
  {
    var all := [p] + rest;
    assert Bound(all[0], vars) <==> Bound(p, vars);
    forall k | 0 <= k < |rest| ensures Bound(all[k + 1], vars) <==> Bound(rest[k], vars) {
    }
    if AllBound(all, vars) {
      forall k | 0 <= k < |rest| ensures Bound(rest[k], vars) { assert Bound(all[k + 1], vars); }
    }
  }

  lemma UnboundLater(p: Piece, rest: seq<Piece>, vars: map<string, string>, name: string)
    requires Bound(p, vars) && FirstUnbound(rest, vars, name)
    ensures FirstUnbound([p] + rest, vars, name)
  {
    var k :| 0 <= k < |rest| && FirstUnboundAt(rest, vars, k) && rest[k].name == name;
    var all := [p] + rest;
    BoundHead(p, rest[..k], vars);
    assert all[..k + 1] == [p] + rest[..k];
    assert FirstUnboundAt(all, vars, k + 1);
  }

  /** Splitting a text into pieces loses nothing. */
  lemma {:induction false} PiecesLossless(s: string)
    ensures Joined(Pieces(s)) == s
    decreases |s|
  {
    if s != "" {
      var p := First(s);
      PiecesLossless(s[p.Length()..]);
      FirstReads(s);
      assert Pieces(s)[1..] == Pieces(s[p.Length()..]);
    }
  }

  lemma FirstReads(s: string)
    requires s != ""
    ensures First(s).Source() + s[First(s).Length()..] == s
  {
    match First(s)
    case Literal(_) =>
    case Escaped(body) =>
      PlaceholderAt(s, 1, body);
      assert s == "$" + s[1..|body| + 4] + s[|body| + 4..];
    case Variable(name) =>
      PlaceholderAt(s, 0, name);
  }

  /** Substitution succeeds exactly when every variable of the text is bound; the result is
      the pieces' values in order, so that no value that was inserted is ever read again. A
      failure reports the first unbound variable. */
  lemma {:induction false} SubstituteRenders(s: string, vars: map<string, string>)
    ensures Substitute(s, vars).Success? <==> AllBound(Pieces(s), vars)
    ensures Substitute(s, vars).Success? ==> Substitute(s, vars).value == Rendered(Pieces(s), vars)
    ensures Substitute(s, vars).Failure? ==> FirstUnbound(Pieces(s), vars, Substitute(s, vars).error.name)
    decreases |s|
  {
    if s != "" {
      var p := First(s);
      var rest := Pieces(s[p.Length()..]);
      SubstituteRenders(s[p.Length()..], vars);
      BoundHead(p, rest, vars);
      assert Pieces(s)[0] == p && Pieces(s)[..0] == [] && Pieces(s)[1..] == rest;
      if !Bound(p, vars) {
        assert FirstUnboundAt(Pieces(s), vars, 0);
      } else if Substitute(s, vars).Failure? {
        UnboundLater(p, rest, vars, Substitute(s, vars).error.name);
      }
    }
  }

  /** A text without a closing brace is left alone. */
  lemma {:induction false} UnclosedUnchanged(t: string, vars: map<string, string>)
    requires '}' !in t
    ensures Substitute(t, vars) == Success(t)
  {
    if t != "" {
      UnclosedUnchanged(t[1..], vars);
      assert t == [t[0]] + t[1..];
    }
  }

  /** What escaped text becomes: nothing in it is looked up, and it comes back exactly when
      every `${` in it is closed before another one opens. */
  lemma {:induction false} EscapeRoundTrip(s: string, vars: map<string, string>)
    ensures Substitute(Escape(s), vars).Success?
    ensures |Substitute(Escape(s), vars).value| >= |s|
    ensures Substitute(Escape(s), vars).value == s <==> Flat(s)
    decreases |s|
  {
    if s != "" {
      if !Opens(s) {
        EscapeRoundTrip(s[1..], vars);
        EscapedCharacter(s, vars);
      } else if '}' !in s[2..] {
        EscapeMembers(s, '}');
        UnclosedUnchanged(Escape(s), vars);
        assert |Escape(s)| > |s|;
      } else {
        var name, rest := NameParts(s);
        EscapeRoundTrip(rest, vars);
        EscapedPlaceholder(s, name, rest, vars);
        EscapeUnlessNoOpening(name);
        FlatPlaceholder(name, rest);
        PlaceholdersEqual(Escape(name), name, Substitute(Escape(rest), vars).value, rest);
      }
    }
  }

  lemma EscapedCharacter(s: string, vars: map<string, string>)
    requires s != "" && !Opens(s)
    ensures Substitute(Escape(s), vars) == Prepend([s[0]], Substitute(Escape(s[1..]), vars))
    ensures s == [s[0]] + s[1..]
  {
    var e := Escape(s);
    assert e[1..] == Escape(s[1..]);
    if s[0] == '$' && |s| > 1 {
      EscapeStarts(s[1..]);
      assert e[1] == Escape(s[1..])[0] && (|e| > 2 ==> e[2] == Escape(s[1..])[1]);
    }
    assert First(e) == Literal(s[0]);
  }

  lemma EscapedPlaceholder(s: string, name: string, rest: string, vars: map<string, string>)
    requires s == Placeholder(name) + rest && '}' !in name
    ensures Substitute(Escape(s), vars) == Prepend(Placeholder(Escape(name)), Substitute(Escape(rest), vars))
  {
    EscapePlaceholder(name, rest);
    EscapeMembers(name, '}');
    EscapedFirst(Escape(name), Escape(rest));
  }

  lemma EscapedFirst(body: string, rest: string)
    requires '}' !in body
    ensures var s := "$" + Placeholder(body) + rest; First(s) == Escaped(body) && s[|body| + 4..] == rest
  {
    var s := "$" + Placeholder(body) + rest;
    assert forall j :: 3 <= j < |body| + 3 ==> s[j] == body[j - 3];
    assert s[|body| + 3] == '}' && IndexFrom(s, '}', 3) == |body| + 3 && s[3..|body| + 3] == body;
  }

  lemma PlaceholdersEqual(a: string, b: string, x: string, y: string)
    requires |a| >= |b| && |x| >= |y|
    ensures Placeholder(a) + x == Placeholder(b) + y <==> a == b && x == y
    ensures |Placeholder(a) + x| >= |Placeholder(b) + y|
  {
    var s, t := Placeholder(a) + x, Placeholder(b) + y;
    if s == t {
      assert s[2..|a| + 2] == a && t[2..|b| + 2] == b;
      assert s[|a| + 3..] == x && t[|b| + 3..] == y;
    }
  }

  // -- Both stages -----------------------------------------------------------------------

  /** Any well-formed text can be written so that it survives both stages unchanged:
      escaped for the second and doubled for the first. */
  lemma TwoStageLiteral(t: string, env: map<string, string>, vars: map<string, string>)
    requires WellFormed(t)
    ensures Env.Expand(Double(Escape(t)), env) == Success(Escape(t))
    ensures Substitute(Escape(t), vars) == Success(t)
  {
    EscapeWellFormed(t);
    Env.DoublingRoundTrip(Escape(t), env);
    WellFormedIsFlat(t);
    EscapeRoundTrip(t, vars);
  }

  /** In particular `$${x}` ends as the value of `x`, and `$$$${x}` as the text `${x}`. */
  lemma TwoStagePlaceholder(x: string, env: map<string, string>, vars: map<string, string>)
    requires IsIdentifier(x)
    ensures Env.Expand("$" + Placeholder(x), env) == Success(Placeholder(x))
    ensures Substitute(Placeholder(x), vars) == if x in vars then Success(vars[x]) else Failure(Unresolved(x))
    ensures Env.Expand("$$$" + Placeholder(x), env) == Success("$" + Placeholder(x))
    ensures Substitute("$" + Placeholder(x), vars) == Success(Placeholder(x))
  {
    PlaceholderWritten(x);
    Env.DoublingRoundTrip(Placeholder(x), env);
    TwoStageLiteral(Placeholder(x), env, vars);
    PlaceholderSubstituted(x, vars);
  }

  lemma PlaceholderWritten(x: string)
    requires IsIdentifier(x)
    ensures WellFormed(Placeholder(x)) && Double(Placeholder(x)) == "$" + Placeholder(x)
    ensures Escape(Placeholder(x)) == "$" + Placeholder(x)
    ensures Double("$" + Placeholder(x)) == "$$$" + Placeholder(x)
  {
    var p := Placeholder(x);
    assert p + "" == p;
    WellFormedPlaceholder(x, "");
    DoublePlaceholder(x, "");
    EscapePlaceholder(x, "");
    DoubleIdentifier(x);
    EscapeIdentifier(x);
    assert "$" + p + "" == "$" + p;
    assert ("$" + p)[1..] == p;
    assert "$$" + ("$" + p) == "$$$" + p;
  }

  lemma PlaceholderSubstituted(x: string, vars: map<string, string>)
    requires IsIdentifier(x)
    ensures Substitute(Placeholder(x), vars) == if x in vars then Success(vars[x]) else Failure(Unresolved(x))
  {
    var s := Placeholder(x);
    assert forall j :: 2 <= j < |x| + 2 ==> s[j] == x[j - 2];
    assert s[|x| + 2] == '}' && IndexFrom(s, '}', 2) == |x| + 2 && s[2..|x| + 2] == x;
    assert First(s) == Variable(x) && s[|x| + 3..] == "";
    if x in vars { assert vars[x] + "" == vars[x]; }
  }
}
