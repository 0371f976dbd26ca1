/** Expansion of environment placeholders in configuration text. */
module EnvExpansion {
  import opened Results
  import opened Text
  import opened Templates

  datatype EnvError = Unclosed | BadName(name: string) | Missing(name: string)

  datatype EnvToken =
    | Literal(c: char)
    | DoubleDollar
    | Escaped(name: string)
    | Variable(name: string)
  {
    /** The text a token was read from. */
    function Source(): string {
      match this
      case Literal(c) => [c]
      case DoubleDollar => "$$"
      case Escaped(name) => "$" + Placeholder(name)
      case Variable(name) => Placeholder(name)
    }

    function Length(): (n: nat)
      ensures n == |Source()|
    {
      match this
      case Literal(_) => 1
      case DoubleDollar => 2
      case Escaped(name) => |name| + 4
      case Variable(name) => |name| + 3
    }

    /** What a token expands to. */
    function Expanded(env: map<string, string>): Result<string, EnvError> {
      match this
      case Literal(c) => Success([c])
      case DoubleDollar => Success("$")
      case Escaped(name) => Success(Placeholder(name))
      case Variable(name) => if name in env then Success(env[name]) else Failure(Missing(name))
    }
  }

  /** The name between the brace at a position and the first closing brace after it. */
  function Braced(s: string, at: nat): (r: Result<string, EnvError>)
    requires at < |s| && s[at] == '{'
    ensures r.Success? ==> at + |r.value| + 2 <= |s|
  {
    var close := IndexFrom(s, '}', at + 1);
    if close == -1 then Failure(Unclosed)
    else
      var name := s[at + 1..close];
      if IsIdentifier(name) then Success(name) else Failure(BadName(name))
  }

  /** The token at the head of a text. */
  function Token(s: string): (r: Result<EnvToken, EnvError>)
    requires s != ""
    ensures r.Success? ==> r.value.Length() <= |s|
  {
    if s[0] != '$' then Success(Literal(s[0]))
    else if |s| > 1 && s[1] == '$' then
      if |s| > 2 && s[2] == '{' then
        var name := Braced(s, 2);
        if name.Success? then Success(Escaped(name.value)) else Failure(name.error)
      else Success(DoubleDollar)
    else if |s| > 1 && s[1] == '{' then
      var name := Braced(s, 1);
      if name.Success? then Success(Variable(name.value)) else Failure(name.error)
    else Success(Literal('$'))
  }

  /** A token is read from the text it stands for. */
  lemma TokenReads(s: string)
    requires s != "" && Token(s).Success?
    ensures var source := Token(s).value.Source(); source != "" && source <= s
  {
    match Token(s).value
    case Literal(_) =>
    case DoubleDollar =>
    case Escaped(name) =>
      PlaceholderAt(s, 1, name);
      assert s[..|name| + 4] == "$" + s[1..|name| + 4];
    case Variable(name) =>
      PlaceholderAt(s, 0, name);
  }

  /** The text after its first token. */
  function Rest(s: string): (r: string)
    requires s != "" && Token(s).Success?
    ensures |r| < |s|
  {
    s[Token(s).value.Length()..]
  }

  lemma Rejoined(s: string)
    requires s != "" && Token(s).Success?
    ensures Token(s).value.Source() + Rest(s) == s
  {
    TokenReads(s);
  }

  /** What the first token of a text expands to. */
  function Head(s: string, env: map<string, string>): Result<string, EnvError>
    requires s != ""
  {
    var token := Token(s);
    if token.Failure? then Failure(token.error) else token.value.Expanded(env)
  }

  /** The expansion of a text: each token in turn, up to the first that fails. */
  function Expand(s: string, env: map<string, string>): Result<string, EnvError>
    decreases |s|
  {
    if s == "" then Success("")
    else
      var head := Head(s, env);
      if head.Failure? then head else Prepend(head.value, Expand(Rest(s), env))
  }

  /** What reading the token at a position yields: its expansion and its length. */
  predicate Reads(input: string, i: nat, env: map<string, string>, value: Result<string, EnvError>, read: nat)
    requires i < |input|
  {
    value == Head(input[i..], env) && (value.Success? ==> read == Token(input[i..]).value.Length())
  }

  lemma ReadWithin(input: string, i: nat, env: map<string, string>, value: Result<string, EnvError>, read: nat)
    requires i < |input| && Reads(input, i, env, value, read) && value.Success?
    ensures i < i + read <= |input| && input[i + read..] == Rest(input[i..])
  {
    assert input[i..][read..] == input[i + read..];
  }

  lemma ExpandHead(s: string, env: map<string, string>, written: string)
    requires s != "" && Head(s, env).Success?
    ensures Prepend(written, Expand(s, env)) == Prepend(written + Head(s, env).value, Expand(Rest(s), env))
  {
    PrependTwice(written, Head(s, env).value, Expand(Rest(s), env));
  }

  /** What is written so far, and the expansion of what is left, make up the whole. */
  ghost predicate Progress(input: string, env: map<string, string>, i: nat, written: string) {
    i <= |input| && Prepend(written, Expand(input[i..], env)) == Expand(input, env)
  }

  lemma ReadOn(input: string, env: map<string, string>, i: nat, written: string, value: Result<string, EnvError>, read: nat)
    requires i < |input| && Progress(input, env, i, written) && Reads(input, i, env, value, read)
    ensures value.Failure? ==> Expand(input, env) == value
    ensures value.Success? ==> read > 0 && Progress(input, env, i + read, written + value.value)
  {
    if value.Success? {
      ReadWithin(input, i, env, value, read);
      ExpandHead(input[i..], env, written);
    }
  }

  /** Reads the name in braces at a position. */
  method ReadName(input: string, i: nat, at: nat) returns (r: Result<string, EnvError>)
    requires i + at < |input| && input[i + at] == '{'
    ensures r == Braced(input[i..], at)
  {
    var close := IndexFrom(input, '}', i + at + 1);
    IndexInSuffix(input, i, '}', at + 1);
    if close == -1 { return Failure(Unclosed); }
    var varName := input[i + at + 1..close];
    assert input[i..][at + 1..close - i] == varName;
    r := if IsIdentifier(varName) then Success(varName) else Failure(BadName(varName));
  }

  /** Reads and expands one token; returns its expansion and its length in the input. */
  method ExpandToken(input: string, i: nat, env: map<string, string>) returns (r: Result<string, EnvError>, read: nat)
    requires i < |input|
    ensures Reads(input, i, env, r, read)
  {
    if input[i] == '$' {
      if i + 1 < |input| && input[i + 1] == '$' {
        if i + 2 < |input| && input[i + 2] == '{' {
          var name := ReadName(input, i, 2);
          if name.Failure? { return Failure(name.error), 0; }
          return Success(Placeholder(name.value)), 2 + |name.value| + 2;
        }
        return Success("$"), 2;
      }
      if i + 1 < |input| && input[i + 1] == '{' {
        var name := ReadName(input, i, 1);
        if name.Failure? { return Failure(name.error), 0; }
        if name.value !in env { return Failure(Missing(name.value)), |name.value| + 3; }
        return Success(env[name.value]), 2 + |name.value| + 1;
      }
    }
    r, read := Success([input[i]]), 1;
  }

  /** Expands a text in one pass, left to right. */
  method ExpandEnvWithLookup(input: string, env: map<string, string>) returns (r: Result<string, EnvError>)
    ensures r == Expand(input, env)
  {
    var buf, i := "", 0;
    ProgressStarts(input, env);
    while i < |input|
      invariant 0 <= i <= |input| && Progress(input, env, i, buf)
    {
      var value, read := ExpandToken(input, i, env);
      ReadOn(input, env, i, buf, value, read);
      if value.Failure? { return value; }
      buf, i := buf + value.value, i + read;
    }
    ProgressEnds(input, env, buf);
    r := Success(buf);
  }

  lemma ProgressStarts(input: string, env: map<string, string>)
    ensures Progress(input, env, 0, "")
  {
    assert input[0..] == input;
    PrependNothing(Expand(input, env));
  }

  lemma ProgressEnds(input: string, env: map<string, string>, written: string)
    requires Progress(input, env, |input|, written)
    ensures Expand(input, env) == Success(written)
  {
    assert written + "" == written;
  }

  // -- Laws ----------------------------------------------------------------------------

  /** The tokens of a text, or the first syntax error. */
  function Tokens(s: string): Result<seq<EnvToken>, EnvError>
    decreases |s|
  {
    if s == "" then Success([])
    else
      var token := Token(s);
      if token.Failure? then Failure(token.error)
      else
        var rest := Tokens(Rest(s));
        if rest.Failure? then rest else Success([token.value] + rest.value)
  }

  function Sources(tokens: seq<EnvToken>): string {
    if tokens == [] then "" else tokens[0].Source() + Sources(tokens[1..])
  }

  function Rendered(tokens: seq<EnvToken>, env: map<string, string>): string
    requires Bound(tokens, env)
  {
    if tokens == [] then "" else tokens[0].Expanded(env).value + Rendered(tokens[1..], env)
  }

  ghost predicate Bound(tokens: seq<EnvToken>, env: map<string, string>) {
    forall k :: 0 <= k < |tokens| && tokens[k].Variable? ==> tokens[k].name in env
  }

  lemma SourcesHead(token: EnvToken, rest: seq<EnvToken>)
    ensures Sources([token] + rest) == token.Source() + Sources(rest)
  {
    assert ([token] + rest)[1..] == rest;
  }

  /** Tokenizing loses nothing. */
  lemma {:induction false} TokensLossless(s: string)
    requires Tokens(s).Success?
    ensures Sources(Tokens(s).value) == s
    decreases |s|
  {
    if s != "" {
      TokensLossless(Rest(s));
      Rejoined(s);
      SourcesHead(Token(s).value, Tokens(Rest(s)).value);
    }
  }

  /** Expansion succeeds exactly on texts that tokenize and whose variables are all bound;
      the result is the tokens' expansions in order, so that no value that was inserted is
      ever read again. */
  lemma {:induction false} ExpandRenders(s: string, env: map<string, string>)
    ensures Expand(s, env).Success? <==> Tokens(s).Success? && Bound(Tokens(s).value, env)
    ensures Expand(s, env).Success? ==> Expand(s, env).value == Rendered(Tokens(s).value, env)
    decreases |s|
  {
    if s != "" && Token(s).Success? {
      ExpandRenders(Rest(s), env);
      if Tokens(Rest(s)).Success? { BoundHead(Token(s).value, Tokens(Rest(s)).value, env); }
    }
  }

  lemma BoundHead(token: EnvToken, rest: seq<EnvToken>, env: map<string, string>)
    ensures Bound([token] + rest, env) <==> token.Expanded(env).Success? && Bound(rest, env)
  {
    var tokens := [token] + rest;
    assert tokens[0] == token;
    assert forall k :: 0 <= k < |rest| ==> tokens[k + 1] == rest[k];
  }

  /** Doubling every dollar sign and expanding gives the text back, whatever the variables,
      exactly when every `${` in it opens a closed identifier; otherwise it fails. */
  lemma {:induction false} DoublingRoundTrip(s: string, env: map<string, string>)
    ensures Expand(Double(s), env).Success? <==> WellFormed(s)
    ensures WellFormed(s) ==> Expand(Double(s), env) == Success(s)
    decreases |s|
  {
    if s != "" {
      if !Opens(s) {
        DoublingRoundTrip(s[1..], env);
        DoubledCharacter(s, env);
      } else if '}' !in s[2..] {
        DoubledUnclosed(s, env);
      } else {
        var name, rest := NameParts(s);
        DoublingRoundTrip(rest, env);
        DoubledPlaceholder(s, name, rest, env);
      }
    }
  }

  lemma DoubledCharacter(s: string, env: map<string, string>)
    requires s != "" && !Opens(s)
    ensures Expand(Double(s), env) == Prepend([s[0]], Expand(Double(s[1..]), env))
    ensures s == [s[0]] + s[1..]
  {
    DoubleHead(s);
  }

  lemma DoubledUnclosed(s: string, env: map<string, string>)
    requires Opens(s) && '}' !in s[2..]
    ensures Expand(Double(s), env) == Failure(Unclosed)
  {
    DoubleOpens(s);
    DoubleMembers(s[2..], '}');
    var d := Double(s);
    assert '}' !in Double(s[2..]);
    assert Braced(d, 2) == Failure(Unclosed);
  }

  lemma DoubledPlaceholder(s: string, name: string, rest: string, env: map<string, string>)
    requires s == Placeholder(name) + rest && '}' !in name
    ensures IsIdentifier(name) ==>
      && Expand(Double(s), env) == Prepend(Placeholder(name), Expand(Double(rest), env))
      && WellFormed(s) == WellFormed(rest)
    ensures !IsIdentifier(name) ==> Expand(Double(s), env).Failure? && !WellFormed(s)
  {
    DoublePlaceholder(name, rest);
    DoubleMembers(name, '}');
    DoubleIdentifier(name);
    EscapedToken(Double(s), Double(name), Double(rest));
    WellFormedPlaceholder(name, rest);
  }

  lemma DoubleHead(s: string)
    requires s != "" && !Opens(s)
    ensures var d := Double(s);
            && Token(d) == Success(if s[0] == '$' then DoubleDollar else Literal(s[0]))
            && Rest(d) == Double(s[1..])
  {
    if s[0] == '$' {
      assert Double(s)[2..] == Double(s[1..]);
    } else {
      assert Double(s)[1..] == Double(s[1..]);
    }
  }

  lemma DoubleOpens(s: string)
    requires Opens(s)
    ensures Double(s) == "$$" + ("{" + Double(s[2..]))
  {
    assert s[1..][1..] == s[2..];
  }

  lemma EscapedToken(d: string, name: string, rest: string)
    requires d == "$" + Placeholder(name) + rest && '}' !in name
    ensures if IsIdentifier(name) then Token(d) == Success(Escaped(name)) && Rest(d) == rest else Token(d).Failure?
  {
    BracedName(d, name, rest);
    if IsIdentifier(name) {
      assert d[|name| + 4..] == rest;
    }
  }

  lemma BracedName(d: string, name: string, rest: string)
    requires d == "$" + Placeholder(name) + rest && '}' !in name
    ensures Braced(d, 2) == if IsIdentifier(name) then Success(name) else Failure(BadName(name))
  {
    assert forall j :: 3 <= j < |name| + 3 ==> d[j] == name[j - 3];
    assert d[|name| + 3] == '}';
    assert d[3..|name| + 3] == name;
  }
}
