/** What the two template scanners share. */
module Templates {
  import opened Results
  import opened Text

  function IdentifierStart(c: char): bool {
    'A' <= c <= 'Z' || 'a' <= c <= 'z' || c == '_'
  }

  predicate IsIdentifier(name: string) {
    && name != ""
    && IdentifierStart(name[0])
    && forall k :: 0 <= k < |name| ==> IdentifierStart(name[k]) || '0' <= name[k] <= '9'
  }

  /** Output already written, in front of what the rest of the text becomes. */
  function Prepend<E>(written: string, rest: Result<string, E>): Result<string, E> {
    if rest.Success? then Success(written + rest.value) else rest
  }

  lemma PrependNothing<E>(rest: Result<string, E>)
    ensures Prepend("", rest) == rest
  {
    if rest.Success? { assert "" + rest.value == rest.value; }
  }

  lemma PrependTwice<E>(a: string, b: string, rest: Result<string, E>)
    ensures Prepend(a, Prepend(b, rest)) == Prepend(a + b, rest)
  {
    if rest.Success? { assert a + (b + rest.value) == (a + b) + rest.value; }
  }

  /** A text that begins with `${`. */
  predicate Opens(s: string) {
    |s| > 1 && s[0] == '$' && s[1] == '{'
  }

  function Placeholder(name: string): string {
    "${" + name + "}"
  }

  lemma PlaceholderAt(s: string, at: nat, name: string)
    requires at + |name| + 3 <= |s| && s[at] == '$' && s[at + 1] == '{'
    requires s[at + 2..at + 2 + |name|] == name && s[at + 2 + |name|] == '}'
    ensures s[at..at + |name| + 3] == Placeholder(name)
  {
    assert s[at..at + 2] == "${";
  }

  /** Whether what follows `${` is an identifier and the brace that closes it. */
  predicate OpensName(s: string)
    requires Opens(s)
  {
    var close := IndexFrom(s, '}', 2);
    close >= 0 && IsIdentifier(s[2..close])
  }

  /** Every `${` in the text opens an identifier that is closed. */
  predicate WellFormed(s: string) {
    s == "" || ((Opens(s) ==> OpensName(s)) && WellFormed(s[1..]))
  }

  /** Stepping over text without a dollar sign does not change what is left to check. */
  lemma {:induction false} WellFormedAfter(a: string, b: string)
    requires '$' !in a
    ensures WellFormed(a + b) == WellFormed(b)
  {
    if a == "" {
      assert a + b == b;
    } else {
      assert (a + b)[1..] == a[1..] + b;
      WellFormedAfter(a[1..], b);
    }
  }

  lemma WellFormedPlaceholder(name: string, rest: string)
    requires '}' !in name
    ensures WellFormed(Placeholder(name) + rest) <==> IsIdentifier(name) && WellFormed(rest)
  {
    var s := Placeholder(name) + rest;
    assert forall j :: 2 <= j < |name| + 2 ==> s[j] == name[j - 2];
    assert s[|name| + 2] == '}' && IndexFrom(s, '}', 2) == |name| + 2 && s[2..|name| + 2] == name;
    if IsIdentifier(name) {
      assert s[1..] == ("{" + name + "}") + rest;
      WellFormedAfter("{" + name + "}", rest);
    }
  }

  /** A text that opens a name, taken apart. */
  lemma NameParts(s: string) returns (name: string, rest: string)
    requires Opens(s) && '}' in s[2..]
    ensures s == Placeholder(name) + rest && '}' !in name
    ensures OpensName(s) <==> IsIdentifier(name)
  {
    var close := IndexFrom(s, '}', 2);
    assert close >= 0 by {
      var k :| 0 <= k < |s[2..]| && s[2..][k] == '}';
      assert s[k + 2] == '}';
    }
    name, rest := s[2..close], s[close + 1..];
  }

  /** Every dollar sign doubled. */
  function Double(s: string): string {
    if s == "" then "" else (if s[0] == '$' then "$$" else [s[0]]) + Double(s[1..])
  }

  lemma {:induction false} DoubleConcat(a: string, b: string)
    ensures Double(a + b) == Double(a) + Double(b)
  {
    if a == "" {
      assert a + b == b;
    } else {
      assert (a + b)[1..] == a[1..] + b;
      DoubleConcat(a[1..], b);
    }
  }

  lemma {:induction false} DoubleMembers(a: string, c: char)
    ensures c in Double(a) <==> c in a
  {
    if a != "" { DoubleMembers(a[1..], c); }
  }

  lemma {:induction false} DoublePlain(a: string)
    requires '$' !in a
    ensures Double(a) == a
  {
    if a != "" { DoublePlain(a[1..]); }
  }

  lemma DoublePlaceholder(name: string, rest: string)
    ensures Double(Placeholder(name) + rest) == "$" + Placeholder(Double(name)) + Double(rest)
  {
    DoubleConcat(Placeholder(name), rest);
    DoubleConcat("${" + name, "}");
    DoubleConcat("${", name);
    assert "${"[1..] == "{" && "{"[1..] == "";
    assert Double("${") == "$${";
    assert Double("}") == "}";
  }

  /** Doubling makes an identifier of nothing that was not one. */
  lemma DoubleIdentifier(a: string)
    ensures IsIdentifier(Double(a)) <==> IsIdentifier(a)
    ensures IsIdentifier(a) ==> Double(a) == a
  {
    DoubleMembers(a, '$');
    if '$' !in a { DoublePlain(a); }
  }

  /** Every `${` escaped with one more dollar sign. */
  function Escape(s: string): (r: string)
    ensures |r| >= |s|
  {
    if s == "" then "" else (if Opens(s) then "$$" else [s[0]]) + Escape(s[1..])
  }

  /** Escaping works piece by piece when no `${` straddles the pieces. */
  lemma {:induction false} EscapeConcat(a: string, b: string)
    requires b == "" || b[0] != '{'
    ensures Escape(a + b) == Escape(a) + Escape(b)
  {
    if a == "" {
      assert a + b == b;
    } else {
      assert (a + b)[1..] == a[1..] + b;
      assert Opens(a + b) <==> Opens(a);
      EscapeConcat(a[1..], b);
    }
  }

  lemma {:induction false} EscapeMembers(a: string, c: char)
    ensures c in Escape(a) <==> c in a
  {
    if a != "" { EscapeMembers(a[1..], c); }
  }

  lemma {:induction false} EscapePlain(a: string)
    requires '$' !in a
    ensures Escape(a) == a
  {
    if a != "" { EscapePlain(a[1..]); }
  }

  lemma EscapeIdentifier(a: string)
    ensures IsIdentifier(Escape(a)) <==> IsIdentifier(a)
    ensures IsIdentifier(a) ==> Escape(a) == a
  {
    EscapeMembers(a, '$');
    if '$' !in a {
      EscapePlain(a);
    } else {
      EscapeHasDollar(a);
    }
  }

  lemma EscapeHasDollar(a: string)
    requires '$' in a
    ensures !IsIdentifier(a) && !IsIdentifier(Escape(a))
  {
    EscapeMembers(a, '$');
  }

  lemma EscapePlaceholder(name: string, rest: string)
    ensures Escape(Placeholder(name) + rest) == "$" + Placeholder(Escape(name)) + Escape(rest)
  {
    var s := Placeholder(name) + rest;
    assert s[1..] == "{" + (name + ("}" + rest));
    assert s[1..][1..] == name + ("}" + rest);
    EscapeConcat(name, "}" + rest);
    assert ("}" + rest)[1..] == rest;
  }

  predicate NoOpening(s: string) {
    s == "" || (!Opens(s) && NoOpening(s[1..]))
  }

  /** Every `${` in the text is closed before another one opens. */
  predicate Flat(s: string) {
    s == "" || ((Opens(s) ==> OpensFlat(s)) && Flat(s[1..]))
  }

  predicate OpensFlat(s: string)
    requires Opens(s)
  {
    var close := IndexFrom(s, '}', 2);
    close >= 0 && NoOpening(s[2..close])
  }

  lemma {:induction false} EscapeUnlessNoOpening(s: string)
    ensures NoOpening(s) <==> Escape(s) == s
    ensures !NoOpening(s) ==> |Escape(s)| > |s|
  {
    if s != "" {
      EscapeUnlessNoOpening(s[1..]);
      assert s == [s[0]] + s[1..];
    }
  }

  lemma {:induction false} FlatAfter(a: string, b: string)
    requires NoOpening(a) && (b == "" || b[0] != '{')
    ensures Flat(a + b) == Flat(b)
  {
    if a == "" {
      assert a + b == b;
    } else {
      assert (a + b)[1..] == a[1..] + b;
      assert Opens(a + b) <==> Opens(a);
      FlatAfter(a[1..], b);
    }
  }

  lemma FlatPlaceholder(name: string, rest: string)
    requires '}' !in name
    ensures Flat(Placeholder(name) + rest) <==> NoOpening(name) && Flat(rest)
  {
    var s := Placeholder(name) + rest;
    assert s[2..] == name + ("}" + rest);
    assert forall j :: 2 <= j < |name| + 2 ==> s[j] == name[j - 2];
    assert s[|name| + 2] == '}' && IndexFrom(s, '}', 2) == |name| + 2 && s[2..|name| + 2] == name;
    if NoOpening(name) {
      FlatAfter(name, "}" + rest);
      assert ("}" + rest)[1..] == rest;
      assert s[1..] == "{" + s[2..] && s[1..][1..] == s[2..];
    }
  }

  /** An identifier contains nothing that opens, so well-formed text is flat. */
  lemma {:induction false} WellFormedIsFlat(s: string)
    requires WellFormed(s)
    ensures Flat(s)
  {
    if s != "" {
      WellFormedIsFlat(s[1..]);
      if Opens(s) { PlainHasNoOpening(s[2..IndexFrom(s, '}', 2)]); }
    }
  }

  lemma {:induction false} PlainHasNoOpening(s: string)
    requires '$' !in s
    ensures NoOpening(s)
  {
    if s != "" { PlainHasNoOpening(s[1..]); }
  }

  /** An escaped text never begins with an opening. */
  lemma EscapeStarts(s: string)
    requires s != ""
    ensures Escape(s)[0] == s[0] && !Opens(Escape(s))
  {
    if |s| > 1 && !Opens(s) {
      assert Escape(s[1..])[0] == s[1];
    }
  }

  lemma {:induction false} EscapeWellFormed(s: string)
    requires WellFormed(s)
    ensures WellFormed(Escape(s))
    decreases |s|
  {
    if s != "" {
      EscapeStarts(s);
      if !Opens(s) {
        EscapeWellFormed(s[1..]);
        assert Escape(s)[1..] == Escape(s[1..]);
      } else {
        assert '}' in s[2..] by { assert s[2..][IndexFrom(s, '}', 2) - 2] == '}'; }
        var name, rest := NameParts(s);
        WellFormedPlaceholder(name, rest);
        EscapeWellFormed(rest);
        EscapeIdentifier(name);
        EscapePlaceholder(name, rest);
        DollarWellFormed(name, Escape(rest));
      }
    }
  }

  lemma DollarWellFormed(name: string, rest: string)
    requires IsIdentifier(name) && WellFormed(rest)
    ensures WellFormed("$" + Placeholder(name) + rest)
  {
    var s := "$" + Placeholder(name) + rest;
    WellFormedPlaceholder(name, rest);
    assert s[1..] == Placeholder(name) + rest && !Opens(s);
  }
}
