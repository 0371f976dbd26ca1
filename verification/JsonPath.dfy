/** JSON paths: parsing, printing, and walking a value along a path. */
module JsonPath {
  import opened Results
  import opened Decimal
  import opened Text

  datatype Step = Key(name: string) | Index(n: nat)

  datatype PathError = UnclosedBracket | BadIndex(text: string)

  // -- Parsing -------------------------------------------------------------------------

  function Split(s: string): (parts: seq<string>)
    ensures parts != []
    decreases |s|
  {
    var dot := IndexByte(s, '.');
    if dot == -1 then [s] else [s[..dot]] + Split(s[dot + 1..])
  }

  function Then(steps: seq<Step>, rest: Result<seq<Step>, PathError>): Result<seq<Step>, PathError> {
    if rest.Success? then Success(steps + rest.value) else rest
  }

  /** The index in brackets at the head of a part, and the number of characters it takes. */
  function Bracket(part: string): (r: Result<(nat, nat), PathError>)
    requires part != ""
    ensures r.Success? ==> 0 < r.value.1 <= |part|
  {
    var close := IndexByte(part, ']');
    if close == -1 then Failure(UnclosedBracket)
    else
      var text := if close == 0 then "" else part[1..close];
      var n := Atoi(text);
      if n.None? || n.value < 0 then Failure(BadIndex(text)) else Success((n.value, close + 1))
  }

  /** The steps of one part: a key and bracketed indices, in any mixture. */
  function PartSteps(part: string): Result<seq<Step>, PathError>
    decreases |part|
  {
    if part == "" then Success([])
    else
      var open := IndexByte(part, '[');
      if open == -1 then Success([Key(part)])
      else if open > 0 then Then([Key(part[..open])], PartSteps(part[open..]))
      else
        var index := Bracket(part);
        if index.Failure? then Failure(index.error)
        else Then([Index(index.value.0)], PartSteps(part[index.value.1..]))
  }

  function PartsSteps(parts: seq<string>): Result<seq<Step>, PathError> {
    if parts == [] then Success([])
    else
      var head := PartSteps(TrimSpace(parts[0]));
      if head.Failure? then head else Then(head.value, PartsSteps(parts[1..]))
  }

  /** What is left of a path without its root marker. */
  function Stripped(s: string): string {
    if |s| >= 2 && s[0] == '$' && s[1] == '.' then s[2..]
    else if |s| >= 1 && s[0] == '$' then s[1..]
    else s
  }

  function Parse(expr: string): Result<seq<Step>, PathError> {
    var trimmed := Stripped(TrimSpace(expr));
    if trimmed == "" then Success([]) else PartsSteps(Split(trimmed))
  }

  lemma ThenTwice(a: seq<Step>, b: seq<Step>, rest: Result<seq<Step>, PathError>)
    ensures Then(a, Then(b, rest)) == Then(a + b, rest)
  {
    if rest.Success? { assert a + (b + rest.value) == (a + b) + rest.value; }
  }

  lemma ThenNothing(rest: Result<seq<Step>, PathError>)
    ensures Then([], rest) == rest
  {
    if rest.Success? { assert [] + rest.value == rest.value; }
  }

  /** Parses one part onto the steps before it. */
  method ParsePart(text: string, before: seq<Step>) returns (r: Result<seq<Step>, PathError>)
    ensures r == Then(before, PartSteps(text))
  {
    var steps, part := before, text;
    while |part| > 0
      invariant Then(steps, PartSteps(part)) == Then(before, PartSteps(text))
      decreases |part|
    {
      var bracketStart := IndexByte(part, '[');
      if bracketStart == -1 { return Success(steps + [Key(part)]); }
      if bracketStart > 0 {
        ThenTwice(steps, [Key(part[..bracketStart])], PartSteps(part[bracketStart..]));
        steps, part := steps + [Key(part[..bracketStart])], part[bracketStart..];
        continue;
      }
      var bracketEnd := IndexByte(part, ']');
      if bracketEnd == -1 { return Failure(UnclosedBracket); }
      var idxStr := part[1..bracketEnd];
      var idx := Atoi(idxStr);
      if idx.None? || idx.value < 0 { return Failure(BadIndex(idxStr)); }
      ThenTwice(steps, [Index(idx.value)], PartSteps(part[bracketEnd + 1..]));
      steps, part := steps + [Index(idx.value)], part[bracketEnd + 1..];
    }
    assert steps + [] == steps;
    r := Success(steps);
  }

  /** The steps so far and those of the parts that are left make up the whole. */
  ghost predicate Progress(parts: seq<string>, i: nat, steps: seq<Step>) {
    i <= |parts| && Then(steps, PartsSteps(parts[i..])) == PartsSteps(parts)
  }

  lemma ProgressOn(parts: seq<string>, i: nat, steps: seq<Step>)
    requires i < |parts| && Progress(parts, i, steps)
    ensures var next := Then(steps, PartSteps(TrimSpace(parts[i])));
            if next.Success? then Progress(parts, i + 1, next.value) else PartsSteps(parts) == next
  {
    assert parts[i..][1..] == parts[i + 1..] && parts[i..][0] == parts[i];
    var head := PartSteps(TrimSpace(parts[i]));
    if head.Success? { ThenTwice(steps, head.value, PartsSteps(parts[i + 1..])); }
  }

  lemma ProgressStarts(parts: seq<string>)
    ensures Progress(parts, 0, [])
  {
    ThenNothing(PartsSteps(parts));
    assert parts[0..] == parts;
  }

  lemma ProgressEnds(parts: seq<string>, steps: seq<Step>)
    requires Progress(parts, |parts|, steps)
    ensures PartsSteps(parts) == Success(steps)
  {
    assert steps + [] == steps;
  }

  /** Parses the parts of a path in order, skipping blank ones. */
  method ParseParts(parts: seq<string>) returns (r: Result<seq<Step>, PathError>)
    ensures r == PartsSteps(parts)
  {
    var steps: seq<Step> := [];
    ProgressStarts(parts);
    for i := 0 to |parts|
      invariant Progress(parts, i, steps)
    {
      var part := TrimSpace(parts[i]);
      ProgressOn(parts, i, steps);
      if part == "" {
        assert steps + [] == steps;
        continue;
      }
      var next := ParsePart(part, steps);
      if next.Failure? { return next; }
      steps := next.value;
    }
    ProgressEnds(parts, steps);
    r := Success(steps);
  }

  method ParseJsonPath(expr: string) returns (r: Result<seq<Step>, PathError>)
    ensures r == Parse(expr)
  {
    var trimmed := TrimSpace(expr);
    if |trimmed| >= 2 && trimmed[0] == '$' && trimmed[1] == '.' {
      trimmed := trimmed[2..];
    } else if |trimmed| >= 1 && trimmed[0] == '$' {
      trimmed := trimmed[1..];
    }
    if trimmed == "" { return Success([]); }
    r := ParseParts(Split(trimmed));
  }

  // -- Printing ------------------------------------------------------------------------

  function StepText(step: Step): string {
    match step
    case Key(name) => "." + name
    case Index(n) => "[" + (Itoa(n) + "]")
  }

  function StepTexts(steps: seq<Step>): string {
    if steps == [] then "" else StepText(steps[0]) + StepTexts(steps[1..])
  }

  /** A path with its root marker. */
  function Print(steps: seq<Step>): string {
    "$" + StepTexts(steps)
  }

  /** Keys that can be written plainly, and indices that fit 64 bits. */
  predicate Printable(step: Step) {
    match step
    case Key(name) => name != "" && Trimmed(name) && '.' !in name && '[' !in name
    case Index(n) => IsInt64(n)
  }

  ghost predicate AllPrintable(steps: seq<Step>) {
    forall k :: 0 <= k < |steps| ==> Printable(steps[k])
  }

  ghost predicate AllIndices(steps: seq<Step>) {
    forall k :: 0 <= k < |steps| ==> steps[k].Index?
  }

  lemma DigitsPlain(n: nat, c: char)
    requires !IsDigit(c)
    ensures c !in Itoa(n)
  {
    forall k | 0 <= k < |Digits(n)| ensures Digits(n)[k] != c {
      assert IsDigit(Digits(n)[k]);
    }
  }

  /** A bracketed index at the head of a part reads back. */
  lemma BracketReads(n: nat, rest: string)
    requires IsInt64(n)
    ensures var part := "[" + (Itoa(n) + "]") + rest;
            && IndexByte(part, '[') == 0
            && Bracket(part) == Success((n, |Itoa(n)| + 2))
            && part[|Itoa(n)| + 2..] == rest
  {
    var digits := Itoa(n);
    var part := "[" + (digits + "]") + rest;
    DigitsPlain(n, ']');
    assert forall j :: 1 <= j < |digits| + 1 ==> part[j] == digits[j - 1];
    assert part[|digits| + 1] == ']' && IndexByte(part, ']') == |digits| + 1;
    assert part[1..|digits| + 1] == digits;
    AtoiOfItoa(n);
  }

  lemma {:induction false} IndicesRead(run: seq<Step>)
    requires AllIndices(run) && AllPrintable(run)
    ensures PartSteps(StepTexts(run)) == Success(run)
  {
    if run != [] {
      assert run[0].Index? && Printable(run[0]);
      IndicesRead(run[1..]);
      BracketReads(run[0].n, StepTexts(run[1..]));
      assert run == [run[0]] + run[1..];
    }
  }

  lemma KeyedIndicesRead(name: string, run: seq<Step>)
    requires Printable(Key(name)) && AllIndices(run) && AllPrintable(run)
    ensures PartSteps(name + StepTexts(run)) == Success([Key(name)] + run)
  {
    IndicesRead(run);
    if run == [] {
      assert name + StepTexts(run) == name && [Key(name)] + run == [Key(name)];
    } else {
      assert run[0].Index?;
      IndexInPrefix(name, StepTexts(run), '[');
      assert (name + StepTexts(run))[..|name|] == name && (name + StepTexts(run))[|name|..] == StepTexts(run);
    }
  }

  lemma IndexTextPlain(n: nat)
    ensures var text := StepText(Index(n)); '.' !in text && text[0] == '[' && text[|text| - 1] == ']'
  {
    DigitsPlain(n, '.');
  }

  /** The text of a path ends as that of its last step does. */
  lemma {:induction false} LastCharacter(steps: seq<Step>)
    requires steps != []
    ensures var text, last := StepTexts(steps), StepText(steps[|steps| - 1]);
            text != "" && text[|text| - 1] == last[|last| - 1]
  {
    if |steps| > 1 { LastCharacter(steps[1..]); }
  }

  /** A part printed from indices has no dot in it and nothing to trim. */
  lemma {:induction false} IndicesPlain(run: seq<Step>)
    requires AllIndices(run)
    ensures '.' !in StepTexts(run)
    ensures run != [] ==> StepTexts(run) != "" && StepTexts(run)[0] == '[' && StepTexts(run)[|StepTexts(run)| - 1] == ']'
  {
    if run != [] {
      assert run[0].Index? && run[|run| - 1].Index?;
      IndexTextPlain(run[0].n);
      IndexTextPlain(run[|run| - 1].n);
      IndicesPlain(run[1..]);
      LastCharacter(run);
    }
  }

  /** The length of the leading run of indices. */
  function Run(steps: seq<Step>): (n: nat)
    ensures n <= |steps| && AllIndices(steps[..n])
    ensures n < |steps| ==> steps[n].Key?
  {
    if steps == [] || steps[0].Key? then 0 else Run(steps[1..]) + 1
  }

  lemma {:induction false} TextsConcat(a: seq<Step>, b: seq<Step>)
    ensures StepTexts(a + b) == StepTexts(a) + StepTexts(b)
  {
    if a == [] {
      assert a + b == b;
    } else {
      assert (a + b)[1..] == a[1..] + b;
      TextsConcat(a[1..], b);
    }
  }

  lemma SplitFirst(part: string, rest: string)
    requires '.' !in part
    ensures Split(part + "." + rest) == [part] + Split(rest)
    ensures Split(part) == [part]
  {
    var s := part + "." + rest;
    assert s == part + ("." + rest);
    IndexInPrefix(part, "." + rest, '.');
    assert s[..|part|] == part && s[|part| + 1..] == rest;
  }

  /** Text for one part of a path: a key or nothing, and indices. */
  ghost predicate IsPart(head: seq<Step>, text: string) {
    (head == [] && text == "") || (head == [Key(text)] && Printable(Key(text)))
  }

  /** One part reads back, with nothing trimmed. */
  lemma PartReads(head: seq<Step>, text: string, run: seq<Step>)
    requires IsPart(head, text) && AllIndices(run) && AllPrintable(run)
    ensures var part := text + StepTexts(run);
            '.' !in part && TrimSpace(part) == part && PartSteps(part) == Success(head + run)
  {
    IndicesPlain(run);
    var part := text + StepTexts(run);
    assert Trimmed(part);
    TrimmedIsFixed(part);
    if head == [] {
      assert part == StepTexts(run) && head + run == run;
      IndicesRead(run);
    } else {
      KeyedIndicesRead(text, run);
    }
  }

  lemma SplitTexts(steps: seq<Step>, n: nat)
    requires n < |steps| && steps[n].Key?
    ensures StepTexts(steps) == StepTexts(steps[..n]) + (("." + steps[n].name) + StepTexts(steps[n + 1..]))
  {
    TextsConcat(steps[..n], steps[n..]);
    assert steps == steps[..n] + steps[n..];
    assert steps[n..][1..] == steps[n + 1..];
  }

  lemma DotJoins(a: string, b: string, c: string, d: string)
    ensures a + (b + (("." + c) + d)) == a + b + "." + (c + d)
  {
  }

  /** The text of a path after some part of it was begun, up to the next dot. */
  lemma RunTexts(text: string, steps: seq<Step>, n: nat)
    requires n < |steps| && steps[n].Key?
    ensures text + StepTexts(steps)
         == text + StepTexts(steps[..n]) + "." + (steps[n].name + StepTexts(steps[n + 1..]))
  {
    SplitTexts(steps, n);
    DotJoins(text, StepTexts(steps[..n]), steps[n].name, StepTexts(steps[n + 1..]));
  }

  lemma Rejoined(head: seq<Step>, steps: seq<Step>, n: nat)
    requires n < |steps|
    ensures (head + steps[..n]) + ([steps[n]] + steps[n + 1..]) == head + steps
  {
  }

  /** A printed path reads back part by part. */
  lemma {:induction false} PartsRead(head: seq<Step>, text: string, steps: seq<Step>)
    requires IsPart(head, text) && AllPrintable(steps)
    ensures PartsSteps(Split(text + StepTexts(steps))) == Success(head + steps)
    decreases |steps|
  {
    var n := Run(steps);
    if n == |steps| {
      assert steps[..n] == steps;
      PartReads(head, text, steps);
      LastPart(text + StepTexts(steps), head + steps);
    } else {
      PartsRead([steps[n]], steps[n].name, steps[n + 1..]);
      NextPartReads(head, text, steps, n);
    }
  }

  lemma NextPartReads(head: seq<Step>, text: string, steps: seq<Step>, n: nat)
    requires IsPart(head, text) && AllPrintable(steps) && n == Run(steps) < |steps|
    requires PartsSteps(Split(steps[n].name + StepTexts(steps[n + 1..]))) == Success([steps[n]] + steps[n + 1..])
    ensures PartsSteps(Split(text + StepTexts(steps))) == Success(head + steps)
  {
    PartReads(head, text, steps[..n]);
    NextPart(text + StepTexts(steps[..n]), steps[n].name + StepTexts(steps[n + 1..]),
             head + steps[..n], [steps[n]] + steps[n + 1..]);
    RunTexts(text, steps, n);
    Rejoined(head, steps, n);
  }

  lemma LastPart(part: string, steps: seq<Step>)
    requires '.' !in part && TrimSpace(part) == part && PartSteps(part) == Success(steps)
    ensures PartsSteps(Split(part)) == Success(steps)
  {
    SplitFirst(part, "");
    assert steps + [] == steps;
  }

  lemma NextPart(part: string, tail: string, steps: seq<Step>, rest: seq<Step>)
    requires '.' !in part && TrimSpace(part) == part && PartSteps(part) == Success(steps)
    requires PartsSteps(Split(tail)) == Success(rest)
    ensures PartsSteps(Split(part + "." + tail)) == Success(steps + rest)
  {
    SplitFirst(part, tail);
    assert ([part] + Split(tail))[1..] == Split(tail);
  }

  /** The text of a path after its root marker. */
  function Body(steps: seq<Step>): string
    requires steps != []
  {
    if steps[0].Key? then steps[0].name + StepTexts(steps[1..]) else StepTexts(steps)
  }

  lemma BodyReads(steps: seq<Step>)
    requires steps != [] && AllPrintable(steps)
    ensures PartsSteps(Split(Body(steps))) == Success(steps)
  {
    assert Printable(steps[0]);
    if steps[0].Key? {
      PartsRead([steps[0]], steps[0].name, steps[1..]);
      assert [steps[0]] + steps[1..] == steps;
    } else {
      PartsRead([], "", steps);
      assert "" + StepTexts(steps) == StepTexts(steps) && [] + steps == steps;
    }
  }

  lemma ParsesTo(expr: string, body: string, steps: seq<Step>)
    requires TrimSpace(expr) == expr && Stripped(expr) == body != "" && PartsSteps(Split(body)) == Success(steps)
    ensures Parse(expr) == Success(steps)
  {
  }

  /** Printing a path and parsing it gives the path back. */
  lemma ParseAfterPrint(steps: seq<Step>)
    requires AllPrintable(steps)
    ensures Parse(Print(steps)) == Success(steps)
  {
    PrintTrimmed(steps);
    TrimmedIsFixed(Print(steps));
    if steps == [] {
      assert Print(steps) == "$" && Stripped("$") == "";
    } else {
      assert Printable(steps[0]);
      PrintStripped(steps);
      BodyReads(steps);
      ParsesTo(Print(steps), Body(steps), steps);
    }
  }

  lemma PrintStripped(steps: seq<Step>)
    requires steps != [] && Printable(steps[0])
    ensures Stripped(Print(steps)) == Body(steps) != ""
  {
    match steps[0]
    case Key(name) => StrippedKey(name, StepTexts(steps[1..]));
    case Index(n) => StrippedIndex(Itoa(n) + "]", StepTexts(steps[1..]));
  }

  lemma StrippedKey(name: string, rest: string)
    ensures Stripped("$" + ("." + name + rest)) == name + rest
  {
    var s := "$" + ("." + name + rest);
    assert s[2..] == name + rest;
  }

  lemma StrippedIndex(digits: string, rest: string)
    ensures Stripped("$" + ("[" + digits + rest)) == "[" + digits + rest
  {
    var s := "$" + ("[" + digits + rest);
    assert s[1] == '[' && s[1..] == "[" + digits + rest;
  }

  lemma PrintTrimmed(steps: seq<Step>)
    requires AllPrintable(steps)
    ensures Trimmed(Print(steps))
  {
    if steps != [] {
      assert Printable(steps[|steps| - 1]);
      LastCharacter(steps);
    }
  }

  // -- Walking -------------------------------------------------------------------------

  datatype Json =
    | Null
    | Bool(b: bool)
    | Number(x: real)
    | Text(s: string)
    | Array(items: seq<Json>)
    | Object(members: map<string, Json>)

  datatype WalkError =
    | NotAnObject(key: string)
    | KeyNotFound(key: string)
    | NotAnArray(index: nat)
    | OutOfBounds(index: nat)

  function StepInto(v: Json, step: Step): Result<Json, WalkError> {
    match step
    case Key(name) =>
      if !v.Object? then Failure(NotAnObject(name))
      else if name !in v.members then Failure(KeyNotFound(name))
      else Success(v.members[name])
    case Index(n) =>
      if !v.Array? then Failure(NotAnArray(n))
      else if n >= |v.items| then Failure(OutOfBounds(n))
      else Success(v.items[n])
  }

  /** The value a path leads to, or the first step that leads nowhere. */
  function Walked(v: Json, steps: seq<Step>): Result<Json, WalkError> {
    if steps == [] then Success(v)
    else
      var next := StepInto(v, steps[0]);
      if next.Failure? then next else Walked(next.value, steps[1..])
  }

  method Walk(root: Json, steps: seq<Step>) returns (r: Result<Json, WalkError>)
    ensures r == Walked(root, steps)
  {
    var curr := root;
    assert steps[0..] == steps;
    for i := 0 to |steps|
      invariant Walked(curr, steps[i..]) == Walked(root, steps)
    {
      assert steps[i..][0] == steps[i] && steps[i..][1..] == steps[i + 1..];
      match steps[i]
      case Key(name) =>
        if !curr.Object? { return Failure(NotAnObject(name)); }
        if name !in curr.members { return Failure(KeyNotFound(name)); }
        curr := curr.members[name];
      case Index(n) =>
        if !curr.Array? { return Failure(NotAnArray(n)); }
        if n >= |curr.items| { return Failure(OutOfBounds(n)); }
        curr := curr.items[n];
    }
    r := Success(curr);
  }

  /** Walking a joined path is walking its parts in turn, and fails as they do. */
  lemma {:induction false} WalkConcat(v: Json, a: seq<Step>, b: seq<Step>)
    ensures Walked(v, a + b)
         == if Walked(v, a).Success? then Walked(Walked(v, a).value, b) else Walked(v, a)
    decreases |a|
  {
    if a == [] {
      assert a + b == b;
    } else {
      assert (a + b)[0] == a[0] && (a + b)[1..] == a[1..] + b;
      var next := StepInto(v, a[0]);
      if next.Success? { WalkConcat(next.value, a[1..], b); }
    }
  }

  function Nulls(n: nat): (r: seq<Json>)
    ensures |r| == n
  {
    if n == 0 then [] else Nulls(n - 1) + [Null]
  }

  /** A value in which a path leads to the given one. */
  function Wrapped(steps: seq<Step>, v: Json): Json {
    if steps == [] then v
    else
      match steps[0]
      case Key(name) => Object(map[name := Wrapped(steps[1..], v)])
      case Index(n) => Array(Nulls(n) + [Wrapped(steps[1..], v)])
  }

  /** Keys lead to members and indices count from zero. */
  lemma {:induction false} WalkReaches(steps: seq<Step>, v: Json)
    ensures Walked(Wrapped(steps, v), steps) == Success(v)
  {
    if steps != [] {
      WalkReaches(steps[1..], v);
    }
  }

  /** A printed path, parsed again, leads to what was put at its end. */
  lemma PrintedPathReaches(steps: seq<Step>, v: Json)
    requires AllPrintable(steps)
    ensures Parse(Print(steps)).Success? && Walked(Wrapped(steps, v), Parse(Print(steps)).value) == Success(v)
  {
    ParseAfterPrint(steps);
    WalkReaches(steps, v);
  }
}
