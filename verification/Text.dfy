/** Text scanning shared by the template scanners, the path parser and error samples. */
module Text {
  /** Unicode white space, as `strings.TrimSpace` removes it. */
  predicate IsSpace(c: char) {
    || '\t' <= c <= '\r'
    || c == ' '
    || c == '\U{85}' || c == '\U{A0}' || c == '\U{1680}'
    || '\U{2000}' <= c <= '\U{200A}'
    || c == '\U{2028}' || c == '\U{2029}' || c == '\U{202F}' || c == '\U{205F}' || c == '\U{3000}'
  }

  function TrimLeft(s: string): (r: string)
    ensures |r| <= |s| && (r != "" ==> !IsSpace(r[0]))
  {
    if s != "" && IsSpace(s[0]) then TrimLeft(s[1..]) else s
  }

  function TrimRight(s: string): (r: string)
    ensures |r| <= |s| && r <= s && (r != "" ==> !IsSpace(r[|r| - 1]))
  {
    if s != "" && IsSpace(s[|s| - 1]) then TrimRight(s[..|s| - 1]) else s
  }

  function TrimSpace(s: string): (r: string)
    ensures |r| <= |s|
    ensures r != "" ==> !IsSpace(r[0]) && !IsSpace(r[|r| - 1])
  {
    var left := TrimLeft(s);
    var r := TrimRight(left);
    assert r != "" ==> r[0] == left[0];
    r
  }

  /** Text with nothing to trim. */
  predicate Trimmed(s: string) {
    s == "" || (!IsSpace(s[0]) && !IsSpace(s[|s| - 1]))
  }

  lemma TrimmedIsFixed(s: string)
    requires Trimmed(s)
    ensures TrimSpace(s) == s
  {
  }

  /** The first position of `c` in `s` at `from` or later, or -1. */
  function IndexFrom(s: string, c: char, from: nat): (k: int)
    requires from <= |s|
    ensures k == -1 || (from <= k < |s| && s[k] == c)
    ensures forall j :: from <= j < (if k == -1 then |s| else k) ==> s[j] != c
    decreases |s| - from
  {
    if from == |s| then -1
    else if s[from] == c then from
    else IndexFrom(s, c, from + 1)
  }

  /** Searching a suffix is searching the text from there. */
  lemma IndexInSuffix(s: string, i: nat, c: char, from: nat)
    requires i <= |s| && from <= |s| - i
    ensures IndexFrom(s[i..], c, from)
         == if IndexFrom(s, c, i + from) == -1 then -1 else IndexFrom(s, c, i + from) - i
  {
    var suffix := s[i..];
    assert forall j :: 0 <= j < |suffix| ==> suffix[j] == s[i + j];
    var k, m := IndexFrom(suffix, c, from), IndexFrom(s, c, i + from);
    if k != -1 && m != -1 {
      assert k >= m - i by { assert suffix[m - i] == s[m]; }
    }
  }

  /** The first position of `c` in `s`, or -1. */
  function IndexByte(s: string, c: char): (k: int)
    ensures k == -1 || (0 <= k < |s| && s[k] == c)
    ensures forall j :: 0 <= j < (if k == -1 then |s| else k) ==> s[j] != c
  {
    IndexFrom(s, c, 0)
  }

  lemma IndexInPrefix(s: string, t: string, c: char)
    requires c !in s && t != "" && t[0] == c
    ensures IndexByte(s + t, c) == |s|
  {
    assert (s + t)[|s|] == c;
  }
}
