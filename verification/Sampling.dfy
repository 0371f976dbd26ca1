/** Capped sample lists: "append unless full or already present", which every metric
    merge applies to Retry-After values, rate-limit headers and parsed header values. */
module Sampling {
  predicate Distinct<T(==)>(xs: seq<T>) {
    forall i, j :: 0 <= i < j < |xs| ==> xs[i] != xs[j]
  }

  /** One offer of a sample to a list that holds at most `cap` of them. */
  function Offer<T(==)>(kept: seq<T>, x: T, cap: nat): seq<T> {
    if |kept| < cap && x !in kept then kept + [x] else kept
  }

  /** Offer the samples of `xs` one after the other. */
  function Absorb<T(==)>(kept: seq<T>, xs: seq<T>, cap: nat): seq<T> {
    if xs == [] then kept
    else Offer(Absorb(kept, xs[..|xs| - 1], cap), xs[|xs| - 1], cap)
  }

  /** The first `cap` distinct samples of a stream. */
  function FirstDistinct<T(==)>(xs: seq<T>, cap: nat): seq<T> {
    Absorb([], xs, cap)
  }

  lemma AbsorbOne<T>(kept: seq<T>, xs: seq<T>, x: T, cap: nat)
    ensures Absorb(kept, xs + [x], cap) == Offer(Absorb(kept, xs, cap), x, cap)
  {
    assert (xs + [x])[..|xs + [x]| - 1] == xs;
  }

  lemma {:induction false} AbsorbAppend<T>(kept: seq<T>, xs: seq<T>, ys: seq<T>, cap: nat)
    ensures Absorb(kept, xs + ys, cap) == Absorb(Absorb(kept, xs, cap), ys, cap)
    decreases |ys|
  {
    if ys == [] {
      assert xs + ys == xs;
    } else {
      var front := ys[..|ys| - 1];
      AbsorbAppend(kept, xs, front, cap);
      assert xs + ys == (xs + front) + [ys[|ys| - 1]];
      AbsorbOne(kept, xs + front, ys[|ys| - 1], cap);
    }
  }

  /** Absorbing keeps the list distinct, capped, an extension of what was there, and
      drops a sample only when the list is full. */
  lemma {:induction false} AbsorbKeeps<T>(kept: seq<T>, xs: seq<T>, cap: nat)
    requires Distinct(kept) && |kept| <= cap
    ensures var r := Absorb(kept, xs, cap);
            && Distinct(r) && |r| <= cap && kept <= r
            && (forall x :: x in r ==> x in kept || x in xs)
            && (forall x :: x in xs ==> x in r || |r| == cap)
    decreases |xs|
  {
    if xs != [] {
      var front, last := xs[..|xs| - 1], xs[|xs| - 1];
      AbsorbKeeps(kept, front, cap);
      assert xs == front + [last];
    }
  }

  /** A distinct list is no longer than any list that contains all its elements. */
  lemma {:induction false} DistinctFits<T>(xs: seq<T>, ys: seq<T>)
    requires Distinct(xs) && (forall x :: x in xs ==> x in ys)
    ensures |xs| <= |ys|
    decreases |xs|
  {
    if xs != [] {
      var x := xs[0];
      assert x in xs && x in ys;
      var k :| 0 <= k < |ys| && ys[k] == x;
      var rest := ys[..k] + ys[k + 1..];
      forall y | y in xs[1..] ensures y in rest {
        var j :| 0 <= j < |xs[1..]| && xs[1..][j] == y;
        assert xs[j + 1] == y && y != x && y in ys;
        var m :| 0 <= m < |ys| && ys[m] == y;
        assert m != k;
        assert if m < k then rest[m] == y else rest[m - 1] == y;
      }
      DistinctFits(xs[1..], rest);
    }
  }

  /** The key fact behind grouping independence: offering only the retained samples of a
      stream has the same effect as offering the whole stream. */
  lemma {:induction false} AbsorbRetained<T>(kept: seq<T>, xs: seq<T>, cap: nat)
    requires Distinct(kept) && |kept| <= cap
    ensures Absorb(kept, FirstDistinct(xs, cap), cap) == Absorb(kept, xs, cap)
    decreases |xs|
  {
    if xs != [] {
      var front, last := xs[..|xs| - 1], xs[|xs| - 1];
      var retained := FirstDistinct(front, cap);
      AbsorbRetained(kept, front, cap);
      AbsorbKeeps<T>([], front, cap);
      if |retained| < cap && last !in retained {
        AbsorbOne(kept, retained, last, cap);
      } else {
        var r := Absorb(kept, retained, cap);
        AbsorbKeeps(kept, retained, cap);
        if |r| < cap && |retained| == cap {
          DistinctFits(retained, r);
          assert false;
        }
      }
    }
  }

  /** First-N-distinct of a concatenation is first-N-distinct of the parts' own
      first-N-distinct lists. */
  lemma FirstDistinctOfParts<T>(xs: seq<T>, ys: seq<T>, cap: nat)
    ensures FirstDistinct(xs + ys, cap)
         == FirstDistinct(FirstDistinct(xs, cap) + FirstDistinct(ys, cap), cap)
    ensures FirstDistinct(xs + ys, cap) == Absorb(FirstDistinct(xs, cap), FirstDistinct(ys, cap), cap)
  {
    var left, right := FirstDistinct(xs, cap), FirstDistinct(ys, cap);
    AbsorbAppend([], xs, ys, cap);
    AbsorbKeeps<T>([], xs, cap);
    AbsorbRetained(left, ys, cap);
    AbsorbAppend([], left, right, cap);
    AbsorbRetained([], xs, cap);
  }

  /** A list that is already capped and distinct is its own summary. */
  lemma {:induction false} RetainedIsFixed<T>(xs: seq<T>, cap: nat)
    requires Distinct(xs) && |xs| <= cap
    ensures FirstDistinct(xs, cap) == xs
    decreases |xs|
  {
    if xs != [] {
      var front := xs[..|xs| - 1];
      RetainedIsFixed(front, cap);
      assert xs == front + [xs[|xs| - 1]];
    }
  }
}
