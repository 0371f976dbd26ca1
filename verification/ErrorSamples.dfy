/** Bounded error samples: at most ten distinct (message, class) pairs, each with a count. */
module ErrorSamples {
  import opened Sampling

  const MAX_ERRORS: nat := 10

  datatype ErrorKey = ErrorKey(message: string, class_: string)

  datatype ErrorSample = ErrorSample(key: ErrorKey, count: nat)

  function Keys(list: seq<ErrorSample>): (r: seq<ErrorKey>)
    ensures |r| == |list| && forall i :: 0 <= i < |list| ==> r[i] == list[i].key
  {
    seq(|list|, i requires 0 <= i < |list| => list[i].key)
  }

  lemma KeysAppend(xs: seq<ErrorSample>, ys: seq<ErrorSample>)
    ensures Keys(xs + ys) == Keys(xs) + Keys(ys)
  {
  }

  /** Adds to the entry with the same key, or appends if there is room. */
  function AddWithin(list: seq<ErrorSample>, s: ErrorSample, room: nat): seq<ErrorSample> {
    if list == [] then
      if room > 0 then [s] else []
    else if list[0].key == s.key then [ErrorSample(s.key, list[0].count + s.count)] + list[1..]
    else [list[0]] + AddWithin(list[1..], s, if room > 0 then room - 1 else 0)
  }

  function AddAll(list: seq<ErrorSample>, xs: seq<ErrorSample>): seq<ErrorSample> {
    if xs == [] then list
    else AddWithin(AddAll(list, xs[..|xs| - 1]), xs[|xs| - 1], MAX_ERRORS)
  }

  lemma AddAllOne(list: seq<ErrorSample>, xs: seq<ErrorSample>, x: ErrorSample)
    ensures AddAll(list, xs + [x]) == AddWithin(AddAll(list, xs), x, MAX_ERRORS)
  {
    assert (xs + [x])[..|xs|] == xs;
  }

  lemma {:induction false} AddAllAppend(list: seq<ErrorSample>, xs: seq<ErrorSample>, ys: seq<ErrorSample>)
    ensures AddAll(AddAll(list, xs), ys) == AddAll(list, xs + ys)
    decreases |ys|
  {
    if ys == [] {
      assert xs + ys == xs;
    } else {
      var front, last := ys[..|ys| - 1], ys[|ys| - 1];
      AddAllAppend(list, xs, front);
      assert xs + ys == (xs + front) + [last];
      AddAllOne(list, xs + front, last);
    }
  }

  /** The total count recorded under a key. */
  function CountOf(list: seq<ErrorSample>, key: ErrorKey): nat {
    if list == [] then 0
    else
      var rest := CountOf(list[1..], key);
      if list[0].key == key then list[0].count + rest else rest
  }

  lemma {:induction false} CountOfAppend(xs: seq<ErrorSample>, ys: seq<ErrorSample>, key: ErrorKey)
    ensures CountOf(xs + ys, key) == CountOf(xs, key) + CountOf(ys, key)
  {
    if xs == [] {
      assert xs + ys == ys;
    } else {
      CountOfAppend(xs[1..], ys, key);
      assert (xs + ys)[1..] == xs[1..] + ys;
    }
  }

  lemma {:induction false} CountOfAbsent(list: seq<ErrorSample>, key: ErrorKey)
    requires key !in Keys(list)
    ensures CountOf(list, key) == 0
  {
    if list != [] {
      assert Keys(list)[0] == list[0].key;
      assert forall i :: 0 <= i < |list[1..]| ==> Keys(list[1..])[i] == Keys(list)[i + 1];
      CountOfAbsent(list[1..], key);
    }
  }

  /** An addition offers the key. */
  lemma {:induction false} AddWithinKeys(list: seq<ErrorSample>, s: ErrorSample, room: nat)
    requires |list| <= room
    ensures Keys(AddWithin(list, s, room)) == Offer(Keys(list), s.key, room)
    decreases |list|
  {
    if list != [] {
      var tail := list[1..];
      assert Keys(list) == [list[0].key] + Keys(tail);
      if list[0].key != s.key {
        AddWithinKeys(tail, s, room - 1);
        KeysAppend([list[0]], AddWithin(tail, s, room - 1));
        assert Keys([list[0]]) == [list[0].key];
      } else {
        KeysAppend([ErrorSample(s.key, list[0].count + s.count)], tail);
      }
    }
  }

  /** An addition counts towards its key unless it is new and there is no room. */
  lemma {:induction false} AddWithinCounts(list: seq<ErrorSample>, s: ErrorSample, room: nat, key: ErrorKey)
    requires |list| <= room
    ensures CountOf(AddWithin(list, s, room), key)
         == CountOf(list, key) + if key == s.key && (s.key in Keys(list) || |list| < room) then s.count else 0
    decreases |list|
  {
    var r := AddWithin(list, s, room);
    if list == [] {
      assert room > 0 ==> r[1..] == [];
    } else {
      var tail := list[1..];
      assert Keys(list) == [list[0].key] + Keys(tail);
      if list[0].key == s.key {
        assert r[1..] == tail;
      } else {
        AddWithinCounts(tail, s, room - 1, key);
        assert r[1..] == AddWithin(tail, s, room - 1);
      }
    }
  }

  /** The kept keys are the first ten distinct ones, and each carries its full count. */
  lemma {:induction false} AddAllEffect(xs: seq<ErrorSample>, key: ErrorKey)
    ensures Keys(AddAll([], xs)) == FirstDistinct(Keys(xs), MAX_ERRORS)
    ensures CountOf(AddAll([], xs), key)
         == if key in FirstDistinct(Keys(xs), MAX_ERRORS) then CountOf(xs, key) else 0
    decreases |xs|
  {
    if xs != [] {
      var front, last := xs[..|xs| - 1], xs[|xs| - 1];
      AddAllEffect(front, key);
      AddAllEffect(front, last.key);
      var before := AddAll([], front);
      AbsorbKeeps<ErrorKey>([], Keys(front), MAX_ERRORS);
      AddWithinKeys(before, last, MAX_ERRORS);
      AddWithinCounts(before, last, MAX_ERRORS, key);
      assert Keys(xs)[..|xs| - 1] == Keys(front);
      assert xs == front + [last];
      CountOfAppend(front, [last], key);
      assert CountOf([last], key) == if last.key == key then last.count else 0;
      if key !in Keys(before) && key == last.key && |before| < MAX_ERRORS {
        if key in Keys(front) { assert false; }
        CountOfAbsent(front, key);
      }
    }
  }

  lemma {:induction false} DistinctCounts(list: seq<ErrorSample>, i: nat)
    requires Distinct(Keys(list)) && i < |list|
    ensures CountOf(list, list[i].key) == list[i].count
  {
    var tail := list[1..];
    assert Keys(list) == [list[0].key] + Keys(tail);
    if i == 0 {
      forall j | 0 <= j < |tail| ensures Keys(tail)[j] != list[0].key {
        assert Keys(list)[0] != Keys(list)[j + 1];
      }
      CountOfAbsent(tail, list[0].key);
    } else {
      forall a, b | 0 <= a < b < |tail| ensures Keys(tail)[a] != Keys(tail)[b] {
        assert Keys(list)[a + 1] != Keys(list)[b + 1];
      }
      assert Keys(list)[0] != Keys(list)[i];
      DistinctCounts(tail, i - 1);
    }
  }

  lemma SameSamples(a: seq<ErrorSample>, b: seq<ErrorSample>)
    requires Distinct(Keys(a)) && Keys(a) == Keys(b)
    ensures a == b <==> forall k :: k in Keys(a) ==> CountOf(a, k) == CountOf(b, k)
  {
    if forall k :: k in Keys(a) ==> CountOf(a, k) == CountOf(b, k) {
      assert |a| == |b|;
      forall i | 0 <= i < |a| ensures a[i] == b[i] {
        DistinctCounts(a, i);
        DistinctCounts(b, i);
        assert Keys(a)[i] in Keys(a);
        assert Keys(a)[i] == a[i].key && Keys(b)[i] == b[i].key;
      }
    }
  }

  // -- Merging in two stages -------------------------------------------------------

  function Flat(parts: seq<seq<ErrorSample>>): seq<ErrorSample> {
    if parts == [] then [] else Flat(parts[..|parts| - 1]) + parts[|parts| - 1]
  }

  /** The summaries of the parts, one after the other. */
  function Summaries(parts: seq<seq<ErrorSample>>): seq<ErrorSample> {
    if parts == [] then [] else Summaries(parts[..|parts| - 1]) + AddAll([], parts[|parts| - 1])
  }

  /** Merging everything at once. */
  function Direct(parts: seq<seq<ErrorSample>>): seq<ErrorSample> {
    AddAll([], Flat(parts))
  }

  /** Merging each part first and the part summaries afterwards. */
  function Staged(parts: seq<seq<ErrorSample>>): seq<ErrorSample> {
    AddAll([], Summaries(parts))
  }

  /** Which errors are kept, and in which order, does not depend on the grouping. */
  lemma {:induction false} KeysGroupingIndependent(parts: seq<seq<ErrorSample>>)
    ensures Keys(Staged(parts)) == Keys(Direct(parts))
    ensures FirstDistinct(Keys(Summaries(parts)), MAX_ERRORS) == FirstDistinct(Keys(Flat(parts)), MAX_ERRORS)
    decreases |parts|
  {
    var anyKey := ErrorKey("", "");
    if parts != [] {
      var front, last := parts[..|parts| - 1], parts[|parts| - 1];
      KeysGroupingIndependent(front);
      var summary := AddAll([], last);
      AddAllEffect(last, anyKey);
      KeysAppend(Flat(front), last);
      KeysAppend(Summaries(front), summary);
      FirstDistinctOfParts(Keys(Flat(front)), Keys(last), MAX_ERRORS);
      FirstDistinctOfParts(Keys(Summaries(front)), Keys(summary), MAX_ERRORS);
      AbsorbKeeps<ErrorKey>([], Keys(last), MAX_ERRORS);
      RetainedIsFixed(Keys(summary), MAX_ERRORS);
    }
    AddAllEffect(Flat(parts), anyKey);
    AddAllEffect(Summaries(parts), anyKey);
  }

  /** What a key loses because parts it occurs in were already full. */
  function Forgotten(parts: seq<seq<ErrorSample>>, key: ErrorKey): nat {
    if parts == [] then 0
    else
      var last := parts[|parts| - 1];
      Forgotten(parts[..|parts| - 1], key)
      + if key in FirstDistinct(Keys(last), MAX_ERRORS) then 0 else CountOf(last, key)
  }

  lemma {:induction false} SummariesForget(parts: seq<seq<ErrorSample>>, key: ErrorKey)
    ensures CountOf(Summaries(parts), key) + Forgotten(parts, key) == CountOf(Flat(parts), key)
    decreases |parts|
  {
    if parts != [] {
      var front, last := parts[..|parts| - 1], parts[|parts| - 1];
      SummariesForget(front, key);
      AddAllEffect(last, key);
      CountOfAppend(Flat(front), last, key);
      CountOfAppend(Summaries(front), AddAll([], last), key);
    }
  }

  /** Counts are grouping independent exactly when no part, already full, met an error that
      the overall summary keeps. */
  lemma CountsGroupingIndependent(parts: seq<seq<ErrorSample>>)
    ensures Staged(parts) == Direct(parts) <==> forall k :: k in Keys(Direct(parts)) ==> Forgotten(parts, k) == 0
  {
    var anyKey := ErrorKey("", "");
    KeysGroupingIndependent(parts);
    AddAllEffect(Flat(parts), anyKey);
    AbsorbKeeps<ErrorKey>([], Keys(Flat(parts)), MAX_ERRORS);
    SameSamples(Staged(parts), Direct(parts));
    forall k | k in Keys(Direct(parts))
      ensures CountOf(Staged(parts), k) == CountOf(Direct(parts), k) <==> Forgotten(parts, k) == 0
    {
      AddAllEffect(Flat(parts), k);
      AddAllEffect(Summaries(parts), k);
      SummariesForget(parts, k);
    }
  }

  /** Staged merging never invents occurrences. */
  lemma StagedUndercounts(parts: seq<seq<ErrorSample>>, key: ErrorKey)
    requires key in Keys(Direct(parts))
    ensures CountOf(Staged(parts), key) + Forgotten(parts, key) == CountOf(Direct(parts), key)
  {
    KeysGroupingIndependent(parts);
    AddAllEffect(Flat(parts), key);
    AddAllEffect(Summaries(parts), key);
    SummariesForget(parts, key);
  }

  function KeySet(list: seq<ErrorSample>): set<ErrorKey> {
    set k | k in Keys(list)
  }

  /** A part with at most ten distinct errors forgets none of them. */
  lemma SmallPartForgetsNothing(part: seq<ErrorSample>, key: ErrorKey)
    requires |KeySet(part)| <= MAX_ERRORS && key in Keys(part)
    ensures key in FirstDistinct(Keys(part), MAX_ERRORS)
  {
    var kept := FirstDistinct(Keys(part), MAX_ERRORS);
    AbsorbKeeps<ErrorKey>([], Keys(part), MAX_ERRORS);
    if key !in kept {
      DistinctFitsSet(kept + [key], KeySet(part));
    }
  }

  lemma {:induction false} DistinctFitsSet(xs: seq<ErrorKey>, keys: set<ErrorKey>)
    requires Distinct(xs) && forall x :: x in xs ==> x in keys
    ensures |xs| <= |keys|
    decreases |xs|
  {
    if xs != [] {
      var last := xs[|xs| - 1];
      assert last in xs;
      DistinctFitsSet(xs[..|xs| - 1], keys - {last});
    }
  }

  predicate SmallParts(parts: seq<seq<ErrorSample>>) {
    forall i :: 0 <= i < |parts| ==> |KeySet(parts[i])| <= MAX_ERRORS
  }

  lemma {:induction false} SmallPartsForgetNothing(parts: seq<seq<ErrorSample>>, key: ErrorKey)
    requires SmallParts(parts)
    ensures Forgotten(parts, key) == 0
    decreases |parts|
  {
    if parts != [] {
      var last := parts[|parts| - 1];
      SmallPartsForgetNothing(parts[..|parts| - 1], key);
      if key in Keys(last) {
        SmallPartForgetsNothing(last, key);
      } else {
        CountOfAbsent(last, key);
      }
    }
  }

  /** With at most ten distinct errors in each part, merging in two stages is exact. */
  lemma SmallPartsExact(parts: seq<seq<ErrorSample>>)
    requires SmallParts(parts)
    ensures Staged(parts) == Direct(parts)
  {
    forall key ensures Forgotten(parts, key) == 0 {
      SmallPartsForgetNothing(parts, key);
    }
    CountsGroupingIndependent(parts);
  }

  /** A part that is full before it meets an error forgets it. */
  lemma FullPartForgets(others: seq<ErrorSample>, refused: ErrorSample)
    requires Distinct(Keys(others)) && |others| == MAX_ERRORS && refused.key !in Keys(others)
    ensures refused.key !in FirstDistinct(Keys(others + [refused]), MAX_ERRORS)
  {
    assert Keys(others + [refused]) == Keys(others) + [refused.key];
    RetainedIsFixed(Keys(others), MAX_ERRORS);
    AbsorbOne([], Keys(others), refused.key, MAX_ERRORS);
  }

  lemma FirstErrorKept(first: ErrorSample, rest: seq<ErrorSample>)
    ensures first.key in Keys(AddAll([], [first] + rest))
  {
    AddAllEffect([first] + rest, first.key);
    KeysAppend([first], rest);
    assert Keys([first]) == [first.key];
    RetainedIsFixed([first.key], MAX_ERRORS);
    FirstDistinctOfParts([first.key], Keys(rest), MAX_ERRORS);
    AbsorbKeeps<ErrorKey>([], Keys(rest), MAX_ERRORS);
    AbsorbKeeps([first.key], FirstDistinct(Keys(rest), MAX_ERRORS), MAX_ERRORS);
  }

  /** Ten other errors, told apart by the length of their message. */
  function Others(): (r: seq<ErrorSample>)
    ensures |r| == MAX_ERRORS
    ensures forall i :: 0 <= i < MAX_ERRORS ==> |r[i].key.message| == i + 1
  {
    seq(MAX_ERRORS, i requires 0 <= i < MAX_ERRORS => ErrorSample(ErrorKey(seq(i + 1, _ => 'x'), "timeout"), 1))
  }

  const REFUSED := ErrorSample(ErrorKey("", "connect_error"), 1)

  /** The counts do depend on the grouping: an error seen once by the first part and once
      by a second part that already holds ten others is not counted twice. */
  lemma CountsLostToCap()
    ensures Staged([[REFUSED], Others() + [REFUSED]]) != Direct([[REFUSED], Others() + [REFUSED]])
  {
    var others := Others();
    forall i, j | 0 <= i < j < |others| ensures Keys(others)[i] != Keys(others)[j] {
      assert |Keys(others)[i].message| == i + 1 && |Keys(others)[j].message| == j + 1;
    }
    forall i | 0 <= i < |others| ensures Keys(others)[i] != REFUSED.key {
      assert |Keys(others)[i].message| == i + 1;
    }
    FullPartForgets(others, REFUSED);
    CountOfAppend(others, [REFUSED], REFUSED.key);
    TwoParts(REFUSED, others + [REFUSED]);
  }

  lemma TwoParts(first: ErrorSample, second: seq<ErrorSample>)
    requires first.key !in FirstDistinct(Keys(second), MAX_ERRORS) && CountOf(second, first.key) > 0
    ensures Staged([[first], second]) != Direct([[first], second])
  {
    var parts := [[first], second];
    assert parts[..1] == [[first]] && [[first]][..0] == [];
    assert Flat([[first]]) == [first];
    FirstErrorKept(first, second);
    assert Forgotten(parts, first.key) > 0;
    CountsGroupingIndependent(parts);
  }
}
