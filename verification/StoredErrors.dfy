/** Error samples as accumulators store them, and what a flush into a segment keeps of them. */
module StoredErrors {
  import opened Sampling
  import opened ErrorSamples
  import Text

  const MAX_MESSAGE: nat := 256

  /** A message as it is stored: trimmed, and cut off with an ellipsis. */
  function Normalized(message: string): string {
    var cleaned := Text.TrimSpace(message);
    if |cleaned| > MAX_MESSAGE then cleaned[..MAX_MESSAGE] + "..." else cleaned
  }

  function ErrorEntry(message: string, class_: string): ErrorSample {
    ErrorSample(ErrorKey(Normalized(message), class_), 1)
  }

  /** Recording the stored samples of another accumulator again, once each. */
  function Reentered(list: seq<ErrorSample>, xs: seq<ErrorSample>): seq<ErrorSample> {
    if xs == [] then list
    else
      var last := xs[|xs| - 1];
      AddWithin(Reentered(list, xs[..|xs| - 1]), ErrorEntry(last.key.message, last.key.class_), MAX_ERRORS)
  }

  /** A stored message is left alone when it is stored again, even one that was cut off. */
  lemma NormalizedTwice(message: string)
    ensures Normalized(Normalized(message)) == Normalized(message)
  {
    var cleaned := Text.TrimSpace(message);
    var stored := Normalized(message);
    if |cleaned| > MAX_MESSAGE {
      assert stored[0] == cleaned[0] && stored[|stored| - 1] == '.';
      assert stored[..MAX_MESSAGE] == cleaned[..MAX_MESSAGE];
    }
    Text.TrimmedIsFixed(stored);
  }

  predicate NormalizedKey(key: ErrorKey) {
    Normalized(key.message) == key.message
  }

  /** What the list of every accumulator satisfies. */
  predicate Storable(list: seq<ErrorSample>) {
    && Distinct(Keys(list)) && |list| <= MAX_ERRORS
    && forall k :: k in Keys(list) ==> NormalizedKey(k)
  }

  lemma AddingStorable(list: seq<ErrorSample>, s: ErrorSample)
    requires Storable(list) && NormalizedKey(s.key)
    ensures Storable(AddWithin(list, s, MAX_ERRORS))
  {
    AddWithinKeys(list, s, MAX_ERRORS);
  }

  lemma RecordingStorable(list: seq<ErrorSample>, message: string, class_: string)
    requires Storable(list)
    ensures Storable(AddWithin(list, ErrorEntry(message, class_), MAX_ERRORS))
  {
    NormalizedTwice(message);
    AddingStorable(list, ErrorEntry(message, class_));
  }

  lemma {:induction false} ReenteringStorable(list: seq<ErrorSample>, xs: seq<ErrorSample>)
    requires Storable(list)
    ensures Storable(Reentered(list, xs))
    decreases |xs|
  {
    if xs != [] {
      var front, last := xs[..|xs| - 1], xs[|xs| - 1];
      ReenteringStorable(list, front);
      RecordingStorable(Reentered(list, front), last.key.message, last.key.class_);
    }
  }

  /** The samples of a list with one occurrence each. */
  function Ones(xs: seq<ErrorSample>): (r: seq<ErrorSample>)
    ensures |r| == |xs| && Keys(r) == Keys(xs)
  {
    seq(|xs|, i requires 0 <= i < |xs| => ErrorSample(xs[i].key, 1))
  }

  lemma KeysFront(xs: seq<ErrorSample>)
    requires xs != []
    ensures Keys(xs[..|xs| - 1]) == Keys(xs)[..|xs| - 1]
    ensures xs[|xs| - 1].key == Keys(xs)[|xs| - 1]
  {
  }

  /** A flush adds what is stored, with every count replaced by one. */
  lemma {:induction false} ReenteredAdds(list: seq<ErrorSample>, xs: seq<ErrorSample>)
    requires forall k :: k in Keys(xs) ==> NormalizedKey(k)
    ensures Reentered(list, xs) == AddAll(list, Ones(xs))
    decreases |xs|
  {
    if xs != [] {
      var front, last := xs[..|xs| - 1], xs[|xs| - 1];
      KeysFront(xs);
      assert last.key in Keys(xs);
      assert forall k :: k in Keys(front) ==> k in Keys(xs);
      ReenteredAdds(list, front);
      assert Ones(xs)[..|xs| - 1] == Ones(front);
      assert Ones(xs)[|xs| - 1] == ErrorEntry(last.key.message, last.key.class_);
    }
  }

  /** A storable list is what adding its own samples makes. */
  lemma {:induction false} StorableIsFixed(list: seq<ErrorSample>)
    requires Distinct(Keys(list)) && |list| <= MAX_ERRORS
    ensures AddAll([], list) == list
  {
    RetainedIsFixed(Keys(list), MAX_ERRORS);
    forall k | k in Keys(list) ensures CountOf(AddAll([], list), k) == CountOf(list, k) {
      AddAllEffect(list, k);
    }
    AddAllEffect(list, ErrorKey("", ""));
    SameSamples(list, AddAll([], list));
  }

  /** A distinct list with all counts set to one counts its keys. */
  lemma OnesCount(xs: seq<ErrorSample>, key: ErrorKey)
    requires Distinct(Keys(xs))
    ensures CountOf(Ones(xs), key) == if key in Keys(xs) then 1 else 0
  {
    if key in Keys(xs) {
      var i :| 0 <= i < |xs| && Keys(xs)[i] == key;
      DistinctCounts(Ones(xs), i);
    } else {
      CountOfAbsent(Ones(xs), key);
    }
  }

  /** A flush keeps the first ten distinct errors of what was there and what comes, and
      adds one to each of those that come, whatever their counts. */
  lemma FlushEffect(list: seq<ErrorSample>, xs: seq<ErrorSample>, key: ErrorKey)
    requires Storable(list) && Storable(xs)
    ensures Keys(Reentered(list, xs)) == FirstDistinct(Keys(list) + Keys(xs), MAX_ERRORS)
    ensures CountOf(Reentered(list, xs), key)
         == if key in FirstDistinct(Keys(list) + Keys(xs), MAX_ERRORS)
            then CountOf(list, key) + if key in Keys(xs) then 1 else 0
            else 0
  {
    ReenteredAdds(list, xs);
    StorableIsFixed(list);
    AddAllAppend([], list, Ones(xs));
    KeysAppend(list, Ones(xs));
    AddAllEffect(list + Ones(xs), key);
    CountOfAppend(list, Ones(xs), key);
    OnesCount(xs, key);
  }

  lemma AddedEffect(list: seq<ErrorSample>, xs: seq<ErrorSample>, key: ErrorKey)
    requires Storable(list)
    ensures Keys(AddAll(list, xs)) == FirstDistinct(Keys(list) + Keys(xs), MAX_ERRORS)
    ensures CountOf(AddAll(list, xs), key)
         == if key in FirstDistinct(Keys(list) + Keys(xs), MAX_ERRORS)
            then CountOf(list, key) + CountOf(xs, key) else 0
  {
    StorableIsFixed(list);
    AddAllAppend([], list, xs);
    KeysAppend(list, xs);
    AddAllEffect(list + xs, key);
    CountOfAppend(list, xs, key);
  }

  /** Whether a key is worth one occurrence: it occurs once, or not at all. */
  predicate OccursOnce(xs: seq<ErrorSample>, key: ErrorKey) {
    CountOf(xs, key) == if key in Keys(xs) then 1 else 0
  }

  lemma FlushKeepsCount(list: seq<ErrorSample>, xs: seq<ErrorSample>, key: ErrorKey)
    requires Storable(list) && Storable(xs)
    ensures Keys(Reentered(list, xs)) == Keys(AddAll(list, xs))
    ensures key in Keys(AddAll(list, xs)) ==>
      (CountOf(AddAll(list, xs), key) == CountOf(Reentered(list, xs), key) <==> OccursOnce(xs, key))
  {
    AddedEffect(list, xs, key);
    FlushEffect(list, xs, key);
  }

  lemma AllOccurOnce(xs: seq<ErrorSample>, kept: seq<ErrorKey>)
    requires Distinct(Keys(xs))
    ensures (forall k :: k in kept ==> OccursOnce(xs, k))
       <==> forall i :: 0 <= i < |xs| && xs[i].key in kept ==> xs[i].count == 1
  {
    forall i | 0 <= i < |xs| ensures OccursOnce(xs, xs[i].key) <==> xs[i].count == 1 {
      DistinctCounts(xs, i);
      assert Keys(xs)[i] in Keys(xs);
    }
    forall k | k !in Keys(xs) ensures OccursOnce(xs, k) {
      CountOfAbsent(xs, k);
    }
    forall k | k in Keys(xs) ensures exists i :: 0 <= i < |xs| && xs[i].key == k {
      var i :| 0 <= i < |xs| && Keys(xs)[i] == k;
      assert xs[i].key == k;
    }
  }

  /** A flush keeps the counts, as adding the samples would, if and only if every sample
      that stays occurred once. */
  lemma FlushKeepsCounts(list: seq<ErrorSample>, xs: seq<ErrorSample>)
    requires Storable(list) && Storable(xs)
    ensures Reentered(list, xs) == AddAll(list, xs)
       <==> forall i :: 0 <= i < |xs| && xs[i].key in Keys(AddAll(list, xs)) ==> xs[i].count == 1
  {
    var flushed, added := Reentered(list, xs), AddAll(list, xs);
    FlushKeepsCount(list, xs, ErrorKey("", ""));
    ReenteringStorable(list, xs);
    SameSamples(added, flushed);
    forall k | k in Keys(added) ensures CountOf(added, k) == CountOf(flushed, k) <==> OccursOnce(xs, k) {
      FlushKeepsCount(list, xs, k);
    }
    AllOccurOnce(xs, Keys(added));
  }

  /** The input of a lost count: a timeout seen five times arrives as one occurrence. */
  lemma CountLostInFlush()
    ensures var xs := [ErrorSample(ErrorKey("x", "timeout"), 5)];
            Storable(xs) && Reentered([], xs) == [ErrorSample(ErrorKey("x", "timeout"), 1)] && AddAll([], xs) == xs
  {
    var s := ErrorSample(ErrorKey("x", "timeout"), 5);
    Text.TrimmedIsFixed("x");
    assert Keys([s]) == [s.key];
    assert [s][..0] == [];
    assert Reentered([], [s][..0]) == [] && AddAll([], [s][..0]) == [];
  }

  // -- All flushes of a segment ------------------------------------------------------

  /** The error list of a segment after the flushes of the given accumulators. */
  function FlushAll(parts: seq<seq<ErrorSample>>): seq<ErrorSample> {
    if parts == [] then [] else Reentered(FlushAll(parts[..|parts| - 1]), parts[|parts| - 1])
  }

  lemma FlushAllLast(parts: seq<seq<ErrorSample>>, last: seq<ErrorSample>)
    ensures FlushAll(parts + [last]) == Reentered(FlushAll(parts), last)
  {
    assert (parts + [last])[..|parts|] == parts;
  }

  /** How many of the accumulators hold an error. */
  function Holders(parts: seq<seq<ErrorSample>>, key: ErrorKey): nat {
    if parts == [] then 0
    else Holders(parts[..|parts| - 1], key) + if key in Keys(parts[|parts| - 1]) then 1 else 0
  }

  ghost predicate AllStorable(parts: seq<seq<ErrorSample>>) {
    forall i :: 0 <= i < |parts| ==> Storable(parts[i])
  }

  lemma OnesAppend(xs: seq<ErrorSample>, ys: seq<ErrorSample>)
    ensures Ones(xs + ys) == Ones(xs) + Ones(ys)
  {
  }

  lemma {:induction false} FlushAllAdds(parts: seq<seq<ErrorSample>>)
    requires AllStorable(parts)
    ensures FlushAll(parts) == AddAll([], Ones(Flat(parts)))
    decreases |parts|
  {
    if parts != [] {
      var front, last := parts[..|parts| - 1], parts[|parts| - 1];
      FlushAllAdds(front);
      assert Storable(last);
      ReenteredAdds(FlushAll(front), last);
      AddAllAppend([], Ones(Flat(front)), Ones(last));
      OnesAppend(Flat(front), last);
    }
  }

  lemma {:induction false} HoldersCount(parts: seq<seq<ErrorSample>>, key: ErrorKey)
    requires AllStorable(parts)
    ensures CountOf(Ones(Flat(parts)), key) == Holders(parts, key)
    decreases |parts|
  {
    if parts != [] {
      var front, last := parts[..|parts| - 1], parts[|parts| - 1];
      HoldersCount(front, key);
      assert Storable(last);
      OnesCount(last, key);
      CountOfAppend(Ones(Flat(front)), Ones(last), key);
      OnesAppend(Flat(front), last);
    }
  }

  /** A segment lists the first ten distinct errors of everything flushed into it, and the
      count of each is the number of accumulators that held it. */
  lemma FlushAllEffect(parts: seq<seq<ErrorSample>>, key: ErrorKey)
    requires AllStorable(parts)
    ensures Keys(FlushAll(parts)) == FirstDistinct(Keys(Flat(parts)), MAX_ERRORS)
    ensures CountOf(FlushAll(parts), key) == if key in Keys(FlushAll(parts)) then Holders(parts, key) else 0
  {
    FlushAllAdds(parts);
    HoldersCount(parts, key);
    AddAllEffect(Ones(Flat(parts)), key);
  }
}
