/** Histories that only grow, and what was added to them since an earlier moment. */
module History {
  function Since<T>(before: seq<T>, all: seq<T>): seq<T> {
    if |before| <= |all| then all[|before|..] else []
  }

  lemma SinceExtends<T>(before: seq<T>, all: seq<T>, more: seq<T>)
    requires before <= all
    ensures before <= all + more && Since(before, all + more) == Since(before, all) + more
  {
  }

  lemma SinceRest<T>(before: seq<T>, all: seq<T>)
    requires before <= all
    ensures all == before + Since(before, all)
  {
  }

  lemma AppendTwice<T>(a: seq<T>, b: seq<T>, c: seq<T>)
    ensures (a + b) + c == a + (b + c)
  {
  }
}
