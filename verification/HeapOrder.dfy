/** Binary-heap order over a sequence of firings, and what exchanging two of them does to it. */
module HeapOrder {
  import opened Alarms

  function Parent(k: nat): nat {
    if k == 0 then 0 else (k - 1) / 2
  }

  predicate Settles(h: seq<Firing>, k: nat)
    requires k < |h|
  {
    k == 0 || !h[k].Before(h[Parent(k)])
  }

  /** Among the first `n`, nothing is before its parent. */
  ghost predicate Ordered(h: seq<Firing>, n: nat)
    requires n <= |h|
  {
    forall k {:trigger Settles(h, k)} :: 0 <= k < n ==> Settles(h, k)
  }

  /** The children of `i` are not before the parent of `i`, if it has one. */
  ghost predicate Bridged(h: seq<Firing>, n: nat, i: nat)
    requires i < n <= |h|
  {
    i > 0 ==> forall k {:trigger Parent(k)} :: 0 < k < n && Parent(k) == i ==> !h[k].Before(h[Parent(i)])
  }

  /** Ordered except that the element at `i` may be out of place in either direction. */
  ghost predicate Loose(h: seq<Firing>, n: nat, i: nat)
    requires i < n <= |h|
  {
    && Bridged(h, n, i)
    && forall k {:trigger Settles(h, k)} ::
         0 <= k < n && k != i && (k == 0 || Parent(k) != i) ==> Settles(h, k)
  }

  /** Ordered except that the element at `i` may belong further up. */
  ghost predicate Rises(h: seq<Firing>, n: nat, i: nat)
    requires i < n <= |h|
  {
    Bridged(h, n, i) && forall k {:trigger Settles(h, k)} :: 0 <= k < n && k != i ==> Settles(h, k)
  }

  /** The child `j` of `i` that the other child is not before; zero if `i` has no child. */
  ghost predicate IsLesserChild(h: seq<Firing>, n: nat, i: nat, j: nat)
    requires i < n <= |h|
  {
    if j == 0 then forall k :: 0 < k < n ==> Parent(k) != i
    else i < j < n && Parent(j) == i && forall k {:trigger Parent(k)} :: 0 < k < n && Parent(k) == i ==> !h[k].Before(h[j])
  }

  function Exchanged(h: seq<Firing>, i: nat, j: nat): (r: seq<Firing>)
    requires i < |h| && j < |h|
    ensures |r| == |h|
  {
    h[i := h[j]][j := h[i]]
  }

  /** Moving an element below the lesser of its children leaves it loose only there, and
      only downward. */
  lemma ExchangeDown(h: seq<Firing>, n: nat, i: nat, j: nat)
    requires i < n <= |h| && Loose(h, n, i)
    requires j > 0 && IsLesserChild(h, n, i, j) && h[j].Before(h[i])
    ensures Loose(Exchanged(h, i, j), n, j) && Settles(Exchanged(h, i, j), j)
  {
    var g := Exchanged(h, i, j);
    forall k | 0 <= k < n && k != j && (k == 0 || Parent(k) != j)
      ensures Settles(g, k)
    {
      assert k != 0 && k != i && Parent(k) != i ==> Settles(h, k);
    }
    forall k | 0 < k < n && Parent(k) == j
      ensures !g[k].Before(g[Parent(j)])
    {
      assert Settles(h, k);
    }
  }

  /** An element that is not after its lesser child belongs no further down. */
  lemma LooseOnlyUp(h: seq<Firing>, n: nat, i: nat, j: nat)
    requires i < n <= |h| && Loose(h, n, i) && IsLesserChild(h, n, i, j) && (j > 0 ==> !h[j].Before(h[i]))
    ensures Rises(h, n, i) && (Settles(h, i) ==> Ordered(h, n))
  {
  }

  lemma ExchangeUp(h: seq<Firing>, n: nat, j: nat)
    requires 0 < j < n <= |h| && Rises(h, n, j) && h[j].Before(h[Parent(j)])
    ensures Rises(Exchanged(h, Parent(j), j), n, Parent(j))
  {
    var i := Parent(j);
    var g := Exchanged(h, i, j);
    forall k | 0 <= k < n && k != i
      ensures Settles(g, k)
    {
      if k != j { assert Settles(h, k); }
    }
    forall k | 0 < k < n && Parent(k) == i
      ensures !g[k].Before(g[Parent(i)])
    {
      assert Settles(h, i);
      if k != j { assert Settles(h, k); }
    }
  }

  lemma RisesNoFurther(h: seq<Firing>, n: nat, j: nat)
    requires j < n <= |h| && Rises(h, n, j) && Settles(h, j)
    ensures Ordered(h, n)
  {
  }

  /** Changing one element of an ordered heap makes it loose there. */
  lemma ChangeLoosens(h: seq<Firing>, g: seq<Firing>, n: nat, i: nat)
    requires i < n <= |h| == |g| && Ordered(h, n)
    requires forall k :: 0 <= k < n && k != i ==> g[k] == h[k]
    ensures Loose(g, n, i)
  {
    forall k | 0 <= k < n && k != i && (k == 0 || Parent(k) != i)
      ensures Settles(g, k)
    {
      assert Settles(h, k);
    }
    forall k | 0 < k < n && Parent(k) == i && i > 0
      ensures !g[k].Before(g[Parent(i)])
    {
      assert Settles(h, k) && Settles(h, i);
    }
  }

  /** In an ordered heap nothing is before the root. */
  lemma {:induction false} RootFirst(h: seq<Firing>, n: nat, k: nat)
    requires k < n <= |h| && Ordered(h, n)
    ensures !h[k].Before(h[0])
  {
    if k > 0 {
      RootFirst(h, n, Parent(k));
      assert Settles(h, k);
    }
  }

  /** A new last element may belong further up. */
  lemma AppendRises(h: seq<Firing>, f: Firing)
    requires Ordered(h, |h|)
    ensures Rises(h + [f], |h| + 1, |h|)
  {
    var g := h + [f];
    forall k | 0 <= k < |g| && k != |h| ensures Settles(g, k) { assert Settles(h, k); }
  }

  /** Leaving out the last elements of a heap leaves a heap. */
  lemma PrefixOrdered(h: seq<Firing>, n: nat)
    requires n <= |h| && Ordered(h, n)
    ensures Ordered(h[..n], n)
  {
    forall k | 0 <= k < n ensures Settles(h[..n], k) { assert Settles(h, k); }
  }

  /** Exchanging an element with the last leaves the rest loose at its position. */
  lemma SwappedLoose(h: seq<Firing>, i: nat, n: nat)
    requires i < n < |h| && Ordered(h, n + 1)
    ensures Loose(Exchanged(h, i, n), n, i)
  {
    forall k | 0 <= k < n ensures Settles(h, k) { }
    ChangeLoosens(h, Exchanged(h, i, n), n, i);
  }

  lemma RootRises(h: seq<Firing>, n: nat)
    requires 0 < n <= |h| && Rises(h, n, 0)
    ensures Ordered(h, n)
  {
  }
}
