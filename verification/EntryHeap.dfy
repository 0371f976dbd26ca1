/** The clock's priority queue: a binary heap of shared, mutable entries, each of which
    knows its own position. */
module EntryHeap {
  import opened Results
  import opened Alarms
  import opened HeapOrder

  class Entry {
    const id: nat
    const ticker: bool
    var triggerAt: int
    var period: int
    var ch: Option<int>
    var stopped: bool
    var index: int

    constructor (id: nat, ticker: bool, triggerAt: int, period: int)
      ensures this.id == id && this.ticker == ticker && this.triggerAt == triggerAt && this.period == period
      ensures ch == None && !stopped && index == -1
    {
      this.id := id;
      this.ticker := ticker;
      this.triggerAt := triggerAt;
      this.period := period;
      this.ch := None;
      this.stopped := false;
      this.index := -1;
    }

    function Key(): Firing
      reads this`triggerAt
    {
      Firing(triggerAt, id)
    }

    predicate Less(other: Entry)
      reads this`triggerAt, other`triggerAt
    {
      Key().Before(other.Key())
    }
  }

  class EntryHeap {
    var items: seq<Entry>
    ghost var keys: seq<Firing>
    ghost var members: set<Entry>

    /** The members are the entries in the heap, and each knows its one position. */
    ghost predicate Positioned()
      reads this, members`index
    {
      && (forall i {:trigger items[i] in members} :: 0 <= i < |items| ==> items[i] in members)
      && (forall i :: 0 <= i < |items| ==> items[i].index == i)
      && (forall e :: e in members ==> 0 <= e.index < |items| && items[e.index] == e)
    }

    /** Moreover `keys` are the entries' keys, by position. */
    ghost predicate Tracked()
      reads this, members`index, members`triggerAt
    {
      && Positioned()
      && |keys| == |items|
      && (forall i :: 0 <= i < |items| ==> keys[i] == items[i].Key())
    }

    ghost predicate Valid()
      reads this, members`index, members`triggerAt
    {
      Tracked() && Ordered(keys, |items|)
    }

    constructor ()
      ensures Valid() && members == {}
    {
      items, keys, members := [], [], {};
    }

    method Swap(i: nat, j: nat)
      requires Tracked() && i < |items| && j < |items|
      modifies this, members`index
      ensures Tracked() && members == old(members) && |items| == |old(items)|
      ensures items == old(items)[i := old(items)[j]][j := old(items)[i]]
      ensures keys == Exchanged(old(keys), i, j)
    {
      items, keys := items[i := items[j]][j := items[i]], Exchanged(keys, i, j);
      items[i].index := i;
      items[j].index := j;
    }

    /** Moves the element at `start` up to its place among the first `n`. */
    method Up(start: nat, n: nat)
      requires Tracked() && start < n <= |items| && Rises(keys, n, start)
      modifies this, members`index
      ensures Tracked() && members == old(members) && |items| == |old(items)|
      ensures forall k :: n <= k < |items| ==> items[k] == old(items[k])
      ensures Ordered(keys, n)
    {
      var j: nat := start;
      while j > 0 && items[j].Less(items[Parent(j)])
        invariant Tracked() && members == old(members) && |items| == |old(items)|
        invariant forall k :: n <= k < |items| ==> items[k] == old(items[k])
        invariant j < n && Rises(keys, n, j)
      {
        ExchangeUp(keys, n, j);
        Swap(Parent(j), j);
        j := Parent(j);
      }
      RisesNoFurther(keys, n, j);
    }

    /** The child of `i` among the first `n` that the other is not before, or 0 if `i` has
        no child there. */
    method LesserChild(i: nat, n: nat) returns (j: nat)
      requires Tracked() && i < n <= |items|
      ensures IsLesserChild(keys, n, i, j)
    {
      j := 2 * i + 1;
      if j >= n { return 0; }
      if j + 1 < n && items[j + 1].Less(items[j]) {
        j := j + 1;
      }
    }

    /** Exchanges an element with the lesser of its children. */
    method Sink(i: nat, j: nat, n: nat)
      requires Tracked() && i < n <= |items| && Loose(keys, n, i)
      requires j > 0 && IsLesserChild(keys, n, i, j) && keys[j].Before(keys[i])
      modifies this, members`index
      ensures Tracked() && members == old(members) && |items| == |old(items)|
      ensures forall k :: n <= k < |items| ==> items[k] == old(items[k])
      ensures Loose(keys, n, j) && Settles(keys, j)
    {
      ExchangeDown(keys, n, i, j);
      Swap(i, j);
    }

    /** Moves the element at `start` down to its place among the first `n`, and reports
        whether it moved. */
    method Down(start: nat, n: nat) returns (moved: bool)
      requires Tracked() && start < n <= |items| && Loose(keys, n, start)
      modifies this, members`index
      ensures Tracked() && members == old(members) && |items| == |old(items)|
      ensures forall k :: n <= k < |items| ==> items[k] == old(items[k])
      ensures moved ==> Ordered(keys, n)
      ensures !moved ==> items == old(items) && Rises(keys, n, start)
    {
      var i: nat := start;
      moved := false;
      while true
        invariant i < n <= |items| == |old(items)|
        invariant Tracked() && members == old(members) && Loose(keys, n, i)
        invariant forall k :: n <= k < |items| ==> items[k] == old(items[k])
        invariant if moved then Settles(keys, i) else i == start && items == old(items)
        decreases n - i
      {
        var j := LesserChild(i, n);
        if j == 0 || !items[j].Less(items[i]) {
          LooseOnlyUp(keys, n, i, j);
          return;
        }
        Sink(i, j, n);
        moved := true;
        i := j;
      }
    }

    /** Adds an entry that is in no position. */
    method Push(e: Entry)
      requires Valid() && e !in members
      modifies this, members`index, e`index
      ensures Valid() && members == old(members) + {e}
    {
      AppendRises(keys, e.Key());
      e.index := |items|;
      items, keys, members := items + [e], keys + [e.Key()], members + {e};
      Up(|items| - 1, |items|);
    }

    /** Takes out the last position. */
    method DropLast() returns (e: Entry)
      requires Tracked() && items != [] && Ordered(keys, |items| - 1)
      modifies this, members`index
      ensures e == old(items[|items| - 1]) && e.index == -1 && e !in members
      ensures Valid() && members == old(members) - {e}
    {
      var n := |items| - 1;
      PrefixOrdered(keys, n);
      e := items[n];
      e.index := -1;
      items, keys, members := items[..n], keys[..n], members - {e};
    }

    /** Takes out the first entry in firing order. */
    method PopMin() returns (e: Entry)
      requires Valid() && items != []
      modifies this, members`index
      ensures e == old(items[0]) && e.index == -1 && e !in members
      ensures Valid() && members == old(members) - {e}
    {
      var n := |items| - 1;
      Swap(0, n);
      if n > 0 {
        SwappedLoose(old(keys), 0, n);
        var moved := Down(0, n);
        if !moved { RootRises(keys, n); }
      }
      e := DropLast();
    }

    /** Takes out the entry at a given position. */
    method Remove(i: nat) returns (e: Entry)
      requires Valid() && i < |items|
      modifies this, members`index
      ensures e == old(items[i]) && e.index == -1 && e !in members
      ensures Valid() && members == old(members) - {e}
    {
      var n := |items| - 1;
      if n != i {
        Swap(i, n);
        SwappedLoose(old(keys), i, n);
        var moved := Down(i, n);
        if !moved { Up(i, n); }
      }
      e := DropLast();
    }

    /** Restores the order after the key at one position has changed. */
    method Fix(i: nat)
      requires Positioned() && i < |items| == |keys| && Ordered(keys, |items|)
      requires forall k :: 0 <= k < |items| && k != i ==> keys[k] == items[k].Key()
      modifies this, members`index
      ensures Valid() && members == old(members) && |items| == |old(items)|
    {
      keys := keys[i := items[i].Key()];
      ChangeLoosens(old(keys), keys, |items|, i);
      var moved := Down(i, |items|);
      if !moved { Up(i, |items|); }
    }

    /** Moves an entry of the heap to another time and period. */
    method Retime(e: Entry, triggerAt: int, period: int)
      requires Valid() && e in members
      modifies this, members`index, e`triggerAt, e`period
      ensures Valid() && e.triggerAt == triggerAt && e.period == period && members == old(members)
    {
      e.triggerAt, e.period := triggerAt, period;
      Fix(e.index);
    }
  }
}
