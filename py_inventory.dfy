/** The Python `Inventory`: a multiset of items kept as a dict from item type
    to count. A Python dict keeps its keys in first-insertion order, so the
    dict is modelled as a sequence of entries with pairwise distinct keys. */
module PyInventory {
  import opened Kinds

  datatype Entry = Entry(item: ItemType, count: int)

  /** The dict invariant: no key is stored twice. */
  ghost predicate DistinctKeys(s: seq<Entry>) {
    forall i, j :: 0 <= i < j < |s| ==> s[i].item != s[j].item
  }

  /** Every stored count is positive (what the game's callers maintain). */
  ghost predicate Positive(s: seq<Entry>) {
    forall i :: 0 <= i < |s| ==> s[i].count > 0
  }

  /** Position of key `t`, if stored. */
  function IndexOf(s: seq<Entry>, t: ItemType): (r: Option<nat>)
    ensures r.None? <==> forall i :: 0 <= i < |s| ==> s[i].item != t
    ensures r.Some? ==> r.value < |s| && s[r.value].item == t
    ensures r.Some? ==> forall i :: 0 <= i < r.value ==> s[i].item != t
  {
    if s == [] then None
    else if s[0].item == t then Some(0)
    else match IndexOf(s[1..], t)
      case None => None
      case Some(k) => Some(k + 1)
  }

  /** `countItem`: the stored count, 0 for an absent key. */
  function CountIn(s: seq<Entry>, t: ItemType): (r: int)
    ensures IndexOf(s, t).None? ==> r == 0
    ensures IndexOf(s, t).Some? ==> r == s[IndexOf(s, t).value].count
  {
    match IndexOf(s, t)
    case None => 0
    case Some(i) => s[i].count
  }

  /** `countItems`: the sum of all stored counts. */
  function SumCounts(s: seq<Entry>): int {
    if s == [] then 0 else SumCounts(s[..|s| - 1]) + s[|s| - 1].count
  }

  /** `range(0, n)` copies of `t` (none when n <= 0). */
  function Repeat(t: ItemType, n: int): (r: seq<ItemType>)
    ensures |r| == if n <= 0 then 0 else n
    ensures forall k :: 0 <= k < |r| ==> r[k] == t
  {
    if n <= 0 then [] else Repeat(t, n - 1) + [t]
  }

  /** `toItemList`: every key repeated by its count, in dict order. */
  function Flatten(s: seq<Entry>): seq<ItemType> {
    if s == [] then [] else Flatten(s[..|s| - 1]) + Repeat(s[|s| - 1].item, s[|s| - 1].count)
  }

  /** `addItem(t, n)`: adds to an existing key in place, else appends it. */
  function AddTo(s: seq<Entry>, t: ItemType, n: int): seq<Entry> {
    match IndexOf(s, t)
    case Some(i) => s[i := Entry(t, s[i].count + n)]
    case None => s + [Entry(t, n)]
  }

  /** The three ways `tryRemoveItem` can end. `KeyError` is the Python
      exception raised by `self.items[item]` when the dict is non-empty and
      the key is absent; its doc-comment promises False there instead. */
  datatype Removal = Removed | Refused | KeyError

  function RemovalOf(s: seq<Entry>, t: ItemType, n: int): Removal {
    if s == [] then Refused
    else match IndexOf(s, t)
      case None => KeyError
      case Some(i) => if s[i].count < n then Refused else Removed
  }

  function RemoveAt(s: seq<Entry>, i: nat): seq<Entry>
    requires i < |s|
  {
    s[..i] + s[i + 1..]
  }

  /** The dict after `tryRemoveItem(t, n)`: unchanged unless `Removed`; the
      key is deleted when its count reaches exactly 0. */
  function RemoveFrom(s: seq<Entry>, t: ItemType, n: int): seq<Entry> {
    if RemovalOf(s, t, n) != Removed then s
    else
      var i := IndexOf(s, t).value;
      if s[i].count - n == 0 then RemoveAt(s, i) else s[i := Entry(t, s[i].count - n)]
  }

  // ---------------------------------------------------------------------
  // Lemmas about sums, counts and flattening.

  lemma {:induction false} SumConcat(a: seq<Entry>, b: seq<Entry>)
    ensures SumCounts(a + b) == SumCounts(a) + SumCounts(b)
    decreases |b|
  {
    if b == [] {
      assert a + b == a;
    } else {
      var b' := b[..|b| - 1];
      assert (a + b)[..|a + b| - 1] == a + b';
      SumConcat(a, b');
    }
  }

  lemma SumSplit(s: seq<Entry>, i: nat)
    requires i < |s|
    ensures SumCounts(s) == SumCounts(s[..i]) + s[i].count + SumCounts(s[i + 1..])
  {
    var a, b := s[..i], s[i + 1..];
    assert s == (a + [s[i]]) + b;
    SumConcat(a + [s[i]], b);
    SumAppend(a, s[i]);
  }

  /** Changing one entry's count changes the total by the difference. */
  lemma SumUpdate(s: seq<Entry>, i: nat, e: Entry)
    requires i < |s|
    ensures SumCounts(s[i := e]) == SumCounts(s) - s[i].count + e.count
  {
    var s' := s[i := e];
    SumSplit(s, i);
    SumSplit(s', i);
    assert s'[..i] == s[..i];
    assert s'[i + 1..] == s[i + 1..];
  }

  lemma SumRemoveAt(s: seq<Entry>, i: nat)
    requires i < |s|
    ensures SumCounts(RemoveAt(s, i)) == SumCounts(s) - s[i].count
  {
    SumSplit(s, i);
    SumConcat(s[..i], s[i + 1..]);
  }

  /** With distinct keys, deleting the entry of `s[i].item` leaves every other
      key's count alone and makes that key absent. */
  lemma RemoveAtCounts(s: seq<Entry>, i: nat)
    requires DistinctKeys(s) && i < |s|
    ensures DistinctKeys(RemoveAt(s, i))
    ensures IndexOf(RemoveAt(s, i), s[i].item).None?
    ensures forall u :: u != s[i].item ==> CountIn(RemoveAt(s, i), u) == CountIn(s, u)
  {
    var r := RemoveAt(s, i);
    assert forall k :: 0 <= k < |r| ==> r[k] == if k < i then s[k] else s[k + 1];
    forall u | u != s[i].item
      ensures CountIn(r, u) == CountIn(s, u)
    {
      match IndexOf(s, u)
      case None =>
      case Some(k) =>
        var k' := if k < i then k else k - 1;
        assert r[k'] == s[k];
        assert forall m :: 0 <= m < k' ==> r[m].item != u;
    }
  }

  /** `addItem(t, n)`: the count of `t` grows by n, every other count and the
      key order of other keys stay, and the total grows by n. */
  lemma AddToEffect(s: seq<Entry>, t: ItemType, n: int)
    requires DistinctKeys(s)
    ensures DistinctKeys(AddTo(s, t, n))
    ensures CountIn(AddTo(s, t, n), t) == CountIn(s, t) + n
    ensures forall u :: u != t ==> CountIn(AddTo(s, t, n), u) == CountIn(s, u)
    ensures IndexOf(AddTo(s, t, n), t).Some?
    ensures SumCounts(AddTo(s, t, n)) == SumCounts(s) + n
  {
    match IndexOf(s, t)
    case Some(i) =>
      assert AddTo(s, t, n) == s[i := Entry(t, s[i].count + n)];
      AddToStored(s, t, n, i);
    case None =>
      assert AddTo(s, t, n) == s + [Entry(t, n)];
      AddToAbsent(s, t, n);
  }

  lemma AddToStored(s: seq<Entry>, t: ItemType, n: int, i: nat)
    requires DistinctKeys(s) && IndexOf(s, t) == Some(i)
    ensures var r := s[i := Entry(t, s[i].count + n)];
            && DistinctKeys(r) && IndexOf(r, t) == Some(i)
            && (forall u :: CountIn(r, u) == if u == t then CountIn(s, t) + n else CountIn(s, u))
            && SumCounts(r) == SumCounts(s) + n
  {
    var r := s[i := Entry(t, s[i].count + n)];
    SumUpdate(s, i, Entry(t, s[i].count + n));
    assert forall k :: 0 <= k < |r| ==> r[k].item == s[k].item;
    forall u ensures CountIn(r, u) == if u == t then CountIn(s, t) + n else CountIn(s, u) {
      IndexOfSameKeys(s, r, u);
    }
  }

  lemma AddToAbsent(s: seq<Entry>, t: ItemType, n: int)
    requires DistinctKeys(s) && IndexOf(s, t).None?
    ensures var r := s + [Entry(t, n)];
            && DistinctKeys(r) && IndexOf(r, t) == Some(|s|) && CountIn(r, t) == CountIn(s, t) + n
            && (forall u :: u != t ==> CountIn(r, u) == CountIn(s, u))
            && SumCounts(r) == SumCounts(s) + n
  {
    var e := Entry(t, n);
    var r := s + [e];
    SumAppend(s, e);
    assert forall k :: 0 <= k < |s| ==> r[k] == s[k];
    IndexOfAppend(s, e, t);
    forall u | u != t ensures CountIn(r, u) == CountIn(s, u) {
      IndexOfAppend(s, e, u);
    }
  }

  lemma SumAppend(s: seq<Entry>, e: Entry)
    ensures SumCounts(s + [e]) == SumCounts(s) + e.count
  {
    assert (s + [e])[..|s|] == s;
  }

  /** A key appended at the end is found there only when it is not already
      stored. */
  lemma IndexOfAppend(s: seq<Entry>, e: Entry, u: ItemType)
    ensures IndexOf(s + [e], u) == if IndexOf(s, u).Some? then IndexOf(s, u) else if e.item == u then Some(|s|) else None
  {
    var r := s + [e];
    match IndexOf(s, u)
    case Some(k) =>
      assert forall i :: 0 <= i <= k ==> r[i] == s[i];
      IndexAt(r, u, k);
    case None =>
      assert forall i :: 0 <= i < |s| ==> r[i].item != u;
      if e.item == u {
        IndexAt(r, u, |s|);
      } else {
        assert forall i :: 0 <= i < |r| ==> r[i].item != u;
      }
  }

  /** The first position holding a key is its index. */
  lemma IndexAt(s: seq<Entry>, u: ItemType, k: nat)
    requires k < |s| && s[k].item == u && forall i :: 0 <= i < k ==> s[i].item != u
    ensures IndexOf(s, u) == Some(k)
  {
  }

  lemma IndexOfSameKeys(s: seq<Entry>, r: seq<Entry>, u: ItemType)
    requires |r| == |s| && forall k :: 0 <= k < |r| ==> r[k].item == s[k].item
    ensures IndexOf(r, u) == IndexOf(s, u)
  {
    match IndexOf(s, u)
    case None =>
    case Some(k) =>
  }

  /** `tryRemoveItem(t, n)`, with the exception made explicit: it reports
      `Refused` on an empty dict, raises on an absent key of a non-empty dict,
      removes iff n does not exceed the stored count, and otherwise leaves the
      dict as it was. */
  lemma RemovalCases(s: seq<Entry>, t: ItemType, n: int)
    ensures RemovalOf(s, t, n) == KeyError <==> s != [] && IndexOf(s, t).None?
    ensures RemovalOf(s, t, n) == Removed <==> IndexOf(s, t).Some? && n <= CountIn(s, t)
    ensures RemovalOf(s, t, n) != Removed ==> RemoveFrom(s, t, n) == s
  {
  }

  /** A successful `tryRemoveItem(t, n)` lowers the count of `t` by n,
      deleting the key exactly when the count reaches 0, and touches no other
      key. */
  lemma {:induction false} RemoveFromEffect(s: seq<Entry>, t: ItemType, n: int)
    requires DistinctKeys(s)
    ensures DistinctKeys(RemoveFrom(s, t, n))
    ensures RemovalOf(s, t, n) == Removed ==>
              && CountIn(RemoveFrom(s, t, n), t) == CountIn(s, t) - n
              && (forall u :: u != t ==> CountIn(RemoveFrom(s, t, n), u) == CountIn(s, u))
              && SumCounts(RemoveFrom(s, t, n)) == SumCounts(s) - n
              && (CountIn(s, t) == n <==> IndexOf(RemoveFrom(s, t, n), t).None?)
  {
    if RemovalOf(s, t, n) == Removed {
      var i := IndexOf(s, t).value;
      if s[i].count - n == 0 {
        RemoveDeletes(s, i);
      } else {
        RemoveLowers(s, i, n);
      }
    }
  }

  lemma RemoveDeletes(s: seq<Entry>, i: nat)
    requires DistinctKeys(s) && i < |s|
    ensures DistinctKeys(RemoveAt(s, i))
    ensures IndexOf(RemoveAt(s, i), s[i].item).None?
    ensures CountIn(RemoveAt(s, i), s[i].item) == 0
    ensures forall u :: u != s[i].item ==> CountIn(RemoveAt(s, i), u) == CountIn(s, u)
    ensures SumCounts(RemoveAt(s, i)) == SumCounts(s) - s[i].count
  {
    RemoveAtCounts(s, i);
    SumRemoveAt(s, i);
  }

  lemma RemoveLowers(s: seq<Entry>, i: nat, n: int)
    requires DistinctKeys(s) && i < |s| && s[i].count - n != 0
    ensures var r := s[i := Entry(s[i].item, s[i].count - n)];
      && DistinctKeys(r)
      && IndexOf(r, s[i].item) == IndexOf(s, s[i].item)
      && (forall u :: CountIn(r, u) == if u == s[i].item then CountIn(s, u) - n else CountIn(s, u))
      && SumCounts(r) == SumCounts(s) - n
  {
    var r := s[i := Entry(s[i].item, s[i].count - n)];
    SumUpdate(s, i, Entry(s[i].item, s[i].count - n));
    forall u ensures IndexOf(r, u) == IndexOf(s, u) {
      IndexOfSameKeys(s, r, u);
    }
    assert IndexOf(s, s[i].item) == Some(i);
  }

  /** `countItem` is 0 exactly when `contains` is false, given positive
      counts. */
  lemma CountZeroIffAbsent(s: seq<Entry>, t: ItemType)
    requires Positive(s)
    ensures CountIn(s, t) == 0 <==> IndexOf(s, t).None?
  {
  }

  lemma {:induction false} AddToPositive(s: seq<Entry>, t: ItemType, n: int)
    requires Positive(s) && n > 0
    ensures Positive(AddTo(s, t, n))
  {
  }

  lemma RemoveFromPositive(s: seq<Entry>, t: ItemType, n: int)
    requires Positive(s)
    ensures Positive(RemoveFrom(s, t, n))
  {
    if RemovalOf(s, t, n) == Removed {
      var i := IndexOf(s, t).value;
      if s[i].count - n == 0 {
        var r := RemoveAt(s, i);
        assert forall k :: 0 <= k < |r| ==> r[k] == if k < i then s[k] else s[k + 1];
      }
    }
  }

  lemma MultisetRepeat(t: ItemType, n: int, u: ItemType)
    ensures multiset(Repeat(t, n))[u] == if u == t && n > 0 then n else 0
  {
    if n > 0 {
      MultisetRepeat(t, n - 1, u);
    }
  }

  /** `len(toItemList()) == countItems()` when no count is negative. */
  lemma {:induction false} FlattenLength(s: seq<Entry>)
    requires forall i :: 0 <= i < |s| ==> s[i].count >= 0
    ensures |Flatten(s)| == SumCounts(s)
    decreases |s|
  {
    if s != [] {
      FlattenLength(s[..|s| - 1]);
    }
  }

  /** Each key occurs in `toItemList()` exactly `countItem` times. */
  lemma {:induction false} FlattenCounts(s: seq<Entry>, t: ItemType)
    requires DistinctKeys(s) && Positive(s)
    ensures multiset(Flatten(s))[t] == CountIn(s, t)
    decreases |s|
  {
    if s != [] {
      var p := s[..|s| - 1];
      var e := s[|s| - 1];
      FlattenCounts(p, t);
      MultisetRepeat(e.item, e.count, t);
      assert Flatten(s) == Flatten(p) + Repeat(e.item, e.count);
      assert multiset(Flatten(s)) == multiset(Flatten(p)) + multiset(Repeat(e.item, e.count));
      LastIndexOf(s, t);
    }
  }

  /** How a key's count in `s` splits into its count in all but the last
      entry and the last entry's contribution. */
  lemma LastIndexOf(s: seq<Entry>, t: ItemType)
    requires DistinctKeys(s) && s != []
    ensures CountIn(s, t) == CountIn(s[..|s| - 1], t) + (if s[|s| - 1].item == t then s[|s| - 1].count else 0)
  {
    var p := s[..|s| - 1];
    if s[|s| - 1].item == t {
      assert IndexOf(p, t).None?;
      assert IndexOf(s, t) == Some(|p|);
    } else {
      match IndexOf(p, t)
      case None =>
      case Some(k) => assert s[k] == p[k];
    }
  }

  /** Taking one unit of an item that the item list holds always succeeds
      and takes exactly that unit out of the item list. */
  lemma RemoveOneUnit(s: seq<Entry>, t: ItemType)
    requires DistinctKeys(s) && Positive(s) && t in multiset(Flatten(s))
    ensures RemovalOf(s, t, 1) == Removed
    ensures DistinctKeys(RemoveFrom(s, t, 1)) && Positive(RemoveFrom(s, t, 1))
    ensures multiset(Flatten(RemoveFrom(s, t, 1))) == multiset(Flatten(s)) - multiset{t}
  {
    FlattenCounts(s, t);
    CountZeroIffAbsent(s, t);
    RemovalCases(s, t, 1);
    RemoveFromEffect(s, t, 1);
    RemoveFromPositive(s, t, 1);
    var r := RemoveFrom(s, t, 1);
    assert forall u :: CountIn(r, u) == CountIn(s, u) - (if u == t then 1 else 0);
    FlattenOneLess(s, r, t);
  }

  /** The counts of `s` are the multiplicities of the bag `b`. */
  ghost predicate Holds(s: seq<Entry>, b: multiset<ItemType>) {
    forall u :: CountIn(s, u) == b[u]
  }

  /** For a well-formed item list, holding a bag means flattening to it. */
  lemma HoldsFlatten(s: seq<Entry>, b: multiset<ItemType>)
    requires DistinctKeys(s) && Positive(s)
    ensures Holds(s, b) <==> multiset(Flatten(s)) == b
  {
    forall u ensures multiset(Flatten(s))[u] == CountIn(s, u) {
      FlattenCounts(s, u);
    }
  }

  /** Taking one unit of an item of the bag succeeds and leaves the rest of
      the bag. */
  lemma RemoveOneHeld(s: seq<Entry>, t: ItemType, b: multiset<ItemType>)
    requires DistinctKeys(s) && Positive(s) && Holds(s, b) && t in b
    ensures RemovalOf(s, t, 1) == Removed
    ensures DistinctKeys(RemoveFrom(s, t, 1)) && Positive(RemoveFrom(s, t, 1))
    ensures Holds(RemoveFrom(s, t, 1), b - multiset{t})
  {
    assert CountIn(s, t) == b[t];
    CountZeroIffAbsent(s, t);
    RemovalCases(s, t, 1);
    RemoveFromEffect(s, t, 1);
    RemoveFromPositive(s, t, 1);
  }

  lemma FlattenOneLess(s: seq<Entry>, r: seq<Entry>, t: ItemType)
    requires DistinctKeys(s) && Positive(s) && DistinctKeys(r) && Positive(r)
    requires forall u :: CountIn(r, u) == CountIn(s, u) - (if u == t then 1 else 0)
    ensures multiset(Flatten(r)) == multiset(Flatten(s)) - multiset{t}
  {
    var a := multiset(Flatten(r));
    var b := multiset(Flatten(s)) - multiset{t};
    forall u ensures a[u] == b[u] {
      FlattenCountsOneLess(s, r, t, u);
    }
    assert a == b;
  }

  lemma FlattenCountsOneLess(s: seq<Entry>, r: seq<Entry>, t: ItemType, u: ItemType)
    requires DistinctKeys(s) && Positive(s) && DistinctKeys(r) && Positive(r)
    requires CountIn(r, u) == CountIn(s, u) - (if u == t then 1 else 0)
    ensures multiset(Flatten(r))[u] == (multiset(Flatten(s)) - multiset{t})[u]
  {
    FlattenCounts(r, u);
    FlattenCounts(s, u);
  }

  /** `tryRemoveItem(t)` applied for each item of `ts` in turn. */
  function RemoveEach(s: seq<Entry>, ts: seq<ItemType>): seq<Entry>
    decreases |ts|
  {
    if ts == [] then s else RemoveFrom(RemoveEach(s, ts[..|ts| - 1]), ts[|ts| - 1], 1)
  }

  // ---------------------------------------------------------------------

  class Inventory {
    var entries: seq<Entry>

    ghost predicate Valid()
      reads this
    {
      DistinctKeys(entries)
    }

    constructor ()
      ensures Valid() && entries == []
    {
      entries := [];
    }

    /** `countItem` (0 for an absent key; see CountIn). */
    function CountItem(item: ItemType): int
      reads this
    {
      CountIn(entries, item)
    }

    /** `contains`: the key is present, whatever its count. */
    function Contains(item: ItemType): (r: bool)
      reads this
      ensures r <==> exists i :: 0 <= i < |entries| && entries[i].item == item
    {
      IndexOf(entries, item).Some?
    }

    function IsEmpty(): (r: bool)
      reads this
      ensures r <==> forall t :: !Contains(t)
    {
      assert entries != [] ==> Contains(entries[0].item);
      entries == []
    }

    method AddItem(item: ItemType, count: int)
      requires Valid()
      modifies this
      ensures Valid()
      ensures entries == AddTo(old(entries), item, count)
    {
      AddToEffect(entries, item, count);
      match IndexOf(entries, item)
      case Some(i) =>
        entries := entries[i := Entry(item, entries[i].count + count)];
      case None =>
        entries := entries + [Entry(item, count)];
    }

    method TryRemoveItem(item: ItemType, count: int) returns (r: Removal)
      requires Valid()
      modifies this
      ensures Valid()
      ensures r == RemovalOf(old(entries), item, count)
      ensures entries == RemoveFrom(old(entries), item, count)
      ensures r == Removed <==> old(Contains(item)) && count <= old(CountItem(item))
      ensures r == KeyError <==> old(entries) != [] && !old(Contains(item))
      ensures r != Removed ==> entries == old(entries)
    {
      RemovalCases(entries, item, count);
      RemoveFromEffect(entries, item, count);
      if entries == [] {
        return Refused;
      }
      match IndexOf(entries, item)
      case None =>
        return KeyError;
      case Some(i) =>
        if entries[i].count < count {
          return Refused;
        }
        var left := entries[i].count - count;
        if left == 0 {
          entries := entries[..i] + entries[i + 1..];
        } else {
          entries := entries[i := Entry(item, left)];
        }
        return Removed;
    }

    /** `countItems`: accumulates the counts in dict order. */
    method CountItems() returns (counter: int)
      ensures counter == SumCounts(entries)
    {
      counter := 0;
      var k := 0;
      while k < |entries|
        invariant 0 <= k <= |entries|
        invariant counter == SumCounts(entries[..k])
      {
        assert entries[..k + 1][..k] == entries[..k];
        counter := counter + entries[k].count;
        k := k + 1;
      }
      assert entries[..k] == entries;
    }

    /** `toItemList`: appends each key `count` times, in dict order. */
    method ToItemList() returns (itemList: seq<ItemType>)
      ensures itemList == Flatten(entries)
    {
      itemList := [];
      var k := 0;
      while k < |entries|
        invariant 0 <= k <= |entries|
        invariant itemList == Flatten(entries[..k])
      {
        var e := entries[k];
        var i := 0;
        while i < e.count
          invariant 0 <= i <= (if e.count <= 0 then 0 else e.count)
          invariant itemList == Flatten(entries[..k]) + Repeat(e.item, i)
        {
          itemList := itemList + [e.item];
          i := i + 1;
        }
        assert entries[..k + 1][..k] == entries[..k];
        k := k + 1;
      }
      assert entries[..k] == entries;
    }
  }
}
