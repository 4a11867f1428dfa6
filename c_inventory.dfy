/** The C revision's `Inventory`: a fixed array of 25 `Item` slots, the first
    `count` of them in use. Adding an item of a type already stored merges the
    quantities, so the types in use stay pairwise distinct; removing a whole
    entry moves the last entry into its slot. */
module CInventory {
  import opened Kinds

  /** `INVENTORY_MAX_COUNT`. */
  const InventoryMaxCount: nat := 25

  /** `Item`: a type and its quantity. */
  datatype Item = Item(kind: ItemType, quantity: nat)

  /** No type is stored twice. */
  ghost predicate Distinct(s: seq<Item>) {
    forall i, j :: 0 <= i < j < |s| ==> s[i].kind != s[j].kind
  }

  /** No entry holds `ITEM_NONE` (adding it is a no-op). */
  ghost predicate NoneFree(s: seq<Item>) {
    forall i :: 0 <= i < |s| ==> s[i].kind != NoItem
  }

  /** Every entry has a positive quantity (as every generated inventory does). */
  ghost predicate Positive(s: seq<Item>) {
    forall i :: 0 <= i < |s| ==> s[i].quantity > 0
  }

  /** The position of the first entry of type `t`. */
  function Find(s: seq<Item>, t: ItemType): (r: Option<nat>)
    ensures r.None? <==> forall i :: 0 <= i < |s| ==> s[i].kind != t
    ensures r.Some? ==> r.value < |s| && s[r.value].kind == t
    ensures r.Some? ==> forall i :: 0 <= i < r.value ==> s[i].kind != t
  {
    if s == [] then None
    else if s[0].kind == t then Some(0)
    else match Find(s[1..], t)
      case None => None
      case Some(k) => Some(k + 1)
  }

  /** The quantity stored for `t`, 0 when no entry has that type. */
  function Quantity(s: seq<Item>, t: ItemType): nat {
    match Find(s, t)
    case None => 0
    case Some(i) => s[i].quantity
  }

  /** The sum of all quantities. */
  function Total(s: seq<Item>): nat {
    if s == [] then 0 else Total(s[..|s| - 1]) + s[|s| - 1].quantity
  }

  /** One pass of the merge loop of `inventory_add_item` over an entry. */
  function Bump(e: Item, item: Item): Item {
    if e.kind == item.kind then Item(e.kind, e.quantity + item.quantity) else e
  }

  /** `inventory_add_item`: no-op for `ITEM_NONE`; otherwise every entry of the
      item's type grows by its quantity, and the item is appended when no
      entry had its type. */
  function Added(s: seq<Item>, item: Item): seq<Item> {
    if item.kind == NoItem then s
    else if Find(s, item.kind).Some? then seq(|s|, k requires 0 <= k < |s| => Bump(s[k], item))
    else s + [item]
  }

  /** `*item = items[count - 1]; --count`: the last entry takes slot i. */
  function SwapRemove(s: seq<Item>, i: nat): (r: seq<Item>)
    requires i < |s|
    ensures |r| == |s| - 1
    ensures forall k :: 0 <= k < |r| ==> r[k] == if k == i then s[|s| - 1] else s[k]
  {
    s[i := s[|s| - 1]][..|s| - 1]
  }

  /** The loop of `inventory_try_remove_item` from position i on: an entry of
      type t whose quantity q covers is swap-removed, any other entry of type
      t loses q, and the loop index moves on in both cases (so the entry moved
      into slot i is not looked at again). */
  function RemoveFrom(s: seq<Item>, i: nat, t: ItemType, q: nat): seq<Item>
    decreases |s| - i
  {
    if i >= |s| then s
    else if s[i].kind != t then RemoveFrom(s, i + 1, t, q)
    else if q >= s[i].quantity then RemoveFrom(SwapRemove(s, i), i + 1, t, q)
    else RemoveFrom(s[i := Item(t, s[i].quantity - q)], i + 1, t, q)
  }

  /** `inventory_try_remove_item(t, q)`: no-op for `ITEM_NONE`. */
  function Removed(s: seq<Item>, t: ItemType, q: nat): seq<Item> {
    if t == NoItem then s else RemoveFrom(s, 0, t, q)
  }

  // ---------------------------------------------------------------------
  // Lemmas.

  /** With distinct types, the entry at i is the one `Quantity` reads. */
  lemma QuantityAt(s: seq<Item>, i: nat)
    requires Distinct(s) && i < |s|
    ensures Find(s, s[i].kind) == Some(i) && Quantity(s, s[i].kind) == s[i].quantity
  {
  }

  lemma {:induction false} TotalConcat(a: seq<Item>, b: seq<Item>)
    ensures Total(a + b) == Total(a) + Total(b)
    decreases |b|
  {
    if b == [] {
      assert a + b == a;
    } else {
      var b' := b[..|b| - 1];
      assert (a + b)[..|a + b| - 1] == a + b';
      TotalConcat(a, b');
    }
  }

  lemma TotalAppend(s: seq<Item>, e: Item)
    ensures Total(s + [e]) == Total(s) + e.quantity
  {
    assert (s + [e])[..|s|] == s;
  }

  /** Splitting the total around position i. */
  lemma TotalSplit(s: seq<Item>, i: nat)
    requires i < |s|
    ensures Total(s) == Total(s[..i]) + s[i].quantity + Total(s[i + 1..])
  {
    var a, b := s[..i], s[i + 1..];
    assert s == (a + [s[i]]) + b;
    TotalConcat(a + [s[i]], b);
    TotalAppend(a, s[i]);
  }

  lemma TotalUpdate(s: seq<Item>, i: nat, e: Item)
    requires i < |s|
    ensures Total(s[i := e]) == Total(s) - s[i].quantity + e.quantity
  {
    var s' := s[i := e];
    TotalSplit(s, i);
    TotalSplit(s', i);
    assert s'[..i] == s[..i];
    assert s'[i + 1..] == s[i + 1..];
  }

  lemma TotalSwapRemove(s: seq<Item>, i: nat)
    requires i < |s|
    ensures Total(SwapRemove(s, i)) == Total(s) - s[i].quantity
  {
    var n := |s|;
    var last := s[n - 1];
    var front := s[..n - 1];
    assert Total(s) == Total(front) + last.quantity;
    if i < n - 1 {
      SwapRemoveFront(s, i);
      TotalUpdate(front, i, last);
    } else {
      assert SwapRemove(s, i) == front;
    }
  }

  /** Swap-removing before the last slot overwrites it in the front part. */
  lemma SwapRemoveFront(s: seq<Item>, i: nat)
    requires i < |s| - 1
    ensures SwapRemove(s, i) == s[..|s| - 1][i := s[|s| - 1]]
  {
  }

  /** Replacing an entry by one of the same type keeps the invariants. */
  lemma UpdateKeeps(s: seq<Item>, i: nat, e: Item)
    requires Distinct(s) && NoneFree(s) && i < |s| && e.kind == s[i].kind
    ensures Distinct(s[i := e]) && NoneFree(s[i := e])
  {
  }

  lemma SwapRemoveKeeps(s: seq<Item>, i: nat)
    requires Distinct(s) && NoneFree(s) && i < |s|
    ensures Distinct(SwapRemove(s, i)) && NoneFree(SwapRemove(s, i))
  {
  }

  /** The loop does nothing over a stretch without entries of type t. */
  lemma {:induction false} RemoveFromSkips(s: seq<Item>, i: nat, j: nat, t: ItemType, q: nat)
    requires i <= j <= |s|
    requires forall k :: i <= k < j ==> s[k].kind != t
    ensures RemoveFrom(s, i, t, q) == RemoveFrom(s, j, t, q)
    decreases j - i
  {
    if i < j {
      RemoveFromSkips(s, i + 1, j, t, q);
    }
  }

  /** Quantities after replacing the entry at p by one of the same type. */
  lemma UpdateQuantities(s: seq<Item>, p: nat, e: Item)
    requires Distinct(s) && p < |s| && e.kind == s[p].kind
    ensures Quantity(s[p := e], e.kind) == e.quantity
    ensures forall u :: u != e.kind ==> Quantity(s[p := e], u) == Quantity(s, u)
  {
    var r := s[p := e];
    QuantityAt(r, p);
    forall u | u != e.kind ensures Quantity(r, u) == Quantity(s, u) {
      match Find(s, u)
      case None =>
      case Some(k) => QuantityAt(r, k);
    }
  }

  /** Quantities after swap-removing the entry at p. */
  lemma SwapRemoveQuantities(s: seq<Item>, p: nat)
    requires Distinct(s) && p < |s|
    ensures Find(SwapRemove(s, p), s[p].kind).None?
    ensures forall u :: u != s[p].kind ==> Quantity(SwapRemove(s, p), u) == Quantity(s, u)
  {
    var r := SwapRemove(s, p);
    forall u | u != s[p].kind ensures Quantity(r, u) == Quantity(s, u) {
      match Find(s, u)
      case None =>
      case Some(k) =>
        var k' := if k == |s| - 1 then p else k;
        QuantityAt(r, k');
    }
  }

  /** `inventory_add_item` on an inventory with distinct types: the quantity
      of the item's type grows by the item's quantity (a new entry is appended
      only for a type not stored yet), every other type keeps its quantity,
      the total grows by the same amount, and the types stay distinct. */
  lemma AddedEffect(s: seq<Item>, item: Item)
    requires Distinct(s) && NoneFree(s)
    ensures Distinct(Added(s, item)) && NoneFree(Added(s, item))
    ensures item.kind != NoItem ==>
              && Quantity(Added(s, item), item.kind) == Quantity(s, item.kind) + item.quantity
              && Total(Added(s, item)) == Total(s) + item.quantity
    ensures forall u :: u != item.kind || u == NoItem ==> Quantity(Added(s, item), u) == Quantity(s, u)
    ensures |Added(s, item)| == if item.kind != NoItem && Find(s, item.kind).None? then |s| + 1 else |s|
  {
    if item.kind != NoItem {
      match Find(s, item.kind)
      case Some(p) => AddedMerges(s, item, p);
      case None => AddedAppends(s, item);
    }
  }

  /** An item of a type stored at p merges into that entry. */
  lemma AddedMerges(s: seq<Item>, item: Item, p: nat)
    requires Distinct(s) && NoneFree(s) && item.kind != NoItem && Find(s, item.kind) == Some(p)
    ensures var e := Item(item.kind, s[p].quantity + item.quantity);
            && Added(s, item) == s[p := e]
            && Distinct(s[p := e]) && NoneFree(s[p := e])
            && Quantity(s[p := e], item.kind) == Quantity(s, item.kind) + item.quantity
            && Total(s[p := e]) == Total(s) + item.quantity
            && forall u :: u != item.kind ==> Quantity(s[p := e], u) == Quantity(s, u)
  {
    var e := Item(item.kind, s[p].quantity + item.quantity);
    assert Added(s, item) == s[p := e];
    UpdateKeeps(s, p, e);
    TotalUpdate(s, p, e);
    UpdateQuantities(s, p, e);
  }

  /** An item of a type not stored is appended. */
  lemma AddedAppends(s: seq<Item>, item: Item)
    requires Distinct(s) && NoneFree(s) && item.kind != NoItem && Find(s, item.kind).None?
    ensures var r := s + [item];
            && Added(s, item) == r
            && Distinct(r) && NoneFree(r)
            && Quantity(r, item.kind) == Quantity(s, item.kind) + item.quantity
            && Total(r) == Total(s) + item.quantity
            && forall u :: u != item.kind ==> Quantity(r, u) == Quantity(s, u)
  {
    TotalAppend(s, item);
    AppendKeeps(s, item);
    AppendQuantities(s, item);
  }

  lemma AppendKeeps(s: seq<Item>, item: Item)
    requires Distinct(s) && NoneFree(s) && item.kind != NoItem && forall i :: 0 <= i < |s| ==> s[i].kind != item.kind
    ensures Distinct(s + [item]) && NoneFree(s + [item])
  {
    var r := s + [item];
    forall i, j | 0 <= i < j < |r| ensures r[i].kind != r[j].kind {
      assert r[i] == s[i];
    }
  }

  lemma AppendQuantities(s: seq<Item>, item: Item)
    requires Distinct(s) && Distinct(s + [item])
    ensures Quantity(s + [item], item.kind) == Quantity(s, item.kind) + item.quantity
    ensures forall u :: u != item.kind ==> Quantity(s + [item], u) == Quantity(s, u)
  {
    var r := s + [item];
    assert forall k :: 0 <= k < |s| ==> r[k] == s[k];
    QuantityAt(r, |s|);
    assert Find(s, item.kind).None?;
    forall u | u != item.kind ensures Quantity(r, u) == Quantity(s, u) {
      match Find(s, u)
      case None =>
      case Some(k) => QuantityAt(r, k);
    }
  }

  /** With positive quantities there are at least as many units as
      entries. */
  lemma {:induction false} TotalPositive(s: seq<Item>)
    requires Positive(s)
    ensures Total(s) >= |s|
  {
    if s != [] {
      TotalPositive(s[..|s| - 1]);
    }
  }

  /** Adding an item neither removes a type nor introduces any type but its
      own, and keeps every quantity positive when its own is. */
  lemma AddedFinds(s: seq<Item>, item: Item)
    ensures forall u :: u != item.kind ==> (Find(Added(s, item), u).None? <==> Find(s, u).None?)
    ensures Positive(s) && item.quantity > 0 ==> Positive(Added(s, item))
  {
    var r := Added(s, item);
    if item.kind != NoItem && Find(s, item.kind).Some? {
      assert forall k :: 0 <= k < |s| ==> r[k].kind == s[k].kind;
    } else if item.kind != NoItem {
      assert forall k :: 0 <= k < |s| ==> r[k] == s[k];
    }
  }

  /** The loop of `inventory_try_remove_item` acts on the entry of type t
      only, when the types are distinct. */
  lemma RemovedShape(s: seq<Item>, t: ItemType, q: nat, p: nat)
    requires Distinct(s) && t != NoItem && Find(s, t) == Some(p)
    ensures q >= s[p].quantity ==> Removed(s, t, q) == SwapRemove(s, p)
    ensures q < s[p].quantity ==> Removed(s, t, q) == s[p := Item(t, s[p].quantity - q)]
  {
    RemoveFromSkips(s, 0, p, t, q);
    if q >= s[p].quantity {
      RestSkipped(s, SwapRemove(s, p), t, q, p);
    } else {
      RestSkipped(s, s[p := Item(t, s[p].quantity - q)], t, q, p);
    }
  }

  /** Past position p, where the only entry of type t was, the loop finds
      nothing more to do. */
  lemma RestSkipped(s: seq<Item>, r: seq<Item>, t: ItemType, q: nat, p: nat)
    requires Distinct(s) && p < |s| && s[p].kind == t && |r| <= |s|
    requires forall k :: p < k < |r| ==> r[k] == s[k]
    ensures RemoveFrom(r, p + 1, t, q) == r
  {
    if p + 1 <= |r| {
      forall k | p + 1 <= k < |r| ensures r[k].kind != t {
        assert r[k] == s[k];
      }
      RemoveFromSkips(r, p + 1, |r|, t, q);
    }
  }

  /** `inventory_try_remove_item(t, q)` on an inventory with distinct types,
      when t is stored at position p and q covers its quantity: the entry is
      swap-removed, so the remaining entries are the old ones less that one,
      as a multiset; t's quantity becomes 0 and no other type's changes. */
  lemma RemovedWhole(s: seq<Item>, t: ItemType, q: nat, p: nat)
    requires Distinct(s) && NoneFree(s) && t != NoItem && Find(s, t) == Some(p) && q >= s[p].quantity
    ensures Removed(s, t, q) == SwapRemove(s, p)
    ensures multiset(Removed(s, t, q)) == multiset(s) - multiset{s[p]}
    ensures Distinct(Removed(s, t, q)) && NoneFree(Removed(s, t, q))
    ensures Quantity(Removed(s, t, q), t) == 0 && Find(Removed(s, t, q), t).None?
    ensures forall u :: u != t ==> Quantity(Removed(s, t, q), u) == Quantity(s, u)
    ensures Total(Removed(s, t, q)) == Total(s) - s[p].quantity
  {
    RemovedShape(s, t, q, p);
    SwapRemoveKeeps(s, p);
    TotalSwapRemove(s, p);
    SwapRemoveMultiset(s, p);
    SwapRemoveQuantities(s, p);
  }

  lemma SwapRemoveMultiset(s: seq<Item>, p: nat)
    requires p < |s|
    ensures multiset(SwapRemove(s, p)) == multiset(s) - multiset{s[p]}
  {
    var n := |s|;
    var u := s[..n - 1];
    assert s == u + [s[n - 1]];
    if p < n - 1 {
      assert SwapRemove(s, p) == u[p := s[n - 1]];
      assert u[p] == s[p];
    } else {
      assert SwapRemove(s, p) == u;
    }
  }

  /** ... and when q does not cover it, t's quantity drops by q in place. */
  lemma RemovedPart(s: seq<Item>, t: ItemType, q: nat, p: nat)
    requires Distinct(s) && NoneFree(s) && t != NoItem && Find(s, t) == Some(p) && q < s[p].quantity
    ensures Removed(s, t, q) == s[p := Item(t, s[p].quantity - q)]
    ensures Distinct(Removed(s, t, q)) && NoneFree(Removed(s, t, q))
    ensures Quantity(Removed(s, t, q), t) == Quantity(s, t) - q
    ensures forall u :: u != t ==> Quantity(Removed(s, t, q), u) == Quantity(s, u)
    ensures Total(Removed(s, t, q)) == Total(s) - q
  {
    var e := Item(t, s[p].quantity - q);
    RemovedShape(s, t, q, p);
    UpdateKeeps(s, p, e);
    TotalUpdate(s, p, e);
    UpdateQuantities(s, p, e);
  }

  /** ... and an absent type (or `ITEM_NONE`) leaves the inventory alone. */
  lemma RemovedAbsent(s: seq<Item>, t: ItemType, q: nat)
    requires t == NoItem || Find(s, t).None?
    ensures Removed(s, t, q) == s
  {
    if t != NoItem {
      RemoveFromSkips(s, 0, |s|, t, q);
    }
  }

  /** A type-distinct inventory holding neither `ITEM_NONE` nor the
      RANSOMWARE has at most seven entries, one per collectible type. */
  lemma {:induction false} FewCollectibles(s: seq<Item>)
    requires Distinct(s) && NoneFree(s) && Find(s, Ransomware).None?
    ensures |s| <= 7
  {
    var kinds := set i | 0 <= i < |s| :: s[i].kind;
    var all := {FullMemoryReadAccess, FullMemoryWriteAccess, PointerDereferencer, OsOverrideCapability,
                RansomwareCodeFragment, Vulnerability, Sandboxer};
    assert kinds <= all by {
      forall i | 0 <= i < |s| ensures s[i].kind in all {
        assert s[i].kind != NoItem && s[i].kind != Ransomware;
      }
    }
    DistinctKinds(s);
    SubsetSize(kinds, all);
  }

  lemma {:induction false} DistinctKinds(s: seq<Item>)
    requires Distinct(s)
    ensures |set i | 0 <= i < |s| :: s[i].kind| == |s|
    decreases |s|
  {
    if s != [] {
      var p := s[..|s| - 1];
      DistinctKinds(p);
      var a := set i | 0 <= i < |p| :: p[i].kind;
      var b := set i | 0 <= i < |s| :: s[i].kind;
      assert b == a + {s[|s| - 1].kind};
      assert s[|s| - 1].kind !in a;
    }
  }

  lemma {:induction false} SubsetSize<T>(a: set<T>, b: set<T>)
    requires a <= b
    ensures |a| <= |b|
    decreases |b|
  {
    if b != {} {
      var x :| x in b;
      SubsetSize(a - {x}, b - {x});
    }
  }

  // ---------------------------------------------------------------------

  class Inventory {
    const items: array<Item>
    var count: nat

    ghost predicate Valid()
      reads this, items
    {
      && items.Length == InventoryMaxCount && count <= InventoryMaxCount
      && Distinct(items[..count]) && NoneFree(items[..count])
    }

    /** The entries in use. */
    function Contents(): seq<Item>
      reads this, items
      requires count <= items.Length
    {
      items[..count]
    }

    /** A zero-initialised `Inventory`. */
    constructor ()
      ensures Valid() && Contents() == [] && fresh(items)
    {
      items := new Item[InventoryMaxCount](_ => Item(NoItem, 0));
      count := 0;
    }

    /** `inventory_add_item`. The C asserts that a fresh entry still fits. */
    method AddItem(item: Item)
      requires Valid()
      requires item.kind != NoItem && Find(Contents(), item.kind).None? ==> count < InventoryMaxCount
      modifies this, items
      ensures Valid() && Contents() == Added(old(Contents()), item)
    {
      ghost var s := Contents();
      if item.kind == NoItem {
        return;
      }
      var existing := false;
      var i := 0;
      while i < count
        invariant 0 <= i <= count && count == |s|
        invariant forall k :: 0 <= k < i ==> items[k] == Bump(s[k], item)
        invariant forall k :: i <= k < items.Length ==> items[k] == old(items[k])
        invariant existing <==> exists k :: 0 <= k < i && s[k].kind == item.kind
      {
        if item.kind == items[i].kind {
          items[i] := Item(items[i].kind, items[i].quantity + item.quantity);
          existing := true;
        }
        i := i + 1;
      }
      if !existing {
        items[count] := item;
        count := count + 1;
        assert Contents() == s + [item];
      } else {
        assert Contents() == Added(s, item);
      }
      AddedEffect(s, item);
    }

    /** `inventory_try_remove_item`. */
    method TryRemoveItem(t: ItemType, q: nat)
      requires Valid()
      modifies this, items
      ensures Valid() && Contents() == Removed(old(Contents()), t, q)
    {
      if t == NoItem {
        return;
      }
      ghost var goal := RemoveFrom(Contents(), 0, t, q);
      var i := 0;
      while i < count
        invariant Valid() && i <= count + 1
        invariant RemoveFrom(Contents(), i, t, q) == goal
        decreases count + 1 - i
      {
        if t == items[i].kind {
          Take(i, q);
        }
        i := i + 1;
      }
    }

    /** The loop body on an entry of the type removed: swap-removed when q
        covers its quantity, otherwise reduced by q. */
    method Take(i: nat, q: nat)
      requires Valid() && i < count
      modifies this, items
      ensures Valid()
      ensures var s := old(Contents());
              Contents() == if q >= s[i].quantity then SwapRemove(s, i) else s[i := Item(s[i].kind, s[i].quantity - q)]
    {
      ghost var s := Contents();
      if q >= items[i].quantity {
        if i != count - 1 {
          items[i] := items[count - 1];
        }
        count := count - 1;
        assert Contents() == SwapRemove(s, i);
        SwapRemoveKeeps(s, i);
      } else {
        items[i] := Item(items[i].kind, items[i].quantity - q);
        assert Contents() == s[i := Item(s[i].kind, s[i].quantity - q)];
        UpdateKeeps(s, i, Item(s[i].kind, s[i].quantity - q));
      }
    }

    /** The struct assignment `*this = *other`. */
    method Assign(other: Inventory)
      requires other.Valid() && items.Length == InventoryMaxCount && other != this && other.items != items
      modifies this, items
      ensures Valid() && Contents() == other.Contents()
    {
      forall i | 0 <= i < InventoryMaxCount {
        items[i] := other.items[i];
      }
      count := other.count;
    }

    /** `inventory_clear`. */
    method Clear()
      requires Valid()
      modifies this
      ensures Valid() && Contents() == []
    {
      count := 0;
    }
  }
}
