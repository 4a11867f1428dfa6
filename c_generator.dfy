/** The C revision's generators: the forward Fisher-Yates shuffle and
    `generate_required_items`. The C library's `rand()` is an oracle: the k-th call returns `rand(k)`, and
    every operation takes the number of calls made so far and returns the
    new number. */
module CGenerator {
  import opened Kinds
  import opened CInventory
  import opened CMap
  import PyMap

  /** `MOVE_CHANCE`: a walk step moves when `rand() % 100` is below it. */
  const MoveChance: nat := 70

  /** The values successive `rand()` calls return. */
  type Rand = nat -> nat

  // ---------------------------------------------------------------------
  // Fisher-Yates.

  function Swap<T>(s: seq<T>, i: nat, j: nat): (r: seq<T>)
    requires i < |s| && j < |s|
    ensures |r| == |s| && r[i] == s[j] && r[j] == s[i]
    ensures forall k :: 0 <= k < |s| && k != i && k != j ==> r[k] == s[k]
  {
    s[i := s[j]][j := s[i]]
  }

  /** `j = i + rand() % (n - i)`: a slot from i on. */
  function Target(i: nat, n: nat, draw: nat): (j: nat)
    requires i < n
    ensures i <= j < n
  {
    i + draw % (n - i)
  }

  /** The first i turns of the shuffle loop, its `rand()` calls numbered
      from k: turn i exchanges slot i with slot `Target(i, n, rand())`. */
  function ShuffleTo<T>(s: seq<T>, i: nat, rand: Rand, k: nat): (r: seq<T>)
    requires i <= |s|
    ensures |r| == |s|
  {
    if i == 0 then s
    else Swap(ShuffleTo(s, i - 1, rand, k), i - 1, Target(i - 1, |s|, rand(k + i - 1)))
  }

  /** The whole shuffle loop. */
  function Shuffled<T>(s: seq<T>, rand: Rand, k: nat): seq<T> {
    ShuffleTo(s, |s|, rand, k)
  }

  /** A shuffle is a permutation. */
  lemma {:induction false} ShuffleToPermutes<T>(s: seq<T>, i: nat, rand: Rand, k: nat)
    requires i <= |s|
    ensures multiset(ShuffleTo(s, i, rand, k)) == multiset(s)
  {
    if i > 0 {
      var p := ShuffleTo(s, i - 1, rand, k);
      ShuffleToPermutes(s, i - 1, rand, k);
      var j := Target(i - 1, |s|, rand(k + i - 1));
      assert Swap(p, i - 1, j) == p[i - 1 := p[j]][j := p[i - 1]];
    }
  }

  /** Exchanging two inventory slots keeps the types distinct, and keeps
      `ITEM_NONE` out and the quantities positive. */
  lemma SwapKeeps(s: seq<Item>, i: nat, j: nat)
    requires Distinct(s) && NoneFree(s) && i < |s| && j < |s|
    ensures Distinct(Swap(s, i, j)) && NoneFree(Swap(s, i, j))
    ensures Positive(s) ==> Positive(Swap(s, i, j))
  {
    var r := Swap(s, i, j);
    forall a, b | 0 <= a < b < |r| ensures r[a].kind != r[b].kind {
      var a' := if a == i then j else if a == j then i else a;
      var b' := if b == i then j else if b == j then i else b;
      assert r[a] == s[a'] && r[b] == s[b'];
    }
  }

  /** Exchanging two slots of an inventory with distinct types keeps every
      type's quantity, and the total. */
  lemma SwapQuantities(s: seq<Item>, i: nat, j: nat)
    requires i < |s| && j < |s| && Distinct(s) && Distinct(Swap(s, i, j))
    ensures forall t :: Quantity(Swap(s, i, j), t) == Quantity(s, t)
    ensures Total(Swap(s, i, j)) == Total(s)
  {
    var r := Swap(s, i, j);
    forall t ensures Quantity(r, t) == Quantity(s, t) {
      match Find(s, t)
      case None =>
        forall x | 0 <= x < |r| ensures r[x].kind != t {
          var x' := if x == i then j else if x == j then i else x;
          assert r[x] == s[x'];
        }
      case Some(p) =>
        var p' := if p == i then j else if p == j then i else p;
        assert r[p'] == s[p];
        QuantityAt(r, p');
    }
    TotalUpdate(s, i, s[j]);
    TotalUpdate(s[i := s[j]], j, s[i]);
    assert r == s[i := s[j]][j := s[i]];
  }

  /** Shuffling an inventory keeps it an inventory. */
  lemma {:induction false} ShuffleToKeeps(s: seq<Item>, i: nat, rand: Rand, k: nat)
    requires Distinct(s) && NoneFree(s) && i <= |s|
    ensures var r := ShuffleTo(s, i, rand, k);
            Distinct(r) && NoneFree(r) && (Positive(s) ==> Positive(r))
  {
    if i > 0 {
      ShuffleToKeeps(s, i - 1, rand, k);
      SwapKeeps(ShuffleTo(s, i - 1, rand, k), i - 1, Target(i - 1, |s|, rand(k + i - 1)));
    }
  }

  /** Shuffling an inventory keeps every type's quantity, and the total. */
  lemma {:induction false} ShuffleToQuantities(s: seq<Item>, i: nat, rand: Rand, k: nat)
    requires Distinct(s) && NoneFree(s) && i <= |s|
    ensures var r := ShuffleTo(s, i, rand, k);
            Total(r) == Total(s) && forall t :: Quantity(r, t) == Quantity(s, t)
  {
    if i > 0 {
      var p := ShuffleTo(s, i - 1, rand, k);
      var j := Target(i - 1, |s|, rand(k + i - 1));
      ShuffleToQuantities(s, i - 1, rand, k);
      ShuffleToKeeps(s, i - 1, rand, k);
      SwapKeeps(p, i - 1, j);
      SwapQuantities(p, i - 1, j);
    }
  }

  /** The forward Fisher-Yates loop over the first n slots of `a`. */
  method Shuffle<T>(a: array<T>, n: nat, rand: Rand, k: nat) returns (k': nat)
    requires n <= a.Length
    modifies a
    ensures a[..n] == Shuffled(old(a[..n]), rand, k) && a[n..] == old(a[n..])
    ensures k' == k + n
  {
    ghost var start := a[..n];
    var i := 0;
    while i < n
      invariant 0 <= i <= n && a[..n] == ShuffleTo(start, i, rand, k)
      invariant forall x :: n <= x < a.Length ==> a[x] == old(a[x])
    {
      var j := Target(i, n, rand(k + i));
      a[i], a[j] := a[j], a[i];
      assert a[..n] == ShuffleTo(start, i + 1, rand, k);
      i := i + 1;
    }
    assert a[n..] == old(a[n..]);
    k' := k + n;
  }

  // ---------------------------------------------------------------------
  // generate_required_items.

  /** The items of l added one after another. */
  function AddAll(s: seq<Item>, l: seq<Item>): seq<Item> {
    if l == [] then s else Added(AddAll(s, l[..|l| - 1]), l[|l| - 1])
  }

  /** One more addition. */
  lemma AddAllStep(s: seq<Item>, l: seq<Item>, j: nat)
    requires j < |l|
    ensures AddAll(s, l[..j + 1]) == Added(AddAll(s, l[..j]), l[j])
  {
    assert l[..j + 1][..j] == l[..j];
  }

  /** Adding distinct types to an empty inventory lists them in order. */
  lemma {:induction false} AddAllFresh(l: seq<Item>, j: nat)
    requires Distinct(l) && NoneFree(l) && j <= |l|
    ensures AddAll([], l[..j]) == l[..j]
  {
    if j > 0 {
      AddAllFresh(l, j - 1);
      AddedFresh(l, j - 1);
    }
  }

  /** The j-th item of a list of distinct types is new to the items before
      it, and is appended. */
  lemma AddedFresh(l: seq<Item>, j: nat)
    requires Distinct(l) && NoneFree(l) && j < |l| && AddAll([], l[..j]) == l[..j]
    ensures AddAll([], l[..j + 1]) == l[..j + 1]
  {
    var p := l[..j];
    AddAllStep([], l, j);
    assert forall i :: 0 <= i < |p| ==> p[i] == l[i];
    assert Find(p, l[j].kind).None?;
    assert l[..j + 1] == p + [l[j]];
  }

  /** The seven additions of `generate_required_items`. */
  function RequiredAdds(s: seq<Item>, fragments: nat, vulnerabilities: nat): seq<Item> {
    AddAll(s, RequiredList(fragments, vulnerabilities))
  }

  /** The required items as listed, before the shuffle. */
  function RequiredList(fragments: nat, vulnerabilities: nat): seq<Item> {
    [ Item(FullMemoryReadAccess, 1), Item(FullMemoryWriteAccess, 1), Item(PointerDereferencer, 1)
    , Item(OsOverrideCapability, 1), Item(Sandboxer, 1)
    , Item(RansomwareCodeFragment, fragments), Item(Vulnerability, vulnerabilities) ]
  }

  /** The quantity `generate_required_items` asks for of each type. */
  function RequiredQuantity(t: ItemType, fragments: nat, vulnerabilities: nat): nat {
    if t == RansomwareCodeFragment then fragments
    else if t == Vulnerability then vulnerabilities
    else if t == Ransomware || t == NoItem then 0
    else 1
  }

  /** On the zero-initialised inventory of `run_game` the seven additions
      create seven entries, one per collectible type. */
  lemma RequiredFromEmpty(fragments: nat, vulnerabilities: nat)
    ensures RequiredAdds([], fragments, vulnerabilities) == RequiredList(fragments, vulnerabilities)
  {
    var l := RequiredList(fragments, vulnerabilities);
    RequiredListFree(fragments, vulnerabilities);
    RequiredListQuantities(fragments, vulnerabilities);
    AddAllFresh(l, |l|);
    assert l[..|l|] == l;
  }

  /** The list holds neither RANSOMWARE nor `ITEM_NONE`. */
  lemma RequiredListFree(fragments: nat, vulnerabilities: nat)
    ensures NoneFree(RequiredList(fragments, vulnerabilities))
    ensures Find(RequiredList(fragments, vulnerabilities), Ransomware).None?
  {
    var l := RequiredList(fragments, vulnerabilities);
    forall i | 0 <= i < |l| ensures l[i].kind != Ransomware && l[i].kind != NoItem {
      assert l[i] in l;
    }
  }

  lemma RequiredListDistinct(fragments: nat, vulnerabilities: nat)
    ensures Distinct(RequiredList(fragments, vulnerabilities))
  {
  }

  /** The list holds each type in the quantity asked for. */
  lemma RequiredListQuantities(fragments: nat, vulnerabilities: nat)
    ensures Distinct(RequiredList(fragments, vulnerabilities))
    ensures forall t :: Quantity(RequiredList(fragments, vulnerabilities), t) == RequiredQuantity(t, fragments, vulnerabilities)
  {
    var l := RequiredList(fragments, vulnerabilities);
    RequiredListDistinct(fragments, vulnerabilities);
    forall t ensures Quantity(l, t) == RequiredQuantity(t, fragments, vulnerabilities) {
      match t
      case FullMemoryReadAccess => QuantityAt(l, 0);
      case FullMemoryWriteAccess => QuantityAt(l, 1);
      case PointerDereferencer => QuantityAt(l, 2);
      case OsOverrideCapability => QuantityAt(l, 3);
      case Sandboxer => QuantityAt(l, 4);
      case RansomwareCodeFragment => QuantityAt(l, 5);
      case Vulnerability => QuantityAt(l, 6);
      case Ransomware => RequiredListFree(fragments, vulnerabilities);
      case NoItem => RequiredListFree(fragments, vulnerabilities);
    }
  }

  /** The shuffled required items: seven distinct collectible types with
      the requested quantities, 5 + fragments + vulnerabilities units in
      all and no RANSOMWARE. */
  lemma RequiredShape(fragments: nat, vulnerabilities: nat, rand: Rand, k: nat)
    requires 1 <= fragments && 1 <= vulnerabilities
    ensures var s := Shuffled(RequiredList(fragments, vulnerabilities), rand, k);
            && |s| == 7 && Distinct(s) && NoneFree(s) && Positive(s)
            && Total(s) == 5 + fragments + vulnerabilities
            && forall t :: Quantity(s, t) == RequiredQuantity(t, fragments, vulnerabilities)
  {
    var l := RequiredList(fragments, vulnerabilities);
    RequiredListTotal(fragments, vulnerabilities);
    RequiredListFree(fragments, vulnerabilities);
    RequiredListQuantities(fragments, vulnerabilities);
    ShuffleToKeeps(l, |l|, rand, k);
    ShuffleToQuantities(l, |l|, rand, k);
  }

  /** The list holds 5 + fragments + vulnerabilities units. */
  lemma RequiredListTotal(fragments: nat, vulnerabilities: nat)
    ensures Total(RequiredList(fragments, vulnerabilities)) == 5 + fragments + vulnerabilities
  {
    var l := RequiredList(fragments, vulnerabilities);
    var p: seq<Item> := [];
    var j := 0;
    while j < 7
      invariant 0 <= j <= 7 && p == l[..j]
      invariant Total(p) == (if j <= 5 then j else 5 + fragments) + (if j == 7 then vulnerabilities else 0)
    {
      TotalAppend(p, l[j]);
      assert l[..j + 1] == p + [l[j]];
      p := p + [l[j]];
      j := j + 1;
    }
    assert p == l;
  }

  /** The seven `inventory_add_item` calls of `generate_required_items`;
      the two quantities are `1 + rand() % 3`. */
  method AddRequired(inventory: Inventory, rand: Rand, k: nat)
    requires inventory.Valid() && inventory.count + 7 <= InventoryMaxCount
    modifies inventory, inventory.items
    ensures inventory.Valid()
    ensures inventory.Contents() == RequiredAdds(old(inventory.Contents()), 1 + rand(k) % 3, 1 + rand(k + 1) % 3)
  {
    var fragments := 1 + rand(k) % 3;
    var vulnerabilities := 1 + rand(k + 1) % 3;
    AddList(inventory, fragments, vulnerabilities);
  }

  /** The seven additions with the two quantities drawn. */
  method AddList(inventory: Inventory, fragments: nat, vulnerabilities: nat)
    requires inventory.Valid() && inventory.count + 7 <= InventoryMaxCount
    modifies inventory, inventory.items
    ensures inventory.Valid()
    ensures inventory.Contents() == AddAll(old(inventory.Contents()), RequiredList(fragments, vulnerabilities))
  {
    ghost var s := inventory.Contents();
    ghost var l := RequiredList(fragments, vulnerabilities);
    AddAccess(inventory, s, l);
    AddOthers(inventory, s, l);
    AddQuantities(inventory, fragments, vulnerabilities, s, l);
  }

  /** The first three additions: the memory access rights and the pointer
      dereferencer. */
  method AddAccess(inventory: Inventory, ghost s: seq<Item>, ghost l: seq<Item>)
    requires inventory.Valid() && inventory.count + 7 <= InventoryMaxCount
    requires |l| == 7 && l == RequiredList(l[5].quantity, l[6].quantity) && inventory.Contents() == s
    modifies inventory, inventory.items
    ensures inventory.Valid() && inventory.count + 4 <= InventoryMaxCount
    ensures inventory.Contents() == AddAll(s, l[..3])
  {
    assert l[..0] == [];
    Add(inventory, Item(FullMemoryReadAccess, 1), s, l, 0);
    Add(inventory, Item(FullMemoryWriteAccess, 1), s, l, 1);
    Add(inventory, Item(PointerDereferencer, 1), s, l, 2);
  }

  /** The fourth and fifth additions. */
  method AddOthers(inventory: Inventory, ghost s: seq<Item>, ghost l: seq<Item>)
    requires inventory.Valid() && inventory.count + 4 <= InventoryMaxCount
    requires |l| == 7 && l == RequiredList(l[5].quantity, l[6].quantity) && inventory.Contents() == AddAll(s, l[..3])
    modifies inventory, inventory.items
    ensures inventory.Valid() && inventory.count + 2 <= InventoryMaxCount
    ensures inventory.Contents() == AddAll(s, l[..5])
  {
    Add(inventory, Item(OsOverrideCapability, 1), s, l, 3);
    Add(inventory, Item(Sandboxer, 1), s, l, 4);
  }

  /** The last two additions, with the drawn quantities. */
  method AddQuantities(inventory: Inventory, fragments: nat, vulnerabilities: nat, ghost s: seq<Item>, ghost l: seq<Item>)
    requires inventory.Valid() && inventory.count + 2 <= InventoryMaxCount
    requires l == RequiredList(fragments, vulnerabilities) && inventory.Contents() == AddAll(s, l[..5])
    modifies inventory, inventory.items
    ensures inventory.Valid()
    ensures inventory.Contents() == AddAll(s, l)
  {
    Add(inventory, Item(RansomwareCodeFragment, fragments), s, l, 5);
    Add(inventory, Item(Vulnerability, vulnerabilities), s, l, 6);
    assert l[..7] == l;
  }

  /** The addition of item, the j-th of the list l, starting from s. */
  method Add(inventory: Inventory, item: Item, ghost s: seq<Item>, ghost l: seq<Item>, ghost j: nat)
    requires inventory.Valid() && j < |l| && l[j] == item && inventory.Contents() == AddAll(s, l[..j])
    requires inventory.count < InventoryMaxCount
    modifies inventory, inventory.items
    ensures inventory.Valid() && inventory.Contents() == AddAll(s, l[..j + 1])
    ensures inventory.count <= old(inventory.count) + 1
  {
    AddedEffect(inventory.Contents(), item);
    inventory.AddItem(item);
    AddAllStep(s, l, j);
  }

  /** `generate_required_items`: the seven additions, then the entries in
      use are shuffled. */
  method GenerateRequiredItems(inventory: Inventory, rand: Rand, k: nat) returns (k': nat)
    requires inventory.Valid() && inventory.count + 7 <= InventoryMaxCount
    modifies inventory, inventory.items
    ensures inventory.Valid()
    ensures inventory.Contents() ==
              Shuffled(RequiredAdds(old(inventory.Contents()), 1 + rand(k) % 3, 1 + rand(k + 1) % 3), rand, k + 2)
    ensures k' == k + 2 + inventory.count
  {
    AddRequired(inventory, rand, k);
    ghost var added := inventory.Contents();
    k' := Shuffle(inventory.items, inventory.count, rand, k + 2);
    assert inventory.Contents() == inventory.items[..inventory.count];
    ShuffleToKeeps(added, |added|, rand, k + 2);
  }
}
