/** The main revision's map generator (`generateMap`) and the generation of
    the required items. Every random choice is drawn from an explicit input:
    `random.shuffle` from a sequence of swap draws, and each step of a walk
    from a `Draw` (the move-or-branch coin and the index `random.choice`
    picks). */
module PyGenerator {
  import opened Kinds
  import opened PyInventory
  import opened PyMap

  /** One step of a walk: `random.random() < MOVE_CHANCE`, and the draw
      behind `random.choice`, reduced modulo the number of candidates. */
  datatype Draw = Draw(move: bool, pick: nat)

  /** The random inputs of one `generateMap` call. */
  datatype Randomness = Randomness(itemSwaps: seq<nat>, systemSwaps: seq<nat>, walk: seq<Draw>)

  /** CPython's `random.shuffle`: for i from the last index down to 1, x[i]
      is swapped with x[j], j being the next draw modulo i + 1 (a missing
      draw leaves x[i] in place). */
  function Shuffled<T>(xs: seq<T>, draws: seq<nat>): (r: seq<T>)
    ensures |r| == |xs| && multiset(r) == multiset(xs)
    decreases |xs|
  {
    if |xs| <= 1 then xs
    else
      var i := |xs| - 1;
      var j := if draws == [] then i else draws[0] % (i + 1);
      var ys := xs[i := xs[j]][j := xs[i]];
      var front := Shuffled(ys[..i], if draws == [] then [] else draws[1..]);
      ShuffleStep(xs, ys, i, j, front);
      front + [ys[i]]
  }

  /** Shuffling what is left before the swapped last slot keeps the
      multiset. */
  lemma ShuffleStep<T>(xs: seq<T>, ys: seq<T>, i: nat, j: nat, front: seq<T>)
    requires i < |xs| && j < |xs| && ys == xs[i := xs[j]][j := xs[i]]
    requires i == |xs| - 1 && multiset(front) == multiset(ys[..i])
    ensures multiset(front + [ys[i]]) == multiset(xs)
  {
    SwapKeeps(xs, i, j);
    assert ys == ys[..i] + [ys[i]];
    assert multiset(ys) == multiset(ys[..i]) + multiset{ys[i]};
    assert multiset(front + [ys[i]]) == multiset(front) + multiset{ys[i]};
  }

  lemma SwapKeeps<T>(xs: seq<T>, i: nat, j: nat)
    requires i < |xs| && j < |xs|
    ensures multiset(xs[i := xs[j]][j := xs[i]]) == multiset(xs)
  {
    var ys := xs[i := xs[j]];
    assert multiset(ys) == multiset(xs) - multiset{xs[i]} + multiset{xs[j]};
    assert multiset(ys[j := xs[i]]) == multiset(ys) - multiset{ys[j]} + multiset{xs[i]};
  }

  /** The neighbours a walk may move to: linked, and not the way back. */
  function Moves(s: System, previous: Option<Direction>): (r: seq<Direction>)
    ensures forall d :: d in r <==> s.Neighbor(d).Some? && previous != Some(d)
  {
    (if s.up.Some? && previous != Some(Up) then [Up] else [])
    + (if s.down.Some? && previous != Some(Down) then [Down] else [])
    + (if s.left.Some? && previous != Some(Left) then [Left] else [])
    + (if s.right.Some? && previous != Some(Right) then [Right] else [])
  }

  /** The free slots a walk may branch into. */
  function Branches(s: System): (r: seq<Direction>)
    ensures forall d :: d in r <==> s.Neighbor(d).None?
  {
    (if s.up.None? then [Up] else [])
    + (if s.down.None? then [Down] else [])
    + (if s.left.None? then [Left] else [])
    + (if s.right.None? then [Right] else [])
  }

  /** The item slot and the kind of every room, in creation order. */
  function Items(s: seq<System>): (r: seq<ItemType>)
    ensures |r| == |s| && forall i :: 0 <= i < |s| ==> r[i] == s[i].item
  {
    seq(|s|, i requires 0 <= i < |s| => s[i].item)
  }

  function KindsOf(s: seq<System>): (r: seq<SystemType>)
    ensures |r| == |s| && forall i :: 0 <= i < |s| ==> r[i] == s[i].kind
  {
    seq(|s|, i requires 0 <= i < |s| => s[i].kind)
  }

  /** A room linked to nothing but the room it hangs below. */
  ghost predicate Leaf(net: Network, i: nat)
    reads net
    requires i < |net.via|
  {
    i < |net.systems| && forall d :: d != Opposite(net.via[i]) ==> net.systems[i].Neighbor(d).None?
  }

  // ---------------------------------------------------------------------
  // Why a walk always places its room in time.

  /** A room's depth is at most its index, as every room hangs below an
      older one. */
  lemma {:induction false} DepthBound(parent: seq<nat>, via: seq<Direction>, i: nat)
    requires i < |parent| && |via| == |parent|
    requires forall k :: 1 <= k < |parent| ==> parent[k] < k
    ensures |PathTo(parent, via, i)| <= i
    decreases i
  {
    if i > 0 {
      DepthBound(parent, via, parent[i]);
    }
  }

  /** Where the walk stands: at the start room with no way back, or at a
      deeper room whose way back leads to the room it hangs below. */
  ghost predicate CameFrom(net: Network, t: nat, previous: Option<Direction>)
    reads net
  {
    t < |net.via| && (if t == 0 then previous == None else previous == Some(Opposite(net.via[t])))
  }

  /** A walk never moves back, so every move goes one room deeper. */
  lemma MoveDescends(net: Network, t: nat, previous: Option<Direction>, d: Direction)
    requires net.Valid() && t < |net.systems| && CameFrom(net, t, previous)
    requires d in Moves(net.systems[t], previous)
    ensures var j := net.systems[t].Neighbor(d).value;
            && j < |net.systems| && 1 <= j && net.parent[j] == t && net.via[j] == d
            && |PathTo(net.parent, net.via, j)| == |PathTo(net.parent, net.via, t)| + 1
            && CameFrom(net, j, Some(Opposite(d)))
  {
    var j := net.systems[t].Neighbor(d).value;
    assert TreeEdge(net.parent, net.via, t, d, j);
  }

  // ---------------------------------------------------------------------

  /** How the inner loop of `generateMap` ends: with a branch that created
      room `room`, with the step budget spent, or with the draws used up. */
  datatype WalkEnd = Branched(room: nat) | BudgetSpent | Exhausted

  /** One walk of `generateMap`: from the start room, each step either moves
      to a linked room other than the one it came from, or branches a new
      room of kind `kind` holding `item` into a free slot and stops. A step
      that finds no candidate gives its step back. */
  method Walk(net: Network, kind: SystemType, item: ItemType, draws: seq<Draw>)
    returns (end: WalkEnd, stepsLeft: int, used: nat)
    requires net.Valid()
    modifies net
    ensures net.Valid() && used <= |draws|
    ensures end.Branched? ==>
              && end.room == |old(net.systems)| && |net.systems| == end.room + 1
              && net.parent == old(net.parent) + [net.parent[end.room]]
              && net.via == old(net.via) + [net.via[end.room]]
              && old(net.systems)[net.parent[end.room]].Neighbor(net.via[end.room]).None?
              && net.systems == Link(old(net.systems) + [NewSystem(kind, item)],
                                     net.parent[end.room], net.via[end.room], end.room)
              && stepsLeft >= MaxSteps - |old(net.systems)|
    ensures !end.Branched? ==>
              net.systems == old(net.systems) && net.parent == old(net.parent) && net.via == old(net.via)
    ensures end.BudgetSpent? ==> stepsLeft < 0 && |old(net.systems)| > MaxSteps + 1
    ensures end.Exhausted? ==> used == |draws|
  {
    var traverser: nat := 0;
    var previous: Option<Direction> := None;
    stepsLeft := MaxSteps;
    used := 0;
    while stepsLeft >= 0
      invariant net.Valid() && used <= |draws|
      invariant net.systems == old(net.systems) && net.parent == old(net.parent) && net.via == old(net.via)
      invariant traverser < |net.systems| && CameFrom(net, traverser, previous)
      invariant stepsLeft == MaxSteps - |PathTo(net.parent, net.via, traverser)|
      decreases |draws| - used
    {
      if used == |draws| {
        return Exhausted, stepsLeft, used;
      }
      var draw := draws[used];
      used := used + 1;
      stepsLeft := stepsLeft - 1;
      if draw.move {
        var possible := Moves(net.systems[traverser], previous);
        if possible == [] {
          stepsLeft := stepsLeft + 1;
          continue;
        }
        var d := possible[draw.pick % |possible|];
        MoveDescends(net, traverser, previous, d);
        traverser := net.systems[traverser].Neighbor(d).value;
        previous := Some(Opposite(d));
      } else {
        var possible := Branches(net.systems[traverser]);
        if possible == [] {
          stepsLeft := stepsLeft + 1;
          continue;
        }
        var d := possible[draw.pick % |possible|];
        DepthBound(net.parent, net.via, traverser);
        var b := net.Attach(traverser, d, kind, item);
        return Branched(b), stepsLeft, used;
      }
    }
    DepthBound(net.parent, net.via, traverser);
    end := BudgetSpent;
  }

  // ---------------------------------------------------------------------

  /** The item pool: the required items shuffled, RANSOMWARE appended last. */
  function ItemPool(required: seq<Entry>, rnd: Randomness): (r: seq<ItemType>)
    ensures |r| == |Flatten(required)| + 1 && r[|r| - 1] == Ransomware
    ensures multiset(r) == multiset(Flatten(required)) + multiset{Ransomware}
  {
    Shuffled(Flatten(required), rnd.itemSwaps) + [Ransomware]
  }

  /** The system pool: every kind but the bootloader, shuffled. */
  function SystemPool(rnd: Randomness): (r: seq<SystemType>)
    ensures |r| == SystemTypeCount && multiset(r) == multiset(GeneratedSystems)
  {
    GeneratedSystemsShape();
    Shuffled(GeneratedSystems, rnd.systemSwaps)
  }

  /** How many rooms the generator adds below the start room: one per pool
      entry, but never more than the system pool holds. */
  function Placed(poolSize: nat): nat {
    if poolSize < SystemTypeCount then poolSize else SystemTypeCount
  }

  /** A fresh room added to the items and kinds lists. */
  lemma AttachLists(old_: seq<System>, s: seq<System>, kind: SystemType, item: ItemType)
    requires |s| == |old_| + 1
    requires s[|old_|].kind == kind && s[|old_|].item == item
    requires forall i :: 0 <= i < |old_| ==> s[i].kind == old_[i].kind && s[i].item == old_[i].item
    ensures Items(s) == Items(old_) + [item] && KindsOf(s) == KindsOf(old_) + [kind]
  {
  }

  /** One walk of the outer loop of `generateMap`, followed by its
      `stepsLeft < 0` test. On a map of at most SystemTypeCount rooms the
      walk is never out of steps (a walk goes one room deeper per move), so
      the test never holds and lines 640-642 of
      src/bitmasher_game/TextBasedGame.py (drop the item, reuse the system
      index) never run. Unless the draws run out, the map
      gains one leaf holding `item`. */
  method PlaceOne(net: Network, kind: SystemType, item: ItemType, draws: seq<Draw>) returns (placed: bool, used: nat)
    requires net.Valid() && |net.systems| <= SystemTypeCount
    modifies net
    ensures net.Valid() && used <= |draws|
    ensures !placed ==> net.systems == old(net.systems)
    ensures placed ==>
              && |net.systems| == |old(net.systems)| + 1
              && Items(net.systems) == Items(old(net.systems)) + [item]
              && KindsOf(net.systems) == KindsOf(old(net.systems)) + [kind]
              && Leaf(net, |net.systems| - 1)
  {
    ghost var before := net.systems;
    var end, stepsLeft, u := Walk(net, kind, item, draws);
    used := u;
    if end.Exhausted? {
      return false, used;
    }
    if stepsLeft < 0 {
      assert false;
    }
    var b := end.room;
    LinkEffect(before + [NewSystem(kind, item)], net.parent[b], net.via[b], b);
    AttachLists(before, net.systems, kind, item);
    placed := true;
  }

  /** The outer loop of `generateMap`: one walk per pool entry, switching
      to the RANSOMWARE once the system pool is down to its last kind.
      `lastItemIndex` is the first pool index left unplaced, if any. */
  method Grow(net: Network, itemPool: seq<ItemType>, systemPool: seq<SystemType>, walk: seq<Draw>)
    returns (complete: bool, lastItemIndex: Option<nat>)
    requires net.Valid() && |net.systems| == 1 && net.systems[0].kind == Bootloader && net.systems[0].item == NoItem
    requires |itemPool| >= 1 && itemPool[|itemPool| - 1] == Ransomware && |systemPool| == SystemTypeCount
    modifies net
    ensures Rooted(net)
    ensures complete ==>
              && LaidOut(net, itemPool, systemPool)
              && (lastItemIndex.Some? <==> |itemPool| >= SystemTypeCount)
              && (lastItemIndex.Some? ==> lastItemIndex.value == Placed(|itemPool|) - 1)
  {
    lastItemIndex := None;
    var itemIndex: nat := 0;
    var systemIndex: nat := 0;
    var pos: nat := 0;
    ghost var placedItems: seq<ItemType> := [];
    while itemIndex < |itemPool|
      invariant pos <= |walk|
      invariant Growing(net, itemPool, systemPool, itemIndex, systemIndex, lastItemIndex, placedItems)
      decreases |itemPool| - itemIndex
    {
      var placed, used, nextItem, nextSystem, nextLast, nextPlaced :=
        GrowStep(net, itemPool, systemPool, walk[pos..], itemIndex, systemIndex, lastItemIndex, placedItems);
      pos := pos + used;
      if !placed {
        return false, nextLast;
      }
      itemIndex, systemIndex, lastItemIndex, placedItems := nextItem, nextSystem, nextLast, nextPlaced;
    }
    if lastItemIndex.None? {
      TakeSnoc(itemPool, itemIndex - 1);
    }
    complete := true;
  }

  /** What the placement loop keeps: the rooms hold the start room's NONE
      and the items placed so far, their kinds are the system pool's prefix,
      and the last room added is a dead end. Until the last kind is reached
      the items placed are the item pool's prefix; after it, the prefix
      before the last kind and the RANSOMWARE. */
  ghost predicate Growing(net: Network, itemPool: seq<ItemType>, systemPool: seq<SystemType>,
                          itemIndex: nat, systemIndex: nat, lastItemIndex: Option<nat>, placedItems: seq<ItemType>)
    reads net
  {
    && net.Valid() && |systemPool| == SystemTypeCount
    && Items(net.systems) == [NoItem] + placedItems
    && systemIndex <= SystemTypeCount && KindsOf(net.systems) == [Bootloader] + systemPool[..systemIndex]
    && (lastItemIndex.None? ==>
          itemIndex == systemIndex < SystemTypeCount && itemIndex <= |itemPool| && placedItems == itemPool[..itemIndex])
    && (lastItemIndex.Some? ==>
          && lastItemIndex.value == SystemTypeCount - 1 && itemIndex == |itemPool| > lastItemIndex.value
          && systemIndex == SystemTypeCount && placedItems == itemPool[..SystemTypeCount - 1] + [Ransomware])
    && (itemIndex > 0 ==> Leaf(net, |net.systems| - 1))
  }

  /** One round of the placement loop: at the last kind, the index jumps to
      the RANSOMWARE; then the room is placed, or the walk ran out. */
  method GrowStep(net: Network, itemPool: seq<ItemType>, systemPool: seq<SystemType>, draws: seq<Draw>,
                  itemIndex: nat, systemIndex: nat, lastItemIndex: Option<nat>, ghost placedItems: seq<ItemType>)
    returns (placed: bool, used: nat, nextItem: nat, nextSystem: nat, nextLast: Option<nat>, ghost nextPlaced: seq<ItemType>)
    requires |itemPool| >= 1 && itemPool[|itemPool| - 1] == Ransomware && itemIndex < |itemPool|
    requires Growing(net, itemPool, systemPool, itemIndex, systemIndex, lastItemIndex, placedItems)
    modifies net
    ensures used <= |draws|
    ensures placed ==> itemIndex < nextItem && Growing(net, itemPool, systemPool, nextItem, nextSystem, nextLast, nextPlaced)
    ensures !placed ==> Growing(net, itemPool, systemPool, itemIndex, systemIndex, lastItemIndex, placedItems)
  {
    nextItem, nextSystem, nextLast, nextPlaced := itemIndex, systemIndex, lastItemIndex, placedItems;
    if systemIndex >= |systemPool| - 1 {
      nextLast := Some(itemIndex);
      nextItem := |itemPool| - 1;
    }
    placed, used := PlaceOne(net, systemPool[systemIndex], itemPool[nextItem], draws);
    if !placed {
      return;
    }
    TakeSnoc(systemPool, systemIndex);
    if nextLast.None? {
      TakeSnoc(itemPool, nextItem);
    }
    nextPlaced := placedItems + [itemPool[nextItem]];
    nextItem := nextItem + 1;
    nextSystem := systemIndex + 1;
  }

  lemma TakeSnoc<T>(xs: seq<T>, i: nat)
    requires i < |xs|
    ensures xs[..i] + [xs[i]] == xs[..i + 1]
    ensures i + 1 == |xs| ==> xs[..i + 1] == xs
  {
  }

  lemma SliceSteps<T>(xs: seq<T>, a: nat, i: nat, b: nat)
    requires a <= i < b <= |xs|
    ensures xs[a..i + 1] == xs[a..i] + [xs[i]]
    ensures xs[i..b] == [xs[i]] + xs[i + 1..b]
  {
  }

  /** Taking the unit `xs[i]` out of a bag that holds `xs[i..b]` leaves
      `xs[i + 1..b]`. */
  lemma TakeOneOf(rest: multiset<ItemType>, xs: seq<ItemType>, i: nat, b: nat, m: multiset<ItemType>)
    requires i < b <= |xs|
    requires m == rest + multiset(xs[i..b])
    ensures xs[i] in m
    ensures m - multiset{xs[i]} == rest + multiset(xs[i + 1..b])
  {
    assert xs[i..b] == [xs[i]] + xs[i + 1..b];
  }

  lemma RemoveEachSnoc(s: seq<Entry>, ts: seq<ItemType>, t: ItemType)
    ensures RemoveEach(s, ts + [t]) == RemoveFrom(RemoveEach(s, ts), t, 1)
  {
    assert (ts + [t])[..|ts|] == ts;
  }

  /** One round of the clean-up loop: the unit `pool[i]` is still in the
      inventory, so removing it succeeds and leaves the rest of the slice. */
  lemma DropStep(s: seq<Entry>, pool: seq<ItemType>, from: nat, i: nat)
    requires DistinctKeys(s) && Positive(s) && from <= i < |pool| - 1
    requires Holds(s, multiset(pool[..from]) + multiset(pool[i..|pool| - 1]))
    ensures RemovalOf(s, pool[i], 1) == Removed
    ensures DistinctKeys(RemoveFrom(s, pool[i], 1)) && Positive(RemoveFrom(s, pool[i], 1))
    ensures Holds(RemoveFrom(s, pool[i], 1), multiset(pool[..from]) + multiset(pool[i + 1..|pool| - 1]))
  {
    var b := multiset(pool[..from]) + multiset(pool[i..|pool| - 1]);
    TakeOneOf(multiset(pool[..from]), pool, i, |pool| - 1, b);
    RemoveOneHeld(s, pool[i], b);
  }

  /** The clean-up loop of `generateMap`: `tryRemoveItem` for every pool
      entry from `from` up to, not including, the RANSOMWARE. Each of them
      is still required, so each removal succeeds. */
  method DropUnplaced(required: Inventory, itemPool: seq<ItemType>, from: nat)
    requires required.Valid() && Positive(required.entries)
    requires from < |itemPool|
    requires Holds(required.entries, multiset(itemPool[..from]) + multiset(itemPool[from..|itemPool| - 1]))
    modifies required
    ensures required.Valid() && Positive(required.entries)
    ensures required.entries == RemoveEach(old(required.entries), itemPool[from..|itemPool| - 1])
    ensures Holds(required.entries, multiset(itemPool[..from]))
  {
    ghost var s := required.entries;
    ghost var kept := multiset(itemPool[..from]);
    var i := from;
    while i < |itemPool| - 1
      invariant from <= i <= |itemPool| - 1 && required.Valid()
      invariant Dropping(required.entries, s, itemPool, from, i, kept)
    {
      DropOne(required, itemPool, from, i, s, kept);
      i := i + 1;
    }
    DropDone(required.entries, s, itemPool, from, kept);
  }

  /** The clean-up loop's invariant after the entries from `from` up to i:
      each of them was removed once, and the required items are what is
      kept plus the entries still to remove. */
  ghost predicate Dropping(e: seq<Entry>, s: seq<Entry>, itemPool: seq<ItemType>, from: nat, i: nat, kept: multiset<ItemType>)
    requires from <= i <= |itemPool| - 1
  {
    && Positive(e)
    && e == RemoveEach(s, itemPool[from..i])
    && Holds(e, kept + multiset(itemPool[i..|itemPool| - 1]))
  }

  /** Once the loop is through, nothing unplaced is left to account for. */
  lemma DropDone(e: seq<Entry>, s: seq<Entry>, itemPool: seq<ItemType>, from: nat, kept: multiset<ItemType>)
    requires from <= |itemPool| - 1 && Dropping(e, s, itemPool, from, |itemPool| - 1, kept)
    ensures Positive(e) && e == RemoveEach(s, itemPool[from..|itemPool| - 1]) && Holds(e, kept)
  {
    assert kept + multiset(itemPool[|itemPool| - 1..|itemPool| - 1]) == kept;
  }

  /** One round of the clean-up loop, `tryRemoveItem(itemPool[i])`. */
  method DropOne(required: Inventory, itemPool: seq<ItemType>, from: nat, i: nat, ghost s: seq<Entry>, ghost kept: multiset<ItemType>)
    requires from <= i < |itemPool| - 1 && kept == multiset(itemPool[..from])
    requires required.Valid() && Dropping(required.entries, s, itemPool, from, i, kept)
    modifies required
    ensures required.Valid() && Dropping(required.entries, s, itemPool, from, i + 1, kept)
  {
    SliceSteps(itemPool, from, i, |itemPool| - 1);
    RemoveEachSnoc(s, itemPool[from..i], itemPool[i]);
    DropStep(required.entries, itemPool, from, i);
    var removed := required.TryRemoveItem(itemPool[i], 1);
  }

  /** A valid map whose room 0 is the start room: a BOOTLOADER holding no
      item. */
  ghost predicate Rooted(net: Network)
    reads net
  {
    net.Valid() && net.systems[0].kind == Bootloader && net.systems[0].item == NoItem
  }

  /** The rooms of a complete map: the start room, then one room per placed
      pool entry, the last of them holding the RANSOMWARE, with the kinds
      taken from the system pool in order; the last room is a dead end. */
  ghost predicate LaidOut(net: Network, itemPool: seq<ItemType>, systemPool: seq<SystemType>)
    reads net
    requires |itemPool| >= 1
  {
    var n := Placed(|itemPool|);
    && net.Valid()
    && |net.systems| == n + 1
    && n <= |systemPool|
    && KindsOf(net.systems) == [Bootloader] + systemPool[..n]
    && Items(net.systems) == [NoItem] + itemPool[..n - 1] + [Ransomware]
    && Leaf(net, n)
  }

  /** `generateMap(requiredItems)`. It returns the map as a network whose
      room 0 is the start room; `complete` is false only when the walk
      draws ran out. Rooms 1.. hold the pool entries in order, the last of
      them the RANSOMWARE, and carry the shuffled kinds in order. When the
      pool has more entries than the system pool has kinds, the surplus items
      are dropped from `requiredItems`, so that afterwards the required items
      are exactly the items lying in the rooms. */
  method GenerateMap(required: Inventory, rnd: Randomness) returns (net: Network, complete: bool)
    requires required.Valid() && Positive(required.entries)
    modifies required
    ensures fresh(net) && Rooted(net) && required.Valid() && Positive(required.entries)
    ensures complete ==>
              var pool := ItemPool(old(required.entries), rnd);
              var n := Placed(|pool|);
              && LaidOut(net, pool, SystemPool(rnd))
              && required.entries == RemoveEach(old(required.entries), pool[n - 1..|pool| - 1])
              && multiset(Items(net.systems)) == multiset{NoItem, Ransomware} + multiset(Flatten(required.entries))
    ensures complete && SumCounts(old(required.entries)) < SystemTypeCount ==> required.entries == old(required.entries)
  {
    var itemPool, systemPool := MakePools(required, rnd);
    var lastItemIndex;
    net, complete, lastItemIndex := LayOut(itemPool, systemPool, rnd.walk);
    if complete {
      FinishMap(required, net, itemPool, systemPool, lastItemIndex, rnd);
    }
  }

  /** The shuffled item list with the RANSOMWARE appended, and the shuffled
      system pool. */
  method MakePools(required: Inventory, rnd: Randomness) returns (itemPool: seq<ItemType>, systemPool: seq<SystemType>)
    ensures itemPool == ItemPool(required.entries, rnd) && systemPool == SystemPool(rnd)
  {
    var listed := required.ToItemList();
    itemPool := Shuffled(listed, rnd.itemSwaps) + [Ransomware];
    systemPool := SystemPool(rnd);
  }

  /** The start room followed by the rooms `Grow` attaches. */
  method LayOut(itemPool: seq<ItemType>, systemPool: seq<SystemType>, walk: seq<Draw>)
    returns (net: Network, complete: bool, lastItemIndex: Option<nat>)
    requires |itemPool| >= 1 && itemPool[|itemPool| - 1] == Ransomware && |systemPool| == SystemTypeCount
    ensures fresh(net) && Rooted(net)
    ensures complete ==>
              && LaidOut(net, itemPool, systemPool)
              && (lastItemIndex.Some? <==> |itemPool| >= SystemTypeCount)
              && (lastItemIndex.Some? ==> lastItemIndex.value == Placed(|itemPool|) - 1)
  {
    net := new Network(Bootloader);
    complete, lastItemIndex := Grow(net, itemPool, systemPool, walk);
  }

  /** What follows a complete lay-out: the surplus units are dropped, and
      the map is left as it is. */
  method FinishMap(required: Inventory, net: Network, itemPool: seq<ItemType>, systemPool: seq<SystemType>,
                   lastItemIndex: Option<nat>, ghost rnd: Randomness)
    requires required.Valid() && Positive(required.entries) && (net as object) != (required as object)
    requires itemPool == ItemPool(required.entries, rnd)
    requires Rooted(net) && LaidOut(net, itemPool, systemPool)
    requires lastItemIndex.Some? <==> |itemPool| >= SystemTypeCount
    requires lastItemIndex.Some? ==> lastItemIndex.value == Placed(|itemPool|) - 1
    modifies required
    ensures Rooted(net) && LaidOut(net, itemPool, systemPool)
    ensures required.Valid() && Positive(required.entries)
    ensures var n := Placed(|itemPool|);
            && required.entries == RemoveEach(old(required.entries), itemPool[n - 1..|itemPool| - 1])
            && multiset(Items(net.systems)) == multiset{NoItem, Ransomware} + multiset(Flatten(required.entries))
    ensures SumCounts(old(required.entries)) < SystemTypeCount ==> required.entries == old(required.entries)
  {
    PoolFacts(required.entries, rnd);
    DropLeftovers(required, itemPool, lastItemIndex);
    RoomsHoldRequired(required.entries, itemPool[..Placed(|itemPool|) - 1]);
  }

  /** The last step of `generateMap` once every room is placed: the
      required units that did not fit are taken back out of the inventory. */
  method DropLeftovers(required: Inventory, itemPool: seq<ItemType>, lastItemIndex: Option<nat>)
    requires required.Valid() && Positive(required.entries) && |itemPool| >= 1
    requires var n := Placed(|itemPool|);
             && Holds(required.entries, multiset(itemPool[..n - 1]) + multiset(itemPool[n - 1..|itemPool| - 1]))
             && (SumCounts(required.entries) < SystemTypeCount ==> itemPool[n - 1..|itemPool| - 1] == [])
    requires lastItemIndex.Some? <==> |itemPool| >= SystemTypeCount
    requires lastItemIndex.Some? ==> lastItemIndex.value == Placed(|itemPool|) - 1
    modifies required
    ensures required.Valid() && Positive(required.entries)
    ensures var n := Placed(|itemPool|);
            && required.entries == RemoveEach(old(required.entries), itemPool[n - 1..|itemPool| - 1])
            && Holds(required.entries, multiset(itemPool[..n - 1]))
    ensures SumCounts(old(required.entries)) < SystemTypeCount ==> required.entries == old(required.entries)
  {
    ghost var s := required.entries;
    var n := Placed(|itemPool|);
    if lastItemIndex.Some? {
      DropUnplaced(required, itemPool, lastItemIndex.value);
    } else {
      NoneLeft(s, itemPool, n);
    }
    if SumCounts(s) < SystemTypeCount {
      NoneLeft(s, itemPool, n);
    }
  }

  /** With no pool entry left unplaced, nothing is removed. */
  lemma NoneLeft(s: seq<Entry>, pool: seq<ItemType>, n: nat)
    requires 1 <= n <= |pool| && pool[n - 1..|pool| - 1] == []
    requires Holds(s, multiset(pool[..n - 1]) + multiset(pool[n - 1..|pool| - 1]))
    ensures RemoveEach(s, pool[n - 1..|pool| - 1]) == s && Holds(s, multiset(pool[..n - 1]))
  {
    assert multiset(pool[n - 1..|pool| - 1]) == multiset{};
  }

  /** How the item pool splits into the entries placed before the
      RANSOMWARE and the entries left unplaced: together they are the
      required units. */
  lemma PoolFacts(entries: seq<Entry>, rnd: Randomness)
    requires DistinctKeys(entries) && Positive(entries)
    ensures var pool := ItemPool(entries, rnd);
            var n := Placed(|pool|);
            && 1 <= n <= |pool|
            && Holds(entries, multiset(pool[..n - 1]) + multiset(pool[n - 1..|pool| - 1]))
            && (SumCounts(entries) < SystemTypeCount ==> pool[n - 1..|pool| - 1] == [])
  {
    PoolSplit(entries, rnd);
    FlattenLength(entries);
  }

  lemma PoolSplit(entries: seq<Entry>, rnd: Randomness)
    requires DistinctKeys(entries) && Positive(entries)
    ensures var pool := ItemPool(entries, rnd);
            var n := Placed(|pool|);
            && 1 <= n <= |pool|
            && Holds(entries, multiset(pool[..n - 1]) + multiset(pool[n - 1..|pool| - 1]))
  {
    var pool := ItemPool(entries, rnd);
    var n := Placed(|pool|);
    assert pool[..|pool| - 1] == Shuffled(Flatten(entries), rnd.itemSwaps);
    SplitBefore(pool, n - 1);
    HoldsFlatten(entries, multiset(pool[..n - 1]) + multiset(pool[n - 1..|pool| - 1]));
  }

  /** The rooms hold the start room's NONE, the placed units and the
      RANSOMWARE; when the inventory holds the placed units, the rooms hold
      exactly the required items besides those two. */
  lemma RoomsHoldRequired(s: seq<Entry>, kept: seq<ItemType>)
    requires DistinctKeys(s) && Positive(s) && Holds(s, multiset(kept))
    ensures multiset([NoItem] + kept + [Ransomware]) == multiset{NoItem, Ransomware} + multiset(Flatten(s))
  {
    HoldsFlatten(s, multiset(kept));
    WrapMultiset(kept);
  }

  lemma SplitBefore<T>(xs: seq<T>, k: nat)
    requires k < |xs|
    ensures xs == xs[..k] + xs[k..|xs| - 1] + [xs[|xs| - 1]]
    ensures multiset(xs[..|xs| - 1]) == multiset(xs[..k]) + multiset(xs[k..|xs| - 1])
  {
    assert xs[..|xs| - 1] == xs[..k] + xs[k..|xs| - 1];
  }

  lemma WrapMultiset(kept: seq<ItemType>)
    ensures multiset([NoItem] + kept + [Ransomware]) == multiset{NoItem, Ransomware} + multiset(kept)
  {
  }

  /** Adding a key the dict does not hold appends it. */
  lemma AddFresh(s: seq<Entry>, t: ItemType, n: int)
    requires forall i :: 0 <= i < |s| ==> s[i].item != t
    ensures AddTo(s, t, n) == s + [Entry(t, n)]
  {
  }

  /** The required items `generateRequiredItems` builds, in insertion order. */
  function RequiredEntries(fragments: int, vulnerabilities: int): seq<Entry> {
    [ Entry(FullMemoryReadAccess, 1), Entry(FullMemoryWriteAccess, 1), Entry(PointerDereferencer, 1)
    , Entry(OsOverrideCapability, 1), Entry(Sandboxer, 1)
    , Entry(RansomwareCodeFragment, fragments), Entry(Vulnerability, vulnerabilities) ]
  }

  /** The seven `addItem` calls, each adding a key not yet stored. */
  lemma BuildRequired(fragments: int, vulnerabilities: int)
    ensures AddTo(AddTo(AddTo(AddTo(AddTo(AddTo(AddTo([], FullMemoryReadAccess, 1), FullMemoryWriteAccess, 1),
              PointerDereferencer, 1), OsOverrideCapability, 1), Sandboxer, 1),
              RansomwareCodeFragment, fragments), Vulnerability, vulnerabilities)
            == RequiredEntries(fragments, vulnerabilities)
  {
    var e: seq<Entry> := [];
    AddFresh(e, FullMemoryReadAccess, 1);
    e := e + [Entry(FullMemoryReadAccess, 1)];
    AddFresh(e, FullMemoryWriteAccess, 1);
    e := e + [Entry(FullMemoryWriteAccess, 1)];
    AddFresh(e, PointerDereferencer, 1);
    e := e + [Entry(PointerDereferencer, 1)];
    AddFresh(e, OsOverrideCapability, 1);
    e := e + [Entry(OsOverrideCapability, 1)];
    AddFresh(e, Sandboxer, 1);
    e := e + [Entry(Sandboxer, 1)];
    AddFresh(e, RansomwareCodeFragment, fragments);
    e := e + [Entry(RansomwareCodeFragment, fragments)];
    AddFresh(e, Vulnerability, vulnerabilities);
    e := e + [Entry(Vulnerability, vulnerabilities)];
    assert e == RequiredEntries(fragments, vulnerabilities);
  }

  /** Seven items, the last two counted `fragments` and `vulnerabilities`
      times: positive counts when those are positive, and the total. */
  lemma RequiredShape(fragments: int, vulnerabilities: int)
    ensures DistinctKeys(RequiredEntries(fragments, vulnerabilities))
    ensures fragments > 0 && vulnerabilities > 0 ==> Positive(RequiredEntries(fragments, vulnerabilities))
    ensures SumCounts(RequiredEntries(fragments, vulnerabilities)) == 5 + fragments + vulnerabilities
  {
    var e1 := [Entry(FullMemoryReadAccess, 1)];
    assert SumCounts(e1) == SumCounts(e1[..0]) + 1 && e1[..0] == [];
    var e2 := e1 + [Entry(FullMemoryWriteAccess, 1)];
    SumAppend(e1, Entry(FullMemoryWriteAccess, 1));
    var e3 := e2 + [Entry(PointerDereferencer, 1)];
    SumAppend(e2, Entry(PointerDereferencer, 1));
    var e4 := e3 + [Entry(OsOverrideCapability, 1)];
    SumAppend(e3, Entry(OsOverrideCapability, 1));
    var e5 := e4 + [Entry(Sandboxer, 1)];
    SumAppend(e4, Entry(Sandboxer, 1));
    var e6 := e5 + [Entry(RansomwareCodeFragment, fragments)];
    SumAppend(e5, Entry(RansomwareCodeFragment, fragments));
    var e7 := e6 + [Entry(Vulnerability, vulnerabilities)];
    SumAppend(e6, Entry(Vulnerability, vulnerabilities));
    assert e7 == RequiredEntries(fragments, vulnerabilities);
  }

  /** `generateRequiredItems()`: one of each capability and the SANDBOXER,
      and `randint(1, 3)` code fragments and vulnerabilities, drawn as
      `1 + draw % 3`. */
  method GenerateRequiredItems(fragmentDraw: nat, vulnerabilityDraw: nat) returns (required: Inventory)
    ensures fresh(required) && required.Valid() && Positive(required.entries)
    ensures required.entries == RequiredEntries(1 + fragmentDraw % 3, 1 + vulnerabilityDraw % 3)
    ensures 7 <= SumCounts(required.entries) <= 11
  {
    var fragments, vulnerabilities := 1 + fragmentDraw % 3, 1 + vulnerabilityDraw % 3;
    required := new Inventory();
    required.AddItem(FullMemoryReadAccess, 1);
    required.AddItem(FullMemoryWriteAccess, 1);
    required.AddItem(PointerDereferencer, 1);
    required.AddItem(OsOverrideCapability, 1);
    required.AddItem(Sandboxer, 1);
    required.AddItem(RansomwareCodeFragment, fragments);
    required.AddItem(Vulnerability, vulnerabilities);
    BuildRequired(fragments, vulnerabilities);
    RequiredShape(fragments, vulnerabilities);
  }
}
