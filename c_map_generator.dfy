/** The C revision's `generate_map`. Each item drawn from the pool is
    placed by a random walk from the root: a step moves on (to a neighbour
    other than the one just left) with chance `MOVE_CHANCE` in 100, and
    otherwise attaches a new system in a free direction of the current one
    and stops. The walk is the specification function `Walk`, the whole
    generation the specification function `GenLoop`; the methods are proved
    against them. */
module CMapGenerator {
  import opened Kinds
  import opened CInventory
  import opened CMap
  import opened CGenerator

  // ---------------------------------------------------------------------
  // The random walk.

  /** The neighbours the walk can move to, in direction order: present and
      not the system it came from. */
  function Onward(s: System, previous: Option<nat>, ds: seq<Direction>): (r: seq<nat>)
    ensures |r| <= |ds|
    ensures forall x :: x in r <==> exists d :: d in ds && s.Neighbor(d) == Some(x) && Some(x) != previous
  {
    if ds == [] then []
    else
      var d := ds[|ds| - 1];
      var r := Onward(s, previous, ds[..|ds| - 1]);
      assert forall e :: e in ds <==> e in ds[..|ds| - 1] || e == d;
      if s.Neighbor(d).Some? && s.Neighbor(d) != previous then r + [s.Neighbor(d).value] else r
  }

  /** The directions in which a system has no neighbour yet, in order. */
  function Free(s: System, ds: seq<Direction>): (r: seq<Direction>)
    ensures |r| <= |ds|
    ensures forall d :: d in r <==> d in ds && s.Neighbor(d).None?
  {
    if ds == [] then []
    else
      var d := ds[|ds| - 1];
      var r := Free(s, ds[..|ds| - 1]);
      assert forall e :: e in ds <==> e in ds[..|ds| - 1] || e == d;
      if s.Neighbor(d).None? then r + [d] else r
  }

  /** How a walk ends: a new system is to be attached below system `at` in
      its free direction `direction`, or the steps ran out. */
  datatype Stop = Branch(at: nat, direction: Direction) | Exhausted

  /** The walk standing on system `at` with `stepsLeft` steps to go, its
      `rand()` calls numbered from k: the stop and the number of calls made
      by then. */
  function Walk(s: seq<System>, rand: Rand, k: nat, stepsLeft: nat, at: nat, previous: Option<nat>): (r: (Stop, nat))
    requires InRange(s) && at < |s|
    ensures r.0.Branch? ==> r.0.at < |s| && s[r.0.at].Neighbor(r.0.direction).None?
    ensures k <= r.1 <= k + 2 * stepsLeft
    ensures r.0.Exhausted? ==> k + stepsLeft <= r.1
    ensures r.0.Branch? ==> 0 < stepsLeft
    decreases stepsLeft
  {
    if stepsLeft == 0 then (Exhausted, k)
    else if rand(k) % 100 < MoveChance then
      var onward := Onward(s[at], previous, AllDirections);
      if |onward| == 0 then Walk(s, rand, k + 1, stepsLeft - 1, at, previous)
      else
        var next := onward[rand(k + 1) % |onward|];
        assert next in onward;
        Walk(s, rand, k + 2, stepsLeft - 1, next, Some(at))
    else
      var free := Free(s[at], AllDirections);
      if |free| == 0 then Walk(s, rand, k + 1, stepsLeft - 1, at, previous)
      else
        assert free[rand(k + 1) % |free|] in free;
        (Branch(at, free[rand(k + 1) % |free|]), k + 2)
  }

  /** The loop gathering `adjacents`. */
  method GatherOnward(arena: Map, at: nat, previous: Option<nat>) returns (adjacents: seq<nat>)
    requires at < arena.systems.Length
    ensures adjacents == Onward(arena.systems[at], previous, AllDirections)
  {
    adjacents := [];
    for direction := 0 to 4
      invariant adjacents == Onward(arena.systems[at], previous, AllDirections[..direction])
    {
      assert AllDirections[..direction + 1][..direction] == AllDirections[..direction];
      var adjacent := arena.systems[at].Neighbor(AllDirections[direction]);
      if adjacent.Some? && adjacent != previous {
        adjacents := adjacents + [adjacent.value];
      }
    }
    assert AllDirections[..4] == AllDirections;
  }

  /** The loop gathering `directions`. */
  method GatherFree(arena: Map, at: nat) returns (directions: seq<Direction>)
    requires at < arena.systems.Length
    ensures directions == Free(arena.systems[at], AllDirections)
  {
    directions := [];
    for direction := 0 to 4
      invariant directions == Free(arena.systems[at], AllDirections[..direction])
    {
      assert AllDirections[..direction + 1][..direction] == AllDirections[..direction];
      if arena.systems[at].Neighbor(AllDirections[direction]).None? {
        directions := directions + [AllDirections[direction]];
      }
    }
    assert AllDirections[..4] == AllDirections;
  }

  /** One step of the traversal loop: either the branch found, or the
      system the walk stands on next. */
  method Stride(arena: Map, rand: Rand, k: nat, stepsLeft: nat, at: nat, previous: Option<nat>)
    returns (branch: Option<Direction>, at': nat, previous': Option<nat>, k': nat)
    requires 0 < arena.count <= arena.systems.Length && InRange(arena.InUse())
    requires at < arena.count && 0 < stepsLeft
    ensures at' < arena.count && (branch.Some? ==> at' == at)
    ensures branch.Some? ==> Walk(arena.InUse(), rand, k, stepsLeft, at, previous) == (Branch(at, branch.value), k')
    ensures branch.None? ==>
              Walk(arena.InUse(), rand, k, stepsLeft, at, previous) == Walk(arena.InUse(), rand, k', stepsLeft - 1, at', previous')
  {
    ghost var s := arena.InUse();
    assert arena.systems[at] == s[at];
    branch, at', previous', k' := None, at, previous, k + 1;
    if rand(k) % 100 < MoveChance {
      var adjacents := GatherOnward(arena, at, previous);
      if |adjacents| != 0 {
        previous' := Some(at);
        at' := adjacents[rand(k + 1) % |adjacents|];
        assert at' in adjacents;
        k' := k + 2;
      }
    } else {
      var directions := GatherFree(arena, at);
      if |directions| != 0 {
        branch, k' := Some(directions[rand(k + 1) % |directions|]), k + 2;
      }
    }
  }

  /** The traversal loop of `generate_map`, from the root with `MAX_STEPS`
      steps; the allocation and linking of a branch is left to the caller. */
  method Roam(arena: Map, rand: Rand, k: nat) returns (stop: Stop, k': nat)
    requires 0 < arena.count <= arena.systems.Length && InRange(arena.InUse())
    ensures (stop, k') == Walk(arena.InUse(), rand, k, MaxSteps, 0, None)
  {
    var traverser: nat := 0;
    var previous: Option<nat> := None;
    var stepsLeft: nat := MaxSteps;
    k' := k;
    while 0 < stepsLeft
      invariant traverser < arena.count
      invariant Walk(arena.InUse(), rand, k', stepsLeft, traverser, previous) == Walk(arena.InUse(), rand, k, MaxSteps, 0, None)
    {
      var branch;
      branch, traverser, previous, k' := Stride(arena, rand, k', stepsLeft, traverser, previous);
      if branch.Some? {
        stop := Branch(traverser, branch.value);
        return;
      }
      stepsLeft := stepsLeft - 1;
    }
    stop := Exhausted;
  }

  // ---------------------------------------------------------------------
  // Too many items for the systems left.

  /** The first entry that is not RANSOMWARE: with distinct types at most
      one entry is RANSOMWARE, so it is the first or the second. */
  function FirstCollectible(s: seq<Item>): (i: nat)
    requires Distinct(s) && 2 <= |s|
    ensures i < |s| && s[i].kind != Ransomware
    ensures forall j :: 0 <= j < i ==> s[j].kind == Ransomware
  {
    if s[0].kind != Ransomware then 0 else 1
  }

  /** An entry other than the one swap-removed survives the removal. */
  lemma SwapRemoveSurvivor(s: seq<Item>, i: nat, p: nat)
    requires i < |s| && p < |s| && p != i
    ensures s[p] in SwapRemove(s, i)
  {
    var r := SwapRemove(s, i);
    if p < |r| {
      assert r[p] == s[p];
    } else {
      assert r[i] == s[p];
    }
  }

  /** `while (1 < item_pool.count)` with its inner search: whole entries
      other than RANSOMWARE are removed, the first of them each time, until
      one entry is left; RANSOMWARE, when still in the pool, is that one. */
  function Leftovers(s: seq<Item>): (r: seq<Item>)
    requires Distinct(s) && NoneFree(s)
    ensures Distinct(r) && NoneFree(r)
    ensures |r| == if |s| == 0 then 0 else 1
    ensures |s| <= 1 ==> r == s
    ensures Find(s, Ransomware).Some? ==> r == [s[Find(s, Ransomware).value]]
    ensures forall t :: Quantity(r, t) <= Quantity(s, t)
    ensures Quantity(r, Ransomware) == Quantity(s, Ransomware)
    ensures Total(r) <= Total(s)
    ensures Positive(s) ==> Positive(r)
    decreases |s|
  {
    if |s| <= 1 then s
    else
      var i := FirstCollectible(s);
      QuantityAt(s, i);
      RemovedWhole(s, s[i].kind, s[i].quantity, i);
      var s' := Removed(s, s[i].kind, s[i].quantity);
      var r := Leftovers(s');
      assert Find(s, Ransomware).Some? ==> r == [s[Find(s, Ransomware).value]] by {
        if Find(s, Ransomware).Some? {
          var p := Find(s, Ransomware).value;
          SwapRemoveSurvivor(s, i, p);
          var q :| 0 <= q < |s'| && s'[q] == s[p];
          QuantityAt(s', q);
        }
      }
      r
  }

  /** The inner search of the loop: the first entry that is not RANSOMWARE
      is removed whole. */
  method RemoveFirstCollectible(pool: Inventory)
    requires pool.Valid() && 2 <= pool.count
    modifies pool, pool.items
    ensures pool.Valid()
    ensures var s := old(pool.Contents());
            pool.Contents() == Removed(s, s[FirstCollectible(s)].kind, s[FirstCollectible(s)].quantity)
  {
    ghost var s := pool.Contents();
    ghost var first := FirstCollectible(s);
    var i := 0;
    while i < pool.count
      invariant i <= pool.count && pool.Contents() == s
      invariant forall j :: 0 <= j < i ==> s[j].kind == Ransomware
    {
      var item := pool.items[i];
      if item.kind != Ransomware {
        assert item == s[i] && i == FirstCollectible(s);
        pool.TryRemoveItem(item.kind, item.quantity);
        return;
      }
      i := i + 1;
    }
    assert false;
  }

  /** The pool once `next_system_index` reaches the last system type. */
  method DropLeftovers(pool: Inventory)
    requires pool.Valid()
    modifies pool, pool.items
    ensures pool.Valid() && pool.Contents() == Leftovers(old(pool.Contents()))
  {
    while 1 < pool.count
      invariant pool.Valid()
      invariant Leftovers(pool.Contents()) == Leftovers(old(pool.Contents()))
      decreases pool.count
    {
      ghost var s := pool.Contents();
      ghost var i := FirstCollectible(s);
      QuantityAt(s, i);
      RemovedWhole(s, s[i].kind, s[i].quantity, i);
      RemoveFirstCollectible(pool);
    }
  }

  // ---------------------------------------------------------------------
  // The generation loop, as values.

  /** Consuming one unit of the pool's first entry. */
  lemma TakeOne(s: seq<Item>)
    requires Distinct(s) && NoneFree(s) && Positive(s) && 0 < |s|
    ensures var r := Removed(s, s[0].kind, 1);
            && Distinct(r) && NoneFree(r) && Positive(r)
            && |r| <= |s| && Total(r) == Total(s) - 1
            && Quantity(r, s[0].kind) == Quantity(s, s[0].kind) - 1
            && forall u :: u != s[0].kind ==> Quantity(r, u) == Quantity(s, u)
  {
    QuantityAt(s, 0);
    if s[0].quantity == 1 {
      RemovedWhole(s, s[0].kind, 1, 0);
    } else {
      RemovedPart(s, s[0].kind, 1, 0);
    }
  }

  /** Which drawn items `generate_map` marks as present in the required
      items: as written, every drawn item other than RANSOMWARE
      (`MarkDrawn`), whether or not a system was made for it; corrected,
      only those a system was made for (`MarkPlaced`). */
  datatype Marking = MarkDrawn | MarkPlaced

  /** The mark of a drawn item of type t. */
  function Mark(items: seq<Item>, t: ItemType, placed: bool, marking: Marking): seq<Item> {
    if t == Ransomware || (marking == MarkPlaced && !placed) then items else Added(items, Item(t, 1))
  }

  /** The state of the generation loop: the item pool, the items marked
      present, the systems in use, `next_system_index`, the number of
      `rand()` calls made, and whether an index past `system_pool` was
      reached (undefined behaviour in C). */
  datatype Gen = Gen(pool: seq<Item>, items: seq<Item>, systems: seq<System>, next: nat, k: nat, overrun: bool)

  /** A shuffled `system_pool`: 15 indices of generated system types. */
  ghost predicate Order(order: seq<nat>) {
    |order| == SystemTypeCount && forall i :: 0 <= i < |order| ==> order[i] < SystemTypeCount
  }

  /** What the loop keeps: distinct positive pool entries, distinct marked
      items without RANSOMWARE, links inside the arena, and one system per
      system type used besides the root. */
  ghost predicate Inv(g: Gen) {
    && Distinct(g.pool) && NoneFree(g.pool) && Positive(g.pool)
    && Distinct(g.items) && NoneFree(g.items) && Find(g.items, Ransomware).None?
    && InRange(g.systems) && |g.systems| == g.next + 1 && g.next <= SystemTypeCount
  }

  function Measure(g: Gen): nat {
    Total(g.pool) + |g.pool| + if g.overrun then 0 else 1
  }

  /** The system a new branch gets: the next type of `system_pool`,
      holding item t. */
  function Branching(order: seq<nat>, next: nat, t: ItemType): System
    requires Order(order) && next < SystemTypeCount
  {
    ZeroSystem.(kind := GeneratedSystems[order[next]], item := t)
  }

  /** Marking keeps the marked items distinct and free of RANSOMWARE. */
  lemma MarkKeeps(items: seq<Item>, t: ItemType, placed: bool, marking: Marking)
    requires Distinct(items) && NoneFree(items) && Find(items, Ransomware).None?
    ensures var r := Mark(items, t, placed, marking);
            Distinct(r) && NoneFree(r) && Find(r, Ransomware).None?
  {
    AddedEffect(items, Item(t, 1));
    AddedFinds(items, Item(t, 1));
  }

  /** The end of a round that did not overrun: a branch gets a new system
      holding the pool's first item, and that item is marked and consumed. */
  function Settle(pool: seq<Item>, items: seq<Item>, systems: seq<System>, next: nat, w: (Stop, nat),
                  order: seq<nat>, marking: Marking): Gen
    requires Order(order) && 0 < |pool|
    requires w.0.Branch? ==> w.0.at < |systems| && next < SystemTypeCount
  {
    var t := pool[0].kind;
    var placed := w.0.Branch?;
    var systems' := if placed then Link(systems + [Branching(order, next, t)], w.0.at, w.0.direction, |systems|)
                    else systems;
    Gen(Removed(pool, t, 1), Mark(items, t, placed, marking), systems', if placed then next + 1 else next, w.1, false)
  }

  lemma SettleKeeps(pool: seq<Item>, items: seq<Item>, systems: seq<System>, next: nat, w: (Stop, nat),
                    order: seq<nat>, marking: Marking)
    requires Order(order) && 0 < |pool| && Distinct(pool) && NoneFree(pool) && Positive(pool)
    requires Distinct(items) && NoneFree(items) && Find(items, Ransomware).None?
    requires InRange(systems) && |systems| == next + 1 && next <= SystemTypeCount
    requires w.0.Branch? ==> w.0.at < |systems| && next < SystemTypeCount
    ensures var r := Settle(pool, items, systems, next, w, order, marking);
            Inv(r) && Total(r.pool) + |r.pool| < Total(pool) + |pool|
  {
    TakeOne(pool);
    MarkKeeps(items, pool[0].kind, w.0.Branch?, marking);
    if w.0.Branch? {
      LinkInRange(systems, w.0.at, w.0.direction, GeneratedSystems[order[next]], pool[0].kind);
    }
  }

  /** The pool a round starts from: cut down once the last system type is
      reached. */
  function RoundPool(g: Gen): seq<Item>
    requires Distinct(g.pool) && NoneFree(g.pool)
  {
    if g.next >= SystemTypeCount - 1 then Leftovers(g.pool) else g.pool
  }

  /** One round of the loop: the pool is cut down once the last system
      type is reached, the walk runs, and unless the branch would need a
      system type past `system_pool` the round is settled. */
  function Step(g: Gen, order: seq<nat>, rand: Rand, marking: Marking): Gen
    requires Inv(g) && Order(order) && 0 < |g.pool| && !g.overrun
  {
    var pool := RoundPool(g);
    var w := Walk(g.systems, rand, g.k, MaxSteps, 0, None);
    if w.0.Branch? && g.next >= SystemTypeCount then Gen(pool, g.items, g.systems, g.next, w.1, true)
    else Settle(pool, g.items, g.systems, g.next, w, order, marking)
  }

  lemma StepKeeps(g: Gen, order: seq<nat>, rand: Rand, marking: Marking)
    requires Inv(g) && Order(order) && 0 < |g.pool| && !g.overrun
    ensures Inv(Step(g, order, rand, marking))
    ensures Measure(Step(g, order, rand, marking)) < Measure(g)
  {
    var pool := RoundPool(g);
    var w := Walk(g.systems, rand, g.k, MaxSteps, 0, None);
    if !(w.0.Branch? && g.next >= SystemTypeCount) {
      SettleKeeps(pool, g.items, g.systems, g.next, w, order, marking);
    }
  }

  /** The loop `while (0 < item_pool.count)`; it ends early when the C
      would read past `system_pool`. */
  function GenLoop(g: Gen, order: seq<nat>, rand: Rand, marking: Marking): (r: Gen)
    requires Inv(g) && Order(order)
    ensures Inv(r) && (r.overrun || r.pool == [])
    decreases Measure(g)
  {
    if |g.pool| == 0 || g.overrun then g
    else
      StepKeeps(g, order, rand, marking);
      GenLoop(Step(g, order, rand, marking), order, rand, marking)
  }

  /** The root: a bootloader holding nothing. */
  const Root: System := ZeroSystem.(kind := Bootloader, item := NoItem)

  /** `system_pool` before the shuffle. */
  function SystemIndices(): seq<nat> {
    seq(SystemTypeCount, i => i)
  }

  lemma ShuffledOrder(rand: Rand, k: nat)
    ensures Order(Shuffled(SystemIndices(), rand, k))
  {
    var s := Shuffled(SystemIndices(), rand, k);
    ShuffleToPermutes(SystemIndices(), SystemTypeCount, rand, k);
    forall i | 0 <= i < |s| ensures s[i] < SystemTypeCount {
      assert s[i] in multiset(SystemIndices());
    }
  }

  /** `generate_map` on the required items `items`: RANSOMWARE joins the
      pool last, `system_pool` is shuffled, then the loop runs from a map
      holding only the root, with no item marked yet. */
  function Generated(items: seq<Item>, rand: Rand, k: nat, marking: Marking): (r: Gen)
    requires Distinct(items) && NoneFree(items) && Positive(items)
    ensures Inv(r) && (r.overrun || r.pool == [])
  {
    var pool := Added(items, Item(Ransomware, 1));
    AddedEffect(items, Item(Ransomware, 1));
    AddedFinds(items, Item(Ransomware, 1));
    ShuffledOrder(rand, k);
    assert InRange([Root]);
    GenLoop(Gen(pool, [], [Root], 0, k + SystemTypeCount, false), Shuffled(SystemIndices(), rand, k), rand, marking)
  }

  // ---------------------------------------------------------------------
  // generate_map.

  /** "Mark item as present" and "Consume item": the pool's first item,
      unless it is RANSOMWARE (or, under `MarkPlaced`, unless it was
      placed), is added once to the required items; then one unit of it
      leaves the pool. */
  method Consume(pool: Inventory, items: Inventory, placed: bool, marking: Marking)
    requires pool.Valid() && items.Valid() && 0 < pool.count && pool != items && pool.items != items.items
    requires Find(items.Contents(), Ransomware).None?
    modifies pool, pool.items, items, items.items
    ensures pool.Valid() && items.Valid()
    ensures pool.Contents() == Removed(old(pool.Contents()), old(pool.Contents())[0].kind, 1)
    ensures items.Contents() == Mark(old(items.Contents()), old(pool.Contents())[0].kind, placed, marking)
  {
    var t := pool.items[0].kind;
    if t != Ransomware && (marking == MarkDrawn || placed) {
      FewCollectibles(items.Contents());
      items.AddItem(Item(t, 1));
    }
    pool.TryRemoveItem(t, 1);
  }

  /** The end of a pass: the branch the walk found, if any, gets a new
      system, and the pool's first item is marked and consumed. */
  method Finish(arena: Map, pool: Inventory, items: Inventory, systemPool: array<nat>, next: nat,
                w: (Stop, nat), marking: Marking, ghost order: seq<nat>)
    returns (next': nat)
    requires arena.Valid() && pool.Valid() && items.Valid() && pool != items && pool.items != items.items
    requires systemPool[..] == order && Order(order) && 0 < pool.count
    requires arena.count == next + 1 && next <= SystemTypeCount && Find(items.Contents(), Ransomware).None?
    requires w.0.Branch? ==> w.0.at < arena.count && arena.InUse()[w.0.at].Neighbor(w.0.direction).None?
    requires w.0.Branch? ==> next < SystemTypeCount
    modifies arena, arena.systems, pool, pool.items, items, items.items
    ensures arena.Valid() && pool.Valid() && items.Valid()
    ensures Gen(pool.Contents(), items.Contents(), arena.InUse(), next', w.1, false)
            == Settle(old(pool.Contents()), old(items.Contents()), old(arena.InUse()), next, w, order, marking)
  {
    var stop := w.0;
    ghost var systems := arena.InUse();
    Place(arena, systemPool, next, stop, pool.items[0].kind, order);
    assert arena.InUse() == Settle(old(pool.Contents()), old(items.Contents()), systems, next, w, order, marking).systems;
    Consume(pool, items, stop.Branch?, marking);
    next' := if stop.Branch? then next + 1 else next;
  }

  /** The branch the walk found, if any, gets a new system of the next type
      of `system_pool`, holding an item of type t. */
  method Place(arena: Map, systemPool: array<nat>, next: nat, stop: Stop, t: ItemType, ghost order: seq<nat>)
    requires arena.Valid() && systemPool[..] == order && Order(order)
    requires stop.Branch? ==> stop.at < arena.count && arena.InUse()[stop.at].Neighbor(stop.direction).None?
    requires stop.Branch? ==> next < SystemTypeCount && arena.count < MapMaxCount
    modifies arena, arena.systems
    ensures arena.Valid()
    ensures arena.InUse() == if stop.Branch?
                             then Link(old(arena.InUse()) + [Branching(order, next, t)], stop.at, stop.direction, old(arena.count))
                             else old(arena.InUse())
  {
    if stop.Branch? {
      assert arena.systems[stop.at] == arena.InUse()[stop.at];
      var b := arena.Attach(stop.at, stop.direction, GeneratedSystems[systemPool[next]], t);
    }
  }

  /** One pass of the loop of `generate_map`. */
  method Round(arena: Map, pool: Inventory, items: Inventory, systemPool: array<nat>, next: nat,
               rand: Rand, k: nat, marking: Marking, ghost order: seq<nat>)
    returns (next': nat, k': nat, overrun: bool)
    requires arena.Valid() && pool.Valid() && items.Valid() && pool != items && pool.items != items.items
    requires systemPool[..] == order && Order(order)
    requires Inv(Gen(pool.Contents(), items.Contents(), arena.InUse(), next, k, false)) && 0 < pool.count
    modifies arena, arena.systems, pool, pool.items, items, items.items
    ensures arena.Valid() && pool.Valid() && items.Valid()
    ensures Gen(pool.Contents(), items.Contents(), arena.InUse(), next', k', overrun)
            == Step(Gen(old(pool.Contents()), old(items.Contents()), old(arena.InUse()), next, k, false), order, rand, marking)
  {
    ghost var g := Gen(pool.Contents(), items.Contents(), arena.InUse(), next, k, false);
    if next >= SystemTypeCount - 1 {
      DropLeftovers(pool);
    }
    assert pool.Contents() == RoundPool(g);
    var stop;
    stop, k' := Roam(arena, rand, k);
    if stop.Branch? && next >= SystemTypeCount {
      next', overrun := next, true;
    } else {
      next' := Finish(arena, pool, items, systemPool, next, (stop, k'), marking, order);
      overrun := false;
    }
  }

  /** The loop of `Generated` starts from a state that keeps `Inv`. */
  lemma GeneratedStart(items: seq<Item>, rand: Rand, k: nat, marking: Marking)
    requires Distinct(items) && NoneFree(items) && Positive(items)
    ensures var g := Gen(Added(items, Item(Ransomware, 1)), [], [Root], 0, k + SystemTypeCount, false);
            && Inv(g) && Order(Shuffled(SystemIndices(), rand, k))
            && Generated(items, rand, k, marking) == GenLoop(g, Shuffled(SystemIndices(), rand, k), rand, marking)
  {
    AddedEffect(items, Item(Ransomware, 1));
    AddedFinds(items, Item(Ransomware, 1));
    ShuffledOrder(rand, k);
    assert InRange([Root]);
  }

  /** The start of `generate_map`: the root, the pool (a copy of the
      required items with RANSOMWARE added last), the cleared required
      items and the shuffled `system_pool`. */
  method Setup(items: Inventory, rand: Rand, k: nat) returns (arena: Map, pool: Inventory, systemPool: array<nat>, k': nat)
    requires items.Valid() && Positive(items.Contents())
    requires Find(items.Contents(), Ransomware).None? ==> items.count < InventoryMaxCount
    modifies items, items.items
    ensures fresh(arena) && fresh(arena.systems) && fresh(pool) && fresh(pool.items) && fresh(systemPool)
    ensures arena.Valid() && arena.InUse() == [Root]
    ensures pool.Valid() && pool.Contents() == Added(old(items.Contents()), Item(Ransomware, 1))
    ensures items.Valid() && items.Contents() == []
    ensures systemPool[..] == Shuffled(SystemIndices(), rand, k) && k' == k + SystemTypeCount
  {
    arena := new Map();
    var root := arena.MakeRoot();
    pool := MakePool(items);
    systemPool, k' := MakeSystemPool(rand, k);
  }

  /** `item_pool = *items`, `inventory_clear(items)` and the RANSOMWARE
      added to the pool. */
  method MakePool(items: Inventory) returns (pool: Inventory)
    requires items.Valid()
    requires Find(items.Contents(), Ransomware).None? ==> items.count < InventoryMaxCount
    modifies items
    ensures fresh(pool) && fresh(pool.items)
    ensures pool.Valid() && pool.Contents() == Added(old(items.Contents()), Item(Ransomware, 1))
    ensures items.Valid() && items.Contents() == []
  {
    pool := new Inventory();
    pool.Assign(items);
    items.Clear();
    pool.AddItem(Item(Ransomware, 1));
  }

  /** `system_pool`, filled with the indices of the system types and
      shuffled. */
  method MakeSystemPool(rand: Rand, k: nat) returns (systemPool: array<nat>, k': nat)
    ensures fresh(systemPool)
    ensures systemPool[..] == Shuffled(SystemIndices(), rand, k) && k' == k + SystemTypeCount
  {
    systemPool := new nat[SystemTypeCount](i => i);
    assert systemPool[..SystemTypeCount] == SystemIndices();
    k' := Shuffle(systemPool, SystemTypeCount, rand, k);
    assert systemPool[..] == systemPool[..SystemTypeCount];
  }

  /** The loop `while (0 < item_pool.count)`. */
  method Lay(arena: Map, pool: Inventory, items: Inventory, systemPool: array<nat>, rand: Rand, k: nat,
             marking: Marking, ghost order: seq<nat>)
    returns (overrun: bool, k': nat)
    requires arena.Valid() && pool.Valid() && items.Valid() && pool != items && pool.items != items.items
    requires systemPool[..] == order && Order(order)
    requires Inv(Gen(pool.Contents(), items.Contents(), arena.InUse(), 0, k, false))
    modifies arena, arena.systems, pool, pool.items, items, items.items
    ensures arena.Valid() && items.Valid()
    ensures var r := GenLoop(Gen(old(pool.Contents()), old(items.Contents()), old(arena.InUse()), 0, k, false), order, rand, marking);
            arena.InUse() == r.systems && items.Contents() == r.items && overrun == r.overrun && k' == r.k
  {
    ghost var goal := GenLoop(Gen(pool.Contents(), items.Contents(), arena.InUse(), 0, k, false), order, rand, marking);
    var next := 0;
    overrun, k' := false, k;
    while 0 < pool.count && !overrun
      invariant arena.Valid() && pool.Valid() && items.Valid()
      invariant Inv(Gen(pool.Contents(), items.Contents(), arena.InUse(), next, k', overrun))
      invariant GenLoop(Gen(pool.Contents(), items.Contents(), arena.InUse(), next, k', overrun), order, rand, marking) == goal
      decreases Measure(Gen(pool.Contents(), items.Contents(), arena.InUse(), next, k', overrun))
    {
      StepKeeps(Gen(pool.Contents(), items.Contents(), arena.InUse(), next, k', overrun), order, rand, marking);
      next, k', overrun := Round(arena, pool, items, systemPool, next, rand, k', marking, order);
    }
  }

  /** `generate_map`, with the marking of drawn items chosen by `marking`
      (`MarkDrawn` is the code as written). */
  method GenerateMap(items: Inventory, rand: Rand, k: nat, marking: Marking) returns (arena: Map, overrun: bool, k': nat)
    requires items.Valid() && Positive(items.Contents())
    requires Find(items.Contents(), Ransomware).None? ==> items.count < InventoryMaxCount
    modifies items, items.items
    ensures fresh(arena) && fresh(arena.systems) && arena.Valid() && items.Valid()
    ensures var r := Generated(old(items.Contents()), rand, k, marking);
            arena.InUse() == r.systems && items.Contents() == r.items && overrun == r.overrun && k' == r.k
  {
    ghost var required := items.Contents();
    var pool, systemPool;
    arena, pool, systemPool, k' := Setup(items, rand, k);
    GeneratedStart(required, rand, k, marking);
    overrun, k' := Lay(arena, pool, items, systemPool, rand, k', marking, systemPool[..]);
  }

  // ---------------------------------------------------------------------
  // What generation guarantees.

  /** How many systems hold an item of type t. */
  function Holding(s: seq<System>, t: ItemType): nat {
    if s == [] then 0 else Holding(s[..|s| - 1], t) + if s[|s| - 1].item == t then 1 else 0
  }

  /** Systems holding the same items hold as many of each type. */
  lemma {:induction false} HoldingSame(a: seq<System>, b: seq<System>, t: ItemType)
    requires |a| == |b| && forall i :: 0 <= i < |a| ==> a[i].item == b[i].item
    ensures Holding(a, t) == Holding(b, t)
    decreases |a|
  {
    if a != [] {
      HoldingSame(a[..|a| - 1], b[..|b| - 1], t);
    }
  }

  /** A settled round adds one system holding the drawn item, if it placed
      it, and a system of every other item only if the walk branched. */
  lemma SettleHolding(pool: seq<Item>, items: seq<Item>, systems: seq<System>, next: nat, w: (Stop, nat),
                      order: seq<nat>, marking: Marking, t: ItemType)
    requires Order(order) && 0 < |pool| && InRange(systems)
    requires w.0.Branch? ==> w.0.at < |systems| && next < SystemTypeCount
    ensures Holding(Settle(pool, items, systems, next, w, order, marking).systems, t)
            == Holding(systems, t) + if w.0.Branch? && t == pool[0].kind then 1 else 0
  {
    if w.0.Branch? {
      var u := systems + [Branching(order, next, pool[0].kind)];
      LinkInRange(systems, w.0.at, w.0.direction, GeneratedSystems[order[next]], pool[0].kind);
      var l := Link(u, w.0.at, w.0.direction, |systems|);
      HoldingSame(l, u, t);
      assert u[..|systems|] == systems;
    }
  }

  /** A settled round places at most the unit it consumes. */
  lemma SettleHoldingBound(pool: seq<Item>, items: seq<Item>, systems: seq<System>, next: nat, w: (Stop, nat),
                           order: seq<nat>, marking: Marking, t: ItemType)
    requires Order(order) && 0 < |pool| && Distinct(pool) && NoneFree(pool) && Positive(pool) && InRange(systems)
    requires w.0.Branch? ==> w.0.at < |systems| && next < SystemTypeCount
    ensures var r := Settle(pool, items, systems, next, w, order, marking);
            Holding(r.systems, t) + Quantity(r.pool, t) <= Holding(systems, t) + Quantity(pool, t)
  {
    TakeOne(pool);
    SettleHolding(pool, items, systems, next, w, order, marking, t);
  }

  /** A settled round marks at most the unit it consumes. */
  lemma SettleItemsBound(pool: seq<Item>, items: seq<Item>, systems: seq<System>, next: nat, w: (Stop, nat),
                         order: seq<nat>, marking: Marking, t: ItemType)
    requires Order(order) && 0 < |pool| && Distinct(pool) && NoneFree(pool) && Positive(pool)
    requires Distinct(items) && NoneFree(items)
    requires w.0.Branch? ==> w.0.at < |systems| && next < SystemTypeCount
    ensures var r := Settle(pool, items, systems, next, w, order, marking);
            Quantity(r.items, t) + Quantity(r.pool, t) <= Quantity(items, t) + Quantity(pool, t)
  {
    TakeOne(pool);
    MarkBound(items, pool[0].kind, w.0.Branch?, marking, t);
  }

  /** A mark adds at most one unit, of the drawn type. */
  lemma MarkBound(items: seq<Item>, t0: ItemType, placed: bool, marking: Marking, t: ItemType)
    requires Distinct(items) && NoneFree(items)
    ensures Quantity(Mark(items, t0, placed, marking), t) <= Quantity(items, t) + if t == t0 then 1 else 0
  {
    AddedEffect(items, Item(t0, 1));
  }

  /** A round places at most the unit it consumes: for every type, the
      systems holding it and the units of it still in the pool do not grow. */
  lemma StepHolding(g: Gen, order: seq<nat>, rand: Rand, marking: Marking, t: ItemType)
    requires Inv(g) && Order(order) && 0 < |g.pool| && !g.overrun
    ensures var r := Step(g, order, rand, marking);
            Holding(r.systems, t) + Quantity(r.pool, t) <= Holding(g.systems, t) + Quantity(g.pool, t)
  {
    var w := Walk(g.systems, rand, g.k, MaxSteps, 0, None);
    if !(w.0.Branch? && g.next >= SystemTypeCount) {
      SettleHoldingBound(RoundPool(g), g.items, g.systems, g.next, w, order, marking, t);
    }
  }

  /** A round marks at most the unit it consumes. */
  lemma StepItems(g: Gen, order: seq<nat>, rand: Rand, marking: Marking, t: ItemType)
    requires Inv(g) && Order(order) && 0 < |g.pool| && !g.overrun
    ensures var r := Step(g, order, rand, marking);
            Quantity(r.items, t) + Quantity(r.pool, t) <= Quantity(g.items, t) + Quantity(g.pool, t)
  {
    var w := Walk(g.systems, rand, g.k, MaxSteps, 0, None);
    if !(w.0.Branch? && g.next >= SystemTypeCount) {
      SettleItemsBound(RoundPool(g), g.items, g.systems, g.next, w, order, marking, t);
    }
  }

  /** Marking only placed items keeps the marks equal to the systems
      holding each collectible type. */
  lemma StepMarksPlaced(g: Gen, order: seq<nat>, rand: Rand, t: ItemType)
    requires Inv(g) && Order(order) && 0 < |g.pool| && !g.overrun
    requires t != Ransomware && t != NoItem && Quantity(g.items, t) == Holding(g.systems, t)
    ensures var r := Step(g, order, rand, MarkPlaced);
            Quantity(r.items, t) == Holding(r.systems, t)
  {
    var w := Walk(g.systems, rand, g.k, MaxSteps, 0, None);
    if !(w.0.Branch? && g.next >= SystemTypeCount) {
      SettleMarksPlaced(RoundPool(g), g.items, g.systems, g.next, w, order, t);
    }
  }

  /** A settled round marks the drawn item exactly when it places it. */
  lemma SettleMarksPlaced(pool: seq<Item>, items: seq<Item>, systems: seq<System>, next: nat, w: (Stop, nat),
                          order: seq<nat>, t: ItemType)
    requires Order(order) && 0 < |pool| && NoneFree(pool) && InRange(systems)
    requires Distinct(items) && NoneFree(items)
    requires w.0.Branch? ==> w.0.at < |systems| && next < SystemTypeCount
    requires t != Ransomware && t != NoItem && Quantity(items, t) == Holding(systems, t)
    ensures var r := Settle(pool, items, systems, next, w, order, MarkPlaced);
            Quantity(r.items, t) == Holding(r.systems, t)
  {
    SettleHolding(pool, items, systems, next, w, order, MarkPlaced, t);
    AddedEffect(items, Item(pool[0].kind, 1));
  }

  /** While the systems used and the units left stay within 14, the pool is
      never cut down and no round overruns, and marking every drawn item
      marks each unit consumed. */
  lemma StepUncut(g: Gen, order: seq<nat>, rand: Rand, marking: Marking, t: ItemType)
    requires Inv(g) && Order(order) && 0 < |g.pool| && !g.overrun
    requires g.next + Total(g.pool) <= SystemTypeCount - 1
    ensures var r := Step(g, order, rand, marking);
            && !r.overrun && r.next + Total(r.pool) <= SystemTypeCount - 1
            && (marking == MarkDrawn && t != Ransomware ==>
                  Quantity(r.items, t) + Quantity(r.pool, t) == Quantity(g.items, t) + Quantity(g.pool, t))
  {
    TotalPositive(g.pool);
    var w := Walk(g.systems, rand, g.k, MaxSteps, 0, None);
    SettleUncut(g.pool, g.items, g.systems, g.next, w, order, marking, t);
  }

  /** A settled round on an uncut pool consumes one unit and uses at most
      one more system type; marking every drawn item marks that unit. */
  lemma SettleUncut(pool: seq<Item>, items: seq<Item>, systems: seq<System>, next: nat, w: (Stop, nat),
                    order: seq<nat>, marking: Marking, t: ItemType)
    requires Order(order) && 0 < |pool| && Distinct(pool) && NoneFree(pool) && Positive(pool)
    requires Distinct(items) && NoneFree(items)
    requires next + Total(pool) <= SystemTypeCount - 1
    requires w.0.Branch? ==> w.0.at < |systems| && next < SystemTypeCount
    ensures var r := Settle(pool, items, systems, next, w, order, marking);
            && !r.overrun && r.next + Total(r.pool) <= SystemTypeCount - 1
            && (marking == MarkDrawn && t != Ransomware ==>
                  Quantity(r.items, t) + Quantity(r.pool, t) == Quantity(items, t) + Quantity(pool, t))
  {
    TakeOne(pool);
    if marking == MarkDrawn && t != Ransomware {
      SettleMarksDrawn(pool, items, systems, next, w, order, t);
    }
  }

  /** Marking every drawn item marks the unit a settled round consumes. */
  lemma SettleMarksDrawn(pool: seq<Item>, items: seq<Item>, systems: seq<System>, next: nat, w: (Stop, nat),
                         order: seq<nat>, t: ItemType)
    requires Order(order) && 0 < |pool| && Distinct(pool) && NoneFree(pool) && Positive(pool)
    requires Distinct(items) && NoneFree(items) && t != Ransomware
    requires w.0.Branch? ==> w.0.at < |systems| && next < SystemTypeCount
    ensures var r := Settle(pool, items, systems, next, w, order, MarkDrawn);
            Quantity(r.items, t) + Quantity(r.pool, t) == Quantity(items, t) + Quantity(pool, t)
  {
    var t0 := pool[0].kind;
    TakeOne(pool);
    if t0 != Ransomware {
      AddedEffect(items, Item(t0, 1));
    }
  }

  lemma {:induction false} GenLoopHolding(g: Gen, order: seq<nat>, rand: Rand, marking: Marking, t: ItemType)
    requires Inv(g) && Order(order)
    ensures var r := GenLoop(g, order, rand, marking);
            Holding(r.systems, t) + Quantity(r.pool, t) <= Holding(g.systems, t) + Quantity(g.pool, t)
    decreases Measure(g)
  {
    if 0 < |g.pool| && !g.overrun {
      StepKeeps(g, order, rand, marking);
      StepHolding(g, order, rand, marking, t);
      GenLoopHolding(Step(g, order, rand, marking), order, rand, marking, t);
    }
  }

  lemma {:induction false} GenLoopItems(g: Gen, order: seq<nat>, rand: Rand, marking: Marking, t: ItemType)
    requires Inv(g) && Order(order)
    ensures var r := GenLoop(g, order, rand, marking);
            Quantity(r.items, t) + Quantity(r.pool, t) <= Quantity(g.items, t) + Quantity(g.pool, t)
    decreases Measure(g)
  {
    if 0 < |g.pool| && !g.overrun {
      StepKeeps(g, order, rand, marking);
      StepItems(g, order, rand, marking, t);
      GenLoopItems(Step(g, order, rand, marking), order, rand, marking, t);
    }
  }

  lemma {:induction false} GenLoopMarksPlaced(g: Gen, order: seq<nat>, rand: Rand, t: ItemType)
    requires Inv(g) && Order(order)
    requires t != Ransomware && t != NoItem && Quantity(g.items, t) == Holding(g.systems, t)
    ensures var r := GenLoop(g, order, rand, MarkPlaced);
            Quantity(r.items, t) == Holding(r.systems, t)
    decreases Measure(g)
  {
    if 0 < |g.pool| && !g.overrun {
      StepKeeps(g, order, rand, MarkPlaced);
      StepMarksPlaced(g, order, rand, t);
      GenLoopMarksPlaced(Step(g, order, rand, MarkPlaced), order, rand, t);
    }
  }

  lemma {:induction false} GenLoopUncut(g: Gen, order: seq<nat>, rand: Rand, marking: Marking, t: ItemType)
    requires Inv(g) && Order(order) && !g.overrun
    requires g.next + Total(g.pool) <= SystemTypeCount - 1
    ensures var r := GenLoop(g, order, rand, marking);
            && !r.overrun && r.pool == []
            && (marking == MarkDrawn && t != Ransomware ==> Quantity(r.items, t) == Quantity(g.items, t) + Quantity(g.pool, t))
    decreases Measure(g)
  {
    if 0 < |g.pool| {
      StepKeeps(g, order, rand, marking);
      StepUncut(g, order, rand, marking, t);
      GenLoopUncut(Step(g, order, rand, marking), order, rand, marking, t);
    }
  }

  /** What `generate_map` does with required items without RANSOMWARE: no
      type is on more systems, or marked present more often, than was
      required of it; RANSOMWARE is on at most one system; and the map uses
      at most one system per generated system type besides the root. */
  lemma GeneratedBounds(items: seq<Item>, rand: Rand, k: nat, marking: Marking)
    requires Distinct(items) && NoneFree(items) && Positive(items) && Find(items, Ransomware).None?
    ensures var r := Generated(items, rand, k, marking);
            && |r.systems| <= SystemTypeCount + 1
            && Holding(r.systems, Ransomware) <= 1
            && forall t :: t != NoItem && t != Ransomware ==>
                 Holding(r.systems, t) <= Quantity(items, t) && Quantity(r.items, t) <= Quantity(items, t)
  {
    GeneratedStart(items, rand, k, marking);
    var g := Gen(Added(items, Item(Ransomware, 1)), [], [Root], 0, k + SystemTypeCount, false);
    var order := Shuffled(SystemIndices(), rand, k);
    AddedEffect(items, Item(Ransomware, 1));
    assert [Root][..0] == [];
    GenLoopHolding(g, order, rand, marking, Ransomware);
    forall t | t != NoItem && t != Ransomware
      ensures var r := GenLoop(g, order, rand, marking);
              Holding(r.systems, t) <= Quantity(items, t) && Quantity(r.items, t) <= Quantity(items, t)
    {
      GenLoopHolding(g, order, rand, marking, t);
      GenLoopItems(g, order, rand, marking, t);
    }
  }

  /** With the corrected marking, the required items left after
      generation are exactly the collectibles the map holds. */
  lemma PlacedItemsMarked(items: seq<Item>, rand: Rand, k: nat)
    requires Distinct(items) && NoneFree(items) && Positive(items)
    ensures var r := Generated(items, rand, k, MarkPlaced);
            forall t :: t != Ransomware && t != NoItem ==> Quantity(r.items, t) == Holding(r.systems, t)
  {
    GeneratedStart(items, rand, k, MarkPlaced);
    var g := Gen(Added(items, Item(Ransomware, 1)), [], [Root], 0, k + SystemTypeCount, false);
    var order := Shuffled(SystemIndices(), rand, k);
    assert [Root][..0] == [];
    forall t | t != Ransomware && t != NoItem
      ensures Quantity(GenLoop(g, order, rand, MarkPlaced).items, t) == Holding(GenLoop(g, order, rand, MarkPlaced).systems, t)
    {
      GenLoopMarksPlaced(g, order, rand, t);
    }
  }

  /** A pool of at most 14 units (the required items of `run_game` have 7
      to 11, RANSOMWARE adds one) is placed without being cut down and
      without overrunning `system_pool`; marking every drawn item then
      marks every required unit. */
  lemma GeneratedUncut(items: seq<Item>, rand: Rand, k: nat, marking: Marking)
    requires Distinct(items) && NoneFree(items) && Positive(items) && Total(items) <= SystemTypeCount - 2
    ensures var r := Generated(items, rand, k, marking);
            && !r.overrun && r.pool == []
            && (marking == MarkDrawn ==> forall t :: t != Ransomware ==> Quantity(r.items, t) == Quantity(items, t))
  {
    GeneratedStart(items, rand, k, marking);
    var g := Gen(Added(items, Item(Ransomware, 1)), [], [Root], 0, k + SystemTypeCount, false);
    var order := Shuffled(SystemIndices(), rand, k);
    AddedEffect(items, Item(Ransomware, 1));
    GenLoopUncut(g, order, rand, marking, Ransomware);
    forall t | t != Ransomware
      ensures marking == MarkDrawn ==> Quantity(GenLoop(g, order, rand, marking).items, t) == Quantity(items, t)
    {
      GenLoopUncut(g, order, rand, marking, t);
    }
  }

  // ---------------------------------------------------------------------
  // Walks on particular maps.

  /** A `rand()` that always returns 0. */
  function Zero(j: nat): nat {
    0
  }

  /** A system without neighbours offers nowhere to move and every
      direction to branch in. */
  lemma {:induction false} Isolated(s: System, previous: Option<nat>, ds: seq<Direction>)
    requires forall d :: s.Neighbor(d).None?
    ensures Onward(s, previous, ds) == [] && Free(s, ds) == ds
    decreases |ds|
  {
    if ds != [] {
      Isolated(s, previous, ds[..|ds| - 1]);
      assert ds[..|ds| - 1] + [ds[|ds| - 1]] == ds;
    }
  }

  /** Every draw below `MOVE_CHANCE` asks to move, and a lone root has
      nowhere to move: the walk takes all its steps and attaches nothing. */
  lemma {:induction false} IdleWalk(k: nat, n: nat, previous: Option<nat>)
    ensures Walk([Root], Zero, k, n, 0, previous) == (Exhausted, k + n)
    decreases n
  {
    if n > 0 {
      Isolated(Root, previous, AllDirections);
      IdleWalk(k + 1, n - 1, previous);
    }
  }

  /** A walk from a lone root attaches below it at the first draw that is
      not a move, in the direction the next draw picks. */
  lemma LoneRootBranches(rand: Rand, k: nat, n: nat)
    requires 0 < n && MoveChance <= rand(k) % 100
    ensures Walk([Root], rand, k, n, 0, None) == (Branch(0, AllDirections[rand(k + 1) % 4]), k + 2)
  {
    Isolated(Root, None, AllDirections);
  }

  lemma {:induction false} GenLoopIdle(g: Gen, order: seq<nat>, marking: Marking)
    requires Inv(g) && Order(order) && g.systems == [Root]
    ensures GenLoop(g, order, Zero, marking).systems == [Root]
    decreases Measure(g)
  {
    if 0 < |g.pool| && !g.overrun {
      IdleWalk(g.k, MaxSteps, None);
      StepKeeps(g, order, Zero, marking);
      GenLoopIdle(Step(g, order, Zero, marking), order, marking);
    }
  }

  /** As written, an item whose walk runs out of steps is still marked
      present: when every `rand()` returns 0 no walk ever attaches a
      system, yet every required unit is marked, though the map holds
      nothing but the root. */
  lemma DrawnItemsMarked(items: seq<Item>, k: nat)
    requires Distinct(items) && NoneFree(items) && Positive(items) && Total(items) <= SystemTypeCount - 2
    ensures var r := Generated(items, Zero, k, MarkDrawn);
            && r.systems == [Root]
            && forall t :: t != Ransomware && t != NoItem ==> Holding(r.systems, t) == 0 && Quantity(r.items, t) == Quantity(items, t)
  {
    GeneratedStart(items, Zero, k, MarkDrawn);
    var g := Gen(Added(items, Item(Ransomware, 1)), [], [Root], 0, k + SystemTypeCount, false);
    GenLoopIdle(g, Shuffled(SystemIndices(), Zero, k), MarkDrawn);
    GeneratedUncut(items, Zero, k, MarkDrawn);
    assert [Root][..0] == [];
  }

  /** The pool is consumed by swap-removal, so RANSOMWARE, appended last,
      is not generated last: in any round before the last system type whose
      first entry is a single unit and whose pool holds RANSOMWARE last among
      at least three entries, that unit's removal moves RANSOMWARE to the
      front, so the next round draws it while the other entries still wait. */
  lemma RansomwareDrawnEarly(g: Gen, order: seq<nat>, rand: Rand, marking: Marking)
    requires Inv(g) && Order(order) && !g.overrun && g.next < SystemTypeCount - 1
    requires |g.pool| >= 3 && g.pool[|g.pool| - 1] == Item(Ransomware, 1) && g.pool[0].quantity == 1
    ensures var r := Step(g, order, rand, marking);
            && !r.overrun
            && r.pool == [Item(Ransomware, 1)] + g.pool[1..|g.pool| - 1]
            && |r.pool| >= 2 && r.pool[0].kind == Ransomware
            && forall i :: 1 <= i < |r.pool| ==> r.pool[i].kind != Ransomware
  {
    var p := g.pool;
    QuantityAt(p, 0);
    RemovedShape(p, p[0].kind, 1, 0);
    var r := Removed(p, p[0].kind, 1);
    assert r == SwapRemove(p, 0);
    assert r == [Item(Ransomware, 1)] + p[1..|p| - 1];
  }
}
