/** The C revision's `System` records and the `Map` arena that holds them:
    a zero-initialised array of 50 systems of which the first `count` are in
    use, system 0 being the root. A neighbour pointer is the arena index of
    the other system. The shape of the map is stated through the main
    revision's tree predicate, over a view of each C system as a room that
    was never scanned. */
module CMap {
  import opened Kinds
  import PyMap

  /** `MAP_MAX_COUNT`. */
  const MapMaxCount: nat := 50

  /** `System`: its type, the item it holds and `adjacent[DIRECTION_COUNT]`. */
  datatype System = System(
    kind: SystemType,
    item: ItemType,
    up: Option<nat>,
    down: Option<nat>,
    left: Option<nat>,
    right: Option<nat>)
  {
    /** `adjacent[d]`. */
    function Neighbor(d: Direction): Option<nat> {
      match d
      case Up => up
      case Down => down
      case Left => left
      case Right => right
    }

    /** `adjacent[d] = r`. */
    function WithNeighbor(d: Direction, r: Option<nat>): (s: System)
      ensures s.Neighbor(d) == r
      ensures forall e :: e != d ==> s.Neighbor(e) == Neighbor(e)
      ensures s.kind == kind && s.item == item
    {
      match d
      case Up => this.(up := r)
      case Down => this.(down := r)
      case Left => this.(left := r)
      case Right => this.(right := r)
    }
  }

  /** A slot as `calloc` leaves it: type 0 (`SYSTEM_REGISTRY`),
      `ITEM_NONE`, no neighbours. */
  const ZeroSystem: System := System(Registry, NoItem, None, None, None, None)

  /** The system seen as a room of the main revision. */
  function View(s: System): (v: PyMap.System)
    ensures v.kind == s.kind && v.item == s.item && v.scan == NotScanned
    ensures forall d :: v.Neighbor(d) == s.Neighbor(d)
  {
    PyMap.System(s.kind, s.item, NotScanned, s.up, s.down, s.left, s.right)
  }

  function Views(s: seq<System>): (v: seq<PyMap.System>)
    ensures |v| == |s| && forall i :: 0 <= i < |s| ==> v[i] == View(s[i])
  {
    seq(|s|, i requires 0 <= i < |s| => View(s[i]))
  }

  /** `a->adjacent[d] = b; b->adjacent[direction_opposite(d)] = a`. */
  function Link(s: seq<System>, a: nat, d: Direction, b: nat): seq<System>
    requires a < |s| && b < |s|
  {
    var s1 := s[a := s[a].WithNeighbor(d, Some(b))];
    s1[b := s1[b].WithNeighbor(Opposite(d), Some(a))]
  }

  /** Linking C systems is linking the rooms they are seen as, and a fresh
      slot with a type and an item is seen as a fresh room. */
  lemma ViewsLink(s: seq<System>, a: nat, d: Direction, b: nat)
    requires a < |s| && b < |s|
    ensures Views(Link(s, a, d, b)) == PyMap.Link(Views(s), a, d, b)
  {
    var l, r := Views(Link(s, a, d, b)), PyMap.Link(Views(s), a, d, b);
    assert |l| == |r|;
    forall i | 0 <= i < |l| ensures l[i] == r[i] {
      assert l[i].Neighbor(Up) == r[i].Neighbor(Up);
      assert l[i].Neighbor(Down) == r[i].Neighbor(Down);
      assert l[i].Neighbor(Left) == r[i].Neighbor(Left);
      assert l[i].Neighbor(Right) == r[i].Neighbor(Right);
    }
  }

  lemma ViewsAppend(s: seq<System>, kind: SystemType, item: ItemType)
    ensures Views(s + [ZeroSystem.(kind := kind, item := item)]) == Views(s) + [PyMap.NewSystem(kind, item)]
  {
  }

  /** Every neighbour index names a system of the arena. */
  ghost predicate InRange(s: seq<System>) {
    forall i, d :: 0 <= i < |s| && s[i].Neighbor(d).Some? ==> s[i].Neighbor(d).value < |s|
  }

  /** The systems of a tree only point at each other. */
  lemma TreeInRange(s: seq<System>, parent: seq<nat>, via: seq<Direction>)
    requires PyMap.IsTree(Views(s), parent, via)
    ensures InRange(s)
  {
    PyMap.TreeIsReciprocal(Views(s), parent, via);
    forall i, d | 0 <= i < |s| && s[i].Neighbor(d).Some? ensures s[i].Neighbor(d).value < |s| {
      assert Views(s)[i].Neighbor(d) == s[i].Neighbor(d);
    }
  }

  /** Appending a system and linking it to an existing one keeps every
      neighbour index inside the arena, and changes no type or item. */
  lemma LinkInRange(s: seq<System>, a: nat, d: Direction, kind: SystemType, item: ItemType)
    requires InRange(s) && a < |s|
    ensures var t := Link(s + [ZeroSystem.(kind := kind, item := item)], a, d, |s|);
            && |t| == |s| + 1 && InRange(t)
            && t[|s|].kind == kind && t[|s|].item == item
            && forall i :: 0 <= i < |s| ==> t[i].kind == s[i].kind && t[i].item == s[i].item
  {
    var u := s + [ZeroSystem.(kind := kind, item := item)];
    var t := Link(u, a, d, |s|);
    forall i, e | 0 <= i < |t| && t[i].Neighbor(e).Some? ensures t[i].Neighbor(e).value < |t| {
      if (i == a && e == d) || (i == |s| && e == Opposite(d)) {
      } else {
        assert t[i].Neighbor(e) == u[i].Neighbor(e);
      }
    }
  }

  class Map {
    const systems: array<System>
    var count: nat
    /** How each system was attached (see `PyMap.IsTree`). */
    ghost var parent: seq<nat>
    ghost var via: seq<Direction>

    /** The arena: slots past `count` are still zero. */
    ghost predicate Allocated()
      reads this, systems
    {
      && systems.Length == MapMaxCount && count <= MapMaxCount
      && forall i :: count <= i < MapMaxCount ==> systems[i] == ZeroSystem
    }

    /** The systems in use. */
    function InUse(): seq<System>
      reads this, systems
      requires count <= systems.Length
    {
      systems[..count]
    }

    /** A generated map: a tree rooted at system 0, the bootloader, which
        holds no item. */
    ghost predicate Valid()
      reads this, systems
    {
      && Allocated() && 1 <= count
      && PyMap.IsTree(Views(InUse()), parent, via)
      && systems[0].kind == Bootloader && systems[0].item == NoItem
    }

    /** `calloc(1, sizeof(Map))`. */
    constructor ()
      ensures Allocated() && count == 0 && fresh(systems)
    {
      systems := new System[MapMaxCount](_ => ZeroSystem);
      count := 0;
    }

    /** `map_alloc_system`: the next zero slot; the C asserts one is left. */
    method AllocSystem() returns (s: nat)
      requires Allocated() && count < MapMaxCount
      modifies this
      ensures Allocated() && s == old(count) && count == s + 1 && systems[s] == ZeroSystem
      ensures InUse() == old(InUse()) + [ZeroSystem]
      ensures parent == old(parent) && via == old(via)
    {
      s := count;
      count := count + 1;
    }

    /** The root of `generate_map`: the first slot, made the bootloader
        with no item. */
    method MakeRoot() returns (root: nat)
      requires Allocated() && count == 0
      modifies this, systems
      ensures Valid() && root == 0 && count == 1
      ensures InUse() == [ZeroSystem.(kind := Bootloader, item := NoItem)]
    {
      root := AllocSystem();
      systems[root] := systems[root].(kind := Bootloader, item := NoItem);
      parent := [0];
      via := [Up];
      assert InUse() == [ZeroSystem.(kind := Bootloader, item := NoItem)];
    }

    /** The branch step of `generate_map`: a new slot takes the given type
        and item and is linked below system a in its free direction d. */
    method Attach(a: nat, d: Direction, kind: SystemType, item: ItemType) returns (b: nat)
      requires Valid() && a < count && systems[a].Neighbor(d).None? && count < MapMaxCount
      modifies this, systems
      ensures Valid() && b == old(count) && count == b + 1
      ensures InUse() == Link(old(InUse()) + [ZeroSystem.(kind := kind, item := item)], a, d, b)
      ensures parent == old(parent) + [a] && via == old(via) + [d]
      ensures systems[b].kind == kind && systems[b].item == item
      ensures forall i :: 0 <= i < b ==> systems[i].kind == old(systems[i].kind) && systems[i].item == old(systems[i].item)
    {
      ghost var s := InUse();
      PyMap.AttachKeepsTree(Views(s), parent, via, a, d, kind, item);
      b := Graft(a, d, kind, item);
      ghost var t := s + [ZeroSystem.(kind := kind, item := item)];
      ViewsAppend(s, kind, item);
      ViewsLink(t, a, d, b);
      parent := parent + [a];
      via := via + [d];
    }

    /** The slot taken and the two links written. */
    method Graft(a: nat, d: Direction, kind: SystemType, item: ItemType) returns (b: nat)
      requires Allocated() && a < count && count < MapMaxCount
      modifies this, systems
      ensures Allocated() && b == old(count) && count == b + 1
      ensures InUse() == Link(old(InUse()) + [ZeroSystem.(kind := kind, item := item)], a, d, b)
      ensures parent == old(parent) && via == old(via)
      ensures systems[b].kind == kind && systems[b].item == item
      ensures forall i :: 0 <= i < b ==> systems[i].kind == old(systems[i].kind) && systems[i].item == old(systems[i].item)
    {
      ghost var s := InUse();
      b := AllocSystem();
      systems[b] := systems[b].(kind := kind, item := item);
      ghost var t := s + [ZeroSystem.(kind := kind, item := item)];
      assert InUse() == t;
      systems[a] := systems[a].WithNeighbor(d, Some(b));
      systems[b] := systems[b].WithNeighbor(Opposite(d), Some(a));
      assert InUse() == Link(t, a, d, b);
    }
  }
}
