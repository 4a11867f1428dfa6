/** The Python `System` (room) objects and the links between them. Rooms
    refer to each other through object references; here they live in one
    arena and a neighbour is the arena index of the other room. */
module PyMap {
  import opened Kinds

  datatype System = System(
    kind: SystemType,
    item: ItemType,
    scan: ScanResult,
    up: Option<nat>,
    down: Option<nat>,
    left: Option<nat>,
    right: Option<nat>)
  {
    /** `self[direction]`. */
    function Neighbor(d: Direction): Option<nat> {
      match d
      case Up => up
      case Down => down
      case Left => left
      case Right => right
    }

    /** `self[direction] = room`. */
    function WithNeighbor(d: Direction, r: Option<nat>): (s: System)
      ensures s.Neighbor(d) == r
      ensures forall e :: e != d ==> s.Neighbor(e) == Neighbor(e)
      ensures s.kind == kind && s.item == item && s.scan == scan
    {
      match d
      case Up => this.(up := r)
      case Down => this.(down := r)
      case Left => this.(left := r)
      case Right => this.(right := r)
    }
  }

  /** `System(type, item)`: no neighbours, not scanned yet. */
  function NewSystem(kind: SystemType, item: ItemType): (s: System)
    ensures s.kind == kind && s.item == item && s.scan == NotScanned
    ensures forall d :: s.Neighbor(d).None?
  {
    System(kind, item, NotScanned, None, None, None, None)
  }

  /** `__iter__`: the four (direction, neighbour) pairs in declaration
      order. */
  function Adjacent(s: System): (r: seq<(Direction, Option<nat>)>)
    ensures |r| == 4
    ensures forall k :: 0 <= k < 4 ==> r[k] == (AllDirections[k], s.Neighbor(AllDirections[k]))
  {
    [(Up, s.up), (Down, s.down), (Left, s.left), (Right, s.right)]
  }

  /** `a.setAdjacent(d, b)` on the arena: first `a[d] = b`, then
      `b[opposite(d)] = a` (so `a == b` is handled as Python does). */
  function Link(s: seq<System>, a: nat, d: Direction, b: nat): seq<System>
    requires a < |s| && b < |s|
  {
    var s1 := s[a := s[a].WithNeighbor(d, Some(b))];
    s1[b := s1[b].WithNeighbor(Opposite(d), Some(a))]
  }

  /** Linking writes exactly the two slots `a[d]` and `b[opposite(d)]`. */
  lemma LinkEffect(s: seq<System>, a: nat, d: Direction, b: nat)
    requires a < |s| && b < |s|
    ensures |Link(s, a, d, b)| == |s|
    ensures Link(s, a, d, b)[a].Neighbor(d) == Some(b)
    ensures Link(s, a, d, b)[b].Neighbor(Opposite(d)) == Some(a)
    ensures forall i, e :: 0 <= i < |s| && (i != a || e != d) && (i != b || e != Opposite(d)) ==>
              Link(s, a, d, b)[i].Neighbor(e) == s[i].Neighbor(e)
    ensures forall i :: 0 <= i < |s| ==>
              var r := Link(s, a, d, b)[i]; r.kind == s[i].kind && r.item == s[i].item && r.scan == s[i].scan
  {
  }

  /** What a scan classifies an item slot as. */
  function Classify(item: ItemType): (r: ScanResult)
    ensures r == Suspicous <==> item == Ransomware
    ensures r == Abnormal <==> item != Ransomware && item != NoItem
    ensures r == Empty <==> item == NoItem
  {
    if item == Ransomware then Suspicous
    else if item != NoItem then Abnormal
    else Empty
  }

  /** `tryScan(canFail)`, with `random.random() <= SCAN_FAIL_CHANCE` given
      as `failDraw`. */
  function ScanOutcome(item: ItemType, canFail: bool, failDraw: bool): (r: ScanResult)
    ensures r != NotScanned
    ensures r == Error <==> canFail && failDraw
    ensures !canFail ==> r == Classify(item)
  {
    if canFail && failDraw then Error else Classify(item)
  }

  function ScanLabel(r: ScanResult): string
    requires r != NotScanned
  {
    match r
    case Error => "[ERROR]"
    case Suspicous => "Abnormal. Suspicous activity"
    case Abnormal => "Abnormal"
    case Empty => "Empty"
  }

  /** `tryAppendScanResult`: the message is returned unchanged exactly when
      the system was never scanned; otherwise the labelled result is
      appended. */
  function TryAppendScanResult(s: System, message: string): (r: string)
    ensures r == message <==> s.scan == NotScanned
    ensures s.scan != NotScanned ==> r == message + " (scan: " + ScanLabel(s.scan) + ")"
  {
    if s.scan == NotScanned then message
    else
      var r := message + " (scan: " + ScanLabel(s.scan) + ")";
      assert |r| > |message|;
      r
  }

  // ---------------------------------------------------------------------
  // Shape invariants of the arena.

  /** Links are reciprocal: `a[d] == b` implies `b[opposite(d)] == a`. */
  ghost predicate Reciprocal(s: seq<System>) {
    forall i, d :: 0 <= i < |s| && s[i].Neighbor(d).Some? ==>
      s[i].Neighbor(d).value < |s| && s[s[i].Neighbor(d).value].Neighbor(Opposite(d)) == Some(i)
  }

  /** Room j hangs below room i in direction d, or room i hangs below j. */
  ghost predicate TreeEdge(parent: seq<nat>, via: seq<Direction>, i: nat, d: Direction, j: nat)
    requires i < |parent| && i < |via|
  {
    && j < |parent| && j < |via|
    && ((1 <= j && parent[j] == i && via[j] == d) || (1 <= i && parent[i] == j && d == Opposite(via[i])))
  }

  /** The map is a tree rooted at room 0: every other room i was attached in
      direction `via[i]` below an older room `parent[i]`, and those are the
      only links there are. */
  ghost predicate IsTree(s: seq<System>, parent: seq<nat>, via: seq<Direction>) {
    && |s| >= 1 && |parent| == |s| && |via| == |s|
    && (forall i :: 1 <= i < |s| ==> parent[i] < i)
    && (forall i {:trigger via[i]} :: 1 <= i < |s| ==>
          s[parent[i]].Neighbor(via[i]) == Some(i) && s[i].Neighbor(Opposite(via[i])) == Some(parent[i]))
    && (forall i, d :: 0 <= i < |s| && s[i].Neighbor(d).Some? ==>
          TreeEdge(parent, via, i, d, s[i].Neighbor(d).value))
  }

  lemma TreeIsReciprocal(s: seq<System>, parent: seq<nat>, via: seq<Direction>)
    requires IsTree(s, parent, via)
    ensures Reciprocal(s)
  {
    forall i, d | 0 <= i < |s| && s[i].Neighbor(d).Some?
      ensures s[i].Neighbor(d).value < |s| && s[s[i].Neighbor(d).value].Neighbor(Opposite(d)) == Some(i)
    {
      var j := s[i].Neighbor(d).value;
      assert TreeEdge(parent, via, i, d, j);
      if !(1 <= j && parent[j] == i && via[j] == d) {
        OppositeInvolution(via[i]);
      }
    }
  }

  /** Attaching a fresh room to a free slot of an existing room keeps the map
      a tree, the new room hanging below the existing one. */
  lemma AttachKeepsTree(s: seq<System>, parent: seq<nat>, via: seq<Direction>,
                        a: nat, d: Direction, kind: SystemType, item: ItemType)
    requires IsTree(s, parent, via) && a < |s| && s[a].Neighbor(d).None?
    ensures IsTree(Link(s + [NewSystem(kind, item)], a, d, |s|), parent + [a], via + [d])
  {
    var n := |s|;
    var t := s + [NewSystem(kind, item)];
    var r := Link(t, a, d, n);
    var p := parent + [a];
    var v := via + [d];
    LinkEffect(t, a, d, n);
    assert forall i, e :: 0 <= i < n && (i != a || e != d) ==> r[i].Neighbor(e) == s[i].Neighbor(e);
    assert forall e :: e != Opposite(d) ==> r[n].Neighbor(e).None?;
    forall i | 1 <= i < |r|
      ensures r[p[i]].Neighbor(v[i]) == Some(i) && r[i].Neighbor(Opposite(v[i])) == Some(p[i])
    {
      if i < n {
        assert s[parent[i]].Neighbor(via[i]).Some?;
        assert s[i].Neighbor(Opposite(via[i])).Some?;
      }
    }
    forall i, e | 0 <= i < |r| && r[i].Neighbor(e).Some?
      ensures TreeEdge(p, v, i, e, r[i].Neighbor(e).value)
    {
      if i == n {
        assert e == Opposite(d);
      } else if i == a && e == d {
      } else {
        assert TreeEdge(parent, via, i, e, s[i].Neighbor(e).value);
      }
    }
  }

  /** Same length, same links, same room kinds. */
  ghost predicate SameShape(s: seq<System>, s': seq<System>) {
    && |s'| == |s|
    && forall i :: 0 <= i < |s| ==> s'[i].kind == s[i].kind && forall d :: s'[i].Neighbor(d) == s[i].Neighbor(d)
  }

  lemma ShapeKeepsTree(s: seq<System>, s': seq<System>, parent: seq<nat>, via: seq<Direction>)
    requires IsTree(s, parent, via) && SameShape(s, s')
    ensures IsTree(s', parent, via)
  {
  }

  /** Following a path of directions from room i. */
  function Follow(s: seq<System>, i: nat, path: seq<Direction>): Option<nat>
    decreases |path|
  {
    if i >= |s| then None
    else if path == [] then Some(i)
    else match s[i].Neighbor(path[0])
      case None => None
      case Some(j) => Follow(s, j, path[1..])
  }

  lemma {:induction false} FollowSnoc(s: seq<System>, i: nat, path: seq<Direction>, d: Direction, k: nat)
    requires Follow(s, i, path) == Some(k) && k < |s| && s[k].Neighbor(d).Some?
    ensures Follow(s, i, path + [d]) == Follow(s, s[k].Neighbor(d).value, [])
    decreases |path|
  {
    if path == [] {
      assert path + [d] == [d];
    } else {
      var j := s[i].Neighbor(path[0]).value;
      assert (path + [d])[1..] == path[1..] + [d];
      FollowSnoc(s, j, path[1..], d, k);
    }
  }

  /** The directions from the root down to room i. */
  ghost function PathTo(parent: seq<nat>, via: seq<Direction>, i: nat): seq<Direction>
    requires i < |parent| && |via| == |parent|
    requires forall k :: 1 <= k < |parent| ==> parent[k] < k
    decreases i
  {
    if i == 0 then [] else PathTo(parent, via, parent[i]) + [via[i]]
  }

  /** Every room of the map can be reached from the start room. */
  lemma {:induction false} EveryRoomReachable(s: seq<System>, parent: seq<nat>, via: seq<Direction>, i: nat)
    requires IsTree(s, parent, via) && i < |s|
    ensures Follow(s, 0, PathTo(parent, via, i)) == Some(i)
    decreases i
  {
    if i > 0 {
      EveryRoomReachable(s, parent, via, parent[i]);
      FollowSnoc(s, 0, PathTo(parent, via, parent[i]), via[i], parent[i]);
    }
  }

  // ---------------------------------------------------------------------

  /** All rooms created so far, room 0 being the start room. The ghost
      `parent`/`via` record how each room was attached. */
  class Network {
    var systems: seq<System>
    ghost var parent: seq<nat>
    ghost var via: seq<Direction>

    ghost predicate Valid()
      reads this
    {
      IsTree(systems, parent, via)
    }

    /** `System(SystemType.BOOTLOADER)` as the start room. */
    constructor (start: SystemType)
      ensures Valid()
      ensures systems == [NewSystem(start, NoItem)]
    {
      systems := [NewSystem(start, NoItem)];
      parent := [0];
      via := [Up];
    }

    /** `System.setAdjacent`: `a[d] = b` and `b[opposite(d)] = a`; every other
        slot of every room keeps its value. */
    method SetAdjacent(a: nat, d: Direction, b: nat)
      requires a < |systems| && b < |systems|
      modifies this
      ensures systems == Link(old(systems), a, d, b)
      ensures systems[a].Neighbor(d) == Some(b) && systems[b].Neighbor(Opposite(d)) == Some(a)
      ensures forall i, e :: 0 <= i < |systems| && (i != a || e != d) && (i != b || e != Opposite(d)) ==>
                systems[i].Neighbor(e) == old(systems)[i].Neighbor(e)
      ensures parent == old(parent) && via == old(via)
    {
      LinkEffect(systems, a, d, b);
      systems := systems[a := systems[a].WithNeighbor(d, Some(b))];
      systems := systems[b := systems[b].WithNeighbor(Opposite(d), Some(a))];
    }

    /** `traverser.setAdjacent(direction, System(kind, item))`: a fresh room
        is created and linked into the free slot `d` of room `a`. */
    method Attach(a: nat, d: Direction, kind: SystemType, item: ItemType) returns (b: nat)
      requires Valid() && a < |systems| && systems[a].Neighbor(d).None?
      modifies this
      ensures Valid()
      ensures b == |old(systems)| && |systems| == b + 1
      ensures systems == Link(old(systems) + [NewSystem(kind, item)], a, d, b)
      ensures parent == old(parent) + [a] && via == old(via) + [d]
      ensures systems[b].kind == kind && systems[b].item == item
      ensures forall i :: 0 <= i < b ==> systems[i].kind == old(systems)[i].kind && systems[i].item == old(systems)[i].item
    {
      AttachKeepsTree(systems, parent, via, a, d, kind, item);
      b := |systems|;
      systems := systems + [NewSystem(kind, item)];
      SetAdjacent(a, d, b);
      LinkEffect(old(systems) + [NewSystem(kind, item)], a, d, b);
      parent := parent + [a];
      via := via + [d];
    }

    /** `system.tryScan(canFail)`: stores the new result and returns it. */
    method TryScan(i: nat, canFail: bool, failDraw: bool) returns (r: ScanResult)
      requires Valid() && i < |systems|
      modifies this
      ensures Valid() && parent == old(parent) && via == old(via)
      ensures r == ScanOutcome(old(systems)[i].item, canFail, failDraw)
      ensures systems == old(systems)[i := old(systems)[i].(scan := r)]
    {
      r := ScanOutcome(systems[i].item, canFail, failDraw);
      var s' := systems[i := systems[i].(scan := r)];
      ShapeKeepsTree(systems, s', parent, via);
      systems := s';
    }

    /** `currentSystem.item = ItemType.NONE`. */
    method ClearItem(i: nat)
      requires Valid() && i < |systems|
      modifies this
      ensures Valid() && parent == old(parent) && via == old(via)
      ensures systems == old(systems)[i := old(systems)[i].(item := NoItem)]
    {
      var s' := systems[i := systems[i].(item := NoItem)];
      ShapeKeepsTree(systems, s', parent, via);
      systems := s';
    }
  }
}
