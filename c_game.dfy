/** The C revision's `run_game`: required items are drawn, the map is
    generated around them, the deadline is fixed from the number of required
    item types, and the player wanders the map from the root. Each turn
    offers the neighbours present (in the order up, down, left, right), TAKE
    when the system holds an item, then SCAN, INVENTORY and EXIT. Moving
    follows the chosen neighbour; TAKE, SCAN and INVENTORY are not written
    yet and stop the program at an assertion; EXIT ends the game. The clock
    is read as the parameter `now` and the player's input is a string. */
module CGame {
  import opened Kinds
  import opened Text
  import opened CInventory
  import opened CSelector
  import opened CMap
  import opened CGenerator
  import opened CMapGenerator
  import PyMap

  /** The option character of a direction. */
  function Letter(d: Direction): char {
    match d
    case Up => 'u'
    case Down => 'd'
    case Left => 'l'
    case Right => 'r'
  }

  /** The direction a choice moves in, if it is a move. */
  function DirectionOf(c: char): Option<Direction> {
    if c == 'u' then Some(Up)
    else if c == 'd' then Some(Down)
    else if c == 'l' then Some(Left)
    else if c == 'r' then Some(Right)
    else None
  }

  /** The move letters and the directions are in one-to-one correspondence. */
  lemma LetterRoundTrip(d: Direction, c: char)
    ensures DirectionOf(Letter(d)) == Some(d)
    ensures DirectionOf(c) == Some(d) <==> c == Letter(d)
  {
  }

  /** The move options for the directions `ds` of system s, in order: one
      letter per direction in which s has a neighbour. */
  function DirectionMenu(s: System, ds: seq<Direction>): (r: seq<char>)
    ensures |r| <= |ds|
    ensures forall d :: Letter(d) in r <==> d in ds && s.Neighbor(d).Some?
    ensures forall c :: c in r ==> DirectionOf(c).Some?
  {
    if ds == [] then []
    else
      var p := DirectionMenu(s, ds[..|ds| - 1]);
      var d := ds[|ds| - 1];
      assert forall e :: e in ds <==> e in ds[..|ds| - 1] || e == d;
      if s.Neighbor(d).Some? then p + [Letter(d)] else p
  }

  /** The menu `run_game` builds for the current system. */
  function MenuOf(s: System): seq<char> {
    DirectionMenu(s, AllDirections) + (if s.item != NoItem then ['t'] else []) + ['s', 'i', 'e']
  }

  /** The menu offers a move exactly towards the neighbours present, TAKE
      exactly when the system holds an item, and always SCAN, INVENTORY and
      EXIT; it has three to eight lower-case options. */
  lemma MenuSpec(s: System)
    ensures var m := MenuOf(s);
            && 3 <= |m| <= 8
            && (forall d :: Letter(d) in m <==> s.Neighbor(d).Some?)
            && ('t' in m <==> s.item != NoItem)
            && 's' in m && 'i' in m && 'e' in m
            && forall c :: c in m ==> DirectionOf(c).Some? || c == 't' || c == 's' || c == 'i' || c == 'e'
  {
    var m := MenuOf(s);
    var dm := DirectionMenu(s, AllDirections);
    assert forall d :: d in AllDirections;
    assert forall c :: c in m ==> c in dm || c == 't' || c == 's' || c == 'i' || c == 'e';
    assert forall c :: c in dm ==> c != 't' && c != 's' && c != 'i' && c != 'e';
  }

  /** How the game ends: by EXIT, at an unwritten action's assertion, or at
      the end of the input; each in the system it happened in. */
  datatype Ending = Exited(room: nat) | Aborted(choice: char, room: nat) | InputEnded(room: nat)

  /** The game loop from system `room` of the map s on the input left. */
  function Wander(s: seq<System>, room: nat, input: string): (r: Ending)
    requires InRange(s) && room < |s|
    ensures r.room < |s|
    decreases |input|
  {
    var menu := MenuOf(s[room]);
    MenuSpec(s[room]);
    ChooseSpec(menu, input);
    match Choose(menu, input)
    case Exit => InputEnded(room)
    case Chosen(c, rest) =>
      if c == 'e' then Exited(room)
      else if c == 't' || c == 's' || c == 'i' then Aborted(c, room)
      else
        var d := DirectionOf(c).value;
        LetterRoundTrip(d, c);
        Wander(s, s[room].Neighbor(d).value, rest)
  }

  /** A line "e" ends the game where the player is. */
  lemma {:induction false} ExitAtOnce(s: seq<System>, room: nat, rest: string)
    requires InRange(s) && room < |s|
    ensures Wander(s, room, ['e', '\n'] + rest) == Exited(room)
  {
    MenuSpec(s[room]);
    ChooseLine(MenuOf(s[room]), 'e', rest);
  }

  /** A line naming a direction with a neighbour moves there. */
  lemma {:induction false} MoveFollows(s: seq<System>, room: nat, d: Direction, rest: string)
    requires InRange(s) && room < |s| && s[room].Neighbor(d).Some?
    ensures Wander(s, room, [Letter(d), '\n'] + rest) == Wander(s, s[room].Neighbor(d).value, rest)
  {
    MenuMove(s[room], d);
    ChooseLine(MenuOf(s[room]), Letter(d), rest);
    MoveTaken(s, room, [Letter(d), '\n'] + rest, d);
  }

  /** A line naming a direction without a neighbour is not an option: it is
      skipped and the player stays. */
  lemma {:induction false} MoveUnoffered(s: seq<System>, room: nat, d: Direction, rest: string)
    requires InRange(s) && room < |s| && s[room].Neighbor(d).None?
    ensures Wander(s, room, [Letter(d), '\n'] + rest) == Wander(s, room, rest)
  {
    MenuMove(s[room], d);
    ChooseRejects(MenuOf(s[room]), Letter(d), rest);
  }

  /** On a generated map, moving in a direction and then in the opposite one
      returns to the same system. */
  lemma {:induction false} MoveBack(s: seq<System>, parent: seq<nat>, via: seq<Direction>, room: nat, d: Direction, rest: string)
    requires PyMap.IsTree(Views(s), parent, via) && room < |s| && s[room].Neighbor(d).Some?
    ensures InRange(s)
    ensures Wander(s, room, [Letter(d), '\n', Letter(Opposite(d)), '\n'] + rest) == Wander(s, room, rest)
  {
    TreeInRange(s, parent, via);
    PyMap.TreeIsReciprocal(Views(s), parent, via);
    var b := s[room].Neighbor(d).value;
    assert Views(s)[room].Neighbor(d) == s[room].Neighbor(d);
    assert Views(s)[b].Neighbor(Opposite(d)) == s[b].Neighbor(Opposite(d));
    assert [Letter(d), '\n', Letter(Opposite(d)), '\n'] + rest == [Letter(d), '\n'] + ([Letter(Opposite(d)), '\n'] + rest);
    MoveFollows(s, room, d, [Letter(Opposite(d)), '\n'] + rest);
    MoveFollows(s, b, Opposite(d), rest);
  }

  /** TAKE is offered only where there is an item: there it stops the
      program; elsewhere the line is skipped. */
  lemma {:induction false} TakeAborts(s: seq<System>, room: nat, rest: string)
    requires InRange(s) && room < |s|
    ensures s[room].item != NoItem ==> Wander(s, room, ['t', '\n'] + rest) == Aborted('t', room)
    ensures s[room].item == NoItem ==> Wander(s, room, ['t', '\n'] + rest) == Wander(s, room, rest)
  {
    MenuSpec(s[room]);
    if s[room].item != NoItem {
      ChooseLine(MenuOf(s[room]), 't', rest);
    } else {
      ChooseRejects(MenuOf(s[room]), 't', rest);
    }
  }

  /** SCAN and INVENTORY are always offered and always stop the program. */
  lemma {:induction false} ScanAborts(s: seq<System>, room: nat, c: char, rest: string)
    requires InRange(s) && room < |s| && (c == 's' || c == 'i')
    ensures Wander(s, room, [c, '\n'] + rest) == Aborted(c, room)
  {
    MenuSpec(s[room]);
    ChooseLine(MenuOf(s[room]), c, rest);
  }

  /** With no input left the game ends where the player is. */
  lemma {:induction false} EndsWithoutInput(s: seq<System>, room: nat)
    requires InRange(s) && room < |s|
    ensures Wander(s, room, []) == InputEnded(room)
  {
    MenuSpec(s[room]);
  }

  // ---------------------------------------------------------------------
  // run_game.

  /** The required items: the draws k and k + 1 pick the fragment and
      vulnerability counts, the next seven shuffle the inventory. */
  function Required(rand: Rand, k: nat): seq<Item> {
    Shuffled(RequiredList(1 + rand(k) % 3, 1 + rand(k + 1) % 3), rand, k + 2)
  }

  lemma RequiredValid(rand: Rand, k: nat)
    ensures var s := Required(rand, k);
            && |s| == 7 && Distinct(s) && NoneFree(s) && Positive(s) && Total(s) <= 11
            && Find(s, Ransomware).None?
            && forall t :: t != NoItem && t != Ransomware ==> Quantity(s, t) > 0
  {
    RequiredShape(1 + rand(k) % 3, 1 + rand(k + 1) % 3, rand, k + 2);
    var s := Required(rand, k);
    assert Quantity(s, Ransomware) == 0;
  }

  /** The map generated around the required items, after `generate_required_items`
      has used nine draws. */
  function GameMap(rand: Rand, k: nat, marking: Marking): (r: Gen)
    ensures Inv(r) && !r.overrun && r.pool == []
  {
    RequiredValid(rand, k);
    GeneratedUncut(Required(rand, k), rand, k + 9, marking);
    Generated(Required(rand, k), rand, k + 9, marking)
  }

  /** What `run_game` computes: the deadline, `SECONDS_PER_SYSTEM` seconds
      per required item type left after generation, and how the game ends. */
  function Game(rand: Rand, k: nat, now: int, input: string, marking: Marking): (r: (int, Ending))
  {
    var g := GameMap(rand, k, marking);
    (now + |g.items| * SecondsPerSystem, Wander(g.systems, 0, input))
  }

  /** The deadline lies between now and 56 seconds ahead (seven required
      types at most), and the game ends inside the map. */
  lemma GameBounds(rand: Rand, k: nat, now: int, input: string, marking: Marking)
    ensures var r := Game(rand, k, now, input, marking);
            && now <= r.0 <= now + 7 * SecondsPerSystem
            && r.1.room < |GameMap(rand, k, marking).systems|
  {
    var g := GameMap(rand, k, marking);
    FewCollectibles(g.items);
  }

  /** As written, every required type is still counted after generation,
      placed or not: the deadline is always 56 seconds away. */
  lemma DeadlineAsWritten(rand: Rand, k: nat, now: int, input: string)
    ensures Game(rand, k, now, input, MarkDrawn).0 == now + 7 * SecondsPerSystem
  {
    DrawnKeepsRequired(rand, k);
    AllCollectibles(GameMap(rand, k, MarkDrawn).items);
  }

  /** As written, every collectible type is still required after
      generation. */
  lemma DrawnKeepsRequired(rand: Rand, k: nat)
    ensures forall t :: t != NoItem && t != Ransomware ==> Quantity(GameMap(rand, k, MarkDrawn).items, t) > 0
  {
    var required := Required(rand, k);
    RequiredValid(rand, k);
    GeneratedUncut(required, rand, k + 9, MarkDrawn);
    assert GameMap(rand, k, MarkDrawn) == Generated(required, rand, k + 9, MarkDrawn);
  }

  /** With the corrected marking, the deadline counts the required types
      the map actually holds. */
  lemma DeadlineCountsPlaced(rand: Rand, k: nat, now: int, input: string)
    ensures var g := GameMap(rand, k, MarkPlaced);
            && Game(rand, k, now, input, MarkPlaced).0 == now + |g.items| * SecondsPerSystem
            && forall t :: t != Ransomware && t != NoItem ==> Quantity(g.items, t) == Holding(g.systems, t)
  {
    RequiredValid(rand, k);
    PlacedItemsMarked(Required(rand, k), rand, k + 9);
  }

  /** The seven collectible types. */
  ghost const Collectibles: set<ItemType> :=
    {FullMemoryReadAccess, FullMemoryWriteAccess, PointerDereferencer, OsOverrideCapability,
     RansomwareCodeFragment, Vulnerability, Sandboxer}

  lemma CollectiblesCount()
    ensures |Collectibles| == 7
  {
    var a := {FullMemoryReadAccess, FullMemoryWriteAccess};
    assert |a| == 2;
    var b := a + {PointerDereferencer};
    assert |b| == 3;
    var c := b + {OsOverrideCapability};
    assert |c| == 4;
    var e := c + {RansomwareCodeFragment};
    assert |e| == 5;
    var f := e + {Vulnerability};
    assert |f| == 6;
    assert Collectibles == f + {Sandboxer};
  }

  /** An inventory of distinct types, without `ITEM_NONE` or RANSOMWARE,
      that holds every collectible type has exactly seven entries. */
  lemma AllCollectibles(s: seq<Item>)
    requires Distinct(s) && NoneFree(s) && Find(s, Ransomware).None?
    requires forall t :: t != NoItem && t != Ransomware ==> Quantity(s, t) > 0
    ensures |s| == 7
  {
    FewCollectibles(s);
    var kinds := set i | 0 <= i < |s| :: s[i].kind;
    forall t | t in Collectibles ensures t in kinds {
      assert Quantity(s, t) > 0;
      var i := Find(s, t).value;
      assert s[i].kind in kinds;
    }
    DistinctKinds(s);
    CollectiblesCount();
    SubsetSize(Collectibles, kinds);
  }

  /** The menu of `run_game` for system: the selector is cleared, a move
      letter is added for each neighbour present, TAKE when there is an
      item, then SCAN, INVENTORY and EXIT. */
  method Offer(menu: Selector, system: System)
    requires menu.Valid()
    modifies menu, menu.options
    ensures menu.Valid() && menu.Options() == MenuOf(system)
  {
    menu.Clear();
    OfferMoves(menu, system);
    if system.item != NoItem {
      menu.AddOption('t');
    }
    menu.AddOption('s');
    menu.AddOption('i');
    menu.AddOption('e');
  }

  /** The loop over the directions: a letter for each neighbour present. */
  method OfferMoves(menu: Selector, system: System)
    requires menu.Valid() && menu.Options() == []
    modifies menu, menu.options
    ensures menu.Valid() && menu.Options() == DirectionMenu(system, AllDirections) && menu.count <= 4
  {
    for direction := 0 to 4
      invariant menu.Valid() && menu.Options() == DirectionMenu(system, AllDirections[..direction])
      invariant menu.count <= direction
    {
      var d := AllDirections[direction];
      assert AllDirections[..direction + 1][..direction] == AllDirections[..direction];
      if system.Neighbor(d).Some? {
        menu.AddOption(Letter(d));
      }
    }
    assert AllDirections[..4] == AllDirections;
  }

  /** A choice made in system `room` is a menu letter, taken from input
      actually consumed. */
  lemma {:induction false} ChoiceMade(s: seq<System>, room: nat, input: string)
    requires InRange(s) && room < |s| && Choose(MenuOf(s[room]), input).Chosen?
    ensures var a := Choose(MenuOf(s[room]), input);
            && (a.choice == 'u' || a.choice == 'd' || a.choice == 'l' || a.choice == 'r'
                || a.choice == 't' || a.choice == 's' || a.choice == 'i' || a.choice == 'e')
            && |a.rest| < |input|
  {
    MenuSpec(s[room]);
    ChooseSpec(MenuOf(s[room]), input);
  }

  /** A move chosen in system `room` leads to an existing neighbour, where
      the game goes on. */
  lemma {:induction false} MoveTaken(s: seq<System>, room: nat, input: string, d: Direction)
    requires InRange(s) && room < |s| && Choose(MenuOf(s[room]), input).Chosen?
    requires Choose(MenuOf(s[room]), input).choice == Letter(d)
    ensures s[room].Neighbor(d).Some? && s[room].Neighbor(d).value < |s|
    ensures Wander(s, room, input) == Wander(s, s[room].Neighbor(d).value, Choose(MenuOf(s[room]), input).rest)
  {
    MenuMove(s[room], d);
    ChosenOption(MenuOf(s[room]), input);
    LetterRoundTrip(d, Letter(d));
  }

  /** A choice from a non-empty menu is one of its options. */
  lemma ChosenOption(options: seq<char>, input: string)
    requires |options| > 0 && Choose(options, input).Chosen?
    ensures Choose(options, input).choice in options
  {
    ChooseSpec(options, input);
  }

  /** A move is offered exactly towards a neighbour present. */
  lemma MenuMove(s: System, d: Direction)
    ensures |MenuOf(s)| > 0
    ensures Letter(d) in MenuOf(s) <==> s.Neighbor(d).Some?
  {
    assert d in AllDirections;
    var dm := DirectionMenu(s, AllDirections);
    var tail := (if s.item != NoItem then ['t'] else []) + ['s', 'i', 'e'];
    assert MenuOf(s) == dm + tail;
    assert Letter(d) !in tail;
  }

  /** The game loop on a generated map, from the root. */
  method Explore(arena: Map, input: string) returns (r: Ending)
    requires arena.Valid()
    ensures InRange(arena.InUse()) && r == Wander(arena.InUse(), 0, input)
  {
    ghost var s := arena.InUse();
    TreeInRange(s, arena.parent, arena.via);
    var menu := new Selector();
    var current: nat := 0;
    var unread := input;
    while true
      invariant menu.Valid() && fresh(menu.options) && current < arena.count
      invariant Wander(s, current, unread) == Wander(s, 0, input)
      decreases |unread|
    {
      var done, ending, next, rest := Turn(arena, menu, current, unread);
      if done {
        r := ending;
        break;
      }
      current, unread := next, rest;
    }
  }

  /** One pass of the game loop in system `current`: the menu is offered
      and the choice read; the game ends, or goes on in the system moved
      to with the input left. */
  method Turn(arena: Map, menu: Selector, current: nat, unread: string)
    returns (done: bool, r: Ending, next: nat, rest: string)
    requires arena.Valid() && InRange(arena.InUse()) && menu.Valid() && current < arena.count
    modifies menu, menu.options
    ensures menu.Valid()
    ensures done ==> r == Wander(arena.InUse(), current, unread)
    ensures !done ==> next < arena.count && |rest| < |unread|
                      && Wander(arena.InUse(), next, rest) == Wander(arena.InUse(), current, unread)
  {
    ghost var s := arena.InUse();
    var system := arena.systems[current];
    assert system == s[current];
    Offer(menu, system);
    var answer := menu.GetSelection(unread);
    done, r, next, rest := true, InputEnded(current), current, unread;
    if answer.Exit? {
      return;
    }
    ChoiceMade(s, current, unread);
    var choice := answer.choice;
    match choice {
      case 'u' =>
        MoveTaken(s, current, unread, Up);
        done, next := false, system.up.value;
      case 'd' =>
        MoveTaken(s, current, unread, Down);
        done, next := false, system.down.value;
      case 'l' =>
        MoveTaken(s, current, unread, Left);
        done, next := false, system.left.value;
      case 'r' =>
        MoveTaken(s, current, unread, Right);
        done, next := false, system.right.value;
      case 't' => r := Aborted(choice, current);
      case 's' => r := Aborted(choice, current);
      case 'i' => r := Aborted(choice, current);
      case 'e' => r := Exited(current);
      case _ => assert false;
    }
    rest := answer.rest;
  }

  /** `run_game` as far as the C goes: the required items, the map, the
      deadline from the clock reading `now`, and the game loop on `input`;
      `marking` chooses how `generate_map` marks the required items. */
  method RunGame(rand: Rand, k: nat, now: int, input: string, marking: Marking) returns (loseTime: int, r: Ending)
    ensures (loseTime, r) == Game(rand, k, now, input, marking)
  {
    var required := new Inventory();
    var k1 := GenerateRequiredItems(required, rand, k);
    RequiredFromEmpty(1 + rand(k) % 3, 1 + rand(k + 1) % 3);
    RequiredValid(rand, k);
    ghost var g := GameMap(rand, k, marking);
    assert required.Contents() == Required(rand, k) && k1 == k + 9;
    var arena, overrun, k2 := GenerateMap(required, rand, k1, marking);
    assert arena.InUse() == g.systems && required.Contents() == g.items;
    assert required.count == |g.items|;
    loseTime := now + required.count * SecondsPerSystem;
    r := Explore(arena, input);
    assert r == Wander(g.systems, 0, input);
    assert loseTime == now + |g.items| * SecondsPerSystem;
    assert Game(rand, k, now, input, marking).0 == loseTime;
    assert Game(rand, k, now, input, marking).1 == r;
  }
}
