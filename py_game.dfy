/** The main revision's `runGame`: the exploration loop. Every iteration reads
    the clock, loses once the deadline is reached, starts the battle when the
    current room holds the RANSOMWARE, and otherwise scans the current room,
    offers a menu and acts on the choice. The clock, the typed lines and the
    scan-failure draws are explicit input streams; a stream that runs out
    ends the game with `InputEnded`. */
module PyGame {
  import opened Kinds
  import opened PyInventory
  import opened PyMap
  import opened PySelector
  import opened PyBattle
  import opened PyGenerator
  import opened Text

  /** What the loop keeps between iterations: the current room, the map,
      the collected items (`inventory`) and the items still missing
      (`requiredItems`). */
  datatype Explorer = Explorer(room: nat, systems: seq<System>, collected: seq<Entry>, required: seq<Entry>)

  /** How `runGame` ends. `TakeCrashed` is the `KeyError` that
      `tryRemoveItem` would raise when taking an item that is not required. */
  datatype GameEnd = TimedOut | Fought(battle: Outcome) | Quit | TakeCrashed | InputEnded

  /** `time_ns() + countItems() * SECONDS_PER_SYSTEM * SECONDS_TO_NANOSECONDS`. */
  function Deadline(now: int, required: seq<Entry>): int {
    now + SumCounts(required) * SecondsPerSystem * SecondsToNanoseconds
  }

  /** Every missing unit buys eight seconds; with positive counts the
      deadline is in the future exactly when something is still missing. */
  lemma DeadlineAhead(now: int, required: seq<Entry>)
    requires Positive(required)
    ensures Deadline(now, required) - now == 8_000_000_000 * SumCounts(required)
    ensures Deadline(now, required) > now <==> required != []
  {
    SumPositive(required);
  }

  lemma {:induction false} SumPositive(s: seq<Entry>)
    requires Positive(s)
    ensures SumCounts(s) >= |s|
    decreases |s|
  {
    if s != [] {
      SumPositive(s[..|s| - 1]);
    }
  }

  function Slot(offered: bool, c: char): (r: seq<char>)
    ensures forall x :: x in r <==> offered && x == c
  {
    if offered then [c] else []
  }

  /** The option letters of the exploration menu, in the order they are
      added: a move for each linked neighbour, TAKE when the room holds an
      item, then SCAN, INVENTORY and EXIT. */
  function MenuOptions(s: System): seq<char> {
    Slot(s.up.Some?, 'u') + Slot(s.down.Some?, 'd') + Slot(s.left.Some?, 'l') + Slot(s.right.Some?, 'r')
    + Slot(s.item != NoItem, 't') + Slot(true, 's') + Slot(true, 'i') + Slot(true, 'e')
  }

  /** The letters the exploration menu of room `s` accepts. */
  predicate Offered(s: System, c: char) {
    || (c == 'u' && s.up.Some?) || (c == 'd' && s.down.Some?)
    || (c == 'l' && s.left.Some?) || (c == 'r' && s.right.Some?)
    || (c == 't' && s.item != NoItem)
    || c == 's' || c == 'i' || c == 'e'
  }

  /** A move letter is offered exactly when that neighbour is linked, TAKE
      exactly when the room holds an item, and SCAN, INVENTORY and EXIT
      always; nothing else is. */
  lemma MenuOffers(s: System, c: char)
    ensures c in MenuOptions(s) <==> Offered(s, c)
  {
    var u, d, l, r := Slot(s.up.Some?, 'u'), Slot(s.down.Some?, 'd'), Slot(s.left.Some?, 'l'), Slot(s.right.Some?, 'r');
    var t, sc, i, e := Slot(s.item != NoItem, 't'), Slot(true, 's'), Slot(true, 'i'), Slot(true, 'e');
    assert c in MenuOptions(s) <==> c in u || c in d || c in l || c in r || c in t || c in sc || c in i || c in e;
  }

  /** The rooms `for _, system in currentSystem` visits, in iteration order. */
  function Targets(s: System): (r: seq<Option<nat>>)
    ensures |r| == 4 && forall k :: 0 <= k < 4 ==> r[k] == s.Neighbor(AllDirections[k])
  {
    [s.up, s.down, s.left, s.right]
  }

  /** The number of linked slots among `targets`, i.e. the scans made. */
  function Linked(targets: seq<Option<nat>>): nat {
    if targets == [] then 0 else (if targets[0].Some? then 1 else 0) + Linked(targets[1..])
  }

  predicate InArena(targets: seq<Option<nat>>, n: nat) {
    forall k :: 0 <= k < |targets| && targets[k].Some? ==> targets[k].value < n
  }

  /** SCAN: `system.tryScan()` (which may fail) on every linked neighbour in
      turn, each scan taking one failure draw. Only the scan slots of the
      linked rooms change, each to the failure marker or to what the room's
      item is; `None` means the draws ran out. */
  function ScanNeighbours(s: seq<System>, targets: seq<Option<nat>>, draws: seq<bool>): (r: Option<(seq<System>, seq<bool>)>)
    requires InArena(targets, |s|)
    ensures r.Some? <==> Linked(targets) <= |draws|
    ensures r.Some? ==> |r.value.0| == |s| && r.value.1 == draws[Linked(targets)..]
    ensures r.Some? ==> forall i :: 0 <= i < |s| ==> r.value.0[i] == s[i].(scan := r.value.0[i].scan)
    ensures r.Some? ==> SameShape(s, r.value.0) && Items(r.value.0) == Items(s)
    ensures r.Some? ==> forall i :: 0 <= i < |s| && Some(i) !in targets ==> r.value.0[i].scan == s[i].scan
    ensures r.Some? ==> forall i :: 0 <= i < |s| && Some(i) in targets ==>
              r.value.0[i].scan == Error || r.value.0[i].scan == Classify(s[i].item)
    decreases |targets|
  {
    if targets == [] then Some((s, draws))
    else
      assert InArena(targets[1..], |s|);
      assert forall i :: Some(i) in targets[1..] ==> Some(i) in targets;
      if targets[0].None? then ScanNeighbours(s, targets[1..], draws)
      else if draws == [] then None
      else
        var j := targets[0].value;
        var s' := s[j := s[j].(scan := ScanOutcome(s[j].item, true, draws[0]))];
        var r := ScanNeighbours(s', targets[1..], draws[1..]);
        assert r.Some? ==> r.value.1 == draws[Linked(targets)..];
        r
  }

  /** Every link leads to a room of the map. */
  predicate InRange(s: seq<System>) {
    forall i, d :: 0 <= i < |s| && s[i].Neighbor(d).Some? ==> s[i].Neighbor(d).value < |s|
  }

  /** The current room is a room of the map, and every link stays inside
      the map. */
  ghost predicate Fits(st: Explorer) {
    st.room < |st.systems| && InRange(st.systems)
  }

  lemma ShapeKeepsRange(s: seq<System>, s': seq<System>)
    requires InRange(s) && SameShape(s, s')
    ensures InRange(s')
  {
  }

  lemma TreeInRange(s: seq<System>, parent: seq<nat>, via: seq<Direction>)
    requires IsTree(s, parent, via)
    ensures InRange(s)
  {
    TreeIsReciprocal(s, parent, via);
  }

  /** The direction a move letter names. */
  function MoveOf(c: char): Option<Direction> {
    match c
    case 'u' => Some(Up)
    case 'd' => Some(Down)
    case 'l' => Some(Left)
    case 'r' => Some(Right)
    case _ => None
  }

  /** A move letter is accepted only next to a linked room. */
  lemma MoveOffered(here: System, c: char)
    requires c in MenuOptions(here) && MoveOf(c).Some?
    ensures here.Neighbor(MoveOf(c).value).Some?
  {
    assert Offered(here, c) by { MenuOffers(here, c); }
  }

  /** One acted-on choice: the next state and the draws left, or the end. */
  datatype Step = Next(st: Explorer, draws: seq<bool>) | Stop(end: GameEnd)

  /** The `if choice == ...` chain. The choice is the whole sanitised line,
      and a string equals a one-letter string only when it is that letter
      alone, so only one-letter choices act. */
  function Act(st: Explorer, choice: string, draws: seq<bool>): (r: Step)
    requires Fits(st) && Allowed(MenuOptions(st.systems[st.room]), choice)
    ensures r.Next? ==> Fits(r.st)
  {
    var here := st.systems[st.room];
    if |choice| != 1 then Next(st, draws)
    else
      var c := choice[0];
      match MoveOf(c)
      case Some(d) =>
        MoveOffered(here, c);
        Next(st.(room := here.Neighbor(d).value), draws)
      case None =>
        if c == 't' then
          if RemovalOf(st.required, here.item, 1) == KeyError then Stop(TakeCrashed)
          else Next(Taken(st), draws)
        else if c == 's' then
          match ScanNeighbours(st.systems, Targets(here), draws)
          case None => Stop(InputEnded)
          case Some((s', rest)) =>
            ShapeKeepsRange(st.systems, s');
            Next(st.(systems := s'), rest)
        else if c == 'e' then Stop(Quit)
        else Next(st, draws)
  }

  /** TAKE: `inventory.addItem(item)`, `requiredItems.tryRemoveItem(item)`
      and `currentSystem.item = ItemType.NONE`. */
  function Taken(st: Explorer): (r: Explorer)
    requires Fits(st)
    ensures Fits(r)
  {
    var t := st.systems[st.room].item;
    var s' := st.systems[st.room := st.systems[st.room].(item := NoItem)];
    ShapeKeepsRange(st.systems, s');
    Explorer(st.room, s', AddTo(st.collected, t, 1), RemoveFrom(st.required, t, 1))
  }

  /** `currentSystem.tryScan(canFail=False)` at the top of an iteration. */
  function Observe(st: Explorer): (r: Explorer)
    requires Fits(st)
    ensures Fits(r) && r.room == st.room && r.collected == st.collected && r.required == st.required
    ensures |r.systems| == |st.systems| && r.systems[st.room].scan == Classify(st.systems[st.room].item)
    ensures forall i :: 0 <= i < |st.systems| && i != st.room ==> r.systems[i] == st.systems[i]
    ensures r.systems[st.room] == st.systems[st.room].(scan := r.systems[st.room].scan)
  {
    var here := st.systems[st.room];
    var s' := st.systems[st.room := here.(scan := ScanOutcome(here.item, false, false))];
    ShapeKeepsRange(st.systems, s');
    st.(systems := s')
  }

  /** The whole loop from state `st`. Each iteration reads one clock value;
      the battle reads the clock and the lines from where the loop stopped. */
  function Play(st: Explorer, loseTime: int, clock: seq<int>, lines: seq<string>, draws: seq<bool>): GameEnd
    requires Fits(st)
    decreases |clock|
  {
    if clock == [] then InputEnded
    else if clock[0] >= loseTime then TimedOut
    else if st.systems[st.room].item == Ransomware then
      Fought(Encounter(st.required, loseTime, clock[1..], lines))
    else
      var st1 := Observe(st);
      match Select(MenuOptions(st1.systems[st1.room]), lines)
      case None => InputEnded
      case Some(sel) =>
        SelectSpec(MenuOptions(st1.systems[st1.room]), lines);
        match Act(st1, sel.choice, draws)
        case Stop(e) => e
        case Next(st2, rest) =>
          match AfterChoice(sel.choice, lines[sel.used..])
          case None => InputEnded
          case Some(more) => Play(st2, loseTime, clock[1..], more, rest)
  }

  /** The lines left once a choice has been acted on: INVENTORY
      (`displayInventory`) ends with an ENTER prompt whose `input()` reads
      one more line, and `None` says the input ended there. */
  function AfterChoice(choice: string, more: seq<string>): Option<seq<string>> {
    if choice != "i" then Some(more)
    else if more == [] then None
    else Some(more[1..])
  }

  /** One iteration that reaches the menu: the choice read is acted on in
      the state after the current room was scanned. */
  lemma PlayIteration(st: Explorer, loseTime: int, clock: seq<int>, lines: seq<string>, draws: seq<bool>, sel: Selection)
    requires Fits(st) && clock != [] && clock[0] < loseTime && st.systems[st.room].item != Ransomware
    requires Select(MenuOptions(Observe(st).systems[st.room]), lines) == Some(sel)
    ensures 1 <= sel.used <= |lines| && Allowed(MenuOptions(Observe(st).systems[st.room]), sel.choice)
    ensures var a := Act(Observe(st), sel.choice, draws);
            a.Stop? ==> Play(st, loseTime, clock, lines, draws) == a.end
    ensures var a := Act(Observe(st), sel.choice, draws);
            var more := AfterChoice(sel.choice, lines[sel.used..]);
            && (a.Next? && more.None? ==> Play(st, loseTime, clock, lines, draws) == InputEnded)
            && (a.Next? && more.Some? ==> Play(st, loseTime, clock, lines, draws) == Play(a.st, loseTime, clock[1..], more.value, a.draws))
  {
    SelectSpec(MenuOptions(Observe(st).systems[st.room]), lines);
  }

  // ---------------------------------------------------------------------
  // Properties of one iteration.

  /** The timeout check comes first: once the clock has reached the
      deadline the game is lost, even in the RANSOMWARE room. */
  lemma TimeoutBeforeBattle(st: Explorer, loseTime: int, clock: seq<int>, lines: seq<string>, draws: seq<bool>)
    requires Fits(st) && clock != [] && clock[0] >= loseTime
    ensures Play(st, loseTime, clock, lines, draws) == TimedOut
  {
  }

  /** Entering the RANSOMWARE room before the deadline starts the battle
      with the items still missing and the same deadline; its intro takes
      one line before the first round. */
  lemma BattleEntry(st: Explorer, loseTime: int, clock: seq<int>, lines: seq<string>, draws: seq<bool>)
    requires Fits(st) && clock != [] && clock[0] < loseTime && st.systems[st.room].item == Ransomware
    ensures lines == [] ==> Play(st, loseTime, clock, lines, draws) == Fought(Outcome(OutOfInput, InitialHealths(st.required)))
    ensures lines != [] ==>
              Play(st, loseTime, clock, lines, draws) == Fought(Battle(SetupOf(st.required), loseTime, InitialHealths(st.required), clock[1..], lines[1..]))
  {
  }

  /** INVENTORY is always offered and changes nothing, but its ENTER
      prompt takes the line after the choice: the next iteration reads
      the menu from the line after that, and without such a line the input
      has ended. */
  lemma InventoryPause(st: Explorer, loseTime: int, clock: seq<int>, rest: seq<string>, draws: seq<bool>)
    requires Fits(st) && clock != [] && clock[0] < loseTime && st.systems[st.room].item != Ransomware
    ensures rest == [] ==> Play(st, loseTime, clock, ["i"] + rest, draws) == InputEnded
    ensures rest != [] ==> Play(st, loseTime, clock, ["i"] + rest, draws) == Play(Observe(st), loseTime, clock[1..], rest[1..], draws)
  {
    var st1 := Observe(st);
    InventoryEffect(st1, draws);
    SelectLetter(MenuOptions(st1.systems[st.room]), 'i', rest);
    PlayIteration(st, loseTime, clock, ["i"] + rest, draws, Selection("i", 1));
    assert (["i"] + rest)[1..] == rest;
  }

  /** INVENTORY is offered in every room and changes nothing. */
  lemma InventoryEffect(st: Explorer, draws: seq<bool>)
    requires Fits(st)
    ensures 'i' in MenuOptions(st.systems[st.room]) && Act(st, "i", draws) == Next(st, draws)
  {
    MenuOffers(st.systems[st.room], 'i');
    assert "i"[0] == 'i' && MoveOf('i') == None;
  }

  /** A move letter goes to the linked room in that direction and changes
      nothing else. */
  lemma MoveEffect(st: Explorer, d: Direction, draws: seq<bool>)
    requires Fits(st) && st.systems[st.room].Neighbor(d).Some?
    ensures var c := match d case Up => "u" case Down => "d" case Left => "l" case Right => "r";
            && Allowed(MenuOptions(st.systems[st.room]), c)
            && Act(st, c, draws) == Next(st.(room := st.systems[st.room].Neighbor(d).value), draws)
  {
    var c := match d case Up => "u" case Down => "d" case Left => "l" case Right => "r";
    MenuOffers(st.systems[st.room], c[0]);
  }

  /** Only the one-letter choices act: any longer accepted line (such as
      "up" when 'u' is offered) leaves everything as it was. */
  lemma LongChoiceIgnored(st: Explorer, choice: string, draws: seq<bool>)
    requires Fits(st) && Allowed(MenuOptions(st.systems[st.room]), choice) && |choice| > 1
    ensures Act(st, choice, draws) == Next(st, draws)
  {
  }

  /** Typing "up" next to a room above passes the menu's validation and is
      returned as the choice, yet does not move. */
  lemma UpTypedInFull(st: Explorer, rest: seq<string>, draws: seq<bool>)
    requires Fits(st) && st.systems[st.room].up.Some?
    ensures Select(MenuOptions(st.systems[st.room]), ["up"] + rest) == Some(Selection("up", 1))
    ensures Act(st, "up", draws) == Next(st, draws)
  {
    SanitizeLetters("up");
    MenuOffers(st.systems[st.room], 'u');
    SelectFirst(MenuOptions(st.systems[st.room]), "up", rest);
  }

  /** SCAN consumes one draw per linked neighbour and rescans exactly those
      rooms; the room, the items and every other room stay as they were. */
  lemma ScanEffect(st: Explorer, draws: seq<bool>)
    requires Fits(st) && Linked(Targets(st.systems[st.room])) <= |draws|
    ensures Act(st, "s", draws).Next?
    ensures var n := Act(st, "s", draws);
            var here := st.systems[st.room];
            && n.draws == draws[Linked(Targets(here))..]
            && n.st.room == st.room && n.st.collected == st.collected && n.st.required == st.required
            && |n.st.systems| == |st.systems|
            && (forall i :: 0 <= i < |st.systems| ==> n.st.systems[i] == st.systems[i].(scan := n.st.systems[i].scan))
            && (forall i :: 0 <= i < |st.systems| && (forall d :: here.Neighbor(d) != Some(i)) ==>
                  n.st.systems[i] == st.systems[i])
            && (forall d :: here.Neighbor(d).Some? ==>
                  var j := here.Neighbor(d).value;
                  n.st.systems[j].scan == Error || n.st.systems[j].scan == Classify(st.systems[j].item))
  {
    var here := st.systems[st.room];
    var targets := Targets(here);
    assert forall i :: Some(i) in targets ==> exists d :: here.Neighbor(d) == Some(i) by {
      forall i | Some(i) in targets ensures exists d :: here.Neighbor(d) == Some(i) {
        var k :| 0 <= k < 4 && targets[k] == Some(i);
        assert here.Neighbor(AllDirections[k]) == Some(i);
      }
    }
    assert forall d :: here.Neighbor(d) in targets by {
      forall d ensures here.Neighbor(d) in targets {
        match d
        case Up => assert targets[0] == here.up;
        case Down => assert targets[1] == here.down;
        case Left => assert targets[2] == here.left;
        case Right => assert targets[3] == here.right;
      }
    }
  }

  // ---------------------------------------------------------------------
  // TAKE and the bookkeeping it keeps.

  /** Every item lying in a room (other than the RANSOMWARE and the empty
      marker) is still required, unit for unit. */
  ghost predicate Accounted(required: seq<Entry>, s: seq<System>) {
    forall u :: u != NoItem && u != Ransomware ==> CountIn(required, u) == multiset(Items(s))[u]
  }

  /** The invariant the loop keeps. */
  ghost predicate Good(st: Explorer) {
    && Fits(st)
    && DistinctKeys(st.collected) && DistinctKeys(st.required) && Positive(st.required)
    && Accounted(st.required, st.systems)
  }

  /** TAKE in a room holding an item moves one unit of it from the required
      items to the inventory and empties the slot. The removal never raises:
      the item lies in a room, so it is still required. */
  lemma TakeTransfer(st: Explorer, draws: seq<bool>)
    requires Good(st) && st.systems[st.room].item != NoItem && st.systems[st.room].item != Ransomware
    ensures Allowed(MenuOptions(st.systems[st.room]), "t")
    ensures RemovalOf(st.required, st.systems[st.room].item, 1) == Removed
    ensures Act(st, "t", draws) == Next(Taken(st), draws)
    ensures var t := st.systems[st.room].item;
            var n := Taken(st);
            && n.room == st.room && n.systems == st.systems[st.room := st.systems[st.room].(item := NoItem)]
            && CountIn(n.collected, t) == CountIn(st.collected, t) + 1
            && CountIn(n.required, t) == CountIn(st.required, t) - 1
            && (forall u :: u != t ==>
                  CountIn(n.collected, u) == CountIn(st.collected, u) && CountIn(n.required, u) == CountIn(st.required, u))
            && Good(n)
  {
    var t := st.systems[st.room].item;
    MenuOffers(st.systems[st.room], 't');
    TakeCounts(st.required, st.systems, st.room);
    AddToEffect(st.collected, t, 1);
    RemoveFromEffect(st.required, t, 1);
    RemoveFromPositive(st.required, t, 1);
    ActTake(st, draws);
  }

  lemma ActTake(st: Explorer, draws: seq<bool>)
    requires Fits(st) && Allowed(MenuOptions(st.systems[st.room]), "t")
    requires RemovalOf(st.required, st.systems[st.room].item, 1) != KeyError
    ensures Act(st, "t", draws) == Next(Taken(st), draws)
  {
    assert |"t"| == 1 && "t"[0] == 't';
    assert MoveOf('t') == None;
  }

  /** Emptying room i removes one unit of its item from the rooms' bag, and
      one unit is then taken from the required items. */
  lemma TakeCounts(required: seq<Entry>, s: seq<System>, i: nat)
    requires DistinctKeys(required) && Positive(required) && Accounted(required, s)
    requires i < |s| && s[i].item != NoItem && s[i].item != Ransomware
    ensures RemovalOf(required, s[i].item, 1) == Removed
    ensures Accounted(RemoveFrom(required, s[i].item, 1), s[i := s[i].(item := NoItem)])
  {
    var t := s[i].item;
    var s' := s[i := s[i].(item := NoItem)];
    assert Items(s') == Items(s)[i := NoItem];
    assert multiset(Items(s')) == multiset(Items(s)) - multiset{t} + multiset{NoItem};
    assert Items(s)[i] == t;
    assert CountIn(required, t) >= 1;
    CountZeroIffAbsent(required, t);
    RemovalCases(required, t, 1);
    RemoveFromEffect(required, t, 1);
  }

  /** Scanning the current room keeps the invariant. */
  lemma ObserveKeepsGood(st: Explorer)
    requires Good(st)
    ensures Good(Observe(st))
  {
    assert Items(Observe(st).systems) == Items(st.systems);
  }

  /** Every choice the menu accepts, outside the RANSOMWARE room, keeps the
      invariant, and TAKE never raises. */
  lemma ActKeepsGood(st: Explorer, choice: string, draws: seq<bool>)
    requires Good(st) && st.systems[st.room].item != Ransomware
    requires Allowed(MenuOptions(st.systems[st.room]), choice)
    ensures Act(st, choice, draws) != Stop(TakeCrashed)
    ensures Act(st, choice, draws).Next? ==> Good(Act(st, choice, draws).st)
  {
    if |choice| == 1 {
      var c := choice[0];
      assert Offered(st.systems[st.room], c) by { MenuOffers(st.systems[st.room], c); }
      if MoveOf(c).None? && c == 't' {
        assert choice == "t";
        TakeTransfer(st, draws);
      } else if MoveOf(c).None? && c == 's' {
        match ScanNeighbours(st.systems, Targets(st.systems[st.room]), draws)
        case None =>
        case Some((s', rest)) =>
          assert Items(s') == Items(st.systems);
      }
    }
  }

  /** From a state that keeps the invariant, the game never crashes on a
      TAKE, whatever the clock, the lines and the draws. */
  lemma {:induction false} NeverCrashes(st: Explorer, loseTime: int, clock: seq<int>, lines: seq<string>, draws: seq<bool>)
    requires Good(st)
    ensures Play(st, loseTime, clock, lines, draws) != TakeCrashed
    decreases |clock|
  {
    if clock != [] && clock[0] < loseTime && st.systems[st.room].item != Ransomware {
      var st1 := Observe(st);
      ObserveKeepsGood(st);
      match Select(MenuOptions(st1.systems[st1.room]), lines)
      case None =>
      case Some(sel) =>
        SelectSpec(MenuOptions(st1.systems[st1.room]), lines);
        ActKeepsGood(st1, sel.choice, draws);
        match Act(st1, sel.choice, draws)
        case Stop(e) =>
        case Next(st2, rest) =>
          match AfterChoice(sel.choice, lines[sel.used..])
          case None =>
          case Some(more) => NeverCrashes(st2, loseTime, clock[1..], more, rest);
    }
  }

  // ---------------------------------------------------------------------
  // The loop itself.

  /** The object state the loop works on, as an `Explorer`. */
  ghost function StateOf(room: nat, net: Network, inventory: Inventory, required: Inventory): Explorer
    reads net, inventory, required
  {
    Explorer(room, net.systems, inventory.entries, required.entries)
  }

  /** The exploration menu: `dumpOptions` and the options of this room. */
  method BuildMenu(menu: OptionSelector, here: System)
    modifies menu
    ensures menu.options == MenuOptions(here)
  {
    menu.DumpOptions();
    Offer(menu, here.up.Some?, 'u', "is (U)P above");
    assert menu.options == Slot(here.up.Some?, 'u');
    Offer(menu, here.down.Some?, 'd', "is (D)OWN below");
    Offer(menu, here.left.Some?, 'l', "is to the (L)EFT");
    Offer(menu, here.right.Some?, 'r', "is to the (R)IGHT");
    Offer(menu, here.item != NoItem, 't', "(T)AKE it?");
    menu.AddMessage("");
    Offer(menu, true, 's', "(S)CAN the neighboring systems");
    Offer(menu, true, 'i', "Open the (I)NVENTORY");
    Offer(menu, true, 'e', "(E)XIT game");
  }

  /** `if ...: gameMenu.addOption(code, message)`. */
  method Offer(menu: OptionSelector, offered: bool, code: char, message: string)
    requires 'a' <= code <= 'z'
    modifies menu
    ensures menu.options == old(menu.options) + Slot(offered, code)
  {
    if offered {
      menu.AddOption([code], message);
    }
  }

  /** SCAN: `system.tryScan()` on each linked neighbour of room `room`. */
  method ScanAround(net: Network, room: nat, draws: seq<bool>) returns (ok: bool, rest: seq<bool>)
    requires net.Valid() && room < |net.systems|
    modifies net
    ensures net.Valid() && net.parent == old(net.parent) && net.via == old(net.via)
    ensures var r := ScanNeighbours(old(net.systems), Targets(old(net.systems[room])), draws);
            (ok <==> r.Some?) && (ok ==> net.systems == r.value.0 && rest == r.value.1)
  {
    var targets := Targets(net.systems[room]);
    TreeInRange(net.systems, net.parent, net.via);
    ghost var goal := ScanNeighbours(net.systems, targets, draws);
    var k := 0;
    rest := draws;
    while k < 4
      invariant 0 <= k <= 4 && net.Valid() && net.parent == old(net.parent) && net.via == old(net.via)
      invariant |net.systems| == |old(net.systems)|
      invariant InArena(targets[k..], |net.systems|)
      invariant ScanNeighbours(net.systems, targets[k..], rest) == goal
    {
      assert targets[k..][1..] == targets[k + 1..];
      match targets[k] {
        case None =>
        case Some(j) =>
          if rest == [] {
            return false, rest;
          }
          var _ := net.TryScan(j, true, rest[0]);
          rest := rest[1..];
      }
      k := k + 1;
    }
    return true, rest;
  }

  /** The loop of `runGame` from room `room` of `net`, with the given
      deadline. */
  method Explore(net: Network, required: Inventory, inventory: Inventory, room: nat, loseTime: int,
                 clock: seq<int>, lines: seq<string>, draws: seq<bool>) returns (r: GameEnd)
    requires net.Valid() && room < |net.systems| && required.Valid() && inventory.Valid()
    requires required != inventory
    modifies net, required, inventory
    ensures r == Play(old(StateOf(room, net, inventory, required)), loseTime, clock, lines, draws)
  {
    var gameMenu := new OptionSelector();
    var currentSystem: nat := room;
    var times, input, d := clock, lines, draws;
    TreeInRange(net.systems, net.parent, net.via);
    ghost var goal := Play(StateOf(room, net, inventory, required), loseTime, clock, lines, draws);
    while true
      invariant net.Valid() && currentSystem < |net.systems| && required.Valid() && inventory.Valid()
      invariant InRange(net.systems)
      invariant Play(StateOf(currentSystem, net, inventory, required), loseTime, times, input, d) == goal
      decreases |times|
    {
      ghost var st := StateOf(currentSystem, net, inventory, required);
      ghost var timesLeft, inputLeft, drawsLeft := times, input, d;
      if times == [] {
        return InputEnded;
      }
      var currentTime := times[0];
      times := times[1..];
      if currentTime >= loseTime {
        return TimedOut;
      }
      if net.systems[currentSystem].item == Ransomware {
        var outcome := DoRansomwareBattle(required, loseTime, times, input);
        return Fought(outcome);
      }
      var used, stop;
      currentSystem, used, d, stop := Turn(net, required, inventory, gameMenu, currentSystem, st, input, d);
      ghost var sel := Select(MenuOptions(Observe(st).systems[st.room]), inputLeft);
      if stop.Some? {
        if sel.Some? {
          PlayIteration(st, loseTime, timesLeft, inputLeft, drawsLeft, sel.value);
        }
        return stop.value;
      }
      PlayIteration(st, loseTime, timesLeft, inputLeft, drawsLeft, sel.value);
      ghost var a := Act(Observe(st), sel.value.choice, drawsLeft);
      assert a == Next(StateOf(currentSystem, net, inventory, required), d);
      input := input[used..];
      TreeInRange(net.systems, net.parent, net.via);
    }
  }

  /** The rest of one iteration once the deadline and the RANSOMWARE checks
      passed: scan the current room, build the menu, read a choice and act
      on it. `used` is the number of lines read. */
  method Turn(net: Network, required: Inventory, inventory: Inventory, menu: OptionSelector, room: nat,
              ghost st: Explorer, lines: seq<string>, draws: seq<bool>)
    returns (next: nat, used: nat, rest: seq<bool>, stop: Option<GameEnd>)
    requires net.Valid() && room < |net.systems| && required.Valid() && inventory.Valid()
    requires required != inventory && st == StateOf(room, net, inventory, required)
    modifies net, required, inventory, menu
    ensures net.Valid() && required.Valid() && inventory.Valid() && next < |net.systems| && InRange(net.systems)
    ensures var st1 := Observe(st);
            var sel := Select(MenuOptions(st1.systems[st.room]), lines);
            && (sel.None? ==> stop == Some(InputEnded))
            && (sel.Some? && stop.Some? ==>
                  || Act(st1, sel.value.choice, draws) == Stop(stop.value)
                  || (&& Act(st1, sel.value.choice, draws).Next?
                      && AfterChoice(sel.value.choice, lines[sel.value.used..]).None? && stop.value == InputEnded))
            && (sel.Some? && stop.None? ==>
                  && Act(st1, sel.value.choice, draws) == Next(StateOf(next, net, inventory, required), rest)
                  && used <= |lines| && AfterChoice(sel.value.choice, lines[sel.value.used..]) == Some(lines[used..]))
  {
    TreeInRange(net.systems, net.parent, net.via);
    var _ := net.TryScan(room, false, false);
    ghost var st1 := StateOf(room, net, inventory, required);
    assert st1 == Observe(st);
    TreeInRange(net.systems, net.parent, net.via);
    var here := net.systems[room];
    BuildMenu(menu, here);
    var selection := menu.GetSelection(lines);
    if selection.None? {
      return room, 0, draws, Some(InputEnded);
    }
    SelectSpec(MenuOptions(here), lines);
    used := selection.value.used;
    assert StateOf(room, net, inventory, required) == st1;
    next, rest, stop := Respond(net, required, inventory, room, selection.value.choice, draws);
    TreeInRange(net.systems, net.parent, net.via);
    if stop.None? {
      ghost var a := Act(st1, selection.value.choice, draws);
      assert a.Next? && a.st.room == next;
      var ok;
      ok, used := AwaitAfter(selection.value.choice, lines, used);
      if !ok {
        stop := Some(InputEnded);
      }
    }
  }

  /** The ENTER prompt that `displayInventory` ends with, after INVENTORY;
      no other choice reads a further line. `after` is the number of lines
      read by then. */
  method AwaitAfter(choice: string, lines: seq<string>, used: nat) returns (ok: bool, after: nat)
    requires used <= |lines|
    ensures ok <==> AfterChoice(choice, lines[used..]).Some?
    ensures ok ==> after <= |lines| && AfterChoice(choice, lines[used..]) == Some(lines[after..])
  {
    if choice != "i" {
      return true, used;
    }
    if used == |lines| {
      return false, used;
    }
    assert lines[used..][1..] == lines[used + 1..];
    return true, used + 1;
  }

  /** The `if choice == ...` chain of one iteration, on the objects. */
  method Respond(net: Network, required: Inventory, inventory: Inventory, room: nat, choice: string, draws: seq<bool>)
    returns (next: nat, rest: seq<bool>, stop: Option<GameEnd>)
    requires net.Valid() && room < |net.systems| && required.Valid() && inventory.Valid()
    requires required != inventory && InRange(net.systems)
    requires Allowed(MenuOptions(net.systems[room]), choice)
    modifies net, required, inventory
    ensures net.Valid() && required.Valid() && inventory.Valid()
    ensures |net.systems| == old(|net.systems|) && (stop.Some? ==> next == room)
    ensures var r := Act(old(StateOf(room, net, inventory, required)), choice, draws);
            && (stop.Some? ==> r == Stop(stop.value))
            && (stop.None? ==> r == Next(StateOf(next, net, inventory, required), rest))
  {
    next, rest, stop := room, draws, None;
    var here := net.systems[room];
    if |choice| != 1 {
      return;
    }
    var letter := choice[0];
    match MoveOf(letter)
    case Some(d) =>
      MoveOffered(here, letter);
      next := here.Neighbor(d).value;
    case None =>
      if letter == 't' {
        inventory.AddItem(here.item, 1);
        var removal := required.TryRemoveItem(here.item, 1);
        if removal == KeyError {
          return room, draws, Some(TakeCrashed);
        }
        net.ClearItem(room);
      } else if letter == 's' {
        var ok;
        ok, rest := ScanAround(net, room, draws);
        if !ok {
          return room, draws, Some(InputEnded);
        }
      } else if letter == 'e' {
        return room, draws, Some(Quit);
      }
  }

  /** A freshly generated game: start room 0, nothing collected, and the
      required items exactly those lying in the rooms. */
  lemma StartGood(systems: seq<System>, required: seq<Entry>)
    requires 0 < |systems| && InRange(systems)
    requires DistinctKeys(required) && Positive(required)
    requires multiset(Items(systems)) == multiset{NoItem, Ransomware} + multiset(Flatten(required))
    ensures Good(Explorer(0, systems, [], required))
    ensures |systems| == SumCounts(required) + 2
  {
    FlattenLength(required);
    assert |multiset(Items(systems))| == |systems|;
    forall u | u != NoItem && u != Ransomware
      ensures CountIn(required, u) == multiset(Items(systems))[u]
    {
      FlattenCounts(required, u);
    }
  }

  /** `runGame`: the required items are generated, then the map; the deadline
      is set from the first clock reading to eight seconds per required unit;
      the loop then starts in room 0 with an empty inventory. `complete` is
      false when the walk draws ran out before the map was laid out, and the
      game then ends as `InputEnded`, as it does when the clock gives no
      reading at all. The game never ends by a failed TAKE. */
  method RunGame(fragmentDraw: nat, vulnerabilityDraw: nat, rnd: Randomness,
                 clock: seq<int>, lines: seq<string>, draws: seq<bool>)
    returns (r: GameEnd, complete: bool, loseTime: int, ghost start: Explorer)
    ensures r != TakeCrashed
    ensures !complete || clock == [] ==> r == InputEnded
    ensures complete && clock != [] ==>
              && start.room == 0 && start.collected == [] && Good(start)
              && |start.systems| == SumCounts(start.required) + 2
              && start.required == RequiredEntries(1 + fragmentDraw % 3, 1 + vulnerabilityDraw % 3)
              && loseTime == Deadline(clock[0], start.required)
              && 56_000_000_000 <= loseTime - clock[0] <= 88_000_000_000
              && r == Play(start, loseTime, clock[1..], lines, draws)
  {
    var currentSystem, requiredItems;
    currentSystem, requiredItems, complete := Generate(fragmentDraw, vulnerabilityDraw, rnd);
    if !complete || clock == [] {
      return InputEnded, complete, 0, Explorer(0, currentSystem.systems, [], requiredItems.entries);
    }
    start := Explorer(0, currentSystem.systems, [], requiredItems.entries);
    assert Good(start) && |start.systems| == SumCounts(start.required) + 2 by {
      TreeInRange(currentSystem.systems, currentSystem.parent, currentSystem.via);
      RequiredShape(1 + fragmentDraw % 3, 1 + vulnerabilityDraw % 3);
      StartGood(currentSystem.systems, requiredItems.entries);
    }
    assert 56_000_000_000 <= Deadline(clock[0], start.required) - clock[0] <= 88_000_000_000 by {
      DeadlineAhead(clock[0], requiredItems.entries);
    }
    r, loseTime := Begin(currentSystem, requiredItems, start, clock, lines, draws);
  }

  /** The generation at the start of `runGame`: the required items, then
      the map. At most eleven required units always fit in the fifteen
      rooms, so none is dropped and the rooms hold them all. */
  method Generate(fragmentDraw: nat, vulnerabilityDraw: nat, rnd: Randomness)
    returns (net: Network, required: Inventory, complete: bool)
    ensures fresh(net) && fresh(required) && net.Valid() && required.Valid() && Positive(required.entries)
    ensures complete ==> 7 <= SumCounts(required.entries) <= 11
    ensures complete ==>
              && required.entries == RequiredEntries(1 + fragmentDraw % 3, 1 + vulnerabilityDraw % 3)
              && net.systems != [] && IsTree(net.systems, net.parent, net.via)
              && multiset(Items(net.systems)) == multiset{NoItem, Ransomware} + multiset(Flatten(required.entries))
  {
    required := GenerateRequiredItems(fragmentDraw, vulnerabilityDraw);
    net, complete := GenerateMap(required, rnd);
  }

  /** The part of `runGame` after generation: the deadline and the loop. */
  method Begin(net: Network, required: Inventory, ghost start: Explorer, clock: seq<int>, lines: seq<string>, draws: seq<bool>)
    returns (r: GameEnd, loseTime: int)
    requires net.Valid() && required.Valid() && clock != []
    requires start == Explorer(0, net.systems, [], required.entries) && Good(start)
    modifies net, required
    ensures loseTime == Deadline(clock[0], start.required)
    ensures r == Play(start, loseTime, clock[1..], lines, draws) && r != TakeCrashed
  {
    var inventory := new Inventory();
    var counted := required.CountItems();
    loseTime := clock[0] + counted * SecondsPerSystem * SecondsToNanoseconds;
    r := Explore(net, required, inventory, 0, loseTime, clock[1..], lines, draws);
    NeverCrashes(start, loseTime, clock[1..], lines, draws);
  }
}
