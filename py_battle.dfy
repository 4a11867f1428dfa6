/** The turn-based fight against the RANSOMWARE (`doRansomwareBattle`) and
    the `Fighter` objects it runs on. The clock is a sequence of readings,
    one per deadline check, and the typed lines are read by the fight menu
    and by the ENTER prompts (`awaitPlayer`), which ignore what was typed. */
module PyBattle {
  import opened Kinds
  import opened PyInventory
  import opened PySelector

  class Fighter {
    var health: int
    var damage: int

    constructor (initialHealth: int, damage: int)
      ensures health == initialHealth && this.damage == damage
    {
      health := initialHealth;
      this.damage := damage;
    }

    /** `attack`: the victim, which may be this fighter itself, loses exactly
        this fighter's damage, which is returned. */
    method Attack(victim: Fighter) returns (dealt: int)
      modifies victim
      ensures dealt == old(damage)
      ensures victim.health == old(victim.health) - old(damage)
      ensures victim.damage == old(victim.damage)
    {
      dealt := damage;
      victim.health := victim.health - damage;
    }

    /** `isDead`: health at or below zero. */
    predicate IsDead()
      reads this
    {
      health <= 0
    }
  }

  /** Whether the required inventory still lists item `t`. */
  predicate Missing(required: seq<Entry>, t: ItemType) {
    IndexOf(required, t).Some?
  }

  /** The four capability flags of the battle. */
  datatype Capabilities = Capabilities(
    memoryAlteration: bool,
    adminPrivileges: bool,
    dereferencer: bool,
    sandboxed: bool)

  /** Each flag holds once the items it stands for are no longer required. */
  function CapabilitiesOf(required: seq<Entry>): (c: Capabilities)
    ensures c.memoryAlteration <==>
              forall i :: 0 <= i < |required| ==>
                required[i].item != FullMemoryReadAccess && required[i].item != FullMemoryWriteAccess
    ensures c.adminPrivileges <==> forall i :: 0 <= i < |required| ==> required[i].item != OsOverrideCapability
    ensures c.dereferencer <==> forall i :: 0 <= i < |required| ==> required[i].item != PointerDereferencer
    ensures c.sandboxed <==> forall i :: 0 <= i < |required| ==> required[i].item != Sandboxer
  {
    Capabilities(
      !Missing(required, FullMemoryReadAccess) && !Missing(required, FullMemoryWriteAccess),
      !Missing(required, OsOverrideCapability),
      !Missing(required, PointerDereferencer),
      !Missing(required, Sandboxer))
  }

  /** What an EXTRACT attempt runs into, in the order the source tests. */
  datatype Gate = NoDereferencer | NoMemoryAccess | NoPrivileges | Permitted

  function GateOf(c: Capabilities): (g: Gate)
    ensures g == Permitted <==> c.dereferencer && c.memoryAlteration && c.adminPrivileges
    ensures g == NoDereferencer <==> !c.dereferencer
    ensures g == NoMemoryAccess <==> c.dereferencer && !c.memoryAlteration
    ensures g == NoPrivileges <==> c.dereferencer && c.memoryAlteration && !c.adminPrivileges
  {
    if !c.dereferencer then NoDereferencer
    else if !c.memoryAlteration then NoMemoryAccess
    else if !c.adminPrivileges then NoPrivileges
    else Permitted
  }

  /** Extraction is possible exactly when the dereferencer, both memory
      accesses and the OS override have all been collected. */
  lemma ExtractionNeedsCapabilities(required: seq<Entry>)
    ensures GateOf(CapabilitiesOf(required)) == Permitted <==>
              forall i :: 0 <= i < |required| ==>
                required[i].item !in {PointerDereferencer, FullMemoryReadAccess, FullMemoryWriteAccess, OsOverrideCapability}
  {
  }

  /** Fixed per battle: the flags and both fighters' damage. */
  datatype Setup = Setup(caps: Capabilities, playerDamage: int, opponentDamage: int)

  datatype Healths = Healths(player: int, opponent: int)

  function SetupOf(required: seq<Entry>): Setup {
    Setup(
      CapabilitiesOf(required),
      FighterBaseDamage + PlayerDamageBoost,
      FighterBaseDamage + VulnerabilityDamageBoost * CountIn(required, Vulnerability))
  }

  function InitialHealths(required: seq<Entry>): Healths {
    Healths(FighterBaseHealth, FighterBaseHealth + CodeFragmentHealthBoost * CountIn(required, RansomwareCodeFragment))
  }

  /** The player starts at 50 health and 15 damage. The opponent starts at
      50 health plus 25 per missing code fragment and 10 damage plus 10 per
      missing vulnerability, so it is at its weakest, 50/10, exactly when
      both kinds have been collected. */
  lemma SetupValues(required: seq<Entry>)
    requires Positive(required)
    ensures InitialHealths(required).player == 50 && SetupOf(required).playerDamage == 15
    ensures InitialHealths(required).opponent == 50 + 25 * CountIn(required, RansomwareCodeFragment)
    ensures SetupOf(required).opponentDamage == 10 + 10 * CountIn(required, Vulnerability)
    ensures InitialHealths(required).opponent >= 50
    ensures InitialHealths(required).opponent == 50 <==> !Missing(required, RansomwareCodeFragment)
    ensures SetupOf(required).opponentDamage >= 10
    ensures SetupOf(required).opponentDamage == 10 <==> !Missing(required, Vulnerability)
  {
  }

  datatype BattleEnd = Won | LostTimeout | LostSelfHarm | LostPayload | Exited | OutOfInput

  /** One round either continues with new healths or ends the battle. */
  datatype Turn = Continue(h: Healths) | Over(end: BattleEnd, h: Healths)

  /** The opponent's payload: the player loses the opponent's damage, with no
      clamping, and dies at or below zero. */
  function Retaliate(s: Setup, h: Healths): (t: Turn)
    ensures t.h == Healths(h.player - s.opponentDamage, h.opponent)
    ensures t.Over? <==> h.player - s.opponentDamage <= 0
    ensures t.Over? ==> t.end == LostPayload
  {
    var p := h.player - s.opponentDamage;
    if p <= 0 then Over(LostPayload, Healths(p, h.opponent)) else Continue(Healths(p, h.opponent))
  }

  /** One round after the player chose `choice`. The choice is the whole
      sanitised line, and a string equals a one-letter string only when it
      is that letter alone, so only the exact one-letter strings act; any
      other accepted line lets the opponent retaliate. */
  function Round(s: Setup, h: Healths, choice: string): Turn {
    if |choice| != 1 then Retaliate(s, h)
    else match choice[0]
      case 'x' =>
        if GateOf(s.caps) == Permitted then
          var o := h.opponent - s.playerDamage;
          if o <= 0 then Over(Won, Healths(h.player, o)) else Retaliate(s, Healths(h.player, o))
        else Retaliate(s, h)
      case 'n' => Retaliate(s, h)
      case 'd' =>
        var p := h.player - s.playerDamage;
        if p <= 0 then Over(LostSelfHarm, Healths(p, h.opponent)) else Retaliate(s, Healths(p, h.opponent))
      case 'e' => Over(Exited, h)
      case _ => Retaliate(s, h)
  }

  /** The fight menu: EXTRACT, do NOTHING, DANCE, EXIT. */
  const BattleOptions: seq<char> := ['x', 'n', 'd', 'e']

  datatype Outcome = Outcome(end: BattleEnd, h: Healths)

  /** What one pass of the battle loop leads to: the end of the battle, or
      the next pass from new healths on the clock and the lines left. */
  datatype Pass = Ended(o: Outcome) | Resumed(h: Healths, clock: seq<int>, lines: seq<string>)

  /** One pass of the battle loop from healths `h`: without the sandboxer
      it first reads the clock and loses once `loseTime` is reached; then a
      choice is read and the round is played; a round that carries on ends
      with `awaitPlayer()`, whose `input()` reads one more line. */
  function OnePass(s: Setup, loseTime: int, h: Healths, clock: seq<int>, lines: seq<string>): (p: Pass)
    ensures p.Resumed? ==> |p.lines| < |lines|
  {
    if !s.caps.sandboxed && clock == [] then Ended(Outcome(OutOfInput, h))
    else if !s.caps.sandboxed && clock[0] >= loseTime then Ended(Outcome(LostTimeout, h))
    else match Select(BattleOptions, lines)
      case None => Ended(Outcome(OutOfInput, h))
      case Some(sel) =>
        SelectUsed(BattleOptions, lines);
        AfterChoice(Round(s, h, sel.choice), if s.caps.sandboxed then clock else clock[1..], lines, sel.used)
  }

  /** The rest of a pass once `used` lines gave a choice and the round
      gave `t`: an ending round ends the battle; otherwise `awaitPlayer()`
      reads one more line, and the input may have run out. */
  function AfterChoice(t: Turn, rest: seq<int>, lines: seq<string>, used: nat): (p: Pass)
    requires 1 <= used <= |lines|
    ensures p.Resumed? ==> |p.lines| < |lines|
  {
    match t
    case Over(e, h') => Ended(Outcome(e, h'))
    case Continue(h') =>
      if used == |lines| then Ended(Outcome(OutOfInput, h'))
      else Resumed(h', rest, lines[used + 1..])
  }

  /** The whole battle loop from healths `h`: passes until one ends it. */
  function Battle(s: Setup, loseTime: int, h: Healths, clock: seq<int>, lines: seq<string>): Outcome
    decreases |lines|
  {
    match OnePass(s, loseTime, h, clock, lines)
    case Ended(o) => o
    case Resumed(h', rest, more) => Battle(s, loseTime, h', rest, more)
  }

  /** `doRansomwareBattle` as a whole: the intro's ENTER prompt reads one
      line, then the battle runs from the healths the required items left
      give. */
  function Encounter(required: seq<Entry>, loseTime: int, clock: seq<int>, lines: seq<string>): Outcome {
    if lines == [] then Outcome(OutOfInput, InitialHealths(required))
    else Battle(SetupOf(required), loseTime, InitialHealths(required), clock, lines[1..])
  }

  // ---------------------------------------------------------------------
  // What one round does.

  /** EXTRACT lowers the opponent's health by exactly the player's damage
      when permitted, and leaves it untouched otherwise. */
  lemma ExtractEffect(s: Setup, h: Healths)
    ensures GateOf(s.caps) == Permitted ==> Round(s, h, "x").h.opponent == h.opponent - s.playerDamage
    ensures GateOf(s.caps) != Permitted ==> Round(s, h, "x") == Retaliate(s, h)
    ensures Round(s, h, "x").Over? && Round(s, h, "x").end == Won <==> GateOf(s.caps) == Permitted && h.opponent - s.playerDamage <= 0
  {
  }

  /** Doing nothing changes no health: only the retaliation follows. */
  lemma NothingEffect(s: Setup, h: Healths)
    ensures Round(s, h, "n") == Retaliate(s, h)
  {
  }

  /** The DANCE costs the player their own damage, then the retaliation
      follows unless the player already died. */
  lemma DanceEffect(s: Setup, h: Healths)
    ensures h.player - s.playerDamage <= 0 ==>
              Round(s, h, "d") == Over(LostSelfHarm, Healths(h.player - s.playerDamage, h.opponent))
    ensures h.player - s.playerDamage > 0 ==>
              Round(s, h, "d") == Retaliate(s, Healths(h.player - s.playerDamage, h.opponent))
  {
  }

  /** EXIT ends the battle at once, with no retaliation. */
  lemma ExitEffect(s: Setup, h: Healths)
    ensures Round(s, h, "e") == Over(Exited, h)
  {
  }

  /** An accepted line that is not exactly one of the four letters, such as
      "xx", does nothing but let the opponent retaliate. */
  lemma OtherChoiceEffect(s: Setup, h: Healths, choice: string)
    requires choice !in ["x", "n", "d", "e"]
    ensures Round(s, h, choice) == Retaliate(s, h)
  {
    if |choice| == 1 {
      assert choice == [choice[0]];
    }
  }

  /** Without the sandboxer, a reading at or past the deadline ends the
      battle before any choice is read. */
  lemma TimeoutFirst(s: Setup, loseTime: int, h: Healths, clock: seq<int>, lines: seq<string>)
    requires !s.caps.sandboxed && clock != [] && clock[0] >= loseTime
    ensures Battle(s, loseTime, h, clock, lines) == Outcome(LostTimeout, h)
  {
  }

  /** With the sandboxer the clock is never consulted. */
  lemma {:induction false} SandboxedIgnoresClock(s: Setup, loseTime: int, h: Healths, c1: seq<int>, c2: seq<int>, lines: seq<string>)
    requires s.caps.sandboxed
    ensures Battle(s, loseTime, h, c1, lines) == Battle(s, loseTime, h, c2, lines)
    decreases |lines|
  {
    var p1, p2 := OnePass(s, loseTime, h, c1, lines), OnePass(s, loseTime, h, c2, lines);
    assert p1.Resumed? ==> p2 == p1.(clock := c2);
    assert p1.Ended? ==> p2 == p1;
    if p1.Resumed? {
      SandboxedIgnoresClock(s, loseTime, p1.h, c1, c2, p1.lines);
    }
  }

  /** Without every extraction capability the battle is never won, and the
      opponent's health never changes. */
  lemma {:induction false} GatedNeverWins(s: Setup, loseTime: int, h: Healths, clock: seq<int>, lines: seq<string>)
    requires GateOf(s.caps) != Permitted
    ensures Battle(s, loseTime, h, clock, lines).end != Won
    ensures Battle(s, loseTime, h, clock, lines).h.opponent == h.opponent
    decreases |lines|
  {
    GatedPass(s, loseTime, h, clock, lines);
    match OnePass(s, loseTime, h, clock, lines)
    case Ended(o) =>
    case Resumed(h', rest, more) => GatedNeverWins(s, loseTime, h', rest, more);
  }

  /** A pass without every extraction capability never wins and never
      touches the opponent. */
  lemma GatedPass(s: Setup, loseTime: int, h: Healths, clock: seq<int>, lines: seq<string>)
    requires GateOf(s.caps) != Permitted
    ensures var p := OnePass(s, loseTime, h, clock, lines);
            && (p.Ended? ==> p.o.end != Won && p.o.h.opponent == h.opponent)
            && (p.Resumed? ==> p.h.opponent == h.opponent)
  {
    if s.caps.sandboxed || (clock != [] && clock[0] < loseTime) {
      var sel := Select(BattleOptions, lines);
      if sel.Some? {
        GatedRound(s, h, sel.value.choice);
        PassStep(s, loseTime, h, clock, lines, sel.value, Round(s, h, sel.value.choice));
      }
    }
  }

  /** A pass whose deadline check lets it go on ends as its round does, or
      at the end of the input at the ENTER prompt, or resumes after the line
      that prompt took. */
  lemma PassStep(s: Setup, loseTime: int, h: Healths, clock: seq<int>, lines: seq<string>, sel: Selection, t: Turn)
    requires s.caps.sandboxed || (clock != [] && clock[0] < loseTime)
    requires Select(BattleOptions, lines) == Some(sel) && t == Round(s, h, sel.choice)
    ensures var p := OnePass(s, loseTime, h, clock, lines);
            && (t.Over? ==> p == Ended(Outcome(t.end, t.h)))
            && (t.Continue? && sel.used == |lines| ==> p == Ended(Outcome(OutOfInput, t.h)))
            && (t.Continue? && sel.used != |lines| ==> p.Resumed? && p.h == t.h)
  {
  }

  /** A round without every extraction capability is never won and never
      touches the opponent. */
  lemma GatedRound(s: Setup, h: Healths, choice: string)
    requires GateOf(s.caps) != Permitted
    ensures Round(s, h, choice).h.opponent == h.opponent
    ensures !(Round(s, h, choice).Over? && Round(s, h, choice).end == Won)
  {
  }

  /** With every required item collected, four EXTRACTs win: the opponent
      goes 50, 35, 20, 5, -10 while the player goes 50, 40, 30, 20. The
      ENTER prompts, the intro's and the one after every round, take a line
      each, whatever it holds. */
  lemma CollectedEverythingWins(loseTime: int, clock: seq<int>, p0: string, p1: string, p2: string, p3: string)
    ensures Encounter([], loseTime, clock, [p0, "x", p1, "x", p2, "x", p3, "x"]) == Outcome(Won, Healths(20, -10))
  {
    var s := SetupOf([]);
    NothingMissing();
    var l1 := ["x"];
    var l2 := ["x", p3] + l1;
    var l3 := ["x", p2] + l2;
    var l4 := ["x", p1] + l3;
    var lines := [p0, "x", p1, "x", p2, "x", p3, "x"];
    assert lines[1..] == l4 && ["x"] + [] == l1;
    ExtractWins(s, loseTime, Healths(20, 5), clock, []);
    ExtractRound(s, loseTime, Healths(30, 20), clock, p3, l1);
    ExtractRound(s, loseTime, Healths(40, 35), clock, p2, l2);
    ExtractRound(s, loseTime, Healths(50, 50), clock, p1, l3);
    assert Battle(s, loseTime, Healths(50, 50), clock, l4) == Outcome(Won, Healths(20, -10));
  }

  /** With nothing left to collect the player has every capability and the
      fight starts at 50 against 50, 15 against 10 damage. */
  lemma NothingMissing()
    ensures SetupOf([]) == Setup(Capabilities(true, true, true, true), 15, 10)
    ensures InitialHealths([]) == Healths(50, 50)
  {
  }

  /** With every extraction capability, an EXTRACT that brings the
      opponent's health to zero or below wins at once. */
  lemma ExtractWins(s: Setup, loseTime: int, h: Healths, clock: seq<int>, rest: seq<string>)
    requires s.caps.sandboxed && GateOf(s.caps) == Permitted && h.opponent - s.playerDamage <= 0
    ensures Battle(s, loseTime, h, clock, ["x"] + rest) == Outcome(Won, Healths(h.player, h.opponent - s.playerDamage))
  {
    SelectX(rest);
    assert OnePass(s, loseTime, h, clock, ["x"] + rest) == Ended(Outcome(Won, Healths(h.player, h.opponent - s.playerDamage)));
  }

  /** With the sandboxer and every extraction capability, an EXTRACT that
      leaves both fighters alive takes its line and the ENTER prompt's,
      and lowers each health by the other fighter's damage. */
  lemma ExtractRound(s: Setup, loseTime: int, h: Healths, clock: seq<int>, pause: string, rest: seq<string>)
    requires s.caps.sandboxed && GateOf(s.caps) == Permitted
    requires h.opponent - s.playerDamage > 0 && h.player - s.opponentDamage > 0
    ensures Battle(s, loseTime, h, clock, ["x", pause] + rest)
            == Battle(s, loseTime, Healths(h.player - s.opponentDamage, h.opponent - s.playerDamage), clock, rest)
  {
    var lines, more := ["x", pause] + rest, [pause] + rest;
    assert lines == ["x"] + more && lines[2..] == rest;
    SelectX(more);
    var h' := Healths(h.player - s.opponentDamage, h.opponent - s.playerDamage);
    assert Round(s, h, "x") == Continue(h');
    assert OnePass(s, loseTime, h, clock, lines) == Resumed(h', clock, rest);
  }

  /** A typed "x" is accepted at once by the fight menu. */
  lemma SelectX(rest: seq<string>)
    ensures Select(BattleOptions, ["x"] + rest) == Some(Selection("x", 1))
    ensures (["x"] + rest)[1..] == rest
  {
    SelectLetter(BattleOptions, 'x', rest);
  }

  // ---------------------------------------------------------------------

  /** The body of the battle loop once a choice has been read: EXTRACT behind
      its three tests, NOTHING, DANCE or EXIT, then the retaliation. `over`
      names how the battle ended, if it did. */
  method PlayRound(player: Fighter, ransomware: Fighter, choice: string,
                   dereferencer: bool, memoryAlteration: bool, adminPrivileges: bool, ghost s: Setup)
    returns (over: Option<BattleEnd>)
    requires player != ransomware
    requires player.damage == s.playerDamage && ransomware.damage == s.opponentDamage
    requires s.caps.dereferencer == dereferencer && s.caps.memoryAlteration == memoryAlteration
    requires s.caps.adminPrivileges == adminPrivileges
    modifies player, ransomware
    ensures player.damage == old(player.damage) && ransomware.damage == old(ransomware.damage)
    ensures var t := Round(s, old(Healths(player.health, ransomware.health)), choice);
            && Healths(player.health, ransomware.health) == t.h
            && (over.Some? <==> t.Over?)
            && (over.Some? ==> over.value == t.end)
  {
    if choice == "x" {
      if !dereferencer {
      } else if !memoryAlteration {
      } else if !adminPrivileges {
      } else {
        var dealt := player.Attack(ransomware);
        if ransomware.IsDead() {
          return Some(Won);
        }
      }
    } else if choice == "n" {
    } else if choice == "d" {
      var dealt := player.Attack(player);
      if player.IsDead() {
        return Some(LostSelfHarm);
      }
    } else if choice == "e" {
      return Some(Exited);
    }

    var dealt := ransomware.Attack(player);
    if player.IsDead() {
      return Some(LostPayload);
    }
    return None;
  }

  /** The fight menu as the battle builds it. */
  method NewFightMenu() returns (m: OptionSelector)
    ensures fresh(m) && m.options == BattleOptions
  {
    m := new OptionSelector();
    m.AddOption("x", "E(X)TRACT");
    m.AddOption("n", "Do (N)OTHING");
    m.AddOption("d", "Do a funny (D)ANCE");
    m.AddMessage("");
    m.AddOption("e", "(E)XIT game");
  }

  /** `doRansomwareBattle(requiredItemsLeft, loseTime)`. */
  method DoRansomwareBattle(required: Inventory, loseTime: int, clock: seq<int>, lines: seq<string>)
    returns (r: Outcome)
    requires required.Valid()
    ensures r == Encounter(required.entries, loseTime, clock, lines)
  {
    var memoryAlteration := !required.Contains(FullMemoryReadAccess) && !required.Contains(FullMemoryWriteAccess);
    var adminPrivileges := !required.Contains(OsOverrideCapability);
    var dereferencer := !required.Contains(PointerDereferencer);
    var sandboxed := !required.Contains(Sandboxer);

    var player := new Fighter(FighterBaseHealth, FighterBaseDamage + PlayerDamageBoost);
    var ransomware := new Fighter(
      FighterBaseHealth + CodeFragmentHealthBoost * required.CountItem(RansomwareCodeFragment),
      FighterBaseDamage + VulnerabilityDamageBoost * required.CountItem(Vulnerability));

    ghost var s := SetupOf(required.entries);
    assert s.caps == Capabilities(memoryAlteration, adminPrivileges, dereferencer, sandboxed);
    assert Healths(player.health, ransomware.health) == InitialHealths(required.entries);
    // The intro's `awaitPlayer(center=True)`.
    if lines == [] {
      return Outcome(OutOfInput, Healths(player.health, ransomware.health));
    }
    r := Fight(player, ransomware, dereferencer, memoryAlteration, adminPrivileges, sandboxed, s, loseTime, clock, lines[1..]);
  }

  /** The battle loop of `doRansomwareBattle`, from the fighters as set up. */
  method Fight(player: Fighter, ransomware: Fighter,
               dereferencer: bool, memoryAlteration: bool, adminPrivileges: bool, sandboxed: bool,
               ghost s: Setup, loseTime: int, clock: seq<int>, lines: seq<string>)
    returns (r: Outcome)
    requires player != ransomware
    requires s.caps == Capabilities(memoryAlteration, adminPrivileges, dereferencer, sandboxed)
    requires player.damage == s.playerDamage && ransomware.damage == s.opponentDamage
    modifies player, ransomware
    ensures r == Battle(s, loseTime, old(Healths(player.health, ransomware.health)), clock, lines)
  {
    var fightMenu := NewFightMenu();
    ghost var goal := Battle(s, loseTime, Healths(player.health, ransomware.health), clock, lines);
    var ticks, unread := clock, lines;
    while true
      invariant fightMenu.options == BattleOptions
      invariant player.damage == s.playerDamage && ransomware.damage == s.opponentDamage
      invariant Battle(s, loseTime, Healths(player.health, ransomware.health), ticks, unread) == goal
      decreases |unread|
    {
      var h := Healths(player.health, ransomware.health);
      ghost var clockLeft := ticks;
      if !sandboxed {
        if ticks == [] {
          return Outcome(OutOfInput, h);
        }
        var now := ticks[0];
        ticks := ticks[1..];
        if now >= loseTime {
          return Outcome(LostTimeout, h);
        }
      }
      var done, ending, used := Bout(player, ransomware, fightMenu, dereferencer, memoryAlteration, adminPrivileges,
                                     s, loseTime, h, clockLeft, ticks, unread);
      if done {
        return ending;
      }
      unread := unread[used..];
    }
  }

  /** One pass of the battle loop once the clock has let it go on: a choice
      is read and played. When the battle does not end, the next pass starts
      from the healths the round leaves, on the clock and lines left. */
  method Bout(player: Fighter, ransomware: Fighter, fightMenu: OptionSelector,
              dereferencer: bool, memoryAlteration: bool, adminPrivileges: bool,
              ghost s: Setup, loseTime: int, h: Healths, ghost clock: seq<int>, ghost rest: seq<int>,
              lines: seq<string>)
    returns (done: bool, r: Outcome, used: nat)
    requires player != ransomware && fightMenu.options == BattleOptions
    requires s.caps.dereferencer == dereferencer && s.caps.memoryAlteration == memoryAlteration
    requires s.caps.adminPrivileges == adminPrivileges
    requires player.damage == s.playerDamage && ransomware.damage == s.opponentDamage
    requires Healths(player.health, ransomware.health) == h
    requires s.caps.sandboxed || (clock != [] && clock[0] < loseTime)
    requires rest == if s.caps.sandboxed then clock else clock[1..]
    modifies player, ransomware
    ensures player.damage == s.playerDamage && ransomware.damage == s.opponentDamage
    ensures done ==> OnePass(s, loseTime, h, clock, lines) == Ended(r)
    ensures !done ==> used <= |lines| &&
                      OnePass(s, loseTime, h, clock, lines) == Resumed(Healths(player.health, ransomware.health), rest, lines[used..])
  {
    var selection := fightMenu.GetSelection(lines);
    if selection.None? {
      return true, Outcome(OutOfInput, h), 0;
    }
    var over := PlayRound(player, ransomware, selection.value.choice, dereferencer, memoryAlteration, adminPrivileges, s);
    SelectUsed(BattleOptions, lines);
    ghost var t := Round(s, h, selection.value.choice);
    assert OnePass(s, loseTime, h, clock, lines) == AfterChoice(t, rest, lines, selection.value.used);
    done, r, used := AfterRound(t, rest, lines, selection.value, over, h, Healths(player.health, ransomware.health));
  }

  /** What follows a round: the end of the battle, or `awaitPlayer()`,
      whose `input()` reads the next line and fails at the end of the
      input. */
  method AfterRound(ghost t: Turn, ghost rest: seq<int>, lines: seq<string>, sel: Selection,
                    over: Option<BattleEnd>, h: Healths, h': Healths)
    returns (done: bool, r: Outcome, used: nat)
    requires 1 <= sel.used <= |lines|
    requires t.h == h' && (over.Some? <==> t.Over?) && (over.Some? ==> over.value == t.end)
    ensures done ==> AfterChoice(t, rest, lines, sel.used) == Ended(r)
    ensures !done ==> used <= |lines| && AfterChoice(t, rest, lines, sel.used) == Resumed(h', rest, lines[used..])
  {
    if over.Some? {
      done, r, used := true, Outcome(over.value, h'), sel.used;
    } else if sel.used == |lines| {
      done, r, used := true, Outcome(OutOfInput, h'), sel.used;
    } else {
      done, r, used := false, Outcome(OutOfInput, h), sel.used + 1;
    }
  }
}
