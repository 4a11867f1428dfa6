# BitMasher in Dafny

BitMasher is a text adventure. The player is an antivirus moving through the
systems of an infected computer. It collects the items it needs to fight the
RANSOMWARE before a deadline, then extracts the RANSOMWARE in a turn-based
battle. The repository holds four revisions of the game, and this project
models the game logic of each:

- `src/bitmasher_game/TextBasedGame.py`, the main revision:
  - the `Inventory` dictionary of items;
  - rooms (`System`), with linking, scanning and the scan label;
  - the random-walk map generator and the required items;
  - the `Fighter`s and `doRansomwareBattle`;
  - the `runGame` exploration loop;
  - the `OptionSelector` menu.
  Modules `Kinds`, `Text`, `PyInventory`, `PyMap`, `PyGenerator`,
  `PyBattle`, `PyGame` and `PySelector`.
- `bitmasher.c`, a re-implementation over fixed arenas:
  - a 25-slot `Inventory` with swap-remove;
  - a 50-slot `Map` of `System`s, whose slot 0 is the root;
  - forward Fisher-Yates shuffles;
  - `generate_map` and `generate_required_items`;
  - a `Selector` fed by `fgets`;
  - the movement part of `run_game`.
  Modules `CInventory`, `CMap`, `CGenerator`, `CMapGenerator`, `CSelector`
  and `CGame`.
- `bitmasher.py`, an older copy of the main file. The logic that survives in
  it is the same as in the main revision, line for line, so the `Py*`
  modules model it too:
  - `Inventory` queries: `toItemList` (78-86), `countItems` (88-94),
    `countItem` (96-102), `isEmpty` (104-105), `contains` (107-114);
  - `Fighter` (177-200) and `doRansomwareBattle` (202-340);
  - `System.setAdjacent` (368-372), `tryScan` (380-397) and
    `tryAppendScanResult` (399-412);
  - the deadline (467-468), the timeout (471-474), the battle entry
    (476-480), TAKE (543-546) and SCAN (548-557) of `runGame`.
  As a program it stops at once: line 464 of its `runGame` calls
  `generateMap(requiredItems)` with `requiredItems` undefined. Its `System`
  has no `__init__`.
- the top-level `TextBasedGame.py`, the first stub: `Direction.opposite`,
  `Room` objects linked by reference, and an `OptionSelector` that keeps
  whole option strings. Module `Stub`.

## How the model is built

- Objects the source updates in place are classes:
  - Python's `Inventory`, `OptionSelector` and `Fighter`;
  - the room arena `PyMap.Network`;
  - C's `Inventory`, `Map` and `Selector`, which keep their arrays;
  - the stub's `Room` and `OptionSelector`.
  Each method states its whole new state against a specification function.
- The loops of the source are methods with loop invariants, each proved
  equal to a specification function:
  - `PyGame.Play` for `runGame`;
  - `PyBattle.Battle` for the battle loop;
  - `CMapGenerator.GenLoop` and `CMapGenerator.Walk` for `generate_map`;
  - `CGame.Wander` for `run_game`;
  - `CSelector.Choose` and `PySelector.Select` for the prompt loops.
  The properties of the source are lemmas about those functions.
- Rooms live in an arena indexed by integers: C's array, or a sequence
  for Python. A neighbour is the index of the other room.
- The map's shape is one predicate, `PyMap.IsTree`. Every room but the first
  hangs below an older room in one direction, and the two link slots of each
  edge name each other. C maps are viewed through the same predicate.
- Randomness and the clock are inputs:
  - `random.shuffle` takes a sequence of swap draws;
  - each walk step takes a `Draw` (the move coin and the index
    `random.choice` reduces modulo the candidates);
  - each scan failure is a boolean;
  - C's `rand()` is a function from the call number to a value.
  Python's clock is a sequence of readings, C's clock is one reading
  `now`, and typed input is a sequence of lines (Python) or one character
  string (C). An input that runs out ends the run with an "out of input"
  result.

## Model

| member | source | states |
|---|---|---|
| Kinds.Opposite | src/bitmasher_game/TextBasedGame.py:476-481 | the opposite direction differs from the direction and lies on the same axis; the same mapping is `direction_opposite` (bitmasher.c:464-476) and the stub's `opposite` (TextBasedGame.py:85-94) |
| Kinds.OppositeInvolution | src/bitmasher_game/TextBasedGame.py:476-481 | taking the opposite twice gives back the direction |
| Kinds.GeneratedSystemsShape | src/bitmasher_game/TextBasedGame.py:575-579 | the system pool holds 15 kinds: every kind but the bootloader |
| Text.LowerChar | bitmasher.c:310 | C's `tolower` in the "C" locale: 'A' to 'Z' map to 'a' to 'z' and every other character is kept; also used at bitmasher.c:339 |
| Text.PyLowerChar | src/bitmasher_game/TextBasedGame.py:156 | Python's `lower()` of one character gives one character, or two for U+0130 ('i' and a combining dot); on ASCII it is `tolower`; U+212A lowers to 'k'; exactly the ASCII letters, U+0130 and U+212A lower onto an ASCII letter; a non-space never lowers to whitespace |
| Text.Lower | src/bitmasher_game/TextBasedGame.py:156 | the lowered string is at least as long as the string and at most twice as long; it is empty exactly when the string is, and starts and ends with the lowered first and last characters |
| Text.LowerAscii | src/bitmasher_game/TextBasedGame.py:156 | on ASCII text, lowering keeps the length and agrees with `tolower` at every position |
| Text.LowerLetters | src/bitmasher_game/TextBasedGame.py:156 | a word of lower-case ASCII letters is its own lower-case form |
| Text.StripLetters | src/bitmasher_game/TextBasedGame.py:156 | stripping leaves such a word unchanged |
| Text.PySpace | src/bitmasher_game/TextBasedGame.py:156 | definition, no contract: the characters Python's `str.isspace` accepts, which `strip()` drops; `Strip`, `Sanitize` and `SelectNoBreakSpace` use it |
| Text.CSpace | bitmasher.c:331-337 | definition, no contract: the characters C's `isspace` accepts in the "C" locale; `SpaceRun` and `ChooseSkipsBlank` use it |
| Text.Strip | src/bitmasher_game/TextBasedGame.py:156 | the stripped line is no longer than the line and neither starts nor ends with one of Python's `isspace` characters, Unicode spaces such as U+00A0 and U+3000 included |
| Text.StripBlank | src/bitmasher_game/TextBasedGame.py:156-160 | stripping leaves nothing exactly when the line is all whitespace |
| Text.StripLeft | src/bitmasher_game/TextBasedGame.py:156 | the result is a suffix of the line, everything dropped is whitespace, and it does not start with whitespace |
| Text.StripRight | src/bitmasher_game/TextBasedGame.py:156 | the result is a prefix of the line, everything dropped is whitespace, and it does not end with whitespace |
| PySelector.Sanitize | src/bitmasher_game/TextBasedGame.py:156 | the sanitised choice is at most twice as long as the line (only U+0130 lengthens it) and has no whitespace at either end |
| PySelector.SanitizeBlank | src/bitmasher_game/TextBasedGame.py:158-160 | a line sanitises to the empty string exactly when it is all whitespace, which is the case the loop skips silently |
| PySelector.FirstAllowed | src/bitmasher_game/TextBasedGame.py:154-166 | the position found holds an allowed choice and no earlier one is allowed; no position means no choice is allowed |
| PySelector.Select | src/bitmasher_game/TextBasedGame.py:149-166 | definition, no contract: the first line the menu accepts, in sanitised form, with the number of lines read; `SelectSpec`, `SelectUsed`, `SelectFirst`, `SelectLetter`, `SelectNoBreakSpace` and `SelectDottedCapital` state its properties |
| PySelector.Allowed | src/bitmasher_game/TextBasedGame.py:159-163 | definition, no contract: the test `getSelection` applies to a sanitised line; `SelectSpec` states that it decides what is returned |
| PySelector.Accepted | src/bitmasher_game/TextBasedGame.py:156-163 | definition, no contract: the same test applied to the line as typed; `SelectSpec` and `SelectFirst` state its role |
| PySelector.SanitizeAll | src/bitmasher_game/TextBasedGame.py:156 | every line sanitised, one result per line |
| PySelector.Pick | src/bitmasher_game/TextBasedGame.py:154-166 | definition, no contract: the first allowed sanitised choice and the lines read to reach it; `SelectSpec` states its result |
| PySelector.SelectSpec | src/bitmasher_game/TextBasedGame.py:149-166 | a selection is the sanitised form of the first accepted line, is non-empty and starts with an option; every earlier line was rejected; there is no selection exactly when no line is accepted |
| PySelector.SelectUsed | src/bitmasher_game/TextBasedGame.py:154-166 | a selection reads at least one line and no more than there are |
| PySelector.SelectFirst | src/bitmasher_game/TextBasedGame.py:154-166 | a first line whose sanitised form starts with an option is selected at once, as that sanitised form |
| PySelector.SelectLetter | src/bitmasher_game/TextBasedGame.py:154-166 | a line holding one option letter is accepted at once and returned as it is |
| PySelector.SelectNoBreakSpace | src/bitmasher_game/TextBasedGame.py:155-166 | a no-break space before "e" is stripped, so the line is accepted as "e" where 'e' is an option |
| PySelector.SelectDottedCapital | src/bitmasher_game/TextBasedGame.py:155-166 | "İ" (U+0130) is accepted where 'i' is an option, and the choice is the two characters 'i' and U+0307 |
| PySelector.OptionSelector.constructor | src/bitmasher_game/TextBasedGame.py:129-131 | a new menu has no options and no messages |
| PySelector.OptionSelector.AddOption | src/bitmasher_game/TextBasedGame.py:133-138 | only the lower-cased first character of the code is appended to the options; a first character that lowers to two characters (U+0130) adds no option, since no typed character equals it; the message is appended |
| PySelector.OptionSelector.AddMessage | src/bitmasher_game/TextBasedGame.py:140-142 | a message is appended and the options stay |
| PySelector.OptionSelector.DumpOptions | src/bitmasher_game/TextBasedGame.py:144-147 | options and messages are emptied |
| PySelector.OptionSelector.GetSelection | src/bitmasher_game/TextBasedGame.py:149-166 | the prompt loop returns exactly what `Select` specifies |
| PySelector.OptionSelector.PickLoop | src/bitmasher_game/TextBasedGame.py:154-166 | the loop over the sanitised lines finds the first allowed one and counts the lines read |
| PyInventory.IndexOf | src/bitmasher_game/TextBasedGame.py:249-255 | the position found holds the key and no earlier position does; none exactly when the key is absent |
| PyInventory.CountIn | src/bitmasher_game/TextBasedGame.py:239-244 | `countItem` is the stored count of a present key and 0 for an absent one |
| PyInventory.Repeat | src/bitmasher_game/TextBasedGame.py:225-227 | `range(0, n)` copies of a type: n of them when n is positive, none otherwise |
| PyInventory.RemoveAtCounts | src/bitmasher_game/TextBasedGame.py:211-212 | deleting a key makes it absent and leaves every other count |
| PyInventory.Flatten | src/bitmasher_game/TextBasedGame.py:221-229 | definition, no contract: every key repeated by its count, in dict order; `FlattenLength` and `FlattenCounts` state its length and counts |
| PyInventory.AddTo | src/bitmasher_game/TextBasedGame.py:196-201 | definition, no contract: the dict after `addItem(t, n)`; `AddToEffect` and `AddToPositive` state its effect |
| PyInventory.SumCounts | src/bitmasher_game/TextBasedGame.py:231-237 | definition, no contract: the sum of all stored counts; `SumSplit`, `SumUpdate` and `SumAppend` state how it changes, and the method `Inventory.CountItems` is proved against it |
| PyInventory.AddToEffect | src/bitmasher_game/TextBasedGame.py:196-201 | `addItem(t, n)` raises t's count and the total by n, keeps every other count, and leaves t present |
| PyInventory.AddToStored | src/bitmasher_game/TextBasedGame.py:198-199 | adding to a stored key changes its count in place, at the same position |
| PyInventory.AddToAbsent | src/bitmasher_game/TextBasedGame.py:200-201 | adding a new key appends it at the end of the dict |
| PyInventory.RemovalOf | src/bitmasher_game/TextBasedGame.py:203-214 | definition, no contract: how `tryRemoveItem` ends, including the `KeyError` the code raises; `RemovalCases` states each case |
| PyInventory.RemovalCases | src/bitmasher_game/TextBasedGame.py:203-214 | removal raises `KeyError` exactly when the dict is non-empty and the key absent; it succeeds exactly when the key is present and n is at most its count; otherwise nothing changes |
| PyInventory.RemoveFrom | src/bitmasher_game/TextBasedGame.py:203-214 | definition, no contract: the dict after `tryRemoveItem(t, n)`; `RemoveFromEffect`, `RemoveDeletes`, `RemoveLowers` and `RemoveFromPositive` state its effect |
| PyInventory.RemoveFromEffect | src/bitmasher_game/TextBasedGame.py:203-214 | a successful removal lowers the key's count and the total by n, keeps every other count, and deletes the key exactly when its count was n |
| PyInventory.RemoveDeletes | src/bitmasher_game/TextBasedGame.py:211-212 | deleting an entry takes its count out of the total and makes its key absent |
| PyInventory.RemoveLowers | src/bitmasher_game/TextBasedGame.py:209-210 | lowering an entry keeps the key at its position and changes only its count |
| PyInventory.CountZeroIffAbsent | src/bitmasher_game/TextBasedGame.py:239-255 | with positive counts, `countItem` is 0 exactly when `contains` is false |
| PyInventory.AddToPositive | src/bitmasher_game/TextBasedGame.py:196-201 | adding a positive count keeps every count positive |
| PyInventory.RemoveFromPositive | src/bitmasher_game/TextBasedGame.py:203-214 | removal keeps every count positive, because a count reaching 0 is deleted |
| PyInventory.FlattenLength | src/bitmasher_game/TextBasedGame.py:221-237 | the item list is as long as `countItems()` |
| PyInventory.FlattenCounts | src/bitmasher_game/TextBasedGame.py:221-244 | each type occurs in the item list exactly `countItem` times |
| PyInventory.RemoveOneUnit | src/bitmasher_game/TextBasedGame.py:203-229 | taking one unit of a type the item list holds succeeds, and takes exactly that unit out of the item list |
| PyInventory.HoldsFlatten | src/bitmasher_game/TextBasedGame.py:221-244 | the counts are the multiplicities of a bag exactly when the item list is that bag |
| PyInventory.RemoveOneHeld | src/bitmasher_game/TextBasedGame.py:203-214 | taking one unit of a type in the bag succeeds and leaves the rest of the bag |
| PyInventory.Inventory.constructor | src/bitmasher_game/TextBasedGame.py:193-194 | a new inventory is empty |
| PyInventory.Inventory.Contains | src/bitmasher_game/TextBasedGame.py:249-255 | `contains` holds exactly when some entry has the key, whatever its count |
| PyInventory.Inventory.IsEmpty | src/bitmasher_game/TextBasedGame.py:246-247 | the inventory is empty exactly when it contains no type |
| PyInventory.Inventory.AddItem | src/bitmasher_game/TextBasedGame.py:196-201 | the dict becomes `AddTo` of the old one, whose effect `AddToEffect` states |
| PyInventory.Inventory.TryRemoveItem | src/bitmasher_game/TextBasedGame.py:203-214 | the outcome is success exactly when the key was present with at least n units, `KeyError` exactly when the dict was non-empty and the key absent, and anything but success changes nothing |
| PyInventory.Inventory.CountItem | src/bitmasher_game/TextBasedGame.py:239-244 | definition, no contract: the stored count of the key, 0 when it is absent; `CountZeroIffAbsent` and `FlattenCounts` state its properties |
| PyInventory.Inventory.CountItems | src/bitmasher_game/TextBasedGame.py:231-237 | the accumulator loop returns the sum of all counts |
| PyInventory.Inventory.ToItemList | src/bitmasher_game/TextBasedGame.py:221-229 | the nested loop returns every key repeated by its count, in dict order |
| PyMap.NewSystem | src/bitmasher_game/TextBasedGame.py:509-517 | a new room has the given kind and item, no neighbours, and is not scanned |
| PyMap.Adjacent | src/bitmasher_game/TextBasedGame.py:537-540 | iteration yields the four directions in declaration order, each with its neighbour slot |
| PyMap.Link | src/bitmasher_game/TextBasedGame.py:531-535 | definition, no contract: the rooms after `a.setAdjacent(d, b)`; `LinkEffect` and `AttachKeepsTree` state its effect |
| PyMap.LinkEffect | src/bitmasher_game/TextBasedGame.py:531-535 | after `a.setAdjacent(d, b)`, `a[d]` is b and `b[opposite(d)]` is a, and every other slot of every room is unchanged |
| PyMap.Classify | src/bitmasher_game/TextBasedGame.py:548-555 | a scan finds SUSPICOUS exactly for the RANSOMWARE, ABNORMAL exactly for another item, and EMPTY exactly for no item |
| PyMap.ScanOutcome | src/bitmasher_game/TextBasedGame.py:542-557 | a scan gives ERROR exactly when it can fail and the failure draw says so; a scan that cannot fail classifies the item |
| PyMap.ScanLabel | src/bitmasher_game/TextBasedGame.py:565-569 | definition, no contract: the text shown for each stored scan result; `TryAppendScanResult` states how it is used |
| PyMap.TryAppendScanResult | src/bitmasher_game/TextBasedGame.py:559-571 | the message comes back unchanged exactly when the room was never scanned, and otherwise has its scan label appended |
| PyMap.TreeIsReciprocal | src/bitmasher_game/TextBasedGame.py:531-535 | in a generated map every link is reciprocal: `a[d] == b` implies `b[opposite(d)] == a` |
| PyMap.AttachKeepsTree | src/bitmasher_game/TextBasedGame.py:635-636 | linking a fresh room into a free slot of an existing room keeps the map a tree, the new room hanging below the old one |
| PyMap.ShapeKeepsTree | src/bitmasher_game/TextBasedGame.py:542-557 | changing scan results and items, but no link or kind, keeps the map a tree |
| PyMap.EveryRoomReachable | src/bitmasher_game/TextBasedGame.py:600-645 | every room of a generated map is reached from the start room by following its path of directions |
| PyMap.Network.constructor | src/bitmasher_game/TextBasedGame.py:584 | the map starts as the lone unscanned start room of the given kind, holding no item |
| PyMap.Network.SetAdjacent | src/bitmasher_game/TextBasedGame.py:531-535 | both link slots are written, and every other slot of every room keeps its value |
| PyMap.Network.Attach | src/bitmasher_game/TextBasedGame.py:635-636 | a fresh room with the given kind and item is appended and linked into the free slot, the map stays a tree, and no other room changes kind or item |
| PyMap.Network.TryScan | src/bitmasher_game/TextBasedGame.py:542-557 | the scan result is stored on the room and returned, and nothing else changes |
| PyMap.Network.ClearItem | src/bitmasher_game/TextBasedGame.py:774 | the room's item becomes NONE and nothing else changes |
| PyGenerator.Shuffled | src/bitmasher_game/TextBasedGame.py:588 | a shuffle keeps the length and the multiset of the list |
| PyGenerator.Moves | src/bitmasher_game/TextBasedGame.py:617-619 | a walk may move exactly into the linked directions other than the way back |
| PyGenerator.Branches | src/bitmasher_game/TextBasedGame.py:629-630 | a walk may branch exactly into the free directions |
| PyGenerator.Items | src/bitmasher_game/TextBasedGame.py:509-517 | the item slot of every room, in creation order |
| PyGenerator.DepthBound | src/bitmasher_game/TextBasedGame.py:613-637 | a room lies no deeper than its index, since every room hangs below an older one |
| PyGenerator.MoveDescends | src/bitmasher_game/TextBasedGame.py:616-626 | a walk never moves back, so each move goes one room deeper into the tree |
| PyGenerator.Walk | src/bitmasher_game/TextBasedGame.py:609-637 | a walk either branches, linking exactly one fresh room with the pool's item into a free slot of an existing room, or leaves the map unchanged; the budget runs out only on a map of more than 101 rooms |
| PyGenerator.ItemPool | src/bitmasher_game/TextBasedGame.py:585-589 | the item pool is the required item list, shuffled, with RANSOMWARE appended last |
| PyGenerator.SystemPool | src/bitmasher_game/TextBasedGame.py:586-592 | the system pool is a permutation of every kind but the bootloader |
| PyGenerator.PlaceOne | src/bitmasher_game/TextBasedGame.py:609-642 | a placed item adds one leaf room with that item and kind; an item not placed leaves the map as it was |
| PyGenerator.Grow | src/bitmasher_game/TextBasedGame.py:594-645 | a complete run lays out the start room and one room per pool entry, at most 15, whose kinds follow the system pool and whose last room, a dead end, holds the RANSOMWARE; the item index jumps to the RANSOMWARE exactly when the pool has at least 15 entries |
| PyGenerator.GrowStep | src/bitmasher_game/TextBasedGame.py:600-645 | one outer round keeps the loop invariant: a placed room advances the item index, and a walk that ran out of draws leaves the state as it was |
| PyGenerator.DropStep | src/bitmasher_game/TextBasedGame.py:651-652 | each unit the clean-up loop removes is still required, so its removal succeeds |
| PyGenerator.DropUnplaced | src/bitmasher_game/TextBasedGame.py:648-652 | the clean-up loop removes one unit for each pool entry from `from` up to the RANSOMWARE, after which the required items are exactly the units placed before `from` |
| PyGenerator.GenerateMap | src/bitmasher_game/TextBasedGame.py:581-669 | a complete generation lays out a tree rooted at the item-less bootloader with up to 15 rooms from the pools, the RANSOMWARE last; the surplus units are dropped, after which the rooms hold exactly the required items, the RANSOMWARE and the start room's NONE; with fewer than 15 units nothing is dropped |
| PyGenerator.MakePools | src/bitmasher_game/TextBasedGame.py:585-592 | the pools are `ItemPool` and `SystemPool` |
| PyGenerator.LayOut | src/bitmasher_game/TextBasedGame.py:584-645 | the start room followed by the rooms the outer loop attaches |
| PyGenerator.FinishMap | src/bitmasher_game/TextBasedGame.py:648-652 | after the lay-out the surplus units are removed, and the rooms then hold exactly the required items; with fewer than 15 required units nothing is removed |
| PyGenerator.DropLeftovers | src/bitmasher_game/TextBasedGame.py:648-652 | the units that found no room are taken back out of the required items, which are then the units placed |
| PyGenerator.NoneLeft | src/bitmasher_game/TextBasedGame.py:648 | without degraded mode the clean-up removes nothing |
| PyGenerator.PoolFacts | src/bitmasher_game/TextBasedGame.py:585-589 | the pool entries before the RANSOMWARE are the required units, split where the rooms run out; with fewer than 15 units none is left over |
| PyGenerator.RoomsHoldRequired | src/bitmasher_game/TextBasedGame.py:584-645 | the start room's NONE, the placed units and the RANSOMWARE are the required items plus NONE and the RANSOMWARE |
| PyGenerator.BuildRequired | src/bitmasher_game/TextBasedGame.py:675-683 | the seven `addItem` calls each add a new key, giving the seven required entries in insertion order |
| PyGenerator.RequiredEntries | src/bitmasher_game/TextBasedGame.py:673-685 | definition, no contract: the required entries in insertion order; `RequiredShape` states their shape |
| PyGenerator.RequiredShape | src/bitmasher_game/TextBasedGame.py:673-685 | the required entries have distinct keys, positive counts, and 5 + fragments + vulnerabilities units |
| PyGenerator.GenerateRequiredItems | src/bitmasher_game/TextBasedGame.py:673-685 | the required items are the seven entries, fragment and vulnerability counts between 1 and 3, 7 to 11 units in all |
| PyBattle.Fighter.constructor | src/bitmasher_game/TextBasedGame.py:319-322 | a fighter starts with the given health and damage |
| PyBattle.Fighter.Attack | src/bitmasher_game/TextBasedGame.py:324-327 | the victim, possibly the attacker itself, loses exactly the attacker's damage, which is returned; no damage changes |
| PyBattle.Fighter.IsDead | src/bitmasher_game/TextBasedGame.py:329-330 | definition, no contract: health at or below zero; `ExtractWins` and the battle lemmas use it |
| PyBattle.Missing | src/bitmasher_game/TextBasedGame.py:344-348 | definition, no contract: whether the required inventory still lists a type; `CapabilitiesOf` states each flag through it |
| PyBattle.CapabilitiesOf | src/bitmasher_game/TextBasedGame.py:344-348 | each capability flag holds exactly when the items it stands for are no longer required |
| PyBattle.GateOf | src/bitmasher_game/TextBasedGame.py:396-405 | an extraction meets the first missing capability in the order dereferencer, memory alteration, privileges, and is permitted exactly when all three are present |
| PyBattle.ExtractionNeedsCapabilities | src/bitmasher_game/TextBasedGame.py:344-405 | extraction is permitted exactly when neither the dereferencer, the two memory accesses nor the OS override is still required |
| PyBattle.SetupOf | src/bitmasher_game/TextBasedGame.py:344-355 | definition, no contract: the capabilities and the two fighters' damages; `SetupValues` states their values |
| PyBattle.InitialHealths | src/bitmasher_game/TextBasedGame.py:350-355 | definition, no contract: the two fighters' starting healths; `SetupValues` states their values |
| PyBattle.SetupValues | src/bitmasher_game/TextBasedGame.py:350-355 | the player starts at 50 health with 15 damage; the RANSOMWARE has 50 + 25 health per missing fragment and 10 + 10 damage per missing vulnerability, and exceeds the base values exactly when some are missing |
| PyBattle.Retaliate | src/bitmasher_game/TextBasedGame.py:443-454 | the payload lowers the player's health by the opponent's damage, with no clamping, and ends the battle exactly when that health is at or below zero |
| PyBattle.OnePass | src/bitmasher_game/TextBasedGame.py:374-454 | a pass that goes on consumes at least one line |
| PyBattle.Round | src/bitmasher_game/TextBasedGame.py:391-451 | definition, no contract: the healths and outcome after one choice in the battle; `ExtractEffect`, `NothingEffect`, `ExitEffect`, `OtherChoiceEffect` and `GatedRound` state its cases |
| PyBattle.Battle | src/bitmasher_game/TextBasedGame.py:374-454 | definition, no contract: the outcome of rounds run until one ends the battle; `TimeoutFirst`, `SandboxedIgnoresClock`, `GatedNeverWins`, `ExtractWins` and `ExtractRound` state its properties, and the method `Fight` is proved against it |
| PyBattle.Encounter | src/bitmasher_game/TextBasedGame.py:336-454 | definition, no contract: `doRansomwareBattle` from its intro prompt on; `CollectedEverythingWins` states its properties, and the method `DoRansomwareBattle` is proved against it |
| PyBattle.ExtractEffect | src/bitmasher_game/TextBasedGame.py:391-417 | a permitted EXTRACT lowers the opponent's health by exactly the player's damage; a refused one only lets the opponent retaliate; EXTRACT wins exactly when it is permitted and brings the opponent to zero or below |
| PyBattle.NothingEffect | src/bitmasher_game/TextBasedGame.py:419-421 | doing NOTHING changes no health before the retaliation |
| PyBattle.DanceEffect | src/bitmasher_game/TextBasedGame.py:423-437 | the DANCE costs the player its own damage, loses at once if that kills it, and otherwise the retaliation follows |
| PyBattle.ExitEffect | src/bitmasher_game/TextBasedGame.py:439-440 | EXIT ends the battle with no retaliation |
| PyBattle.OtherChoiceEffect | src/bitmasher_game/TextBasedGame.py:390-454 | an accepted line that is none of the four letters, such as "xx", only lets the opponent retaliate |
| PyBattle.TimeoutFirst | src/bitmasher_game/TextBasedGame.py:374-378 | without the sandboxer, a clock reading at or past the deadline loses the battle before any choice is read |
| PyBattle.SandboxedIgnoresClock | src/bitmasher_game/TextBasedGame.py:375 | with the sandboxer the battle does not depend on the clock |
| PyBattle.GatedNeverWins | src/bitmasher_game/TextBasedGame.py:396-406 | without every extraction capability the battle is never won and the opponent's health never changes |
| PyBattle.GatedPass | src/bitmasher_game/TextBasedGame.py:374-454 | without every extraction capability one pass never wins and never touches the opponent |
| PyBattle.GatedRound | src/bitmasher_game/TextBasedGame.py:390-454 | without every extraction capability one round never wins and never touches the opponent |
| PyBattle.CollectedEverythingWins | src/bitmasher_game/TextBasedGame.py:336-454 | with nothing left to collect, four EXTRACTs win the battle, leaving the player at 20 and the RANSOMWARE at -10 |
| PyBattle.NothingMissing | src/bitmasher_game/TextBasedGame.py:344-355 | with nothing missing every flag holds, and the fight is 50 against 50 health, 15 against 10 damage |
| PyBattle.ExtractWins | src/bitmasher_game/TextBasedGame.py:405-417 | with the sandboxer and every extraction capability, an EXTRACT that brings the opponent to zero or below wins at once |
| PyBattle.ExtractRound | src/bitmasher_game/TextBasedGame.py:405-454 | with the sandboxer and every extraction capability, an EXTRACT that leaves both fighters alive lowers the opponent's health by the player's damage and the player's by the opponent's, and the battle goes on after the pause line |
| PyBattle.SelectX | src/bitmasher_game/TextBasedGame.py:390 | a typed "x" is accepted at once by the fight menu |
| PyBattle.PlayRound | src/bitmasher_game/TextBasedGame.py:391-454 | one round on the two fighters ends with the healths and the outcome that `Round` gives, and no damage changes |
| PyBattle.NewFightMenu | src/bitmasher_game/TextBasedGame.py:357-362 | the fight menu offers x, n, d and e, in that order |
| PyBattle.DoRansomwareBattle | src/bitmasher_game/TextBasedGame.py:336-454 | the battle ends as `Encounter` specifies for the inventory still required |
| PyBattle.Fight | src/bitmasher_game/TextBasedGame.py:374-454 | the battle loop ends as `Battle` specifies from the fighters' healths |
| PyBattle.Bout | src/bitmasher_game/TextBasedGame.py:390-454 | one pass on the fighters either ends the battle as `OnePass` says, or leaves the healths and lines for the next pass |
| PyBattle.AfterChoice | src/bitmasher_game/TextBasedGame.py:417-454 | the rest of a pass after the choice: a round that ends the battle ends it; otherwise `awaitPlayer()` reads one more line or finds the input ended; a pass that goes on has fewer lines left |
| PyBattle.AfterRound | src/bitmasher_game/TextBasedGame.py:417-454 | after a round, the battle ends or goes on as `AfterChoice` says, including at the end of the input |
| PyGame.Deadline | src/bitmasher_game/TextBasedGame.py:718 | definition, no contract: the lose time; `DeadlineAhead` states its bounds |
| PyGame.DeadlineAhead | src/bitmasher_game/TextBasedGame.py:718 | every missing unit buys eight seconds, in nanoseconds, and the deadline is in the future exactly when something is required |
| PyGame.Slot | src/bitmasher_game/TextBasedGame.py:740-753 | an option is added exactly when its condition holds |
| PyGame.MenuOptions | src/bitmasher_game/TextBasedGame.py:738-758 | definition, no contract: the room menu's letters in the order they are added; `MenuOffers` states which letters it offers |
| PyGame.MenuOffers | src/bitmasher_game/TextBasedGame.py:738-758 | the room menu offers a move exactly towards a linked neighbour, TAKE exactly when the room holds an item, and always SCAN, INVENTORY and EXIT |
| PyGame.Targets | src/bitmasher_game/TextBasedGame.py:781 | the SCAN loop visits the four neighbour slots in direction order |
| PyGame.ScanNeighbours | src/bitmasher_game/TextBasedGame.py:781-785 | SCAN uses one failure draw per linked neighbour, rescans exactly those rooms, and changes no link, item, kind or other room |
| PyGame.MoveOf | src/bitmasher_game/TextBasedGame.py:762-769 | definition, no contract: the direction a move letter names; `MoveOffered` and `MoveEffect` state what a move does |
| PyGame.MoveOffered | src/bitmasher_game/TextBasedGame.py:740-769 | a move letter the menu accepts leads to a linked room |
| PyGame.Act | src/bitmasher_game/TextBasedGame.py:760-791 | acting on a choice either ends the game or leaves a state whose room is in the map |
| PyGame.Taken | src/bitmasher_game/TextBasedGame.py:771-774 | TAKE leaves a state whose room is in the map |
| PyGame.Observe | src/bitmasher_game/TextBasedGame.py:731 | the scan that cannot fail stores the classification of the current room on it, and nothing else changes |
| PyGame.Play | src/bitmasher_game/TextBasedGame.py:720-791 | definition, no contract: how the exploration loop ends from a state; `TimeoutBeforeBattle`, `BattleEntry`, `InventoryPause` and `NeverCrashes` state its properties, and the method `Explore` is proved against it |
| PyGame.PlayIteration | src/bitmasher_game/TextBasedGame.py:720-791 | an iteration that reaches the menu acts on a choice the menu allowed, in the state after the current room was scanned |
| PyGame.TimeoutBeforeBattle | src/bitmasher_game/TextBasedGame.py:721-728 | once the clock reaches the deadline the game is lost, even in the RANSOMWARE room |
| PyGame.BattleEntry | src/bitmasher_game/TextBasedGame.py:726-728 | before the deadline, the RANSOMWARE room starts the battle with the required items left, and the game ends with it |
| PyGame.InventoryPause | src/bitmasher_game/TextBasedGame.py:787-788 | INVENTORY waits for one more line, then the loop goes on from the scanned state; without that line the game ends |
| PyGame.InventoryEffect | src/bitmasher_game/TextBasedGame.py:757 | INVENTORY is offered in every room and leaves the state as it was |
| PyGame.MoveEffect | src/bitmasher_game/TextBasedGame.py:762-769 | a move letter goes to the linked room in that direction and changes nothing else |
| PyGame.LongChoiceIgnored | src/bitmasher_game/TextBasedGame.py:760-791 | any accepted line longer than one character leaves everything as it was |
| PyGame.UpTypedInFull | src/bitmasher_game/TextBasedGame.py:760-769 | typing "up" next to a room above passes the menu's check, is returned whole, and does not move |
| PyGame.ScanEffect | src/bitmasher_game/TextBasedGame.py:776-785 | SCAN rescans exactly the linked neighbours and keeps the room, the items and every other room |
| PyGame.TakeTransfer | src/bitmasher_game/TextBasedGame.py:771-774 | TAKE in a room holding a collectible is offered and never raises; it adds one unit to the inventory, removes one from the required items, empties the room, keeps every other count, and keeps the invariant |
| PyGame.ActTake | src/bitmasher_game/TextBasedGame.py:771-774 | a TAKE whose removal raises no `KeyError` continues with the taken state |
| PyGame.TakeCounts | src/bitmasher_game/TextBasedGame.py:771-774 | emptying a room takes one unit of its item off the rooms' bag, and one unit can then be taken off the required items |
| PyGame.ObserveKeepsGood | src/bitmasher_game/TextBasedGame.py:731 | scanning the current room keeps the loop invariant |
| PyGame.ActKeepsGood | src/bitmasher_game/TextBasedGame.py:760-791 | no choice the menu accepts crashes, and every choice keeps the invariant that the required items are the items lying in the rooms |
| PyGame.NeverCrashes | src/bitmasher_game/TextBasedGame.py:720-791 | from a consistent state the game never raises `KeyError` on a TAKE, whatever the clock, lines and draws |
| PyGame.StartGood | src/bitmasher_game/TextBasedGame.py:714-717 | a freshly generated game is consistent and has one room per required unit plus the start and RANSOMWARE rooms |
| PyGame.BuildMenu | src/bitmasher_game/TextBasedGame.py:738-758 | the menu is rebuilt from empty with exactly the options of the room |
| PyGame.Offer | src/bitmasher_game/TextBasedGame.py:740-753 | a conditional `addOption` appends the option exactly when its condition holds |
| PyGame.ScanAround | src/bitmasher_game/TextBasedGame.py:781-785 | the SCAN loop on the arena gives the rooms and draws `ScanNeighbours` specifies, or reports the draws ran out |
| PyGame.Explore | src/bitmasher_game/TextBasedGame.py:720-791 | the exploration loop ends as `Play` specifies from the objects' state |
| PyGame.Turn | src/bitmasher_game/TextBasedGame.py:730-791 | the scan, menu, selection and action of one iteration match the specification |
| PyGame.AwaitAfter | src/bitmasher_game/TextBasedGame.py:115-118 | the ENTER prompt after INVENTORY takes one line, if there is one |
| PyGame.Respond | src/bitmasher_game/TextBasedGame.py:762-791 | the `if choice == ...` chain on the objects does what `Act` specifies |
| PyGame.RunGame | src/bitmasher_game/TextBasedGame.py:711-791 | `runGame` never crashes; missing input or draws end it as out of input; a complete game starts consistent with 7 to 11 units required, a deadline 56 to 88 seconds ahead, and ends as `Play` specifies |
| PyGame.Generate | src/bitmasher_game/TextBasedGame.py:714-715 | the required items and a tree map whose rooms hold exactly those items, the RANSOMWARE and the start room's NONE |
| PyGame.Begin | src/bitmasher_game/TextBasedGame.py:717-791 | the deadline is computed from the first clock reading, and the loop never crashes |
| CInventory.Find | bitmasher.c:402-418 | the position found holds the type and no earlier one does; none exactly when the type is absent |
| CInventory.Bump | bitmasher.c:406-411 | definition, no contract: one pass of the merge loop over an entry; `AddedEffect` and `AddedMerges` state its effect |
| CInventory.RemoveFrom | bitmasher.c:427-442 | definition, no contract: the removal loop from index i; `RemoveFromSkips`, `RestSkipped` and `RemovedShape` state its effect |
| CInventory.SwapRemove | bitmasher.c:430-436 | the last entry takes the removed slot and the inventory shrinks by one |
| CInventory.Added | bitmasher.c:402-418 | definition, no contract: the entries after `inventory_add_item`; `AddedEffect` and `AddedFinds` state its effect |
| CInventory.AddedEffect | bitmasher.c:402-418 | adding keeps the types distinct and free of `ITEM_NONE`, raises the type's quantity and the total by the amount, keeps every other quantity, and grows the inventory exactly when a new type is added |
| CInventory.AddedMerges | bitmasher.c:405-411 | an item of a stored type is merged into its entry |
| CInventory.AddedAppends | bitmasher.c:413-417 | an item of a new type is appended |
| CInventory.AddedFinds | bitmasher.c:402-418 | adding neither removes a type nor adds any type but its own |
| CInventory.Removed | bitmasher.c:420-443 | definition, no contract: the entries after `inventory_try_remove_item`; `RemovedShape`, `RemovedWhole`, `RemovedPart` and `RemovedAbsent` state its effect |
| CInventory.RemovedShape | bitmasher.c:420-443 | removal swap-removes the entry when the amount covers its quantity, and otherwise subtracts it in place |
| CInventory.RemovedWhole | bitmasher.c:430-436 | a removal covering the quantity takes exactly that entry out of the multiset of entries, makes the type absent, and keeps every other quantity |
| CInventory.SwapRemoveMultiset | bitmasher.c:433-434 | swap-removal keeps every other (type, quantity) pair |
| CInventory.RemovedPart | bitmasher.c:438-440 | a removal below the quantity lowers that type's quantity by the amount and keeps the others |
| CInventory.RemovedAbsent | bitmasher.c:420-443 | removing an absent type, or `ITEM_NONE`, changes nothing |
| CInventory.FewCollectibles | bitmasher.c:359-371 | an inventory of distinct types without `ITEM_NONE` or the RANSOMWARE has at most seven entries |
| CInventory.Inventory.constructor | bitmasher.c:396-400 | a zero-initialised inventory is empty |
| CInventory.Inventory.AddItem | bitmasher.c:402-418 | the merge loop and the append give `Added` of the old entries |
| CInventory.Inventory.TryRemoveItem | bitmasher.c:420-443 | the search loop gives `Removed` of the old entries, whose cases `RemovedShape` states |
| CInventory.Inventory.Take | bitmasher.c:428-441 | the loop body on the matching entry swap-removes it or lowers it |
| CInventory.Inventory.Assign | bitmasher.c:587 | the struct copy gives the same entries |
| CInventory.Inventory.Clear | bitmasher.c:445-449 | clearing leaves no entries |
| CMap.WithNeighbor | bitmasher.c:680-682 | one neighbour slot changes and everything else stays |
| CMap.View | bitmasher.c:544-550 | a C system is seen as an unscanned room with the same kind, item and neighbours |
| CMap.Link | bitmasher.c:680-682 | definition, no contract: the systems after the two adjacency writes that join a new system to its parent; `ViewsLink` and `LinkInRange` state its properties |
| CMap.ViewsLink | bitmasher.c:680-682 | linking C systems is linking the rooms they are seen as |
| CMap.TreeInRange | bitmasher.c:556-563 | in a generated map every neighbour index names a system of the arena |
| CMap.LinkInRange | bitmasher.c:674-682 | appending a system and linking it keeps every neighbour index in the arena and changes no type or item |
| CMap.Map.constructor | bitmasher.c:575-579 | the zeroed arena holds 50 zero systems and none in use |
| CMap.Map.AllocSystem | bitmasher.c:565-570 | the next slot, still zero, is handed out and the count grows by one |
| CMap.Map.MakeRoot | bitmasher.c:582-584 | the root is slot 0, a bootloader holding no item, and alone it forms a tree |
| CMap.Map.Attach | bitmasher.c:674-683 | a new system of the given type and item is linked below an existing one in its free direction, and the map stays a tree |
| CMap.Map.Graft | bitmasher.c:674-682 | the slot is allocated, filled and linked both ways |
| CGenerator.Swap | bitmasher.c:606-608 | the two slots are exchanged and every other slot stays |
| CGenerator.Target | bitmasher.c:605 | the slot drawn lies between i and the end |
| CGenerator.ShuffleTo | bitmasher.c:600-609 | the first i turns of the forward Fisher-Yates loop keep the length; `ShuffleToPermutes`, `ShuffleToKeeps` and `ShuffleToQuantities` state that it permutes |
| CGenerator.ShuffleToPermutes | bitmasher.c:600-609 | the forward Fisher-Yates loop permutes its array |
| CGenerator.SwapKeeps | bitmasher.c:765-770 | exchanging two inventory slots keeps the types distinct, free of `ITEM_NONE` and positive |
| CGenerator.ShuffleToKeeps | bitmasher.c:765-770 | shuffling the required items keeps them an inventory |
| CGenerator.ShuffleToQuantities | bitmasher.c:765-770 | shuffling the required items keeps every type's quantity and the total |
| CGenerator.Shuffled | bitmasher.c:764-770 | definition, no contract: the whole shuffle loop; `RequiredShape` and `ShuffledOrder` state its properties, and the method `Shuffle` is proved against it |
| CGenerator.Shuffle | bitmasher.c:765-770 | the in-place loop over the first n slots gives `Shuffled` of them, leaves the rest, and makes n `rand()` calls |
| CGenerator.AddAllFresh | bitmasher.c:734-761 | adding distinct new types to an empty inventory lists them in order |
| CGenerator.RequiredFromEmpty | bitmasher.c:734-761 | from the zeroed inventory the seven additions make seven entries, one per collectible type |
| CGenerator.RequiredListFree | bitmasher.c:734-761 | the required items hold neither the RANSOMWARE nor `ITEM_NONE` |
| CGenerator.RequiredListDistinct | bitmasher.c:734-761 | the required types are distinct |
| CGenerator.RequiredListQuantities | bitmasher.c:734-761 | each type is required in the quantity asked for |
| CGenerator.RequiredList | bitmasher.c:731-762 | definition, no contract: the required items as listed, before the shuffle; `RequiredListDistinct`, `RequiredListQuantities` and `RequiredListTotal` state its shape |
| CGenerator.RequiredShape | bitmasher.c:731-771 | after the shuffle the required items are seven distinct positive entries with 5 + fragments + vulnerabilities units, each type in the quantity asked for |
| CGenerator.RequiredListTotal | bitmasher.c:734-761 | the required items hold 5 + fragments + vulnerabilities units |
| CGenerator.AddRequired | bitmasher.c:734-761 | the seven additions with the two quantities `1 + rand() % 3` |
| CGenerator.AddList | bitmasher.c:734-761 | the seven additions add the required list to the inventory |
| CGenerator.GenerateRequiredItems | bitmasher.c:731-771 | the inventory becomes the shuffled required items, after two quantity draws and one draw per entry |
| CMapGenerator.Onward | bitmasher.c:644-654 | the walk may move exactly to the present neighbours other than the system it came from |
| CMapGenerator.Free | bitmasher.c:661-671 | the walk may branch exactly in the directions without a neighbour |
| CMapGenerator.Walk | bitmasher.c:634-688 | a branch is in a free direction of an existing system and needs a step left; a walk makes at most two `rand()` calls per step and exhausts only after at least one per step, since a dead-end step also uses up the budget |
| CMapGenerator.GatherOnward | bitmasher.c:644-654 | the gathering loop lists `Onward` |
| CMapGenerator.GatherFree | bitmasher.c:662-671 | the gathering loop lists `Free` |
| CMapGenerator.Stride | bitmasher.c:640-687 | one step either finds the branch or moves on, as `Walk` specifies |
| CMapGenerator.Roam | bitmasher.c:634-688 | the traversal loop from the root with `MAX_STEPS` steps gives `Walk` |
| CMapGenerator.FirstCollectible | bitmasher.c:624-632 | the entry removed in degraded mode is the first one that is not the RANSOMWARE |
| CMapGenerator.RoundPool | bitmasher.c:622-632 | definition, no contract: the pool a round starts from, cut down to what `Leftovers` keeps once the last system type is reached; `StepKeeps` states its effect |
| CMapGenerator.Leftovers | bitmasher.c:622-632 | degraded mode leaves one entry of a non-empty pool, the RANSOMWARE's when it is there, and no quantity grows |
| CMapGenerator.RemoveFirstCollectible | bitmasher.c:624-632 | one pass of the search removes the whole first non-RANSOMWARE entry |
| CMapGenerator.DropLeftovers | bitmasher.c:622-632 | degraded mode brings the pool to `Leftovers` |
| CMapGenerator.TakeOne | bitmasher.c:698-700 | consuming one unit of the first entry lowers the total by one and only that type's quantity |
| CMapGenerator.Mark | bitmasher.c:690-696 | definition, no contract: the items marked present after one drawn item, as written (`MarkDrawn`) or as corrected (`MarkPlaced`); `MarkKeeps` and `MarkBound` state its properties |
| CMapGenerator.Settle | bitmasher.c:674-703 | definition, no contract: the end of a round that did not overrun; `SettleKeeps`, `SettleHolding`, `SettleMarksPlaced`, `SettleMarksDrawn` and `SettleUncut` state its properties |
| CMapGenerator.SettleKeeps | bitmasher.c:674-703 | the end of a round keeps the generation invariant and lowers the termination measure |
| CMapGenerator.Step | bitmasher.c:618-703 | definition, no contract: one outer round of `generate_map`; `StepKeeps`, `StepHolding`, `StepItems`, `StepMarksPlaced` and `StepUncut` state its properties, and the method `Round` is proved against it |
| CMapGenerator.StepKeeps | bitmasher.c:618-703 | each outer round keeps the invariant and lowers the measure, so the loop ends |
| CMapGenerator.GenLoop | bitmasher.c:618-704 | the generation loop ends with an empty pool, or where the C code would read past `system_pool` |
| CMapGenerator.SystemIndices | bitmasher.c:598-601 | definition, no contract: `system_pool` before the shuffle; `ShuffledOrder` states that the shuffle permutes it |
| CMapGenerator.Branching | bitmasher.c:676-678 | definition, no contract: the system a new branch gets; `SettleKeeps` states that the generation invariant holds after it |
| CMapGenerator.ShuffledOrder | bitmasher.c:598-609 | the shuffled `system_pool` is a permutation of the 15 system indices |
| CMapGenerator.Generated | bitmasher.c:572-721 | the whole generation keeps the invariant and ends with an empty pool or at the overrun |
| CMapGenerator.Consume | bitmasher.c:690-700 | a drawn unit is marked as the marking says and consumed from the pool |
| CMapGenerator.Finish | bitmasher.c:674-703 | the branch gets its new system, the item is marked and consumed, and the system index advances only when the item was placed |
| CMapGenerator.Place | bitmasher.c:674-683 | a branch appends a system of the next pool type holding the item, linked both ways |
| CMapGenerator.Round | bitmasher.c:618-703 | one outer round on the arrays gives `Step` |
| CMapGenerator.Setup | bitmasher.c:575-609 | the arena holds the root alone, the pool is the items plus one RANSOMWARE, the items are cleared, and `system_pool` is shuffled with 15 draws |
| CMapGenerator.MakePool | bitmasher.c:586-596 | the pool is a copy of the items with one RANSOMWARE added, and the items are cleared |
| CMapGenerator.MakeSystemPool | bitmasher.c:598-609 | `system_pool` is the shuffled system indices |
| CMapGenerator.Lay | bitmasher.c:618-704 | the loop on the arrays gives `GenLoop` |
| CMapGenerator.GenerateMap | bitmasher.c:572-721 | `generate_map` gives the map, marked items and draws of `Generated` |
| CMapGenerator.SettleHolding | bitmasher.c:674-703 | a round adds a holder of the drawn type exactly when it branched |
| CMapGenerator.StepHolding | bitmasher.c:618-703 | per type, the systems holding it plus the units left in the pool never grow |
| CMapGenerator.StepItems | bitmasher.c:618-703 | per type, the marked units plus those left in the pool never grow |
| CMapGenerator.MarkBound | bitmasher.c:690-696 | a mark adds at most one unit, of the drawn type |
| CMapGenerator.StepMarksPlaced | bitmasher.c:618-703 | marking only placed items keeps the marks equal to the holders of each collectible type |
| CMapGenerator.StepUncut | bitmasher.c:618-703 | a round on a pool that fits consumes one unit without overrun, and marking every drawn unit keeps each collectible's units |
| CMapGenerator.GenLoopUncut | bitmasher.c:618-704 | a pool that fits is consumed without overrun, and as written every drawn unit is marked |
| CMapGenerator.GeneratedBounds | bitmasher.c:572-721 | a generated map has at most 16 systems and one RANSOMWARE; no type is held or marked more often than it was required |
| CMapGenerator.PlacedItemsMarked | bitmasher.c:690-696 | with the corrected marking, the items left to collect are exactly the collectibles the map holds |
| CMapGenerator.GeneratedUncut | bitmasher.c:572-721 | required items of at most 13 units are all drawn without overrun, and as written every one of them is marked |
| CMapGenerator.Isolated | bitmasher.c:644-671 | a system without neighbours offers nowhere to move and every direction to branch |
| CMapGenerator.IdleWalk | bitmasher.c:639-658 | if every draw asks to move, a walk from a lone root spends all its steps and attaches nothing |
| CMapGenerator.LoneRootBranches | bitmasher.c:660-686 | a walk from a lone root attaches below it at the first draw that is not a move, in the direction the next draw picks |
| CMapGenerator.GenLoopIdle | bitmasher.c:618-704 | with every draw asking to move the map stays the lone root |
| CMapGenerator.DrawnItemsMarked | bitmasher.c:690-696 | as written, an input exists where no item is placed yet every required unit is marked as present |
| CMapGenerator.RansomwareDrawnEarly | bitmasher.c:433-434 | in every round before the last system type whose pool holds RANSOMWARE last among at least three entries and starts with a single unit, consuming that unit swap-removes it, so the next pool is RANSOMWARE followed by the untouched middle entries: RANSOMWARE is drawn next, while other items still wait, not last as the comment at bitmasher.c:590-591 says |
| CSelector.ChunkEnd | bitmasher.c:327-329 | `fgets` reads up to a newline, the end of the input, or 49 characters |
| CSelector.Fgets | bitmasher.c:327-329 | `fgets` fails exactly at the end of input, and otherwise splits off a non-empty chunk of under 50 characters |
| CSelector.FirstNonSpace | bitmasher.c:331-338 | definition, no contract: the character the scan finds, or NUL for a blank chunk; `ChooseSkipsBlank` and `ChooseLine` state its role |
| CSelector.Candidate | bitmasher.c:338-352 | definition, no contract: the lowered character, when it is one of the options; `ChooseSpec` and `ChooseRejects` state its role |
| CSelector.SpaceRun | bitmasher.c:331-337 | the scan stops at the first character that is not white space |
| CSelector.Choose | bitmasher.c:320-353 | definition, no contract: `selector_get_selection` over the input; `ChooseSpec`, `ChooseLetter`, `ChooseSkipsBlank`, `ChooseLine` and `ChooseRejects` state its properties |
| CSelector.ChooseSpec | bitmasher.c:320-353 | with no options the selection is `'\0'` and reads nothing; otherwise a selection is one of the options, never NUL, and leaves a proper suffix of the input unread |
| CSelector.ChooseLetter | bitmasher.c:331-339 | leading spaces are skipped and upper case is folded |
| CSelector.ChooseSkipsBlank | bitmasher.c:331-348 | a blank chunk is rejected and the next one is read |
| CSelector.ChooseLine | bitmasher.c:320-353 | a line holding one option letter selects it |
| CSelector.ChooseRejects | bitmasher.c:340-348 | a line holding a letter that is not an option is skipped |
| CSelector.Selector.constructor | bitmasher.c:298-301 | a zeroed selector has no options |
| CSelector.Selector.AddOption | bitmasher.c:303-311 | the lower-cased option is appended |
| CSelector.Selector.Clear | bitmasher.c:313-317 | clearing leaves no options |
| CSelector.Selector.GetSelection | bitmasher.c:320-353 | the reading loop returns what `Choose` specifies |
| CSelector.Selector.Offers | bitmasher.c:340-348 | the search answers whether the character is an option |
| CSelector.Scan | bitmasher.c:331-337 | the scan returns the chunk's first non-space character, or NUL |
| CGame.Letter | bitmasher.c:803-828 | definition, no contract: the option character of a direction; `LetterRoundTrip` states that it is invertible |
| CGame.DirectionOf | bitmasher.c:846-859 | definition, no contract: the direction a move letter names; `LetterRoundTrip` states that it inverts `Letter` |
| CGame.LetterRoundTrip | bitmasher.c:803-859 | the move letters and the directions correspond one to one |
| CGame.DirectionMenu | bitmasher.c:803-828 | a move letter is offered exactly for each direction with a neighbour |
| CGame.MenuOf | bitmasher.c:799-844 | definition, no contract: the menu `run_game` builds for a system; `MenuSpec` states its options |
| CGame.MenuSpec | bitmasher.c:799-844 | the menu holds 3 to 8 options: the moves towards present neighbours, TAKE exactly when the system holds an item, and always SCAN, INVENTORY and EXIT |
| CGame.Wander | bitmasher.c:786-873 | the game ends in a system of the map |
| CGame.ExitAtOnce | bitmasher.c:867 | a line "e" ends the game where the player is |
| CGame.MoveFollows | bitmasher.c:848-859 | a line naming a direction with a neighbour moves there |
| CGame.MoveUnoffered | bitmasher.c:803-859 | a line naming a direction without a neighbour is not an option, and the player stays |
| CGame.MoveBack | bitmasher.c:848-859 | on a generated map, a move and then the opposite move return to the same system |
| CGame.TakeAborts | bitmasher.c:831-861 | TAKE stops the program at its assertion where the system holds an item, and is skipped elsewhere |
| CGame.ScanAborts | bitmasher.c:863-865 | SCAN and INVENTORY are always offered and stop the program at their assertions |
| CGame.EndsWithoutInput | bitmasher.c:320-329 | at the end of input the game ends where the player is |
| CGame.Required | bitmasher.c:731-771 | definition, no contract: the shuffled required items; `RequiredValid` states their shape |
| CGame.RequiredValid | bitmasher.c:775 | the required items are seven distinct positive entries of at most 11 units, every collectible type among them and no RANSOMWARE |
| CGame.GameMap | bitmasher.c:776 | the generated map never overruns `system_pool` and consumes the whole pool |
| CGame.Game | bitmasher.c:773-876 | definition, no contract: the deadline and ending of `run_game`; `GameBounds` and `DeadlineAsWritten` state its properties, and the method `RunGame` is proved against it |
| CGame.GameBounds | bitmasher.c:778-779 | the deadline lies between now and 56 seconds ahead, and the game ends inside the map |
| CGame.DeadlineAsWritten | bitmasher.c:778-779 | as written the deadline is always 56 seconds away |
| CGame.DrawnKeepsRequired | bitmasher.c:690-696 | as written every collectible type is still required after generation |
| CGame.DeadlineCountsPlaced | bitmasher.c:778-779 | with the corrected marking the deadline counts the required types the map holds |
| CGame.AllCollectibles | bitmasher.c:359-371 | an inventory holding every collectible type once has exactly seven entries |
| CGame.ChoiceMade | bitmasher.c:846 | a choice made in a system is a menu letter, taken from input actually read |
| CGame.MoveTaken | bitmasher.c:846-859 | a chosen move leads to an existing neighbour, where the game goes on |
| CGame.ChosenOption | bitmasher.c:340-350 | a choice from a non-empty menu is one of its options |
| CGame.MenuMove | bitmasher.c:803-828 | a move is offered exactly towards a present neighbour |
| CGame.Offer | bitmasher.c:799-844 | the menu is rebuilt with exactly the options of the system |
| CGame.OfferMoves | bitmasher.c:803-828 | the loop over the directions adds one letter per present neighbour |
| CGame.Explore | bitmasher.c:782-873 | the game loop from the root ends as `Wander` specifies |
| CGame.Turn | bitmasher.c:786-870 | one iteration ends the game or moves on, consuming input, as `Wander` says |
| CGame.RunGame | bitmasher.c:773-876 | `run_game` gives the deadline and ending that `Game` specifies |
| Stub.Room.constructor | TextBasedGame.py:98-103 | a new room has all four neighbours empty and no item |
| Stub.Room.SetSlot | TextBasedGame.py:108 | one slot is written and the other slots and the item stay |
| Stub.Room.SetAdjacent | TextBasedGame.py:105-109 | `self[d]` becomes the room and `room[opposite(d)]` becomes self; every other slot stays, including when the room is self |
| Stub.Accepted | TextBasedGame.py:57-64 | definition, no contract: the test the stub's `getSelection` applies to a line; `Select` states its role |
| Stub.Select | TextBasedGame.py:57-64 | a line is returned exactly when some line is accepted; it is the first accepted line, lower-cased in full and not stripped |
| Stub.SelectDottedCapital | TextBasedGame.py:57-64 | "İ" lowers to 'i' and a combining dot, so it is accepted where "i" is an option and returned with two characters |
| Stub.OptionSelector.constructor | TextBasedGame.py:41-43 | a new menu has no options and no messages |
| Stub.OptionSelector.AddOption | TextBasedGame.py:46-50 | the whole lower-cased code and the message are appended |
| Stub.OptionSelector.GetSelection | TextBasedGame.py:52-64 | the prompt loop returns what `Select` specifies |
| Stub.LongOptionUnreachable | TextBasedGame.py:60 | an option longer than one character can never be chosen: removing it changes no selection |
| Stub.SelectCongruent | TextBasedGame.py:60 | menus that accept the same lines select the same line |

## Left out

- Terminal output and pacing are not modelled: printing, centring,
  `clearScreen`, the delays, `displayInventory`'s listing, the lose sequence,
  the logo, and the start, instructions, about, licence and exit menus.
  What remains is the input they consume.
- The ENTER prompts are modelled only where the main revision's battle and
  INVENTORY consume a line (`awaitPlayer`, src/bitmasher_game/TextBasedGame.py:115-118):
  the intro prompt and the prompt after INVENTORY. The prompts after a win
  or a loss come after the battle's outcome is settled, so they are not
  modelled. C's `await_player` is not part of `run_game`'s modelled path.
- The clock reading for the "time left" display is not modelled; only the
  deadline checks read the clock.
- OS services become inputs: `time_ns()`, `get_time_s()`, `input()`,
  `fgets`, `ioctl` and `sleep_ns`. `handle_stdin_error`'s exit is the
  "out of input" result.
- Probabilities are oracles. `random.random() < MOVE_CHANCE` is a boolean
  in each `Draw`, and `random.random() <= SCAN_FAIL_CHANCE` is a boolean
  per scan. C keeps `rand() % 100 < 70` because `rand` is an input.
- `random.randint(1, 3)` is modelled as `1 + draw % 3`, which covers the
  same values.
- Python's walk is not proved to terminate, because the budget is restored
  on dead-end steps. The finite draw sequence bounds it, and running out of
  draws makes the generation incomplete.
- The walk-failure branch at src/bitmasher_game/TextBasedGame.py:640-642 is
  proved unreachable, so its `tryRemoveItem` and index reuse have no
  behaviour to model. A walk only descends, so it reaches a room with a free
  slot within the map's depth, and the map never has more than 16 rooms.
- The warning block of `generateMap` (src/bitmasher_game/TextBasedGame.py:654-667)
  and C's statistics output (bitmasher.c:706-718) are display only and are
  not modelled. Line 661 would also raise `AttributeError`.
- `garbleString` and `annoyingCase` are cosmetic randomness and are not
  modelled.
- The `TODO` branches of C's `run_game` (bitmasher.c:861-865) are modelled
  only as `Aborted`, their assertion failure.
- An overrun of `system_pool` in C's `generate_map` is undefined behaviour.
  The model stops there with `overrun` set, and proves that the required
  items `run_game` uses never overrun.
- bitmasher.py's `generateMap` fragment (lines 414-431) is broken and is not
  modelled. So is its `runGame` set-up, which raises `NameError` at line 464.
- include/anal.h holds only compiler attribute macros and is not part of
  this model.
- CGame.Wander: movement through the menu is modelled, and the timeout and
  battle are not, because C's `run_game` has no code for them (bitmasher.c:787-790).
- PyInventory.Inventory.TryRemoveItem: the doc comment's promise to return
  False on a missing key is not followed. The model raises `KeyError` as the
  code does, as the outcome `KeyError`.
- Text.PyLowerChar, Text.Lower, PySelector.Sanitize, PySelector.OptionSelector.AddOption,
  Stub.Select, Stub.OptionSelector.AddOption: Python's `lower()` is modelled
  for ASCII, the Latin-1 capitals, U+0130 and U+212A only. Other capitals
  (Greek, Cyrillic, the context-dependent final sigma and the rest of
  Unicode) are kept as they are. In Python none of them becomes an ASCII
  character or changes length, and every option is an ASCII letter. So which
  line is accepted, and whether a choice has one character, are as in
  Python; only the non-ASCII text of a returned choice can differ.
- PyBattle.OnePass: the contract states only the progress measure. What a
  pass does is stated by the effect lemmas `ExtractEffect`, `DanceEffect`
  and the others.
- PyGame.Act and PyGame.Taken: the contracts state only that the state stays
  in the map. The effect of each choice is stated by the lemmas `MoveEffect`,
  `TakeTransfer`, `ScanEffect` and `InventoryEffect`.

## Findings

| source | as written | input that shows it | evidently intended | confidence | as-written member | corrected member |
|---|---|---|---|---|---|---|
| bitmasher.c:690-696 | every consumed non-RANSOMWARE unit is added to `items` ("Mark item as present") whether or not the walk placed it, so `items` ends as all the required units and the deadline at bitmasher.c:778-779 is always 56 seconds | a `rand()` that always returns 0: every step asks to move, the lone root has nowhere to go, nothing is placed, yet all seven types are marked | mark a unit only when `placed_item` holds, so `items` lists what the map holds | not executed | CMapGenerator.DrawnItemsMarked | CMapGenerator.PlacedItemsMarked |
