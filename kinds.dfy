/** The enumerations shared by every revision of BitMasher: item types, scan
    results, directions and system (room) types, plus the game's tuning
    constants. */
module Kinds {

  datatype Option<T> = None | Some(value: T)

  /** Collectible capabilities, plus the RANSOMWARE marker (stored in a room
      like an item) and the empty-slot marker (Python `ItemType.NONE`, C
      `ITEM_NONE`). */
  datatype ItemType =
    | FullMemoryReadAccess
    | FullMemoryWriteAccess
    | PointerDereferencer
    | OsOverrideCapability
    | RansomwareCodeFragment
    | Vulnerability
    | Sandboxer
    | Ransomware
    | NoItem

  /** Cached outcome of scanning a system; `NotScanned` is Python's
      `ScanResult.NONE`. */
  datatype ScanResult = Empty | Abnormal | Suspicous | Error | NotScanned

  datatype Direction = Up | Down | Left | Right

  /** The order in which a system's neighbours are listed and iterated. */
  const AllDirections: seq<Direction> := [Up, Down, Left, Right]

  predicate Vertical(d: Direction) { d == Up || d == Down }

  /** `Direction.opposite` / `direction_opposite`: the other direction on the
      same axis. */
  function Opposite(d: Direction): (r: Direction)
    ensures r != d
    ensures Vertical(r) == Vertical(d)
  {
    match d
    case Up => Down
    case Down => Up
    case Left => Right
    case Right => Left
  }

  lemma OppositeInvolution(d: Direction)
    ensures Opposite(Opposite(d)) == d
  {
  }

  /** The kinds of system a room can be. */
  datatype SystemType =
    | Bootloader
    | Registry
    | NetworkInterfaces
    | Kernal
    | HardDrive
    | WebSurfer
    | PainterEx
    | BitMasher
    | IloLiSinaInterpreter
    | FreeWriter
    | Pimg
    | EspressoRuntimeEnviroment
    | SuperCad
    | MacroDoi
    | ConwaysIvoryTower
    | RandomInformationGenerator

  /** Every system type except the bootloader, in declaration order: Python's
      `generateSystemPool()` and C's initial `system_pool` (where the
      bootloader sits after `SYSTEM_TYPE_COUNT`). */
  const GeneratedSystems: seq<SystemType> :=
    [ Registry, NetworkInterfaces, Kernal, HardDrive, WebSurfer, PainterEx
    , BitMasher, IloLiSinaInterpreter, FreeWriter, Pimg
    , EspressoRuntimeEnviroment, SuperCad, MacroDoi, ConwaysIvoryTower
    , RandomInformationGenerator ]

  /** C's `SYSTEM_TYPE_COUNT`. */
  const SystemTypeCount: nat := 15

  lemma GeneratedSystemsShape()
    ensures |GeneratedSystems| == SystemTypeCount
    ensures Bootloader !in GeneratedSystems
    ensures forall s: SystemType :: s != Bootloader ==> s in GeneratedSystems
  {
  }

  // Tuning constants. The Python revisions define all of them; the C
  // revision defines only `SECONDS_PER_SYSTEM` and `MAX_STEPS`, with the
  // same values, and has no battle and no nanosecond clock.
  const SecondsPerSystem: int := 8
  const SecondsToNanoseconds: int := 1_000_000_000
  const MaxSteps: int := 100
  const FighterBaseHealth: int := 50
  const CodeFragmentHealthBoost: int := 25
  const FighterBaseDamage: int := 10
  const PlayerDamageBoost: int := 5
  const VulnerabilityDamageBoost: int := 10
}
