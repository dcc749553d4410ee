/**
 * Model of the cell hierarchy. The abstract base class of src/game/cell.ts
 * supplies the defaults `update` (does nothing), `isStatic` (true) and
 * `isEmpty` (false); each concrete variant (Empty, Wall, Organic, Plant,
 * Organism) inherits or overrides them. The hierarchy becomes a closed
 * datatype, and the virtual dispatch becomes an override table per variant
 * that falls back to the base-class default.
 */
module Cells {
  import opened Options
  import Genomes

  /** An organism's own state: its identity, its energy and its genome. */
  datatype Organism = Organism(id: int, energy: int, genome: Genomes.Genome)

  datatype Cell = Empty | Wall | Organic | Plant | OrganismCell(organism: Organism)

  /** The base class's `isStatic()`. */
  function BaseIsStatic(): bool
  {
    true
  }

  /** The base class's `isEmpty()`. */
  function BaseIsEmpty(): bool
  {
    false
  }

  /** The value a variant's own `isStatic` returns, or None where it inherits the base one. */
  function StaticOverride(c: Cell): Option<bool>
  {
    match c
    case Organic => Some(false)
    case OrganismCell(_) => Some(false)
    case _ => None
  }

  /** The value a variant's own `isEmpty` returns, or None where it inherits the base one. */
  function EmptyOverride(c: Cell): Option<bool>
  {
    if c.Empty? then Some(true) else None
  }

  /** Whether the variant replaces the base class's no-op `update`. */
  predicate OverridesUpdate(c: Cell)
  {
    c.Organic? || c.OrganismCell?
  }

  /** `c.isStatic()`, dispatched to the variant or to the base class. */
  function IsStatic(c: Cell): (r: bool)
    ensures StaticOverride(c).None? ==> r == BaseIsStatic()
    ensures r <==> !(c.Organic? || c.OrganismCell?)
  {
    match StaticOverride(c)
    case None => BaseIsStatic()
    case Some(b) => b
  }

  /** `c.isEmpty()`, dispatched to the variant or to the base class. */
  function IsEmpty(c: Cell): (r: bool)
    ensures EmptyOverride(c).None? ==> r == BaseIsEmpty()
    ensures r <==> c.Empty?
  {
    match EmptyOverride(c)
    case None => BaseIsEmpty()
    case Some(b) => b
  }

  /**
   * `c.getId()`, assuming only organisms have a truthy id: organisms carry
   * their identity, and 0 stands for the falsy ids of the other variants.
   */
  function Id(c: Cell): int
  {
    if c.OrganismCell? then c.organism.id else 0
  }

  /** The type tag of a serialized cell. */
  datatype Kind = EmptyKind | WallKind | OrganicKind | PlantKind | OrganismKind

  /** A serialized cell: its type tag and its identity. */
  datatype CellType = CellType(kind: Kind, id: int)

  /** `c.serialize()`: a descriptor that tells the variants apart and keeps the identity. */
  function Serialize(c: Cell): (t: CellType)
    ensures t.id == Id(c)
    ensures t.kind == EmptyKind <==> c.Empty?
    ensures t.kind == WallKind <==> c.Wall?
    ensures t.kind == OrganicKind <==> c.Organic?
    ensures t.kind == PlantKind <==> c.Plant?
    ensures t.kind == OrganismKind <==> c.OrganismCell?
  {
    match c
    case Empty => CellType(EmptyKind, 0)
    case Wall => CellType(WallKind, 0)
    case Organic => CellType(OrganicKind, 0)
    case Plant => CellType(PlantKind, 0)
    case OrganismCell(o) => CellType(OrganismKind, o.id)
  }
}
