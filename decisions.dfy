/**
 * Model of `Genome.getAction` of src/simulation/cell/type/organism/genome.ts:
 * classify the target cell, force DIVIDE onto an empty target when the
 * organism has the energy to divide, and otherwise look the category up in
 * the reflex table with NOTHING as the safe default.
 */
module Decisions {
  import opened Options
  import opened Genomes
  import Cells

  /** The energy an organism must exceed to divide. */
  const DivisionEnergy: int := 60

  /** `divisionPossible`. */
  predicate DivisionPossible(o: Cells.Organism)
  {
    o.energy > DivisionEnergy
  }

  /**
   * The classification of `target` as seen by `o`: wall, organic matter,
   * a similar or another organism (by `o`'s genome), and EMPTY for all the
   * rest, a plant included.
   */
  function Classify(o: Cells.Organism, target: Cells.Cell): (t: Target)
    ensures t == Wall <==> target.Wall?
    ensures t == Organic <==> target.Organic?
    ensures t == OrganismSimilar <==> target.OrganismCell? && IsSimilar(o.genome, target.organism.genome)
    ensures t == OrganismOther <==> target.OrganismCell? && !IsSimilar(o.genome, target.organism.genome)
    ensures t == Empty <==> target.Empty? || target.Plant?
  {
    match target
    case Wall => Wall
    case Organic => Organic
    case OrganismCell(other) =>
      if IsSimilar(o.genome, other.genome) then OrganismSimilar else OrganismOther
    case _ => Empty
  }

  /** DIVIDE is forced: the organism can divide and the target is EMPTY. */
  predicate Forced(o: Cells.Organism, target: Cells.Cell)
  {
    DivisionPossible(o) && Classify(o, target) == Empty
  }

  /** `g.getAction(o, target)`. */
  function GetAction(g: Genome, o: Cells.Organism, target: Cells.Cell): (a: Action)
    ensures Forced(o, target) ==> a == Divide
    ensures !DivisionPossible(o) ==> a != Divide
    ensures !Forced(o, target) ==> a == Nothing || Reflex(g, Classify(o, target)) == Some(a)
    ensures !Forced(o, target) && Reflex(g, Classify(o, target)).None? ==> a == Nothing
    ensures !Forced(o, target) && Reflex(g, Classify(o, target)) == Some(Divide) ==>
      (a == Divide <==> DivisionPossible(o))
    ensures forall b :: b != Divide && !Forced(o, target) && Reflex(g, Classify(o, target)) == Some(b) ==> a == b
  {
    var divisionPossible := DivisionPossible(o);
    var targetType := Classify(o, target);
    if divisionPossible && targetType == Empty then Divide
    else
      match Reflex(g, targetType)
      case None => Nothing
      case Some(action) => if action == Divide && !divisionPossible then Nothing else action
  }

  /** An organism with energy 70 facing an empty cell divides even if its EMPTY reflex says NOTHING. */
  lemma DividesOntoEmptyWithEnergy70(g: Genome)
    requires Reflex(g, Empty) == Some(Nothing)
    ensures GetAction(g, Cells.Organism(1, 70, g), Cells.Empty) == Divide
  {
  }

  /** An organism with energy 40 facing a wall does what its WALL reflex says. */
  lemma FollowsWallReflexWithEnergy40(g: Genome, a: Action)
    requires Reflex(g, Wall) == Some(a) && a != Divide
    ensures GetAction(g, Cells.Organism(1, 40, g), Cells.Wall) == a
  {
  }
}
