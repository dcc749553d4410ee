/**
 * Model of the organism genome of src/simulation/cell/type/organism/genome.ts:
 * its two scalar parameters, its reflex table, the similarity test and the
 * randomised `clone` and `createRandom`. The decision function `getAction`
 * needs the cell variants and lives in module Decisions.
 *
 * Every random draw is a parameter whose `requires` states its range:
 * `randomInt(a, b)` yields an integer in [a, b] (both ends included: the key
 * draw `randomInt(0, keys.length - 1)` must reach the last key), and
 * `Math.random()` yields a real in [0, 1).
 */
module Genomes {
  import opened Options

  /** The step by which a mutation moves a scalar parameter (`MUTATION_POWER`). */
  const MutationPower: int := 5

  /** The categories a target cell is classified into. */
  datatype Target = Empty | Wall | Organic | OrganismSimilar | OrganismOther

  /** The keys of `Target` in the order `Object.keys(Target)` lists them. */
  const Targets: seq<Target> := [Empty, Wall, Organic, OrganismSimilar, OrganismOther]

  /** Every category is one of the listed keys. */
  lemma TargetsComplete(t: Target)
    ensures t in Targets
  {
    match t
    case Empty => assert Targets[0] == t;
    case Wall => assert Targets[1] == t;
    case Organic => assert Targets[2] == t;
    case OrganismSimilar => assert Targets[3] == t;
    case OrganismOther => assert Targets[4] == t;
  }

  /**
   * The organism actions. Only NOTHING and DIVIDE matter to the genome; the
   * other members of the enumeration (moves, turns, eating, attacking) are
   * told apart by a code.
   */
  datatype Action = Nothing | Divide | Other(code: nat)

  /**
   * A reflex table. A key bound to None is present with the value
   * `undefined`, which is what `clone` copies for a key its source lacks.
   */
  type Reflexes = map<Target, Option<Action>>

  datatype Genome = Genome(mutationChance: int, similarityLimit: int, reflexes: Reflexes)

  /** `reflexes[t]`: None when the key is missing or undefined. */
  function Reflex(g: Genome, t: Target): Option<Action>
  {
    if t in g.reflexes then g.reflexes[t] else None
  }

  /** `compare`: the similarity metric, a stub that returns 0 whatever it is given. */
  function Compare(g: Genome, other: Genome): int
  {
    0
  }

  /** `isSimilar`: similar when the metric reaches the similarity limit. */
  function IsSimilar(g: Genome, other: Genome): (r: bool)
    ensures r <==> g.similarityLimit <= 0
  {
    Compare(g, other) >= g.similarityLimit
  }

  /** The signed mutation step: draw 1 means minus, draw 0 means plus. */
  function MutationStep(signDraw: int): int
  {
    if signDraw == 1 then -MutationPower else MutationPower
  }

  /** 1 if the two genomes disagree on the reflex for `t`, else 0. */
  function Differs(g: Genome, h: Genome, t: Target): nat
  {
    if Reflex(g, t) == Reflex(h, t) then 0 else 1
  }

  /** How many of the seven genome components differ between `g` and `h`. */
  function ChangeCount(g: Genome, h: Genome): nat
  {
    (if g.mutationChance == h.mutationChance then 0 else 1)
    + (if g.similarityLimit == h.similarityLimit then 0 else 1)
    + Differs(g, h, Empty) + Differs(g, h, Wall) + Differs(g, h, Organic)
    + Differs(g, h, OrganismSimilar) + Differs(g, h, OrganismOther)
  }

  /** `h` has the scalars of `g` and reflexes equal to those of `g` on every key but `except`. */
  predicate SameBut(g: Genome, h: Genome, except: Option<Target>)
  {
    h.mutationChance == g.mutationChance && h.similarityLimit == g.similarityLimit
    && forall t: Target :: t in h.reflexes && (except != Some(t) ==> h.reflexes[t] == Reflex(g, t))
  }

  /**
   * `clone`: copy the five reflex keys, then, when the mutation chance
   * exceeds `chanceDraw`, apply the one mutation `paramDraw` selects.
   * Draws: chanceDraw = randomInt(0, 100), paramDraw = randomInt(0, 7),
   * signDraw = randomInt(0, 1), keyDraw = randomInt(0, 4), action = randomAction().
   */
  method Clone(g: Genome, chanceDraw: int, paramDraw: int, signDraw: int, keyDraw: int, action: Action)
    returns (r: Genome)
    requires 0 <= chanceDraw <= 100 && 0 <= paramDraw <= 7 && 0 <= signDraw <= 1
    requires 0 <= keyDraw < |Targets|
    ensures forall t: Target :: t in r.reflexes
    ensures ChangeCount(g, r) <= 1
    ensures r.mutationChance - g.mutationChance in {-MutationPower, 0, MutationPower}
    ensures r.similarityLimit - g.similarityLimit in {-MutationPower, 0, MutationPower}
    ensures g.mutationChance <= chanceDraw ==> SameBut(g, r, None)
    ensures g.mutationChance > chanceDraw && paramDraw == 0 ==>
      r == Genome(g.mutationChance + MutationStep(signDraw), g.similarityLimit, r.reflexes)
      && SameBut(g, r.(mutationChance := g.mutationChance), None)
    ensures g.mutationChance > chanceDraw && paramDraw == 1 ==>
      r == Genome(g.mutationChance, g.similarityLimit + MutationStep(signDraw), r.reflexes)
      && SameBut(g, r.(similarityLimit := g.similarityLimit), None)
    ensures g.mutationChance > chanceDraw && paramDraw >= 2 ==>
      SameBut(g, r, Some(Targets[keyDraw])) && r.reflexes[Targets[keyDraw]] == Some(action)
  {
    var similarityLimit := g.similarityLimit;
    var mutationChance := g.mutationChance;
    var reflexes: Reflexes := map[];
    for i := 0 to |Targets|
      invariant forall t :: t in reflexes <==> t in Targets[..i]
      invariant forall t :: t in reflexes ==> reflexes[t] == Reflex(g, t)
    {
      reflexes := reflexes[Targets[i] := Reflex(g, Targets[i])];
    }
    assert Targets[..|Targets|] == Targets;
    forall t: Target
      ensures t in reflexes
    {
      TargetsComplete(t);
    }
    if g.mutationChance > chanceDraw {
      if paramDraw == 0 {
        mutationChance := mutationChance + MutationStep(signDraw);
      } else if paramDraw == 1 {
        similarityLimit := similarityLimit + MutationStep(signDraw);
      } else if paramDraw >= 2 {
        reflexes := reflexes[Targets[keyDraw] := Some(action)];
      }
    }
    r := Genome(mutationChance, similarityLimit, reflexes);
  }

  /**
   * `createRandom`: every key gets the action drawn for it (`actions[i]`
   * for `Targets[i]`), and each scalar is `Math.floor(Math.random() * 100)`.
   */
  method CreateRandom(actions: seq<Action>, chanceDraw: real, limitDraw: real) returns (r: Genome)
    requires |actions| == |Targets|
    requires 0.0 <= chanceDraw < 1.0 && 0.0 <= limitDraw < 1.0
    ensures forall t: Target :: t in r.reflexes && r.reflexes[t].Some?
    ensures forall i :: 0 <= i < |Targets| ==> r.reflexes[Targets[i]] == Some(actions[i])
    ensures 0 <= r.mutationChance < 100 && 0 <= r.similarityLimit < 100
    ensures r.mutationChance as real <= chanceDraw * 100.0 < r.mutationChance as real + 1.0
    ensures r.similarityLimit as real <= limitDraw * 100.0 < r.similarityLimit as real + 1.0
  {
    var reflexes: Reflexes := map[];
    for i := 0 to |Targets|
      invariant forall t :: t in reflexes <==> t in Targets[..i]
      invariant forall j :: 0 <= j < i ==> reflexes[Targets[j]] == Some(actions[j])
    {
      reflexes := reflexes[Targets[i] := Some(actions[i])];
    }
    assert Targets[..|Targets|] == Targets;
    forall t: Target
      ensures t in reflexes && reflexes[t].Some?
    {
      TargetsComplete(t);
    }
    r := Genome((chanceDraw * 100.0).Floor, (limitDraw * 100.0).Floor, reflexes);
  }
}
