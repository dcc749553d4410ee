/**
 * Model of the tick orchestrator of src/game/game.ts: a step counter and a
 * grid, advanced by `update` = plant generation, then one in-place pass
 * that calls `update` on every non-static cell, then `step++`.
 *
 * The grid module that game.ts uses is played by class Grids.Grid. Its
 * iteration yields (x, y, cell) with x outer and y inner, and reads each
 * cell when its position is visited, so a cell sees what earlier cells of
 * the same pass did. The random outcome `Math.random() < chance` at each
 * empty position is the parameter `grows(x, y)`. The `update` methods of
 * the concrete variants are the parameter `act`: given the grid as the cell
 * sees it and its position, the grid calls the cell makes.
 */
module Games {
  import opened Cells
  import opened Grids

  /** The grid calls a cell variant's own `update` makes, given the world and its position. */
  type Behaviour = (World, nat, nat) -> seq<Op>

  /** Every update stays inside the grid, as `insert`'s bounds assertions demand. */
  ghost predicate Lawful(act: Behaviour, width: nat, height: nat)
  {
    forall w, x, y :: AllFit(act(w, x, y), width, height)
  }

  /** `cell.update(context)`: the variant's own update, or the base class's, which does nothing. */
  function CellUpdate(c: Cell, act: Behaviour, w: World, x: nat, y: nat): seq<Op>
  {
    if OverridesUpdate(c) then act(w, x, y) else []
  }

  /** One visit of `generatePlants` to a position. */
  function SeedCell(c: Cell, grows: bool): Cell
  {
    if IsEmpty(c) && grows then Plant else c
  }

  /** The visits of `generatePlants` to the positions of column x. */
  function SeedColumn(column: seq<Cell>, x: nat, grows: (nat, nat) -> bool): (r: seq<Cell>)
    ensures |r| == |column|
    ensures forall y :: 0 <= y < |column| ==> r[y] == SeedCell(column[y], grows(x, y))
  {
    seq(|column|, y requires 0 <= y < |column| => SeedCell(column[y], grows(x, y)))
  }

  /**
   * The cells after `generatePlants`. Nothing happens when no cell is
   * empty. Otherwise a position is visited once and only that position is
   * written, so each position's outcome depends on its own cell alone.
   */
  function Seed(cells: seq<seq<Cell>>, grows: (nat, nat) -> bool): (r: seq<seq<Cell>>)
    ensures |r| == |cells| && forall x :: 0 <= x < |cells| ==> |r[x]| == |cells[x]|
    ensures forall x, y :: 0 <= x < |cells| && 0 <= y < |cells[x]| ==>
      r[x][y] == cells[x][y] || (IsEmpty(cells[x][y]) && r[x][y] == Plant)
    ensures forall x, y :: 0 <= x < |cells| && 0 <= y < |cells[x]| && IsEmpty(cells[x][y]) && grows(x, y) ==>
      r[x][y] == Plant
    ensures forall x, y :: 0 <= x < |cells| && 0 <= y < |cells[x]| && !grows(x, y) ==>
      r[x][y] == cells[x][y]
    ensures CountEmpty(cells) == 0 ==> r == cells
  {
    if CountEmpty(cells) == 0 then cells
    else seq(|cells|, x requires 0 <= x < |cells| => SeedColumn(cells[x], x, grows))
  }

  /** The world after `generatePlants`: plants are taken to carry no id, so only the cells change. */
  function PlantWorld(w: World, grows: (nat, nat) -> bool): World
  {
    w.(cells := Seed(w.cells, grows))
  }

  /** The number of positions of column x that would grow a plant. */
  function PlantedInColumn(column: seq<Cell>, x: nat, grows: (nat, nat) -> bool): nat
  {
    if column == [] then 0
    else
      PlantedInColumn(column[..|column| - 1], x, grows)
      + (if IsEmpty(column[|column| - 1]) && grows(x, |column| - 1) then 1 else 0)
  }

  /** The number of positions that would grow a plant, in scan order. */
  function Planted(cells: seq<seq<Cell>>, grows: (nat, nat) -> bool): nat
  {
    if cells == [] then 0
    else Planted(cells[..|cells| - 1], grows) + PlantedInColumn(cells[|cells| - 1], |cells| - 1, grows)
  }

  lemma {:induction false} PlantedInColumnAtMostEmpty(column: seq<Cell>, x: nat, grows: (nat, nat) -> bool)
    ensures PlantedInColumn(column, x, grows) <= CountEmptyInColumn(column)
    decreases |column|
  {
    if column != [] {
      PlantedInColumnAtMostEmpty(column[..|column| - 1], x, grows);
    }
  }

  /** One `generatePlants` call inserts at most as many plants as there were empty cells. */
  lemma {:induction false} PlantedAtMostEmpty(cells: seq<seq<Cell>>, grows: (nat, nat) -> bool)
    ensures Planted(cells, grows) <= CountEmpty(cells)
    decreases |cells|
  {
    if cells != [] {
      PlantedAtMostEmpty(cells[..|cells| - 1], grows);
      PlantedInColumnAtMostEmpty(cells[|cells| - 1], |cells| - 1, grows);
    }
  }

  lemma {:induction false} SeedColumnAccounts(column: seq<Cell>, x: nat, grows: (nat, nat) -> bool)
    ensures CountEmptyInColumn(SeedColumn(column, x, grows)) + PlantedInColumn(column, x, grows)
      == CountEmptyInColumn(column)
    decreases |column|
  {
    if column != [] {
      var n := |column| - 1;
      var seeded := SeedColumn(column, x, grows);
      SeedColumnAccounts(column[..n], x, grows);
      assert seeded[..n] == SeedColumn(column[..n], x, grows);
      assert CountEmptyInColumn(seeded)
        == CountEmptyInColumn(seeded[..n]) + (if IsEmpty(seeded[n]) then 1 else 0);
      assert seeded[n] == SeedCell(column[n], grows(x, n));
    }
  }

  /** The first k seeded columns of `cells`, with no guard on the empty count. */
  lemma {:induction false} SeedPrefixAccounts(cells: seq<seq<Cell>>, grows: (nat, nat) -> bool, k: nat)
    requires k <= |cells|
    ensures CountEmpty(seq(k, x requires 0 <= x < k => SeedColumn(cells[x], x, grows))) + Planted(cells[..k], grows)
      == CountEmpty(cells[..k])
    decreases k
  {
    if k > 0 {
      var s := seq(k, x requires 0 <= x < k => SeedColumn(cells[x], x, grows));
      var s' := seq(k - 1, x requires 0 <= x < k - 1 => SeedColumn(cells[x], x, grows));
      SeedPrefixAccounts(cells, grows, k - 1);
      SeedColumnAccounts(cells[k - 1], k - 1, grows);
      assert s[..k - 1] == s';
      assert cells[..k][..k - 1] == cells[..k - 1];
    }
  }

  /**
   * Every plant `generatePlants` inserts takes the place of an empty cell:
   * the empty cells left plus the plants inserted are the empty cells before.
   */
  lemma SeedAccounts(cells: seq<seq<Cell>>, grows: (nat, nat) -> bool)
    ensures CountEmpty(cells) != 0 ==> CountEmpty(Seed(cells, grows)) + Planted(cells, grows) == CountEmpty(cells)
  {
    SeedPrefixAccounts(cells, grows, |cells|);
    assert cells[..|cells|] == cells;
  }

  /** The positions (x, y) of column x with y < height, in order. */
  function Column(x: nat, height: nat): (r: seq<(nat, nat)>)
    ensures |r| == height && forall y :: 0 <= y < height ==> r[y] == (x, y)
  {
    seq(height, y requires 0 <= y < height => (x, y))
  }

  /** A column one position taller ends in that position. */
  lemma ColumnSnoc(x: nat, y: nat)
    ensures Column(x, y + 1) == Column(x, y) + [(x, y)]
  {
    assert Column(x, y + 1)[..y] == Column(x, y);
  }

  /** The grid's iteration order: x outer, y inner. */
  function ScanOrder(width: nat, height: nat): (r: seq<(nat, nat)>)
    ensures |r| == width * height
    ensures forall i :: 0 <= i < |r| ==> r[i].0 < width && r[i].1 < height
  {
    if width == 0 then [] else ScanOrder(width - 1, height) + Column(width - 1, height)
  }

  /** `a` comes before `b` in the iteration order. */
  predicate Precedes(a: (nat, nat), b: (nat, nat))
  {
    a.0 < b.0 || (a.0 == b.0 && a.1 < b.1)
  }

  /** The iteration visits every position of the grid, each once, in increasing (x, y) order. */
  lemma {:induction false} ScanOrderIsLexicographic(width: nat, height: nat)
    ensures forall i, j :: 0 <= i < j < |ScanOrder(width, height)| ==>
      Precedes(ScanOrder(width, height)[i], ScanOrder(width, height)[j])
    ensures forall x: nat, y: nat :: x < width && y < height ==> (x, y) in ScanOrder(width, height)
  {
    if width > 0 {
      ScanOrderIsLexicographic(width - 1, height);
      var s := ScanOrder(width, height);
      var p := ScanOrder(width - 1, height);
      assert s == p + Column(width - 1, height);
      forall x: nat, y: nat | x < width && y < height
        ensures (x, y) in s
      {
        if x < width - 1 {
          assert (x, y) in p;
        } else {
          assert s[|p| + y] == (x, y);
        }
      }
    }
  }

  /** A call of `cell.update` the pass makes: where, and on which occupant. */
  datatype Call = Call(x: nat, y: nat, cell: Cell)

  /** The world part-way through a pass, and the calls made so far. */
  datatype Progress = Progress(world: World, calls: seq<Call>)

  /** The pass's visit to (x, y): a non-static occupant is updated in place, a static one is skipped. */
  function Visit(p: Progress, act: Behaviour, x: nat, y: nat, width: nat, height: nat): (r: Progress)
    requires WellFormed(p.world, width, height) && Lawful(act, width, height)
    requires x < width && y < height
    ensures WellFormed(r.world, width, height)
  {
    var c := p.world.cells[x][y];
    if IsStatic(c) then p
    else
      Progress(ApplyOps(p.world, CellUpdate(c, act, p.world, x, y), width, height),
               p.calls + [Call(x, y, c)])
  }

  /**
   * The update pass over the positions `ps`, in order. Every call it makes
   * is on a non-static occupant, at one of the positions of `ps`.
   */
  function UpdatePass(w: World, act: Behaviour, ps: seq<(nat, nat)>, width: nat, height: nat): (r: Progress)
    requires WellFormed(w, width, height) && Lawful(act, width, height)
    requires forall i :: 0 <= i < |ps| ==> ps[i].0 < width && ps[i].1 < height
    ensures WellFormed(r.world, width, height)
    ensures forall i :: 0 <= i < |r.calls| ==> !IsStatic(r.calls[i].cell) && (r.calls[i].x, r.calls[i].y) in ps
    decreases |ps|
  {
    if ps == [] then Progress(w, [])
    else
      var p := UpdatePass(w, act, ps[..|ps| - 1], width, height);
      Visit(p, act, ps[|ps| - 1].0, ps[|ps| - 1].1, width, height)
  }

  /** One tick: plant generation first, then the update pass over the whole grid. */
  function Tick(w: World, grows: (nat, nat) -> bool, act: Behaviour, width: nat, height: nat): Progress
    requires WellFormed(w, width, height) && Lawful(act, width, height)
  {
    UpdatePass(PlantWorld(w, grows), act, ScanOrder(width, height), width, height)
  }

  /** Extending the positions by one extends the pass by one visit. */
  lemma PassAppend(w: World, act: Behaviour, ps: seq<(nat, nat)>, x: nat, y: nat, width: nat, height: nat)
    requires WellFormed(w, width, height) && Lawful(act, width, height)
    requires forall i :: 0 <= i < |ps| ==> ps[i].0 < width && ps[i].1 < height
    requires x < width && y < height
    ensures UpdatePass(w, act, ps + [(x, y)], width, height)
            == Visit(UpdatePass(w, act, ps, width, height), act, x, y, width, height)
  {
    assert (ps + [(x, y)])[..|ps|] == ps;
  }

  /** The calls are made at strictly increasing positions of the iteration order. */
  predicate CallsOrdered(calls: seq<Call>)
  {
    forall i, j :: 0 <= i < j < |calls| ==> Precedes((calls[i].x, calls[i].y), (calls[j].x, calls[j].y))
  }

  lemma {:induction false} PassCallsInOrder(w: World, act: Behaviour, ps: seq<(nat, nat)>, width: nat, height: nat)
    requires WellFormed(w, width, height) && Lawful(act, width, height)
    requires forall i :: 0 <= i < |ps| ==> ps[i].0 < width && ps[i].1 < height
    requires forall i, j :: 0 <= i < j < |ps| ==> Precedes(ps[i], ps[j])
    ensures CallsOrdered(UpdatePass(w, act, ps, width, height).calls)
    decreases |ps|
  {
    if ps != [] {
      var front := ps[..|ps| - 1];
      var last := ps[|ps| - 1];
      PassCallsInOrder(w, act, front, width, height);
      var p := UpdatePass(w, act, front, width, height);
      assert CallsOrdered(p.calls);
      var r := UpdatePass(w, act, ps, width, height);
      assert r == Visit(p, act, last.0, last.1, width, height);
      var c := p.world.cells[last.0][last.1];
      if !IsStatic(c) {
        assert r.calls == p.calls + [Call(last.0, last.1, c)];
        forall i | 0 <= i < |p.calls|
          ensures Precedes((p.calls[i].x, p.calls[i].y), last)
        {
          var k :| 0 <= k < |front| && front[k] == (p.calls[i].x, p.calls[i].y);
          assert ps[k] == front[k];
        }
        forall i, j | 0 <= i < j < |r.calls|
          ensures Precedes((r.calls[i].x, r.calls[i].y), (r.calls[j].x, r.calls[j].y))
        {
          assert r.calls[i] == p.calls[i];
          if j < |p.calls| {
            assert r.calls[j] == p.calls[j];
            assert Precedes((p.calls[i].x, p.calls[i].y), (p.calls[j].x, p.calls[j].y));
          } else {
            assert (r.calls[j].x, r.calls[j].y) == last;
            assert Precedes((p.calls[i].x, p.calls[i].y), last);
          }
        }
      } else {
        assert r == p;
      }
    }
  }

  /** The pass of one tick calls `update` in the grid's iteration order, never twice at one position. */
  lemma CallsInScanOrder(w: World, grows: (nat, nat) -> bool, act: Behaviour, width: nat, height: nat)
    requires WellFormed(w, width, height) && Lawful(act, width, height)
    ensures CallsOrdered(Tick(w, grows, act, width, height).calls)
  {
    var ps := ScanOrder(width, height);
    var seeded := PlantWorld(w, grows);
    ScanOrderIsLexicographic(width, height);
    assert Tick(w, grows, act, width, height) == UpdatePass(seeded, act, ps, width, height);
    PassCallsInOrder(seeded, act, ps, width, height);
  }

  /** The calls made over a prefix of the positions are a prefix of the calls of the whole pass. */
  lemma {:induction false} PassCallsExtend(w: World, act: Behaviour, ps: seq<(nat, nat)>, width: nat, height: nat, k: nat)
    requires WellFormed(w, width, height) && Lawful(act, width, height)
    requires forall i :: 0 <= i < |ps| ==> ps[i].0 < width && ps[i].1 < height
    requires k <= |ps|
    ensures UpdatePass(w, act, ps[..k], width, height).calls <= UpdatePass(w, act, ps, width, height).calls
    decreases |ps|
  {
    if k < |ps| {
      var n := |ps| - 1;
      assert ps[..n][..k] == ps[..k];
      PassCallsExtend(w, act, ps[..n], width, height, k);
      var p := UpdatePass(w, act, ps[..n], width, height);
      var r := Visit(p, act, ps[n].0, ps[n].1, width, height);
      assert UpdatePass(w, act, ps, width, height) == r;
      assert p.calls <= r.calls;
    } else {
      assert ps[..k] == ps;
    }
  }

  /**
   * The k-th visit of a pass looks at the cell standing at its position at
   * that moment. A non-static occupant gets its `update` call, which the
   * pass keeps; a static one is skipped and the visit changes nothing.
   */
  lemma PassVisits(w: World, act: Behaviour, ps: seq<(nat, nat)>, width: nat, height: nat, k: nat)
    requires WellFormed(w, width, height) && Lawful(act, width, height)
    requires forall i :: 0 <= i < |ps| ==> ps[i].0 < width && ps[i].1 < height
    requires k < |ps|
    ensures var before := UpdatePass(w, act, ps[..k], width, height);
            var c := before.world.cells[ps[k].0][ps[k].1];
            (!IsStatic(c) ==> Call(ps[k].0, ps[k].1, c) in UpdatePass(w, act, ps, width, height).calls)
            && (IsStatic(c) ==> UpdatePass(w, act, ps[..k + 1], width, height) == before)
  {
    assert ps[..k + 1][..k] == ps[..k];
    PassCallsExtend(w, act, ps, width, height, k + 1);
  }

  /** No plant grows anywhere. */
  function NeverGrows(x: nat, y: nat): bool
  {
    false
  }

  /** The behaviour of an occupant of (0, 0) that moves one position down, to (0, 1). */
  function MoveDown(w: World, x: nat, y: nat): seq<Op>
  {
    if x == 0 && y == 0 && |w.cells| > 0 && |w.cells[0]| > 0 then [Insert(0, 1, w.cells[0][0]), Delete(0, 0)]
    else []
  }

  lemma MoveDownLawful()
    ensures Lawful(MoveDown, 1, 2)
  {
    forall v, x, y ensures AllFit(MoveDown(v, x, y), 1, 2) {
    }
  }

  /** On a 1-by-2 grid, the occupant of (0, 0) ends up at (0, 1). */
  lemma MoveDownMoves(w: World)
    requires WellFormed(w, 1, 2)
    ensures ApplyOps(w, MoveDown(w, 0, 0), 1, 2).cells[0][1] == w.cells[0][0]
  {
    var ops := MoveDown(w, 0, 0);
    assert ops[..1] == [Insert(0, 1, w.cells[0][0])];
    assert |ops[..1][..0]| == 0;
    var inserted := ApplyOps(w, ops[..1], 1, 2);
    assert ApplyOps(w, ops[..1][..0], 1, 2) == w;
    assert inserted == InsertAt(w, 0, 1, w.cells[0][0]);
    assert ApplyOps(w, ops, 1, 2) == DeleteAt(inserted, 0, 0);
  }

  lemma ScanOrderOneByTwo()
    ensures ScanOrder(1, 2) == [(0, 0), (0, 1)]
  {
    assert ScanOrder(0, 2) == [];
    assert Column(0, 2) == [(0, 0), (0, 1)];
  }

  /**
   * A cell that moves forward in scan order is updated again in the same
   * tick: on a 1-by-2 grid, an organism moving from (0, 0) to (0, 1) is met
   * again at (0, 1) and gets a second call.
   */
  lemma MovedCellUpdatedTwice(g: Genomes.Genome)
    ensures var o := OrganismCell(Organism(3, 70, g));
            var w := World([[o, Empty]], [[InitialLevel, InitialLevel]], [[InitialLevel, InitialLevel]], map[3 := o]);
            WellFormed(w, 1, 2) && Lawful(MoveDown, 1, 2)
            && Tick(w, NeverGrows, MoveDown, 1, 2).calls == [Call(0, 0, o), Call(0, 1, o)]
  {
    var o := OrganismCell(Organism(3, 70, g));
    var w := World([[o, Empty]], [[InitialLevel, InitialLevel]], [[InitialLevel, InitialLevel]], map[3 := o]);
    assert WellFormed(w, 1, 2);
    MoveDownLawful();
    var seeded := Seed(w.cells, NeverGrows);
    assert seeded == w.cells by {
      assert |seeded| == 1 && |seeded[0]| == 2;
      assert seeded[0] == w.cells[0];
    }
    ScanOrderOneByTwo();
    var ps: seq<(nat, nat)> := ScanOrder(1, 2);
    assert ps[..1] == [(0, 0)];
    assert |ps[..1][..0]| == 0;
    assert UpdatePass(w, MoveDown, ps[..1][..0], 1, 2) == Progress(w, []);
    MoveDownMoves(w);
    var moved := ApplyOps(w, MoveDown(w, 0, 0), 1, 2);
    assert UpdatePass(w, MoveDown, ps[..1], 1, 2) == Progress(moved, [Call(0, 0, o)]);
  }

  /** A variant that inherits `isStatic` from the base class is never updated by a tick. */
  lemma InheritedStaticNeverUpdated(w: World, grows: (nat, nat) -> bool, act: Behaviour, width: nat, height: nat)
    requires WellFormed(w, width, height) && Lawful(act, width, height)
    ensures var calls := Tick(w, grows, act, width, height).calls;
            forall i :: 0 <= i < |calls| ==> StaticOverride(calls[i].cell).Some?
  {
  }

  /** The base class's `update` leaves the world as it was. */
  lemma BaseUpdateChangesNothing(c: Cell, act: Behaviour, w: World, x: nat, y: nat, width: nat, height: nat)
    requires WellFormed(w, width, height) && Lawful(act, width, height) && !OverridesUpdate(c)
    ensures ApplyOps(w, CellUpdate(c, act, w, x, y), width, height) == w
  {
  }

  class Game {
    var step: int
    const grid: Grid

    ghost predicate Valid()
      reads this, grid
    {
      grid.Valid()
    }

    /** A new game: step 0 and a new grid of empty cells. */
    constructor (width: nat, height: nat, loop: LoopMode)
      requires width > 0 && height > 0
      ensures Valid() && fresh(grid)
      ensures step == 0
      ensures grid.width == width && grid.height == height
      ensures forall x, y :: 0 <= x < width && 0 <= y < height ==> grid.cells[x][y] == Empty
    {
      step := 0;
      grid := new Grid(width, height, loop);
    }

    /** The visits of `generatePlants` to column x, in order; `planted` counts the inserts. */
    method SeedColumnOf(x: nat, grows: (nat, nat) -> bool) returns (ghost planted: nat)
      requires Valid() && x < grid.width
      modifies grid
      ensures Valid()
      ensures grid.minerals == old(grid.minerals) && grid.light == old(grid.light)
      ensures grid.cellIdMap == old(grid.cellIdMap)
      ensures grid.cells == old(grid.cells)[x := SeedColumn(old(grid.cells[x]), x, grows)]
      ensures planted == PlantedInColumn(old(grid.cells[x]), x, grows)
    {
      ghost var start := grid.cells;
      planted := 0;
      for y := 0 to grid.height
        invariant grid.Valid()
        invariant grid.minerals == old(grid.minerals) && grid.light == old(grid.light)
        invariant grid.cellIdMap == old(grid.cellIdMap)
        invariant forall i :: 0 <= i < grid.width && i != x ==> grid.cells[i] == start[i]
        invariant forall j :: 0 <= j < y ==> grid.cells[x][j] == SeedCell(start[x][j], grows(x, j))
        invariant forall j :: y <= j < grid.height ==> grid.cells[x][j] == start[x][j]
        invariant planted == PlantedInColumn(start[x][..y], x, grows)
      {
        assert start[x][..y + 1][..y] == start[x][..y];
        var cell := grid.GetCell(x, y);
        if IsEmpty(cell) && grows(x, y) {
          grid.Insert(x, y, Plant);
          planted := planted + 1;
        }
      }
      assert start[x][..grid.height] == start[x];
      assert grid.cells[x] == SeedColumn(start[x], x, grows);
      assert grid.cells == start[x := SeedColumn(start[x], x, grows)];
    }

    /** The scan of `generatePlants` over every column, in order. */
    method SeedColumns(grows: (nat, nat) -> bool) returns (ghost inserts: nat)
      requires Valid()
      modifies grid
      ensures Valid()
      ensures grid.minerals == old(grid.minerals) && grid.light == old(grid.light)
      ensures grid.cellIdMap == old(grid.cellIdMap)
      ensures forall i :: 0 <= i < grid.width ==> grid.cells[i] == SeedColumn(old(grid.cells[i]), i, grows)
      ensures inserts == Planted(old(grid.cells), grows)
    {
      ghost var start := grid.cells;
      inserts := 0;
      for x := 0 to grid.width
        invariant grid.Valid()
        invariant grid.minerals == old(grid.minerals) && grid.light == old(grid.light)
        invariant grid.cellIdMap == old(grid.cellIdMap)
        invariant forall i :: 0 <= i < x ==> grid.cells[i] == SeedColumn(start[i], i, grows)
        invariant forall i :: x <= i < grid.width ==> grid.cells[i] == start[i]
        invariant inserts == Planted(start[..x], grows)
      {
        assert start[..x + 1][..x] == start[..x];
        ghost var planted := SeedColumnOf(x, grows);
        inserts := inserts + planted;
      }
      assert start[..grid.width] == start;
    }

    /**
     * `generatePlants()`: replace each empty cell whose outcome is true by a
     * plant. `inserts` counts the `insert` calls made.
     */
    method GeneratePlants(grows: (nat, nat) -> bool) returns (ghost inserts: nat)
      requires Valid()
      modifies grid
      ensures Valid()
      ensures grid.State() == PlantWorld(old(grid.State()), grows)
      ensures inserts == (if CountEmpty(old(grid.cells)) == 0 then 0 else Planted(old(grid.cells), grows))
      ensures inserts <= CountEmpty(old(grid.cells))
      ensures CountEmpty(grid.cells) + inserts == CountEmpty(old(grid.cells))
    {
      var countEmpty := CountEmpty(grid.cells);
      inserts := 0;
      if countEmpty == 0 {
        return;
      }
      PlantedAtMostEmpty(grid.cells, grows);
      SeedAccounts(grid.cells, grows);
      ghost var start := grid.cells;
      inserts := SeedColumns(grows);
      assert grid.cells == Seed(start, grows);
    }

    /** The pass's visit to (x, y): a non-static occupant's `update` makes its grid calls. */
    method VisitAt(x: nat, y: nat, act: Behaviour, ghost calls: seq<Call>) returns (ghost calls': seq<Call>)
      requires Valid() && Lawful(act, grid.width, grid.height)
      requires x < grid.width && y < grid.height
      modifies grid
      ensures Valid()
      ensures Progress(grid.State(), calls')
              == Visit(Progress(old(grid.State()), calls), act, x, y, grid.width, grid.height)
    {
      calls' := calls;
      var cell := grid.GetCell(x, y);
      if !IsStatic(cell) {
        var ops := CellUpdate(cell, act, grid.State(), x, y);
        grid.ApplyAll(ops);
        calls' := calls + [Call(x, y, cell)];
      }
    }

    /** The pass's visits to column x, in order, continuing the pass from `seeded`. */
    method PassColumn(x: nat, act: Behaviour, ghost seeded: World, ghost calls: seq<Call>)
      returns (ghost calls': seq<Call>)
      requires Valid() && Lawful(act, grid.width, grid.height) && x < grid.width
      requires WellFormed(seeded, grid.width, grid.height)
      requires Progress(grid.State(), calls) == UpdatePass(seeded, act, ScanOrder(x, grid.height), grid.width, grid.height)
      modifies grid
      ensures Valid()
      ensures Progress(grid.State(), calls')
              == UpdatePass(seeded, act, ScanOrder(x + 1, grid.height), grid.width, grid.height)
    {
      var width, height := grid.width, grid.height;
      calls' := calls;
      assert ScanOrder(x, height) + Column(x, 0) == ScanOrder(x, height);
      for y := 0 to height
        invariant grid.Valid()
        invariant Progress(grid.State(), calls')
                  == UpdatePass(seeded, act, ScanOrder(x, height) + Column(x, y), width, height)
      {
        ghost var before := ScanOrder(x, height) + Column(x, y);
        ColumnSnoc(x, y);
        assert ScanOrder(x, height) + (Column(x, y) + [(x, y)]) == before + [(x, y)];
        PassAppend(seeded, act, before, x, y, width, height);
        calls' := VisitAt(x, y, act, calls');
      }
      assert ScanOrder(x + 1, height) == ScanOrder(x, height) + Column(x, height);
    }

    /**
     * `update()`: one tick. `calls` lists the `update` calls of the pass in
     * the order they are made.
     */
    method Update(grows: (nat, nat) -> bool, act: Behaviour) returns (ghost calls: seq<Call>)
      requires Valid() && Lawful(act, grid.width, grid.height)
      modifies this, grid
      ensures Valid()
      ensures step == old(step) + 1
      ensures Progress(grid.State(), calls) == Tick(old(grid.State()), grows, act, grid.width, grid.height)
    {
      ghost var inserts := GeneratePlants(grows);
      ghost var seeded := grid.State();
      calls := [];
      assert ScanOrder(0, grid.height) == [];
      for x := 0 to grid.width
        invariant grid.Valid() && step == old(step)
        invariant Progress(grid.State(), calls) == UpdatePass(seeded, act, ScanOrder(x, grid.height), grid.width, grid.height)
      {
        calls := PassColumn(x, act, seeded, calls);
      }
      step := step + 1;
    }

    /** `getStep()`: the number of ticks since construction. */
    function GetStep(): int
      reads this
    {
      step
    }
  }
}
