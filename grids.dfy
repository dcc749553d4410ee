/**
 * Model of the spatial grid of src/simulation/grid.ts: a width x height
 * array of cells, parallel mineral and light levels, and an index from
 * identity to cell.
 *
 * `World` is the grid's whole state as a value. Each grid operation is a
 * pure transition on it (InsertAt, DeleteAt, SetLightAt, SetMineralsAt),
 * and each method of class Grid is proved to perform that transition in
 * place. WellFormed is the invariant the code keeps. For the index it says
 * only that no key is falsy and that every entry is keyed by its own cell's
 * id. Insert never unregisters the occupant it overwrites, so an index that
 * matches the array exactly is not kept (see InsertLeavesStaleEntry).
 */
module Grids {
  import opened Options
  import opened Cells

  /** The grid's boundary mode (`GridLoopType`); the grid only stores it. */
  datatype LoopMode = Finite | Toroidal

  /** The mineral and light level every position starts with. */
  const InitialLevel: real := 100.0

  /** Cells and levels are indexed [x][y]; `index` is `cellIdMap`. */
  datatype World = World(cells: seq<seq<Cell>>, minerals: seq<seq<real>>, light: seq<seq<real>>,
                         index: map<int, Cell>)

  predicate Shaped<T>(s: seq<seq<T>>, width: nat, height: nat)
  {
    |s| == width && forall x :: 0 <= x < width ==> |s[x]| == height
  }

  /** The index holds no falsy key, and each entry is keyed by its cell's own id. */
  predicate IndexKeyed(index: map<int, Cell>)
  {
    0 !in index && forall k :: k in index ==> Id(index[k]) == k
  }

  predicate WellFormed(w: World, width: nat, height: nat)
  {
    Shaped(w.cells, width, height) && Shaped(w.minerals, width, height)
    && Shaped(w.light, width, height) && IndexKeyed(w.index)
  }

  /**
   * The stronger agreement between array and index: every cell with a truthy
   * id is what the index gives for that id, and every indexed cell stands
   * somewhere in the array.
   */
  ghost predicate InSync(w: World)
  {
    (forall x, y :: 0 <= x < |w.cells| && 0 <= y < |w.cells[x]| && Id(w.cells[x][y]) != 0 ==>
       Lookup(w.index, Id(w.cells[x][y])) == Some(w.cells[x][y]))
    && (forall k :: k in w.index ==>
          exists x, y :: 0 <= x < |w.cells| && 0 <= y < |w.cells[x]| && w.cells[x][y] == w.index[k])
  }

  /** `s[x][y] = v` on nested sequences. */
  function Put<T>(s: seq<seq<T>>, x: nat, y: nat, v: T): (r: seq<seq<T>>)
    requires x < |s| && y < |s[x]|
    ensures |r| == |s| && forall i :: 0 <= i < |s| ==> |r[i]| == |s[i]|
    ensures r[x][y] == v
    ensures forall i :: 0 <= i < |s| && i != x ==> r[i] == s[i]
    ensures forall i, j :: 0 <= i < |s| && 0 <= j < |s[i]| && (i != x || j != y) ==> r[i][j] == s[i][j]
  {
    s[x := s[x][y := v]]
  }

  /** `index[id]`, None where JavaScript yields undefined. */
  function Lookup(index: map<int, Cell>, id: int): Option<Cell>
  {
    if id in index then Some(index[id]) else None
  }

  /** The registration `insert` performs: only a cell with a truthy id is entered. */
  function Register(index: map<int, Cell>, c: Cell): (r: map<int, Cell>)
    ensures Id(c) != 0 ==> Lookup(r, Id(c)) == Some(c)
    ensures Id(c) == 0 ==> r == index
    ensures forall k :: k != Id(c) ==> Lookup(r, k) == Lookup(index, k)
    ensures IndexKeyed(index) ==> IndexKeyed(r)
  {
    if Id(c) != 0 then index[Id(c) := c] else index
  }

  /** The removal `delete` performs: the key of the previous occupant's id goes. */
  function Unregister(index: map<int, Cell>, c: Cell): (r: map<int, Cell>)
    ensures Lookup(r, Id(c)) == None
    ensures forall k :: k != Id(c) ==> Lookup(r, k) == Lookup(index, k)
    ensures IndexKeyed(index) && Id(c) == 0 ==> r == index
    ensures IndexKeyed(index) ==> IndexKeyed(r)
  {
    index - {Id(c)}
  }

  /** `insert(x, y, c)`: `c` takes position (x, y) and is registered under its id. */
  function InsertAt(w: World, x: nat, y: nat, c: Cell): (r: World)
    requires x < |w.cells| && y < |w.cells[x]|
    ensures |r.cells| == |w.cells| && forall i :: 0 <= i < |w.cells| ==> |r.cells[i]| == |w.cells[i]|
    ensures r.cells[x][y] == c
    ensures forall i :: 0 <= i < |w.cells| && i != x ==> r.cells[i] == w.cells[i]
    ensures forall i, j :: 0 <= i < |w.cells| && 0 <= j < |w.cells[i]| && (i != x || j != y) ==>
      r.cells[i][j] == w.cells[i][j]
    ensures r.minerals == w.minerals && r.light == w.light
    ensures r.index == Register(w.index, c)
  {
    World(Put(w.cells, x, y, c), w.minerals, w.light, Register(w.index, c))
  }

  /** `delete(x, y)`: a new empty cell takes (x, y) and the old occupant's id is unregistered. */
  function DeleteAt(w: World, x: nat, y: nat): (r: World)
    requires x < |w.cells| && y < |w.cells[x]|
    ensures |r.cells| == |w.cells| && forall i :: 0 <= i < |w.cells| ==> |r.cells[i]| == |w.cells[i]|
    ensures r.cells[x][y] == Empty && IsEmpty(r.cells[x][y])
    ensures forall i, j :: 0 <= i < |w.cells| && 0 <= j < |w.cells[i]| && (i != x || j != y) ==>
      r.cells[i][j] == w.cells[i][j]
    ensures r.minerals == w.minerals && r.light == w.light
    ensures r.index == Unregister(w.index, w.cells[x][y])
  {
    World(Put(w.cells, x, y, Empty), w.minerals, w.light, Unregister(w.index, w.cells[x][y]))
  }

  /** `setLightLevel(x, y, level)`. */
  function SetLightAt(w: World, x: nat, y: nat, level: real): (r: World)
    requires x < |w.light| && y < |w.light[x]|
    ensures |r.light| == |w.light| && forall i :: 0 <= i < |w.light| ==> |r.light[i]| == |w.light[i]|
    ensures r.light[x][y] == level
    ensures forall i, j :: 0 <= i < |w.light| && 0 <= j < |w.light[i]| && (i != x || j != y) ==>
      r.light[i][j] == w.light[i][j]
    ensures r.cells == w.cells && r.minerals == w.minerals && r.index == w.index
  {
    w.(light := Put(w.light, x, y, level))
  }

  /** `setMineralsLevel(x, y, level)`. */
  function SetMineralsAt(w: World, x: nat, y: nat, level: real): (r: World)
    requires x < |w.minerals| && y < |w.minerals[x]|
    ensures |r.minerals| == |w.minerals| && forall i :: 0 <= i < |w.minerals| ==> |r.minerals[i]| == |w.minerals[i]|
    ensures r.minerals[x][y] == level
    ensures forall i, j :: 0 <= i < |w.minerals| && 0 <= j < |w.minerals[i]| && (i != x || j != y) ==>
      r.minerals[i][j] == w.minerals[i][j]
    ensures r.cells == w.cells && r.light == w.light && r.index == w.index
  {
    w.(minerals := Put(w.minerals, x, y, level))
  }

  /** A call a cell's update makes on the grid through its context. */
  datatype Op =
    | Insert(x: nat, y: nat, cell: Cell)
    | Delete(x: nat, y: nat)
    | SetLight(x: nat, y: nat, level: real)
    | SetMinerals(x: nat, y: nat, level: real)

  predicate Fits(op: Op, width: nat, height: nat)
  {
    op.x < width && op.y < height
  }

  predicate AllFit(ops: seq<Op>, width: nat, height: nat)
  {
    forall i :: 0 <= i < |ops| ==> Fits(ops[i], width, height)
  }

  /** The transition one grid call makes. */
  function ApplyOp(w: World, op: Op, width: nat, height: nat): (r: World)
    requires WellFormed(w, width, height) && Fits(op, width, height)
    ensures WellFormed(r, width, height)
  {
    match op
    case Insert(x, y, c) => InsertAt(w, x, y, c)
    case Delete(x, y) => DeleteAt(w, x, y)
    case SetLight(x, y, level) => SetLightAt(w, x, y, level)
    case SetMinerals(x, y, level) => SetMineralsAt(w, x, y, level)
  }

  /** The transition a sequence of grid calls makes, first call first. */
  function ApplyOps(w: World, ops: seq<Op>, width: nat, height: nat): (r: World)
    requires WellFormed(w, width, height) && AllFit(ops, width, height)
    ensures WellFormed(r, width, height)
    decreases |ops|
  {
    if ops == [] then w
    else ApplyOp(ApplyOps(w, ops[..|ops| - 1], width, height), ops[|ops| - 1], width, height)
  }

  /** The number of empty cells in one column. */
  function CountEmptyInColumn(column: seq<Cell>): (n: nat)
    ensures n <= |column|
    ensures n == 0 <==> forall y :: 0 <= y < |column| ==> !IsEmpty(column[y])
  {
    if column == [] then 0
    else CountEmptyInColumn(column[..|column| - 1]) + (if IsEmpty(column[|column| - 1]) then 1 else 0)
  }

  /** `countEmpty()`: the number of positions whose occupant reports `isEmpty()`. */
  function CountEmpty(cells: seq<seq<Cell>>): (n: nat)
    ensures n == 0 <==> forall x, y :: 0 <= x < |cells| && 0 <= y < |cells[x]| ==> !IsEmpty(cells[x][y])
  {
    if cells == [] then 0
    else CountEmpty(cells[..|cells| - 1]) + CountEmptyInColumn(cells[|cells| - 1])
  }

  /** `serialize` on a snapshot: entry [x][y] is the descriptor of cell [x][y]. */
  function SerializeAll(cells: seq<seq<Cell>>): (r: seq<seq<CellType>>)
    ensures |r| == |cells| && forall x :: 0 <= x < |cells| ==> |r[x]| == |cells[x]|
    ensures forall x, y :: 0 <= x < |cells| && 0 <= y < |cells[x]| ==> r[x][y] == Serialize(cells[x][y])
  {
    seq(|cells|, x requires 0 <= x < |cells| =>
      seq(|cells[x]|, y requires 0 <= y < |cells[x]| => Serialize(cells[x][y])))
  }

  /**
   * Overwriting an organism with `insert` leaves its entry behind: an index
   * that matched the array exactly before no longer does.
   */
  lemma InsertLeavesStaleEntry(g: Genomes.Genome)
    ensures var o := OrganismCell(Organism(7, 0, g));
            var w := World([[o]], [[InitialLevel]], [[InitialLevel]], map[7 := o]);
            InSync(w) && Lookup(InsertAt(w, 0, 0, Plant).index, 7) == Some(o)
            && !InSync(InsertAt(w, 0, 0, Plant))
  {
    var o := OrganismCell(Organism(7, 0, g));
    var w := World([[o]], [[InitialLevel]], [[InitialLevel]], map[7 := o]);
    assert w.cells[0][0] == w.index[7];
    var r := InsertAt(w, 0, 0, Plant);
    assert |r.cells| == 1 && |r.cells[0]| == 1 && r.cells[0][0] == Plant;
    assert 7 in r.index && r.index[7] == o;
  }

  /** After `insert` of a cell with a truthy id, `find` of that id yields the cell. */
  lemma FindAfterInsert(w: World, x: nat, y: nat, c: Cell)
    requires x < |w.cells| && y < |w.cells[x]| && Id(c) != 0
    ensures Lookup(InsertAt(w, x, y, c).index, Id(c)) == Some(c)
  {
  }

  class Grid {
    const width: nat
    const height: nat
    const loop: LoopMode
    var cells: seq<seq<Cell>>
    var minerals: seq<seq<real>>
    var light: seq<seq<real>>
    var cellIdMap: map<int, Cell>

    /** The grid's state as a value. */
    function State(): World
      reads this
    {
      World(cells, minerals, light, cellIdMap)
    }

    ghost predicate Valid()
      reads this
    {
      width > 0 && height > 0 && WellFormed(State(), width, height)
    }

    /** Every position gets a fresh empty cell and levels of 100; the index starts empty. */
    constructor (width: nat, height: nat, loop: LoopMode)
      requires width > 0 && height > 0
      ensures Valid()
      ensures this.width == width && this.height == height && this.loop == loop
      ensures forall x, y :: 0 <= x < width && 0 <= y < height ==>
        cells[x][y] == Empty && minerals[x][y] == InitialLevel && light[x][y] == InitialLevel
      ensures cellIdMap == map[]
    {
      this.width := width;
      this.height := height;
      this.loop := loop;
      var cs: seq<seq<Cell>> := [];
      var ms: seq<seq<real>> := [];
      var ls: seq<seq<real>> := [];
      for x := 0 to width
        invariant |cs| == x && |ms| == x && |ls| == x
        invariant forall i :: 0 <= i < x ==> |cs[i]| == height && |ms[i]| == height && |ls[i]| == height
        invariant forall i, j :: 0 <= i < x && 0 <= j < height ==>
          cs[i][j] == Empty && ms[i][j] == InitialLevel && ls[i][j] == InitialLevel
      {
        var column: seq<Cell> := [];
        var mineralColumn: seq<real> := [];
        var lightColumn: seq<real> := [];
        for y := 0 to height
          invariant |column| == y && |mineralColumn| == y && |lightColumn| == y
          invariant forall j :: 0 <= j < y ==>
            column[j] == Empty && mineralColumn[j] == InitialLevel && lightColumn[j] == InitialLevel
        {
          column := column + [Empty];
          mineralColumn := mineralColumn + [InitialLevel];
          lightColumn := lightColumn + [InitialLevel];
        }
        cs := cs + [column];
        ms := ms + [mineralColumn];
        ls := ls + [lightColumn];
      }
      cells := cs;
      minerals := ms;
      light := ls;
      cellIdMap := map[];
    }

    function GetLightLevel(x: nat, y: nat): real
      reads this
      requires Valid() && x < width && y < height
    {
      light[x][y]
    }

    function GetMineralsLevel(x: nat, y: nat): real
      reads this
      requires Valid() && x < width && y < height
    {
      minerals[x][y]
    }

    method SetLightLevel(x: nat, y: nat, level: real)
      requires Valid() && x < width && y < height
      modifies this
      ensures Valid()
      ensures State() == SetLightAt(old(State()), x, y, level)
      ensures GetLightLevel(x, y) == level
    {
      light := Put(light, x, y, level);
    }

    method SetMineralsLevel(x: nat, y: nat, level: real)
      requires Valid() && x < width && y < height
      modifies this
      ensures Valid()
      ensures State() == SetMineralsAt(old(State()), x, y, level)
      ensures GetMineralsLevel(x, y) == level
    {
      minerals := Put(minerals, x, y, level);
    }

    method Insert(x: nat, y: nat, cell: Cell)
      requires Valid() && x < width && y < height
      modifies this
      ensures Valid()
      ensures State() == InsertAt(old(State()), x, y, cell)
      ensures GetCell(x, y) == cell
    {
      cells := Put(cells, x, y, cell);
      if Id(cell) != 0 {
        cellIdMap := cellIdMap[Id(cell) := cell];
      }
    }

    method Delete(x: nat, y: nat)
      requires Valid() && x < width && y < height
      modifies this
      ensures Valid()
      ensures State() == DeleteAt(old(State()), x, y)
      ensures IsEmpty(GetCell(x, y)) && Find(Id(old(GetCell(x, y)))) == None
    {
      var cell := cells[x][y];
      cells := Put(cells, x, y, Empty);
      cellIdMap := cellIdMap - {Id(cell)};
    }

    function GetCell(x: nat, y: nat): Cell
      reads this
      requires Valid() && x < width && y < height
    {
      cells[x][y]
    }

    function Find(id: int): Option<Cell>
      reads this
    {
      Lookup(cellIdMap, id)
    }

    /** `toArray()`: a width x height copy equal to the grid cell for cell. */
    function ToArray(): (r: seq<seq<Cell>>)
      reads this
      requires Valid()
      ensures Shaped(r, width, height)
      ensures forall x, y :: 0 <= x < width && 0 <= y < height ==> r[x][y] == GetCell(x, y)
    {
      cells
    }

    /** `serialize()`: the same shape, with entry [x][y] the descriptor of cell [x][y]. */
    function Serialize(): (r: seq<seq<CellType>>)
      reads this
      requires Valid()
      ensures Shaped(r, width, height)
      ensures forall x, y :: 0 <= x < width && 0 <= y < height ==> r[x][y] == Cells.Serialize(GetCell(x, y))
    {
      SerializeAll(ToArray())
    }

    /** Performs one grid call, dispatching to the method it names. */
    method Apply(op: Op)
      requires Valid() && Fits(op, width, height)
      modifies this
      ensures Valid() && State() == ApplyOp(old(State()), op, width, height)
    {
      match op
      case Insert(x, y, c) => Insert(x, y, c);
      case Delete(x, y) => Delete(x, y);
      case SetLight(x, y, level) => SetLightLevel(x, y, level);
      case SetMinerals(x, y, level) => SetMineralsLevel(x, y, level);
    }

    /** Performs a sequence of grid calls in order. */
    method ApplyAll(ops: seq<Op>)
      requires Valid() && AllFit(ops, width, height)
      modifies this
      ensures Valid() && State() == ApplyOps(old(State()), ops, width, height)
    {
      for i := 0 to |ops|
        invariant Valid() && AllFit(ops[..i], width, height)
        invariant State() == ApplyOps(old(State()), ops[..i], width, height)
      {
        assert ops[..i + 1][..i] == ops[..i];
        Apply(ops[i]);
      }
      assert ops[..|ops|] == ops;
    }
  }
}
