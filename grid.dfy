/**
 * The tile grid shared by every mover: integer vectors, the game's grid
 * settings and the tile map (CMap2D).
 *
 * CMap2D itself is not part of this model; only the two accesses the movers
 * make are: reading a tile (GetMapInfo) and writing a tile (SetMapInfo), both
 * addressed as (row, column) = (y, x).  Reading outside the grid is total
 * here and yields a fixed, unknown value; writing outside the grid changes
 * nothing.
 */
module Grid {

  /** An integer 2D vector (glm::i32vec2): a grid index, a microstep count or a unit direction. */
  datatype IVec2 = IVec2(x: int, y: int) {
    function Plus(o: IVec2): IVec2 { IVec2(x + o.x, y + o.y) }
    function Minus(o: IVec2): IVec2 { IVec2(x - o.x, y - o.y) }
    function Neg(): IVec2 { IVec2(-x, -y) }
    function Scale(k: int): IVec2 { IVec2(k * x, k * y) }
  }

  const Zero := IVec2(0, 0)

  /** Adding a negated vector is subtracting it. */
  lemma PlusNeg(i: IVec2, u: IVec2)
    ensures i.Plus(u.Neg()) == i.Minus(u)
  {
  }

  /** The two grid axes. */
  datatype Axis = X | Y

  function Comp(v: IVec2, a: Axis): int {
    match a
    case X => v.x
    case Y => v.y
  }

  /** `v` with its `a` component replaced by `n`; the other component is kept. */
  function With(v: IVec2, a: Axis, n: int): (r: IVec2)
    ensures Comp(r, a) == n
    ensures a == X ==> r.y == v.y
    ensures a == Y ==> r.x == v.x
  {
    match a
    case X => IVec2(n, v.y)
    case Y => IVec2(v.x, n)
  }

  /** Any tile value at or above this blocks movement. */
  const SOLID_TILE := 100

  /**
   * The grid constants of CSettings: tiles per axis and microsteps per tile.
   */
  datatype Settings = Settings(numTilesX: int, numTilesY: int, stepsPerTileX: int, stepsPerTileY: int) {
    predicate Valid() {
      numTilesX > 0 && numTilesY > 0 && stepsPerTileX > 0 && stepsPerTileY > 0
    }

    predicate InGrid(p: IVec2) {
      0 <= p.x < numTilesX && 0 <= p.y < numTilesY
    }

    function NumTiles(a: Axis): int {
      match a
      case X => numTilesX
      case Y => numTilesY
    }

    function StepsPerTile(a: Axis): int {
      match a
      case X => stepsPerTileX
      case Y => stepsPerTileY
    }
  }

  /** A map's tiles as a value: rows of cells, and what a read outside them yields. */
  datatype TileGrid = TileGrid(rows: seq<seq<int>>, outside: int) {
    predicate Inside(p: IVec2) {
      0 <= p.y < |rows| && 0 <= p.x < |rows[p.y]|
    }

    function At(p: IVec2): int {
      if Inside(p) then rows[p.y][p.x] else outside
    }

    /** The tiles after SetMapInfo(p.y, p.x, v); a write outside does nothing. */
    function Put(p: IVec2, v: int): (r: TileGrid)
      ensures r.outside == outside && |r.rows| == |rows|
      ensures forall y :: 0 <= y < |rows| ==> |r.rows[y]| == |rows[y]|
    {
      if Inside(p) then TileGrid(rows[p.y := rows[p.y][p.x := v]], outside) else this
    }

    /** Writing a cell changes that cell, if it is inside, and nothing else. */
    lemma PutAt(p: IVec2, v: int, q: IVec2)
      ensures Put(p, v).At(q) == if q == p && Inside(p) then v else At(q)
    {
    }

    /** The tiles after SetMapInfo(p.y, p.x, 0): the cell is emptied. */
    function Cleared(p: IVec2): (r: TileGrid)
      ensures r.outside == outside && |r.rows| == |rows|
      ensures forall y :: 0 <= y < |rows| ==> |r.rows[y]| == |rows[y]|
    {
      Put(p, 0)
    }
  }

  /** The tile map: rows are the y index, columns the x index. */
  class Map2D {
    const cells: array2<int>
    /** What a read outside the grid yields. */
    const outside: int

    constructor (cells: array2<int>, outside: int)
      ensures this.cells == cells && this.outside == outside
    {
      this.cells := cells;
      this.outside := outside;
    }

    predicate InArray(row: int, col: int) {
      0 <= row < cells.Length0 && 0 <= col < cells.Length1
    }

    /** The map is sized by the settings' tile counts. */
    predicate Fits(s: Settings) {
      cells.Length0 == s.numTilesY && cells.Length1 == s.numTilesX
    }

    /** GetMapInfo(row, col). */
    function Get(row: int, col: int): (t: int)
      reads cells
      ensures InArray(row, col) ==> t == cells[row, col]
      ensures !InArray(row, col) ==> t == outside
    {
      if InArray(row, col) then cells[row, col] else outside
    }

    /** The tile under grid index `p` (row p.y, column p.x). */
    function At(p: IVec2): int
      reads cells
    {
      Get(p.y, p.x)
    }

    /** The map's contents as a value, for stating what a walk saw before it wrote to the map. */
    ghost function Snapshot(): (t: TileGrid)
      reads cells
      ensures Agrees(t)
    {
      TileGrid(seq(cells.Length0, r requires 0 <= r < cells.Length0 reads cells =>
                 seq(cells.Length1, c requires 0 <= c < cells.Length1 reads cells => cells[r, c])),
               outside)
    }

    /** The map holds exactly the tiles `t`. */
    ghost predicate Agrees(t: TileGrid)
      reads cells
    {
      && t.outside == outside && |t.rows| == cells.Length0
      && (forall r :: 0 <= r < |t.rows| ==> |t.rows[r]| == cells.Length1)
      && (forall r, c :: InArray(r, c) ==> t.rows[r][c] == cells[r, c])
    }

    /**
     * A map that agrees with `t` except for the cell `p`, which holds `v`,
     * agrees with `t.Put(p, v)`.
     */
    lemma AgreesPut(t: TileGrid, p: IVec2, v: int)
      requires t.outside == outside && |t.rows| == cells.Length0
      requires forall r :: 0 <= r < |t.rows| ==> |t.rows[r]| == cells.Length1
      requires forall r, c :: InArray(r, c) ==> cells[r, c] == (if r == p.y && c == p.x then v else t.rows[r][c])
      ensures Agrees(t.Put(p, v))
    {
    }

    /** The map agrees with one value only: its snapshot. */
    lemma SnapshotOf(t: TileGrid)
      requires Agrees(t)
      ensures Snapshot() == t
    {
      var s := Snapshot();
      forall r | 0 <= r < |t.rows|
        ensures s.rows[r] == t.rows[r]
      {
        assert forall c :: 0 <= c < |t.rows[r]| ==> s.rows[r][c] == cells[r, c];
      }
    }

    /** Tiles the map agrees with read like the map. */
    lemma AgreesAt(t: TileGrid, p: IVec2)
      requires Agrees(t)
      ensures t.At(p) == At(p)
    {
    }

    /** SetMapInfo(row, col, v): exactly that one cell changes. */
    method Set(row: int, col: int, v: int)
      modifies cells
      ensures forall r, c :: InArray(r, c) ==>
                cells[r, c] == (if r == row && c == col then v else old(cells[r, c]))
    {
      if InArray(row, col) {
        cells[row, col] := v;
      }
    }

    /** Some cell of the map holds `v`. */
    ghost predicate Holds(v: int)
      reads cells
    {
      exists r, c :: InArray(r, c) && cells[r, c] == v
    }

    /**
     * FindValue(v, row, col): reports whether some cell holds `v` and, if so,
     * one such cell.  Which cell is found when several hold `v` is not
     * specified.
     */
    method FindValue(v: int) returns (found: bool, row: int, col: int)
      ensures found <==> Holds(v)
      ensures found ==> InArray(row, col) && cells[row, col] == v
    {
      row, col := 0, 0;
      while row < cells.Length0
        invariant 0 <= row <= cells.Length0
        invariant forall r, c :: 0 <= r < row && 0 <= c < cells.Length1 ==> cells[r, c] != v
      {
        col := 0;
        while col < cells.Length1
          invariant 0 <= col <= cells.Length1
          invariant forall c :: 0 <= c < col ==> cells[row, c] != v
        {
          if cells[row, col] == v {
            return true, row, col;
          }
          col := col + 1;
        }
        row := row + 1;
      }
      found := false;
    }
  }
}
