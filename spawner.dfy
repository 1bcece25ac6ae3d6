/**
 * CItemSpawner2D: places an item on a random free tile beside a platform.
 *
 * The search visits the interior of the grid column by column (x outer, y
 * inner, both from 1 to one short of the last tile) and lists, for every
 * tile whose id lies in [idStart, idEnd] and whose neighbour in direction
 * `dir` is empty (0), that neighbour.  One entry of the list, chosen at
 * random, receives the item.  The random draw is a parameter here.
 */
module Spawner {
  import opened Grid
  import opened Frame
  import opened Game
  import Physics

  /** The first and last platform tile ids the two-argument spawn searches for. */
  const PLATFORM_FIRST := 100
  const PLATFORM_LAST := 199

  /** What a spawn searches for: the side of the platform, and the platform tile ids. */
  datatype Search = Search(dir: IVec2, idStart: int, idEnd: int)

  /** The cells the search visits: neither on the grid's border nor outside it. */
  predicate Interior(s: Settings, c: IVec2) {
    1 <= c.x < s.numTilesX - 1 && 1 <= c.y < s.numTilesY - 1
  }

  /** The tile at `c` is a platform tile and its neighbour in direction `dir` is empty. */
  predicate Qualifies(t: TileGrid, q: Search, c: IVec2) {
    q.idStart <= t.At(c) <= q.idEnd && t.At(c.Plus(q.dir)) == 0
  }

  /** The spaces found in column `x`, rows 1 to y - 1, in the order the inner loop finds them. */
  function Rows(t: TileGrid, q: Search, x: int, y: int): seq<IVec2>
    decreases y
  {
    if y <= 1 then []
    else Rows(t, q, x, y - 1) + (if Qualifies(t, q, IVec2(x, y - 1)) then [IVec2(x, y - 1).Plus(q.dir)] else [])
  }

  /** The spaces found in columns 1 to x - 1, in the order the outer loop finds them. */
  function Columns(t: TileGrid, s: Settings, q: Search, x: int): seq<IVec2>
    decreases x
  {
    if x <= 1 then []
    else Columns(t, s, q, x - 1) + Rows(t, q, x - 1, s.numTilesY - 1)
  }

  /** Every space the search finds, in the order it finds them. */
  function Spaces(t: TileGrid, s: Settings, q: Search): seq<IVec2> {
    Columns(t, s, q, s.numTilesX - 1)
  }

  /** The platform tile a space was found beside. */
  function Platform(q: Search, p: IVec2): IVec2 {
    p.Minus(q.dir)
  }

  /** Column-major order of cells: by x, then by y. */
  predicate Before(a: IVec2, b: IVec2) {
    a.x < b.x || (a.x == b.x && a.y < b.y)
  }

  /** The entries of column `x` come from that column, rows 1 to y - 1, and qualify; every such cell is listed. */
  lemma {:induction false} RowsExactly(t: TileGrid, q: Search, x: int, y: int, p: IVec2)
    ensures p in Rows(t, q, x, y) <==>
              var c := Platform(q, p); c.x == x && 1 <= c.y < y && Qualifies(t, q, c)
    decreases y
  {
    if y > 1 {
      RowsExactly(t, q, x, y - 1, p);
    }
  }

  /** The entries of columns 1 to x - 1 are exactly the spaces beside their qualifying cells. */
  lemma {:induction false} ColumnsExactly(t: TileGrid, s: Settings, q: Search, x: int, p: IVec2)
    ensures p in Columns(t, s, q, x) <==>
              var c := Platform(q, p); 1 <= c.x < x && 1 <= c.y < s.numTilesY - 1 && Qualifies(t, q, c)
    decreases x
  {
    if x > 1 {
      ColumnsExactly(t, s, q, x - 1, p);
      RowsExactly(t, q, x - 1, s.numTilesY - 1, p);
    }
  }

  /**
   * A cell is a space exactly when the tile behind it, against `dir`, is an
   * interior platform tile and the cell itself is empty.
   */
  lemma {:induction false} SpacesExactly(t: TileGrid, s: Settings, q: Search, p: IVec2)
    ensures p in Spaces(t, s, q) <==> Interior(s, Platform(q, p)) && Qualifies(t, q, Platform(q, p))
  {
    ColumnsExactly(t, s, q, s.numTilesX - 1, p);
  }

  /** Every space is an empty tile: a spawn never overwrites anything. */
  lemma {:induction false} SpacesAreEmpty(t: TileGrid, s: Settings, q: Search, k: int)
    requires 0 <= k < |Spaces(t, s, q)|
    ensures t.At(Spaces(t, s, q)[k]) == 0
  {
    var p := Spaces(t, s, q)[k];
    SpacesExactly(t, s, q, p);
    assert Platform(q, p).Plus(q.dir) == p;
  }

  /** The entries of column `x` come in increasing row order. */
  lemma {:induction false} RowsInOrder(t: TileGrid, q: Search, x: int, y: int)
    ensures forall i, j :: 0 <= i < j < |Rows(t, q, x, y)| ==>
              Before(Platform(q, Rows(t, q, x, y)[i]), Platform(q, Rows(t, q, x, y)[j]))
    decreases y
  {
    if y > 1 {
      RowsInOrder(t, q, x, y - 1);
      var r := Rows(t, q, x, y - 1);
      forall i | 0 <= i < |r|
        ensures Platform(q, r[i]).x == x && Platform(q, r[i]).y < y - 1
      {
        RowsExactly(t, q, x, y - 1, r[i]);
      }
    }
  }

  /** The search lists the spaces in column-major order of their platform tiles. */
  lemma {:induction false} ColumnsInOrder(t: TileGrid, s: Settings, q: Search, x: int)
    ensures forall i, j :: 0 <= i < j < |Columns(t, s, q, x)| ==>
              Before(Platform(q, Columns(t, s, q, x)[i]), Platform(q, Columns(t, s, q, x)[j]))
    decreases x
  {
    if x > 1 {
      ColumnsInOrder(t, s, q, x - 1);
      RowsInOrder(t, q, x - 1, s.numTilesY - 1);
      var l, r := Columns(t, s, q, x - 1), Rows(t, q, x - 1, s.numTilesY - 1);
      forall i | 0 <= i < |l|
        ensures Platform(q, l[i]).x < x - 1
      {
        ColumnsExactly(t, s, q, x - 1, l[i]);
      }
      forall j | 0 <= j < |r|
        ensures Platform(q, r[j]).x == x - 1
      {
        RowsExactly(t, q, x - 1, s.numTilesY - 1, r[j]);
      }
    }
  }

  /** No space is listed twice, so every space is equally likely to be drawn. */
  lemma {:induction false} SpacesAreDistinct(t: TileGrid, s: Settings, q: Search)
    ensures forall i, j :: 0 <= i < j < |Spaces(t, s, q)| ==> Spaces(t, s, q)[i] != Spaces(t, s, q)[j]
  {
    ColumnsInOrder(t, s, q, s.numTilesX - 1);
  }

  /** The tiles after a spawn with draw `pick`: a draw outside the list writes nothing. */
  function Spawned(t: TileGrid, s: Settings, q: Search, item: int, pick: int): TileGrid {
    var sp := Spaces(t, s, q);
    if 0 <= pick < |sp| then t.Put(sp[pick], item) else t
  }

  /**
   * A successful spawn writes the item into one empty tile beside an
   * interior platform tile and changes no other tile.
   */
  lemma {:induction false} SpawnFillsOneSpace(t: TileGrid, s: Settings, q: Search, item: int, pick: int, p: IVec2)
    requires 0 <= pick < |Spaces(t, s, q)|
    ensures var c := Spaces(t, s, q)[pick];
            && Interior(s, Platform(q, c)) && q.idStart <= t.At(Platform(q, c)) <= q.idEnd && t.At(c) == 0
            && Spawned(t, s, q, item, pick).At(p) == (if p == c && t.Inside(c) then item else t.At(p))
  {
    var c := Spaces(t, s, q)[pick];
    SpacesExactly(t, s, q, c);
    SpacesAreEmpty(t, s, q, pick);
    t.PutAt(c, item, p);
  }

  class ItemSpawner2D {
    const settings: Settings
    const tiles: TileIds
    const tileMap: Map2D
    /** The gravity shared with every CPhysics2D; the spawner's own one reads only its direction. */
    const gravity: Physics.Gravity

    constructor (settings: Settings, tiles: TileIds, tileMap: Map2D, gravity: Physics.Gravity)
      ensures this.settings == settings && this.tiles == tiles && this.tileMap == tileMap && this.gravity == gravity
    {
      this.settings := settings;
      this.tiles := tiles;
      this.tileMap := tileMap;
      this.gravity := gravity;
    }

    /** The nested scan's test of one cell: a platform tile with an empty neighbour. */
    method IsSpace(q: Search, c: IVec2, ghost t: TileGrid) returns (found: bool)
      requires tileMap.Agrees(t)
      ensures found == Qualifies(t, q, c)
    {
      tileMap.AgreesAt(t, c);
      tileMap.AgreesAt(t, c.Plus(q.dir));
      var tile := tileMap.At(c);
      var tileUp := tileMap.At(c.Plus(q.dir));
      found := q.idStart <= tile <= q.idEnd && tileUp == 0;
    }

    /** The nested scan: lists the spaces in the order the loops find them. */
    method FindSpaces(q: Search) returns (spaces: seq<IVec2>)
      ensures spaces == Spaces(tileMap.Snapshot(), settings, q)
    {
      ghost var t := tileMap.Snapshot();
      spaces := [];
      var x := 1;
      while x < settings.numTilesX - 1
        invariant 1 <= x && (x <= settings.numTilesX - 1 || x == 1)
        invariant spaces == Columns(t, settings, q, x)
      {
        spaces := ScanColumn(q, x, t, spaces);
        x := x + 1;
      }
    }

    /** The inner loop of the scan over column `x`: appends that column's spaces, top to bottom. */
    method ScanColumn(q: Search, x: int, ghost t: TileGrid, found: seq<IVec2>) returns (spaces: seq<IVec2>)
      requires tileMap.Agrees(t)
      ensures spaces == found + Rows(t, q, x, settings.numTilesY - 1)
    {
      spaces := found;
      var y := 1;
      while y < settings.numTilesY - 1
        invariant 1 <= y && (y <= settings.numTilesY - 1 || y == 1)
        invariant spaces == found + Rows(t, q, x, y)
      {
        var c := IVec2(x, y);
        var hit := IsSpace(q, c, t);
        ghost var e := if hit then [c.Plus(q.dir)] else [];
        assert Rows(t, q, x, y + 1) == Rows(t, q, x, y) + e;
        if hit {
          spaces := spaces + [c.Plus(q.dir)];
        }
        assert spaces == found + (Rows(t, q, x, y) + e);
        y := y + 1;
      }
    }

    /**
     * SpawnObjectOnRandomPlatform(type, dir, idStart, idEnd): the draw
     * `pick` stands for RandIntMinMax(0, size - 1).  Where the
     * selection fails (no space at all) the result is false and no tile is
     * written.
     */
    method SpawnObjectOnRandomPlatformIn(item: int, q: Search, pick: int) returns (ok: bool)
      modifies tileMap.cells
      ensures ok == (0 <= pick < |Spaces(old(tileMap.Snapshot()), settings, q)|)
      ensures tileMap.Agrees(Spawned(old(tileMap.Snapshot()), settings, q, item, pick))
    {
      ghost var t := tileMap.Snapshot();
      var spaces := FindSpaces(q);
      ok := 0 <= pick < |spaces|;
      if ok {
        var selected := spaces[pick];
        tileMap.Set(selected.y, selected.x, item);
        tileMap.AgreesPut(t, selected, item);
      }
    }

    /** The two-argument overload: platforms are the tiles 100 to 199. */
    method SpawnObjectOnRandomPlatform(item: int, dir: IVec2, pick: int) returns (ok: bool)
      modifies tileMap.cells
      ensures var q := Search(dir, PLATFORM_FIRST, PLATFORM_LAST);
              && ok == (0 <= pick < |Spaces(old(tileMap.Snapshot()), settings, q)|)
              && tileMap.Agrees(Spawned(old(tileMap.Snapshot()), settings, q, item, pick))
    {
      ok := SpawnObjectOnRandomPlatformIn(item, Search(dir, PLATFORM_FIRST, PLATFORM_LAST), pick);
    }

    /**
     * Init: a small bomb above a platform ("above" against the current
     * gravity), then, when the coin `coin` (RandIntMinMax(0, 1)) shows 0, a
     * double-jump power-up the same way.  A failed spawn ends Init with
     * false.
     */
    method Init(pickBomb: int, coin: int, pickPowerup: int) returns (ok: bool)
      modifies tileMap.cells
      ensures var q := Search(RelativeDirVector(gravity.direction, Up), PLATFORM_FIRST, PLATFORM_LAST);
              var t0 := old(tileMap.Snapshot());
              var t1 := Spawned(t0, settings, q, tiles.bombSmall, pickBomb);
              var bombOk := 0 <= pickBomb < |Spaces(t0, settings, q)|;
              var powerupOk := 0 <= pickPowerup < |Spaces(t1, settings, q)|;
              && ok == (bombOk && (coin == 0 ==> powerupOk))
              && tileMap.Agrees(if bombOk && coin == 0 then Spawned(t1, settings, q, tiles.powerupDoubleJump, pickPowerup) else t1)
    {
      var up := RelativeDirVector(gravity.direction, Up);
      ghost var q := Search(up, PLATFORM_FIRST, PLATFORM_LAST);
      ghost var t0 := tileMap.Snapshot();
      ok := SpawnObjectOnRandomPlatform(tiles.bombSmall, up, pickBomb);
      tileMap.SnapshotOf(Spawned(t0, settings, q, tiles.bombSmall, pickBomb));
      if ok && coin == 0 {
        ok := SpawnObjectOnRandomPlatform(tiles.powerupDoubleJump, up, pickPowerup);
      }
    }
  }
}
