/**
 * CBomb2D: a thrown bomb falls along gravity cell by cell.  On every cell it
 * visits it first tries to blow up the tile it sits on, then asks
 * CheckPosition(DOWN); the first refused cell stops it there, with no step
 * back.  Clamping at the grid edge kills it, and so does destroying a tile.
 */
module Bomb {
  import opened Grid
  import opened Frame
  import opened Physics
  import opened Mover
  import opened Game
  import Entities

  /** PlayerIsOnBottomRow of the bomb: exactly on the grid edge gravity pulls towards. */
  predicate OnBottomRow(s: Settings, g: GravityDirection, idx: IVec2) {
    match g
    case GravityDown => idx.y == 0
    case GravityUp => idx.y == s.numTilesY - 1
    case GravityLeft => idx.x == 0
    case GravityRight => idx.x == s.numTilesX - 1
  }

  /**
   * IsMidAir of the bomb: never on its bottom row; otherwise some microstep
   * is 0 and the tile one relative-DOWN step away is exactly 0.
   */
  predicate MidAir(s: Settings, m: Map2D, g: GravityDirection, p: Pos)
    reads m.cells
  {
    !OnBottomRow(s, g, p.index) && (p.micro.x == 0 || p.micro.y == 0) &&
    m.At(p.index.Plus(RelativeDirVector(g, Down))) == 0
  }

  /** The tiles a bomb blows up: strictly between INTERACTABLES_END and BLOCK_END. */
  predicate Destructible(tiles: TileIds, t: int) {
    tiles.interactablesEnd < t < tiles.blockEnd
  }

  /** The cell a bomb has cleared during its walk, if any. */
  datatype Hole = NoHole | HoleAt(cell: IVec2)

  /** The tiles `t` once the cell `h` has been set to 0. */
  function AfterHole(t: TileGrid, h: Hole): TileGrid {
    match h
    case NoHole => t
    case HoleAt(c) => t.Cleared(c)
  }

  /** CheckPosition's verdict on the tiles `t` with the hole `h` cleared. */
  predicate PassableWith(s: Settings, t: TileGrid, h: Hole, p: Pos, w: WorldDir) {
    Passable(s, AfterHole(t, h), p, w)
  }

  /** How a bomb's walk ends: where it stopped, whether it is dead, and which cell it cleared. */
  datatype Blast = Blast(stop: WalkStop, dead: bool, hole: Hole)

  /**
   * The walk of CBomb2D::Update over the tiles `t` the map held when it
   * began, from cell `i` towards `last` in steps of `st`: on each cell a
   * live bomb clears a destructible tile and dies, and then CheckPosition(w)
   * runs on the map as it now is; the first refusal ends the walk.
   */
  function BombWalk(s: Settings, t: TileGrid, tiles: TileIds, p: Pos, w: WorldDir, a: Axis,
                    i: int, last: int, st: int, dead: bool, h: Hole): (r: Blast)
    requires st == 1 || st == -1
    decreases Remaining(i, last, st) + 1
  {
    if Remaining(i, last, st) < 0 then Blast(Clear, dead, h)
    else
      var q := Moved(p, a, i);
      var hit := !dead && Destructible(tiles, AfterHole(t, h).At(q.index));
      var h' := if hit then HoleAt(q.index) else h;
      if !PassableWith(s, t, h', q, w) then Blast(BlockedAt(i), dead || hit, h')
      else BombWalk(s, t, tiles, p, w, a, i + st, last, st, dead || hit, h')
  }

  /** One cell of the walk: a refused cell ends it, a passable one hands it on. */
  lemma BombWalkStep(s: Settings, t: TileGrid, tiles: TileIds, p: Pos, w: WorldDir, a: Axis,
                     i: int, last: int, st: int, dead: bool, h: Hole)
    requires st == 1 || st == -1
    requires Remaining(i, last, st) >= 0
    ensures var q := Moved(p, a, i);
            var hit := !dead && Destructible(tiles, AfterHole(t, h).At(q.index));
            var h' := if hit then HoleAt(q.index) else h;
            BombWalk(s, t, tiles, p, w, a, i, last, st, dead, h) ==
              if !PassableWith(s, t, h', q, w) then Blast(BlockedAt(i), dead || hit, h')
              else BombWalk(s, t, tiles, p, w, a, i + st, last, st, dead || hit, h')
  {
  }

  /**
   * A walk clears at most one cell: a visited one whose tile was
   * destructible, and only when the bomb entered the walk alive; the bomb
   * ends dead exactly when it entered dead or cleared a cell.
   */
  lemma {:induction false} WalkClearsAtMostOne(s: Settings, t: TileGrid, tiles: TileIds, p: Pos, w: WorldDir, a: Axis,
                                               i: int, last: int, st: int, dead: bool)
    requires st == 1 || st == -1
    ensures var r := BombWalk(s, t, tiles, p, w, a, i, last, st, dead, NoHole);
            && r.dead == (dead || r.hole.HoleAt?)
            && (r.hole.HoleAt? ==>
                  var j := Comp(r.hole.cell, a);
                  && !dead && Destructible(tiles, t.At(r.hole.cell))
                  && r.hole.cell == With(p.index, a, j)
                  && Remaining(i, j, st) >= 0 && Remaining(j, last, st) >= 0)
    decreases Remaining(i, last, st) + 1
  {
    if Remaining(i, last, st) >= 0 {
      var q := Moved(p, a, i);
      BombWalkStep(s, t, tiles, p, w, a, i, last, st, dead, NoHole);
      assert AfterHole(t, NoHole) == t;
      var hit := !dead && Destructible(tiles, t.At(q.index));
      if hit {
        WalkKeepsHole(s, t, tiles, p, w, a, i + st, last, st, HoleAt(q.index));
        assert Comp(q.index, a) == i && q.index == With(p.index, a, i);
      } else if PassableWith(s, t, NoHole, q, w) {
        WalkClearsAtMostOne(s, t, tiles, p, w, a, i + st, last, st, dead);
      }
    }
  }

  /** A dead bomb clears nothing more: the hole it carries is the one it ends with. */
  lemma {:induction false} WalkKeepsHole(s: Settings, t: TileGrid, tiles: TileIds, p: Pos, w: WorldDir, a: Axis,
                                         i: int, last: int, st: int, h: Hole)
    requires st == 1 || st == -1
    ensures BombWalk(s, t, tiles, p, w, a, i, last, st, true, h).hole == h
    ensures BombWalk(s, t, tiles, p, w, a, i, last, st, true, h).dead
    decreases Remaining(i, last, st) + 1
  {
    if Remaining(i, last, st) >= 0 && PassableWith(s, t, h, Moved(p, a, i), w) {
      WalkKeepsHole(s, t, tiles, p, w, a, i + st, last, st, h);
    }
  }

  /** A bomb that is already dead walks exactly like the player's walk over the unchanged map. */
  lemma {:induction false} DeadBombWalksLikeFirstBlocked(s: Settings, t: TileGrid, tiles: TileIds, p: Pos, w: WorldDir, a: Axis,
                                                         i: int, last: int, st: int)
    requires st == 1 || st == -1
    ensures BombWalk(s, t, tiles, p, w, a, i, last, st, true, NoHole) ==
            Blast(FirstBlocked(s, t, p, w, a, i, last, st), true, NoHole)
    decreases Remaining(i, last, st) + 1
  {
    if Remaining(i, last, st) >= 0 {
      BombWalkStep(s, t, tiles, p, w, a, i, last, st, true, NoHole);
      FirstBlockedStep(s, t, p, w, a, i, last, st);
      if Passable(s, t, Moved(p, a, i), w) {
        DeadBombWalksLikeFirstBlocked(s, t, tiles, p, w, a, i + st, last, st);
      }
    }
  }

  /** The bomb stops on a cell CheckPosition refuses, on the map as the walk left it. */
  lemma {:induction false} BombStopsOnRefusedCell(s: Settings, t: TileGrid, tiles: TileIds, p: Pos, w: WorldDir, a: Axis,
                                                  i: int, last: int, st: int, dead: bool, h: Hole)
    requires st == 1 || st == -1
    ensures var r := BombWalk(s, t, tiles, p, w, a, i, last, st, dead, h);
            r.stop.BlockedAt? ==> !PassableWith(s, t, r.hole, Moved(p, a, r.stop.cell), w)
    decreases Remaining(i, last, st) + 1
  {
    if Remaining(i, last, st) >= 0 {
      var q := Moved(p, a, i);
      var hit := !dead && Destructible(tiles, AfterHole(t, h).At(q.index));
      var h' := if hit then HoleAt(q.index) else h;
      if PassableWith(s, t, h', q, w) {
        BombStopsOnRefusedCell(s, t, tiles, p, w, a, i + st, last, st, dead || hit, h');
      }
    }
  }

  /** Where the bomb ends: on the refused cell itself, or on the last cell. */
  function BombEnd(r: WalkStop, last: int): int {
    match r
    case Clear => last
    case BlockedAt(c) => c
  }

  /**
   * The FALL step of CBomb2D::Update with whole-tile displacement `disp`:
   * the set-up of the player's fall (the displacement added as it is,
   * clamped towards relative DOWN), a clamp at the edge killing the bomb,
   * then the walk along gravity.
   */
  function BombFall(s: Settings, t: TileGrid, tiles: TileIds, g: GravityDirection, p: Pos, dead: bool, disp: int): Blast
  {
    var wk := FallSetup(s, g, p, disp);
    var killed := AtEdge(s, Pos(With(p.index, wk.axis, wk.from + disp), With(p.micro, wk.axis, 0)), Side(g, Down));
    BombWalk(s, t, tiles, wk.start, Side(g, Down), wk.axis, wk.from, wk.last, wk.step, dead || killed, NoHole)
  }

  function BombFallPos(s: Settings, t: TileGrid, tiles: TileIds, g: GravityDirection, p: Pos, dead: bool, disp: int): Pos
  {
    var wk := FallSetup(s, g, p, disp);
    Moved(wk.start, wk.axis, BombEnd(BombFall(s, t, tiles, g, p, dead, disp).stop, wk.last))
  }

  class Bomb2D {
    const settings: Settings
    const tiles: TileIds
    const tileMap: Map2D
    /** The bomb's own integrator; its gravity is the shared one. */
    const physics: Physics2D

    var index: IVec2
    var micro: IVec2
    var oldIndex: IVec2
    var dead: bool

    constructor (settings: Settings, tiles: TileIds, tileMap: Map2D, physics: Physics2D)
      ensures this.settings == settings && this.tiles == tiles && this.tileMap == tileMap && this.physics == physics
      ensures index == micro == oldIndex == Zero && !dead
    {
      this.settings := settings;
      this.tiles := tiles;
      this.tileMap := tileMap;
      this.physics := physics;
      index, micro, oldIndex := Zero, Zero, Zero;
      dead := false;
    }

    function Position(): Pos
      reads this
    {
      Pos(index, micro)
    }

    /** What the entity manager holds of the bomb; the constructor names every bomb "Bomb". */
    function AsEntity(): Entities.Entity
      reads this
    {
      Entities.Entity("Bomb", index, micro, dead)
    }

    function GravityNow(): GravityDirection
      reads physics.gravity
    {
      physics.gravity.direction
    }

    /** The world side relative direction `d` acts on now. */
    function Dir(d: Direction): WorldDir
      reads physics.gravity
    {
      Side(GravityNow(), d)
    }

    predicate IsOnBottomRow()
      reads this, physics.gravity
    {
      OnBottomRow(settings, GravityNow(), index)
    }

    predicate IsMidAir()
      reads this, physics.gravity, tileMap.cells
    {
      MidAir(settings, tileMap, GravityNow(), Position())
    }

    /**
     * Init(dir, x, y): the shared gravity becomes `dir` with magnitude 7.5,
     * the bomb sits at (x, y) at rest in its tile, and it falls from zero
     * velocity: the (0, -10) it sets first is wiped by the integrator's Init.
     */
    method Init(dir: GravityDirection, x: int, y: int) returns (ok: bool)
      modifies this, physics, physics.gravity
      ensures ok
      ensures physics.gravity.direction == dir && physics.gravity.magnitude == 7.5
      ensures index == IVec2(x, y) && oldIndex == index && micro == Zero && dead == old(dead)
      ensures physics.state == WithStatus(Physics.Reset(old(physics.state)), Fall)
      ensures physics.state.status == Fall && physics.state.initialVelocity == ZeroV
    {
      physics.SetGravityDirection(dir);
      physics.SetGravityMagnitude(7.5);
      physics.SetInitialVelocity(Vec2(0.0, -10.0));
      index := IVec2(x, y);
      oldIndex := index;
      micro := Zero;
      var _ := physics.Init();
      physics.SetStatus(Fall);
      ok := true;
    }

    /** Constraint(d): the player's clamp, and the bomb dies at or past the edge. */
    method Constraint(d: Direction)
      modifies this
      ensures Position() == Clamp(settings, old(Position()), Dir(d))
      ensures dead == (old(dead) || AtEdge(settings, old(Position()), Dir(d)))
      ensures oldIndex == old(oldIndex)
    {
      var w := Dir(d);
      if AtEdge(settings, Position(), w) {
        var a := AxisOf(w);
        index := With(index, a, EdgeIndex(settings, w));
        micro := With(micro, a, 0);
        dead := true;
      }
    }

    /** CheckPosition(d): the player's two-cell probe; the index and the map never change. */
    method CheckPosition(d: Direction) returns (ok: bool)
      modifies this
      ensures ok == Passable(settings, tileMap.Snapshot(), old(Position()), Dir(d))
      ensures index == old(index) && micro == CheckedMicro(settings, old(Position()), Dir(d))
      ensures dead == old(dead) && oldIndex == old(oldIndex)
    {
      var w := Dir(d);
      if OffGrid(settings, Position(), w) {
        micro := With(micro, AxisOf(w), 0);
        return false;
      }
      var cells := Probes(Position(), w);
      ok := tileMap.At(cells.0) < SOLID_TILE && tileMap.At(cells.1) < SOLID_TILE;
      tileMap.AgreesAt(tileMap.Snapshot(), cells.0);
      tileMap.AgreesAt(tileMap.Snapshot(), cells.1);
    }

    /**
     * InteractWithMap: a dead bomb does nothing; a live one on a tile
     * strictly between INTERACTABLES_END and BLOCK_END clears that tile and
     * dies; any other tile changes nothing.
     */
    method InteractWithMap()
      modifies this, tileMap.cells
      ensures var hit := !old(dead) && Destructible(tiles, old(tileMap.At(index)));
              && dead == (old(dead) || hit)
              && forall r, c :: tileMap.InArray(r, c) ==>
                   tileMap.cells[r, c] == (if hit && r == index.y && c == index.x then 0 else old(tileMap.cells[r, c]))
      ensures Position() == old(Position()) && oldIndex == old(oldIndex)
    {
      if dead {
        return;
      }
      var id := tileMap.At(index);
      if tiles.interactablesEnd < id < tiles.blockEnd {
        tileMap.Set(index.y, index.x, 0);
        dead := true;
      }
    }

    /**
     * Update(dt) with `disp` the whole-tile displacement the source derives
     * from the integrator's displacement: only a falling bomb moves; it
     * walks along gravity, clearing at most one tile, and a refused cell
     * makes it IDLE where it stands.
     */
    method Update(dt: real, disp: int)
      modifies this, physics, tileMap.cells
      ensures old(physics.state.status) != Fall ==>
                Position() == old(Position()) && dead == old(dead) && physics.state == old(physics.state) &&
                forall r, c :: tileMap.InArray(r, c) ==> tileMap.cells[r, c] == old(tileMap.cells[r, c])
      ensures old(physics.state.status) == Fall ==>
                var b := BombFall(settings, old(tileMap.Snapshot()), tiles, GravityNow(), old(Position()), old(dead), disp);
                var m1 := Integrate(old(physics.state).(time := old(physics.state.time) + dt), physics.GravityVector());
                && Position() == BombFallPos(settings, old(tileMap.Snapshot()), tiles, GravityNow(), old(Position()), old(dead), disp)
                && dead == b.dead
                && physics.state == (if b.stop.BlockedAt? then WithStatus(m1, Idle) else m1)
                && tileMap.Agrees(AfterHole(old(tileMap.Snapshot()), b.hole))
      ensures oldIndex == old(oldIndex)
    {
      if physics.state.status != Fall {
        return;
      }
      physics.AddElapsedTime(dt);
      physics.Update();
      var b := Drop(disp);
      if b.stop.BlockedAt? {
        physics.SetStatus(Idle);
      }
    }

    /** The moving part of Update: displacement, Constraint(DOWN), then the walk. */
    method Drop(disp: int) returns (b: Blast)
      modifies this, tileMap.cells
      ensures b == BombFall(settings, old(tileMap.Snapshot()), tiles, GravityNow(), old(Position()), old(dead), disp)
      ensures Position() == BombFallPos(settings, old(tileMap.Snapshot()), tiles, GravityNow(), old(Position()), old(dead), disp)
      ensures dead == b.dead
      ensures tileMap.Agrees(AfterHole(old(tileMap.Snapshot()), b.hole))
      ensures oldIndex == old(oldIndex)
    {
      var g := GravityNow();
      ghost var p0 := Position();
      SidesLieOnWalkAxis(g);
      var a := if g == GravityUp || g == GravityDown then Y else X;
      var o := Comp(index, a);
      Displace(a, o + disp);
      var last := Comp(index, a);
      var st := if g == GravityUp || g == GravityRight then 1 else -1;
      var wk := Walk(Position(), a, o, last, st);
      assert wk == FallSetup(settings, g, p0, disp);
      b := FallWalk(wk);
    }

    /**
     * The set-up of the walk: the index on axis `a` becomes `target`, that
     * axis's microstep 0, and Constraint(DOWN) clamps it, killing the bomb
     * at the edge.
     */
    method Displace(a: Axis, target: int)
      modifies this
      ensures var p := Pos(With(old(index), a, target), With(old(micro), a, 0));
              Position() == Clamp(settings, p, Dir(Down)) && dead == (old(dead) || AtEdge(settings, p, Dir(Down)))
      ensures oldIndex == old(oldIndex)
    {
      index := With(index, a, target);
      micro := With(micro, a, 0);
      Constraint(Down);
    }

    /**
     * The walk: from `wk.from` towards `wk.last`, visit each cell; the first
     * refusal stops the bomb on that cell.
     */
    method FallWalk(wk: Walk) returns (b: Blast)
      requires wk.step == 1 || wk.step == -1
      requires AxisOf(Dir(Down)) == wk.axis && Position() == wk.start
      requires Comp(wk.start.micro, wk.axis) == 0 && Comp(wk.start.index, wk.axis) == wk.last
      modifies this, tileMap.cells
      ensures b == BombWalk(settings, old(tileMap.Snapshot()), tiles, wk.start, Dir(Down), wk.axis, wk.from, wk.last, wk.step, old(dead), NoHole)
      ensures Position() == Moved(wk.start, wk.axis, BombEnd(b.stop, wk.last))
      ensures dead == b.dead
      ensures tileMap.Agrees(AfterHole(old(tileMap.Snapshot()), b.hole))
      ensures oldIndex == old(oldIndex)
    {
      var a, st := wk.axis, wk.step;
      var i := wk.from;
      var w := Dir(Down);
      var h := NoHole;
      ghost var t0 := tileMap.Snapshot();
      ghost var dead0 := dead;
      WithSame(wk.start.index, a);
      WithSame(wk.start.micro, a);
      while Remaining(i, wk.last, st) >= 0
        invariant Remaining(wk.from, i, st) >= 0
        invariant i == wk.from || Remaining(i, wk.last, st) >= -1
        invariant w == Dir(Down)
        invariant !dead ==> h == NoHole
        invariant BombWalk(settings, t0, tiles, wk.start, w, a, wk.from, wk.last, st, dead0, NoHole) ==
                  BombWalk(settings, t0, tiles, wk.start, w, a, i, wk.last, st, dead, h)
        invariant tileMap.Agrees(AfterHole(t0, h))
        invariant Position() == Moved(wk.start, a, if i == wk.from then wk.last else i - st)
        invariant oldIndex == old(oldIndex)
        decreases Remaining(i, wk.last, st) + 1
      {
        BombWalkStep(settings, t0, tiles, wk.start, w, a, i, wk.last, st, dead, h);
        var wasAlive := !dead;
        var ok;
        ghost var h';
        ok, h' := Visit(a, i, w, t0, h);
        if wasAlive && dead {
          h := HoleAt(index);
        }
        assert h == h';
        if !ok {
          return Blast(BlockedAt(i), dead, h);
        }
        i := i + st;
      }
      b := Blast(Clear, dead, h);
    }

    /**
     * One cell of the walk: the index moves to `i` on axis `a`,
     * InteractWithMap runs, then CheckPosition(DOWN) on the map as it now
     * is.  The map agrees with the tiles `t` with the hole `h` cleared
     * before, and with the hole `h'` cleared after.
     */
    method Visit(a: Axis, i: int, w: WorldDir, ghost t: TileGrid, ghost h: Hole) returns (ok: bool, ghost h': Hole)
      requires w == Dir(Down) && AxisOf(w) == a && Comp(micro, a) == 0
      requires tileMap.Agrees(AfterHole(t, h)) && (!dead ==> h == NoHole)
      modifies this, tileMap.cells
      ensures Position() == Moved(old(Position()), a, i)
      ensures var hit := !old(dead) && Destructible(tiles, AfterHole(t, h).At(index));
              h' == (if hit then HoleAt(index) else h) && dead == (old(dead) || hit)
      ensures tileMap.Agrees(AfterHole(t, h')) && (!dead ==> h' == NoHole)
      ensures ok == PassableWith(settings, t, h', Position(), w)
      ensures oldIndex == old(oldIndex)
    {
      index := With(index, a, i);
      tileMap.AgreesAt(AfterHole(t, h), index);
      var wasAlive := !dead;
      InteractWithMap();
      h' := if wasAlive && dead then HoleAt(index) else h;
      if wasAlive && dead {
        tileMap.AgreesPut(t, index, 0);
      }
      WithSame(micro, a);
      tileMap.SnapshotOf(AfterHole(t, h'));
      ok := CheckPosition(Down);
    }
  }
}
