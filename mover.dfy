/**
 * What CPlayer2D and CBomb2D share: a position is a grid index plus a
 * microstep count per axis; Constraint clamps it at a grid edge,
 * CheckPosition probes up to two cells on the side it moves towards, and the
 * jump and fall walks visit cells one at a time until the first one that
 * CheckPosition refuses.
 *
 * Both movers dispatch Constraint and CheckPosition on the sign of a unit
 * direction vector; WorldDir names the four cases.
 */
module Mover {
  import opened Grid
  import opened Frame
  import opened Physics

  /** The side a unit vector points to: -x, +x, +y, -y. */
  datatype WorldDir = NegX | PosX | PosY | NegY

  function ToVector(w: WorldDir): IVec2 {
    match w
    case NegX => IVec2(-1, 0)
    case PosX => IVec2(1, 0)
    case PosY => IVec2(0, 1)
    case NegY => IVec2(0, -1)
  }

  /** Which branch a unit vector selects; the vector is recovered from it. */
  function WorldOf(v: IVec2): (w: WorldDir)
    requires IsUnitAxis(v)
    ensures ToVector(w) == v
  {
    if v.x == -1 then NegX else if v.x == 1 then PosX else if v.y == 1 then PosY else NegY
  }

  function AxisOf(w: WorldDir): Axis {
    if w == NegX || w == PosX then X else Y
  }

  /** +1 towards the positive end of the axis, -1 towards the negative end. */
  function Sign(w: WorldDir): int {
    if w == PosX || w == PosY then 1 else -1
  }

  function Opposite(w: WorldDir): WorldDir {
    match w
    case NegX => PosX
    case PosX => NegX
    case PosY => NegY
    case NegY => PosY
  }

  /** A mover's place on the grid: tile index and microsteps into that tile. */
  datatype Pos = Pos(index: IVec2, micro: IVec2)

  /** `(n > 0 ? 1 : 0)`: a positive microstep count means the sprite overlaps the next tile. */
  function Over(n: int): int {
    if n > 0 then 1 else 0
  }

  /** The index is at or past the edge the direction points to. */
  predicate AtEdge(s: Settings, p: Pos, w: WorldDir) {
    match w
    case NegX => p.index.x <= 0
    case PosX => p.index.x >= s.numTilesX - 1
    case PosY => p.index.y >= s.numTilesY - 1
    case NegY => p.index.y <= 0
  }

  /** The edge index on the side the direction points to. */
  function EdgeIndex(s: Settings, w: WorldDir): int {
    match w
    case NegX => 0
    case PosX => s.numTilesX - 1
    case PosY => s.numTilesY - 1
    case NegY => 0
  }

  /**
   * Constraint of the player and the bomb: at or past the edge on the
   * direction's side, that axis's index is set to the edge and its microstep
   * to 0; nothing else changes.
   */
  function Clamp(s: Settings, p: Pos, w: WorldDir): (r: Pos)
    ensures AtEdge(s, p, w) ==>
              r == Pos(With(p.index, AxisOf(w), EdgeIndex(s, w)), With(p.micro, AxisOf(w), 0))
    ensures !AtEdge(s, p, w) ==> r == p
    ensures Sign(w) < 0 ==> Comp(r.index, AxisOf(w)) >= 0
    ensures Sign(w) > 0 ==> Comp(r.index, AxisOf(w)) <= s.NumTiles(AxisOf(w)) - 1
  {
    if AtEdge(s, p, w) then
      Pos(With(p.index, AxisOf(w), EdgeIndex(s, w)), With(p.micro, AxisOf(w), 0))
    else p
  }

  /** Clamping twice is clamping once. */
  lemma ClampIdempotent(s: Settings, p: Pos, w: WorldDir)
    ensures Clamp(s, Clamp(s, p, w), w) == Clamp(s, p, w)
  {
  }

  /** Clamping towards one side never pulls an index back from the other side. */
  lemma {:induction false} ClampIsOneSided(s: Settings, p: Pos, w: WorldDir)
    requires s.Valid()
    requires Sign(w) > 0 && Comp(p.index, AxisOf(w)) < 0
    ensures Clamp(s, p, w) == p
  {
    assert !AtEdge(s, p, w);
  }

  /** CheckPosition's first test: the index has left the grid on the moving side. */
  predicate OffGrid(s: Settings, p: Pos, w: WorldDir) {
    match w
    case NegX => p.index.x < 0
    case PosX => p.index.x >= s.numTilesX
    case PosY => p.index.y >= s.numTilesY
    case NegY => p.index.y < 0
  }

  /**
   * The two cells CheckPosition reads, as (x, y) indices.  Both lie on the
   * leading edge: the own tile's row or column, or the next one when moving
   * towards the positive end with a positive microstep.  The second cell is
   * the neighbour across the other axis when the sprite overlaps it.
   */
  function Probes(p: Pos, w: WorldDir): (r: (IVec2, IVec2))
    ensures var a := AxisOf(w);
            var lead := Comp(p.index, a) + (if Sign(w) > 0 then Over(Comp(p.micro, a)) else 0);
            Comp(r.0, a) == lead && Comp(r.1, a) == lead
    ensures var b := if AxisOf(w) == X then Y else X;
            Comp(r.0, b) == Comp(p.index, b) && Comp(r.1, b) == Comp(p.index, b) + Over(Comp(p.micro, b))
  {
    var i := p.index;
    var mx := Over(p.micro.x);
    var my := Over(p.micro.y);
    match w
    case NegX => (i, IVec2(i.x, i.y + my))
    case PosX => (IVec2(i.x + mx, i.y), IVec2(i.x + mx, i.y + my))
    case PosY => (IVec2(i.x, i.y + my), IVec2(i.x + mx, i.y + my))
    case NegY => (i, IVec2(i.x + mx, i.y))
  }

  /** A mover at rest in its tile probes only that tile, whatever the direction. */
  lemma ProbesAtRest(p: Pos, w: WorldDir)
    requires p.micro == Zero
    ensures Probes(p, w) == (p.index, p.index)
  {
  }

  /**
   * With no microsteps along the moving axis, both sides of that axis probe
   * the same two cells: which way along the axis the check looks does not
   * matter.
   */
  lemma {:induction false} ProbesIgnoreSignWhenAligned(p: Pos, w: WorldDir)
    requires Comp(p.micro, AxisOf(w)) == 0
    ensures Probes(p, w) == Probes(p, Opposite(w))
  {
    var r, q := Probes(p, w), Probes(p, Opposite(w));
    assert AxisOf(Opposite(w)) == AxisOf(w);
    if AxisOf(w) == X {
      assert r.0 == IVec2(p.index.x, p.index.y) == q.0;
      assert r.1 == IVec2(p.index.x, p.index.y + Over(p.micro.y)) == q.1;
    } else {
      assert r.0 == IVec2(p.index.x, p.index.y) == q.0;
      assert r.1 == IVec2(p.index.x + Over(p.micro.x), p.index.y) == q.1;
    }
  }

  /** CheckPosition's verdict: on the grid, and neither probed cell is solid. */
  predicate Passable(s: Settings, t: TileGrid, p: Pos, w: WorldDir)
  {
    !OffGrid(s, p, w) && t.At(Probes(p, w).0) < SOLID_TILE && t.At(Probes(p, w).1) < SOLID_TILE
  }

  /** CheckPosition's side effect: off the grid, the moving axis's microstep becomes 0. */
  function CheckedMicro(s: Settings, p: Pos, w: WorldDir): (r: IVec2)
    ensures OffGrid(s, p, w) ==> r == With(p.micro, AxisOf(w), 0)
    ensures !OffGrid(s, p, w) ==> r == p.micro
  {
    if OffGrid(s, p, w) then With(p.micro, AxisOf(w), 0) else p.micro
  }

  /** A vector is its own update on an axis with its own component. */
  lemma WithSame(v: IVec2, a: Axis)
    ensures With(v, a, Comp(v, a)) == v
  {
  }

  /** `p` moved to index `i` along axis `a`. */
  function Moved(p: Pos, a: Axis, i: int): (r: Pos)
    ensures Comp(r.index, a) == i && r.micro == p.micro
  {
    p.(index := With(p.index, a, i))
  }

  /** How many steps of `st` are left from `i` to `last` (negative: `last` is behind `i`). */
  function Remaining(i: int, last: int, st: int): int {
    if st > 0 then last - i else i - last
  }

  /** How a walk ends: every visited cell passed, or the first refused cell. */
  datatype WalkStop = Clear | BlockedAt(cell: int)

  /** The first cell a walk would not go past: the refused cell, or one step beyond `last`. */
  function StopCell(r: WalkStop, last: int, st: int): int {
    match r
    case Clear => last + st
    case BlockedAt(c) => c
  }

  /**
   * The walk of UpdateJumpFall and CBomb2D::Update: from cell `i` towards
   * `last` in steps of `st`, the first cell where CheckPosition(w) fails.
   * Nothing is visited when `last` lies behind `i`.
   */
  function FirstBlocked(s: Settings, t: TileGrid, p: Pos, w: WorldDir, a: Axis, i: int, last: int, st: int): (r: WalkStop)
    requires st == 1 || st == -1
    decreases Remaining(i, last, st) + 1
    ensures r.BlockedAt? ==> Remaining(i, r.cell, st) >= 0 && Remaining(r.cell, last, st) >= 0
  {
    if Remaining(i, last, st) < 0 then Clear
    else if !Passable(s, t, Moved(p, a, i), w) then BlockedAt(i)
    else FirstBlocked(s, t, p, w, a, i + st, last, st)
  }

  /** The cell a walk stops at is one CheckPosition refuses. */
  lemma {:induction false} StopCellIsRefused(s: Settings, t: TileGrid, p: Pos, w: WorldDir, a: Axis, i: int, last: int, st: int)
    requires st == 1 || st == -1
    requires FirstBlocked(s, t, p, w, a, i, last, st).BlockedAt?
    ensures !Passable(s, t, Moved(p, a, FirstBlocked(s, t, p, w, a, i, last, st).cell), w)
    decreases Remaining(i, last, st) + 1
  {
    if Passable(s, t, Moved(p, a, i), w) {
      StopCellIsRefused(s, t, p, w, a, i + st, last, st);
    }
  }

  /** Every cell the walk visits before the one it stops at is passable. */
  lemma {:induction false} PassableBeforeStop(s: Settings, t: TileGrid, p: Pos, w: WorldDir, a: Axis, i: int, last: int, st: int, j: int)
    requires st == 1 || st == -1
    requires Remaining(i, j, st) >= 0
    requires Remaining(j, StopCell(FirstBlocked(s, t, p, w, a, i, last, st), last, st), st) > 0
    ensures Passable(s, t, Moved(p, a, j), w)
    decreases Remaining(i, last, st) + 1
  {
    if Remaining(i, last, st) >= 0 && Passable(s, t, Moved(p, a, i), w) && j != i {
      PassableBeforeStop(s, t, p, w, a, i + st, last, st, j);
    }
  }

  /**
   * A walk from a passable cell stops past its first cell, and the cell
   * just before the stop is passable and lies within the walk.
   */
  lemma {:induction false} LastPassable(s: Settings, t: TileGrid, p: Pos, w: WorldDir, a: Axis, i: int, last: int, st: int)
    requires st == 1 || st == -1
    requires Remaining(i, last, st) >= 0 && Passable(s, t, Moved(p, a, i), w)
    ensures var r := FirstBlocked(s, t, p, w, a, i, last, st);
            var e := StopCell(r, last, st) - st;
            && (r.BlockedAt? ==> r.cell != i)
            && Passable(s, t, Moved(p, a, e), w) && Remaining(i, e, st) >= 0 && Remaining(e, last, st) >= 0
  {
    var r := FirstBlocked(s, t, p, w, a, i, last, st);
    var e := StopCell(r, last, st) - st;
    assert r == FirstBlocked(s, t, p, w, a, i + st, last, st) by {
      FirstBlockedStep(s, t, p, w, a, i, last, st);
    }
    assert Remaining(i, e, st) >= 0 && Remaining(e, last, st) >= 0 && (r.BlockedAt? ==> r.cell != i) by {
      if r.BlockedAt? {
        assert Remaining(i + st, r.cell, st) >= 0;
      }
    }
    PassableBeforeStop(s, t, p, w, a, i, last, st, e);
  }

  /** One step of the walk: a passable cell hands the search on to the next one, a refused cell ends it. */
  lemma FirstBlockedStep(s: Settings, t: TileGrid, p: Pos, w: WorldDir, a: Axis, i: int, last: int, st: int)
    requires st == 1 || st == -1
    requires Remaining(i, last, st) >= 0
    ensures Passable(s, t, Moved(p, a, i), w) ==>
              FirstBlocked(s, t, p, w, a, i, last, st) == FirstBlocked(s, t, p, w, a, i + st, last, st)
    ensures !Passable(s, t, Moved(p, a, i), w) ==> FirstBlocked(s, t, p, w, a, i, last, st) == BlockedAt(i)
  {
  }

  /** A walk whose end lies behind its start is clear: no cell is checked. */
  lemma WrongSideIsClear(s: Settings, t: TileGrid, p: Pos, w: WorldDir, a: Axis, i: int, last: int, st: int)
    requires st == 1 || st == -1
    requires Remaining(i, last, st) < 0
    ensures FirstBlocked(s, t, p, w, a, i, last, st) == Clear
  {
  }

  /**
   * The world side a relative direction acts on under gravity `g`: the
   * branch that the sign of GetRelativeDirVector(d) selects in Constraint,
   * CheckPosition and Move.
   */
  function Side(g: GravityDirection, d: Direction): WorldDir {
    match g
    case GravityDown => (match d case Up => PosY case Down => NegY case Left => NegX case Right => PosX)
    case GravityUp => (match d case Up => NegY case Down => PosY case Left => PosX case Right => NegX)
    case GravityLeft => (match d case Up => PosX case Down => PosX case Left => PosY case Right => NegY)
    case GravityRight => (match d case Up => NegX case Down => NegX case Left => NegY case Right => PosY)
  }

  /** The side is the one the relative direction vector points to. */
  lemma SideIsRelativeVector(g: GravityDirection, d: Direction)
    ensures IsUnitAxis(RelativeDirVector(g, d))
    ensures ToVector(Side(g, d)) == RelativeDirVector(g, d)
    ensures Side(g, d) == WorldOf(RelativeDirVector(g, d))
  {
    RelativeDirections(g, d);
    match g
    case GravityDown => match d { case Up => case Down => case Left => case Right => }
    case GravityUp => match d { case Up => case Down => case Left => case Right => }
    case GravityLeft => match d { case Up => case Down => case Left => case Right => }
    case GravityRight => match d { case Up => case Down => case Left => case Right => }
  }

  /** The axis the jump and fall walks run along: y under vertical gravity, x otherwise. */
  function WalkAxis(g: GravityDirection): Axis {
    if IsVertical(g) then Y else X
  }

  /** Relative UP and relative DOWN both act on the walk axis. */
  lemma {:induction false} SidesLieOnWalkAxis(g: GravityDirection)
    ensures AxisOf(Side(g, Up)) == WalkAxis(g)
    ensures AxisOf(Side(g, Down)) == WalkAxis(g)
    ensures Sign(Side(g, Up)) == Comp(RelativeDirVector(g, Up), WalkAxis(g))
  {
    SideIsRelativeVector(g, Up);
    match g
    case GravityDown =>
    case GravityUp =>
    case GravityLeft =>
    case GravityRight =>
  }

  /** The set-up of a walk: the position after the displacement and Constraint, and the cells to visit. */
  datatype Walk = Walk(start: Pos, axis: Axis, from: int, last: int, step: int)

  /**
   * The FALL set-up of the player's UpdateJumpFall and of the bomb's
   * Update: the displacement is added as it is, the
   * microstep zeroed and the result clamped towards relative DOWN; the walk
   * then steps the way gravity points.
   */
  function FallSetup(s: Settings, g: GravityDirection, p: Pos, disp: int): (wk: Walk)
    ensures wk.step == 1 || wk.step == -1
    ensures wk.axis == WalkAxis(g) && wk.from == Comp(p.index, wk.axis)
    ensures Comp(wk.start.micro, wk.axis) == 0 && Comp(wk.start.index, wk.axis) == wk.last
    ensures wk.step == Comp(GravityDirVector(g), wk.axis)
  {
    SidesLieOnWalkAxis(g);
    var a := WalkAxis(g);
    var o := Comp(p.index, a);
    var q := Clamp(s, Pos(With(p.index, a, o + disp), With(p.micro, a, 0)), Side(g, Down));
    Walk(q, a, o, Comp(q.index, a), -Comp(RelativeDirVector(g, Up), a))
  }

  /**
   * Under LEFT gravity the fall is clamped on the +x side, so a fall past
   * column 0 is not pulled back to the grid.
   */
  lemma {:induction false} LeftwardFallIsNotClamped(s: Settings, p: Pos, disp: int)
    requires s.Valid()
    requires p.index.x + disp < 0
    ensures FallSetup(s, GravityLeft, p, disp).last == p.index.x + disp
  {
    var q := Pos(With(p.index, X, p.index.x + disp), With(p.micro, X, 0));
    assert Side(GravityLeft, Down) == PosX;
    assert !AtEdge(s, q, PosX);
  }

  /** The cell a walk stops at, as the first refused one. */
  function WalkResult(s: Settings, t: TileGrid, wk: Walk, w: WorldDir): WalkStop
    requires wk.step == 1 || wk.step == -1
  {
    FirstBlocked(s, t, wk.start, w, wk.axis, wk.from, wk.last, wk.step)
  }
}
