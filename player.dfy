/**
 * CPlayer2D: one-microstep moves with carry, edge clamping, the two-cell
 * passability check, the bottom-row and mid-air queries, the jump and fall
 * walks of UpdateJumpFall, the jump-input rule, the random gravity rotation,
 * tile pickups and the health/lives rule.
 *
 * Every Constraint, CheckPosition and Move call names a gravity-relative
 * direction; the world side it acts on is the sign of that direction's
 * vector under the current gravity.
 */
module Player {
  import opened Grid
  import opened Frame
  import opened Physics
  import opened Mover
  import opened Game
  import Bomb
  import Entities

  /** PlayerIsOnBottomRow: the index is at or past the grid edge gravity pulls towards. */
  predicate OnBottomRow(s: Settings, g: GravityDirection, idx: IVec2) {
    match g
    case GravityDown => idx.y <= 0
    case GravityUp => idx.y >= s.numTilesY - 1
    case GravityLeft => idx.x <= 0
    case GravityRight => idx.x >= s.numTilesX - 1
  }

  /** PlayerIsOnTopRow: the index is exactly on the grid edge opposite to gravity. */
  predicate OnTopRow(s: Settings, g: GravityDirection, idx: IVec2) {
    match g
    case GravityDown => idx.y == s.numTilesY - 1
    case GravityUp => idx.y == 0
    case GravityLeft => idx.x == s.numTilesX - 1
    case GravityRight => idx.x == 0
  }

  /**
   * On the grid, the bottom row is where one more step along gravity leaves
   * the grid, and the top row is where one step against gravity does.
   */
  lemma {:induction false} RowsAreGridEdges(s: Settings, g: GravityDirection, idx: IVec2)
    requires s.InGrid(idx)
    ensures OnBottomRow(s, g, idx) <==> !s.InGrid(idx.Plus(GravityDirVector(g)))
    ensures OnTopRow(s, g, idx) <==> !s.InGrid(idx.Minus(GravityDirVector(g)))
  {
    match g
    case GravityDown =>
    case GravityUp =>
    case GravityLeft =>
    case GravityRight =>
  }

  /**
   * IsMidAir: never on the bottom row; otherwise some microstep is 0 and
   * the tile one relative-DOWN step away is no more than INTERACTABLES_END.
   */
  predicate MidAir(s: Settings, m: Map2D, tiles: TileIds, g: GravityDirection, p: Pos)
    reads m.cells
  {
    !OnBottomRow(s, g, p.index) && (p.micro.x == 0 || p.micro.y == 0) &&
    m.At(p.index.Plus(RelativeDirVector(g, Down))) <= tiles.interactablesEnd
  }

  /**
   * The bomb's bottom row is the player's for an index on the grid, and
   * only a part of it off the grid.
   */
  lemma {:induction false} BombBottomRowIsPlayersOnGrid(s: Settings, g: GravityDirection, idx: IVec2)
    ensures Bomb.OnBottomRow(s, g, idx) ==> OnBottomRow(s, g, idx)
    ensures s.InGrid(idx) ==> (Bomb.OnBottomRow(s, g, idx) <==> OnBottomRow(s, g, idx))
  {
    match g
    case GravityDown =>
    case GravityUp =>
    case GravityLeft =>
    case GravityRight =>
  }

  /**
   * With INTERACTABLES_END not negative, a bomb in mid-air at a position on
   * the grid is one the player's test calls mid-air too; the converse fails
   * on any tile in 1..INTERACTABLES_END below.
   */
  lemma {:induction false} BombMidAirIsStricter(s: Settings, m: Map2D, tiles: TileIds, g: GravityDirection, p: Pos)
    requires tiles.interactablesEnd >= 0 && s.InGrid(p.index)
    ensures Bomb.MidAir(s, m, g, p) ==> MidAir(s, m, tiles, g, p)
    ensures var below := m.At(p.index.Plus(RelativeDirVector(g, Down)));
            0 < below <= tiles.interactablesEnd ==> !Bomb.MidAir(s, m, g, p)
  {
    BombBottomRowIsPlayersOnGrid(s, g, p.index);
  }

  /**
   * Under LEFT or RIGHT gravity the mid-air test reads the tile on the
   * relative-UP side of the player, not the one gravity pulls towards.
   */
  lemma {:induction false} SidewaysMidAirLooksUp(s: Settings, m: Map2D, tiles: TileIds, g: GravityDirection, p: Pos)
    requires !IsVertical(g)
    ensures MidAir(s, m, tiles, g, p) <==>
              !OnBottomRow(s, g, p.index) && (p.micro.x == 0 || p.micro.y == 0) &&
              m.At(p.index.Minus(GravityDirVector(g))) <= tiles.interactablesEnd
  {
    DownStepUnderSidewaysGravity(g, p.index);
  }

  /** Move's guard before the microstep: the index is not already past the moving side. */
  predicate StepAllowed(s: Settings, p: Pos, w: WorldDir) {
    match w
    case NegX => p.index.x >= 0
    case PosX => p.index.x < s.numTilesX
    case PosY => p.index.y < s.numTilesY
    case NegY => p.index.y >= 0
  }

  /**
   * The carry test after a step towards the positive end: at
   * NUM_STEPS_PER_TILE on x, but only above it on y.
   */
  predicate CarriesUp(s: Settings, w: WorldDir, n: int) {
    if w == PosY then n > s.stepsPerTileY else n >= s.stepsPerTileX
  }

  /** One microstep in Move, with carry into or borrow from the index. */
  function StepMicro(s: Settings, p: Pos, w: WorldDir): (r: Pos)
    ensures var b := if AxisOf(w) == X then Y else X;
            Comp(r.index, b) == Comp(p.index, b) && Comp(r.micro, b) == Comp(p.micro, b)
    ensures !StepAllowed(s, p, w) ==> r == p
  {
    var a := AxisOf(w);
    var n := Comp(p.micro, a) + Sign(w);
    if !StepAllowed(s, p, w) then p
    else if Sign(w) < 0 && n < 0 then
      Pos(With(p.index, a, Comp(p.index, a) - 1), With(p.micro, a, s.StepsPerTile(a) - 1))
    else if Sign(w) > 0 && CarriesUp(s, w, n) then
      Pos(With(p.index, a, Comp(p.index, a) + 1), With(p.micro, a, 0))
    else Pos(p.index, With(p.micro, a, n))
  }

  /** The position along one axis counted in microsteps. */
  function Linear(s: Settings, p: Pos, a: Axis): int {
    Comp(p.index, a) * s.StepsPerTile(a) + Comp(p.micro, a)
  }

  /**
   * Except upwards on y, a step moves exactly one microstep along its side
   * and keeps the microstep count within [0, NUM_STEPS_PER_TILE).
   */
  lemma {:induction false} StepMovesOneMicrostep(s: Settings, p: Pos, w: WorldDir)
    requires s.Valid() && w != PosY && StepAllowed(s, p, w)
    requires 0 <= Comp(p.micro, AxisOf(w)) < s.StepsPerTile(AxisOf(w))
    ensures Linear(s, StepMicro(s, p, w), AxisOf(w)) == Linear(s, p, AxisOf(w)) + Sign(w)
    ensures 0 <= Comp(StepMicro(s, p, w).micro, AxisOf(w)) < s.StepsPerTile(AxisOf(w))
  {
    var a := AxisOf(w);
    var S := s.StepsPerTile(a);
    var i := Comp(p.index, a);
    var n := Comp(p.micro, a) + Sign(w);
    var r := StepMicro(s, p, w);
    if Sign(w) < 0 && n < 0 {
      assert Linear(s, r, a) == (i - 1) * S + (S - 1);
    } else if Sign(w) > 0 && CarriesUp(s, w, n) {
      assert Linear(s, r, a) == (i + 1) * S;
    } else {
      assert Linear(s, r, a) == i * S + n;
    }
  }

  /**
   * Upwards on y the carry happens only above NUM_STEPS_PER_TILE_YAXIS: the
   * count can reach NUM_STEPS_PER_TILE_YAXIS, and the step after that moves
   * to the next tile without advancing the position.
   */
  lemma {:induction false} UpStepReachesTileSize(s: Settings, p: Pos)
    requires s.Valid() && StepAllowed(s, p, PosY)
    requires p.micro.y == s.stepsPerTileY - 1
    ensures StepMicro(s, p, PosY) == Pos(p.index, IVec2(p.micro.x, s.stepsPerTileY))
  {
  }

  lemma {:induction false} UpStepFromTileSizeStalls(s: Settings, p: Pos)
    requires s.Valid() && StepAllowed(s, p, PosY)
    requires p.micro.y == s.stepsPerTileY
    ensures StepMicro(s, p, PosY).index == IVec2(p.index.x, p.index.y + 1)
    ensures Linear(s, StepMicro(s, p, PosY), Y) == Linear(s, p, Y)
  {
    var r := StepMicro(s, p, PosY);
    assert r == Pos(IVec2(p.index.x, p.index.y + 1), IVec2(p.micro.x, 0));
    assert Linear(s, r, Y) == (p.index.y + 1) * s.stepsPerTileY;
  }

  /**
   * Move's position update: step, clamp, and on a refused CheckPosition go
   * back to the old index with the moving axis's microstep set to 0.
   */
  function MovePos(s: Settings, t: TileGrid, p: Pos, w: WorldDir): (r: Pos)
    ensures var b := if AxisOf(w) == X then Y else X;
            Comp(r.micro, b) == Comp(p.micro, b)
    ensures Passable(s, t, Clamp(s, StepMicro(s, p, w), w), w) ==> r == Clamp(s, StepMicro(s, p, w), w)
    ensures !Passable(s, t, Clamp(s, StepMicro(s, p, w), w), w) ==>
              r.index == p.index && Comp(r.micro, AxisOf(w)) == 0
  {
    var q := Clamp(s, StepMicro(s, p, w), w);
    if Passable(s, t, q, w) then q else Pos(p.index, With(q.micro, AxisOf(w), 0))
  }

  /**
   * A refused move does not restore the position it started from: a
   * microstep count on the moving axis is lost.
   */
  lemma {:induction false} RefusedMoveLosesMicrosteps(s: Settings, t: TileGrid, p: Pos, w: WorldDir)
    requires !Passable(s, t, Clamp(s, StepMicro(s, p, w), w), w)
    requires Comp(p.micro, AxisOf(w)) != 0
    ensures MovePos(s, t, p, w) != p
  {
    assert Comp(MovePos(s, t, p, w).micro, AxisOf(w)) == 0;
  }

  /** A move that is accepted ends on a position CheckPosition accepts. */
  lemma {:induction false} AcceptedMoveIsPassable(s: Settings, t: TileGrid, p: Pos, w: WorldDir)
    requires MovePos(s, t, p, w).index != p.index
    ensures Passable(s, t, MovePos(s, t, p, w), w)
  {
  }

  /** Where a jump walk leaves the index: one step back from the refused cell, with no exception at the start. */
  function JumpEnd(r: WalkStop, last: int, st: int): int {
    match r
    case Clear => last
    case BlockedAt(c) => c - st
  }

  /** Where a fall walk leaves the index: one step back from the refused cell, unless that cell is the start. */
  function FallEnd(r: WalkStop, from: int, last: int, st: int): int {
    match r
    case Clear => last
    case BlockedAt(c) => if c == from then from else c - st
  }

  /**
   * A fall that runs from a passable start cell ends on a passable cell that
   * lies between the start and the proposed cell, and every cell it passed
   * on the way is passable.
   */
  lemma {:induction false} FallEndsPassable(s: Settings, t: TileGrid, p: Pos, w: WorldDir, a: Axis, from: int, last: int, st: int)
    requires st == 1 || st == -1
    requires Remaining(from, last, st) >= 0
    requires Passable(s, t, Moved(p, a, from), w)
    ensures var e := FallEnd(FirstBlocked(s, t, p, w, a, from, last, st), from, last, st);
            Passable(s, t, Moved(p, a, e), w) && Remaining(from, e, st) >= 0 && Remaining(e, last, st) >= 0
  {
    var r := FirstBlocked(s, t, p, w, a, from, last, st);
    LastPassable(s, t, p, w, a, from, last, st);
    assert FallEnd(r, from, last, st) == StopCell(r, last, st) - st;
  }

  /**
   * A jump refused at its very first cell ends one cell behind where it
   * started, on the gravity side.
   */
  lemma {:induction false} JumpRefusedAtStartStepsBack(s: Settings, t: TileGrid, p: Pos, w: WorldDir, a: Axis, from: int, last: int, st: int)
    requires st == 1 || st == -1
    requires Remaining(from, last, st) >= 0
    requires !Passable(s, t, Moved(p, a, from), w)
    ensures JumpEnd(FirstBlocked(s, t, p, w, a, from, last, st), last, st) == from - st
  {
  }

  /** A jump refused after its first cell ends on the last cell it passed, which is passable. */
  lemma {:induction false} JumpRefusedLaterEndsPassable(s: Settings, t: TileGrid, p: Pos, w: WorldDir, a: Axis, from: int, last: int, st: int)
    requires st == 1 || st == -1
    requires Remaining(from, last, st) >= 0
    requires Passable(s, t, Moved(p, a, from), w)
    ensures var e := JumpEnd(FirstBlocked(s, t, p, w, a, from, last, st), last, st);
            Passable(s, t, Moved(p, a, e), w) && Remaining(from, e, st) >= 0
  {
    var r := FirstBlocked(s, t, p, w, a, from, last, st);
    LastPassable(s, t, p, w, a, from, last, st);
    assert JumpEnd(r, last, st) == StopCell(r, last, st) - st;
  }

  /**
   * UpdateJumpFall's JUMP set-up: the displacement is multiplied by relative
   * UP's walk-axis component, added, the microstep zeroed and the result
   * clamped towards relative UP; the walk then steps towards relative UP.
   */
  function JumpSetup(s: Settings, g: GravityDirection, p: Pos, disp: int): (wk: Walk)
    ensures wk.step == 1 || wk.step == -1
    ensures wk.axis == WalkAxis(g) && wk.from == Comp(p.index, wk.axis)
    ensures Comp(wk.start.micro, wk.axis) == 0 && Comp(wk.start.index, wk.axis) == wk.last
    ensures wk.step == Sign(Side(g, Up))
    ensures !AtEdge(s, Pos(With(p.index, wk.axis, wk.from + disp * wk.step), p.micro), Side(g, Up)) ==>
              wk.last == wk.from + disp * wk.step
  {
    SidesLieOnWalkAxis(g);
    var a := WalkAxis(g);
    var up := RelativeDirVector(g, Up);
    var o := Comp(p.index, a);
    var q := Clamp(s, Pos(With(p.index, a, o + disp * Comp(up, a)), With(p.micro, a, 0)), Side(g, Up));
    Walk(q, a, o, Comp(q.index, a), Comp(up, a))
  }

  /** Where the JUMP branch of UpdateJumpFall leaves the player, and whether its walk was refused. */
  function JumpStop(s: Settings, t: TileGrid, g: GravityDirection, p: Pos, disp: int): WalkStop
  {
    WalkResult(s, t, JumpSetup(s, g, p, disp), Side(g, Up))
  }

  function JumpPos(s: Settings, t: TileGrid, g: GravityDirection, p: Pos, disp: int): Pos
  {
    var wk := JumpSetup(s, g, p, disp);
    Moved(wk.start, wk.axis, JumpEnd(JumpStop(s, t, g, p, disp), wk.last, wk.step))
  }

  /** Where the FALL branch of UpdateJumpFall leaves the player, and whether its walk was refused. */
  function FallStop(s: Settings, t: TileGrid, g: GravityDirection, p: Pos, disp: int): WalkStop
  {
    WalkResult(s, t, FallSetup(s, g, p, disp), Side(g, Down))
  }

  function FallPos(s: Settings, t: TileGrid, g: GravityDirection, p: Pos, disp: int): Pos
  {
    var wk := FallSetup(s, g, p, disp);
    Moved(wk.start, wk.axis, FallEnd(FallStop(s, t, g, p, disp), wk.from, wk.last, wk.step))
  }

  /**
   * The motion state after a JUMP update: time advanced, one integration
   * step, FALL on a refused cell, and FALL at the peak of a jump still going.
   */
  function JumpMotion(m: Motion, g: GravityDirection, gv: Vec2, dt: real, blocked: bool): (r: Motion)
    requires m.status == Jump
    ensures r.status == Jump || r.status == Fall
    ensures r.status == Jump <==> !blocked && !PeakReached(g, Integrate(m.(time := m.time + dt), gv).initialVelocity)
    ensures r.acceleration == m.acceleration
  {
    var m1 := Integrate(m.(time := m.time + dt), gv);
    var m2 := if blocked then WithStatus(m1, Fall) else m1;
    if m2.status == Jump && PeakReached(g, m2.initialVelocity) then WithStatus(m2, Fall) else m2
  }

  /**
   * The motion state after a FALL update: time advanced, one integration
   * step, and IDLE on a refused cell or on the bottom row.
   */
  function FallMotion(m: Motion, gv: Vec2, dt: real, blocked: bool, bottom: bool): (r: Motion)
    requires m.status == Fall
    ensures r.status == Idle <==> blocked || bottom
    ensures r.status != Idle ==> r == Integrate(m.(time := m.time + dt), gv)
    ensures r.acceleration == m.acceleration
  {
    var m1 := Integrate(m.(time := m.time + dt), gv);
    var m2 := if blocked then WithStatus(m1, Idle) else m1;
    if bottom then WithStatus(m2, Idle) else m2
  }

  /** The tile value that marks the player's start cell. */
  const PLAYER_START := 3

  /** What a press of the jump key does. */
  datatype JumpChoice = NoJump | FirstJump | ExtraJump

  /**
   * The jump-input rule: from IDLE a first jump; while jumping, or while
   * falling with fewer than two jumps, an extra jump if double jumps are
   * held.
   */
  function JumpDecision(pressed: bool, status: Status, jumps: int, doubleJumps: int): (c: JumpChoice)
    ensures c == FirstJump <==> pressed && status == Idle
    ensures c == ExtraJump <==> pressed && doubleJumps > 0 && (status == Jump || (status == Fall && jumps < 2))
  {
    if !pressed then NoJump
    else if status == Idle then FirstJump
    else if status == Jump || (status == Fall && jumps < 2) then
      (if doubleJumps > 0 then ExtraJump else NoJump)
    else NoJump
  }

  /**
   * `&&` binds tighter than `||` in the jump condition, so while still
   * rising the jump count sets no limit on extra jumps.
   */
  lemma RisingJumpsAreUnlimited(jumps: int, doubleJumps: int)
    requires doubleJumps > 0
    ensures JumpDecision(true, Jump, jumps, doubleJumps) == ExtraJump
    ensures jumps >= 2 ==> JumpDecision(true, Fall, jumps, doubleJumps) == NoJump
  {
  }

  /** The ordinals 0..3 with the current gravity's removed, in order. */
  function OtherOrdinals(g: GravityDirection): (r: seq<int>)
    ensures |r| == 3
    ensures forall k :: 0 <= k < 3 ==> 0 <= r[k] < 4 && r[k] != Ordinal(g)
  {
    var all := [0, 1, 2, 3];
    all[..Ordinal(g)] + all[Ordinal(g) + 1..]
  }

  /** The gravity rotation: the `pick`-th of the three other directions. */
  function RotatedGravity(g: GravityDirection, pick: int): (r: GravityDirection)
    requires 0 <= pick < 3
    ensures r != g
  {
    FromOrdinal(OtherOrdinals(g)[pick])
  }

  /** Every other direction is the rotation's result for some pick. */
  lemma {:induction false} RotationReachesEveryOther(g: GravityDirection, h: GravityDirection)
    requires h != g
    ensures exists pick :: 0 <= pick < 3 && RotatedGravity(g, pick) == h
  {
    var k := if Ordinal(h) < Ordinal(g) then Ordinal(h) else Ordinal(h) - 1;
    var others := OtherOrdinals(g);
    assert others[k] == Ordinal(h);
    assert FromOrdinal(Ordinal(h)) == h;
    assert RotatedGravity(g, k) == h;
  }

  class Player2D {
    const settings: Settings
    const tiles: TileIds
    const tileMap: Map2D
    /** The player's own integrator; its gravity is the shared one. */
    const physics: Physics2D
    const inventory: Inventory
    const game: GameManager

    var index: IVec2
    var micro: IVec2
    var oldIndex: IVec2
    var oldMicro: IVec2
    /** Jumps made since the last landing (dJumpCount). */
    var dJumpCount: int
    /** Reset by Reset and otherwise unused (jumpCount). */
    var jumpCount: int

    constructor (settings: Settings, tiles: TileIds, tileMap: Map2D, physics: Physics2D, inventory: Inventory, game: GameManager)
      ensures this.settings == settings && this.tiles == tiles && this.tileMap == tileMap
      ensures this.physics == physics && this.inventory == inventory && this.game == game
      ensures index == micro == oldIndex == oldMicro == Zero
      ensures dJumpCount == 0 && jumpCount == 0
    {
      this.settings := settings;
      this.tiles := tiles;
      this.tileMap := tileMap;
      this.physics := physics;
      this.inventory := inventory;
      this.game := game;
      index, micro, oldIndex, oldMicro := Zero, Zero, Zero, Zero;
      dJumpCount, jumpCount := 0, 0;
    }

    function Position(): Pos
      reads this
    {
      Pos(index, micro)
    }

    function GravityNow(): GravityDirection
      reads physics.gravity
    {
      physics.gravity.direction
    }

    /** The world side relative direction `d` acts on now. */
    function Dir(d: Direction): WorldDir
      reads physics.gravity
    {
      Side(GravityNow(), d)
    }

    predicate IsOnBottomRow()
      reads this, physics.gravity
    {
      OnBottomRow(settings, GravityNow(), index)
    }

    predicate IsOnTopRow()
      reads this, physics.gravity
    {
      OnTopRow(settings, GravityNow(), index)
    }

    predicate IsMidAir()
      reads this, physics.gravity, tileMap.cells
    {
      MidAir(settings, tileMap, tiles, GravityNow(), Position())
    }

    /** Constraint(d): clamps towards the side `d` acts on; nothing else changes. */
    method Constraint(d: Direction)
      modifies this
      ensures Position() == Clamp(settings, old(Position()), Dir(d))
      ensures oldIndex == old(oldIndex) && oldMicro == old(oldMicro)
      ensures dJumpCount == old(dJumpCount) && jumpCount == old(jumpCount)
    {
      ClampTowards(Dir(d));
    }

    /** Constraint's body, for the world side `w`. */
    method ClampTowards(w: WorldDir)
      modifies this
      ensures Position() == Clamp(settings, old(Position()), w)
      ensures oldIndex == old(oldIndex) && oldMicro == old(oldMicro)
      ensures dJumpCount == old(dJumpCount) && jumpCount == old(jumpCount)
    {
      var a := AxisOf(w);
      if AtEdge(settings, Position(), w) {
        index := With(index, a, EdgeIndex(settings, w));
        micro := With(micro, a, 0);
      }
    }

    /**
     * CheckPosition(d): the verdict of the two-cell probe on the side `d`
     * acts on.  The index and the map never change; off the grid the moving
     * axis's microstep becomes 0.
     */
    method CheckPosition(d: Direction) returns (ok: bool)
      modifies this
      ensures ok == Passable(settings, tileMap.Snapshot(), old(Position()), Dir(d))
      ensures index == old(index) && micro == CheckedMicro(settings, old(Position()), Dir(d))
      ensures oldIndex == old(oldIndex) && oldMicro == old(oldMicro)
      ensures dJumpCount == old(dJumpCount) && jumpCount == old(jumpCount)
    {
      ok := Probe(Dir(d), tileMap.Snapshot());
    }

    /** CheckPosition's body, for the world side `w`. */
    method Probe(w: WorldDir, ghost t: TileGrid) returns (ok: bool)
      requires tileMap.Agrees(t)
      modifies this`micro
      ensures ok == Passable(settings, t, old(Position()), w)
      ensures micro == CheckedMicro(settings, old(Position()), w)
    {
      if OffGrid(settings, Position(), w) {
        micro := With(micro, AxisOf(w), 0);
        return false;
      }
      var cells := Probes(Position(), w);
      tileMap.AgreesAt(t, cells.0);
      tileMap.AgreesAt(t, cells.1);
      if tileMap.At(cells.0) >= SOLID_TILE || tileMap.At(cells.1) >= SOLID_TILE {
        return false;
      }
      return true;
    }

    /** Move's microstep towards side `w`, with carry into or borrow from the index. */
    method Step(w: WorldDir)
      modifies this
      ensures Position() == StepMicro(settings, old(Position()), w)
      ensures oldIndex == old(oldIndex) && oldMicro == old(oldMicro)
      ensures dJumpCount == old(dJumpCount) && jumpCount == old(jumpCount)
    {
      var a := AxisOf(w);
      if StepAllowed(settings, Position(), w) {
        var n := Comp(micro, a) + Sign(w);
        micro := With(micro, a, n);
        if Sign(w) < 0 && n < 0 {
          micro := With(micro, a, settings.StepsPerTile(a) - 1);
          index := With(index, a, Comp(index, a) - 1);
        } else if Sign(w) > 0 && CarriesUp(settings, w, n) {
          micro := With(micro, a, 0);
          index := With(index, a, Comp(index, a) + 1);
        }
      }
    }

    /**
     * Move(d): one microstep towards the side `d` acts on, clamped and
     * checked; a refused step restores the old index only.  Walking off a
     * ledge starts a fall unless the player is jumping.
     */
    method Move(d: Direction)
      modifies this, physics
      ensures oldIndex == old(index) && oldMicro == old(micro)
      ensures Position() == MovePos(settings, tileMap.Snapshot(), old(Position()), Dir(d))
      ensures IsMidAir() && old(physics.state.status) != Jump ==> physics.state == WithStatus(old(physics.state), Fall)
      ensures !IsMidAir() || old(physics.state.status) == Jump ==> physics.state == old(physics.state)
      ensures dJumpCount == old(dJumpCount) && jumpCount == old(jumpCount)
    {
      MoveTowards(Dir(d));
      FallIfMidAir();
    }

    /** The end of every Move branch: in mid-air and not jumping means falling. */
    method FallIfMidAir()
      modifies physics
      ensures IsMidAir() && old(physics.state.status) != Jump ==> physics.state == WithStatus(old(physics.state), Fall)
      ensures !IsMidAir() || old(physics.state.status) == Jump ==> physics.state == old(physics.state)
    {
      if IsMidAir() && physics.state.status != Jump {
        physics.SetStatus(Fall);
      }
    }

    /** Move's position update towards the world side `w`. */
    method MoveTowards(w: WorldDir)
      modifies this
      ensures oldIndex == old(index) && oldMicro == old(micro)
      ensures Position() == MovePos(settings, tileMap.Snapshot(), old(Position()), w)
      ensures dJumpCount == old(dJumpCount) && jumpCount == old(jumpCount)
    {
      oldIndex := index;
      oldMicro := micro;
      var a := AxisOf(w);
      ghost var p0 := Position();
      Step(w);
      ClampTowards(w);
      ghost var q := Position();
      assert q == Clamp(settings, StepMicro(settings, p0, w), w);
      var ok := Probe(w, tileMap.Snapshot());
      if !ok {
        index := oldIndex;
        micro := With(micro, a, 0);
        assert micro == With(q.micro, a, 0);
      }
    }

    /**
     * One cell of a walk along axis `a`: the index moves from cell `k` to
     * cell `i`, then CheckPosition runs towards `w`.
     */
    method Enter(ghost t: TileGrid, ghost start: Pos, a: Axis, ghost k: int, i: int, w: WorldDir) returns (ok: bool)
      requires tileMap.Agrees(t)
      requires AxisOf(w) == a && Comp(start.micro, a) == 0 && Position() == Moved(start, a, k)
      modifies this`index, this`micro
      ensures ok == Passable(settings, t, Moved(start, a, i), w)
      ensures Position() == Moved(start, a, i)
    {
      index := With(index, a, i);
      assert Position() == Moved(start, a, i);
      WithSame(micro, a);
      ok := Probe(w, t);
    }

    /**
     * The loop shared by both walks: from `wk.from` towards `wk.last`, set
     * the index and CheckPosition(w), until the first refusal.  The index is
     * left on the refused cell, or on `wk.last` when every cell passed.
     */
    method Scan(wk: Walk, w: WorldDir, ghost t: TileGrid) returns (stop: WalkStop)
      requires wk.step == 1 || wk.step == -1
      requires tileMap.Agrees(t)
      requires AxisOf(w) == wk.axis && Position() == wk.start
      requires Comp(wk.start.micro, wk.axis) == 0 && Comp(wk.start.index, wk.axis) == wk.last
      modifies this`index, this`micro
      ensures stop == WalkResult(settings, t, wk, w)
      ensures Position() == Moved(wk.start, wk.axis, if stop.BlockedAt? then stop.cell else wk.last)
    {
      var a, st := wk.axis, wk.step;
      var i := wk.from;
      ghost var result := WalkResult(settings, t, wk, w);
      ghost var k := wk.last;
      WithSame(wk.start.index, a);
      WithSame(wk.start.micro, a);
      while Remaining(i, wk.last, st) >= 0
        invariant Remaining(wk.from, i, st) >= 0
        invariant k == if i == wk.from then wk.last else i - st
        invariant i == wk.from || Remaining(i, wk.last, st) >= -1
        invariant result == FirstBlocked(settings, t, wk.start, w, a, i, wk.last, st)
        invariant Position() == Moved(wk.start, a, k)
        decreases Remaining(i, wk.last, st) + 1
      {
        var ok := Enter(t, wk.start, a, k, i, w);
        k := i;
        FirstBlockedStep(settings, t, wk.start, w, a, i, wk.last, st);
        if !ok {
          break;
        }
        i := i + st;
      }
      stop := if Remaining(i, wk.last, st) < 0 then Clear else BlockedAt(i);
    }

    /**
     * The jump walk: CheckPosition(UP) cell by cell; on the first refusal
     * the index goes back one step.
     */
    method JumpWalk(wk: Walk) returns (stop: WalkStop)
      requires wk.step == 1 || wk.step == -1
      requires AxisOf(Dir(Up)) == wk.axis && Position() == wk.start
      requires Comp(wk.start.micro, wk.axis) == 0 && Comp(wk.start.index, wk.axis) == wk.last
      modifies this`index, this`micro
      ensures stop == WalkResult(settings, tileMap.Snapshot(), wk, Dir(Up))
      ensures Position() == Moved(wk.start, wk.axis, JumpEnd(stop, wk.last, wk.step))
      ensures oldIndex == old(oldIndex) && oldMicro == old(oldMicro)
      ensures dJumpCount == old(dJumpCount) && jumpCount == old(jumpCount)
    {
      stop := Scan(wk, Dir(Up), tileMap.Snapshot());
      if stop.BlockedAt? {
        index := With(index, wk.axis, stop.cell - wk.step);
      }
    }

    /**
     * The fall walk: CheckPosition(DOWN) cell by cell; on the first refusal
     * the index goes back one step unless it is the start cell.
     */
    method FallWalk(wk: Walk) returns (stop: WalkStop)
      requires wk.step == 1 || wk.step == -1
      requires AxisOf(Dir(Down)) == wk.axis && Position() == wk.start
      requires Comp(wk.start.micro, wk.axis) == 0 && Comp(wk.start.index, wk.axis) == wk.last
      modifies this`index, this`micro
      ensures stop == WalkResult(settings, tileMap.Snapshot(), wk, Dir(Down))
      ensures Position() == Moved(wk.start, wk.axis, FallEnd(stop, wk.from, wk.last, wk.step))
      ensures oldIndex == old(oldIndex) && oldMicro == old(oldMicro)
      ensures dJumpCount == old(dJumpCount) && jumpCount == old(jumpCount)
    {
      stop := Scan(wk, Dir(Down), tileMap.Snapshot());
      if stop.BlockedAt? && stop.cell != wk.from {
        index := With(index, wk.axis, stop.cell - wk.step);
      }
    }

    /**
     * UpdateJumpFall(dt) with `disp` the whole-tile displacement the source
     * derives from the integrator's displacement: a JUMP walks towards
     * relative UP, a FALL towards gravity, IDLE does nothing.
     */
    method UpdateJumpFall(dt: real, disp: int)
      modifies this, physics
      ensures old(physics.state.status) == Jump ==>
                Position() == JumpPos(settings, tileMap.Snapshot(), GravityNow(), old(Position()), disp) &&
                physics.state == JumpMotion(old(physics.state), GravityNow(), physics.GravityVector(), dt,
                                            JumpStop(settings, tileMap.Snapshot(), GravityNow(), old(Position()), disp).BlockedAt?) &&
                dJumpCount == old(dJumpCount)
      ensures old(physics.state.status) == Fall ==>
                Position() == FallPos(settings, tileMap.Snapshot(), GravityNow(), old(Position()), disp) &&
                physics.state == FallMotion(old(physics.state), physics.GravityVector(), dt,
                                            FallStop(settings, tileMap.Snapshot(), GravityNow(), old(Position()), disp).BlockedAt?,
                                            OnBottomRow(settings, GravityNow(), index)) &&
                dJumpCount == (if FallStop(settings, tileMap.Snapshot(), GravityNow(), old(Position()), disp).BlockedAt? then 0 else old(dJumpCount))
      ensures old(physics.state.status) == Idle ==>
                Position() == old(Position()) && physics.state == old(physics.state) && dJumpCount == old(dJumpCount)
      ensures oldIndex == old(oldIndex) && oldMicro == old(oldMicro) && jumpCount == old(jumpCount)
    {
      if physics.state.status == Jump {
        JumpUpdate(dt, disp);
      } else if physics.state.status == Fall {
        FallUpdate(dt, disp);
      }
    }

    /**
     * The set-up of both walks: the index on axis `a` becomes `target`, that
     * axis's microstep 0, and the result is clamped towards the side `d` acts on.
     */
    method Displace(a: Axis, target: int, d: Direction)
      modifies this
      ensures Position() == Clamp(settings, Pos(With(old(index), a, target), With(old(micro), a, 0)), Dir(d))
      ensures oldIndex == old(oldIndex) && oldMicro == old(oldMicro)
      ensures dJumpCount == old(dJumpCount) && jumpCount == old(jumpCount)
    {
      index := With(index, a, target);
      micro := With(micro, a, 0);
      Constraint(d);
    }

    /** The JUMP branch of UpdateJumpFall. */
    method JumpUpdate(dt: real, disp: int)
      requires physics.state.status == Jump
      modifies this, physics
      ensures Position() == JumpPos(settings, tileMap.Snapshot(), GravityNow(), old(Position()), disp)
      ensures physics.state == JumpMotion(old(physics.state), GravityNow(), physics.GravityVector(), dt,
                                          JumpStop(settings, tileMap.Snapshot(), GravityNow(), old(Position()), disp).BlockedAt?)
      ensures dJumpCount == old(dJumpCount)
      ensures oldIndex == old(oldIndex) && oldMicro == old(oldMicro) && jumpCount == old(jumpCount)
    {
      physics.AddElapsedTime(dt);
      physics.Update();
      var g := GravityNow();
      ghost var p0 := Position();
      SidesLieOnWalkAxis(g);
      var a := if g == GravityUp || g == GravityDown then Y else X;
      var o := Comp(index, a);
      var up := physics.RelativeDir(Up);
      Displace(a, o + disp * Comp(up, a), Up);
      var last := Comp(index, a);
      var st := if g == GravityUp || g == GravityRight then -1 else 1;
      var wk := Walk(Position(), a, o, last, st);
      assert wk == JumpSetup(settings, g, p0, disp);
      var stop := JumpWalk(wk);
      if stop.BlockedAt? {
        physics.SetStatus(Fall);
      }
      if physics.state.status == Jump && physics.ReachedPeakOfJump() {
        physics.SetStatus(Fall);
      }
    }

    /** The FALL branch of UpdateJumpFall. */
    method FallUpdate(dt: real, disp: int)
      requires physics.state.status == Fall
      modifies this, physics
      ensures Position() == FallPos(settings, tileMap.Snapshot(), GravityNow(), old(Position()), disp)
      ensures physics.state == FallMotion(old(physics.state), physics.GravityVector(), dt,
                                          FallStop(settings, tileMap.Snapshot(), GravityNow(), old(Position()), disp).BlockedAt?,
                                          OnBottomRow(settings, GravityNow(), index))
      ensures dJumpCount == (if FallStop(settings, tileMap.Snapshot(), GravityNow(), old(Position()), disp).BlockedAt? then 0 else old(dJumpCount))
      ensures oldIndex == old(oldIndex) && oldMicro == old(oldMicro) && jumpCount == old(jumpCount)
    {
      physics.AddElapsedTime(dt);
      physics.Update();
      var g := GravityNow();
      ghost var p0 := Position();
      SidesLieOnWalkAxis(g);
      var a := if g == GravityUp || g == GravityDown then Y else X;
      var o := Comp(index, a);
      Displace(a, o + disp, Down);
      var last := Comp(index, a);
      var st := if g == GravityUp || g == GravityRight then 1 else -1;
      var wk := Walk(Position(), a, o, last, st);
      assert wk == FallSetup(settings, g, p0, disp);
      var stop := FallWalk(wk);
      Land(stop.BlockedAt?);
    }

    /** The end of a fall update: a refused walk or the bottom row makes the player IDLE. */
    method Land(blocked: bool)
      modifies this, physics
      ensures Position() == old(Position())
      ensures var m := if blocked then WithStatus(old(physics.state), Idle) else old(physics.state);
              physics.state == if OnBottomRow(settings, GravityNow(), index) then WithStatus(m, Idle) else m
      ensures dJumpCount == if blocked then 0 else old(dJumpCount)
      ensures oldIndex == old(oldIndex) && oldMicro == old(oldMicro) && jumpCount == old(jumpCount)
    {
      if blocked {
        physics.SetStatus(Idle);
        dJumpCount := 0;
      }
      if IsOnBottomRow() {
        physics.SetStatus(Idle);
      }
    }

    /**
     * The jump key: `pressed` is the key being down with the jump cooldown
     * expired.  A first jump or an extra jump (JumpDecision) sets JUMP and an
     * initial velocity of 0.33 along relative UP; the first sets the jump
     * count to 1, an extra one adds 1.
     */
    method JumpInput(pressed: bool)
      modifies this, physics
      ensures var c := JumpDecision(pressed, old(physics.state.status), old(dJumpCount), inventory.doubleJump);
              var launched := WithStatus(old(physics.state), Jump).(initialVelocity := ToReal(RelativeDirVector(GravityNow(), Up)).Scale(0.33));
              && (c == NoJump ==> physics.state == old(physics.state) && dJumpCount == old(dJumpCount))
              && (c == FirstJump ==> physics.state == launched && dJumpCount == 1)
              && (c == ExtraJump ==> physics.state == launched && dJumpCount == old(dJumpCount) + 1)
      ensures Position() == old(Position()) && oldIndex == old(oldIndex) && oldMicro == old(oldMicro)
      ensures jumpCount == old(jumpCount)
    {
      if pressed {
        if physics.state.status == Idle {
          physics.SetStatus(Jump);
          dJumpCount := 1;
          physics.SetInitialVelocity(ToReal(physics.RelativeDir(Up)).Scale(0.33));
        } else if physics.state.status == Jump || (physics.state.status == Fall && dJumpCount < 2) {
          if inventory.doubleJump > 0 {
            dJumpCount := dJumpCount + 1;
            physics.SetStatus(Jump);
            physics.SetInitialVelocity(ToReal(physics.RelativeDir(Up)).Scale(0.33));
          }
        }
      }
    }

    /**
     * The bomb key: `pressed` is the key being down with the throw cooldown
     * expired.  With a bomb in the inventory, one bomb is used up and the
     * player's initial velocity becomes (0, 0.1); then a new bomb, on an
     * integrator of its own over the shared gravity, is initialised at the
     * player's index under the current gravity (which sets the shared
     * gravity magnitude to 7.5) and handed to the entity manager, which
     * stores it in its lowest empty slot if it has one.
     */
    method ThrowBomb(pressed: bool, manager: Entities.EntityManager2D) returns (bomb: Bomb.Bomb2D?)
      modifies physics, inventory`bomb, physics.gravity, manager`entities
      ensures bomb != null <==> pressed && old(inventory.bomb) > 0
      ensures inventory.bomb == old(inventory.bomb) - (if bomb != null then 1 else 0)
      ensures physics.state == if bomb != null then old(physics.state).(initialVelocity := Vec2(0.0, 0.1)) else old(physics.state)
      ensures GravityNow() == old(GravityNow())
      ensures physics.gravity.magnitude == if bomb != null then 7.5 else old(physics.gravity.magnitude)
      ensures bomb == null ==> manager.entities == old(manager.entities)
      ensures bomb != null ==>
                && fresh(bomb) && fresh(bomb.physics) && bomb.physics.gravity == physics.gravity
                && bomb.tileMap == tileMap && bomb.settings == settings && bomb.tiles == tiles
                && bomb.AsEntity() == Entities.Entity("Bomb", index, Zero, false)
                && bomb.physics.state.status == Fall && bomb.physics.state.initialVelocity == ZeroV
                && (var k := Entities.FirstFree(old(manager.entities));
                    manager.entities == if k < |old(manager.entities)| then old(manager.entities)[k := Entities.Holds(bomb.AsEntity())]
                                        else old(manager.entities))
      ensures var lost := bomb != null && Entities.FirstFree(old(manager.entities)) == |old(manager.entities)|;
              inventory.bomb + Entities.Named(manager.entities, "Bomb") ==
                old(inventory.bomb + Entities.Named(manager.entities, "Bomb")) - (if lost then 1 else 0)
    {
      bomb := null;
      if pressed && inventory.bomb > 0 {
        physics.SetInitialVelocity(Vec2(0.0, 0.1));
        inventory.bomb := inventory.bomb - 1;
        var own := new Physics2D(physics.gravity);
        bomb := new Bomb.Bomb2D(settings, tiles, tileMap, own);
        var _ := bomb.Init(GravityNow(), index.x, index.y);
        ghost var before := manager.entities;
        manager.AddEntity(bomb.AsEntity());
        if Entities.FirstFree(before) < |before| {
          Entities.StoreCounts(before, Entities.FirstFree(before), bomb.AsEntity(), "Bomb");
        }
      }
    }

    /**
     * The gravity rotation when its timer runs out: the current direction's
     * ordinal is erased from [0, 1, 2, 3] and entry `pick` of the rest becomes
     * the shared gravity; then FALL with 0.1 along the new relative UP.
     */
    method RotateGravity(pick: int)
      requires 0 <= pick < 3
      modifies physics.gravity, physics
      ensures GravityNow() == RotatedGravity(old(GravityNow()), pick)
      ensures GravityNow() != old(GravityNow())
      ensures physics.gravity.magnitude == old(physics.gravity.magnitude)
      ensures physics.state == WithStatus(old(physics.state), Fall).(initialVelocity := ToReal(RelativeDirVector(GravityNow(), Up)).Scale(0.1))
    {
      var nums := [0, 1, 2, 3];
      var k := Ordinal(physics.gravity.direction);
      nums := nums[..k] + nums[k + 1..];
      physics.SetGravityDirection(FromOrdinal(nums[pick]));
      physics.SetStatus(Fall);
      physics.SetInitialVelocity(ToReal(physics.RelativeDir(Up)).Scale(0.1));
    }

    /**
     * InteractWithMap: the tile under the player decides.  A small bomb or a
     * double-jump power-up is taken off the map and adds 1 bomb or 100 double
     * jumps; acid removes 1 health and, once health is at or below 0, sets
     * the level-completed flag; the exit tile (99) sets it too; anything else
     * does nothing.
     */
    method InteractWithMap()
      requires tiles.Valid()
      modifies tileMap.cells, inventory, game
      ensures var t := old(tileMap.At(index));
              && (t == tiles.bombSmall || t == tiles.powerupDoubleJump ==>
                    forall r, c :: tileMap.InArray(r, c) ==>
                      tileMap.cells[r, c] == (if r == index.y && c == index.x then 0 else old(tileMap.cells[r, c])))
              && (t != tiles.bombSmall && t != tiles.powerupDoubleJump ==>
                    forall r, c :: tileMap.InArray(r, c) ==> tileMap.cells[r, c] == old(tileMap.cells[r, c]))
              && inventory.bomb == old(inventory.bomb) + (if t == tiles.bombSmall then 1 else 0)
              && inventory.doubleJump == old(inventory.doubleJump) + (if t == tiles.powerupDoubleJump then 100 else 0)
              && inventory.health == old(inventory.health) - (if tiles.IsAcid(t) then 1 else 0)
              && game.levelCompleted == (old(game.levelCompleted) || t == LEVEL_EXIT || (tiles.IsAcid(t) && inventory.health <= 0))
      ensures inventory.healthMax == old(inventory.healthMax) && inventory.lives == old(inventory.lives)
      ensures inventory.enemyHealth == old(inventory.enemyHealth) && game.playerLost == old(game.playerLost)
    {
      var t := tileMap.At(index);
      tiles.LabelsDistinct();
      if t == tiles.bombSmall {
        tileMap.Set(index.y, index.x, 0);
        inventory.bomb := inventory.bomb + 1;
      } else if t == tiles.powerupDoubleJump {
        tileMap.Set(index.y, index.x, 0);
        inventory.doubleJump := inventory.doubleJump + 100;
      } else if tiles.IsAcid(t) {
        inventory.health := inventory.health - 1;
        if inventory.health <= 0 {
          game.levelCompleted := true;
        }
      } else if t == LEVEL_EXIT {
        game.levelCompleted := true;
      }
    }

    /**
     * UpdateHealthLives: health at or below 0 is refilled to its maximum at
     * the cost of one life, and fewer than 0 lives loses the game.
     */
    method UpdateHealthLives()
      modifies inventory, game
      ensures old(inventory.health) <= 0 ==>
                inventory.health == old(inventory.healthMax) && inventory.lives == old(inventory.lives) - 1 &&
                game.playerLost == (old(game.playerLost) || inventory.lives < 0)
      ensures old(inventory.health) > 0 ==>
                inventory.health == old(inventory.health) && inventory.lives == old(inventory.lives) &&
                game.playerLost == old(game.playerLost)
      ensures inventory.healthMax == old(inventory.healthMax) && inventory.bomb == old(inventory.bomb)
      ensures inventory.doubleJump == old(inventory.doubleJump) && inventory.enemyHealth == old(inventory.enemyHealth)
      ensures game.levelCompleted == old(game.levelCompleted)
    {
      if inventory.health <= 0 {
        inventory.health := inventory.healthMax;
        inventory.lives := inventory.lives - 1;
        if inventory.lives < 0 {
          game.playerLost := true;
        }
      }
    }

    /**
     * The start-tile search of Reset and Init: fails when no cell holds 3;
     * otherwise that cell is cleared and the player stands on it at rest.
     */
    method PlaceAtStart() returns (ok: bool)
      modifies this, tileMap.cells
      ensures ok <==> old(tileMap.Holds(PLAYER_START))
      ensures !ok ==> Position() == old(Position()) &&
                      forall r, c :: tileMap.InArray(r, c) ==> tileMap.cells[r, c] == old(tileMap.cells[r, c])
      ensures ok ==> tileMap.InArray(index.y, index.x) &&
                     (forall r, c :: tileMap.InArray(r, c) && r == index.y && c == index.x ==> old(tileMap.cells[r, c]) == PLAYER_START) &&
                     micro == Zero &&
                     forall r, c :: tileMap.InArray(r, c) ==>
                       tileMap.cells[r, c] == (if r == index.y && c == index.x then 0 else old(tileMap.cells[r, c]))
      ensures oldIndex == old(oldIndex) && oldMicro == old(oldMicro)
      ensures dJumpCount == old(dJumpCount) && jumpCount == old(jumpCount)
    {
      var found, row, col := tileMap.FindValue(PLAYER_START);
      if !found {
        return false;
      }
      tileMap.Set(row, col, 0);
      index := IVec2(col, row);
      micro := Zero;
      ok := true;
    }

    /** Reset: back to the start tile, falling, with the jump count cleared. */
    method Reset() returns (ok: bool)
      modifies this, tileMap.cells, physics
      ensures ok <==> old(tileMap.Holds(PLAYER_START))
      ensures !ok ==> Position() == old(Position()) && physics.state == old(physics.state) &&
                      jumpCount == old(jumpCount) &&
                      forall r, c :: tileMap.InArray(r, c) ==> tileMap.cells[r, c] == old(tileMap.cells[r, c])
      ensures ok ==> tileMap.InArray(index.y, index.x) &&
                     (forall r, c :: tileMap.InArray(r, c) && r == index.y && c == index.x ==> old(tileMap.cells[r, c]) == PLAYER_START) &&
                     micro == Zero && tileMap.cells[index.y, index.x] == 0 &&
                     physics.state == WithStatus(old(physics.state), Fall) && jumpCount == 0
      ensures dJumpCount == old(dJumpCount)
    {
      ok := PlaceAtStart();
      if !ok {
        return;
      }
      physics.SetStatus(Fall);
      jumpCount := 0;
    }

    /**
     * Init: the start-tile search; then the integrator is re-initialised
     * and set falling, and the inventory gets 3 lives and 1000 of 1000
     * health.
     */
    method Init() returns (ok: bool)
      modifies this, tileMap.cells, physics, inventory
      ensures ok <==> old(tileMap.Holds(PLAYER_START))
      ensures !ok ==> Position() == old(Position()) && physics.state == old(physics.state) &&
                      forall r, c :: tileMap.InArray(r, c) ==> tileMap.cells[r, c] == old(tileMap.cells[r, c])
      ensures ok ==> tileMap.InArray(index.y, index.x) &&
                     (forall r, c :: tileMap.InArray(r, c) && r == index.y && c == index.x ==> old(tileMap.cells[r, c]) == PLAYER_START) &&
                     micro == Zero && tileMap.cells[index.y, index.x] == 0 &&
                     physics.state == WithStatus(Physics.Reset(old(physics.state)), Fall) &&
                     inventory.lives == 3 && inventory.health == 1000 && inventory.healthMax == 1000
    {
      ok := PlaceAtStart();
      if !ok {
        return;
      }
      var _ := physics.Init();
      physics.SetStatus(Fall);
      inventory.lives := 3;
      inventory.health := 1000;
      inventory.healthMax := 1000;
    }
  }
}
