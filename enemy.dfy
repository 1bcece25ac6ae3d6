/**
 * CEnemy2D: a counter-driven state machine, a path-prefix walk over the
 * cells the pathfinder returns, a chase that moves at most one microstep
 * per axis and per frame, capture of the player, and damage from bombs.
 *
 * Unlike the player and the bomb, the enemy's Constraint and CheckPosition
 * name absolute directions (its own LEFT, RIGHT, UP and DOWN, which are the
 * world sides -x, +x, +y and -y), and its chase never consults the map.
 */
module Enemy {
  import opened Grid
  import opened Frame
  import opened Mover
  import opened Game
  import Physics
  import Player
  import Entities

  /** The enemy's FSM enum, in declaration order. */
  datatype Fsm = Idle | Attack | BombSearch | BombAttack | Run

  /** Frames spent in IDLE before the enemy starts searching for bombs. */
  const IDLE_FRAMES := 120
  /** iMaxFSMCounter: frames spent in ATTACK before returning to IDLE. */
  const MAX_FSM_COUNTER := 60
  /** The map value marking the enemy's start cell. */
  const ENEMY_START := 4
  /** Health the player loses when caught. */
  const CATCH_DAMAGE := 100

  /** ENEMY_TYPE: only the golem has a texture; ENEMY_COUNT makes Init fail. */
  datatype EnemyType = Golem | EnemyCount

  /** The FSM state and the frame counter. */
  datatype Brain = Brain(fsm: Fsm, counter: int)

  /** The cell the enemy heads for and the step that leads there. */
  datatype Aim = Aim(destination: IVec2, direction: IVec2)

  // ---------------------------------------------------------------------
  // The state machine

  /**
   * IDLE's frame: past IDLE_FRAMES frames the enemy switches to BOMB_SEARCH;
   * the counter is reset and then counted, so it reads 1 after the switch.
   */
  function IdleTick(b: Brain): (r: Brain)
    requires b.fsm == Idle
    ensures r.fsm == (if b.counter > IDLE_FRAMES then BombSearch else Idle)
    ensures r.counter == (if b.counter > IDLE_FRAMES then 1 else b.counter + 1)
  {
    if b.counter > IDLE_FRAMES then Brain(BombSearch, 1) else Brain(Idle, b.counter + 1)
  }

  /** The end of ATTACK's frame: past iMaxFSMCounter back to IDLE, then the counter is counted. */
  function AttackTail(b: Brain): Brain {
    if b.counter > MAX_FSM_COUNTER then Brain(Idle, 1) else Brain(b.fsm, b.counter + 1)
  }

  /**
   * InteractWithPlayer's effect on the FSM: a counter past IDLE_FRAMES
   * resets to IDLE, and so does catching the player.
   */
  function Interact(b: Brain, caught: bool): (r: Brain)
    ensures caught || b.counter > IDLE_FRAMES ==> r == Brain(Idle, 0)
    ensures !caught && b.counter <= IDLE_FRAMES ==> r == b
  {
    var b1 := if b.counter > IDLE_FRAMES then Brain(Idle, 0) else b;
    if caught then Brain(Idle, 0) else b1
  }

  /** The interactions of one chase, in order; each flag says whether the player was caught. */
  function Interactions(b: Brain, hits: seq<bool>): Brain
    decreases |hits|
  {
    if |hits| == 0 then b else Interactions(Interact(b, hits[0]), hits[1..])
  }

  /** How many of the interactions caught the player. */
  function Catches(hits: seq<bool>): (n: nat)
    ensures n <= |hits|
  {
    if |hits| == 0 then 0 else (if hits[0] then 1 else 0) + Catches(hits[1..])
  }

  /** A chase with one interaction: that interaction, and one catch exactly when it caught. */
  lemma SingleInteraction(b: Brain, c: bool)
    ensures Interactions(b, [c]) == Interact(b, c)
    ensures Catches([c]) == if c then 1 else 0
  {
    assert [c][1..] == [];
  }

  /**
   * One frame of the FSM, given the interactions of the frame's chase (only
   * ATTACK chases).  BOMB_SEARCH, BOMB_ATTACK and RUN do not change the
   * state or the counter.
   */
  function Next(b: Brain, hits: seq<bool>): Brain {
    match b.fsm
    case Idle => IdleTick(b)
    case Attack => AttackTail(Interactions(b, hits))
    case BombSearch => b
    case BombAttack => b
    case Run => b
  }

  /** A run of frames, one sequence of interactions per frame. */
  function Ticks(b: Brain, hs: seq<seq<bool>>): Brain
    decreases |hs|
  {
    if |hs| == 0 then b else Ticks(Next(b, hs[0]), hs[1..])
  }

  /** BOMB_SEARCH has no way out: however many frames pass, nothing changes. */
  lemma {:induction false} BombSearchHasNoExit(b: Brain, hs: seq<seq<bool>>)
    requires b.fsm == BombSearch
    ensures Ticks(b, hs) == b
    decreases |hs|
  {
    if |hs| > 0 {
      BombSearchHasNoExit(Next(b, hs[0]), hs[1..]);
    }
  }

  /** No state leads into ATTACK: an enemy that is not attacking never starts. */
  lemma {:induction false} AttackIsNeverEntered(b: Brain, hs: seq<seq<bool>>)
    requires b.fsm != Attack
    ensures Ticks(b, hs).fsm != Attack
    decreases |hs|
  {
    if |hs| > 0 {
      AttackIsNeverEntered(Next(b, hs[0]), hs[1..]);
    }
  }

  /**
   * An idle enemy whose counter has not passed IDLE_FRAMES counts up for
   * 122 - counter frames and then searches for bombs for good.
   */
  lemma {:induction false} IdleLeadsToBombSearch(b: Brain, hs: seq<seq<bool>>)
    requires b.fsm == Idle && b.counter <= IDLE_FRAMES + 1
    ensures Ticks(b, hs) == if |hs| < IDLE_FRAMES + 2 - b.counter then Brain(Idle, b.counter + |hs|)
                            else Brain(BombSearch, 1)
    decreases |hs|
  {
    if |hs| > 0 {
      var b1 := Next(b, hs[0]);
      if b.counter > IDLE_FRAMES {
        BombSearchHasNoExit(b1, hs[1..]);
      } else {
        IdleLeadsToBombSearch(b1, hs[1..]);
      }
    }
  }

  /** Before its counter passes IDLE_FRAMES, an interaction leaves the state as it is or resets it to IDLE. */
  lemma {:induction false} InteractionsResetOrKeep(b: Brain, hits: seq<bool>)
    requires b.counter <= IDLE_FRAMES
    ensures Interactions(b, hits) == b || Interactions(b, hits) == Brain(Idle, 0)
    decreases |hits|
  {
    if |hits| > 0 {
      var b1 := Interact(b, hits[0]);
      InteractionsResetOrKeep(b1, hits[1..]);
      if b1 == Brain(Idle, 0) {
        IdleInteractionsStayIdle(hits[1..]);
      }
    }
  }

  /** From IDLE with a zero counter, interactions change nothing. */
  lemma {:induction false} IdleInteractionsStayIdle(hits: seq<bool>)
    ensures Interactions(Brain(Idle, 0), hits) == Brain(Idle, 0)
    decreases |hits|
  {
    if |hits| > 0 {
      IdleInteractionsStayIdle(hits[1..]);
    }
  }

  /**
   * ATTACK lasts at most iMaxFSMCounter + 2 - counter frames: the counter
   * runs out, or a capture resets the enemy to IDLE first.
   */
  lemma {:induction false} AttackEndsInTime(b: Brain, hs: seq<seq<bool>>)
    requires b.fsm == Attack && b.counter <= MAX_FSM_COUNTER + 1
    requires |hs| >= MAX_FSM_COUNTER + 2 - b.counter
    ensures Ticks(b, hs).fsm != Attack
    decreases |hs|
  {
    var b0 := Interactions(b, hs[0]);
    InteractionsResetOrKeep(b, hs[0]);
    var b1 := Next(b, hs[0]);
    if b1.fsm == Attack {
      assert b0 == b;
      AttackEndsInTime(b1, hs[1..]);
    } else {
      AttackIsNeverEntered(b1, hs[1..]);
    }
  }

  // ---------------------------------------------------------------------
  // Positions

  /** The enemy's Constraint test: strictly past the low edge, at or past the high edge. */
  predicate PastEdge(s: Settings, p: Pos, w: WorldDir) {
    match w
    case NegX => p.index.x < 0
    case PosX => p.index.x >= s.numTilesX - 1
    case PosY => p.index.y >= s.numTilesY - 1
    case NegY => p.index.y < 0
  }

  /** Constraint(w): past the edge, that axis's index goes to the edge and its microstep to 0. */
  function EnemyClamp(s: Settings, p: Pos, w: WorldDir): Pos {
    if PastEdge(s, p, w) then
      Pos(With(p.index, AxisOf(w), EdgeIndex(s, w)), With(p.micro, AxisOf(w), 0))
    else p
  }

  /**
   * The enemy clamps like the player and the bomb except on index 0 of the
   * low side, where it keeps a non-zero microstep that theirs would zero.
   */
  lemma {:induction false} ClampDiffersOnlyAtLowEdge(s: Settings, p: Pos, w: WorldDir)
    ensures EnemyClamp(s, p, w) == Clamp(s, p, w) <==>
              !(Sign(w) < 0 && Comp(p.index, AxisOf(w)) == 0 && Comp(p.micro, AxisOf(w)) != 0)
  {
    var a := AxisOf(w);
    if Sign(w) < 0 && Comp(p.index, a) == 0 {
      assert !PastEdge(s, p, w) && AtEdge(s, p, w);
      assert Comp(Clamp(s, p, w).micro, a) == 0;
      WithSame(p.index, a);
      if Comp(p.micro, a) == 0 {
        WithSame(p.micro, a);
      }
    }
  }

  /** `(n != 0 ? 1 : 0)`: the enemy's test for overlapping the next row or column. */
  function Beyond(n: int): int {
    if n != 0 then 1 else 0
  }

  /**
   * The two cells the enemy's CheckPosition reads.  Towards +x and +y it
   * always looks one tile ahead of the index, whatever the microsteps.
   */
  function EnemyProbes(p: Pos, w: WorldDir): (IVec2, IVec2) {
    var i := p.index;
    match w
    case NegX => (i, IVec2(i.x, i.y + Beyond(p.micro.y)))
    case PosX => (IVec2(i.x + 1, i.y), IVec2(i.x + 1, i.y + Beyond(p.micro.y)))
    case PosY => (IVec2(i.x, i.y + 1), IVec2(i.x + Beyond(p.micro.x), i.y + 1))
    case NegY => (i, IVec2(i.x + Beyond(p.micro.x), i.y))
  }

  /** CheckPosition's early accept: at or past the right or top edge when moving there. */
  predicate AtFarEdge(s: Settings, p: Pos, w: WorldDir) {
    match w
    case NegX => false
    case PosX => p.index.x >= s.numTilesX - 1
    case PosY => p.index.y >= s.numTilesY - 1
    case NegY => false
  }

  /** CheckPosition(w) of the enemy: accepted at the far edge, else neither probed cell is solid. */
  predicate EnemyPassable(s: Settings, t: TileGrid, p: Pos, w: WorldDir)
  {
    AtFarEdge(s, p, w) || (t.At(EnemyProbes(p, w).0) < SOLID_TILE && t.At(EnemyProbes(p, w).1) < SOLID_TILE)
  }

  /**
   * With non-negative microsteps the enemy probes the player's cells,
   * except towards +x or +y from a tile it sits squarely in: there the
   * player looks at its own tile and the enemy at the next one.
   */
  lemma {:induction false} ProbesMatchPlayersUnlessAligned(p: Pos, w: WorldDir)
    requires p.micro.x >= 0 && p.micro.y >= 0
    ensures EnemyProbes(p, w) == Probes(p, w) <==> (Sign(w) < 0 || Comp(p.micro, AxisOf(w)) > 0)
  {
    assert Beyond(p.micro.x) == Over(p.micro.x) && Beyond(p.micro.y) == Over(p.micro.y);
    var e, q := EnemyProbes(p, w), Probes(p, w);
    if Sign(w) > 0 && Comp(p.micro, AxisOf(w)) == 0 {
      assert Comp(e.0, AxisOf(w)) != Comp(q.0, AxisOf(w));
    }
  }

  /**
   * Past the right edge the enemy's CheckPosition accepts whatever the map
   * holds, where the player's refuses.
   */
  lemma {:induction false} PastRightEdgeIsAccepted(s: Settings, t: TileGrid, p: Pos)
    requires p.index.x >= s.numTilesX
    ensures EnemyPassable(s, t, p, PosX) && !Passable(s, t, p, PosX)
  {
    assert AtFarEdge(s, p, PosX) && OffGrid(s, p, PosX);
  }

  /** UpdatePosition's microstep: guarded as the player's Move, with carry at NUM_STEPS_PER_TILE on both axes. */
  function Advance(s: Settings, p: Pos, w: WorldDir): Pos {
    var a := AxisOf(w);
    var n := Comp(p.micro, a) + Sign(w);
    if !Player.StepAllowed(s, p, w) then p
    else if Sign(w) < 0 && n < 0 then
      Pos(With(p.index, a, Comp(p.index, a) - 1), With(p.micro, a, s.StepsPerTile(a) - 1))
    else if Sign(w) > 0 && n >= s.StepsPerTile(a) then
      Pos(With(p.index, a, Comp(p.index, a) + 1), With(p.micro, a, 0))
    else Pos(p.index, With(p.micro, a, n))
  }

  /** Except upwards, the enemy's microstep is the player's. */
  lemma {:induction false} AdvanceIsPlayersStepExceptUp(s: Settings, p: Pos, w: WorldDir)
    requires w != PosY
    ensures Advance(s, p, w) == Player.StepMicro(s, p, w)
  {
    assert w == PosX ==> Player.CarriesUp(s, w, p.micro.x + 1) == (p.micro.x + 1 >= s.stepsPerTileX);
  }

  /**
   * A step that the guard lets through moves exactly one microstep along its
   * side, on every axis, and keeps the count within [0, NUM_STEPS_PER_TILE).
   */
  lemma {:induction false} AdvanceMovesOneMicrostep(s: Settings, p: Pos, w: WorldDir)
    requires s.Valid() && Player.StepAllowed(s, p, w)
    requires 0 <= Comp(p.micro, AxisOf(w)) < s.StepsPerTile(AxisOf(w))
    ensures Player.Linear(s, Advance(s, p, w), AxisOf(w)) == Player.Linear(s, p, AxisOf(w)) + Sign(w)
    ensures 0 <= Comp(Advance(s, p, w).micro, AxisOf(w)) < s.StepsPerTile(AxisOf(w))
    ensures var b := if AxisOf(w) == X then Y else X;
            Comp(Advance(s, p, w).index, b) == Comp(p.index, b) && Comp(Advance(s, p, w).micro, b) == Comp(p.micro, b)
  {
    var a := AxisOf(w);
    var S := s.StepsPerTile(a);
    var i := Comp(p.index, a);
    var n := Comp(p.micro, a) + Sign(w);
    var r := Advance(s, p, w);
    if Sign(w) < 0 && n < 0 {
      assert Player.Linear(s, r, a) == (i - 1) * S + (S - 1);
    } else if Sign(w) > 0 && n >= S {
      assert Player.Linear(s, r, a) == (i + 1) * S;
    } else {
      assert Player.Linear(s, r, a) == i * S + n;
    }
  }

  /** One half of UpdatePosition: a microstep towards `w`, then Constraint(w). */
  function HalfStep(s: Settings, p: Pos, w: WorldDir): Pos {
    EnemyClamp(s, Advance(s, p, w), w)
  }

  /** The x half of UpdatePosition: a move only when the direction has an x component. */
  function ChaseX(s: Settings, p: Pos, dx: int): Pos {
    if dx < 0 then HalfStep(s, p, NegX) else if dx > 0 then HalfStep(s, p, PosX) else p
  }

  /** The y half of UpdatePosition. */
  function ChaseY(s: Settings, p: Pos, dy: int): Pos {
    if dy < 0 then HalfStep(s, p, NegY) else if dy > 0 then HalfStep(s, p, PosY) else p
  }

  /** The position after UpdatePosition: first the x half, then the y half; the map is never read. */
  function Chased(s: Settings, p: Pos, dir: IVec2): Pos {
    ChaseY(s, ChaseX(s, p, dir.x), dir.y)
  }

  /** A position on the grid with both microstep counts within a tile. */
  predicate Placed(s: Settings, p: Pos) {
    s.InGrid(p.index) && 0 <= p.micro.x < s.stepsPerTileX && 0 <= p.micro.y < s.stepsPerTileY
  }

  /**
   * From a placed position, a half step stays placed, leaves the other axis
   * alone, and either moves exactly one microstep towards `w` or comes to
   * rest on the edge tile of that side.
   */
  lemma {:induction false} HalfStepMovesOneMicrostep(s: Settings, p: Pos, w: WorldDir)
    requires s.Valid() && Placed(s, p)
    ensures Placed(s, HalfStep(s, p, w))
    ensures var b := if AxisOf(w) == X then Y else X;
            Comp(HalfStep(s, p, w).index, b) == Comp(p.index, b) && Comp(HalfStep(s, p, w).micro, b) == Comp(p.micro, b)
    ensures var r := HalfStep(s, p, w);
            var a := AxisOf(w);
            Player.Linear(s, r, a) == Player.Linear(s, p, a) + Sign(w) ||
            (Comp(r.index, a) == EdgeIndex(s, w) && Comp(r.micro, a) == 0)
  {
    var a := AxisOf(w);
    assert Player.StepAllowed(s, p, w);
    AdvanceMovesOneMicrostep(s, p, w);
    var q := Advance(s, p, w);
    if Sign(w) < 0 {
      assert Comp(q.index, a) >= -1;
    } else {
      assert Comp(q.index, a) <= s.NumTiles(a);
    }
  }

  /**
   * UpdatePosition moves at most one microstep along x and then at most one
   * along y, each towards the sign of the direction's component, and stays
   * on the grid.
   */
  lemma {:induction false} ChaseMovesOneMicrostepPerAxis(s: Settings, p: Pos, dir: IVec2)
    requires s.Valid() && Placed(s, p)
    ensures Placed(s, Chased(s, p, dir))
    ensures var r := Chased(s, p, dir);
            dir.x == 0 ==> r.index.x == p.index.x && r.micro.x == p.micro.x
    ensures var r := Chased(s, p, dir);
            dir.y == 0 ==> r.index.y == p.index.y && r.micro.y == p.micro.y
    ensures var r := Chased(s, p, dir);
            dir.x < 0 ==> Player.Linear(s, r, X) == Player.Linear(s, p, X) - 1 || (r.index.x == 0 && r.micro.x == 0)
    ensures var r := Chased(s, p, dir);
            dir.x > 0 ==> Player.Linear(s, r, X) == Player.Linear(s, p, X) + 1 ||
                          (r.index.x == s.numTilesX - 1 && r.micro.x == 0)
    ensures var r := Chased(s, p, dir);
            dir.y < 0 ==> Player.Linear(s, r, Y) == Player.Linear(s, p, Y) - 1 || (r.index.y == 0 && r.micro.y == 0)
    ensures var r := Chased(s, p, dir);
            dir.y > 0 ==> Player.Linear(s, r, Y) == Player.Linear(s, p, Y) + 1 ||
                          (r.index.y == s.numTilesY - 1 && r.micro.y == 0)
  {
    var p1 := ChaseX(s, p, dir.x);
    if dir.x < 0 {
      HalfStepMovesOneMicrostep(s, p, NegX);
    } else if dir.x > 0 {
      HalfStepMovesOneMicrostep(s, p, PosX);
    }
    if dir.y < 0 {
      HalfStepMovesOneMicrostep(s, p1, NegY);
    } else if dir.y > 0 {
      HalfStepMovesOneMicrostep(s, p1, PosY);
    }
  }

  /**
   * The capture flags of one UpdatePosition: one per half that moves,
   * each comparing the enemy's index after that half with the player's.
   */
  function Hits(s: Settings, p: Pos, dir: IVec2, player: IVec2): seq<bool> {
    var p1 := ChaseX(s, p, dir.x);
    var p2 := ChaseY(s, p1, dir.y);
    (if dir.x != 0 then [p1.index == player] else []) + (if dir.y != 0 then [p2.index == player] else [])
  }

  /**
   * InteractWithPlayer's ±0.5 window around the player's integer index
   * admits exactly the equal index.
   */
  lemma {:induction false} CaptureWindowIsEquality(e: int, p: int)
    ensures (e as real >= p as real - 0.5 && e as real <= p as real + 0.5) <==> e == p
  {
    if e < p {
      assert e as real <= p as real - 1.0;
    } else if e > p {
      assert e as real >= p as real + 1.0;
    }
  }

  // ---------------------------------------------------------------------
  // Path-prefix walks

  /**
   * The last index of the straight run that starts at `k`: every later
   * cell of the run is one `dir` beyond the previous, and the cell after
   * the run, if any, is not.
   */
  function RunEnd(path: seq<IVec2>, dir: IVec2, k: int): (r: int)
    requires 0 <= k < |path|
    ensures k <= r < |path|
    ensures forall j :: k <= j < r ==> path[j + 1].Minus(path[j]) == dir
    ensures r + 1 < |path| ==> path[r + 1].Minus(path[r]) != dir
    decreases |path| - k
  {
    if k + 1 < |path| && path[k + 1].Minus(path[k]) == dir then RunEnd(path, dir, k + 1) else k
  }

  /** One more step of `d`: n + 1 copies are n copies plus one. */
  lemma ScaleSucc(d: IVec2, n: int)
    ensures d.Scale(n + 1) == d.Scale(n).Plus(d)
  {
    assert (n + 1) * d.x == n * d.x + d.x;
    assert (n + 1) * d.y == n * d.y + d.y;
  }

  /** The run ends `RunEnd - k` steps of `dir` beyond its first cell. */
  lemma {:induction false} RunIsStraight(path: seq<IVec2>, dir: IVec2, k: int)
    requires 0 <= k < |path|
    ensures path[RunEnd(path, dir, k)] == path[k].Plus(dir.Scale(RunEnd(path, dir, k) - k))
    decreases |path| - k
  {
    if k + 1 < |path| && path[k + 1].Minus(path[k]) == dir {
      RunIsStraight(path, dir, k + 1);
      var n := RunEnd(path, dir, k) - (k + 1);
      assert path[k + 1] == path[k].Plus(dir);
      ScaleSucc(dir, n);
    }
  }

  /**
   * ATTACK's walk: aimed at the first path cell with the step from the
   * index to it, then carried along while the path continues in that
   * step.  An empty path keeps the old aim.
   */
  function AimAlong(path: seq<IVec2>, index: IVec2, a: Aim): (r: Aim)
    ensures |path| > 0 ==> r.direction == path[0].Minus(index) &&
                           r.destination == path[0].Plus(r.direction.Scale(RunEnd(path, r.direction, 0)))
  {
    if |path| == 0 then a
    else
      var dir := path[0].Minus(index);
      RunIsStraight(path, dir, 0);
      Aim(path[RunEnd(path, dir, 0)], dir)
  }

  /** The cell BOMB_SEARCH's walk accepts: one stale step beyond the stale destination. */
  function Mirror(dest: IVec2, first: IVec2): IVec2 {
    dest.Plus(dest.Minus(first))
  }

  /**
   * Where BOMB_SEARCH's walk leaves the index: its comparisons use the
   * destination that this walk never updates, so the index moves past the
   * first path cell only to the mirror of that cell in the destination.
   */
  function SearchEnd(path: seq<IVec2>, dest: IVec2): IVec2
    requires |path| > 0
  {
    if |path| >= 2 && path[1] == Mirror(dest, path[0]) then Mirror(dest, path[0]) else path[0]
  }

  /**
   * The walk gets past the first path cell only when the path's step is
   * twice the step from that cell to the stale destination; any other path
   * leaves the enemy on its first cell, however straight it runs.
   */
  lemma {:induction false} SearchStopsAtFirstCell(path: seq<IVec2>, dest: IVec2)
    requires |path| >= 2
    requires path[1].Minus(path[0]) != dest.Minus(path[0]).Scale(2)
    ensures SearchEnd(path, dest) == path[0]
  {
  }

  // ---------------------------------------------------------------------
  // The enemy

  /**
   * What CollidedWith does to EnemyHealth, the enemy's dead flag and the
   * level flag: a "Bomb" takes BOMB_DAMAGE, and at or below 0 EnemyHealth
   * the enemy dies and the level is completed; any other name changes
   * nothing.
   */
  predicate CollisionEffect(otherName: string, health0: int, dead0: bool, done0: bool,
                            health: int, dead: bool, done: bool)
  {
    if otherName == "Bomb" then
      health == health0 - BOMB_DAMAGE && dead == (dead0 || health <= 0) && done == (done0 || health <= 0)
    else
      health == health0 && dead == dead0 && done == done0
  }

  /**
   * The entity table's CollidedWith with the enemy as receiver is
   * Enemy2D.CollidedWith: the counters and the enemy's dead flag change by
   * CollisionEffect, and the other entity is killed exactly when it is a
   * bomb (killsOther).
   */
  lemma {:induction false} TableCollisionIsCollidedWith(t: Entities.Table, receiver: nat, argument: nat)
    requires receiver < |t.slots| && argument < |t.slots| && receiver != argument
    requires t.slots[receiver].Holds? && t.slots[argument].Holds? && t.slots[receiver].e.name == "Enemy"
    ensures var u := Entities.CollidedWith(t, receiver, argument);
            var other := t.slots[argument].e;
            && u.slots[receiver].Holds? && u.slots[argument].Holds?
            && CollisionEffect(other.name, t.enemyHealth, t.slots[receiver].e.dead, t.levelCompleted,
                               u.enemyHealth, u.slots[receiver].e.dead, u.levelCompleted)
            && u.slots[argument].e.dead == (other.dead || other.name == "Bomb")
  {
  }

  class Enemy2D {
    const settings: Settings
    const tiles: TileIds
    const tileMap: Map2D
    /** The shared gravity of CPhysics2D, read by the row and mid-air queries. */
    const gravity: Physics.Gravity
    const inventory: Inventory
    const game: GameManager

    var index: IVec2
    var micro: IVec2
    var oldIndex: IVec2
    var destination: IVec2
    var direction: IVec2
    var fsm: Fsm
    var counter: int
    /** bIsActive: set by a successful Init. */
    var active: bool
    var dead: bool

    constructor (settings: Settings, tiles: TileIds, tileMap: Map2D, gravity: Physics.Gravity, inventory: Inventory, game: GameManager)
      ensures this.settings == settings && this.tiles == tiles && this.tileMap == tileMap
      ensures this.gravity == gravity && this.inventory == inventory && this.game == game
      ensures index == micro == oldIndex == destination == direction == Zero
      ensures fsm == Idle && counter == 0 && !active && !dead
    {
      this.settings := settings;
      this.tiles := tiles;
      this.tileMap := tileMap;
      this.gravity := gravity;
      this.inventory := inventory;
      this.game := game;
      index, micro, oldIndex, destination, direction := Zero, Zero, Zero, Zero, Zero;
      fsm, counter := Idle, 0;
      active, dead := false, false;
    }

    function Position(): Pos
      reads this
    {
      Pos(index, micro)
    }

    function Mind(): Brain
      reads this
    {
      Brain(fsm, counter)
    }

    function Aiming(): Aim
      reads this
    {
      Aim(destination, direction)
    }

    /** IsOnBottomRow: the player's test. */
    predicate IsOnBottomRow()
      reads this, gravity
    {
      Player.OnBottomRow(settings, gravity.direction, index)
    }

    /** IsOnTopRow: the player's test. */
    predicate IsOnTopRow()
      reads this, gravity
    {
      Player.OnTopRow(settings, gravity.direction, index)
    }

    /** IsMidAir: the player's test. */
    predicate IsMidAir()
      reads this, gravity, tileMap.cells
    {
      Player.MidAir(settings, tileMap, tiles, gravity.direction, Position())
    }

    /**
     * Init: fails when no cell holds 4.  Otherwise that cell is cleared and
     * the enemy placed on it at rest before the type is looked at; only a
     * golem then becomes active.
     */
    method Init(kind: EnemyType) returns (ok: bool)
      modifies this, tileMap.cells
      ensures ok <==> old(tileMap.Holds(ENEMY_START)) && kind == Golem
      ensures !old(tileMap.Holds(ENEMY_START)) ==>
                Position() == old(Position()) &&
                forall r, c :: tileMap.InArray(r, c) ==> tileMap.cells[r, c] == old(tileMap.cells[r, c])
      ensures old(tileMap.Holds(ENEMY_START)) ==>
                tileMap.InArray(index.y, index.x) &&
                (forall r, c :: tileMap.InArray(r, c) && r == index.y && c == index.x ==> old(tileMap.cells[r, c]) == ENEMY_START) &&
                micro == Zero &&
                forall r, c :: tileMap.InArray(r, c) ==>
                  tileMap.cells[r, c] == (if r == index.y && c == index.x then 0 else old(tileMap.cells[r, c]))
      ensures active == (old(active) || ok)
      ensures Mind() == old(Mind()) && Aiming() == old(Aiming()) && oldIndex == old(oldIndex) && dead == old(dead)
    {
      var found, row, col := tileMap.FindValue(ENEMY_START);
      if !found {
        return false;
      }
      tileMap.Set(row, col, 0);
      index := IVec2(col, row);
      micro := Zero;
      if kind != Golem {
        return false;
      }
      active := true;
      ok := true;
    }

    /** Constraint(w); nothing else changes. */
    method Constraint(w: WorldDir)
      modifies this`index, this`micro
      ensures Position() == EnemyClamp(settings, old(Position()), w)
    {
      if PastEdge(settings, Position(), w) {
        index := With(index, AxisOf(w), EdgeIndex(settings, w));
        micro := With(micro, AxisOf(w), 0);
      }
    }

    /**
     * CheckPosition(w): the enemy's verdict for side `w`; at the far edge
     * the moving axis's microstep becomes 0.  The index and the map never
     * change.
     */
    method CheckPosition(w: WorldDir) returns (ok: bool)
      modifies this`micro
      ensures ok == EnemyPassable(settings, tileMap.Snapshot(), old(Position()), w)
      ensures AtFarEdge(settings, old(Position()), w) ==> micro == With(old(micro), AxisOf(w), 0)
      ensures !AtFarEdge(settings, old(Position()), w) ==> micro == old(micro)
    {
      if AtFarEdge(settings, Position(), w) {
        micro := With(micro, AxisOf(w), 0);
        return true;
      }
      var cells := EnemyProbes(Position(), w);
      ok := tileMap.At(cells.0) < SOLID_TILE && tileMap.At(cells.1) < SOLID_TILE;
      tileMap.AgreesAt(tileMap.Snapshot(), cells.0);
      tileMap.AgreesAt(tileMap.Snapshot(), cells.1);
    }

    /** UpdatePosition's microstep towards `w`. */
    method Step(w: WorldDir)
      modifies this`index, this`micro
      ensures Position() == Advance(settings, old(Position()), w)
    {
      var a := AxisOf(w);
      if Player.StepAllowed(settings, Position(), w) {
        var n := Comp(micro, a) + Sign(w);
        micro := With(micro, a, n);
        if Sign(w) < 0 && n < 0 {
          micro := With(micro, a, settings.StepsPerTile(a) - 1);
          index := With(index, a, Comp(index, a) - 1);
        } else if Sign(w) > 0 && n >= settings.StepsPerTile(a) {
          micro := With(micro, a, 0);
          index := With(index, a, Comp(index, a) + 1);
        }
      }
    }

    /**
     * InteractWithPlayer: the player at the enemy's index is caught, losing
     * CATCH_DAMAGE health and resetting the enemy to IDLE.
     */
    method InteractWithPlayer(player: IVec2) returns (caught: bool)
      modifies this`fsm, this`counter, inventory`health
      ensures caught == (index == player)
      ensures Mind() == Interact(old(Mind()), caught)
      ensures inventory.health == old(inventory.health) - (if caught then CATCH_DAMAGE else 0)
    {
      if counter > IDLE_FRAMES {
        fsm, counter := Idle, 0;
      }
      caught := index == player;
      if caught {
        inventory.health := inventory.health - CATCH_DAMAGE;
        fsm, counter := Idle, 0;
      }
    }

    /** One half of UpdatePosition: step, Constraint, then InteractWithPlayer. */
    method Chase(w: WorldDir, player: IVec2) returns (caught: bool)
      modifies this`index, this`micro, this`fsm, this`counter, inventory`health
      ensures Position() == HalfStep(settings, old(Position()), w)
      ensures caught == (index == player)
      ensures Mind() == Interact(old(Mind()), caught)
      ensures inventory.health == old(inventory.health) - (if caught then CATCH_DAMAGE else 0)
    {
      Step(w);
      Constraint(w);
      caught := InteractWithPlayer(player);
    }

    /**
     * UpdatePosition: at most one microstep along x and then one along y,
     * towards the direction's signs, with no passability check; each half
     * that moves tries to catch the player.
     */
    method UpdatePosition(player: IVec2)
      modifies this`index, this`micro, this`oldIndex, this`fsm, this`counter, inventory`health
      ensures oldIndex == old(index)
      ensures Position() == Chased(settings, old(Position()), direction)
      ensures Mind() == Interactions(old(Mind()), Hits(settings, old(Position()), direction, player))
      ensures inventory.health == old(inventory.health) - CATCH_DAMAGE * Catches(Hits(settings, old(Position()), direction, player))
    {
      oldIndex := index;
      ghost var p0, b0, h0 := Position(), Mind(), inventory.health;
      ghost var xs: seq<bool> := [];
      if direction.x != 0 {
        var c := Chase(if direction.x < 0 then NegX else PosX, player);
        xs := [c];
        SingleInteraction(b0, c);
      }
      ghost var p1, b1, h1 := Position(), Mind(), inventory.health;
      assert p1 == ChaseX(settings, p0, direction.x);
      assert b1 == Interactions(b0, xs) && h1 == h0 - CATCH_DAMAGE * Catches(xs);
      ghost var ys: seq<bool> := [];
      if direction.y != 0 {
        var c := Chase(if direction.y < 0 then NegY else PosY, player);
        ys := [c];
        SingleInteraction(b1, c);
      }
      assert Position() == ChaseY(settings, p1, direction.y);
      assert Mind() == Interactions(b1, ys) && inventory.health == h1 - CATCH_DAMAGE * Catches(ys);
      assert xs + ys == Hits(settings, p0, direction, player);
      InteractionsConcat(b0, xs, ys);
      CatchesConcat(xs, ys);
    }

    /**
     * ATTACK's walk over the pathfinder's cells: the destination becomes
     * the far end of the path's first straight run.
     */
    method FollowPath(path: seq<IVec2>)
      modifies this`destination, this`direction
      ensures Aiming() == AimAlong(path, index, old(Aiming()))
    {
      if |path| == 0 {
        return;
      }
      destination := path[0];
      direction := path[0].Minus(index);
      var k := 1;
      while k < |path|
        invariant 1 <= k <= |path|
        invariant destination == path[k - 1]
        invariant RunEnd(path, direction, k - 1) == RunEnd(path, direction, 0)
        invariant direction == path[0].Minus(index)
      {
        if path[k].Minus(destination) != direction {
          break;
        }
        destination := path[k];
        k := k + 1;
      }
    }

    /**
     * BOMB_SEARCH's walk as written: the first path cell is stored in the
     * index, the step is measured from the destination, and later cells are
     * compared against that unchanged destination.
     */
    method SearchPath(path: seq<IVec2>)
      modifies this`index, this`direction
      ensures |path| == 0 ==> index == old(index) && direction == old(direction)
      ensures |path| > 0 ==> index == SearchEnd(path, destination) && direction == destination.Minus(path[0])
    {
      if |path| == 0 {
        return;
      }
      index := path[0];
      direction := destination.Minus(index);
      var k := 1;
      while k < |path|
        invariant 1 <= k <= |path|
        invariant direction == destination.Minus(path[0])
        invariant forall j :: 1 <= j < k ==> path[j] == Mirror(destination, path[0])
        invariant index == if k > 1 then Mirror(destination, path[0]) else path[0]
      {
        if path[k].Minus(destination) != direction {
          break;
        }
        index := path[k];
        k := k + 1;
      }
    }

    /** A bomb's damage: EnemyHealth drops by 50, and at or below 0 the enemy dies and the level is won. */
    method TakeBombDamage()
      modifies this`dead, inventory`enemyHealth, game`levelCompleted
      ensures inventory.enemyHealth == old(inventory.enemyHealth) - BOMB_DAMAGE
      ensures dead == (old(dead) || inventory.enemyHealth <= 0)
      ensures game.levelCompleted == (old(game.levelCompleted) || inventory.enemyHealth <= 0)
    {
      inventory.enemyHealth := inventory.enemyHealth - BOMB_DAMAGE;
      if inventory.enemyHealth <= 0 {
        dead := true;
        game.levelCompleted := true;
      }
    }

    /**
     * CollidedWith: an entity named "Bomb" deals its damage and is itself
     * marked dead (`killsOther`); any other entity has no effect.
     */
    method CollidedWith(otherName: string) returns (killsOther: bool)
      modifies this`dead, inventory`enemyHealth, game`levelCompleted
      ensures killsOther == (otherName == "Bomb")
      ensures CollisionEffect(otherName, old(inventory.enemyHealth), old(dead), old(game.levelCompleted),
                              inventory.enemyHealth, dead, game.levelCompleted)
    {
      killsOther := otherName == "Bomb";
      if killsOther {
        TakeBombDamage();
      }
    }

    /**
     * ATTACK's frame: in range of the player, walk the path and chase;
     * then the counter rule of ATTACK.
     */
    method AttackTick(path: seq<IVec2>, inRange: bool, player: IVec2)
      requires fsm == Attack
      modifies this`index, this`micro, this`oldIndex, this`fsm, this`counter, this`destination, this`direction, inventory`health
      ensures var a := if inRange then AimAlong(path, old(index), old(Aiming())) else old(Aiming());
              var hits := if inRange then Hits(settings, old(Position()), a.direction, player) else [];
              && Aiming() == a
              && Position() == (if inRange then Chased(settings, old(Position()), a.direction) else old(Position()))
              && oldIndex == (if inRange then old(index) else old(oldIndex))
              && Mind() == Next(old(Mind()), hits)
              && inventory.health == old(inventory.health) - CATCH_DAMAGE * Catches(hits)
    {
      if inRange {
        FollowPath(path);
        UpdatePosition(player);
      }
      assert Interactions(old(Mind()), []) == old(Mind());
      if counter > MAX_FSM_COUNTER {
        fsm, counter := Idle, 0;
      }
      counter := counter + 1;
    }

    /**
     * Update: nothing while inactive.  Otherwise one frame of the FSM:
     * IDLE counts towards BOMB_SEARCH; BOMB_SEARCH walks the path to a bomb
     * when one is on the map; ATTACK walks the path to the player and
     * chases when in range; the other states do nothing.  Then the G key
     * deals a bomb's damage.  `path` is the pathfinder's answer, `inRange`
     * whether the player is nearer than 25 tiles.
     */
    method Update(path: seq<IVec2>, inRange: bool, keyG: bool, player: IVec2)
      modifies this`index, this`micro, this`oldIndex, this`fsm, this`counter, this`destination, this`direction
      modifies this`dead, inventory`health, inventory`enemyHealth, game`levelCompleted
      ensures !old(active) ==>
                Position() == old(Position()) && Mind() == old(Mind()) && Aiming() == old(Aiming()) &&
                oldIndex == old(oldIndex) && dead == old(dead) && inventory.health == old(inventory.health) &&
                inventory.enemyHealth == old(inventory.enemyHealth) && game.levelCompleted == old(game.levelCompleted)
      ensures old(active) && old(fsm) == Attack ==>
                var a := if inRange then AimAlong(path, old(index), old(Aiming())) else old(Aiming());
                var hits := if inRange then Hits(settings, old(Position()), a.direction, player) else [];
                && Aiming() == a
                && Position() == (if inRange then Chased(settings, old(Position()), a.direction) else old(Position()))
                && oldIndex == (if inRange then old(index) else old(oldIndex))
                && Mind() == Next(old(Mind()), hits)
                && inventory.health == old(inventory.health) - CATCH_DAMAGE * Catches(hits)
      ensures old(active) && old(fsm) == BombSearch ==>
                var searched := old(tileMap.Holds(tiles.bombSmall)) && |path| > 0;
                && Mind() == old(Mind()) && micro == old(micro) && destination == old(destination)
                && oldIndex == old(oldIndex) && inventory.health == old(inventory.health)
                && index == (if searched then SearchEnd(path, old(destination)) else old(index))
                && direction == (if searched then old(destination).Minus(path[0]) else old(direction))
      ensures old(active) && old(fsm) != Attack && old(fsm) != BombSearch ==>
                Mind() == Next(old(Mind()), []) && Position() == old(Position()) && Aiming() == old(Aiming()) &&
                oldIndex == old(oldIndex) && inventory.health == old(inventory.health)
      ensures old(active) && keyG ==>
                inventory.enemyHealth == old(inventory.enemyHealth) - BOMB_DAMAGE &&
                dead == (old(dead) || inventory.enemyHealth <= 0) &&
                game.levelCompleted == (old(game.levelCompleted) || inventory.enemyHealth <= 0)
      ensures old(active) && !keyG ==>
                inventory.enemyHealth == old(inventory.enemyHealth) && dead == old(dead) &&
                game.levelCompleted == old(game.levelCompleted)
    {
      if !active {
        return;
      }
      match fsm {
        case Idle =>
          if counter > IDLE_FRAMES {
            fsm, counter := BombSearch, 0;
          }
          counter := counter + 1;
        case BombSearch =>
          var found, _, _ := tileMap.FindValue(tiles.bombSmall);
          if found {
            SearchPath(path);
          }
        case Attack =>
          AttackTick(path, inRange, player);
        case BombAttack =>
        case Run =>
      }
      if keyG {
        TakeBombDamage();
      }
    }
  }

  /** Interactions over two pieces are the interactions of the second after those of the first. */
  lemma {:induction false} InteractionsConcat(b: Brain, xs: seq<bool>, ys: seq<bool>)
    ensures Interactions(b, xs + ys) == Interactions(Interactions(b, xs), ys)
    decreases |xs|
  {
    if |xs| > 0 {
      assert (xs + ys)[0] == xs[0] && (xs + ys)[1..] == xs[1..] + ys;
      InteractionsConcat(Interact(b, xs[0]), xs[1..], ys);
    } else {
      assert xs + ys == ys;
    }
  }

  /** Catches over two pieces add up. */
  lemma {:induction false} CatchesConcat(xs: seq<bool>, ys: seq<bool>)
    ensures Catches(xs + ys) == Catches(xs) + Catches(ys)
    decreases |xs|
  {
    if |xs| > 0 {
      assert (xs + ys)[0] == xs[0] && (xs + ys)[1..] == xs[1..] + ys;
      CatchesConcat(xs[1..], ys);
    } else {
      assert xs + ys == ys;
    }
  }
}
