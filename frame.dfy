/**
 * The gravity frame of CPhysics2D: the absolute gravity directions, the
 * directions relative to gravity, and the world vectors both map to.
 */
module Frame {
  import opened Grid

  /** CPhysics2D::GRAVITY_DIRECTION, in declaration order DOWN, UP, RIGHT, LEFT. */
  datatype GravityDirection = GravityDown | GravityUp | GravityRight | GravityLeft

  /** The enum's integer value; gravity rotation indexes by it. */
  function Ordinal(g: GravityDirection): (n: int)
    ensures 0 <= n < 4
  {
    match g
    case GravityDown => 0
    case GravityUp => 1
    case GravityRight => 2
    case GravityLeft => 3
  }

  /** The enum value with ordinal `n`. */
  function FromOrdinal(n: int): (g: GravityDirection)
    requires 0 <= n < 4
    ensures Ordinal(g) == n
  {
    if n == 0 then GravityDown else if n == 1 then GravityUp else if n == 2 then GravityRight else GravityLeft
  }

  /** CPhysics2D::DIRECTION: a direction relative to gravity. */
  datatype Direction = Up | Down | Left | Right

  /** Gravity points along the y axis. */
  predicate IsVertical(g: GravityDirection) {
    g == GravityDown || g == GravityUp
  }

  /** One of (1,0), (-1,0), (0,1), (0,-1). */
  predicate IsUnitAxis(v: IVec2) {
    (v.x == 0 && (v.y == 1 || v.y == -1)) || (v.y == 0 && (v.x == 1 || v.x == -1))
  }

  /** GetGravityDirVector: the world vector gravity pulls along. */
  function GravityDirVector(g: GravityDirection): IVec2 {
    match g
    case GravityDown => IVec2(0, -1)
    case GravityUp => IVec2(0, 1)
    case GravityLeft => IVec2(-1, 0)
    case GravityRight => IVec2(1, 0)
  }

  /**
   * GetRelativeDirVector: UP is the negated gravity vector, RIGHT is UP
   * crossed with +z and LEFT the negation of RIGHT; DOWN negates only the y
   * component of UP.
   */
  function RelativeDirVector(g: GravityDirection, d: Direction): IVec2 {
    var up := IVec2(-GravityDirVector(g).x, -GravityDirVector(g).y);
    match d
    case Up => up
    case Left => IVec2(-up.y, up.x)
    case Right => IVec2(up.y, -up.x)
    case Down => IVec2(up.x, -up.y)
  }

  /** Gravity is a unit vector along y exactly when it is vertical, pointing to -1 for DOWN and LEFT. */
  lemma GravityIsUnit(g: GravityDirection)
    ensures IsUnitAxis(GravityDirVector(g))
    ensures IsVertical(g) <==> GravityDirVector(g).x == 0
    ensures g == GravityDown || g == GravityLeft <==> GravityDirVector(g).x + GravityDirVector(g).y == -1
  {
    match g
    case GravityDown =>
    case GravityUp =>
    case GravityLeft =>
    case GravityRight =>
  }

  /**
   * The relative directions are unit vectors; UP opposes gravity; DOWN is
   * gravity under vertical gravity but UP again under sideways gravity.
   */
  lemma RelativeDirections(g: GravityDirection, d: Direction)
    ensures IsUnitAxis(RelativeDirVector(g, d))
    ensures d == Up ==> RelativeDirVector(g, d) == GravityDirVector(g).Neg()
    ensures d == Down && IsVertical(g) ==> RelativeDirVector(g, d) == GravityDirVector(g)
    ensures d == Down && !IsVertical(g) ==> RelativeDirVector(g, d) == GravityDirVector(g).Neg()
  {
    var gv := GravityDirVector(g);
    var v := RelativeDirVector(g, d);
    match d
    case Up => assert v == IVec2(-gv.x, -gv.y);
    case Down => assert v == IVec2(-gv.x, gv.y);
    case Left => assert v == IVec2(gv.y, -gv.x);
    case Right => assert v == IVec2(-gv.y, gv.x);
    GravityIsUnit(g);
  }

  /** LEFT and RIGHT are opposite to each other and lie across gravity. */
  lemma SidewaysAcrossGravity(g: GravityDirection)
    ensures RelativeDirVector(g, Left) == RelativeDirVector(g, Right).Neg()
    ensures IsVertical(g) ==> RelativeDirVector(g, Right).y == 0
    ensures !IsVertical(g) ==> RelativeDirVector(g, Right).x == 0
  {
    var gv := GravityDirVector(g);
    assert RelativeDirVector(g, Left) == IVec2(gv.y, -gv.x);
    assert RelativeDirVector(g, Right) == IVec2(-gv.y, gv.x);
    GravityIsUnit(g);
  }

  /**
   * Relative DOWN is the opposite of relative UP only under vertical
   * gravity; under LEFT or RIGHT gravity the two are the same vector.
   */
  lemma DownIsUpUnderSidewaysGravity(g: GravityDirection)
    ensures RelativeDirVector(g, Down) == RelativeDirVector(g, Up) <==> !IsVertical(g)
    ensures RelativeDirVector(g, Down) == RelativeDirVector(g, Up).Neg() <==> IsVertical(g)
  {
    GravityIsUnit(g);
    var up := GravityDirVector(g).Neg();
    assert RelativeDirVector(g, Up) == up;
    assert RelativeDirVector(g, Down) == IVec2(up.x, -up.y);
  }

  /** Under LEFT or RIGHT gravity, one relative-DOWN step from `i` is one step against gravity. */
  lemma DownStepUnderSidewaysGravity(g: GravityDirection, i: IVec2)
    requires !IsVertical(g)
    ensures i.Plus(RelativeDirVector(g, Down)) == i.Minus(GravityDirVector(g))
  {
    RelativeDirections(g, Down);
    PlusNeg(i, GravityDirVector(g));
  }
}
