/**
 * CPhysics2D: the jump-peak test and the per-mover motion integrator with
 * its status bookkeeping; the direction vectors are in module Frame.
 *
 * The gravity direction and magnitude are process-wide statics in the
 * source; here they live in one Gravity object that every Physics2D refers
 * to, so that setting them through any instance is seen by all.
 *
 * Velocities, displacement and time are floats in the source and reals here.
 */
module Physics {
  import opened Grid
  import opened Frame

  /** CPhysics2D::STATUS */
  datatype Status = Idle | Jump | Fall

  /** Real-valued 2D vector (glm::vec2). */
  datatype Vec2 = Vec2(x: real, y: real) {
    function Plus(o: Vec2): Vec2 { Vec2(x + o.x, y + o.y) }
    function Scale(k: real): Vec2 { Vec2(k * x, k * y) }
  }

  const ZeroV := Vec2(0.0, 0.0)

  function ToReal(v: IVec2): Vec2 {
    Vec2(v.x as real, v.y as real)
  }

  /** The component of `v` along the integer direction `u`. */
  function Along(v: Vec2, u: IVec2): real {
    v.x * u.x as real + v.y * u.y as real
  }

  /**
   * ReachedPeakOfJump as a function of the gravity direction and the
   * initial velocity.
   */
  function PeakReached(g: GravityDirection, v: Vec2): bool {
    match g
    case GravityDown => v.y <= 0.0
    case GravityUp => v.y >= 0.0
    case GravityLeft => v.x <= 0.0
    case GravityRight => v.x >= 0.0
  }

  /** The peak is reached exactly when the velocity no longer points along relative UP. */
  lemma {:induction false} PeakMeansNoUpwardSpeed(g: GravityDirection, v: Vec2)
    ensures PeakReached(g, v) <==> Along(v, RelativeDirVector(g, Up)) <= 0.0
  {
    match g
    case GravityDown => assert Along(v, IVec2(0, 1)) == v.y;
    case GravityUp => assert Along(v, IVec2(0, -1)) == -v.y;
    case GravityLeft => assert Along(v, IVec2(1, 0)) == v.x;
    case GravityRight => assert Along(v, IVec2(-1, 0)) == -v.x;
  }

  /** The integrator state of one CPhysics2D instance. */
  datatype Motion = Motion(
    initialVelocity: Vec2,
    finalVelocity: Vec2,
    acceleration: Vec2,
    displacement: Vec2,
    prevDisplacement: Vec2,
    time: real,
    status: Status)

  /** CPhysics2D::Init: everything but acceleration and status goes back to zero. */
  function Reset(m: Motion): (r: Motion)
    ensures r.acceleration == m.acceleration && r.status == m.status
    ensures r.initialVelocity == r.finalVelocity == r.displacement == r.prevDisplacement == ZeroV
    ensures r.time == 0.0
  {
    m.(initialVelocity := ZeroV, finalVelocity := ZeroV, displacement := ZeroV,
       prevDisplacement := ZeroV, time := 0.0)
  }

  /** CPhysics2D::SetStatus: a change of status resets the integrator; the same status changes nothing. */
  function WithStatus(m: Motion, s: Status): (r: Motion)
    ensures r.status == s && r.acceleration == m.acceleration
    ensures m.status == s ==> r == m
    ensures m.status != s ==> r == Reset(m).(status := s)
  {
    if m.status != s then Reset(m).(status := s) else m
  }

  /** Setting a status twice is the same as setting it once. */
  lemma StatusIdempotent(m: Motion, s: Status)
    ensures WithStatus(WithStatus(m, s), s) == WithStatus(m, s)
  {
  }

  /**
   * CPhysics2D::Update with gravity vector `gv`: nothing happens while idle;
   * otherwise one SUVAT step whose final velocity becomes the next initial
   * velocity.
   */
  function Integrate(m: Motion, gv: Vec2): (r: Motion)
    ensures m.status == Idle ==> r == m
    ensures m.status != Idle ==> r.initialVelocity == r.finalVelocity == m.initialVelocity.Plus(gv.Scale(m.time))
    ensures r.time == m.time && r.status == m.status && r.acceleration == m.acceleration
  {
    if m.status == Idle then m
    else
      var v := m.initialVelocity.Plus(gv.Scale(m.time));
      m.(finalVelocity := v,
         displacement := v.Scale(m.time).Plus(gv.Scale(-0.5 * m.time * m.time)),
         initialVelocity := v)
  }

  /** Integrating an idle mover any number of times leaves it as it was. */
  function IntegrateTimes(m: Motion, gv: Vec2, n: nat): Motion {
    if n == 0 then m else Integrate(IntegrateTimes(m, gv, n - 1), gv)
  }

  lemma {:induction false} IdleIntegrationIsIdentity(m: Motion, gv: Vec2, n: nat)
    requires m.status == Idle
    ensures IntegrateTimes(m, gv, n) == m
  {
    if n > 0 {
      IdleIntegrationIsIdentity(m, gv, n - 1);
    }
  }

  /** The process-wide gravity settings (the statics of CPhysics2D). */
  class Gravity {
    var direction: GravityDirection
    var magnitude: real

    /** Their static initial values: DOWN, magnitude 1.1. */
    constructor ()
      ensures direction == GravityDown && magnitude == 1.1
    {
      direction := GravityDown;
      magnitude := 1.1;
    }
  }

  class Physics2D {
    /** The gravity shared by every instance. */
    const gravity: Gravity

    /** The per-instance motion fields, read and written together. */
    var state: Motion

    /** A fresh instance is idle and at rest. */
    constructor (gravity: Gravity)
      ensures this.gravity == gravity
      ensures state == Motion(ZeroV, ZeroV, ZeroV, ZeroV, ZeroV, 0.0, Idle)
    {
      this.gravity := gravity;
      state := Motion(ZeroV, ZeroV, ZeroV, ZeroV, ZeroV, 0.0, Idle);
    }

    /** Init: velocities, displacements and time back to zero; it always succeeds. */
    method Init() returns (ok: bool)
      modifies this
      ensures ok && state == Reset(old(state))
    {
      state := state.(initialVelocity := ZeroV, finalVelocity := ZeroV,
                      displacement := ZeroV, prevDisplacement := ZeroV, time := 0.0);
      ok := true;
    }

    /** SetStatus: a change of status re-initialises the motion first. */
    method SetStatus(s: Status)
      modifies this
      ensures state == WithStatus(old(state), s)
    {
      if state.status != s {
        var _ := Init();
        state := state.(status := s);
      }
    }

    method SetInitialVelocity(v: Vec2)
      modifies this
      ensures state == old(state).(initialVelocity := v)
    {
      state := state.(initialVelocity := v);
    }

    /** AddElapsedTime: time grows by exactly the argument. */
    method AddElapsedTime(dt: real)
      modifies this
      ensures state == old(state).(time := old(state.time) + dt)
    {
      state := state.(time := state.time + dt);
    }

    function GravityVector(): Vec2
      reads gravity
    {
      ToReal(GravityDirVector(gravity.direction)).Scale(gravity.magnitude)
    }

    method Update()
      modifies this
      ensures state == Integrate(old(state), GravityVector())
    {
      if state.status == Idle {
        return;
      }
      var gv := GravityVector();
      var t := state.time;
      var v := state.initialVelocity.Plus(gv.Scale(t));
      state := state.(finalVelocity := v,
                      displacement := v.Scale(t).Plus(gv.Scale(-0.5 * t * t)),
                      initialVelocity := v);
    }

    function ReachedPeakOfJump(): bool
      reads this, gravity
    {
      PeakReached(gravity.direction, state.initialVelocity)
    }

    /** The direction vector for `d` under the current shared gravity. */
    function RelativeDir(d: Direction): IVec2
      reads gravity
    {
      RelativeDirVector(gravity.direction, d)
    }

    /** SetGravityDirection: overwrites the direction every instance sees. */
    method SetGravityDirection(g: GravityDirection)
      modifies gravity
      ensures gravity.direction == g && gravity.magnitude == old(gravity.magnitude)
    {
      gravity.direction := g;
    }

    /** setGravityMagnitude: overwrites the magnitude every instance sees. */
    method SetGravityMagnitude(mag: real)
      modifies gravity
      ensures gravity.magnitude == mag && gravity.direction == old(gravity.direction)
    {
      gravity.magnitude := mag;
    }
  }
}
