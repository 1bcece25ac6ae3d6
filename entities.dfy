/**
 * CEntityManager2D: a table of 100 entity slots.  A new entity takes the
 * lowest empty slot; each Update visits the slots in order, deletes a dead
 * entity when its slot is reached, and otherwise updates the entity and
 * tests it for overlap against every other occupied slot, calling both
 * entities' CollidedWith on each overlap.
 *
 * Entities are values here: a name, a position and the dead flag.  What an
 * entity's own Update does is a parameter acting on the entity and on the
 * shared counters the collision callbacks also read (EnemyHealth and the
 * level flag); CollidedWith is the enemy's reaction to a bomb (the bomb's
 * own CollidedWith is empty).
 */
module Entities {
  import opened Grid
  import opened Game

  /** What the manager reads of a CEntity2D. */
  datatype Entity = Entity(name: string, index: IVec2, micro: IVec2, dead: bool)

  /** A slot of the table: a null pointer or an entity. */
  datatype Slot = Empty | Holds(e: Entity)

  /** The number of slots Init appends. */
  const NUM_SLOTS := 100

  /** One CollidedWith call: `receiver`'s CollidedWith with the entity in slot `argument`. */
  datatype Call = Call(receiver: nat, argument: nat)

  /** What an Update works on: the slots, the counters CollidedWith touches, and the calls made so far. */
  datatype Table = Table(slots: seq<Slot>, enemyHealth: int, levelCompleted: bool, calls: seq<Call>)

  /**
   * What an entity's own Update sees and may change of the table: the
   * entity itself and the shared counters (the enemy's G key, for one,
   * takes EnemyHealth and may complete the level).
   */
  datatype View = View(e: Entity, enemyHealth: int, levelCompleted: bool)

  /** The table once the entity in slot `i` has run its own Update. */
  function Updated(t: Table, update: View -> View, i: nat): (u: Table)
    requires i < |t.slots| && t.slots[i].Holds?
    ensures |u.slots| == |t.slots| && u.slots[i].Holds? && u.calls == t.calls
    ensures forall k :: 0 <= k < |t.slots| && k != i ==> u.slots[k] == t.slots[k]
  {
    var v := update(View(t.slots[i].e, t.enemyHealth, t.levelCompleted));
    Table(t.slots[i := Holds(v.e)], v.enemyHealth, v.levelCompleted, t.calls)
  }

  // ---------------------------------------------------------------------
  // The lowest empty slot

  /** The lowest empty slot, or |slots| when every slot is taken. */
  function FirstFree(slots: seq<Slot>): (k: nat)
    ensures k <= |slots|
    ensures forall j :: 0 <= j < k ==> slots[j].Holds?
    ensures k < |slots| ==> slots[k] == Empty
  {
    if |slots| == 0 then 0
    else if slots[0] == Empty then 0
    else 1 + FirstFree(slots[1..])
  }

  /** The number of slots holding an entity named `name`. */
  function Named(slots: seq<Slot>, name: string): nat {
    if |slots| == 0 then 0
    else (if slots[0].Holds? && slots[0].e.name == name then 1 else 0) + Named(slots[1..], name)
  }

  /**
   * Storing `e` in an empty slot adds one entity named like `e` and leaves
   * the count of every other name as it was.
   */
  lemma {:induction false} StoreCounts(slots: seq<Slot>, k: nat, e: Entity, name: string)
    requires k < |slots| && slots[k] == Empty
    ensures Named(slots[k := Holds(e)], name) == Named(slots, name) + (if e.name == name then 1 else 0)
  {
    if k == 0 {
      assert slots[k := Holds(e)][1..] == slots[1..];
    } else {
      assert slots[k := Holds(e)][1..] == slots[1..][k - 1 := Holds(e)];
      StoreCounts(slots[1..], k - 1, e, name);
    }
  }

  // ---------------------------------------------------------------------
  // Overlap

  /** A position in quarter tiles: index + microsteps * 0.25, times 4. */
  function Quarters(e: Entity): IVec2 {
    IVec2(4 * e.index.x + e.micro.x, 4 * e.index.y + e.micro.y)
  }

  /** Update's overlap test with a width of one tile, in quarter tiles. */
  predicate Overlaps(a: Entity, b: Entity) {
    var p, q := Quarters(a), Quarters(b);
    p.x <= q.x + 4 && p.x + 4 > q.x && p.y <= q.y + 4 && p.y + 4 > q.y
  }

  /**
   * The test on floats (index + microsteps * 0.25, width 1.0) is the test in
   * quarter tiles, on each axis and for both comparisons.
   */
  lemma {:induction false} FloatTestIsQuarterTest(ai: int, am: int, bi: int, bm: int)
    ensures (ai as real + am as real * 0.25 <= bi as real + bm as real * 0.25 + 1.0) <==> 4 * ai + am <= 4 * bi + bm + 4
    ensures (ai as real + am as real * 0.25 + 1.0 > bi as real + bm as real * 0.25) <==> 4 * ai + am + 4 > 4 * bi + bm
  {
    var a := ai as real + am as real * 0.25;
    var b := bi as real + bm as real * 0.25;
    assert 4.0 * a == (4 * ai + am) as real;
    assert 4.0 * b == (4 * bi + bm) as real;
  }

  /**
   * The test is not symmetric: an entity exactly one tile to the right of
   * (or above) another overlaps it, but not the other way round.
   */
  lemma {:induction false} OverlapIsNotSymmetric(a: Entity, b: Entity)
    requires Quarters(a) == Quarters(b).Plus(IVec2(4, 0))
    ensures Overlaps(a, b) && !Overlaps(b, a)
  {
  }

  /** Apart from a distance of exactly one tile on an axis, the test is symmetric. */
  lemma {:induction false} OverlapAsymmetryIsOnTheBoundary(a: Entity, b: Entity)
    ensures Overlaps(a, b) != Overlaps(b, a) ==>
              var d := Quarters(a).Minus(Quarters(b));
              d.x == 4 || d.x == -4 || d.y == 4 || d.y == -4
  {
  }

  // ---------------------------------------------------------------------
  // One Update, as a function of the table

  /** Slot `b` is slot `a` later in the same Update: still there, not moved, and still dead if it was. */
  predicate Kept(a: Slot, b: Slot) {
    && (a.Empty? ==> b.Empty?)
    && (a.Holds? ==> b.Holds? && b.e.name == a.e.name && b.e.index == a.e.index &&
                     b.e.micro == a.e.micro && (a.e.dead ==> b.e.dead))
  }

  /**
   * `receiver`'s CollidedWith(`argument`): an enemy hit by a bomb loses
   * BOMB_DAMAGE EnemyHealth and marks the bomb dead; at or below 0
   * EnemyHealth it dies itself and the level is completed.  For any other
   * pair nothing but the call happens.
   */
  function CollidedWith(t: Table, receiver: nat, argument: nat): (u: Table)
    requires receiver < |t.slots| && argument < |t.slots| && receiver != argument
    requires t.slots[receiver].Holds? && t.slots[argument].Holds?
    ensures |u.slots| == |t.slots| && u.calls == t.calls + [Call(receiver, argument)]
    ensures forall k :: 0 <= k < |t.slots| ==> Kept(t.slots[k], u.slots[k])
  {
    var calls := t.calls + [Call(receiver, argument)];
    var r, a := t.slots[receiver].e, t.slots[argument].e;
    if r.name == "Enemy" && a.name == "Bomb" then
      var health := t.enemyHealth - BOMB_DAMAGE;
      var slots := t.slots[argument := Holds(a.(dead := true))];
      if health <= 0 then Table(slots[receiver := Holds(r.(dead := true))], health, true, calls)
      else Table(slots, health, t.levelCompleted, calls)
    else t.(calls := calls)
  }

  /** An overlap: first the other entity's CollidedWith, then the updated entity's. */
  function Touch(t: Table, i: nat, j: nat): (u: Table)
    requires i < |t.slots| && j < |t.slots| && i != j
    requires t.slots[i].Holds? && t.slots[j].Holds?
    ensures |u.slots| == |t.slots| && u.calls == t.calls + [Call(j, i), Call(i, j)]
    ensures forall k :: 0 <= k < |t.slots| ==> Kept(t.slots[k], u.slots[k])
  {
    CollidedWith(CollidedWith(t, j, i), i, j)
  }

  /** The collision loop of the entity in slot `i`, from slot `j` on. */
  function Scan(t: Table, i: nat, j: nat): (u: Table)
    requires i < |t.slots| && t.slots[i].Holds? && j <= |t.slots|
    ensures |u.slots| == |t.slots| && t.calls <= u.calls
    decreases |t.slots| - j
  {
    if j == |t.slots| then t
    else if j != i && t.slots[j].Holds? && Overlaps(t.slots[i].e, t.slots[j].e) then
      Scan(Touch(t, i, j), i, j + 1)
    else Scan(t, i, j + 1)
  }

  /**
   * Slot `i`'s turn in Update: an empty slot is skipped, a dead entity is
   * deleted, and a live one runs its own Update and then its collision loop.
   */
  function Turn(t: Table, update: View -> View, i: nat): (u: Table)
    requires i < |t.slots|
    ensures |u.slots| == |t.slots| && t.calls <= u.calls
  {
    match t.slots[i]
    case Empty => t
    case Holds(e) =>
      if e.dead then t.(slots := t.slots[i := Empty])
      else Scan(Updated(t, update, i), i, 0)
  }

  /** Update's loop over the slots from `i` on; `update` is each entity's own Update. */
  function Sweep(t: Table, update: View -> View, i: nat): (u: Table)
    requires i <= |t.slots|
    ensures |u.slots| == |t.slots| && t.calls <= u.calls
    decreases |t.slots| - i
  {
    if i == |t.slots| then t
    else Sweep(Turn(t, update, i), update, i + 1)
  }

  /** The collision loop keeps every slot in the sense of Kept. */
  lemma {:induction false} ScanKeeps(t: Table, i: nat, j: nat, k: nat)
    requires i < |t.slots| && t.slots[i].Holds? && j <= |t.slots| && k < |t.slots|
    ensures Kept(t.slots[k], Scan(t, i, j).slots[k])
    decreases |t.slots| - j
  {
    if j < |t.slots| {
      if j != i && t.slots[j].Holds? && Overlaps(t.slots[i].e, t.slots[j].e) {
        ScanKeeps(Touch(t, i, j), i, j + 1, k);
      } else {
        ScanKeeps(t, i, j + 1, k);
      }
    }
  }

  /** A turn keeps every slot other than its own in the sense of Kept, and never fills an empty slot. */
  lemma {:induction false} TurnKeeps(t: Table, update: View -> View, i: nat, k: nat)
    requires i < |t.slots| && k < |t.slots|
    ensures k != i ==> Kept(t.slots[k], Turn(t, update, i).slots[k])
    ensures t.slots[k] == Empty ==> Turn(t, update, i).slots[k] == Empty
  {
    if t.slots[i].Holds? && !t.slots[i].e.dead {
      ScanKeeps(Updated(t, update, i), i, 0, k);
    }
  }

  /** A slot that is empty stays empty: nothing but AddEntity fills a slot. */
  lemma {:induction false} SweepKeepsEmptySlotsEmpty(t: Table, update: View -> View, i: nat, k: nat)
    requires i <= |t.slots| && k < |t.slots| && t.slots[k] == Empty
    ensures Sweep(t, update, i).slots[k] == Empty
    decreases |t.slots| - i
  {
    if i < |t.slots| {
      TurnKeeps(t, update, i, k);
      SweepKeepsEmptySlotsEmpty(Turn(t, update, i), update, i + 1, k);
    }
  }

  /**
   * An entity that is dead when its slot's turn comes, or that dies before
   * then, is deleted: after the Update its slot is empty.
   */
  lemma {:induction false} SweepReapsTheDead(t: Table, update: View -> View, i: nat, k: nat)
    requires i <= k < |t.slots| && t.slots[k].Holds? && t.slots[k].e.dead
    ensures Sweep(t, update, i).slots[k] == Empty
    decreases |t.slots| - i
  {
    var u := Turn(t, update, i);
    if i == k {
      assert u.slots[k] == Empty;
      SweepKeepsEmptySlotsEmpty(u, update, i + 1, k);
    } else {
      TurnKeeps(t, update, i, k);
      SweepReapsTheDead(u, update, i + 1, k);
    }
  }

  /** No entity is ever tested against its own slot. */
  predicate NoSelfCalls(calls: seq<Call>) {
    forall m :: 0 <= m < |calls| ==> calls[m].receiver != calls[m].argument
  }

  lemma {:induction false} ScanMakesNoSelfCalls(t: Table, i: nat, j: nat)
    requires i < |t.slots| && t.slots[i].Holds? && j <= |t.slots|
    requires NoSelfCalls(t.calls)
    ensures NoSelfCalls(Scan(t, i, j).calls)
    decreases |t.slots| - j
  {
    if j < |t.slots| {
      if j != i && t.slots[j].Holds? && Overlaps(t.slots[i].e, t.slots[j].e) {
        ScanMakesNoSelfCalls(Touch(t, i, j), i, j + 1);
      } else {
        ScanMakesNoSelfCalls(t, i, j + 1);
      }
    }
  }

  lemma {:induction false} SweepMakesNoSelfCalls(t: Table, update: View -> View, i: nat)
    requires i <= |t.slots| && NoSelfCalls(t.calls)
    ensures NoSelfCalls(Sweep(t, update, i).calls)
    decreases |t.slots| - i
  {
    if i < |t.slots| {
      if t.slots[i].Holds? && !t.slots[i].e.dead {
        ScanMakesNoSelfCalls(Updated(t, update, i), i, 0);
      }
      SweepMakesNoSelfCalls(Turn(t, update, i), update, i + 1);
    }
  }

  /**
   * Every other occupied slot is tested, dead or alive: when it overlaps
   * the entity being updated, that entity's CollidedWith is called on it.
   */
  lemma {:induction false} ScanTestsEveryOccupiedSlot(t: Table, i: nat, j: nat, k: nat)
    requires i < |t.slots| && t.slots[i].Holds? && j <= k < |t.slots| && k != i
    requires t.slots[k].Holds? && Overlaps(t.slots[i].e, t.slots[k].e)
    ensures Call(i, k) in Scan(t, i, j).calls
    decreases |t.slots| - j
  {
    if j == k {
      var u := Touch(t, i, k);
      assert u.calls[|u.calls| - 1] == Call(i, k);
      assert u.calls <= Scan(u, i, k + 1).calls;
    } else {
      var u := if t.slots[j].Holds? && j != i && Overlaps(t.slots[i].e, t.slots[j].e) then Touch(t, i, j) else t;
      assert Kept(t.slots[i], u.slots[i]) && Kept(t.slots[k], u.slots[k]);
      ScanTestsEveryOccupiedSlot(u, i, j + 1, k);
    }
  }

  /** An entity's own Update that changes nothing. */
  function Unchanged(v: View): View { v }

  /**
   * Two live entities that overlap both ways are reported twice in one
   * Update: once on each one's turn, each time with the other entity's
   * CollidedWith first.
   */
  lemma PairCollidesTwice(a: Entity, b: Entity)
    requires !a.dead && !b.dead && a.name != "Enemy" && b.name != "Enemy"
    requires Overlaps(a, b) && Overlaps(b, a)
    ensures Sweep(Table([Holds(a), Holds(b)], 0, false, []), Unchanged, 0).calls ==
              [Call(1, 0), Call(0, 1), Call(0, 1), Call(1, 0)]
  {
    var t0 := Table([Holds(a), Holds(b)], 0, false, []);
    assert Updated(t0, Unchanged, 0) == t0;
    var t1 := Touch(t0, 0, 1);
    assert t1 == Table([Holds(a), Holds(b)], 0, false, [Call(1, 0), Call(0, 1)]);
    assert Scan(t0, 0, 0) == t1 by {
      assert Scan(t1, 0, 2) == t1;
      assert Scan(t0, 0, 1) == Scan(t1, 0, 2);
    }
    assert Updated(t1, Unchanged, 1) == t1;
    var t2 := Touch(t1, 1, 0);
    assert t2 == Table([Holds(a), Holds(b)], 0, false, [Call(1, 0), Call(0, 1), Call(0, 1), Call(1, 0)]);
    assert Scan(t1, 1, 0) == t2 by {
      assert Scan(t2, 1, 2) == t2;
      assert Scan(t2, 1, 1) == t2;
    }
    assert Sweep(t2, Unchanged, 2) == t2;
    assert Sweep(t1, Unchanged, 1) == t2;
  }

  // ---------------------------------------------------------------------
  // The manager

  class EntityManager2D {
    /** The slot vector: a slot is null (Empty) or holds an entity. */
    var entities: seq<Slot>
    /** The counters the collision callbacks change. */
    const inventory: Inventory
    const game: GameManager

    constructor (inventory: Inventory, game: GameManager)
      ensures entities == [] && this.inventory == inventory && this.game == game
    {
      entities := [];
      this.inventory := inventory;
      this.game := game;
    }

    /** The table as Update's specification sees it, with the calls made so far. */
    function Now(calls: seq<Call>): Table
      reads this, inventory, game
    {
      Table(entities, inventory.enemyHealth, game.levelCompleted, calls)
    }

    /** Init: appends exactly 100 empty slots. */
    method Init()
      modifies this`entities
      ensures entities == old(entities) + seq(NUM_SLOTS, _ => Empty)
    {
      var n := 0;
      while n < NUM_SLOTS
        invariant 0 <= n <= NUM_SLOTS
        invariant entities == old(entities) + seq(n, _ => Empty)
      {
        assert seq(n + 1, _ => Empty) == seq(n, _ => Empty) + [Empty];
        entities := entities + [Empty];
        n := n + 1;
      }
    }

    /** AddEntity: into the lowest empty slot; with none empty the entity is silently not stored. */
    method AddEntity(e: Entity)
      modifies this`entities
      ensures FirstFree(old(entities)) < |old(entities)| ==>
                entities == old(entities)[FirstFree(old(entities)) := Holds(e)]
      ensures FirstFree(old(entities)) == |old(entities)| ==> entities == old(entities)
    {
      var k := 0;
      while k < |entities|
        invariant 0 <= k <= |entities| && entities == old(entities)
        invariant forall j :: 0 <= j < k ==> entities[j].Holds?
      {
        if entities[k] == Empty {
          FirstFreeIsLowest(entities, k);
          entities := entities[k := Holds(e)];
          return;
        }
        k := k + 1;
      }
      FirstFreeIsLowest(entities, k);
    }

    /**
     * Update: the slots in order; a dead entity's slot is emptied, a live
     * entity is updated and then tested against every other occupied
     * slot.  Returns the CollidedWith calls in the order they are made.
     */
    method Update(update: View -> View) returns (calls: seq<Call>)
      modifies this`entities, inventory`enemyHealth, game`levelCompleted
      ensures Now(calls) == Sweep(old(Now([])), update, 0)
    {
      calls := [];
      var i := 0;
      while i < |entities|
        invariant 0 <= i <= |entities| == |old(entities)|
        invariant Sweep(old(Now([])), update, 0) == Sweep(Now(calls), update, i)
      {
        if entities[i].Holds? {
          var e := entities[i].e;
          if e.dead {
            entities := entities[i := Empty];
          } else {
            var v := update(View(e, inventory.enemyHealth, game.levelCompleted));
            entities := entities[i := Holds(v.e)];
            inventory.enemyHealth, game.levelCompleted := v.enemyHealth, v.levelCompleted;
            calls := TestAll(i, calls);
          }
        }
        i := i + 1;
      }
    }

    /** The collision loop of the entity in slot `i`. */
    method TestAll(i: nat, calls0: seq<Call>) returns (calls: seq<Call>)
      requires i < |entities| && entities[i].Holds?
      modifies this`entities, inventory`enemyHealth, game`levelCompleted
      ensures Now(calls) == Scan(old(Now(calls0)), i, 0)
    {
      calls := calls0;
      ghost var t0 := Now(calls);
      var j := 0;
      while j < |entities|
        invariant 0 <= j <= |entities| && i < |entities| && entities[i].Holds?
        invariant Scan(t0, i, 0) == Scan(Now(calls), i, j)
      {
        calls := TestPair(i, j, calls);
        j := j + 1;
      }
    }

    /**
     * One pass of the collision loop: when the entities in slots `i` and
     * `j` overlap, `j` is told first, then `i`.
     */
    method TestPair(i: nat, j: nat, calls0: seq<Call>) returns (calls: seq<Call>)
      requires i < |entities| && j < |entities| && entities[i].Holds?
      modifies this`entities, inventory`enemyHealth, game`levelCompleted
      ensures |entities| == old(|entities|) && entities[i].Holds?
      ensures Scan(old(Now(calls0)), i, j) == Scan(Now(calls), i, j + 1)
    {
      calls := calls0;
      if j != i && entities[j].Holds? && Overlaps(entities[i].e, entities[j].e) {
        calls := Collide(j, i, calls);
        calls := Collide(i, j, calls);
      }
    }

    /** `receiver`'s CollidedWith(`argument`). */
    method Collide(receiver: nat, argument: nat, calls0: seq<Call>) returns (calls: seq<Call>)
      requires receiver < |entities| && argument < |entities| && receiver != argument
      requires entities[receiver].Holds? && entities[argument].Holds?
      modifies this`entities, inventory`enemyHealth, game`levelCompleted
      ensures Now(calls) == CollidedWith(old(Now(calls0)), receiver, argument)
    {
      calls := calls0 + [Call(receiver, argument)];
      var r, a := entities[receiver].e, entities[argument].e;
      if r.name == "Enemy" && a.name == "Bomb" {
        inventory.enemyHealth := inventory.enemyHealth - BOMB_DAMAGE;
        entities := entities[argument := Holds(a.(dead := true))];
        if inventory.enemyHealth <= 0 {
          entities := entities[receiver := Holds(r.(dead := true))];
          game.levelCompleted := true;
        }
      }
    }

    /** Exit: every entity is deleted and every slot emptied; the slot count stays. */
    method Exit()
      modifies this`entities
      ensures entities == seq(|old(entities)|, _ => Empty)
    {
      var k := 0;
      while k < |entities|
        invariant 0 <= k <= |entities| && |entities| == |old(entities)|
        invariant forall j :: 0 <= j < k ==> entities[j] == Empty
      {
        if entities[k].Holds? {
          entities := entities[k := Empty];
        }
        k := k + 1;
      }
    }
  }

  /** The first empty slot found scanning upwards is FirstFree's. */
  lemma {:induction false} FirstFreeIsLowest(slots: seq<Slot>, k: nat)
    requires k <= |slots| && (k < |slots| ==> slots[k] == Empty)
    requires forall j :: 0 <= j < k ==> slots[j].Holds?
    ensures FirstFree(slots) == k
  {
  }
}
