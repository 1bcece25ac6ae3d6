/**
 * The game-wide state the movers touch: the tile ids they react to, the
 * inventory counters (CInventoryManager items) and the game manager's
 * end-of-game flags.
 *
 * CMap2D's tile-id enum and CInventoryItem are not part of this model: the
 * ids are parameters, and each inventory item is a plain integer counter
 * that Add and Remove change by exactly their argument.
 */
module Game {

  /** The CMap2D::TILE_ID values the movers test for. */
  datatype TileIds = TileIds(
    bombSmall: int,
    powerupDoubleJump: int,
    acidDown: int,
    acidUp: int,
    acidLeft: int,
    acidRight: int,
    interactablesEnd: int,
    blockEnd: int)
  {
    /** The player's switch labels, including the literal 99, are distinct. */
    predicate Valid() {
      var labels := [bombSmall, powerupDoubleJump, acidDown, acidUp, acidLeft, acidRight, LEVEL_EXIT];
      forall i, j :: 0 <= i < j < |labels| ==> labels[i] != labels[j]
    }

    /** The case labels InteractWithMap relies on being distinct. */
    lemma LabelsDistinct()
      requires Valid()
      ensures bombSmall != powerupDoubleJump && bombSmall != LEVEL_EXIT && powerupDoubleJump != LEVEL_EXIT
      ensures !IsAcid(bombSmall) && !IsAcid(powerupDoubleJump) && !IsAcid(LEVEL_EXIT)
    {
      var labels := [bombSmall, powerupDoubleJump, acidDown, acidUp, acidLeft, acidRight, LEVEL_EXIT];
      assert labels[0] != labels[1] && labels[0] != labels[6] && labels[1] != labels[6];
      assert labels[0] != labels[2] && labels[0] != labels[3] && labels[0] != labels[4] && labels[0] != labels[5];
      assert labels[1] != labels[2] && labels[1] != labels[3] && labels[1] != labels[4] && labels[1] != labels[5];
      assert labels[2] != labels[6] && labels[3] != labels[6] && labels[4] != labels[6] && labels[5] != labels[6];
    }

    predicate IsAcid(t: int) {
      t == acidDown || t == acidUp || t == acidLeft || t == acidRight
    }
  }

  /** The tile that ends the level when the player stands on it. */
  const LEVEL_EXIT := 99

  /** EnemyHealth lost to one bomb. */
  const BOMB_DAMAGE := 50

  /** The counters of the "Bomb", "DoubleJump", "Health", "Lives" and "EnemyHealth" items. */
  class Inventory {
    var bomb: int
    var doubleJump: int
    var health: int
    var healthMax: int
    var lives: int
    var enemyHealth: int

    constructor (bomb: int, doubleJump: int, health: int, healthMax: int, lives: int, enemyHealth: int)
      ensures this.bomb == bomb && this.doubleJump == doubleJump && this.health == health
      ensures this.healthMax == healthMax && this.lives == lives && this.enemyHealth == enemyHealth
    {
      this.bomb := bomb;
      this.doubleJump := doubleJump;
      this.health := health;
      this.healthMax := healthMax;
      this.lives := lives;
      this.enemyHealth := enemyHealth;
    }
  }

  /** CGameManager's flags. */
  class GameManager {
    var levelCompleted: bool
    var playerLost: bool

    constructor ()
      ensures !levelCompleted && !playerLost
    {
      levelCompleted := false;
      playerLost := false;
    }
  }
}
