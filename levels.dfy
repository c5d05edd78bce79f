/** The fixed difficulty table of the game (app.js, `levelConfig`). */
module Levels {

  /** The three difficulties a player can pick from the menu. */
  datatype Level = Beginner | Medium | Hard

  /** The range of secrets (1..max) and the attempt budget of one difficulty.
      The display title is presentation and is not modelled. */
  datatype LevelConfig = LevelConfig(max: int, attempts: int)

  /** Every difficulty; the keys of the best-score table. */
  const AllLevels: set<Level> := {Beginner, Medium, Hard}

  /** `levelConfig[level]`: beginner 1..50 in 10 attempts, medium 1..100 in 7,
      hard 1..200 in 5. Every difficulty has a non-empty range and a positive
      budget that is smaller than the range, so the player cannot try every number. */
  function Config(level: Level): (c: LevelConfig)
    ensures 1 <= c.attempts < c.max
  {
    match level
    case Beginner => LevelConfig(50, 10)
    case Medium => LevelConfig(100, 7)
    case Hard => LevelConfig(200, 5)
  }
}
