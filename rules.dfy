/** The guess-evaluation rules of app.js as functions on a snapshot of the
    game's global state. The class in session.dfy keeps the same state in
    mutable fields and is specified by these functions. */
module Rules {
  import opened Wrappers
  import opened Levels

  /** What one submitted guess produces; the display layer turns it into a
      message, a sound and (on a win) the confetti. */
  datatype Outcome =
    | OutOfRange               // not a number, or outside 1..max
    | Duplicate                // already in the history
    | TooHigh(remaining: int)  // wrong, too high; attempts left
    | TooLow(remaining: int)   // wrong, too low; attempts left
    | Win(score: int)          // correct; attempts used
    | Lose(secret: int)        // wrong on the last attempt; the secret revealed

  /** The module-level globals of app.js (lines 1-10) plus whether the guess
      input is disabled. `level` is None before the first game is started
      (`currentLevel = ''`). */
  datatype Game = Game(
    level: Option<Level>,
    secret: int,
    remaining: int,
    max: int,
    history: seq<int>,
    best: map<Level, Option<int>>,
    finished: bool)

  /** The result of submitting one guess. */
  datatype Turn = Turn(after: Game, outcome: Outcome)

  /** The state when the page has loaded: no level, every number out of
      range, no best scores yet. */
  function Loaded(): (s: Game)
    ensures Inv(s) && s.level.None?
    ensures forall l :: l in AllLevels ==> s.best[l].None?
  {
    Game(None, 0, 0, 0, [], map[Beginner := None, Medium := None, Hard := None], false)
  }

  /** `Math.floor(r * max) + 1` for a draw `r` of `Math.random()`, read as an
      exact real in [0, 1). */
  function SecretFromDraw(r: real, max: int): (secret: int)
    requires 0.0 <= r < 1.0 && max >= 1
    ensures 1 <= secret <= max
  {
    assert r * max as real < max as real by {
      assert (1.0 - r) * max as real > 0.0;
    }
    (r * max as real).Floor + 1
  }

  /** JavaScript's `!bestScores[level]`: null, a missing key and 0 are all
      falsy, so each of them counts as "no best score yet". */
  predicate NoPriorBest(best: map<Level, Option<int>>, level: Level)
  {
    level !in best || best[level].None? || best[level].value == 0
  }

  function Min(a: int, b: int): int
  {
    if a <= b then a else b
  }

  /** The best-score update on a win: the level's best becomes the score when
      there is none yet, and the smaller of the two otherwise; no other level's
      entry changes. */
  function RecordWin(best: map<Level, Option<int>>, level: Level, score: int): (b: map<Level, Option<int>>)
    ensures b.Keys == best.Keys + {level}
    ensures forall l :: l in best && l != level ==> b[l] == best[l]
    ensures NoPriorBest(best, level) ==> b[level] == Some(score)
    ensures !NoPriorBest(best, level) ==> b[level] == Some(Min(best[level].value, score))
  {
    if NoPriorBest(best, level) || score < best[level].value then
      best[level := Some(score)]
    else
      best
  }

  /** `startGame(level)` with the secret already drawn: the level's range and
      budget, an empty history, the input enabled; best scores are kept. */
  function Start(s: Game, level: Level, secret: int): Game
  {
    s.(level := Some(level), max := Config(level).max, remaining := Config(level).attempts,
       secret := secret, history := [], finished := false)
  }

  /** `makeGuess()` applied to the parsed input (None is NaN). The checks run
      in the source's order: range, duplicate; then the guess is recorded and
      classified as win, loss, too high or too low. A guess can only pass the
      range check once a level is chosen, which is what the requires says. */
  function Step(s: Game, g: Option<int>): Turn
    requires s.level.Some? || s.max < 1
  {
    if g.None? || g.value < 1 || g.value > s.max then
      Turn(s, OutOfRange)
    else if g.value in s.history then
      Turn(s, Duplicate)
    else
      var guess := g.value;
      var s' := s.(history := s.history + [guess], remaining := s.remaining - 1);
      if guess == s.secret then
        var score := Config(s.level.value).attempts - s'.remaining;
        Turn(s'.(best := RecordWin(s.best, s.level.value, score), finished := true), Win(score))
      else if s'.remaining == 0 then
        Turn(s'.(finished := true), Lose(s.secret))
      else if guess > s.secret then
        Turn(s', TooHigh(s'.remaining))
      else
        Turn(s', TooLow(s'.remaining))
  }

  /** No number appears twice. */
  predicate Distinct(h: seq<int>)
  {
    forall i, j :: 0 <= i < j < |h| ==> h[i] != h[j]
  }

  /** Every stored best score is a real attempt count for its level. */
  predicate BestValid(best: map<Level, Option<int>>)
  {
    && best.Keys == AllLevels
    && forall l :: l in best && best[l].Some? ==> 1 <= best[l].value <= Config(l).attempts
  }

  /** The invariant of a game in progress or over:
      the budget is split between the history and the attempts left; the
      history is duplicate-free and within range; the game is over exactly when
      the secret was guessed (as the last guess) or the attempts ran out. */
  predicate Inv(s: Game)
  {
    && BestValid(s.best)
    && match s.level
       case None =>
         s.max == 0 && s.history == [] && !s.finished
       case Some(l) =>
         && s.max == Config(l).max
         && 1 <= s.secret <= s.max
         && 0 <= s.remaining
         && s.remaining + |s.history| == Config(l).attempts
         && Distinct(s.history)
         && (forall i :: 0 <= i < |s.history| ==> 1 <= s.history[i] <= s.max)
         && (s.secret in s.history ==> s.history[|s.history| - 1] == s.secret)
         && s.finished == (s.secret in s.history || s.remaining == 0)
  }
}
