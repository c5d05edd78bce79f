/** The game session of app.js: the module-level globals as the fields of one
    object, updated in place by `startGame`, `makeGuess` and `resetGame`. */
module Sessions {
  import opened Wrappers
  import opened Levels
  import opened Rules
  import Properties

  class Session {
    var currentLevel: Option<Level>
    var secretNumber: int
    var attemptsRemaining: int
    var maxNumber: int
    var guessHistory: seq<int>
    var bestScores: map<Level, Option<int>>
    /** The guess input is disabled (set on a win or a loss). */
    var finished: bool

    /** The fields as a value of the rules' state type. */
    function State(): Game
      reads this
    {
      Game(currentLevel, secretNumber, attemptsRemaining, maxNumber, guessHistory, bestScores, finished)
    }

    ghost predicate Valid()
      reads this
    {
      Inv(State())
    }

    /** The globals as the page loads them. */
    constructor ()
      ensures Valid() && State() == Loaded()
    {
      currentLevel := None;
      secretNumber := 0;
      attemptsRemaining := 0;
      maxNumber := 0;
      guessHistory := [];
      bestScores := map[Beginner := None, Medium := None, Hard := None];
      finished := false;
    }

    /** `startGame(level)`, with `draw` the value `Math.random()` returned.
        It overwrites every field but the best scores, so it needs only those
        to be well formed. */
    method StartGame(level: Level, draw: real)
      requires BestValid(bestScores)
      requires 0.0 <= draw < 1.0
      modifies this
      ensures Valid()
      ensures State() == Start(old(State()), level, SecretFromDraw(draw, Config(level).max))
      ensures currentLevel == Some(level) && !finished
      ensures maxNumber == Config(level).max && attemptsRemaining == Config(level).attempts
      ensures guessHistory == [] && 1 <= secretNumber <= maxNumber
      ensures bestScores == old(bestScores)
    {
      currentLevel := Some(level);
      var config := Config(level);
      maxNumber := config.max;
      attemptsRemaining := config.attempts;
      secretNumber := SecretFromDraw(draw, maxNumber);
      guessHistory := [];
      finished := false;
    }

    /** `makeGuess()` on the parsed input (None for NaN). Only an enabled
        input can submit, so the game is not over. */
    method MakeGuess(g: Option<int>) returns (o: Outcome)
      requires Valid() && !finished
      modifies this
      ensures Valid()
      ensures Turn(State(), o) == Step(old(State()), g)
      ensures o.OutOfRange? || o.Duplicate? ==> State() == old(State())
      ensures finished <==> o.Win? || o.Lose?
      ensures secretNumber == old(secretNumber) && maxNumber == old(maxNumber)
      ensures currentLevel == old(currentLevel)
    {
      ghost var before := State();
      if g.None? || g.value < 1 || g.value > maxNumber {
        return OutOfRange;
      }
      var guess := g.value;
      if guess in guessHistory {
        return Duplicate;
      }

      guessHistory := guessHistory + [guess];
      attemptsRemaining := attemptsRemaining - 1;

      if guess == secretNumber {
        var level := currentLevel.value;
        var score := Config(level).attempts - attemptsRemaining;
        if NoPriorBest(bestScores, level) || score < bestScores[level].value {
          bestScores := bestScores[level := Some(score)];
        }
        o := Win(score);
        finished := true;
      } else if attemptsRemaining == 0 {
        o := Lose(secretNumber);
        finished := true;
      } else if guess > secretNumber {
        o := TooHigh(attemptsRemaining);
      } else {
        o := TooLow(attemptsRemaining);
      }
      assert Turn(State(), o) == Step(before, g);
      Properties.StepPreservesInv(before, g);
    }

    /** `resetGame()`: enable the input and start the current level again.
        It is reachable only from the game screen, after a level was chosen. */
    method ResetGame(draw: real)
      requires Valid() && currentLevel.Some?
      requires 0.0 <= draw < 1.0
      modifies this
      ensures Valid()
      ensures State() == Start(old(State()), old(currentLevel).value,
                               SecretFromDraw(draw, Config(old(currentLevel).value).max))
    {
      finished := false;
      StartGame(currentLevel.value, draw);
    }
  }
}
