/** What one call of `startGame` or `makeGuess` does, stated on the snapshot
    functions of module Rules. */
module Properties {
  import opened Wrappers
  import opened Levels
  import opened Rules

  /** The input passes both validation checks of `makeGuess`. */
  predicate Accepted(s: Game, g: Option<int>)
  {
    g.Some? && 1 <= g.value <= s.max && g.value !in s.history
  }

  /** A game in progress: a level is chosen and the input is enabled. */
  predicate Running(s: Game)
  {
    Inv(s) && s.level.Some? && !s.finished
  }

  /** No level's best score got worse (higher, or lost) from `a` to `b`. */
  predicate BestNoWorse(a: map<Level, Option<int>>, b: map<Level, Option<int>>)
  {
    forall l :: l in a && a[l].Some? ==> l in b && b[l].Some? && b[l].value <= a[l].value
  }

  /** After `startGame(level)` the range and budget are the level's, the
      history is empty, the secret is in range, the best scores are kept and
      the invariant holds. */
  lemma StartResets(s: Game, level: Level, secret: int)
    requires BestValid(s.best)
    requires 1 <= secret <= Config(level).max
    ensures var t := Start(s, level, secret);
      && t.level == Some(level)
      && t.max == Config(level).max && t.remaining == Config(level).attempts
      && t.history == [] && 1 <= t.secret <= t.max
      && t.best == s.best && !t.finished
      && Inv(t)
  {
  }

  /** NaN or a number outside 1..max is reported and changes nothing. */
  lemma OutOfRangeChangesNothing(s: Game, g: Option<int>)
    requires s.level.Some? || s.max < 1
    requires g.None? || g.value < 1 || g.value > s.max
    ensures Step(s, g) == Turn(s, OutOfRange)
  {
  }

  /** A number already tried is reported and changes nothing. */
  lemma DuplicateChangesNothing(s: Game, g: Option<int>)
    requires s.level.Some? || s.max < 1
    requires g.Some? && 1 <= g.value <= s.max && g.value in s.history
    ensures Step(s, g) == Turn(s, Duplicate)
  {
  }

  /** An accepted guess is appended to the history and costs exactly one
      attempt; the level, range and secret stay as they were, and only the
      current level's best score can change. */
  lemma AcceptedGuessRecorded(s: Game, g: Option<int>)
    requires s.level.Some?
    requires Accepted(s, g)
    ensures var t := Step(s, g).after;
      && t.history == s.history + [g.value]
      && t.remaining == s.remaining - 1
      && t.level == s.level && t.max == s.max && t.secret == s.secret
      && forall l :: l in s.best && l != s.level.value ==> l in t.best && t.best[l] == s.best[l]
  {
  }

  /** A guess on a running game keeps the invariant: the budget split, the
      duplicate-free in-range history and the meaning of `finished`. */
  lemma StepPreservesInv(s: Game, g: Option<int>)
    requires Inv(s) && !s.finished
    ensures Inv(Step(s, g).after)
  {
    // The appended guess is new, so the longer history stays duplicate-free.
    if s.level.Some? && Accepted(s, g) {
      var h := s.history + [g.value];
      forall i, j | 0 <= i < j < |h| ensures h[i] != h[j] {
        if j == |s.history| {
          assert h[i] == s.history[i];
        }
      }
    }
  }

  /** On a running game the outcome is Win exactly when the guess is the
      secret; the score is then the number of guesses in the history, so a
      win on the very last attempt scores the whole budget. */
  lemma WinExactlyOnSecret(s: Game, g: Option<int>)
    requires Running(s)
    ensures Step(s, g).outcome.Win? <==> g == Some(s.secret)
    ensures Step(s, g).outcome.Win? ==>
      Step(s, g).outcome.score == |Step(s, g).after.history| >= 1
  {
  }

  /** The win test comes before the zero-attempts test: the secret guessed
      with one attempt left wins, with the whole budget as score. */
  lemma LastAttemptWins(s: Game)
    requires Running(s) && s.remaining == 1
    ensures Step(s, Some(s.secret)).outcome == Win(Config(s.level.value).attempts)
  {
  }

  /** On a running game the outcome is Lose exactly when an accepted guess is
      wrong and used the last attempt; the secret is revealed. */
  lemma LoseExactlyOnLastWrongGuess(s: Game, g: Option<int>)
    requires Running(s)
    ensures Step(s, g).outcome.Lose? <==> Accepted(s, g) && g.value != s.secret && s.remaining == 1
    ensures Step(s, g).outcome.Lose? ==> Step(s, g).outcome.secret == s.secret
  {
  }

  /** Otherwise an accepted wrong guess is too high or too low, reporting the
      attempts left, which are then more than zero. */
  lemma TooHighOrTooLow(s: Game, g: Option<int>)
    requires Running(s)
    ensures Step(s, g).outcome.TooHigh? <==> Accepted(s, g) && g.value > s.secret && s.remaining > 1
    ensures Step(s, g).outcome.TooLow? <==> Accepted(s, g) && g.value < s.secret && s.remaining > 1
    ensures Step(s, g).outcome.TooHigh? ==>
      Step(s, g).outcome.remaining == Step(s, g).after.remaining > 0
    ensures Step(s, g).outcome.TooLow? ==>
      Step(s, g).outcome.remaining == Step(s, g).after.remaining > 0
  {
  }

  /** Win and Lose are exactly the outcomes that end the game (disable the
      input); OutOfRange and Duplicate leave a running game running. */
  lemma TerminalOutcomes(s: Game, g: Option<int>)
    requires Running(s)
    ensures Step(s, g).after.finished <==> Step(s, g).outcome.Win? || Step(s, g).outcome.Lose?
  {
  }

  /** The best score of the current level changes only on a win whose score
      beats the prior best (or when there is none); it never gets worse, and
      no other level's best score changes. */
  lemma BestScoreOnlyImproves(s: Game, g: Option<int>)
    requires Inv(s) && !s.finished
    ensures var t := Step(s, g);
      && t.after.best.Keys == s.best.Keys
      && BestNoWorse(s.best, t.after.best)
      && (forall l :: l in s.best && Some(l) != s.level ==> t.after.best[l] == s.best[l])
      && (t.after.best != s.best ==>
            && t.outcome.Win?
            && (s.best[s.level.value].None? || t.outcome.score < s.best[s.level.value].value)
            && t.after.best == s.best[s.level.value := Some(t.outcome.score)])
  {
  }
}
