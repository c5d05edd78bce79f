/** Whole sessions: the page's user events applied one after another to the
    state, from page load on. A guess typed while the input is disabled
    (after a win or a loss) produces no event, so it changes nothing. */
module Runs {
  import opened Wrappers
  import opened Levels
  import opened Rules
  import opened Properties

  /** A level button with the draw of `Math.random()` it uses, the reset
      button with its draw, or Enter in the guess input with the parsed value. */
  datatype Event =
    | Begin(level: Level, draw: real)
    | Restart(draw: real)
    | Enter(input: Option<int>)

  predicate DrawOk(e: Event)
  {
    match e
    case Begin(_, r) => 0.0 <= r < 1.0
    case Restart(r) => 0.0 <= r < 1.0
    case Enter(_) => true
  }

  predicate DrawsOk(evs: seq<Event>)
  {
    forall i :: 0 <= i < |evs| ==> DrawOk(evs[i])
  }

  /** One event. A reset before any level was chosen fails in the source
      before it changes anything, so it leaves the state as it is; so does
      Enter while the input is disabled. */
  function Apply(s: Game, e: Event): (t: Game)
    requires Inv(s) && DrawOk(e)
    ensures Inv(t)
    ensures BestNoWorse(s.best, t.best)
    ensures e.Restart? && s.level.None? ==> t == s
    ensures e.Enter? && s.finished ==> t == s
  {
    match e
    case Begin(level, r) =>
      var secret := SecretFromDraw(r, Config(level).max);
      StartResets(s, level, secret);
      Start(s, level, secret)
    case Restart(r) =>
      if s.level.None? then s
      else
        var secret := SecretFromDraw(r, Config(s.level.value).max);
        StartResets(s, s.level.value, secret);
        Start(s, s.level.value, secret)
    case Enter(g) =>
      if s.finished then s
      else
        StepPreservesInv(s, g);
        BestScoreOnlyImproves(s, g);
        Step(s, g).after
  }

  /** The state after a sequence of events. Every state along the way keeps
      the invariant, and no level's best score ever gets worse. */
  function Run(s: Game, evs: seq<Event>): (t: Game)
    requires Inv(s) && DrawsOk(evs)
    ensures Inv(t)
    ensures BestNoWorse(s.best, t.best)
    decreases |evs|
  {
    if evs == [] then s
    else
      assert DrawOk(evs[0]);
      Run(Apply(s, evs[0]), evs[1..])
  }

  predicate OnlyGuesses(evs: seq<Event>)
  {
    forall i :: 0 <= i < |evs| ==> evs[i].Enter?
  }

  /** Win and Lose are terminal: once the game is over, guesses change
      nothing until a level or the reset button is pressed. */
  lemma {:induction false} FinishedIsTerminal(s: Game, evs: seq<Event>)
    requires Inv(s) && s.finished && OnlyGuesses(evs)
    ensures DrawsOk(evs) && Run(s, evs) == s
    decreases |evs|
  {
    if evs != [] {
      assert evs[0].Enter?;
      FinishedIsTerminal(s, evs[1..]);
    }
  }

  /** Within one game the level, the range and the secret stay fixed, the
      history only grows at its end, and every accepted guess used one attempt. */
  lemma {:induction false} GuessesKeepTheGame(s: Game, evs: seq<Event>)
    requires Inv(s) && OnlyGuesses(evs)
    ensures DrawsOk(evs)
    ensures var t := Run(s, evs);
      && t.level == s.level && t.max == s.max && t.secret == s.secret
      && s.history <= t.history
      && t.remaining == s.remaining - (|t.history| - |s.history|)
    decreases |evs|
  {
    if evs != [] {
      assert evs[0].Enter?;
      var s1 := Apply(s, evs[0]);
      GuessKeepsTheGame(s, evs[0].input);
      GuessesKeepTheGame(s1, evs[1..]);
      assert Run(s, evs) == Run(s1, evs[1..]);
    }
  }

  /** One guess event keeps the level, the range and the secret, and appends
      at most one guess, paid for with one attempt. */
  lemma GuessKeepsTheGame(s: Game, g: Option<int>)
    requires Inv(s)
    ensures var t := Apply(s, Enter(g));
      && t.level == s.level && t.max == s.max && t.secret == s.secret
      && s.history <= t.history && |t.history| <= |s.history| + 1
      && t.remaining == s.remaining - (|t.history| - |s.history|)
  {
  }

  /** Every secret in 1..max is drawn by some value of `Math.random()`. */
  lemma DrawReachesEverySecret(secret: int, max: int)
    requires 1 <= secret <= max
    ensures var r := (secret - 1) as real / max as real;
      0.0 <= r < 1.0 && SecretFromDraw(r, max) == secret
  {
  }
}
