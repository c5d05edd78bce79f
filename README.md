# Number guessing game: the guess-evaluation state machine

This project models, in Dafny, the rules of a single-page number guessing game
(`app.js`). The player picks a difficulty and gets a secret number in `1..max`.
They then guess within an attempt budget. Each guess is rejected, is too high,
is too low, wins or loses. The game keeps a best score per difficulty for as
long as the page is open.

The model has these parts:

- `levels.dfy` (module `Levels`): the three difficulties with their range and budget (`levelConfig`).
- `rules.dfy` (module `Rules`): the session state as a value (`Game`: the module-level globals plus
  whether the guess input is disabled), the `Outcome` of a guess, and the
  functions `Start` (`startGame` once the secret is drawn), `Step` (`makeGuess`), `RecordWin`
  (the best-score update), `SecretFromDraw` (the secret drawn from `Math.random()`) and the invariant `Inv`.
- `properties.dfy` (module `Properties`): what one start or one guess does, as lemmas on `Start` and `Step`.
- `session.dfy` (module `Sessions`): class `Session`, which holds the same globals as mutable
  fields. Its methods `StartGame`, `MakeGuess` and `ResetGame` update the fields in place, in the source's order.
  Each method's contract ties the new fields to `Start`/`Step` of the old ones and keeps `Inv`.
- `runs.dfy` (module `Runs`): whole sessions as sequences of user events (a level button, the reset button,
  Enter in the guess input). It has lemmas that hold over every such sequence.
- `examples.dfy` (module `Examples`): two complete games worked through on the rules, and one on a `Session` object.

The guess input is abstracted: `parseInt` becomes `Option<int>`, with `None` standing for NaN.
`Math.random()` becomes a parameter `draw` in `[0, 1)`. The win and loss branches disable the input
field; the model keeps this as the `finished` flag. `MakeGuess` requires the flag to be clear,
because a disabled input cannot submit. In a run of events, Enter while the game is over changes nothing.

JavaScript's `!bestScores[level]` is true for `null`, for a missing key and for `0`. The model keeps
all three cases (`NoPriorBest`). The invariant shows that a stored best score is always between 1 and the
budget, so in practice only "no score yet" applies.

## Model

| member | source | states |
|---|---|---|
| Levels.Config | app.js:12-16 | every difficulty has a non-empty range and an attempt budget that is positive and smaller than the range |
| Rules.Loaded | app.js:1-10 | the page-load state has no level and no best scores, and satisfies the invariant |
| Rules.SecretFromDraw | app.js:164 | `floor(r * max) + 1` for `r` in `[0, 1)` is a secret in `1..max` |
| Rules.RecordWin | app.js:207-211 | on a win the level's best becomes the score when there is no prior best (null, missing or 0), else the minimum of the prior best and the score; other levels' entries are untouched |
| Rules.Start | app.js:158-165 | `startGame(level)` once the secret is drawn; it has no contract of its own, and `Properties.StartResets` and `Sessions.Session.StartGame` state what it does |
| Rules.Step | app.js:181-240 | `makeGuess()` on the parsed input; it has no contract of its own, and the Properties lemmas specify it (`OutOfRangeChangesNothing`, `DuplicateChangesNothing`, `AcceptedGuessRecorded`, `StepPreservesInv`, `WinExactlyOnSecret`, `LastAttemptWins`, `LoseExactlyOnLastWrongGuess`, `TooHighOrTooLow`, `TerminalOutcomes`, `BestScoreOnlyImproves`) |
| Properties.StartResets | app.js:158-165 | after `startGame(level)`: the level's max and budget, an empty history, the secret in `1..max`, best scores unchanged, input enabled, invariant established |
| Properties.OutOfRangeChangesNothing | app.js:186-191 | NaN, or a number below 1 or above max, gives OutOfRange and leaves the whole state unchanged |
| Properties.DuplicateChangesNothing | app.js:193-198 | a number already in the history gives Duplicate and leaves the whole state unchanged |
| Properties.AcceptedGuessRecorded | app.js:200-201 | an accepted guess is appended to the end of the history and costs exactly one attempt; the level, the range and the secret are kept, and other levels' best scores are untouched |
| Properties.StepPreservesInv | app.js:186-236 | a guess on a running game keeps the invariant: attempts left + history length = the level's budget, history duplicate-free and within `1..max`, the game is over exactly when the secret was guessed (as the last guess) or no attempts are left |
| Properties.WinExactlyOnSecret | app.js:206-212 | on a running game the outcome is Win exactly when the guess equals the secret, and the score `attempts - attemptsRemaining` equals the history length shown in the message |
| Properties.LastAttemptWins | app.js:206-220 | the win test precedes the zero-attempts test: guessing the secret with one attempt left wins, with the whole budget as score |
| Properties.LoseExactlyOnLastWrongGuess | app.js:220-224 | the outcome is Lose exactly when an accepted guess is wrong and used the last attempt; it reveals the secret |
| Properties.TooHighOrTooLow | app.js:226-236 | an accepted wrong guess with attempts to spare is TooHigh when above the secret and TooLow when below it, reporting the attempts left, which are more than 0 |
| Properties.TerminalOutcomes | app.js:206-236 | the input is disabled after a guess exactly when the outcome is Win or Lose |
| Properties.BestScoreOnlyImproves | app.js:207-211 | a guess never makes any level's best score worse; the best score changes only on a win whose score is strictly below the prior best (or when there is none), and then only for the current level |
| Runs.Apply | app.js:252-255 | one user event (start a level, reset, or a guess) keeps the invariant and never makes a best score worse; a reset before any level is chosen changes nothing, and neither does Enter while the input is disabled |
| Runs.Run | app.js:158-255 | every sequence of user events from a valid state keeps the invariant and never makes any level's best score worse |
| Runs.FinishedIsTerminal | app.js:213-225 | once the input is disabled, any number of further guesses leaves the state unchanged; this follows from the disabled input dropping Enter events (`Runs.Apply`), and `Properties.TerminalOutcomes` says that the input is disabled exactly after Win or Lose |
| Runs.GuessesKeepTheGame | app.js:181-240 | during a game, guesses keep the level, the range and the secret; the history only grows at its end, and each added guess used one attempt |
| Runs.DrawReachesEverySecret | app.js:164 | every number in `1..max` is the secret for some draw of `Math.random()` |
| Sessions.Session.constructor | app.js:1-10 | the fields start as the globals do on page load (`Rules.Loaded`) |
| Sessions.Session.StartGame | app.js:158-177 | sets the level, max and attempts from the table, draws the secret in `1..max`, empties the history, enables the input, keeps best scores; equals `Rules.Start` of the old state |
| Sessions.Session.MakeGuess | app.js:181-240 | validates, records and classifies the guess in place; the new fields and the outcome are `Rules.Step` of the old fields; rejected guesses change nothing; the game is over exactly after Win or Lose; the invariant is kept |
| Sessions.Session.ResetGame | app.js:252-255 | enables the input and restarts the current level with a new secret, keeping best scores |
| Examples.BeginnerGame | app.js:181-240 | beginner with secret 27: 10 → TooLow(9), 40 → TooHigh(8), 27 → Win(3), and 3 becomes the best score |
| Examples.HardGame | app.js:181-240 | hard with secret 5: 1, 2, 3, 4 → TooLow(4..1), a repeat and NaN cost nothing, 6 → Lose(5) with no attempts left and best scores unchanged |

## Left out

- Sound synthesis (`playSound`, app.js:21-89): Web Audio calls with floating-point frequencies and envelopes.
- Confetti (`createConfetti`, app.js:92-142): canvas drawing driven by `requestAnimationFrame` and random floats.
- `toggleTheme`, `updateHistory`, `backToMenu` and all element text and style updates: DOM work that changes none of the game's state.
  `backToMenu` only switches screens, so a run of events has no event for it.
- Message strings and the "try"/"tries" plural: display text. The model returns an `Outcome` instead.
- The level titles in `levelConfig`: display text.
- `parseInt` string parsing (app.js:183): the input is modelled as an already-parsed optional integer.
- Rules.SecretFromDraw: treats the `Math.random()` value as an exact real. The rounding of the double product `r * max` is not modelled.
  The uniformity of the draw is not modelled either; `Runs.DrawReachesEverySecret` states only that every secret can occur.
- Event listener wiring (app.js:262-273): modelled only as the sequence of events in `Runs`. The resize handler is presentation.
- Sessions.Session.MakeGuess: requires the input to be enabled (`!finished`). After a Win or a Lose, app.js disables the input
  (lines 215 and 224) and clears it (line 238). A later call would read `''`, which parses to NaN, and would return at line 186
  with no state change. The class leaves that case out. `Rules.Step` is defined on every valid state and gives that behaviour.
- Sessions.Session.ResetGame: requires a level to have been chosen. The reset button is only on the game screen.
  Before any `startGame`, `resetGame` sets `currentLevel = ''` again (line 159). `levelConfig['']` is then `undefined`,
  and reading `config.max` (line 162) throws a TypeError. `Runs.Apply` treats that reset as leaving the state unchanged.
