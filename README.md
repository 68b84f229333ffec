# Mastermind game core in Dafny

This project models the game logic of a web Mastermind game. The player tries
to find a hidden sequence of numbers and has ten guesses. Each guess is scored
against the answer in three ways:

- **correct locations**: the positions where the guess holds the answer's value;
- **correct numbers**: the guessed values found anywhere in the answer, each
  value credited at most as often as it occurs in the answer;
- **won**: set only when the guess equals the answer.

The score is reported as "All incorrect." or as
"<n> correct number(s) and <m> correct location(s).".

The repository holds the game twice:

- `mastermind.py` (`MastermindGame`) keeps its guesses as database rows. It
  derives the number of guesses left as ten minus the length of that history.
- `mastermind1.py` (`Mastermind`) keeps in-memory lists and a stored counter
  of guesses left.

The modules are:

- `Scoring` (`scoring.dfy`): the duplicate-aware `score_guess`, shared by both
  files. It is an imperative method over a map of per-value counters. It is
  proved equal to a specification: correct numbers are the size of the multiset
  intersection of guess and answer (per value, the smaller of the two
  frequencies), and correct locations are the count of matching positions.
- `FeedbackText` (`feedback.dfy`): the feedback sentence, with decimal
  notation for the counts.
- `Rules` (`rules.dfy`): the ten-guess limit and the sentence a guess earns.
- `Mastermind` (`mastermind_game.dfy`): the class of `mastermind.py`. Its
  history lists the newest guess first, because the relationship is ordered by
  timestamp, descending.
- `Mastermind1` (`mastermind1.dfy`): the class of `mastermind1.py`. Its
  history lists the oldest guess first.
- `Reversal` (`reversal.dfy`): reversing a sequence, which relates the two
  history orders.
- `Agreement` (`agreement.dfy`): the two classes are in agreement. With the same
  answer and the same guesses they hold the same flags. The derived count of
  guesses left equals the stored one. The derived feedback list is the stored
  one reversed.

Both game classes keep a class invariant, `Valid`. It says:

- the stored count of numbers is the answer's length;
- every recorded guess carries the score it earns;
- the game is won exactly when the answer was guessed;
- the game is over exactly when it was won or no guesses are left.

`HandleGuess` has no precondition that the game is still running. Neither
class checks this, and the web handler calls `handle_guess` without checking
it either (app.py:116-128). Instead, the contract states that the count of
guesses left does not go negative while the game is running.

## Model

| member | source | states |
|---|---|---|
| Scoring.Score | mastermind.py:196-297 | A guess equal to the answer scores (won, count, count). Any other guess scores not-won. Its correct numbers are the size of the multiset intersection of guess and answer, and its correct locations are the count of matching positions. |
| Scoring.TallyCounters | mastermind.py:228-287 | The counter map's keys are exactly the answer's values. For each value, the number counter is the smaller of its frequencies in the guess and in the answer. The location counter is the number of positions where the guess holds that value and matches the answer. |
| Scoring.SumCounters | mastermind.py:289-291 | Summing the counters over the keys, in any order, gives the sizes of the two multisets they tally. |
| Scoring.CountersAfterMeaning | mastermind.py:266-287 | After any prefix of the guess, the counter map holds per value the capped credit and the positional matches of that prefix. This is the loop's invariant. |
| Scoring.HitsCountsMatchingIndices | mastermind.py:268-275 | The correct-location count equals the number of indices i with guess[i] == answer[i]. |
| Scoring.CreditPerValue | mastermind.py:271-285 | Each value's number credit is min(frequency in guess, frequency in answer). A value absent from the answer earns none. No value earns more than its frequency in the answer. |
| Scoring.CountsBounded | mastermind.py:266-291 | correct locations <= correct numbers <= length of the guess |
| Scoring.HitValuesWithinAnswer | mastermind.py:268-275 | The values matched in place are drawn from the guess, from the answer's aligned prefix and from the credited numbers. |
| Scoring.AllLocationsIffEqual | mastermind.py:268-275 | Every position is a correct location exactly when the guess equals the answer's prefix of its length. |
| Scoring.WonIffAllLocations | mastermind.py:214-222 | For a guess as long as the answer: won exactly when every location is correct. |
| Scoring.FastPathAgrees | mastermind.py:214-220 | The fast path's (true, num_count, num_count) is the general score of a guess equal to the answer, given num_count is the answer's length. |
| Scoring.ExampleDocstring | mastermind.py:201-211 | [1,2,3,4] against [1,5,7,8] scores 1 number, 1 location. |
| Scoring.ExampleDuplicatesCapped | mastermind.py:251-252 | [4,4,1,2] against [1,4,1,4] scores 3 numbers, 2 locations. |
| Scoring.ExampleFourFours | mastermind.py:260-261 | [4,4,4,4] against [1,4,1,4] scores 2 numbers, 2 locations. |
| Scoring.ExampleNoFalseCredit | mastermind.py:263-264 | [2,2,1,1] against [0,1,3,5] scores 1 number, 0 locations. |
| Scoring.ExampleWrongGuess | test_mastermind.py:51-62 | [1,7,6,4] against [1,1,2,4] scores 2 numbers, 2 locations. |
| Scoring.ExampleRepeatedGuess | test_mastermind.py:77-87 | [1,1,1,1] against [1,1,2,4] scores 2 numbers, 2 locations: the answer holds 1 only twice. |
| Scoring.ExampleExactMatch | test_mastermind.py:64-75 | [1,1,2,4] against itself scores won, 4, 4. |
| Scoring.ExampleAllIncorrect | mastermind.py:266-297 | [0,0,0,0] against [1,2,3,4] scores 0 numbers, 0 locations. |
| FeedbackText.NatToString | mastermind.py:194 | The decimal notation of a count is a non-empty string of digits. It starts with '0' only for zero. |
| FeedbackText.ParseNatToString | mastermind.py:194 | Reading the decimal notation back gives the count. |
| FeedbackText.Text | mastermind.py:175-194 | The sentence is "All incorrect." exactly when both counts are zero (both directions). mastermind1.py's `_generate_feedback` (mastermind1.py:99-105) builds the same sentence. |
| FeedbackText.TextInjective | mastermind1.py:99-105 | Different scores give different sentences. |
| FeedbackText.ExampleTwoAndTwo | mastermind.py:182-187 | The score (2, 2) reads "2 correct number(s) and 2 correct location(s).". |
| FeedbackText.ExampleTwoDigits | mastermind.py:194 | The score (12, 0) reads "12 correct number(s) and 0 correct location(s).". |
| Rules.AllIncorrectIffNothingShared | mastermind.py:175-194 | A guess is told "All incorrect." exactly when none of its values occurs in the answer. |
| Rules.ExampleNothingSharedFeedback | mastermind.py:191-192 | [0,0,0,0] against [1,2,3,4] is told "All incorrect.". |
| Mastermind.MastermindGame.constructor | mastermind.py:71-81 | A new game holds the secret and its length. It is not won and not over, has an empty history and ten guesses left. |
| Mastermind.MastermindGame.RemainingGuesses | mastermind.py:147-153 | Never more than ten. In a consistent game that was not won, the guesses left are used up (at most zero) exactly when the game is over. |
| Mastermind.MastermindGame.ScoreGuess | mastermind.py:196-297 | The score is the specified score. It is won exactly when the guess is the answer. |
| Mastermind.MastermindGame.HandleGuess | mastermind.py:111-145 | The invariant is kept. One scored row is put at the head of the history, so one fewer guess is left. The game is won if it was won or the guess is the answer. It is over if it was over, no guess is left, or the guess is the answer. Guesses left stay >= 0 while the game runs. |
| Mastermind.GuessKeepsConsistent | mastermind.py:130-145 | Recording a guess as handle_guess does keeps the invariant. |
| Mastermind.MastermindGame.Feedback | mastermind.py:155-173 | One sentence per history row, in history order, each the sentence its guess earns. "All incorrect." marks exactly the guesses sharing no value with the answer. The game is not changed. |
| Mastermind.OverIffWonOrExhausted | mastermind.py:140-153 | A game is over exactly when it was won or ten guesses were made. |
| Mastermind.Play | mastermind.py:111-153 | After any guesses on a new game, the history holds them newest first. The game is won exactly when the secret was guessed. It is over exactly when it was won or ten guesses were made, so a winning tenth guess is a win. |
| Mastermind.ExampleHandleGuess | test_mastermind.py:77-87 | A new game over [1,1,2,4] given [1,1,1,1] is consistent and holds the one row ([1,1,1,1], 2, 2). Nine guesses are left, the game is neither won nor over, and its feedback is the one sentence "2 correct number(s) and 2 correct location(s).". |
| Mastermind1.Mastermind.constructor | mastermind1.py:9-19 | A new game holds the secret and its length. It is not won and not over, has empty history and feedback lists, and 10 guesses left. |
| Mastermind1.Mastermind.ScoreGuess | mastermind1.py:107-208 | The score is the specified score. It is won exactly when the guess is the answer. |
| Mastermind1.Mastermind.HandleGuess | mastermind1.py:48-81 | The invariant is kept. One guess is appended, and so is the sentence it earns. The counter drops by exactly one. The game is won if it was won or the guess is the answer. It is over if it was over, the counter reached 0, or the guess is the answer. The counter stays >= 0 while the game runs. |
| Mastermind1.GuessKeepsConsistent | mastermind1.py:68-81 | Recording a guess as handle_guess does keeps the invariant. That includes counter + history length == 10 and one feedback sentence per guess. |
| Mastermind1.Play | mastermind1.py:48-81 | After any guesses on a new game, the history is those guesses and 10 minus their number are left. The game is won exactly when the secret was guessed. It is over exactly when it was won or ten guesses were made. |
| Agreement.SameGuessesAgree | mastermind.py:147-153 | Take two consistent games, one of each class, with the same answer and the same guesses. They agree on the flags. The derived count of guesses left equals the stored counter. |
| Agreement.HandleBoth | mastermind1.py:68-81 | Giving the same guess to two agreeing games puts its scored row at the head of one history and appends the guess and its sentence to the other. The stored counter drops by one, and the games still agree. |
| Agreement.FeedbackAgrees | mastermind.py:155-173 | The feedback list derived by mastermind.py has one sentence per history row, the one that row's guess earns. It equals the list stored by mastermind1.py, reversed. |

## Left out

- Fetching the secret: `_fetch_random_nums` asks random.org over HTTP (mastermind.py:83-109, mastermind1.py:21-46). The model takes the secret as a constructor argument. Its length must equal the number count. Its values are not restricted to 0..7, because no modelled operation depends on that range.
- Persistence in mastermind.py is not modelled:
  - the SQLAlchemy columns and ids, and `__repr__`;
  - `db.session.add`, the database part of `generate_new_game`, and `Guess.generate_new_guess`;
  - the `occurred_at` timestamps and `connect_db`.

  The guess history is an in-memory sequence, and a new row enters it at once.
- Mastermind.MastermindGame.HandleGuess: the source links the new row to the game only by `game_id` (mastermind.py:133-138). Whether `remaining_guesses` at line 140 already counts it depends on when the database session flushes. The model counts it, as mastermind1.py does explicitly (mastermind1.py:69-77).
- Mastermind.MastermindGame: the history lists the newest guess first. This follows the relationship's descending timestamp order (mastermind.py:49-50), and it assumes that every guess is later than the one before.
- Scoring.Score requires the guess to be no longer than the answer. A longer guess makes the source index past the answer and raise an error, which the model does not represent. A shorter guess is handled as the source handles it.
- Scoring.SumCounters adds the counters in an unspecified key order. The source uses the dictionary's insertion order. The sums are the same.
- Integer widths: Python integers are unbounded, and so are Dafny's, so nothing wraps around.
- `app.py` and `test_app.py` are not modelled: routes, sessions, CSRF forms, parsing of form input and redirects. Only their calling pattern is used, namely that `handle_guess` is called without a game-over check.
- `validate_num` is not modelled. test_mastermind.py:89-96 calls it, but no source file in this model defines it.
