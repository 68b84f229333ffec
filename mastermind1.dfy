/**
 * The in-memory game of mastermind1.py. Besides the answer and the two
 * flags it keeps three lists that grow with every guess (the guesses, oldest
 * first, and the feedback sentences) and a stored count of guesses left,
 * which starts at ten and is decremented by every guess.
 */
module Mastermind1 {
  import opened Scoring
  import opened Rules
  import FeedbackText

  /**
   * count is the length of the answer; the guesses left and the guesses
   * made add up to ten; there is one feedback sentence per guess, the one it
   * earns; the game is won exactly when the answer was guessed and over
   * exactly when it was won or no guess is left.
   */
  ghost predicate Consistent(count: nat, answer: seq<int>, hasWon: bool, gameOver: bool,
                             history: seq<seq<int>>, feedback: seq<string>, remainingGuesses: int)
  {
    && count == |answer|
    && remainingGuesses + |history| == MaxGuesses
    && |feedback| == |history|
    && (forall k :: 0 <= k < |history| ==>
          |history[k]| <= |answer| && feedback[k] == FeedbackFor(history[k], answer))
    && (hasWon <==> answer in history)
    && (hasWon ==> gameOver)
    && (remainingGuesses <= 0 ==> gameOver)
    && (gameOver ==> hasWon || remainingGuesses <= 0)
  }

  /** Recording a guess the way handle_guess does keeps the fields Consistent. */
  lemma GuessKeepsConsistent(count: nat, answer: seq<int>, hasWon: bool, gameOver: bool,
                             history: seq<seq<int>>, feedback: seq<string>, remainingGuesses: int,
                             guess: seq<int>)
    requires Consistent(count, answer, hasWon, gameOver, history, feedback, remainingGuesses)
    requires |guess| <= |answer|
    ensures Consistent(count, answer, hasWon || guess == answer,
                       gameOver || remainingGuesses - 1 == 0 || guess == answer,
                       history + [guess], feedback + [FeedbackFor(guess, answer)], remainingGuesses - 1)
  {
    assert forall k :: 0 <= k < |history| ==> (history + [guess])[k] == history[k];
  }

  class Mastermind {
    var count: nat
    var answer: seq<int>
    var hasWon: bool
    var gameOver: bool
    /** Oldest guess first. */
    var guessedNumsHistory: seq<seq<int>>
    var feedback: seq<string>
    var remainingGuesses: int

    /** The fields are Consistent. */
    ghost predicate Valid()
      reads this
    {
      Consistent(count, answer, hasWon, gameOver, guessedNumsHistory, feedback, remainingGuesses)
    }

    /** A new game over a secret of count numbers, with ten guesses left. */
    constructor (count: nat, secret: seq<int>)
      requires |secret| == count
      ensures Valid()
      ensures this.count == count && answer == secret
      ensures !hasWon && !gameOver
      ensures guessedNumsHistory == [] && feedback == []
      ensures remainingGuesses == MaxGuesses
    {
      this.count := count;
      answer := secret;
      hasWon := false;
      gameOver := false;
      guessedNumsHistory := [];
      feedback := [];
      remainingGuesses := 10;
    }

    /** Scores a guess against the answer without changing the game. */
    method ScoreGuess(guessedNums: seq<int>) returns (score: ScoreResult)
      requires Valid()
      requires |guessedNums| <= |answer|
      ensures score == Expected(guessedNums, answer)
      ensures score.won <==> guessedNums == answer
    {
      score := Score(answer, count, guessedNums);
      if guessedNums == answer {
        FastPathAgrees(answer, count);
      }
    }

    /**
     * Scores a guess, appends it and its sentence, uses up one guess, and
     * ends the game when the count reaches zero or the guess is the answer.
     */
    method HandleGuess(guessedNums: seq<int>)
      requires Valid()
      requires |guessedNums| <= |answer|
      modifies this
      ensures Valid()
      ensures count == old(count) && answer == old(answer)
      ensures guessedNumsHistory == old(guessedNumsHistory) + [guessedNums]
      ensures feedback == old(feedback) + [FeedbackFor(guessedNums, answer)]
      ensures remainingGuesses == old(remainingGuesses) - 1
      ensures hasWon == (old(hasWon) || guessedNums == answer)
      ensures gameOver == (old(gameOver) || remainingGuesses == 0 || guessedNums == answer)
      ensures !old(gameOver) ==> remainingGuesses >= 0
    {
      var score := ScoreGuess(guessedNums);
      GuessKeepsConsistent(count, answer, hasWon, gameOver, guessedNumsHistory, feedback, remainingGuesses, guessedNums);
      guessedNumsHistory := guessedNumsHistory + [guessedNums];
      feedback := feedback + [FeedbackText.Text(score.correctNums, score.correctLocations)];
      remainingGuesses := remainingGuesses - 1;
      if remainingGuesses == 0 {
        gameOver := true;
      }
      if score.won {
        gameOver := true;
        hasWon := true;
      }
    }
  }

  /**
   * Plays a sequence of guesses on a new game: the history is the guesses,
   * the game is won exactly when the secret was among them, and it is over
   * exactly when it was won or ten guesses were made, so a winning tenth
   * guess counts as a win.
   */
  method Play(secret: seq<int>, guesses: seq<seq<int>>) returns (game: Mastermind)
    requires forall k :: 0 <= k < |guesses| ==> |guesses[k]| <= |secret|
    ensures game.Valid() && game.answer == secret
    ensures game.guessedNumsHistory == guesses
    ensures game.remainingGuesses == MaxGuesses - |guesses|
    ensures game.hasWon <==> secret in guesses
    ensures game.gameOver <==> secret in guesses || |guesses| >= MaxGuesses
  {
    game := new Mastermind(|secret|, secret);
    var i := 0;
    while i < |guesses|
      invariant 0 <= i <= |guesses|
      invariant game.Valid() && game.answer == secret
      invariant game.guessedNumsHistory == guesses[..i]
    {
      game.HandleGuess(guesses[i]);
      assert guesses[..i + 1] == guesses[..i] + [guesses[i]];
      i := i + 1;
    }
    assert guesses[..i] == guesses;
  }
}
