/**
 * The database-backed game of mastermind.py. A game stores its answer and
 * two flags; every guess becomes a row of its guess history, which lists the
 * newest guess first. The number of guesses left is not stored: it is ten
 * minus the length of the history.
 */
module Mastermind {
  import opened Scoring
  import opened Rules
  import opened Reversal
  import FeedbackText

  /** One row of the guesses table: the numbers guessed and their score. */
  datatype Guess = Guess(numbersGuessed: seq<int>, correctNumCount: nat, correctLocationCount: nat)

  /** The row recorded for a guess scored against the answer. */
  ghost function Record(guess: seq<int>, answer: seq<int>): Guess
    requires |guess| <= |answer|
  {
    var s := Expected(guess, answer);
    Guess(guess, s.correctNums, s.correctLocations)
  }

  /** The guesses of a history, in the history's order. */
  function Guesses(history: seq<Guess>): (guesses: seq<seq<int>>)
    ensures |guesses| == |history|
    ensures forall k :: 0 <= k < |history| ==> guesses[k] == history[k].numbersGuessed
  {
    if history == [] then [] else [history[0].numbersGuessed] + Guesses(history[1..])
  }

  lemma GuessesCons(row: Guess, history: seq<Guess>)
    ensures Guesses([row] + history) == [row.numbersGuessed] + Guesses(history)
  {
    assert ([row] + history)[1..] == history;
  }

  /** A row's sentence is the feedback its guess earns. */
  lemma RecordedFeedback(row: Guess, answer: seq<int>)
    requires |row.numbersGuessed| <= |answer| && row == Record(row.numbersGuessed, answer)
    ensures FeedbackText.Text(row.correctNumCount, row.correctLocationCount) == FeedbackFor(row.numbersGuessed, answer)
  {
  }

  /** Putting a scored row in front keeps every row scored and adds its guess to the guesses. */
  lemma RecordsExtended(history: seq<Guess>, row: Guess, answer: seq<int>)
    requires forall k :: 0 <= k < |history| ==>
               |history[k].numbersGuessed| <= |answer|
               && history[k] == Record(history[k].numbersGuessed, answer)
    requires |row.numbersGuessed| <= |answer| && row == Record(row.numbersGuessed, answer)
    ensures forall k :: 0 <= k < |[row] + history| ==>
              |([row] + history)[k].numbersGuessed| <= |answer|
              && ([row] + history)[k] == Record(([row] + history)[k].numbersGuessed, answer)
    ensures Guesses([row] + history) == [row.numbersGuessed] + Guesses(history)
  {
    GuessesCons(row, history);
  }

  /**
   * numCount is the length of the answer; every row holds the score its
   * guess earns; the game is won exactly when the answer was guessed; it is
   * over exactly when it was won or the guesses ran out.
   */
  ghost predicate Consistent(numCount: nat, answer: seq<int>, hasWon: bool, gameOver: bool, history: seq<Guess>)
  {
    && numCount == |answer|
    && (forall k :: 0 <= k < |history| ==>
          |history[k].numbersGuessed| <= |answer|
          && history[k] == Record(history[k].numbersGuessed, answer))
    && (hasWon <==> answer in Guesses(history))
    && (hasWon ==> gameOver)
    && (MaxGuesses - |history| <= 0 ==> gameOver)
    && (gameOver ==> hasWon || MaxGuesses - |history| <= 0)
  }

  /** Recording a guess the way handle_guess does keeps the fields Consistent. */
  lemma GuessKeepsConsistent(numCount: nat, answer: seq<int>, hasWon: bool, gameOver: bool, history: seq<Guess>, guess: seq<int>)
    requires Consistent(numCount, answer, hasWon, gameOver, history)
    requires |guess| <= |answer|
    ensures Consistent(numCount, answer, hasWon || guess == answer,
                       gameOver || MaxGuesses - (|history| + 1) == 0 || guess == answer,
                       [Record(guess, answer)] + history)
  {
    RecordsExtended(history, Record(guess, answer), answer);
  }

  class MastermindGame {
    var numCount: nat
    var answer: seq<int>
    var hasWon: bool
    var gameOver: bool
    /** Newest guess first. */
    var guessHistory: seq<Guess>

    /** The fields are Consistent. */
    ghost predicate Valid()
      reads this
    {
      Consistent(numCount, answer, hasWon, gameOver, guessHistory)
    }

    /** A new game over a secret of numCount numbers, as generate_new_game stores it. */
    constructor (numCount: nat, secret: seq<int>)
      requires |secret| == numCount
      ensures Valid()
      ensures this.numCount == numCount && answer == secret
      ensures !hasWon && !gameOver && guessHistory == []
      ensures RemainingGuesses() == MaxGuesses
    {
      this.numCount := numCount;
      answer := secret;
      hasWon := false;
      gameOver := false;
      guessHistory := [];
    }

    /**
     * The number of guesses left: ten minus the guesses made. It never
     * exceeds ten, and in a consistent game it is used up (at most zero)
     * exactly when the game is over without having been won.
     */
    function RemainingGuesses(): (remaining: int)
      reads this
      ensures remaining <= MaxGuesses
      ensures Valid() && !hasWon ==> (remaining <= 0 <==> gameOver)
    {
      MaxGuesses - |guessHistory|
    }

    /** Scores a guess against the answer without changing the game. */
    method ScoreGuess(guessedNums: seq<int>) returns (score: ScoreResult)
      requires Valid()
      requires |guessedNums| <= |answer|
      ensures score == Expected(guessedNums, answer)
      ensures score.won <==> guessedNums == answer
    {
      score := Score(answer, numCount, guessedNums);
      if guessedNums == answer {
        FastPathAgrees(answer, numCount);
      }
    }

    /**
     * Scores a guess, records it at the head of the history, and ends the
     * game when no guess is left or the guess is the answer.
     */
    method HandleGuess(numbersGuessed: seq<int>)
      requires Valid()
      requires |numbersGuessed| <= |answer|
      modifies this
      ensures Valid()
      ensures numCount == old(numCount) && answer == old(answer)
      ensures guessHistory == [Record(numbersGuessed, answer)] + old(guessHistory)
      ensures RemainingGuesses() == old(RemainingGuesses()) - 1
      ensures hasWon == (old(hasWon) || numbersGuessed == answer)
      ensures gameOver == (old(gameOver) || RemainingGuesses() == 0 || numbersGuessed == answer)
      ensures !old(gameOver) ==> RemainingGuesses() >= 0
    {
      var score := ScoreGuess(numbersGuessed);
      GuessKeepsConsistent(numCount, answer, hasWon, gameOver, guessHistory, numbersGuessed);
      var row := Guess(numbersGuessed, score.correctNums, score.correctLocations);
      assert row == Record(numbersGuessed, answer);
      guessHistory := [row] + guessHistory;
      if RemainingGuesses() == 0 {
        gameOver := true;
      }
      if score.won {
        gameOver := true;
        hasWon := true;
      }
    }

    /**
     * One sentence per recorded guess, newest first; "All incorrect." marks
     * exactly the guesses that share no value with the answer.
     */
    method Feedback() returns (feedback: seq<string>)
      requires Valid()
      ensures |feedback| == |guessHistory|
      ensures forall k :: 0 <= k < |guessHistory| ==>
                feedback[k] == FeedbackFor(guessHistory[k].numbersGuessed, answer)
      ensures forall k :: 0 <= k < |guessHistory| ==>
                (feedback[k] == FeedbackText.AllIncorrect <==> NothingShared(guessHistory[k].numbersGuessed, answer))
    {
      feedback := [];
      var i := 0;
      while i < |guessHistory|
        invariant 0 <= i <= |guessHistory|
        invariant |feedback| == i
        invariant forall k :: 0 <= k < i ==> feedback[k] == FeedbackFor(guessHistory[k].numbersGuessed, answer)
      {
        var guess := guessHistory[i];
        var text := FeedbackText.Text(guess.correctNumCount, guess.correctLocationCount);
        RecordedFeedback(guess, answer);
        feedback := feedback + [text];
        i := i + 1;
      }
      forall k | 0 <= k < |guessHistory|
        ensures feedback[k] == FeedbackText.AllIncorrect <==> NothingShared(guessHistory[k].numbersGuessed, answer)
      {
        AllIncorrectIffNothingShared(guessHistory[k].numbersGuessed, answer);
      }
    }
  }

  /** A game is over exactly when it was won or all ten guesses are used. */
  lemma OverIffWonOrExhausted(game: MastermindGame)
    requires game.Valid()
    ensures game.gameOver <==> game.hasWon || |game.guessHistory| >= MaxGuesses
  {
  }

  /**
   * Plays a sequence of guesses, oldest first, on a new game: the game is
   * won exactly when the secret was among them, and over exactly when it was
   * won or ten guesses were made, so a winning tenth guess counts as a win.
   */
  method Play(secret: seq<int>, guesses: seq<seq<int>>) returns (game: MastermindGame)
    requires forall k :: 0 <= k < |guesses| ==> |guesses[k]| <= |secret|
    ensures game.Valid() && game.answer == secret
    ensures Guesses(game.guessHistory) == Reverse(guesses)
    ensures game.hasWon <==> secret in guesses
    ensures game.gameOver <==> secret in guesses || |guesses| >= MaxGuesses
  {
    game := new MastermindGame(|secret|, secret);
    var i := 0;
    while i < |guesses|
      invariant 0 <= i <= |guesses|
      invariant game.Valid() && game.answer == secret
      invariant Guesses(game.guessHistory) == Reverse(guesses[..i])
    {
      ghost var before := game.guessHistory;
      game.HandleGuess(guesses[i]);
      GuessesCons(Record(guesses[i], secret), before);
      ReverseAppend(guesses[..i], guesses[i]);
      assert guesses[..i + 1] == guesses[..i] + [guesses[i]];
      i := i + 1;
    }
    assert guesses[..i] == guesses;
    ReverseMembers(guesses, secret);
    OverIffWonOrExhausted(game);
  }

  /**
   * A new game over [1, 1, 2, 4] given the guess [1, 1, 1, 1]: one scored
   * row is recorded, nine guesses remain, the game goes on, and its feedback
   * is one sentence reporting two numbers and two locations.
   */
  method ExampleHandleGuess() returns (game: MastermindGame, feedback: seq<string>)
    ensures game.Valid() && game.answer == [1, 1, 2, 4]
    ensures game.guessHistory == [Guess([1, 1, 1, 1], 2, 2)]
    ensures game.RemainingGuesses() == 9 && !game.gameOver && !game.hasWon
    ensures feedback == ["2 correct number(s) and 2 correct location(s)."]
  {
    game := new MastermindGame(4, [1, 1, 2, 4]);
    game.HandleGuess([1, 1, 1, 1]);
    ExampleRepeatedGuess();
    FeedbackText.ExampleTwoAndTwo();
    feedback := game.Feedback();
  }
}
