/**
 * The two game classes describe the same game. mastermind.py derives the
 * guesses left from its history and lists the history newest first;
 * mastermind1.py stores a counter and lists its history oldest first. Two
 * consistent games with the same answer whose histories hold the same
 * guesses (one the reverse of the other) agree on every observable field.
 */
module Agreement {
  import opened Rules
  import opened Reversal
  import Mastermind
  import Mastermind1

  /** Both games hold the same answer, flags and guesses left, and the same guesses. */
  ghost predicate Agree(game: Mastermind.MastermindGame, stored: Mastermind1.Mastermind)
    reads game, stored
  {
    && game.numCount == stored.count
    && game.answer == stored.answer
    && game.hasWon == stored.hasWon
    && game.gameOver == stored.gameOver
    && game.RemainingGuesses() == stored.remainingGuesses
    && Mastermind.Guesses(game.guessHistory) == Reverse(stored.guessedNumsHistory)
  }

  /**
   * Everything but the guesses is determined by them: two consistent games
   * with the same answer and the same guesses agree, in particular the
   * derived and the stored count of guesses left.
   */
  lemma SameGuessesAgree(game: Mastermind.MastermindGame, stored: Mastermind1.Mastermind)
    requires game.Valid() && stored.Valid()
    requires game.answer == stored.answer
    requires Mastermind.Guesses(game.guessHistory) == Reverse(stored.guessedNumsHistory)
    ensures Agree(game, stored)
  {
    ReverseMembers(stored.guessedNumsHistory, stored.answer);
    Mastermind.OverIffWonOrExhausted(game);
  }

  /**
   * Handing the same guess to two agreeing games records it in both (at the
   * head of one history, at the end of the other) and keeps them in agreement.
   */
  method HandleBoth(game: Mastermind.MastermindGame, stored: Mastermind1.Mastermind, guess: seq<int>)
    requires game.Valid() && stored.Valid() && Agree(game, stored)
    requires |guess| <= |game.answer|
    modifies game, stored
    ensures game.Valid() && stored.Valid() && Agree(game, stored)
    ensures game.answer == stored.answer == old(game.answer)
    ensures game.guessHistory == [Mastermind.Record(guess, old(game.answer))] + old(game.guessHistory)
    ensures stored.guessedNumsHistory == old(stored.guessedNumsHistory) + [guess]
    ensures stored.feedback == old(stored.feedback) + [FeedbackFor(guess, old(game.answer))]
    ensures stored.remainingGuesses == old(stored.remainingGuesses) - 1
  {
    ghost var guesses := stored.guessedNumsHistory;
    game.HandleGuess(guess);
    stored.HandleGuess(guess);
    ReverseAppend(guesses, guess);
    Mastermind.GuessesCons(Mastermind.Record(guess, game.answer), old(game.guessHistory));
    SameGuessesAgree(game, stored);
  }

  /** Sentences for a list of guesses and for the same guesses reversed are each other's reverse. */
  lemma MirroredFeedback(answer: seq<int>, newest: seq<seq<int>>, oldest: seq<seq<int>>,
                         derived: seq<string>, stored: seq<string>)
    requires newest == Reverse(oldest)
    requires forall k :: 0 <= k < |oldest| ==> |oldest[k]| <= |answer|
    requires |derived| == |newest|
    requires forall k :: 0 <= k < |newest| ==> |newest[k]| <= |answer| && derived[k] == FeedbackFor(newest[k], answer)
    requires |stored| == |oldest|
    requires forall k :: 0 <= k < |oldest| ==> stored[k] == FeedbackFor(oldest[k], answer)
    ensures derived == Reverse(stored)
  {
    forall k | 0 <= k < |derived|
      ensures derived[k] == Reverse(stored)[k]
    {
      assert newest[k] == oldest[|oldest| - 1 - k];
    }
  }

  /**
   * The feedback list mastermind.py derives from its history is the list
   * mastermind1.py stores, newest sentence first.
   */
  method FeedbackAgrees(game: Mastermind.MastermindGame, stored: Mastermind1.Mastermind) returns (feedback: seq<string>)
    requires game.Valid() && stored.Valid() && Agree(game, stored)
    ensures |feedback| == |game.guessHistory|
    ensures forall k :: 0 <= k < |feedback| ==>
              feedback[k] == FeedbackFor(game.guessHistory[k].numbersGuessed, game.answer)
    ensures feedback == Reverse(stored.feedback)
  {
    feedback := game.Feedback();
    var newest := Mastermind.Guesses(game.guessHistory);
    MirroredFeedback(game.answer, newest, stored.guessedNumsHistory, feedback, stored.feedback);
  }
}
