/**
 * What both game classes agree on: a game allows ten guesses, and the
 * feedback a guess earns is the sentence for its score against the answer.
 */
module Rules {
  import opened Scoring
  import FeedbackText

  /** The number of guesses a new game allows. */
  const MaxGuesses: int := 10

  /** The sentence shown for a guess scored against the answer. */
  ghost function FeedbackFor(guess: seq<int>, answer: seq<int>): string
    requires |guess| <= |answer|
  {
    var s := Expected(guess, answer);
    FeedbackText.Text(s.correctNums, s.correctLocations)
  }

  /** No value of the guess occurs anywhere in the answer. */
  ghost predicate NothingShared(guess: seq<int>, answer: seq<int>)
  {
    forall v :: v in guess ==> v !in answer
  }

  /**
   * A guess is told "All incorrect." exactly when it shares no value with
   * the answer: a shared value always earns a number credit.
   */
  lemma AllIncorrectIffNothingShared(guess: seq<int>, answer: seq<int>)
    requires |guess| <= |answer|
    ensures FeedbackFor(guess, answer) == FeedbackText.AllIncorrect <==> NothingShared(guess, answer)
  {
    var s := Expected(guess, answer);
    CountsBounded(guess, answer);
    if NothingShared(guess, answer) {
      forall v ensures Common(guess, answer)[v] == 0 {
        CreditPerValue(guess, answer, v);
      }
      assert Common(guess, answer) == multiset{};
    } else {
      var v :| v in guess && v in answer;
      CreditPerValue(guess, answer, v);
      assert Common(guess, answer)[v] > 0;
    }
  }

  /** [0,0,0,0] against [1,2,3,4] shares nothing and is told "All incorrect.". */
  lemma ExampleNothingSharedFeedback()
    ensures FeedbackFor([0, 0, 0, 0], [1, 2, 3, 4]) == FeedbackText.AllIncorrect
  {
    ExampleAllIncorrect();
  }
}
