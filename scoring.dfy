/**
 * Duplicate-aware scoring of one Mastermind guess against the hidden answer.
 *
 * The scorer walks the guess and the answer in lockstep, keeping per answer
 * value a pair of counters (numbers credited, locations credited), caps the
 * number credit of every value at that value's frequency in the answer, and
 * finally sums the counters. The reference definitions below say what those
 * sums mean: the correct numbers are the multiset intersection of guess and
 * answer (per value, min(#guess, #answer)), the correct locations are the
 * indices where guess and answer agree.
 */
module Scoring {

  /** What score_guess returns: the "won", "correct_nums" and "correct_locations" keys. */
  datatype ScoreResult = ScoreResult(won: bool, correctNums: nat, correctLocations: nat)

  /** The per-value entry of the correct_counters dictionary. */
  datatype ValueCounters = ValueCounters(correctNums: nat, correctLocations: nat)

  function Min(x: nat, y: nat): nat
  {
    if x <= y then x else y
  }

  // ---------------------------------------------------------------------------
  // Reference definitions
  // ---------------------------------------------------------------------------

  /** Number of indices i < |guess| with guess[i] == answer[i]. */
  function Hits(guess: seq<int>, answer: seq<int>): nat
    requires |guess| <= |answer|
  {
    if guess == [] then 0
    else
      var last := |guess| - 1;
      Hits(guess[..last], answer) + (if guess[last] == answer[last] then 1 else 0)
  }

  /** The values found at the indices where guess and answer agree, with repeats. */
  ghost function HitValues(guess: seq<int>, answer: seq<int>): multiset<int>
    requires |guess| <= |answer|
  {
    if guess == [] then multiset{}
    else
      var last := |guess| - 1;
      HitValues(guess[..last], answer)
        + (if guess[last] == answer[last] then multiset{guess[last]} else multiset{})
  }

  /** The guessed values credited as correct numbers: per value, min(#guess, #answer). */
  ghost function Common(guess: seq<int>, answer: seq<int>): multiset<int>
  {
    multiset(guess) * multiset(answer)
  }

  /** The score mastermind.py intends for a guess: won exactly on an exact match. */
  ghost function Expected(guess: seq<int>, answer: seq<int>): ScoreResult
    requires |guess| <= |answer|
  {
    ScoreResult(guess == answer, |Common(guess, answer)|, Hits(guess, answer))
  }

  /** n copies of x (ghost bookkeeping for summing the counters). */
  ghost function Copies(x: int, n: nat): (m: multiset<int>)
    ensures |m| == n
    ensures forall y :: m[y] == if y == x then n else 0
  {
    if n == 0 then multiset{} else Copies(x, n - 1) + multiset{x}
  }

  /** The counters after crediting one guessed value `num`. */
  function Credit(counters: map<int, ValueCounters>, frequencies: multiset<int>, num: int, positional: bool)
    : map<int, ValueCounters>
  {
    if num !in counters then counters
    else
      var c := counters[num];
      counters[num := ValueCounters(
        if c.correctNums < frequencies[num] then c.correctNums + 1 else c.correctNums,
        if positional then c.correctLocations + 1 else c.correctLocations)]
  }

  /** The counters of the lockstep loop once it has walked the (partial) guess. */
  ghost function CountersAfter(answer: seq<int>, guess: seq<int>): map<int, ValueCounters>
    requires |guess| <= |answer|
  {
    if guess == [] then map v | v in answer :: ValueCounters(0, 0)
    else
      var last := |guess| - 1;
      Credit(CountersAfter(answer, guess[..last]), multiset(answer), guess[last], guess[last] == answer[last])
  }

  /**
   * m holds, per value v among `keys` that has a counter, the number credit
   * (or the location credit) of v, and nothing else.
   */
  ghost predicate Tallies(m: multiset<int>, counters: map<int, ValueCounters>, keys: set<int>, locations: bool)
  {
    forall v :: m[v] ==
      (if v in counters && v in keys
       then (if locations then counters[v].correctLocations else counters[v].correctNums)
       else 0)
  }

  // ---------------------------------------------------------------------------
  // score_guess
  // ---------------------------------------------------------------------------

  /**
   * score_guess. `count` is the game's stored length of the answer, returned
   * by the exact-match fast path; otherwise won is false and the counts are
   * the sums of the per-value counters. A guess longer than the answer makes
   * mastermind.py index past the answer, hence the requires.
   */
  method Score(answer: seq<int>, count: nat, guess: seq<int>) returns (r: ScoreResult)
    requires |guess| <= |answer|
    ensures guess == answer ==> r == ScoreResult(true, count, count)
    ensures guess != answer ==> r == Expected(guess, answer)
  {
    if guess == answer {
      return ScoreResult(true, count, count);
    }
    var correctCounters := TallyCounters(answer, guess);
    HitValuesWithinAnswer(guess, answer);
    var correctNums, correctLocations :=
      SumCounters(correctCounters, Common(guess, answer), HitValues(guess, answer));
    HitValuesCount(guess, answer);
    r := ScoreResult(false, correctNums, correctLocations);
  }

  /**
   * The lockstep loop of score_guess: one counter pair per value of the
   * answer; a guessed value earns a number credit while its credit is below
   * its frequency in the answer, and a location credit when it sits where the
   * answer has it.
   */
  method TallyCounters(answer: seq<int>, guess: seq<int>) returns (correctCounters: map<int, ValueCounters>)
    requires |guess| <= |answer|
    ensures forall v :: v in correctCounters <==> v in answer
    ensures forall v :: v in correctCounters ==>
      correctCounters[v] == ValueCounters(Common(guess, answer)[v], HitValues(guess, answer)[v])
  {
    var answerAsSet := set v | v in answer;
    var frequenciesInAnswer := multiset(answer);
    correctCounters := map v | v in answerAsSet :: ValueCounters(0, 0);

    var i := 0;
    while i < |guess|
      invariant 0 <= i <= |guess|
      invariant correctCounters == CountersAfter(answer, guess[..i])
      invariant correctCounters.Keys == answerAsSet
    {
      var num := guess[i];
      assert guess[..i + 1][..i] == guess[..i];
      if answer[i] == num {
        var c := correctCounters[num];
        var nums := if c.correctNums < frequenciesInAnswer[num] then c.correctNums + 1 else c.correctNums;
        correctCounters := correctCounters[num := ValueCounters(nums, c.correctLocations + 1)];
      } else if num in answerAsSet {
        var c := correctCounters[num];
        var nums := if c.correctNums < frequenciesInAnswer[num] then c.correctNums + 1 else c.correctNums;
        correctCounters := correctCounters[num := ValueCounters(nums, c.correctLocations)];
      }
      i := i + 1;
    }
    assert guess[..i] == guess;
    CountersAfterMeaning(answer, guess);
  }

  /**
   * The summing loop of score_guess. When the counters hold, per value, the
   * multiplicities of the multisets `nums` and `locations`, the sums are the
   * sizes of those multisets.
   */
  method SumCounters(correctCounters: map<int, ValueCounters>, ghost nums: multiset<int>, ghost locations: multiset<int>)
    returns (correctNums: nat, correctLocations: nat)
    requires Tallies(nums, correctCounters, correctCounters.Keys, false)
    requires Tallies(locations, correctCounters, correctCounters.Keys, true)
    ensures correctNums == |nums| && correctLocations == |locations|
  {
    correctNums, correctLocations := 0, 0;
    ghost var numsSummed: multiset<int> := multiset{};
    ghost var locationsSummed: multiset<int> := multiset{};
    var toSum := correctCounters.Keys;
    while toSum != {}
      invariant toSum <= correctCounters.Keys
      invariant Tallies(numsSummed, correctCounters, correctCounters.Keys - toSum, false)
      invariant Tallies(locationsSummed, correctCounters, correctCounters.Keys - toSum, true)
      invariant correctNums == |numsSummed| && correctLocations == |locationsSummed|
      decreases toSum
    {
      assert exists k :: k in toSum by { if forall k :: k !in toSum { } }
      var key :| key in toSum;
      var value := correctCounters[key];
      correctNums := correctNums + value.correctNums;
      correctLocations := correctLocations + value.correctLocations;
      numsSummed := numsSummed + Copies(key, value.correctNums);
      locationsSummed := locationsSummed + Copies(key, value.correctLocations);
      toSum := toSum - {key};
    }
    assert toSum == {};
    assert correctCounters.Keys - toSum == correctCounters.Keys;
    assert forall v :: numsSummed[v] == nums[v];
    assert forall v :: locationsSummed[v] == locations[v];
    assert numsSummed == nums;
    assert locationsSummed == locations;
  }

  // ---------------------------------------------------------------------------
  // Properties of the reference definitions
  // ---------------------------------------------------------------------------

  /**
   * The loop's counters mean what they are named for: there is one pair per
   * value of the answer, its number credit is min(#guess, #answer) for that
   * value, and its location credit the number of positional matches of it.
   */
  lemma {:induction false} CountersAfterMeaning(answer: seq<int>, guess: seq<int>)
    requires |guess| <= |answer|
    ensures forall v :: v in CountersAfter(answer, guess) <==> v in answer
    ensures forall v :: v in CountersAfter(answer, guess) ==>
      CountersAfter(answer, guess)[v] == ValueCounters(Common(guess, answer)[v], HitValues(guess, answer)[v])
  {
    if guess != [] {
      var last := |guess| - 1;
      var prefix := guess[..last];
      CountersAfterMeaning(answer, prefix);
      assert guess == prefix + [guess[last]];
    }
  }

  /** Every matched value occurs in the guess and in the answer, as often as it matched. */
  lemma {:induction false} HitValuesWithinAnswer(guess: seq<int>, answer: seq<int>)
    requires |guess| <= |answer|
    ensures HitValues(guess, answer) <= multiset(guess)
    ensures HitValues(guess, answer) <= multiset(answer[..|guess|])
    ensures HitValues(guess, answer) <= Common(guess, answer)
  {
    if guess != [] {
      var last := |guess| - 1;
      HitValuesWithinAnswer(guess[..last], answer);
      assert guess == guess[..last] + [guess[last]];
      assert answer[..|guess|] == answer[..last] + [answer[last]];
    }
    assert answer == answer[..|guess|] + answer[|guess|..];
  }

  /** The matched values are exactly as many as the matching indices. */
  lemma {:induction false} HitValuesCount(guess: seq<int>, answer: seq<int>)
    requires |guess| <= |answer|
    ensures |HitValues(guess, answer)| == Hits(guess, answer)
  {
    if guess != [] {
      HitValuesCount(guess[..|guess| - 1], answer);
    }
  }

  /** Hits counts exactly the indices where guess and answer hold the same value. */
  lemma {:induction false} HitsCountsMatchingIndices(guess: seq<int>, answer: seq<int>)
    requires |guess| <= |answer|
    ensures Hits(guess, answer) == |set i | 0 <= i < |guess| && guess[i] == answer[i]|
  {
    if guess != [] {
      var last := |guess| - 1;
      var prefix := guess[..last];
      HitsCountsMatchingIndices(prefix, answer);
      var before := set i | 0 <= i < |prefix| && prefix[i] == answer[i];
      var after := set i | 0 <= i < |guess| && guess[i] == answer[i];
      if guess[last] == answer[last] {
        assert after == before + {last};
      } else {
        assert after == before;
      }
    }
  }

  /**
   * The score's counts are bounded:
   * 0 <= correct locations <= correct numbers <= |guess| <= |answer|.
   */
  lemma CountsBounded(guess: seq<int>, answer: seq<int>)
    requires |guess| <= |answer|
    ensures Hits(guess, answer) <= |Common(guess, answer)| <= |guess|
  {
    var hits := HitValues(guess, answer);
    var common := Common(guess, answer);
    HitValuesWithinAnswer(guess, answer);
    HitValuesCount(guess, answer);
    assert common == hits + (common - hits);
    assert multiset(guess) == common + (multiset(guess) - common);
  }

  /**
   * Per value, the number credit is min(#guess, #answer): a value absent from
   * the answer earns nothing, and no value earns more than its frequency in the
   * answer.
   */
  lemma CreditPerValue(guess: seq<int>, answer: seq<int>, v: int)
    ensures Common(guess, answer)[v] == Min(multiset(guess)[v], multiset(answer)[v])
    ensures v !in answer ==> Common(guess, answer)[v] == 0
    ensures Common(guess, answer)[v] <= multiset(answer)[v]
  {
  }

  /** A guess scores every location exactly when it is the answer. */
  lemma {:induction false} AllLocationsIffEqual(guess: seq<int>, answer: seq<int>)
    requires |guess| <= |answer|
    ensures Hits(guess, answer) <= |guess|
    ensures Hits(guess, answer) == |guess| <==> guess == answer[..|guess|]
  {
    if guess != [] {
      var last := |guess| - 1;
      AllLocationsIffEqual(guess[..last], answer);
      assert guess == guess[..last] + [guess[last]];
      assert answer[..|guess|] == answer[..last] + [answer[last]];
    }
  }

  /** For a full-length guess, won holds exactly when every location is correct. */
  lemma WonIffAllLocations(guess: seq<int>, answer: seq<int>)
    requires |guess| == |answer|
    ensures Expected(guess, answer).won <==> Expected(guess, answer).correctLocations == |answer|
  {
    AllLocationsIffEqual(guess, answer);
    assert answer[..|guess|] == answer;
  }

  /**
   * The exact-match fast path returns what the general rule gives, provided
   * the stored count is the length of the answer.
   */
  lemma FastPathAgrees(answer: seq<int>, count: int)
    requires count == |answer|
    ensures Expected(answer, answer) == ScoreResult(true, count, count)
  {
    AllLocationsIffEqual(answer, answer);
    assert answer[..|answer|] == answer;
    assert Common(answer, answer) == multiset(answer);
  }

  // ---------------------------------------------------------------------------
  // Worked examples from mastermind.py's comments and test_mastermind.py
  // ---------------------------------------------------------------------------

  function Indicator(b: bool): nat
  {
    if b then 1 else 0
  }

  /** Hits of a four-value guess, position by position. */
  lemma HitsOfFour(guess: seq<int>, answer: seq<int>)
    requires |guess| == 4 <= |answer|
    ensures Hits(guess, answer) ==
      Indicator(guess[0] == answer[0]) + Indicator(guess[1] == answer[1])
      + Indicator(guess[2] == answer[2]) + Indicator(guess[3] == answer[3])
  {
    assert guess[..4] == guess;
    forall n | 0 < n <= 4
      ensures Hits(guess[..n], answer) == Hits(guess[..n - 1], answer) + Indicator(guess[n - 1] == answer[n - 1])
    {
      assert guess[..n][..n - 1] == guess[..n - 1];
    }
  }

  /** Guess [4,4,1,2] against [1,4,1,4]: 3 correct numbers, 2 correct locations. */
  lemma ExampleDuplicatesCapped()
    ensures Expected([4, 4, 1, 2], [1, 4, 1, 4]) == ScoreResult(false, 3, 2)
  {
    HitsOfFour([4, 4, 1, 2], [1, 4, 1, 4]);
    var common := Common([4, 4, 1, 2], [1, 4, 1, 4]);
    assert common[4] == 2 && common[1] == 1;
    assert forall v :: v != 4 && v != 1 ==> common[v] == 0;
    assert common == multiset{4, 4, 1};
  }

  /** Guess [4,4,4,4] against [1,4,1,4]: 2 correct numbers, 2 correct locations. */
  lemma ExampleFourFours()
    ensures Expected([4, 4, 4, 4], [1, 4, 1, 4]) == ScoreResult(false, 2, 2)
  {
    HitsOfFour([4, 4, 4, 4], [1, 4, 1, 4]);
    var common := Common([4, 4, 4, 4], [1, 4, 1, 4]);
    assert common[4] == 2;
    assert forall v :: v != 4 ==> common[v] == 0;
    assert common == multiset{4, 4};
  }

  /** Guess [2,2,1,1] against [0,1,3,5]: 1 correct number, 0 correct locations. */
  lemma ExampleNoFalseCredit()
    ensures Expected([2, 2, 1, 1], [0, 1, 3, 5]) == ScoreResult(false, 1, 0)
  {
    HitsOfFour([2, 2, 1, 1], [0, 1, 3, 5]);
    var common := Common([2, 2, 1, 1], [0, 1, 3, 5]);
    assert common[1] == 1;
    assert forall v :: v != 1 ==> common[v] == 0;
    assert common == multiset{1};
  }

  /** Guess [1,2,3,4] against [1,5,7,8]: 1 correct number, 1 correct location. */
  lemma ExampleDocstring()
    ensures Expected([1, 2, 3, 4], [1, 5, 7, 8]) == ScoreResult(false, 1, 1)
  {
    HitsOfFour([1, 2, 3, 4], [1, 5, 7, 8]);
    var common := Common([1, 2, 3, 4], [1, 5, 7, 8]);
    assert common[1] == 1;
    assert forall v :: v != 1 ==> common[v] == 0;
    assert common == multiset{1};
  }

  /** Guess [1,7,6,4] against [1,1,2,4]: 2 correct numbers, 2 correct locations. */
  lemma ExampleWrongGuess()
    ensures Expected([1, 7, 6, 4], [1, 1, 2, 4]) == ScoreResult(false, 2, 2)
  {
    HitsOfFour([1, 7, 6, 4], [1, 1, 2, 4]);
    var common := Common([1, 7, 6, 4], [1, 1, 2, 4]);
    assert common[1] == 1 && common[4] == 1;
    assert forall v :: v != 1 && v != 4 ==> common[v] == 0;
    assert common == multiset{1, 4};
  }

  /** Guess [1,1,1,1] against [1,1,2,4]: 2 correct numbers, 2 correct locations. */
  lemma ExampleRepeatedGuess()
    ensures Expected([1, 1, 1, 1], [1, 1, 2, 4]) == ScoreResult(false, 2, 2)
  {
    HitsOfFour([1, 1, 1, 1], [1, 1, 2, 4]);
    var common := Common([1, 1, 1, 1], [1, 1, 2, 4]);
    assert common[1] == 2;
    assert forall v :: v != 1 ==> common[v] == 0;
    assert common == multiset{1, 1};
  }

  /** Guess [0,0,0,0] against [1,2,3,4]: nothing is credited. */
  lemma ExampleAllIncorrect()
    ensures Expected([0, 0, 0, 0], [1, 2, 3, 4]) == ScoreResult(false, 0, 0)
  {
    HitsOfFour([0, 0, 0, 0], [1, 2, 3, 4]);
    var common := Common([0, 0, 0, 0], [1, 2, 3, 4]);
    assert forall v :: common[v] == 0;
    assert common == multiset{};
  }

  /** The exact match [1,1,2,4] against itself wins with 4 and 4. */
  lemma ExampleExactMatch()
    ensures Expected([1, 1, 2, 4], [1, 1, 2, 4]) == ScoreResult(true, 4, 4)
  {
    FastPathAgrees([1, 1, 2, 4], 4);
  }
}
