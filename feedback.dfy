/**
 * The feedback sentence shown for one scored guess: "All incorrect." when
 * neither a number nor a location was right, otherwise
 * "<nums> correct number(s) and <locations> correct location(s).", with the
 * counts written in decimal the way Python's f-string formats an int.
 */
module FeedbackText {

  const AllIncorrect: string := "All incorrect."
  const NumbersPhrase: string := " correct number(s) and "
  const LocationsPhrase: string := " correct location(s)."

  predicate IsDigit(c: char)
  {
    '0' <= c <= '9'
  }

  predicate AllDigits(s: string)
  {
    forall i :: 0 <= i < |s| ==> IsDigit(s[i])
  }

  function DigitChar(d: nat): (c: char)
    requires d < 10
    ensures IsDigit(c)
  {
    ('0' as int + d) as char
  }

  function DigitValue(c: char): nat
    requires IsDigit(c)
  {
    c as int - '0' as int
  }

  /** Decimal notation of n: digits only, no leading zero. */
  function NatToString(n: nat): (s: string)
    ensures |s| >= 1 && AllDigits(s)
    ensures s[0] == '0' <==> n == 0
    decreases n
  {
    if n < 10 then [DigitChar(n)]
    else NatToString(n / 10) + [DigitChar(n % 10)]
  }

  /** The value of a string of decimal digits. */
  function ParseDigits(s: string): nat
    requires AllDigits(s)
  {
    if s == [] then 0
    else ParseDigits(s[..|s| - 1]) * 10 + DigitValue(s[|s| - 1])
  }

  /** Reading back the decimal notation of n gives n. */
  lemma {:induction false} ParseNatToString(n: nat)
    ensures ParseDigits(NatToString(n)) == n
    decreases n
  {
    var s := NatToString(n);
    if n >= 10 {
      ParseNatToString(n / 10);
      assert s[..|s| - 1] == NatToString(n / 10);
    }
  }

  /** The sentence for a score (_generate_feedback_text / _generate_feedback). */
  function Text(correctNums: nat, correctLocations: nat): (t: string)
    ensures t == AllIncorrect <==> correctNums == 0 && correctLocations == 0
  {
    if correctNums == 0 && correctLocations == 0 then AllIncorrect
    else NatToString(correctNums) + NumbersPhrase + NatToString(correctLocations) + LocationsPhrase
  }

  /** The number of digits at the front of s. */
  function LeadingDigits(s: string): nat
  {
    if s == [] || !IsDigit(s[0]) then 0 else 1 + LeadingDigits(s[1..])
  }

  /** Digits followed by a non-digit: the leading run is exactly the digits. */
  lemma {:induction false} LeadingDigitsOf(a: string, x: string)
    requires AllDigits(a) && |x| > 0 && !IsDigit(x[0])
    ensures LeadingDigits(a + x) == |a|
  {
    if a != [] {
      LeadingDigitsOf(a[1..], x);
      assert (a + x)[1..] == a[1..] + x;
    }
  }

  /**
   * A run of digits followed by a non-digit is determined by the whole
   * string: it cannot be split at two different places.
   */
  lemma DigitsThenNonDigit(a: string, x: string, b: string, y: string)
    requires AllDigits(a) && AllDigits(b)
    requires |x| > 0 && |y| > 0 && !IsDigit(x[0]) && !IsDigit(y[0])
    requires a + x == b + y
    ensures a == b && x == y
  {
    LeadingDigitsOf(a, x);
    LeadingDigitsOf(b, y);
    assert a == (a + x)[..|a|];
    assert b == (b + y)[..|b|];
    assert x == (a + x)[|a|..];
    assert y == (b + y)[|b|..];
  }

  /** The decimal notation is one-to-one. */
  lemma NatToStringInjective(m: nat, n: nat)
    requires NatToString(m) == NatToString(n)
    ensures m == n
  {
    ParseNatToString(m);
    ParseNatToString(n);
  }

  /** The sentence for a score other than (0, 0), split at its number fields. */
  lemma SentenceParts(correctNums: nat, correctLocations: nat)
    requires !(correctNums == 0 && correctLocations == 0)
    ensures Text(correctNums, correctLocations)
            == NatToString(correctNums) + (NumbersPhrase + (NatToString(correctLocations) + LocationsPhrase))
  {
    Regrouped(NatToString(correctNums), NumbersPhrase, NatToString(correctLocations), LocationsPhrase);
  }

  lemma Regrouped(a: string, b: string, c: string, d: string)
    ensures a + b + c + d == a + (b + (c + d))
  {
  }

  /** Different scores give different sentences: the text determines the score. */
  lemma TextInjective(nums1: nat, locations1: nat, nums2: nat, locations2: nat)
    requires Text(nums1, locations1) == Text(nums2, locations2)
    ensures nums1 == nums2 && locations1 == locations2
  {
    if !(nums1 == 0 && locations1 == 0) {
      SentenceParts(nums1, locations1);
      SentenceParts(nums2, locations2);
      var rest1 := NatToString(locations1) + LocationsPhrase;
      var rest2 := NatToString(locations2) + LocationsPhrase;
      DigitsThenNonDigit(NatToString(nums1), NumbersPhrase + rest1, NatToString(nums2), NumbersPhrase + rest2);
      NatToStringInjective(nums1, nums2);
      assert rest1 == (NumbersPhrase + rest1)[|NumbersPhrase|..];
      assert rest2 == (NumbersPhrase + rest2)[|NumbersPhrase|..];
      DigitsThenNonDigit(NatToString(locations1), LocationsPhrase, NatToString(locations2), LocationsPhrase);
      NatToStringInjective(locations1, locations2);
    }
  }

  /** The sentence quoted by mastermind.py's docstring and test_mastermind.py. */
  lemma ExampleTwoAndTwo()
    ensures Text(2, 2) == "2 correct number(s) and 2 correct location(s)."
  {
    TwoAndTwoFields();
    TwoAndTwoNumbersWords();
    TwoAndTwoLocationsWords();
    TwoAndTwoJoined();
  }

  lemma TwoAndTwoFields()
    ensures Text(2, 2) == ("2" + NumbersPhrase) + ("2" + LocationsPhrase)
  {
    assert NatToString(2) == [DigitChar(2)] == "2";
  }

  lemma TwoAndTwoNumbersWords()
    ensures "2" + NumbersPhrase == "2 correct number(s) and "
  {
  }

  lemma TwoAndTwoLocationsWords()
    ensures "2" + LocationsPhrase == "2 correct location(s)."
  {
  }

  lemma TwoAndTwoJoined()
    ensures "2 correct number(s) and " + "2 correct location(s)." == "2 correct number(s) and 2 correct location(s)."
  {
  }

  /** A two-digit count is written in full. */
  lemma ExampleTwoDigits()
    ensures Text(12, 0) == "12 correct number(s) and 0 correct location(s)."
  {
    TwoDigitsFields();
    TwoDigitsNumbersWords();
    TwoDigitsLocationsWords();
    TwoDigitsJoined();
  }

  lemma TwoDigitsFields()
    ensures Text(12, 0) == ("12" + NumbersPhrase) + ("0" + LocationsPhrase)
  {
    assert NatToString(0) == [DigitChar(0)] == "0";
    assert NatToString(1) == [DigitChar(1)] == "1";
    assert NatToString(12) == NatToString(1) + [DigitChar(2)] == "12";
  }

  lemma TwoDigitsNumbersWords()
    ensures "12" + NumbersPhrase == "12 correct number(s) and "
  {
  }

  lemma TwoDigitsLocationsWords()
    ensures "0" + LocationsPhrase == "0 correct location(s)."
  {
  }

  lemma TwoDigitsJoined()
    ensures "12 correct number(s) and " + "0 correct location(s)." == "12 correct number(s) and 0 correct location(s)."
  {
  }
}
