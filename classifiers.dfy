/** Intent classifiers of the visitor bot (server.py:44-55, 82-87, 429-448):
    keyword and phrase lists tested by substring containment. */
module Classifiers {
  import opened Strings

  /** Affirmative phrases, in the order of server.py:44-49. */
  const PositiveResponses: seq<string> := [
    "yes", "yeah", "yep", "yup", "correct", "right", "true", "confirm",
    "ok", "okay", "perfect", "exactly", "absolutely", "definitely",
    "sure", "good", "great", "fine", "proceed", "go ahead", "continue",
    "that's right", "sounds good", "looks good", "all good", "excellent"
  ]

  /** Negative phrases, in the order of server.py:51-55. */
  const NegativeResponses: seq<string> := [
    "no", "nope", "not", "wrong", "incorrect", "false", "negative",
    "not right", "not correct", "not perfect", "that's wrong",
    "not good", "bad", "fix it", "change it", "redo", "again"
  ]

  /** Digression keywords (server.py:444-447). */
  const OffTopicKeywords: seq<string> := [
    "weather", "time", "date", "news", "sports", "music", "movie",
    "food", "restaurant", "travel", "joke", "story", "game"
  ]

  /** Mood words of the greeting (server.py:82-83). */
  const PositiveMoodWords: seq<string> := [
    "good", "fine", "great", "well", "excellent", "awesome", "fantastic", "ok", "okay"
  ]

  const NegativeMoodWords: seq<string> := [
    "not good", "bad", "terrible", "awful", "not well", "sick", "tired", "stressed",
    "not doing good", "not great"
  ]

  /** A phrase list test as the source writes it: an exact match of the
      lowered, stripped text first, then substring containment. */
  function MatchesPhraseList(text: string, phrases: seq<string>): (r: bool)
    ensures r <==> ContainsAny(Lower(Strip(text)), phrases)
  {
    var t := Lower(Strip(text));
    if t in phrases then
      var k :| 0 <= k < |phrases| && phrases[k] == t;
      assert StartsWith(t, phrases[k]);
      true
    else
      ContainsAny(t, phrases)
  }

  /** `is_positive_response`: holds exactly when the lowered, stripped text
      contains an affirmative phrase (the exact-match branch adds nothing). */
  function IsPositiveResponse(text: string): (r: bool)
    ensures r <==> ContainsAny(Lower(Strip(text)), PositiveResponses)
  {
    MatchesPhraseList(text, PositiveResponses)
  }

  /** `is_negative_response`, the same test against the negative list. */
  function IsNegativeResponse(text: string): (r: bool)
    ensures r <==> ContainsAny(Lower(Strip(text)), NegativeResponses)
  {
    MatchesPhraseList(text, NegativeResponses)
  }

  /** `is_off_topic_question`: some keyword occurs in the lowered text (the
      text is not stripped). */
  function IsOffTopicQuestion(text: string): bool {
    ContainsAny(Lower(text), OffTopicKeywords)
  }

  /** The keyword match ignores case: a text and its lower-cased form are
      classified alike. */
  lemma OffTopicIgnoresCase(text: string)
    ensures IsOffTopicQuestion(Lower(text)) == IsOffTopicQuestion(text)
  {
    LowerHasNoUpper(text);
    LowerHasNoUpper(Lower(text));
  }

  /** Words around an off-topic question do not hide it: the keyword test
      looks anywhere in the text. */
  lemma OffTopicInContext(before: string, question: string, after: string)
    requires IsOffTopicQuestion(question)
    ensures IsOffTopicQuestion(before + question + after)
  {
    var k :| 0 <= k < |OffTopicKeywords| && Contains(Lower(question), OffTopicKeywords[k]);
    var w := OffTopicKeywords[k];
    var j := ContainsOccurrence(Lower(question), w);
    LowerOfConcat(before, question);
    LowerOfConcat(before + question, after);
    var whole := Lower(before) + Lower(question) + Lower(after);
    assert whole[|before| + j..|before| + j + |w|] == Lower(question)[j..j + |w|];
    ContainsAt(whole, w, |before| + j);
  }

  /** The three outcomes of the greeting's mood check. */
  datatype Mood = Unhappy | Happy | Neutral

  /** The greeting's mood check (server.py:85-87): negative mood words are
      tested before positive ones, on the lowered, unstripped text. */
  function GreetingMood(text: string): (m: Mood)
    ensures m == Unhappy <==> ContainsAny(Lower(text), NegativeMoodWords)
    ensures m == Happy <==> !ContainsAny(Lower(text), NegativeMoodWords) && ContainsAny(Lower(text), PositiveMoodWords)
  {
    var t := Lower(text);
    if ContainsAny(t, NegativeMoodWords) then Unhappy
    else if ContainsAny(t, PositiveMoodWords) then Happy
    else Neutral
  }

  /** Text containing "not good" contains "good". */
  lemma NotGoodContainsGood(t: string)
    requires Contains(t, "not good")
    ensures Contains(t, "good")
  {
    var k := ContainsOccurrence(t, "not good");
    assert t[k + 4..k + 8] == "good";
    ContainsAt(t, "good", k + 4);
  }

  /** Where "good" and "not good" sit in the two phrase lists. */
  lemma GoodPhrases()
    ensures PositiveResponses[15] == "good" && NegativeResponses[11] == "not good"
  {
  }

  /** Every negative phrase that contains "good" is also affirmative: in a
      confirmation, where the affirmative test runs first, "not good" and
      "that's not good" confirm. */
  lemma NotGoodIsPositive(text: string)
    requires Contains(Lower(Strip(text)), "not good")
    ensures IsPositiveResponse(text) && IsNegativeResponse(text)
  {
    var t := Lower(Strip(text));
    NotGoodContainsGood(t);
    GoodPhrases();
    assert Contains(t, PositiveResponses[15]);
    assert Contains(t, NegativeResponses[11]);
  }

  /** At the greeting, "not good" is an unhappy mood even though it contains
      the positive mood word "good". */
  lemma NotGoodIsUnhappyMood(text: string)
    requires Contains(Lower(text), "not good")
    ensures GreetingMood(text) == Unhappy
  {
    assert NegativeMoodWords[0] == "not good";
  }

  /** Stripping and lowering leave "I don't know" as "i don't know". */
  lemma KnowNormalised()
    ensures Lower(Strip("I don't know")) == "i don't know"
  {
    assert TrimStart("I don't know") == "I don't know";
    assert TrimEnd("I don't know") == "I don't know";
  }

  /** Substring matching is lenient: any text containing "no" is negative,
      "I don't know" among them. */
  lemma KnowIsNegative()
    ensures IsNegativeResponse("I don't know")
  {
    KnowNormalised();
    var t := "i don't know";
    assert t[9..11] == "no";
    ContainsAt(t, "no", 9);
    assert NegativeResponses[0] == "no";
  }

  /** Stripping and lowering leave "no" as it is. */
  lemma NoNormalised()
    ensures Lower(Strip("no")) == "no"
  {
    StripKeepsTrimmed("no");
    var l := Lower("no");
    assert l[0] == 'n' && l[1] == 'o';
  }

  /** No affirmative phrase occurs in "no". */
  lemma NoLacksAffirmative()
    ensures !ContainsAny("no", PositiveResponses)
  {
    forall k | 0 <= k < |PositiveResponses|
      ensures !Contains("no", PositiveResponses[k])
    {
      var p := PositiveResponses[k];
      if |p| > 2 {
        LongerNotContained("no", p);
      } else {
        assert p == "ok";
        SameLengthNotContained("no", p);
      }
    }
  }

  /** A text whose normal form is a negative phrase is negative. */
  lemma NegativeWhenPhrase(text: string, k: nat)
    requires k < |NegativeResponses| && Lower(Strip(text)) == NegativeResponses[k]
    ensures IsNegativeResponse(text)
  {
    ContainsAt(NegativeResponses[k], NegativeResponses[k], 0);
  }

  /** A plain "no" is negative. */
  lemma NoIsNegative()
    ensures IsNegativeResponse("no")
  {
    var no := NegativeResponses[0];
    assert no == "no";
    NoNormalised();
    NegativeWhenPhrase(no, 0);
  }

  /** A plain "no" is not affirmative. */
  lemma NoIsNotPositive()
    ensures !IsPositiveResponse("no")
  {
    NoNormalised();
    NoLacksAffirmative();
  }

  /** A plain "no" is negative and not affirmative. */
  lemma NoIsOnlyNegative()
    ensures IsNegativeResponse("no") && !IsPositiveResponse("no")
  {
    NoIsNegative();
    NoIsNotPositive();
  }
}
