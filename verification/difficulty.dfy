/**
 * The two difficulty classifiers: the complexity heuristic of the generation
 * route and the length-only rule of the legacy line-pair importer.
 */
module Difficulty {
  import opened Text
  import opened Cards

  /** The text both classifiers look at: question, one space, answer, lower-cased. */
  function Combined(question: string, answer: string): (t: string)
    ensures |t| == |question| + |answer| + 1
  {
    Lower(question + " " + answer)
  }

  /** The number of words longer than eight characters. */
  function LongWords(words: seq<string>): (n: nat)
    ensures n <= |words|
    ensures n == 0 <==> forall i :: 0 <= i < |words| ==> |words[i]| <= 8
  {
    if |words| == 0 then 0 else (if |words[0]| > 8 then 1 else 0) + LongWords(words[1..])
  }

  /**
   * The generation route's classifier. With `complex` long words among `total`
   * space-separated words, the ratio tests `complex / total < 0.1` and `< 0.2`
   * are the exact integer tests `10 * complex < total` and `5 * complex < total`
   * (`total` is at least one, so the division is always defined).
   */
  function Classify(question: string, answer: string): (l: Level)
    ensures |question| + |answer| + 1 >= 200 ==> l == Hard
    ensures l == Easy ==> |question| + |answer| + 1 < 80
    ensures l == Medium ==> |question| + |answer| + 1 < 200
    ensures var w := Split(Combined(question, answer), ' ');
            && |w| >= 1
            && (l == Easy ==> 10 * LongWords(w) < |w|)
            && (l == Medium ==> 5 * LongWords(w) < |w| && !(|question| + |answer| + 1 < 80 && 10 * LongWords(w) < |w|))
            && (l == Hard ==> !(|question| + |answer| + 1 < 200 && 5 * LongWords(w) < |w|))
  {
    var text := Combined(question, answer);
    var words := Split(text, ' ');
    var complex := LongWords(words);
    var total := |words|;
    if |text| < 80 && 10 * complex < total then Easy
    else if |text| < 200 && 5 * complex < total then Medium
    else Hard
  }

  /** No word of `s` (split on spaces) is longer than eight characters. */
  predicate ShortWordsOnly(s: string) {
    forall i :: 0 <= i < |Split(s, ' ')| ==> |Split(s, ' ')[i]| <= 8
  }

  lemma {:induction false} NoLongWords(words: seq<string>)
    requires forall i :: 0 <= i < |words| ==> |words[i]| <= 8
    ensures LongWords(words) == 0
  {
    if |words| > 0 {
      NoLongWords(words[1..]);
    }
  }

  /** Lower-casing does not change the word lengths the classifier counts. */
  lemma LowerKeepsShortWords(s: string)
    requires ShortWordsOnly(s)
    ensures LongWords(Split(Lower(s), ' ')) == 0
  {
    SplitLower(s, ' ');
    NoLongWords(Split(Lower(s), ' '));
  }

  /** A short text made of short words is easy. */
  lemma ShortPlainIsEasy(question: string, answer: string)
    requires |question| + |answer| + 1 < 80
    requires ShortWordsOnly(question + " " + answer)
    ensures Classify(question, answer) == Easy
  {
    LowerKeepsShortWords(question + " " + answer);
  }

  /** A text in which at least a fifth of the words are long is hard, whatever its length. */
  lemma DenseIsHard(question: string, answer: string)
    requires var w := Split(Combined(question, answer), ' '); 5 * LongWords(w) >= |w|
    ensures Classify(question, answer) == Hard
  {
  }

  /** The legacy importer's classifier: length of the combined text only. */
  function LegacyClassify(question: string, answer: string): (l: Level)
    ensures l == Easy <==> |question| + |answer| + 1 < 50
    ensures l == Medium <==> 50 <= |question| + |answer| + 1 < 100
    ensures l == Hard <==> |question| + |answer| + 1 >= 100
  {
    var text := Combined(question, answer);
    if |text| < 50 then Easy
    else if |text| < 100 then Medium
    else Hard
  }

  /** The legacy classifier never rates a longer text easier than a shorter one. */
  lemma LegacyMonotone(q1: string, a1: string, q2: string, a2: string)
    requires |q1| + |a1| <= |q2| + |a2|
    ensures Rank(LegacyClassify(q1, a1)) <= Rank(LegacyClassify(q2, a2))
  {
  }
}
