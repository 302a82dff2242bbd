/**
 * The final normalisation map of the generation route: every record gets a
 * question, an answer that is non-empty, trimmed and terminated, and marks.
 */
module Normalize {
  import opened Wrappers
  import opened Text
  import opened Cards
  import opened Difficulty

  const NoAnswer: string := "No answer provided"

  predicate EndsTerminal(s: string) {
    EndsWith(s, '.') || EndsWith(s, '!') || EndsWith(s, '?')
  }

  /** `.replace(/\.\.\.$/, '')`: one trailing ellipsis removed. */
  function StripEllipsis(s: string): (r: string)
    ensures |s| >= 3 && s[|s| - 3..] == "..." ==> r == s[..|s| - 3]
    ensures !(|s| >= 3 && s[|s| - 3..] == "...") ==> r == s
  {
    if |s| >= 3 && s[|s| - 3..] == "..." then s[..|s| - 3] else s
  }

  /** Terminating a trimmed text keeps it trimmed. */
  lemma Terminated(t: string)
    requires |t| > 0 ==> !IsSpace(t[0]) && !IsSpace(t[|t| - 1])
    ensures var r := if EndsTerminal(t) then t else t + ".";
      |r| > 0 && EndsTerminal(r) && Trim(r) == r
  {
    var r := if EndsTerminal(t) then t else t + ".";
    TrimmedIsFixpoint(r);
  }

  /** The processed answer: defaulted, one trailing ellipsis removed, trimmed, terminated. */
  function NormalizeAnswer(a: Option<string>): (r: string)
    ensures |r| > 0 && EndsTerminal(r)
    ensures Trim(r) == r
  {
    var t := Trim(StripEllipsis(OrElse(a, NoAnswer)));
    var r := if EndsTerminal(t) then t else t + ".";
    Terminated(t);
    r
  }

  /** The default answer starts and ends with a letter. */
  lemma NoAnswerShape()
    ensures |NoAnswer| == 18 && NoAnswer[0] == 'N' && NoAnswer[17] == 'd'
  {
  }

  /** A text that starts and ends with a letter is only given a full stop. */
  lemma NormalizeLettered(a: Option<string>, x: string)
    requires OrElse(a, NoAnswer) == x && |x| > 0
    requires 'A' <= x[0] <= 'z' && 'a' <= x[|x| - 1] <= 'z'
    ensures NormalizeAnswer(a) == x + "."
  {
    assert x[|x| - 1] != '.';
    assert StripEllipsis(x) == x;
    TrimmedIsFixpoint(x);
  }

  /** A missing or empty answer becomes the default text with a full stop. */
  lemma NormalizeMissingAnswer(a: Option<string>)
    requires !Truthy(a)
    ensures NormalizeAnswer(a) == NoAnswer + "."
  {
    NoAnswerShape();
    NormalizeLettered(a, NoAnswer);
  }

  /** An answer already in final form passes through unchanged. */
  lemma NormalizeAnswerKeepsFinal(a: string)
    requires |a| > 0 && EndsTerminal(a) && Trim(a) == a
    requires !(|a| >= 3 && a[|a| - 3..] == "...")
    ensures NormalizeAnswer(Some(a)) == a
  {
    assert StripEllipsis(a) == a;
    NormalizeStripped(a, a);
  }

  /** Once the ellipsis step has left a trimmed text, only the terminator rule is left to apply. */
  lemma NormalizeStripped(x: string, t: string)
    requires x != "" && StripEllipsis(x) == t && Trim(t) == t
    ensures EndsTerminal(t) ==> NormalizeAnswer(Some(x)) == t
    ensures !EndsTerminal(t) ==> NormalizeAnswer(Some(x)) == t + "."
  {
    assert OrElse(Some(x), NoAnswer) == x;
  }

  /** An answer truncated with `...` gets a single full stop instead. */
  lemma NormalizeAnswerEllipsis(s: string)
    requires |s| > 0 && !IsSpace(s[0]) && !IsSpace(s[|s| - 1]) && !EndsTerminal(s)
    ensures NormalizeAnswer(Some(s + "...")) == s + "."
  {
    var x := s + "...";
    assert x[|x| - 3..] == "...";
    assert x[..|x| - 3] == s;
    TrimmedIsFixpoint(s);
    NormalizeStripped(x, s);
  }

  /** Only one ellipsis is stripped: an answer ending in six dots keeps three of them. */
  lemma NormalizeAnswerKeepsInnerEllipsis(w: string)
    requires |w| > 0 && !IsSpace(w[0])
    ensures NormalizeAnswer(Some(w + "......")) == w + "..."
  {
    var t := w + "...";
    var x := t + "...";
    assert x == w + "......";
    assert x[|x| - 3..] == "...";
    assert x[..|x| - 3] == t;
    TrimmedIsFixpoint(t);
    assert EndsWith(t, '.');
    NormalizeStripped(x, t);
  }

  /** A finished record as every page relies on it. */
  predicate WellFormed(c: Card) {
    c.question != "" && |c.answer| > 0 && EndsTerminal(c.answer) && Trim(c.answer) == c.answer && c.marks != 0
  }

  /** One record of the final map, at position `index`. */
  function NormalizeCard(fc: RawCard, index: nat): (c: Card)
    ensures WellFormed(c)
    ensures Truthy(fc.question) ==> c.question == fc.question.value
    ensures !Truthy(fc.question) ==> c.question == "Question " + NatToString(index + 1)
    ensures c.answer == NormalizeAnswer(fc.answer)
    ensures fc.marks != 0 ==> c.marks == fc.marks
    ensures fc.marks == 0 ==> c.marks == 1
    ensures Truthy(fc.difficulty) ==> c.difficulty == fc.difficulty.value
    ensures !Truthy(fc.difficulty) ==> c.difficulty == LevelName(Classify(OrElse(fc.question, ""), c.answer))
  {
    var answer := NormalizeAnswer(fc.answer);
    Card(
      OrElse(fc.question, "Question " + NatToString(index + 1)),
      answer,
      MarksOr1(fc.marks),
      if Truthy(fc.difficulty) then fc.difficulty.value else LevelName(Classify(OrElse(fc.question, ""), answer)))
  }

  function NormalizeAll(cards: seq<RawCard>): (r: seq<Card>)
    ensures |r| == |cards|
    ensures forall i :: 0 <= i < |r| ==> r[i] == NormalizeCard(cards[i], i)
  {
    seq(|cards|, i requires 0 <= i < |cards| => NormalizeCard(cards[i], i))
  }
}
