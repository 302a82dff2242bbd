/**
 * The padding pass of the generation route: an answer shorter than 80% of
 * the expected word count for its marks gets a fixed elaboration appended.
 */
module Padding {
  import opened Wrappers
  import opened Text
  import opened Cards

  const Pad2: string := " This is an important concept that requires proper understanding for effective application."
  const Pad5: string := " This involves several key aspects that must be considered for effective implementation and optimal results."
  const Pad10: string := " This concept involves multiple interconnected components that work together to achieve the desired outcome. Understanding these relationships is crucial for practical implementation and successful application in real-world scenarios. The methodology encompasses various techniques and approaches that have been developed and refined through extensive research and practical experience."

  /** `fc.answer ? fc.answer.split(' ').length : 0`. */
  function WordCount(a: Option<string>): (n: nat)
    ensures Truthy(a) ==> n == |Split(a.value, ' ')| && n >= 1
    ensures !Truthy(a) ==> n == 0
  {
    if Truthy(a) then Count(a.value, ' ') + 1 else 0
  }

  /** The `minWords` table; other mark values look up `undefined`. */
  function MinWords(m: int): Option<nat> {
    if m == 1 then Some(20) else if m == 2 then Some(50) else if m == 5 then Some(100) else if m == 10 then Some(250) else None
  }

  /** The text `fc.answer += suffix` starts from: a missing answer reads as `undefined`. */
  function AnswerText(a: Option<string>): string {
    if a.Some? then a.value else "undefined"
  }

  /** The suffix appended for a mark value, empty where nothing is appended. */
  function PadSuffix(m: int): string {
    if m == 2 then Pad2 else if m == 5 then Pad5 else if m == 10 then Pad10 else ""
  }

  /** The per-mark word threshold below which padding happens: `minWords * 0.8` for 2, 5 and 10 marks. */
  predicate NeedsPad(m: int, words: nat) {
    (m == 2 && words < 40) || (m == 5 && words < 80) || (m == 10 && words < 200)
  }

  /**
   * One card through the padding map. `words < minWords[marks] * 0.8` is the
   * integer test `5 * words < 4 * minWords[marks]`; an unknown mark value makes
   * the product NaN and the test false.
   */
  function Pad(fc: RawCard): (r: RawCard)
    ensures r.question == fc.question && r.marks == fc.marks && r.difficulty == fc.difficulty
    ensures r == fc || r.answer == Some(AnswerText(fc.answer) + PadSuffix(MarksOr1(fc.marks)))
    ensures fc.answer.Some? && r.answer.Some? ==> fc.answer.value <= r.answer.value
    ensures r.answer.Some? || r == fc
  {
    var words := WordCount(fc.answer);
    var marks := MarksOr1(fc.marks);
    match MinWords(marks)
    case None => fc
    case Some(w) =>
      if 5 * words < 4 * w then
        if marks == 10 && words < 200 then fc.(answer := Some(AnswerText(fc.answer) + Pad10))
        else if marks == 5 && words < 80 then fc.(answer := Some(AnswerText(fc.answer) + Pad5))
        else if marks == 2 && words < 40 then fc.(answer := Some(AnswerText(fc.answer) + Pad2))
        else fc
      else fc
  }

  /** A card is padded exactly when its word count is below 40, 80 or 200 for 2, 5 or 10 marks. */
  lemma PadExactly(fc: RawCard)
    ensures Pad(fc) != fc <==> NeedsPad(MarksOr1(fc.marks), WordCount(fc.answer))
    ensures !NeedsPad(MarksOr1(fc.marks), WordCount(fc.answer)) ==> Pad(fc) == fc
  {
    var m := MarksOr1(fc.marks);
    if NeedsPad(m, WordCount(fc.answer)) {
      var a := AnswerText(fc.answer);
      assert |a + PadSuffix(m)| > |a|;
      assert Pad(fc).answer != fc.answer;
    }
  }

  function PadAll(cards: seq<RawCard>): (r: seq<RawCard>)
    ensures |r| == |cards|
    ensures forall i :: 0 <= i < |r| ==> r[i] == Pad(cards[i])
  {
    seq(|cards|, i requires 0 <= i < |cards| => Pad(cards[i]))
  }
}
