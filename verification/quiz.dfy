/**
 * The quiz page: a session of at most fifteen multiple-choice questions built
 * from the stored cards, and the handlers that move through it and keep the
 * score. Random orderings are parameters: a list of swaps stands for one run
 * of `sort(() => Math.random() - 0.5)`.
 */
module Quiz {
  import opened Wrappers
  import opened Cards

  /** The three distractors every question offers. */
  const Fakes: seq<string> := [
    "Backpropagation is an algorithm used to train a neural network by minimizing errors.",
    "CNNs understand image data by extracting features from small regions.",
    "A monitor is a higher-level synchronization construct with more functionality than semaphores."
  ]

  /** Longest session the page offers. */
  const MaxQuestions := 15

  datatype Question = Question(question: string, correctAnswer: string, options: seq<string>)

  /** One recorded response; `userAnswer` is `None` for the `null` selection. */
  datatype Answer = Answer(question: string, correctAnswer: string, userAnswer: Option<string>, isCorrect: bool)

  datatype QuizState = QuizState(
    questions: seq<Question>,
    current: nat,
    score: nat,
    selected: Option<string>,
    finished: bool,
    answers: seq<Answer>)

  // ---- shuffling ----

  /** Exchanges two positions; an index out of range leaves the list alone. */
  function SwapAt<T>(xs: seq<T>, i: nat, j: nat): (r: seq<T>)
    ensures |r| == |xs| && multiset(r) == multiset(xs)
  {
    if i < |xs| && j < |xs| then xs[i := xs[j]][j := xs[i]] else xs
  }

  /** The outcome of one random sort: the swaps applied in order. */
  function Shuffle<T>(xs: seq<T>, swaps: seq<(nat, nat)>): (r: seq<T>)
    ensures |r| == |xs| && multiset(r) == multiset(xs)
    decreases |swaps|
  {
    if swaps == [] then xs else Shuffle(SwapAt(xs, swaps[0].0, swaps[0].1), swaps[1..])
  }

  // ---- building the session ----

  /** One card as a question: its answer among the three fakes, in shuffled order. */
  function BuildQuestion(card: Card, swaps: seq<(nat, nat)>): (q: Question)
    ensures q.question == card.question && q.correctAnswer == card.answer
    ensures |q.options| == 4 && multiset(q.options) == multiset(Fakes + [card.answer])
    ensures card.answer in q.options
  {
    var q := Question(card.question, card.answer, Shuffle(Fakes + [card.answer], swaps));
    assert card.answer in multiset(q.options);
    q
  }

  /** Every card as a question, in the order of the stored list. */
  function Formatted(cards: seq<Card>, optionSwaps: nat -> seq<(nat, nat)>): (r: seq<Question>)
    ensures |r| == |cards|
    ensures forall i :: 0 <= i < |r| ==> r[i] == BuildQuestion(cards[i], optionSwaps(i))
  {
    seq(|cards|, i requires 0 <= i < |cards| => BuildQuestion(cards[i], optionSwaps(i)))
  }

  /** A prefix takes no element more often than the whole list has it. */
  lemma PrefixMultiset<T>(xs: seq<T>, k: nat)
    requires k <= |xs|
    ensures multiset(xs[..k]) <= multiset(xs)
  {
    assert xs == xs[..k] + xs[k..];
  }

  /**
   * The questions of a session: all of them for at most fifteen cards, in
   * order, otherwise the first fifteen of a shuffle.
   */
  function Session(cards: seq<Card>, optionSwaps: nat -> seq<(nat, nat)>, questionSwaps: seq<(nat, nat)>): (r: seq<Question>)
    ensures |r| == if |cards| > MaxQuestions then MaxQuestions else |cards|
    ensures |cards| <= MaxQuestions ==> r == Formatted(cards, optionSwaps)
    ensures multiset(r) <= multiset(Formatted(cards, optionSwaps))
  {
    var formatted := Formatted(cards, optionSwaps);
    if |formatted| > MaxQuestions then
      var shuffled := Shuffle(formatted, questionSwaps);
      PrefixMultiset(shuffled, MaxQuestions);
      shuffled[..MaxQuestions]
    else formatted
  }

  /** Every question of a session comes from a stored card, with that card's answer among four options. */
  lemma SessionQuestionsFromCards(cards: seq<Card>, optionSwaps: nat -> seq<(nat, nat)>, questionSwaps: seq<(nat, nat)>, i: nat)
    requires i < |Session(cards, optionSwaps, questionSwaps)|
    ensures var q := Session(cards, optionSwaps, questionSwaps)[i];
            && |q.options| == 4
            && q.correctAnswer in q.options
            && exists j :: 0 <= j < |cards| && q == BuildQuestion(cards[j], optionSwaps(j))
  {
    var r := Session(cards, optionSwaps, questionSwaps);
    var formatted := Formatted(cards, optionSwaps);
    assert r[i] in multiset(r);
    assert r[i] in multiset(formatted);
    var j :| 0 <= j < |formatted| && formatted[j] == r[i];
    assert r[i] == BuildQuestion(cards[j], optionSwaps(j));
  }

  // ---- the handlers ----

  function Start(questions: seq<Question>): QuizState {
    QuizState(questions, 0, 0, None, false, [])
  }

  /** Number of answers marked correct. */
  function CountCorrect(answers: seq<Answer>): (n: nat)
    ensures n <= |answers|
  {
    if answers == [] then 0 else CountCorrect(answers[..|answers| - 1]) + (if answers[|answers| - 1].isCorrect then 1 else 0)
  }

  /** The response to the current question; correct exactly when the selection is its answer. */
  function Response(s: QuizState): (a: Answer)
    requires s.current < |s.questions|
    ensures a.question == s.questions[s.current].question
    ensures a.correctAnswer == s.questions[s.current].correctAnswer && a.userAnswer == s.selected
    ensures a.isCorrect <==> s.selected == Some(s.questions[s.current].correctAnswer)
  {
    var q := s.questions[s.current];
    Answer(q.question, q.correctAnswer, s.selected, s.selected == Some(q.correctAnswer))
  }

  /** `saveAnswer`: record the response and count it when correct. */
  function SaveAnswer(s: QuizState): (t: QuizState)
    requires s.current < |s.questions|
    ensures t.answers == s.answers + [Response(s)]
    ensures t.score == s.score + (if Response(s).isCorrect then 1 else 0)
    ensures t.questions == s.questions && t.current == s.current && t.selected == s.selected && t.finished == s.finished
  {
    var a := Response(s);
    s.(answers := s.answers + [a], score := if a.isCorrect then s.score + 1 else s.score)
  }

  /** `handleNext`: record, clear the selection, then advance or finish. */
  function Next(s: QuizState): (t: QuizState)
    requires s.current < |s.questions|
    ensures t.questions == s.questions && t.answers == s.answers + [Response(s)] && t.selected.None?
    ensures t.score == s.score + (if Response(s).isCorrect then 1 else 0)
    ensures s.current + 1 < |s.questions| ==> t.current == s.current + 1 && t.finished == s.finished
    ensures s.current + 1 >= |s.questions| ==> t.current == s.current && t.finished
  {
    var saved := SaveAnswer(s).(selected := None);
    if s.current + 1 < |s.questions| then saved.(current := s.current + 1) else saved.(finished := true)
  }

  /** `handlePrev`: step back unless at the first question. */
  function Prev(s: QuizState): (t: QuizState)
    ensures t.answers == s.answers && t.score == s.score && t.selected == s.selected && t.finished == s.finished
    ensures t.current == if s.current > 0 then s.current - 1 else 0
  {
    if s.current > 0 then s.(current := s.current - 1) else s
  }

  /** `handleFinish`: record and finish; the selection stays. */
  function Finish(s: QuizState): (t: QuizState)
    requires s.current < |s.questions|
    ensures t.questions == s.questions && t.answers == s.answers + [Response(s)]
    ensures t.score == s.score + (if Response(s).isCorrect then 1 else 0)
    ensures t.finished && t.current == s.current && t.selected == s.selected
  {
    SaveAnswer(s).(finished := true)
  }

  /** Choosing a radio button. */
  function Choose(s: QuizState, option: string): (t: QuizState)
    ensures t.selected == Some(option) && t.answers == s.answers && t.score == s.score && t.current == s.current
  {
    s.(selected := Some(option))
  }

  // ---- the page as a state machine ----

  datatype Event = Select(option: string) | NextPressed | PrevPressed | FinishPressed

  /** A selection is truthy when present and non-empty. */
  predicate HasSelection(s: QuizState) {
    s.selected.Some? && s.selected.value != ""
  }

  /**
   * What the rendered page lets the user do: nothing while loading or after
   * finishing; an option of the current question; Previous except at the
   * first question; Finish at the last question and Next elsewhere, both only
   * with a selection.
   */
  predicate Enabled(s: QuizState, e: Event) {
    && |s.questions| > 0 && !s.finished && s.current < |s.questions|
    && match e
       case Select(o) => o in s.questions[s.current].options
       case PrevPressed => s.current != 0
       case NextPressed => HasSelection(s) && s.current + 1 != |s.questions|
       case FinishPressed => HasSelection(s) && s.current + 1 == |s.questions|
  }

  /** One press on the page: the questions never change, and at most one answer is recorded. */
  function Step(s: QuizState, e: Event): (t: QuizState)
    requires Enabled(s, e)
    ensures t.questions == s.questions && t.current < |t.questions|
    ensures s.answers <= t.answers && |t.answers| <= |s.answers| + 1
    ensures |t.answers| == |s.answers| + 1 <==> e.NextPressed? || e.FinishPressed?
    ensures t.finished <==> e.FinishPressed?
  {
    match e
    case Select(o) => Choose(s, o)
    case PrevPressed => Prev(s)
    case NextPressed => Next(s)
    case FinishPressed => Finish(s)
  }

  /** Every recorded answer belongs to a question of the session. */
  predicate Recorded(a: Answer, questions: seq<Question>) {
    exists i :: 0 <= i < |questions| && a.question == questions[i].question && a.correctAnswer == questions[i].correctAnswer
  }

  /**
   * What holds on every reachable state: the index is in range, the score
   * counts the correct answers, and each answer is judged against its own
   * question's answer.
   */
  predicate Valid(s: QuizState) {
    && (|s.questions| > 0 ==> s.current < |s.questions|)
    && s.score == CountCorrect(s.answers)
    && (forall k :: 0 <= k < |s.answers| ==> s.answers[k].isCorrect == (s.answers[k].userAnswer == Some(s.answers[k].correctAnswer)))
    && (forall k :: 0 <= k < |s.answers| ==> Recorded(s.answers[k], s.questions))
  }

  lemma StartValid(questions: seq<Question>)
    ensures Valid(Start(questions))
  {
  }

  /** Recording one more answer keeps the score equal to the count of correct answers. */
  lemma CountCorrectAppend(answers: seq<Answer>, a: Answer)
    ensures CountCorrect(answers + [a]) == CountCorrect(answers) + (if a.isCorrect then 1 else 0)
  {
    assert (answers + [a])[..|answers|] == answers;
  }

  lemma SaveAnswerValid(s: QuizState)
    requires Valid(s) && s.current < |s.questions|
    ensures Valid(SaveAnswer(s))
  {
    var t := SaveAnswer(s);
    CountCorrectAppend(s.answers, Response(s));
    forall k | 0 <= k < |t.answers|
      ensures Recorded(t.answers[k], t.questions)
    {
      if k < |s.answers| {
        assert t.answers[k] == s.answers[k];
      } else {
        assert t.answers[k] == Response(s);
        assert t.answers[k].question == t.questions[s.current].question;
      }
    }
  }

  /** Every enabled event keeps the state valid. */
  lemma StepValid(s: QuizState, e: Event)
    requires Valid(s) && Enabled(s, e)
    ensures Valid(Step(s, e))
  {
    match e
    case Select(o) =>
    case PrevPressed =>
    case NextPressed => SaveAnswerValid(s);
    case FinishPressed => SaveAnswerValid(s);
  }

  /** Next records exactly one answer for the current question, clears the selection, and advances or finishes. */
  lemma NextRecordsOne(s: QuizState)
    requires s.current < |s.questions|
    ensures var t := Next(s);
            && |t.answers| == |s.answers| + 1
            && t.answers[..|s.answers|] == s.answers
            && t.answers[|s.answers|] == Response(s)
            && t.selected.None?
            && (s.current + 1 < |s.questions| ==> t.current == s.current + 1 && t.finished == s.finished)
            && (s.current + 1 >= |s.questions| ==> t.current == s.current && t.finished)
  {
    assert Next(s).answers[..|s.answers|] == s.answers;
  }

  /** Finish records exactly one answer and ends the quiz. */
  lemma FinishRecordsOne(s: QuizState)
    requires s.current < |s.questions|
    ensures var t := Finish(s);
            && t.answers == s.answers + [Response(s)]
            && t.finished && t.current == s.current && t.selected == s.selected
  {
  }

  /** The score moves by one exactly on a correct answer and never otherwise. */
  lemma ScoreOnlyOnCorrect(s: QuizState, e: Event)
    requires Valid(s) && Enabled(s, e)
    ensures Step(s, e).score == s.score + 1 <==> (e.NextPressed? || e.FinishPressed?) && s.selected == Some(s.questions[s.current].correctAnswer)
    ensures Step(s, e).score == s.score || Step(s, e).score == s.score + 1
  {
  }

  /** No enabled event moves the index outside the session. */
  lemma StepKeepsIndex(s: QuizState, e: Event)
    requires Valid(s) && Enabled(s, e)
    ensures Step(s, e).current < |Step(s, e).questions|
    ensures Step(s, e).questions == s.questions
  {
  }

  /**
   * Going back and answering again records the same question twice: the
   * answer list is a log of responses, not one entry per question.
   */
  lemma AnswersCanRepeat(s: QuizState, o: string)
    requires |s.questions| >= 2 && s.current == 0
    requires o in s.questions[0].options && o != ""
    ensures var u := Next(Choose(Prev(Next(Choose(s, o))), o));
            && |u.answers| == |s.answers| + 2
            && u.answers[|s.answers|] == u.answers[|s.answers| + 1]
            && u.answers[|s.answers|].question == s.questions[0].question
  {
  }
}
