/**
 * The legacy PDF importer: the extracted text is cut into non-blank lines,
 * and consecutive pairs of lines become question and answer.
 */
module LegacyUpload {
  import opened Wrappers
  import opened Text
  import opened Cards
  import opened Difficulty
  import opened Lists

  /** A stored record of the legacy importer. */
  datatype LegacyCard = LegacyCard(userId: string, question: string, answer: string, difficulty: Level)

  /** The test of `lines.filter(l => l.trim() !== '')`. */
  predicate NotBlank(line: string) {
    Trim(line) != ""
  }

  /** The lines the importer pairs up. */
  function Lines(text: string): (r: seq<string>)
    ensures forall i :: 0 <= i < |r| ==> NotBlank(r[i]) && r[i] != ""
  {
    var r := Filter(Split(text, '\n'), NotBlank);
    forall i | 0 <= i < |r|
      ensures NotBlank(r[i]) && r[i] != ""
    {
      assert Trim("") == "";
    }
    r
  }

  /** The card built from a question line and an answer line; the classifier sees the untrimmed lines. */
  function PairCard(userId: string, question: string, answer: string): (c: LegacyCard)
    ensures c.userId == userId
    ensures |c.question| > 0 ==> !IsSpace(c.question[0]) && !IsSpace(c.question[|c.question| - 1])
    ensures |c.answer| > 0 ==> !IsSpace(c.answer[0]) && !IsSpace(c.answer[|c.answer| - 1])
    ensures c.difficulty == Easy <==> |question| + |answer| + 1 < 50
    ensures c.difficulty == Hard <==> |question| + |answer| + 1 >= 100
  {
    LegacyCard(userId, Trim(question), Trim(answer), LegacyClassify(question, answer))
  }

  /** What the first `n` pairs of lines become, built one after the other by `build`. */
  function PairsUpTo<T>(lines: seq<string>, n: nat, build: (string, string) -> T): (r: seq<T>)
    requires 2 * n <= |lines|
    ensures |r| == n
  {
    if n == 0 then [] else PairsUpTo(lines, n - 1, build) + [build(lines[2 * n - 2], lines[2 * n - 1])]
  }

  /** Entry `k` of the first `n` pairs is built from lines `2k` and `2k + 1`. */
  lemma {:induction false} PairsUpToIndex<T>(lines: seq<string>, n: nat, k: nat, build: (string, string) -> T)
    requires 2 * n <= |lines| && k < n
    ensures PairsUpTo(lines, n, build)[k] == build(lines[2 * k], lines[2 * k + 1])
  {
    if k < n - 1 {
      PairsUpToIndex(lines, n - 1, k, build);
    }
  }

  lemma HalfOf(n: nat, c: nat)
    requires 2 * c == n || 2 * c + 1 == n
    ensures c == n / 2
  {
  }

  /**
   * The pairing loop. Every line is non-blank, so `lines[i + 1]` is truthy
   * exactly when it exists; an odd last line is dropped.
   */
  method Pair(userId: string, lines: seq<string>) returns (cards: seq<LegacyCard>)
    requires forall i :: 0 <= i < |lines| ==> lines[i] != ""
    ensures |cards| == |lines| / 2
    ensures forall k :: 0 <= k < |cards| ==> 2 * k + 1 < |lines| && cards[k] == PairCard(userId, lines[2 * k], lines[2 * k + 1])
  {
    var build := (q: string, a: string) => PairCard(userId, q, a);
    cards := [];
    var i := 0;
    while i < |lines|
      invariant 2 * |cards| <= |lines| && i <= |lines| + 1
      invariant i == 2 * |cards| || (i == 2 * |cards| + 2 && 2 * |cards| + 1 == |lines|)
      invariant cards == PairsUpTo(lines, |cards|, build)
    {
      if i + 1 < |lines| && lines[i + 1] != "" {
        assert i == 2 * |cards|;
        cards := cards + [PairCard(userId, lines[i], lines[i + 1])];
      }
      i := i + 2;
    }
    HalfOf(|lines|, |cards|);
    forall k | 0 <= k < |cards|
      ensures cards[k] == PairCard(userId, lines[2 * k], lines[2 * k + 1])
    {
      PairsUpToIndex(lines, |cards|, k, build);
    }
  }

  /** The upload route: no file is a client error, otherwise the paired lines. */
  method Upload(userId: string, file: Option<string>) returns (r: Result<seq<LegacyCard>>)
    ensures file.None? <==> r.Err?
    ensures r.Ok? ==> |r.value| == |Lines(file.value)| / 2
    ensures r.Ok? ==> forall k :: 0 <= k < |r.value| ==> r.value[k] == PairCard(userId, Lines(file.value)[2 * k], Lines(file.value)[2 * k + 1])
  {
    if file.None? {
      return Err("No PDF uploaded");
    }
    var cards := Pair(userId, Lines(file.value));
    r := Ok(cards);
  }

  /** Every stored question and answer is trimmed and non-empty, and every card belongs to the uploader. */
  lemma PairedCardsAreFilled(userId: string, question: string, answer: string)
    requires Trim(question) != "" && Trim(answer) != ""
    ensures var c := PairCard(userId, question, answer);
            && c.userId == userId
            && c.question != "" && Trim(c.question) == c.question
            && c.answer != "" && Trim(c.answer) == c.answer
  {
    TrimIdempotent(question);
    TrimIdempotent(answer);
  }
}
