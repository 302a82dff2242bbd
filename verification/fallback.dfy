/**
 * The deterministic fallback generator of the generation route
 * (`generateFallbackFlashcards`). The text is split into sentences at runs of
 * `.`, `!` and `?`; sentences whose trimmed length exceeds 20 are kept. The
 * distribution table 1 mark x 6, 2 marks x 8, 5 marks x 4, 10 marks x 2 is
 * walked slot by slot, slot `k` consuming sentence `k`: the loop guard stops
 * at the last sentence, so the `%` never wraps around, and a sentence shorter
 * than 30 characters uses up its slot without producing a card.
 */
module Fallback {
  import opened Text
  import opened Cards
  import opened Difficulty
  import opened Lists

  predicate IsStop(c: char) { c == '.' || c == '!' || c == '?' }

  /** `s` without its leading run of stops. */
  function SkipStops(s: string): (r: string)
    ensures |r| <= |s| && r == s[|s| - |r|..]
    ensures |r| > 0 ==> !IsStop(r[0])
    ensures forall i :: 0 <= i < |s| - |r| ==> IsStop(s[i])
  {
    if |s| > 0 && IsStop(s[0]) then SkipStops(s[1..]) else s
  }

  /** The maximal runs of stops in `s`, left to right. */
  function StopRuns(s: string): (r: seq<string>)
    ensures forall i :: 0 <= i < |r| ==> |r[i]| > 0 && forall j :: 0 <= j < |r[i]| ==> IsStop(r[i][j])
    decreases |s|
  {
    if |s| == 0 then []
    else if IsStop(s[0]) then [s[..|s| - |SkipStops(s)|]] + StopRuns(SkipStops(s))
    else StopRuns(s[1..])
  }

  /** The pieces with the runs put back between them. */
  function Interleave(pieces: seq<string>, runs: seq<string>): string
    requires |pieces| == |runs| + 1
    decreases |runs|
  {
    if |runs| == 0 then pieces[0] else pieces[0] + runs[0] + Interleave(pieces[1..], runs[1..])
  }

  /** A run in front of an empty first piece goes in front of the whole. */
  lemma InterleaveRun(run: string, pieces: seq<string>, runs: seq<string>)
    requires |pieces| == |runs| + 1
    ensures Interleave([""] + pieces, [run] + runs) == run + Interleave(pieces, runs)
    ensures |[""] + pieces| == |[run] + runs| + 1
  {
    assert ([""] + pieces)[1..] == pieces && ([run] + runs)[1..] == runs;
  }

  /** Putting a character in front of the first piece puts it in front of the whole. */
  lemma InterleaveCons(c: char, pieces: seq<string>, runs: seq<string>)
    requires |pieces| == |runs| + 1
    ensures Interleave([[c] + pieces[0]] + pieces[1..], runs) == [c] + Interleave(pieces, runs)
  {
    var p := [[c] + pieces[0]] + pieces[1..];
    assert p[1..] == pieces[1..];
  }

  /** `s.split(/[.!?]+/)`: the stop-free pieces between runs of stops, empty ones included. */
  function SplitStops(s: string): (r: seq<string>)
    ensures |r| >= 1
    ensures forall i :: 0 <= i < |r| ==> |r[i]| <= |s|
    ensures forall i, j :: 0 <= i < |r| && 0 <= j < |r[i]| ==> !IsStop(r[i][j])
    decreases |s|
  {
    if |s| == 0 then [""]
    else if IsStop(s[0]) then [""] + SplitStops(SkipStops(s))
    else
      var rest := SplitStops(s[1..]);
      [[s[0]] + rest[0]] + rest[1..]
  }

  /**
   * The pieces sit exactly between the maximal runs of stops: putting the
   * runs back between them gives the text again, which fixes every split
   * point.
   */
  lemma {:induction false} SplitStopsRoundTrip(s: string)
    ensures RoundTrips(s)
    decreases |s|
  {
    if |s| > 0 {
      if IsStop(s[0]) {
        SplitStopsRoundTrip(SkipStops(s));
        RoundTripAtStop(s);
      } else {
        SplitStopsRoundTrip(s[1..]);
        RoundTripAtChar(s);
      }
    }
  }

  /** Splitting `s` and putting the runs back gives `s`. */
  predicate RoundTrips(s: string) {
    |SplitStops(s)| == |StopRuns(s)| + 1 && Interleave(SplitStops(s), StopRuns(s)) == s
  }

  /** The round trip through a leading run of stops. */
  lemma RoundTripAtStop(s: string)
    requires |s| > 0 && IsStop(s[0]) && RoundTrips(SkipStops(s))
    ensures RoundTrips(s)
  {
    var t := SkipStops(s);
    var run := s[..|s| - |t|];
    UnfoldAtStop(s);
    InterleaveRun(run, SplitStops(t), StopRuns(t));
  }

  /** At a stop, the split opens with an empty piece and the runs with the leading run. */
  lemma UnfoldAtStop(s: string)
    requires |s| > 0 && IsStop(s[0])
    ensures var t := SkipStops(s);
            && SplitStops(s) == [""] + SplitStops(t)
            && StopRuns(s) == [s[..|s| - |t|]] + StopRuns(t)
            && s == s[..|s| - |t|] + t
  {
    SplitAtStop(s);
    RunsAtStop(s);
    PrefixAndSuffix(s, SkipStops(s));
  }

  lemma PrefixAndSuffix(s: string, t: string)
    requires |t| <= |s| && t == s[|s| - |t|..]
    ensures s == s[..|s| - |t|] + t
  {
  }

  lemma SplitAtStop(s: string)
    requires |s| > 0 && IsStop(s[0])
    ensures SplitStops(s) == [""] + SplitStops(SkipStops(s))
  {
  }

  lemma RunsAtStop(s: string)
    requires |s| > 0 && IsStop(s[0])
    ensures StopRuns(s) == [s[..|s| - |SkipStops(s)|]] + StopRuns(SkipStops(s))
  {
  }

  /** The round trip through a leading character that is not a stop. */
  lemma RoundTripAtChar(s: string)
    requires |s| > 0 && !IsStop(s[0]) && RoundTrips(s[1..])
    ensures RoundTrips(s)
  {
    var rest := SplitStops(s[1..]);
    assert SplitStops(s) == [[s[0]] + rest[0]] + rest[1..];
    assert StopRuns(s) == StopRuns(s[1..]);
    InterleaveCons(s[0], rest, StopRuns(s[1..]));
    assert s == [s[0]] + s[1..];
  }

  /** The text with every stop removed. */
  function RemoveStops(s: string): string {
    if |s| == 0 then "" else (if IsStop(s[0]) then "" else [s[0]]) + RemoveStops(s[1..])
  }

  lemma {:induction false} RemoveStopsOfStops(s: string, t: string)
    requires |t| <= |s| && t == s[|s| - |t|..]
    requires forall i :: 0 <= i < |s| - |t| ==> IsStop(s[i])
    ensures RemoveStops(s) == RemoveStops(t)
    decreases |s|
  {
    if |s| > |t| {
      RemoveStopsOfStops(s[1..], t);
    }
  }

  /** Splitting loses only the stops: the pieces concatenate to the text without them. */
  lemma {:induction false} SplitStopsCover(s: string)
    ensures Concat(SplitStops(s)) == RemoveStops(s)
    decreases |s|
  {
    if |s| > 0 {
      if IsStop(s[0]) {
        SplitStopsCover(SkipStops(s));
        RemoveStopsOfStops(s, SkipStops(s));
      } else {
        SplitStopsCover(s[1..]);
        var rest := SplitStops(s[1..]);
        assert rest == [rest[0]] + rest[1..];
        assert Concat(rest) == rest[0] + Concat(rest[1..]);
      }
    }
  }

  /** The test of `.filter(s => s.trim().length > 20)`; the kept sentences are not trimmed. */
  predicate IsLong(piece: string) {
    |Trim(piece)| > 20
  }

  /** The sentences the generator draws from. */
  function Sentences(text: string): (r: seq<string>)
    ensures forall i :: 0 <= i < |r| ==> |Trim(r[i])| > 20 && |r[i]| <= |text|
    ensures forall i, j :: 0 <= i < |r| && 0 <= j < |r[i]| ==> !IsStop(r[i][j])
  {
    var pieces := SplitStops(text);
    var r := Filter(pieces, IsLong);
    forall i | 0 <= i < |r|
      ensures |Trim(r[i])| > 20 && |r[i]| <= |text| && forall j :: 0 <= j < |r[i]| ==> !IsStop(r[i][j])
    {
      assert IsLong(r[i]);
      var k :| 0 <= k < |pieces| && pieces[k] == r[i];
    }
    r
  }

  // ---- the distribution table ----

  const MaxCards: nat := 20

  /** The distribution table: (marks, count) pairs, walked in this order. */
  const Table: seq<(int, nat)> := [(1, 6), (2, 8), (5, 4), (10, 2)]

  predicate IsTableMark(m: int) { m == 1 || m == 2 || m == 5 || m == 10 }

  /** The first slot of table row `d`. */
  function RowStart(d: nat): (s: nat)
    requires d <= |Table|
  {
    if d == 0 then 0 else RowStart(d - 1) + Table[d - 1].1
  }

  /** The marks of slot `k` of the walk. */
  function SlotMarks(k: nat): (m: int)
    ensures IsTableMark(m)
  {
    if k < 6 then 1 else if k < 14 then 2 else if k < 18 then 5 else 10
  }

  /** The position of a mark value in the table order. */
  function MarkRank(m: int): nat {
    if m == 1 then 0 else if m == 2 then 1 else if m == 5 then 2 else 3
  }

  /** How many cards of each mark the table asks for. */
  function TableCount(m: int): nat {
    if m == 1 then 6 else if m == 2 then 8 else if m == 5 then 4 else if m == 10 then 2 else 0
  }

  lemma RowMarks(d: nat, k: nat)
    requires d < |Table| && RowStart(d) <= k < RowStart(d) + Table[d].1
    ensures SlotMarks(k) == Table[d].0
  {
  }

  // ---- one card ----

  /** `sentences[j] || ''`. */
  function Nth(sents: seq<string>, j: nat): string {
    if j < |sents| then sents[j] else ""
  }

  /** `sentence.split(' ').slice(lo, hi).join(' ')`. */
  function WordsBetween(s: string, lo: nat, hi: nat): string
    requires lo <= hi
  {
    Join(Slice(Split(s, ' '), lo, hi), " ")
  }

  /** The longest answer the generator writes for a mark value. */
  function MaxAnswer(m: int): nat {
    if m == 1 then 61 else if m == 2 then 203 else if m == 5 then 301 else 601
  }

  function MakeQuestion(marks: int, s: string): (q: string)
    requires IsTableMark(marks)
    ensures marks == 1 ==> "What is " <= q && EndsWith(q, '?')
    ensures marks == 2 ==> "Explain " <= q
    ensures marks == 5 ==> "Describe in detail: " <= q
    ensures marks == 10 ==> "Provide a comprehensive analysis of " <= q
  {
    if marks == 1 then "What is " + WordsBetween(s, 1, 4) + "?"
    else if marks == 2 then "Explain " + WordsBetween(s, 0, 5)
    else if marks == 5 then "Describe in detail: " + WordsBetween(s, 0, 6)
    else "Provide a comprehensive analysis of " + WordsBetween(s, 1, 7) + " including examples and applications"
  }

  /** `text.substring(0, n).trim() + '.'`. */
  function Close(text: string, n: nat): (a: string)
    ensures EndsWith(a, '.') && |a| <= n + 1
  {
    Trim(Prefix(text, n)) + "."
  }

  function MakeAnswer(marks: int, sents: seq<string>, k: nat): (a: string)
    requires IsTableMark(marks)
    ensures EndsWith(a, '.') && |a| <= MaxAnswer(marks)
  {
    var s := Nth(sents, k);
    if marks == 1 then Close(s, 60)
    else if marks == 2 then Trim(Prefix(s, 120)) + ". " + Close(Nth(sents, k + 1), 80)
    else if marks == 5 then Close(s + " " + Nth(sents, k + 1) + " " + Nth(sents, k + 2), 300)
    else
      var all := s + " " + Nth(sents, k + 1) + " " + Nth(sents, k + 2) + " " + Nth(sents, k + 3)
                 + " " + Nth(sents, k + 4) + " " + Nth(sents, k + 5);
      Close(all, 600)
  }

  /** The card built from sentence `k` for a slot of the given marks. */
  function BuildCard(marks: int, sents: seq<string>, k: nat): (c: Card)
    requires IsTableMark(marks)
    ensures c.marks == marks
    ensures EndsWith(c.answer, '.') && |c.answer| <= MaxAnswer(marks)
    ensures c.difficulty == LevelName(Classify(c.question, c.answer))
  {
    var q := MakeQuestion(marks, Nth(sents, k));
    var a := MakeAnswer(marks, sents, k);
    Card(q, a, marks, LevelName(Classify(q, a)))
  }

  // ---- the reference definition: one slot per sentence ----

  /** The sentence length below which a slot is skipped. */
  const MinSentence: nat := 30

  /** The slots below `c` whose sentence is long enough to yield a card, in increasing order. */
  function Slots(sents: seq<string>, c: nat): (r: seq<nat>)
    requires c <= |sents|
    ensures forall j :: 0 <= j < |r| ==> r[j] < c && |sents[r[j]]| >= MinSentence
    ensures forall i, j :: 0 <= i < j < |r| ==> r[i] < r[j]
    ensures forall k :: 0 <= k < c && |sents[k]| >= MinSentence ==> k in r
    ensures |r| <= c
  {
    if c == 0 then []
    else Slots(sents, c - 1) + (if |sents[c - 1]| >= MinSentence then [c - 1] else [])
  }

  /** `build` applied to each slot below `c` that yields a card, in slot order. */
  function SlotMap<T>(sents: seq<string>, c: nat, build: nat -> T): (r: seq<T>)
    requires c <= |sents|
    ensures |r| == |Slots(sents, c)|
  {
    if c == 0 then []
    else SlotMap(sents, c - 1, build) + (if |sents[c - 1]| >= MinSentence then [build(c - 1)] else [])
  }

  /** Entry `j` of the map is built from slot `Slots(sents, c)[j]`. */
  lemma {:induction false} SlotMapIndex<T>(sents: seq<string>, c: nat, build: nat -> T, j: nat)
    requires c <= |sents| && j < |SlotMap(sents, c, build)|
    ensures SlotMap(sents, c, build)[j] == build(Slots(sents, c)[j])
  {
    var prev := SlotMap(sents, c - 1, build);
    if |sents[c - 1]| >= MinSentence && j == |prev| {
      assert Slots(sents, c) == Slots(sents, c - 1) + [c - 1];
    } else {
      SlotMapIndex(sents, c - 1, build, j);
    }
  }

  /** The card of slot `k`: the slot's marks applied to sentence `k`. */
  function CardOf(sents: seq<string>): nat -> Card {
    (k: nat) => BuildCard(SlotMarks(k), sents, k)
  }

  /** The cards of the slots below `c`, one per slot. */
  function CardsUpTo(sents: seq<string>, c: nat): (r: seq<Card>)
    requires c <= |sents|
    ensures |r| == |Slots(sents, c)|
  {
    SlotMap(sents, c, CardOf(sents))
  }

  lemma CardsUpToStep(sents: seq<string>, c: nat)
    requires c < |sents|
    ensures |sents[c]| < MinSentence ==> CardsUpTo(sents, c + 1) == CardsUpTo(sents, c)
    ensures |sents[c]| >= MinSentence ==> CardsUpTo(sents, c + 1) == CardsUpTo(sents, c) + [BuildCard(SlotMarks(c), sents, c)]
  {
  }

  /** Card `j` is built from sentence `Slots(sents, c)[j]` with the marks of that slot. */
  lemma CardSource(sents: seq<string>, c: nat, j: nat)
    requires c <= |sents| && j < |CardsUpTo(sents, c)|
    ensures CardsUpTo(sents, c)[j] == BuildCard(SlotMarks(Slots(sents, c)[j]), sents, Slots(sents, c)[j])
  {
    SlotMapIndex(sents, c, CardOf(sents), j);
  }

  lemma CardsSources(sents: seq<string>, c: nat)
    requires c <= |sents|
    ensures forall j :: 0 <= j < |CardsUpTo(sents, c)| ==>
              CardsUpTo(sents, c)[j] == BuildCard(SlotMarks(Slots(sents, c)[j]), sents, Slots(sents, c)[j])
  {
    forall j | 0 <= j < |CardsUpTo(sents, c)| {
      CardSource(sents, c, j);
    }
  }

  /** What the generator returns for `text`. */
  function FallbackCards(text: string): seq<Card> {
    var sents := Sentences(text);
    CardsUpTo(sents, if |sents| < MaxCards then |sents| else MaxCards)
  }

  /** `cardIndex % sentences.length`; the walk only ever asks with `a < n`. */
  function Wrap(a: nat, n: nat): (r: nat)
    requires n > 0
    ensures a < n ==> r == a
  {
    a % n
  }

  /** `generateFallbackFlashcards(text)`. */
  method GenerateFallback(text: string) returns (cards: seq<Card>)
    ensures cards == FallbackCards(text)
  {
    var sentences := Sentences(text);
    cards := WalkTable(sentences);
  }

  /** The outer loop over the rows of the distribution table. */
  method WalkTable(sentences: seq<string>) returns (cards: seq<Card>)
    ensures cards == CardsUpTo(sentences, if |sentences| < MaxCards then |sentences| else MaxCards)
  {
    cards := [];
    var cardIndex := 0;
    var d := 0;
    while d < |Table|
      invariant 0 <= d <= |Table|
      invariant cardIndex == (if RowStart(d) < |sentences| then RowStart(d) else |sentences|)
      invariant cards == CardsUpTo(sentences, cardIndex)
    {
      cards, cardIndex := WalkRow(sentences, d, cards, cardIndex);
      d := d + 1;
    }
  }

  /** One slot of row `d`: a short sentence adds nothing, a long one adds the card with the row's marks. */
  lemma WalkStep(sentences: seq<string>, d: nat, k: nat)
    requires d < |Table| && RowStart(d) <= k < RowStart(d) + Table[d].1 && k < |sentences|
    ensures Table[d].0 == SlotMarks(k) && IsTableMark(Table[d].0)
    ensures |sentences[k]| < MinSentence ==> CardsUpTo(sentences, k + 1) == CardsUpTo(sentences, k)
    ensures |sentences[k]| >= MinSentence ==>
              CardsUpTo(sentences, k + 1) == CardsUpTo(sentences, k) + [BuildCard(Table[d].0, sentences, k)]
  {
    CardsUpToStep(sentences, k);
    RowMarks(d, k);
  }

  /** One iteration of the inner loop: the slot's sentence is skipped when short, otherwise it yields a card. */
  method Visit(sentences: seq<string>, d: nat, k: nat, cards: seq<Card>) returns (next: seq<Card>)
    requires d < |Table| && RowStart(d) <= k < RowStart(d) + Table[d].1 && k < |sentences|
    requires cards == CardsUpTo(sentences, k)
    ensures next == CardsUpTo(sentences, k + 1)
  {
    var sentence := sentences[Wrap(k, |sentences|)];
    WalkStep(sentences, d, k);
    if |sentence| < MinSentence {
      return cards;
    }
    next := cards + [BuildCard(Table[d].0, sentences, k)];
  }

  /** The inner loop over the slots of row `d`: one sentence per slot, a card per long sentence. */
  method WalkRow(sentences: seq<string>, d: nat, cards0: seq<Card>, start: nat) returns (cards: seq<Card>, cardIndex: nat)
    requires d < |Table|
    requires start == (if RowStart(d) < |sentences| then RowStart(d) else |sentences|)
    requires cards0 == CardsUpTo(sentences, start)
    ensures cardIndex == (if RowStart(d + 1) < |sentences| then RowStart(d + 1) else |sentences|)
    ensures cards == CardsUpTo(sentences, cardIndex)
  {
    var count := Table[d].1;
    cards, cardIndex := cards0, start;
    var i := 0;
    while i < count && cardIndex < |sentences|
      invariant 0 <= i <= count
      invariant cardIndex <= |sentences|
      invariant cardIndex == start + i
      invariant cards == CardsUpTo(sentences, cardIndex)
    {
      cards := Visit(sentences, d, cardIndex, cards);
      cardIndex := cardIndex + 1;
      i := i + 1;
    }
  }

  // ---- properties of the generator ----

  /** At most twenty cards, never more than there are sentences, none from a short text. */
  lemma FallbackSize(text: string)
    ensures |FallbackCards(text)| <= MaxCards
    ensures |FallbackCards(text)| <= |Sentences(text)|
    ensures |text| <= 20 ==> FallbackCards(text) == []
  {
  }

  /** Every card comes from a distinct sentence, in sentence order, with the marks of its slot. */
  lemma FallbackSources(text: string)
    ensures var sents := Sentences(text);
            var sl := Slots(sents, if |sents| < MaxCards then |sents| else MaxCards);
            var cs := FallbackCards(text);
            && |cs| == |sl|
            && (forall i, j :: 0 <= i < j < |sl| ==> sl[i] < sl[j])
            && (forall j :: 0 <= j < |sl| ==> sl[j] < MaxCards && |sents[sl[j]]| >= MinSentence)
            && (forall j :: 0 <= j < |cs| ==> cs[j] == BuildCard(SlotMarks(sl[j]), sents, sl[j]))
  {
    var sents := Sentences(text);
    CardsSources(sents, if |sents| < MaxCards then |sents| else MaxCards);
  }

  /** Every card's answer ends in a full stop and respects the cap of its marks. */
  lemma FallbackAnswers(text: string)
    ensures forall j :: 0 <= j < |FallbackCards(text)| ==>
              var c := FallbackCards(text)[j];
              IsTableMark(c.marks) && EndsWith(c.answer, '.') && |c.answer| <= MaxAnswer(c.marks)
  {
    var sents := Sentences(text);
    CardsSources(sents, if |sents| < MaxCards then |sents| else MaxCards);
  }

  /** The marks appear in table order: all 1s, then 2s, then 5s, then 10s. */
  lemma CardsOrdered(sents: seq<string>, c: nat)
    requires c <= |sents|
    ensures forall i, j :: 0 <= i < j < |CardsUpTo(sents, c)| ==>
              MarkRank(CardsUpTo(sents, c)[i].marks) <= MarkRank(CardsUpTo(sents, c)[j].marks)
  {
    var cs := CardsUpTo(sents, c);
    var sl := Slots(sents, c);
    CardsMarks(sents, c);
    forall i, j | 0 <= i < j < |cs| ensures MarkRank(cs[i].marks) <= MarkRank(cs[j].marks) {
      assert cs[i].marks == SlotMarks(sl[i]);
      assert cs[j].marks == SlotMarks(sl[j]);
      assert sl[i] < sl[j];
    }
  }

  lemma FallbackOrdered(text: string)
    ensures forall i, j :: 0 <= i < j < |FallbackCards(text)| ==>
              MarkRank(FallbackCards(text)[i].marks) <= MarkRank(FallbackCards(text)[j].marks)
  {
    var sents := Sentences(text);
    CardsOrdered(sents, if |sents| < MaxCards then |sents| else MaxCards);
  }

  /** The number of cards with marks `m`. */
  function CountMarks(cards: seq<Card>, m: int): (n: nat)
    ensures n <= |cards|
  {
    if |cards| == 0 then 0 else (if cards[0].marks == m then 1 else 0) + CountMarks(cards[1..], m)
  }

  /** The slots of marks `m` form the range [lo, hi) of the walk. */
  function RangeStart(m: int): nat { if m == 1 then 0 else if m == 2 then 6 else if m == 5 then 14 else 18 }
  function RangeEnd(m: int): nat { if m == 1 then 6 else if m == 2 then 14 else if m == 5 then 18 else 20 }

  lemma {:induction false} CountInRange(cards: seq<Card>, slots: seq<nat>, lo: nat, m: int)
    requires |cards| == |slots|
    requires forall i, j :: 0 <= i < j < |slots| ==> slots[i] < slots[j]
    requires forall j :: 0 <= j < |slots| ==> lo <= slots[j]
    requires forall j :: 0 <= j < |slots| ==> slots[j] < MaxCards && cards[j].marks == SlotMarks(slots[j])
    requires IsTableMark(m)
    ensures var from := if lo < RangeStart(m) then RangeStart(m) else lo;
            CountMarks(cards, m) <= (if from < RangeEnd(m) then RangeEnd(m) - from else 0)
  {
    if |cards| > 0 {
      CountInRange(cards[1..], slots[1..], slots[0] + 1, m);
    }
  }

  /** Each card carries the marks of its slot. */
  lemma CardsMarks(sents: seq<string>, c: nat)
    requires c <= |sents|
    ensures forall j :: 0 <= j < |CardsUpTo(sents, c)| ==> CardsUpTo(sents, c)[j].marks == SlotMarks(Slots(sents, c)[j])
  {
    CardsSources(sents, c);
  }

  /** No mark value gets more cards than the table asks for. */
  lemma CardsCounts(sents: seq<string>, c: nat, m: int)
    requires c <= |sents| && c <= MaxCards && IsTableMark(m)
    ensures CountMarks(CardsUpTo(sents, c), m) <= TableCount(m)
  {
    CardsMarks(sents, c);
    CountInRange(CardsUpTo(sents, c), Slots(sents, c), 0, m);
  }

  lemma FallbackCounts(text: string, m: int)
    requires IsTableMark(m)
    ensures CountMarks(FallbackCards(text), m) <= TableCount(m)
  {
    var sents := Sentences(text);
    CardsCounts(sents, if |sents| < MaxCards then |sents| else MaxCards, m);
  }

  /** Deterministic and exact on a text of sentences that are all long enough: one card per slot. */
  lemma FallbackFull(text: string)
    requires forall i :: 0 <= i < |Sentences(text)| ==> |Sentences(text)[i]| >= MinSentence
    ensures |FallbackCards(text)| == if |Sentences(text)| < MaxCards then |Sentences(text)| else MaxCards
  {
    var sents := Sentences(text);
    var c := if |sents| < MaxCards then |sents| else MaxCards;
    AllSlots(sents, c);
  }

  lemma {:induction false} AllSlots(sents: seq<string>, c: nat)
    requires c <= |sents|
    requires forall i :: 0 <= i < |sents| ==> |sents[i]| >= MinSentence
    ensures |Slots(sents, c)| == c
  {
    if c > 0 {
      AllSlots(sents, c - 1);
    }
  }
}
