/**
 * The spoken-question page: cards are shown one at a time and every card
 * reached counts towards the progress bar of its marks bucket.
 */
module SpeakProgress {
  import opened Cards

  datatype SpeakState = SpeakState(
    cards: seq<Card>,
    index: nat,
    showAnswer: bool,
    totals: PerLevel<nat>,
    shown: PerLevel<nat>,
    progress: PerLevel<nat>)

  const Zero: PerLevel<nat> := PerLevel(0, 0, 0)

  /** The bucket of a mark value: 1 and 2 are easy, 5 medium, 10 hard, and anything else easy. */
  function MarkToLevel(marks: int): (l: Level)
    ensures l == Medium <==> marks == 5
    ensures l == Hard <==> marks == 10
    ensures l == Easy <==> marks != 5 && marks != 10
  {
    if marks == 1 || marks == 2 then Easy
    else if marks == 5 then Medium
    else if marks == 10 then Hard
    else Easy
  }

  function Sum(p: PerLevel<nat>): nat {
    p.easy + p.medium + p.hard
  }

  /** Adds one to the entry for `l`. */
  function Bump(p: PerLevel<nat>, l: Level): (r: PerLevel<nat>)
    ensures r.Get(l) == p.Get(l) + 1
    ensures forall o :: o != l ==> r.Get(o) == p.Get(o)
    ensures Sum(r) == Sum(p) + 1
  {
    p.Set(l, p.Get(l) + 1)
  }

  /** The per-bucket card counts computed on load. */
  function Totals(cards: seq<Card>): (t: PerLevel<nat>)
    ensures Sum(t) == |cards|
  {
    if cards == [] then Zero else Bump(Totals(cards[..|cards| - 1]), MarkToLevel(cards[|cards| - 1].marks))
  }

  function Add(p: PerLevel<nat>, q: PerLevel<nat>): PerLevel<nat> {
    PerLevel(p.easy + q.easy, p.medium + q.medium, p.hard + q.hard)
  }

  /** Counting one more card in a sum of counts is counting it in the second part. */
  lemma AddBump(p: PerLevel<nat>, q: PerLevel<nat>, l: Level)
    ensures Bump(Add(p, q), l) == Add(p, Bump(q, l))
  {
  }

  /** Counting a list in two parts and adding gives the count of the whole list. */
  lemma {:induction false} TotalsAppend(a: seq<Card>, b: seq<Card>)
    ensures Totals(a + b) == Add(Totals(a), Totals(b))
    decreases |b|
  {
    if b == [] {
      assert a + b == a;
    } else {
      var b' := b[..|b| - 1];
      var l := MarkToLevel(b[|b| - 1].marks);
      assert (a + b)[..|a + b| - 1] == a + b';
      assert (a + b)[|a + b| - 1] == b[|b| - 1];
      assert Totals(a + b) == Bump(Totals(a + b'), l);
      TotalsAppend(a, b');
      AddBump(Totals(a), Totals(b'), l);
    }
  }

  /** A single card counts in its own bucket only. */
  lemma TotalsOfOne(c: Card)
    ensures Totals([c]) == Bump(Zero, MarkToLevel(c.marks))
  {
    assert [c][..0] == [];
  }

  /** Whole-number division by repeated subtraction. */
  function Quot(n: nat, d: nat): nat
    requires d > 0
    decreases n
  {
    if n < d then 0 else 1 + Quot(n - d, d)
  }

  /** `Quot(n, d)` is the quotient of `n` by `d`, rounded down. */
  lemma {:induction false} QuotBounds(n: nat, d: nat)
    requires d > 0
    ensures Quot(n, d) * d <= n < (Quot(n, d) + 1) * d
    decreases n
  {
    if n >= d {
      QuotBounds(n - d, d);
    }
  }

  /** `Math.round(shown / total * 100)` on exact rationals, rounding halves up. */
  function Percent(shown: nat, total: nat): nat
    requires total > 0
  {
    Quot(200 * shown + total, 2 * total)
  }

  /** The percentage is the whole number nearest to `100 * shown / total`, halves rounded up. */
  lemma PercentNearest(shown: nat, total: nat)
    requires total > 0
    ensures -(total as int) <= 200 * shown - 2 * Percent(shown, total) * total < total
  {
    var r := Percent(shown, total);
    QuotBounds(200 * shown + total, 2 * total);
    assert r * (2 * total) == 2 * r * total;
    assert (r + 1) * (2 * total) == 2 * r * total + 2 * total;
  }

  /** Dividing both sides of a strict inequality by a positive factor. */
  lemma CancelFactor(x: int, y: int, total: nat)
    requires total > 0 && x * total < y * total
    ensures x < y
  {
  }

  lemma PercentAtMost100(shown: nat, total: nat)
    requires total > 0 && shown <= total
    ensures Percent(shown, total) <= 100
  {
    var r := Percent(shown, total);
    PercentNearest(shown, total);
    assert 2 * r * total < 202 * total;
    CancelFactor(2 * r, 202, total);
  }

  lemma PercentNearFull(shown: nat, total: nat)
    requires total > 0 && 200 * shown >= 199 * total
    ensures Percent(shown, total) >= 100
  {
    var r := Percent(shown, total);
    PercentNearest(shown, total);
    assert 198 * total < 2 * r * total;
    CancelFactor(198, 2 * r, total);
  }

  lemma PercentOfNothing(total: nat)
    requires total > 0
    ensures Percent(0, total) == 0
  {
    var r := Percent(0, total);
    PercentNearest(0, total);
    assert 2 * r * total < 1 * total;
    CancelFactor(2 * r, 1, total);
  }

  /** For shown <= total the percentage lies in 0..100, is 0 for nothing shown, and is 100 exactly from 99.5% upwards. */
  lemma PercentRange(shown: nat, total: nat)
    requires total > 0 && shown <= total
    ensures Percent(shown, total) <= 100
    ensures Percent(shown, total) == 100 <==> 200 * shown >= 199 * total
    ensures shown == total ==> Percent(shown, total) == 100
    ensures shown == 0 ==> Percent(shown, total) == 0
  {
    PercentNearest(shown, total);
    PercentAtMost100(shown, total);
    if 200 * shown >= 199 * total {
      PercentNearFull(shown, total);
    }
    if shown == 0 {
      PercentOfNothing(total);
    }
  }

  /**
   * `incrementProgress(level)` with the bucket totals the handler closed over:
   * a bucket with no cards is left alone; otherwise its shown count goes up by
   * one, capped at the total, and its percentage is recomputed.
   */
  function Increment(s: SpeakState, level: Level, totals: PerLevel<nat>): (t: SpeakState)
    ensures t.cards == s.cards && t.index == s.index && t.totals == s.totals && t.showAnswer == s.showAnswer
    ensures totals.Get(level) == 0 ==> t == s
  {
    var total := totals.Get(level);
    if total == 0 then s
    else
      var n := if s.shown.Get(level) + 1 < total then s.shown.Get(level) + 1 else total;
      s.(shown := s.shown.Set(level, n), progress := s.progress.Set(level, Percent(n, total)))
  }

  /**
   * `loadFlashcards`: the totals are recomputed and every counter and the
   * index reset. The increment for the first card runs with the totals of
   * the render that installed the handler, which are all zero, so it leaves
   * the state alone.
   */
  function Load(s: SpeakState, cards: seq<Card>): (t: SpeakState)
    ensures t.cards == cards && t.index == 0 && t.totals == Totals(cards) && Sum(t.totals) == |cards|
  {
    var reset := s.(cards := cards, totals := Totals(cards), shown := Zero, progress := Zero, index := 0);
    if |cards| > 0 then Increment(reset, MarkToLevel(cards[0].marks), Zero) else reset
  }

  /** `nextQuestion`: advance and count the next card, or go back to the first card without counting. */
  function NextCard(s: SpeakState): (t: SpeakState)
    ensures t.cards == s.cards && t.totals == s.totals && !t.showAnswer
    ensures s.index + 1 < |s.cards| ==> t.index == s.index + 1
    ensures s.index + 1 >= |s.cards| ==> t.index == 0 && t.shown == s.shown && t.progress == s.progress
  {
    if s.index < |s.cards| - 1 then
      Increment(s.(showAnswer := false, index := s.index + 1), MarkToLevel(s.cards[s.index + 1].marks), s.totals)
    else s.(showAnswer := false, index := 0)
  }

  /** `speakAnswer`: with a current card and speech available, the answer is revealed. */
  function Speak(s: SpeakState, speechAvailable: bool): (t: SpeakState)
    ensures t.showAnswer <==> s.showAnswer || (s.index < |s.cards| && speechAvailable)
    ensures t.(showAnswer := s.showAnswer) == s
  {
    if s.index < |s.cards| && speechAvailable then s.(showAnswer := true) else s
  }

  /** The bar a bucket shows: nothing for an empty bucket. */
  function Progress(shown: nat, total: nat): nat {
    if total == 0 then 0 else Percent(shown, total)
  }

  /** One bucket's counter is within its total and its bar agrees with the counter. */
  predicate BucketOk(s: SpeakState, l: Level) {
    s.shown.Get(l) <= s.totals.Get(l) && s.progress.Get(l) == Progress(s.shown.Get(l), s.totals.Get(l))
  }

  /** What holds on every reachable state. */
  predicate Valid(s: SpeakState) {
    && (s.index < |s.cards| || s.index == 0)
    && s.totals == Totals(s.cards)
    && BucketOk(s, Easy) && BucketOk(s, Medium) && BucketOk(s, Hard)
  }

  lemma LoadValid(s: SpeakState, cards: seq<Card>)
    ensures Valid(Load(s, cards))
    ensures Load(s, cards).shown == Zero && Load(s, cards).progress == Zero
  {
    var t := Load(s, cards);
    forall l: Level
      ensures BucketOk(t, l)
    {
      if t.totals.Get(l) > 0 {
        PercentRange(0, t.totals.Get(l));
      }
    }
  }

  /** Counting the current totals keeps every bucket in order, moves only the one bucket, and never past its total. */
  lemma IncrementValid(s: SpeakState, level: Level)
    requires Valid(s)
    ensures Valid(Increment(s, level, s.totals))
    ensures var t := Increment(s, level, s.totals);
            && (forall o :: o != level ==> t.shown.Get(o) == s.shown.Get(o) && t.progress.Get(o) == s.progress.Get(o))
            && s.shown.Get(level) <= t.shown.Get(level) <= s.totals.Get(level)
            && t.progress.Get(level) <= 100
  {
    var total := s.totals.Get(level);
    var t := Increment(s, level, s.totals);
    if total > 0 {
      PercentRange(t.shown.Get(level), total);
      assert BucketOk(t, level);
    } else {
      assert s.shown.Get(level) == 0;
    }
  }

  /** Moving to another card, or hiding the answer, keeps every counter consistent. */
  lemma MoveValid(s: SpeakState, i: nat)
    requires Valid(s) && (i < |s.cards| || i == 0)
    ensures Valid(s.(showAnswer := false, index := i))
  {
    var m := s.(showAnswer := false, index := i);
    assert BucketOk(m, Easy) && BucketOk(m, Medium) && BucketOk(m, Hard);
  }

  lemma NextCardValid(s: SpeakState)
    requires Valid(s)
    ensures Valid(NextCard(s))
  {
    if s.index < |s.cards| - 1 {
      var moved := s.(showAnswer := false, index := s.index + 1);
      MoveValid(s, s.index + 1);
      IncrementValid(moved, MarkToLevel(s.cards[s.index + 1].marks));
      assert NextCard(s) == Increment(moved, MarkToLevel(s.cards[s.index + 1].marks), moved.totals);
    } else {
      MoveValid(s, 0);
    }
  }

  /** Every card of the list is counted in its bucket's total. */
  lemma {:induction false} TotalsCountMember(cards: seq<Card>, k: nat)
    requires k < |cards|
    ensures Totals(cards).Get(MarkToLevel(cards[k].marks)) >= 1
    decreases |cards|
  {
    if k < |cards| - 1 {
      TotalsCountMember(cards[..|cards| - 1], k);
    }
  }

  /**
   * Moving on to a following card counts that card: its bucket's shown count
   * goes up by one, capped at the bucket's total, the bar shows the rounded
   * percentage of it, and the two other buckets are left as they were.
   */
  lemma NextCardCounts(s: SpeakState)
    requires Valid(s) && s.index + 1 < |s.cards|
    ensures var l := MarkToLevel(s.cards[s.index + 1].marks);
            var t := NextCard(s);
            var total := s.totals.Get(l);
            && total > 0
            && t.shown.Get(l) == (if s.shown.Get(l) + 1 < total then s.shown.Get(l) + 1 else total)
            && t.progress.Get(l) == Percent(t.shown.Get(l), total)
            && forall o :: o != l ==> t.shown.Get(o) == s.shown.Get(o) && t.progress.Get(o) == s.progress.Get(o)
  {
    TotalsCountMember(s.cards, s.index + 1);
  }

  /** `k` increments of one bucket, as `k` visits to cards of that bucket. */
  function Repeat(s: SpeakState, level: Level, k: nat): SpeakState {
    if k == 0 then s else Increment(Repeat(s, level, k - 1), level, s.totals)
  }

  /** After `k` visits a bucket has counted `min(shown + k, total)` cards. */
  lemma {:induction false} RepeatShown(s: SpeakState, level: Level, k: nat)
    requires s.totals.Get(level) > 0 && s.shown.Get(level) <= s.totals.Get(level)
    ensures var t := Repeat(s, level, k);
            var total := s.totals.Get(level);
            && t.totals == s.totals
            && t.shown.Get(level) == (if s.shown.Get(level) + k < total then s.shown.Get(level) + k else total)
            && (k > 0 ==> t.progress.Get(level) == Percent(t.shown.Get(level), total))
  {
    if k > 0 {
      RepeatShown(s, level, k - 1);
    }
  }

  /** Starting from a fresh load, visiting as many cards of a bucket as it holds fills its bar. */
  lemma FullBucketShowsHundred(s: SpeakState, level: Level)
    requires s.totals.Get(level) > 0 && s.shown.Get(level) == 0
    ensures Repeat(s, level, s.totals.Get(level)).progress.Get(level) == 100
  {
    var total := s.totals.Get(level);
    RepeatShown(s, level, total);
    PercentRange(total, total);
  }
}
