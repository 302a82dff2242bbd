/**
 * The test-mode page: the stored cards of one difficulty are stepped through
 * and each step adds an equal share to that difficulty's progress bar.
 * Progress is a real number; floating-point rounding is not modelled.
 */
module TestMode {
  import opened Cards
  import opened Lists

  datatype TestState = TestState(cards: seq<Card>, level: Level, index: nat, progress: PerLevel<real>)

  /** The capitalised names the page filters on and keys its progress by. */
  function PageName(l: Level): string {
    match l
    case Easy => "Easy"
    case Medium => "Medium"
    case Hard => "Hard"
  }

  function Start(cards: seq<Card>): TestState {
    TestState(cards, Easy, 0, PerLevel(0.0, 0.0, 0.0))
  }

  /** The test of `flashcards.filter(f => f.difficulty === difficulty)`. */
  function OnPage(l: Level): Card -> bool {
    (c: Card) => c.difficulty == PageName(l)
  }

  /** The cards shown for `l`: those whose `difficulty` is exactly its page name, in stored order. */
  function Shown(cards: seq<Card>, l: Level): (r: seq<Card>)
    ensures forall i :: 0 <= i < |r| ==> r[i].difficulty == PageName(l) && r[i] in cards
    ensures forall i :: 0 <= i < |cards| && cards[i].difficulty == PageName(l) ==> cards[i] in r
  {
    Filter(cards, OnPage(l))
  }

  /** One step's share of the bar for a list of `total` cards. */
  function Share(total: nat): real
    requires total > 0
  {
    100.0 / (total as real)
  }

  /** The progress update of `handleNext`: nothing once full, otherwise one share more, capped at 100. */
  function Advance(p: real, total: nat): (q: real)
    requires total > 0
    ensures p >= 100.0 ==> q == p
    ensures p < 100.0 ==> q == if p + Share(total) > 100.0 then 100.0 else p + Share(total)
  {
    if p >= 100.0 then p
    else
      var v := p + Share(total);
      if v > 100.0 then 100.0 else v
  }

  /**
   * `handleNext`: without a current card nothing happens; otherwise the
   * selected level's bar advances and the index moves on, staying on the
   * last card.
   */
  function Next(s: TestState): (t: TestState)
    ensures t.cards == s.cards && t.level == s.level
  {
    var shown := Shown(s.cards, s.level);
    if s.index >= |shown| then s
    else
      var p := Advance(s.progress.Get(s.level), |shown|);
      var i := if s.index < |shown| - 1 then s.index + 1 else |shown| - 1;
      s.(progress := s.progress.Set(s.level, p), index := i)
  }

  /** `handleChangeDifficulty`: another level, from its first card, with every bar kept. */
  function ChangeLevel(s: TestState, l: Level): (t: TestState)
    ensures t.level == l && t.index == 0 && t.progress == s.progress && t.cards == s.cards
  {
    s.(level := l, index := 0)
  }

  /** Without a current card, Next changes nothing. */
  lemma NextWithoutCard(s: TestState)
    requires s.index >= |Shown(s.cards, s.level)|
    ensures Next(s) == s
  {
  }

  /**
   * With a current card, Next advances only the selected bar, never lowers it,
   * never takes it past 100, and moves the index forward unless on the last card.
   */
  lemma NextWithCard(s: TestState)
    requires s.index < |Shown(s.cards, s.level)|
    requires 0.0 <= s.progress.Get(s.level) <= 100.0
    ensures var t := Next(s);
            var n := |Shown(s.cards, s.level)|;
            && s.progress.Get(s.level) <= t.progress.Get(s.level) <= 100.0
            && (forall o :: o != s.level ==> t.progress.Get(o) == s.progress.Get(o))
            && (s.progress.Get(s.level) < 100.0 ==> t.progress.Get(s.level) > s.progress.Get(s.level))
            && t.index == (if s.index + 1 < n then s.index + 1 else n - 1)
  {
  }

  /** Every bar is within 0..100 and the index is on a card whenever there are cards. */
  predicate Valid(s: TestState) {
    && 0.0 <= s.progress.easy <= 100.0
    && 0.0 <= s.progress.medium <= 100.0
    && 0.0 <= s.progress.hard <= 100.0
    && (s.index == 0 || s.index < |Shown(s.cards, s.level)|)
  }

  lemma StartValid(cards: seq<Card>)
    ensures Valid(Start(cards))
  {
  }

  lemma NextValid(s: TestState)
    requires Valid(s)
    ensures Valid(Next(s))
  {
    if s.index < |Shown(s.cards, s.level)| {
      NextWithCard(s);
    }
  }

  lemma ChangeLevelValid(s: TestState, l: Level)
    requires Valid(s)
    ensures Valid(ChangeLevel(s, l))
  {
  }

  function Min(a: real, b: real): real {
    if a < b then a else b
  }

  /** `k` shares of size `h` added up one at a time. */
  function Steps(k: nat, h: real): real {
    if k == 0 then 0.0 else Steps(k - 1, h) + h
  }

  lemma {:induction false} StepsIsProduct(k: nat, h: real)
    ensures Steps(k, h) == (k as real) * h
  {
    if k > 0 {
      StepsIsProduct(k - 1, h);
    }
  }

  /** `k` presses of Next. */
  function Presses(s: TestState, k: nat): TestState {
    if k == 0 then s else Next(Presses(s, k - 1))
  }

  /** One press on a current card: the bar advances and the index stays on a card. */
  lemma NextStep(s: TestState)
    requires s.index < |Shown(s.cards, s.level)|
    ensures var t := Next(s);
            && t.cards == s.cards && t.level == s.level
            && t.index < |Shown(s.cards, s.level)|
            && t.progress.Get(s.level) == Advance(s.progress.Get(s.level), |Shown(s.cards, s.level)|)
  {
  }

  /** Advancing a capped sum is capping the sum with one share more. */
  lemma AdvanceCapped(x: real, n: nat)
    requires n > 0 && x >= 0.0
    ensures Advance(Min(100.0, x), n) == Min(100.0, x + Share(n))
  {
  }

  /**
   * From an empty bar and a current card, `k` presses fill the bar to
   * `min(100, k * 100 / n)` for the `n` cards of the level.
   */
  lemma {:induction false} PressesProgress(s: TestState, k: nat)
    requires s.index < |Shown(s.cards, s.level)| && s.progress.Get(s.level) == 0.0
    ensures var t := Presses(s, k);
            var n := |Shown(s.cards, s.level)|;
            && t.cards == s.cards && t.level == s.level
            && t.index < n
            && t.progress.Get(s.level) == Min(100.0, Steps(k, Share(n)))
  {
    var n := |Shown(s.cards, s.level)|;
    if k > 0 {
      PressesProgress(s, k - 1);
      var prev := Presses(s, k - 1);
      var h := Share(n);
      SharePositive(n);
      StepsNonNegative(k - 1, h);
      NextStep(prev);
      AdvanceCapped(Steps(k - 1, h), n);
    }
  }

  lemma SharePositive(n: nat)
    requires n > 0
    ensures Share(n) > 0.0
  {
  }

  lemma {:induction false} StepsNonNegative(k: nat, h: real)
    requires h >= 0.0
    ensures Steps(k, h) >= 0.0
  {
    if k > 0 {
      StepsNonNegative(k - 1, h);
    }
  }

  /** `n` shares of a list of `n` cards make the whole bar. */
  lemma NSharesAreFull(n: nat)
    requires n > 0
    ensures Steps(n, Share(n)) == 100.0
  {
    StepsIsProduct(n, Share(n));
    var r := n as real;
    assert r * (100.0 / r) == 100.0;
  }

  /** As many presses as the level has cards fill its bar. */
  lemma PressesFill(s: TestState)
    requires s.index < |Shown(s.cards, s.level)| && s.progress.Get(s.level) == 0.0
    ensures Presses(s, |Shown(s.cards, s.level)|).progress.Get(s.level) == 100.0
  {
    var n := |Shown(s.cards, s.level)|;
    PressesProgress(s, n);
    NSharesAreFull(n);
  }

  /**
   * Cards whose difficulty is the lower-case name the generation route
   * writes are never shown: the page compares against capitalised names.
   */
  lemma ServerNamesNeverShown(cards: seq<Card>, l: Level)
    requires forall i :: 0 <= i < |cards| ==> exists m :: cards[i].difficulty == LevelName(m)
    ensures Shown(cards, l) == []
  {
    forall i | 0 <= i < |cards|
      ensures !OnPage(l)(cards[i])
    {
      var m :| cards[i].difficulty == LevelName(m);
      assert LevelName(m)[0] != PageName(l)[0];
    }
    FilterDropsAll(cards, OnPage(l));
  }
}
