/**
 * The review page: a history of uploads, one of them selected, its cards
 * shown under a marks filter, and a set of flipped card positions.
 * The selection is the position of the selected entry in the history,
 * standing for the object identity the page compares with `===`.
 */
module Review {
  import opened Wrappers
  import opened Cards
  import opened Lists

  datatype Upload = Upload(filename: string, cards: seq<Card>)

  /** The marks filter: `'all'` or one mark value. */
  datatype Mark = All | Marks(m: int)

  datatype ReviewState = ReviewState(
    history: seq<Upload>,
    selected: Option<nat>,
    shown: seq<Card>,
    mark: Mark,
    flipped: set<int>)

  /** The test of `Number(c.marks || 1) === Number(marks)`. */
  function HasMarks(m: int): Card -> bool {
    (c: Card) => MarksOr1(c.marks) == m
  }

  /** The cards a filter shows out of an upload's cards. */
  function View(cards: seq<Card>, mark: Mark): (r: seq<Card>)
    ensures mark.All? ==> r == cards
    ensures mark.Marks? ==> forall i :: 0 <= i < |r| ==> r[i] in cards && MarksOr1(r[i].marks) == mark.m
    ensures mark.Marks? ==> forall i :: 0 <= i < |cards| && MarksOr1(cards[i].marks) == mark.m ==> cards[i] in r
  {
    match mark
    case All => cards
    case Marks(m) => Filter(cards, HasMarks(m))
  }

  /** The page on mount: the last upload of a non-empty history is selected with all its cards. */
  function Mount(history: seq<Upload>): (s: ReviewState)
    ensures |history| > 0 ==> s.selected == Some(|history| - 1) && s.shown == history[|history| - 1].cards
    ensures |history| == 0 ==> s.selected.None? && s.shown == []
    ensures s.mark == All && s.flipped == {} && s.history == history
  {
    if |history| > 0 then ReviewState(history, Some(|history| - 1), history[|history| - 1].cards, All, {})
    else ReviewState(history, None, [], All, {})
  }

  /** `flipCard`: toggles one position in the flipped set. */
  function Flip(s: ReviewState, i: int): (t: ReviewState)
    ensures i in t.flipped <==> i !in s.flipped
    ensures forall j :: j != i ==> (j in t.flipped <==> j in s.flipped)
    ensures t.(flipped := s.flipped) == s
  {
    if i in s.flipped then s.(flipped := s.flipped - {i}) else s.(flipped := s.flipped + {i})
  }

  /** Flipping the same card twice turns it back. */
  lemma FlipTwice(s: ReviewState, i: int)
    ensures Flip(Flip(s, i), i) == s
  {
    var t := Flip(Flip(s, i), i);
    assert t.flipped == s.flipped;
  }

  /** `handleFilter`: the filter always changes; with an upload selected the view and the flips follow. */
  function ApplyFilter(s: ReviewState, mark: Mark): (t: ReviewState)
    requires s.selected.Some? ==> s.selected.value < |s.history|
    ensures t.mark == mark && t.history == s.history && t.selected == s.selected
    ensures s.selected.None? ==> t == s.(mark := mark)
    ensures s.selected.Some? ==> t.shown == View(s.history[s.selected.value].cards, mark) && t.flipped == {}
  {
    match s.selected
    case None => s.(mark := mark)
    case Some(k) => s.(mark := mark, shown := View(s.history[k].cards, mark), flipped := {})
  }

  /** `handleSelectUpload`: another entry, all of its cards, no flips. */
  function SelectUpload(s: ReviewState, k: nat): (t: ReviewState)
    requires k < |s.history|
    ensures t.selected == Some(k) && t.mark == All && t.shown == s.history[k].cards && t.flipped == {}
    ensures t.history == s.history
  {
    s.(selected := Some(k), mark := All, shown := s.history[k].cards, flipped := {})
  }

  /** `countByMarks`: how many cards of the selected upload carry a mark value; 0 without a selection. */
  function CountByMarks(s: ReviewState, m: int): (n: nat)
    requires s.selected.Some? ==> s.selected.value < |s.history|
    ensures s.selected.None? ==> n == 0
    ensures s.selected.Some? ==> n == |View(s.history[s.selected.value].cards, Marks(m))|
  {
    match s.selected
    case None => 0
    case Some(k) => |Filter(s.history[k].cards, HasMarks(m))|
  }

  /** The count on a mark button is the number of cards its filter shows. */
  lemma CountIsFilterSize(s: ReviewState, m: int)
    requires s.selected.Some? && s.selected.value < |s.history|
    ensures CountByMarks(s, m) == |ApplyFilter(s, Marks(m)).shown|
  {
  }

  /** The history without entry `idx`. */
  function Remove(history: seq<Upload>, idx: nat): (r: seq<Upload>)
    requires idx < |history|
    ensures |r| == |history| - 1
    ensures forall i :: 0 <= i < idx ==> r[i] == history[i]
    ensures forall i :: idx <= i < |r| ==> r[i] == history[i + 1]
  {
    history[..idx] + history[idx + 1..]
  }

  /**
   * `handleDeleteUpload`: the entry leaves the history. When it was the
   * selected one, the new last entry is selected with all its cards, or
   * nothing is; otherwise the same entry stays selected at its new position.
   * An index past the end removes nothing.
   */
  function Delete(s: ReviewState, idx: nat): (t: ReviewState)
    requires s.selected.Some? ==> s.selected.value < |s.history|
    ensures idx >= |s.history| ==> t == s
    ensures idx < |s.history| ==> t.history == Remove(s.history, idx) && t.flipped == s.flipped
    ensures t.selected.Some? ==> t.selected.value < |t.history|
  {
    if idx >= |s.history| then s
    else
      var h := Remove(s.history, idx);
      match s.selected
      case Some(k) =>
        if k == idx then
          if |h| > 0 then s.(history := h, selected := Some(|h| - 1), shown := h[|h| - 1].cards, mark := All)
          else s.(history := h, selected := None, shown := [], mark := All)
        else if k > idx then s.(history := h, selected := Some(k - 1))
        else s.(history := h)
      case None => s.(history := h)
  }

  /**
   * Deleting removes exactly one entry and keeps the rest in order; a
   * selection other than the deleted entry keeps pointing at the same upload.
   */
  lemma DeleteKeepsOthers(s: ReviewState, idx: nat)
    requires s.selected.Some? ==> s.selected.value < |s.history|
    requires idx < |s.history|
    ensures var t := Delete(s, idx);
            && t.history == Remove(s.history, idx)
            && (s.selected.Some? && s.selected.value != idx ==>
                  t.selected.Some? && t.history[t.selected.value] == s.history[s.selected.value]
                  && t.shown == s.shown && t.mark == s.mark)
            && (s.selected.None? ==> t.selected.None? && t.shown == s.shown && t.mark == s.mark)
            && t.flipped == s.flipped
  {
  }

  /** Deleting the selected entry selects the new last entry with all its cards, or nothing. */
  lemma DeleteSelected(s: ReviewState)
    requires s.selected.Some? && s.selected.value < |s.history|
    ensures var t := Delete(s, s.selected.value);
            && t.mark == All
            && (|s.history| > 1 ==> t.selected == Some(|s.history| - 2) && t.shown == t.history[|t.history| - 1].cards)
            && (|s.history| == 1 ==> t.selected.None? && t.shown == [])
  {
  }

  /**
   * What holds on every reachable state: the selection is an entry of the
   * history and the shown cards are its cards under the current filter;
   * without a selection nothing is shown.
   */
  predicate Valid(s: ReviewState) {
    match s.selected
    case None => s.shown == []
    case Some(k) => k < |s.history| && s.shown == View(s.history[k].cards, s.mark)
  }

  lemma MountValid(history: seq<Upload>)
    ensures Valid(Mount(history))
  {
  }

  lemma FlipValid(s: ReviewState, i: int)
    requires Valid(s)
    ensures Valid(Flip(s, i))
  {
  }

  lemma ApplyFilterValid(s: ReviewState, mark: Mark)
    requires Valid(s)
    ensures Valid(ApplyFilter(s, mark))
  {
  }

  lemma SelectUploadValid(s: ReviewState, k: nat)
    requires Valid(s) && k < |s.history|
    ensures Valid(SelectUpload(s, k))
  {
  }

  lemma DeleteValid(s: ReviewState, idx: nat)
    requires Valid(s)
    ensures Valid(Delete(s, idx))
  {
    if idx < |s.history| && s.selected.Some? && s.selected.value != idx {
      DeleteKeepsOthers(s, idx);
    }
  }
}
