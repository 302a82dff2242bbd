/**
 * The flashcard records that flow from the generation route to the pages.
 * A record parsed from model output may lack any field, so it is a `RawCard`;
 * the normalised, stored record is a `Card`.
 */
module Cards {
  import opened Wrappers

  /** The three difficulty buckets. */
  datatype Level = Easy | Medium | Hard

  /** The lower-case name the server stores in a card's `difficulty`. */
  function LevelName(l: Level): string {
    match l
    case Easy => "easy"
    case Medium => "medium"
    case Hard => "hard"
  }

  /** Rank of a level: easy < medium < hard. */
  function Rank(l: Level): nat {
    match l
    case Easy => 0
    case Medium => 1
    case Hard => 2
  }

  /** A value per difficulty bucket (totals, counters, percentages). */
  datatype PerLevel<T> = PerLevel(easy: T, medium: T, hard: T) {

    function Get(l: Level): T {
      match l
      case Easy => easy
      case Medium => medium
      case Hard => hard
    }

    /** The same record with the entry for `l` replaced by `v`. */
    function Set(l: Level, v: T): (r: PerLevel<T>)
      ensures r.Get(l) == v
      ensures forall o :: o != l ==> r.Get(o) == Get(o)
    {
      match l
      case Easy => this.(easy := v)
      case Medium => this.(medium := v)
      case Hard => this.(hard := v)
    }
  }

  /**
   * A card object as parsed from model output. `None` is a missing property;
   * `marks` is 0 when it is missing or otherwise falsy (only numeric marks are modelled).
   */
  datatype RawCard = RawCard(question: Option<string>, answer: Option<string>, marks: int, difficulty: Option<string>)

  /** A stored card; `marks` is 0 when the stored object lacks it. */
  datatype Card = Card(question: string, answer: string, marks: int, difficulty: string)

  /** JavaScript truthiness of an optional string: present and non-empty. */
  predicate Truthy(s: Option<string>) {
    s.Some? && s.value != ""
  }

  /** `s || d` on an optional string. */
  function OrElse(s: Option<string>, d: string): (r: string)
    ensures Truthy(s) ==> r == s.value
    ensures !Truthy(s) ==> r == d
  {
    if Truthy(s) then s.value else d
  }

  /** `marks || 1`: a falsy mark counts as one mark. */
  function MarksOr1(m: int): (r: int)
    ensures r != 0
    ensures m != 0 ==> r == m
  {
    if m == 0 then 1 else m
  }

  /** A stored card seen as a parsed object with every property present. */
  function ToRaw(c: Card): RawCard {
    RawCard(Some(c.question), Some(c.answer), c.marks, Some(c.difficulty))
  }
}
