/**
 * The generation route after the model reply is in: the padding of short
 * answers, the count rule that falls back to or tops up with the deterministic
 * generator, and the final normalisation of every record.
 */
module Pipeline {
  import opened Wrappers
  import opened Text
  import opened Cards
  import opened Difficulty
  import opened Extraction
  import opened Fallback
  import opened Padding
  import opened Normalize

  // ---- the count rule ----

  const MinExtracted: nat := 15
  const Target: nat := 20

  /** The list that reaches normalisation, or none when the route answers with an error. */
  datatype Outcome = Generated(cards: seq<RawCard>) | NoCards

  function Min(a: int, b: int): int { if a < b then a else b }

  /**
   * `server/routes/flashcards.js`, lines 228-243. A bare object (possible only from the repair rung) has no
   * `length`: `undefined < 15` is false and `!undefined` is true, so the route
   * fails.
   */
  function Complete(extracted: Extracted, fallback: seq<RawCard>): (o: Outcome)
    ensures o.Generated? ==> 1 <= |o.cards| <= Target || (extracted.Found? && |extracted.cards| < MinExtracted && |o.cards| <= 2 * |fallback|)
  {
    match extracted
    case Bare(_) => NoCards
    case Found(xs) =>
      var base := if |xs| < MinExtracted then fallback else xs;
      if |base| == 0 then NoCards
      else if |base| > Target then Generated(base[..Target])
      else if |base| < Target then Generated(base + fallback[..Min(|fallback|, Target - |base|)])
      else Generated(base)
  }

  /** At least fifteen extracted cards are kept, in order, cut to twenty or topped up from the fallback. */
  lemma CompleteKeepsExtraction(xs: seq<RawCard>, fallback: seq<RawCard>)
    requires |xs| >= MinExtracted
    ensures var o := Complete(Found(xs), fallback);
            && o.Generated?
            && MinExtracted <= |o.cards| <= Target
            && (|xs| >= Target ==> o.cards == xs[..Target])
            && (|xs| < Target ==> o.cards[..|xs|] == xs && o.cards[|xs|..] <= fallback)
            && (|xs| + |fallback| >= Target ==> |o.cards| == Target)
  {
    var o := Complete(Found(xs), fallback);
    if |xs| < Target {
      assert o.cards == xs + fallback[..Min(|fallback|, Target - |xs|)];
      assert o.cards[..|xs|] == xs;
      assert o.cards[|xs|..] == fallback[..Min(|fallback|, Target - |xs|)];
    }
  }

  /**
   * Fewer than fifteen extracted cards are replaced by the fallback list `f`,
   * which is then topped up with a prefix of itself: the route repeats cards.
   * Only an empty fallback list makes the route fail.
   */
  lemma CompleteUsesFallback(xs: seq<RawCard>, f: seq<RawCard>)
    requires |xs| < MinExtracted && |f| <= Target
    ensures var o := Complete(Found(xs), f);
            && (o == NoCards <==> f == [])
            && (o.Generated? ==> o.cards == f + f[..Min(|f|, Target - |f|)])
            && (o.Generated? ==> |o.cards| == Min(2 * |f|, Target))
  {
  }

  /** The count rule yields nothing exactly on a bare object, or on a short extraction with an empty fallback. */
  lemma CompleteFails(e: Extracted, f: seq<RawCard>)
    ensures Complete(e, f).NoCards? <==> e.Bare? || (|e.cards| < MinExtracted && f == [])
  {
  }

  /** Whatever the extraction, the route never stores more than twenty cards. */
  lemma CompleteAtMostTarget(extracted: Extracted, f: seq<RawCard>)
    requires |f| <= Target
    ensures Complete(extracted, f).Generated? ==> 1 <= |Complete(extracted, f).cards| <= Target
  {
  }

  // ---- the route ----

  /**
   * What the reply of the generative service yields after extraction and
   * padding. `None` is a failed call: the exception is caught and the list
   * stays empty. A bare object makes `.map` throw, which is caught as well,
   * leaving the object in place.
   */
  function FromReply(reply: Option<string>, parse: string -> Option<Json>): (e: Extracted)
    ensures reply.None? ==> e == Found([])
    ensures e.Bare? <==> reply.Some? && ExtractJSON(Trim(reply.value), parse).Bare?
    ensures reply.Some? && e.Found? ==>
              var xs := ExtractJSON(Trim(reply.value), parse).cards;
              |e.cards| == |xs| && forall i :: 0 <= i < |xs| ==> e.cards[i] == Pad(xs[i])
  {
    match reply
    case None => Found([])
    case Some(raw) =>
      match ExtractJSON(Trim(raw), parse)
      case Found(xs) => Found(PadAll(xs))
      case Bare(o) => Bare(o)
  }

  /** The fallback deck as the untyped records the count rule works on, card for card. */
  function FallbackRaw(text: string): (r: seq<RawCard>)
    ensures |r| == |FallbackCards(text)| && |r| <= Target
    ensures forall i :: 0 <= i < |r| ==> r[i] == ToRaw(FallbackCards(text)[i])
  {
    FallbackSize(text);
    var f := FallbackCards(text);
    seq(|f|, i requires 0 <= i < |f| => ToRaw(f[i]))
  }

  /**
   * The upload route from the text of the uploaded PDF (`None` when no file
   * came with the request) and the model reply to the records it stores, or
   * the error it answers with.
   */
  function Generate(pdf: Option<string>, reply: Option<string>, parse: string -> Option<Json>): (r: Result<seq<Card>>)
    ensures pdf.None? ==> r.Err?
    ensures r.Ok? ==> 1 <= |r.value| <= Target
    ensures r.Ok? ==> forall i :: 0 <= i < |r.value| ==> WellFormed(r.value[i])
  {
    match pdf
    case None => Err("No PDF uploaded")
    case Some(text) =>
      var e := FromReply(reply, parse);
      var f := FallbackRaw(text);
      CompleteAtMostTarget(e, f);
      var o := Complete(e, f);
      if o.NoCards? then Err("Could not generate flashcards") else Ok(NormalizeAll(o.cards))
  }

  /**
   * With a file, the route fails exactly on a bare object, or on too few
   * extracted cards with an empty fallback.
   */
  lemma GenerateFails(text: string, reply: Option<string>, parse: string -> Option<Json>)
    ensures Generate(Some(text), reply, parse).Err? <==>
              || FromReply(reply, parse).Bare?
              || (|FromReply(reply, parse).cards| < MinExtracted && FallbackCards(text) == [])
  {
    var e := FromReply(reply, parse);
    var f := FallbackRaw(text);
    CompleteFails(e, f);
    assert (f == []) == (FallbackCards(text) == []);
  }

  /** A successful upload stores the extraction itself when it has at least twenty cards. */
  lemma GenerateKeepsLongExtraction(text: string, reply: Option<string>, parse: string -> Option<Json>)
    requires FromReply(reply, parse).Found? && |FromReply(reply, parse).cards| >= Target
    ensures Generate(Some(text), reply, parse) == Ok(NormalizeAll(FromReply(reply, parse).cards[..Target]))
  {
    CompleteKeepsExtraction(FromReply(reply, parse).cards, FallbackRaw(text));
  }
}
