/**
 * The JSON-extraction ladder of the generation route (`extractJSON`).
 * `JSON.parse` is not modelled: it is the parameter `parse`, which yields the
 * parsed value or `None` where it would throw. The three regular expressions
 * the ladder uses are modelled exactly (restricted to ASCII whitespace).
 */
module Extraction {
  import opened Wrappers
  import opened Text
  import opened Cards

  /** A parsed JSON value as far as the route looks at it: an array of objects or one object. */
  datatype Json = JArray(items: seq<RawCard>) | JObject(obj: RawCard)

  /**
   * What `extractJSON` returns: an array of card objects, or, from the repair
   * rung only, whatever bare object the lenient re-parse produced.
   */
  datatype Extracted = Found(cards: seq<RawCard>) | Bare(obj: RawCard)

  /** `text.indexOf(c)`, -1 when absent. */
  function IndexOf(s: string, c: char): (k: int)
    ensures -1 <= k < |s|
    ensures k == -1 <==> c !in s
    ensures k >= 0 ==> s[k] == c && c !in s[..k]
  {
    if |s| == 0 then -1
    else if s[0] == c then 0
    else var k := IndexOf(s[1..], c); if k == -1 then -1 else k + 1
  }

  /** `text.lastIndexOf(c)`, -1 when absent. */
  function LastIndexOf(s: string, c: char): (k: int)
    ensures -1 <= k < |s|
    ensures k == -1 <==> c !in s
    ensures k >= 0 ==> s[k] == c && c !in s[k + 1..]
  {
    if |s| == 0 then -1
    else if s[|s| - 1] == c then |s| - 1
    else
      var k := LastIndexOf(s[..|s| - 1], c);
      assert k >= 0 ==> s[k + 1..] == s[..|s| - 1][k + 1..] + [s[|s| - 1]];
      k
  }

  /** The array-looking part of the response: from the first `[` to the last `]`, inclusive. */
  function BracketSlice(s: string): (r: string)
    requires '[' in s && ']' in s
    ensures |r| > 0 ==> r[0] == '[' && r[|r| - 1] == ']'
    ensures r == "" <==> forall i, j :: 0 <= i < j < |s| && s[i] == '[' ==> s[j] != ']'
    ensures r != "" ==> r == s[IndexOf(s, '[')..LastIndexOf(s, ']') + 1]
  {
    var a := IndexOf(s, '[');
    var b := LastIndexOf(s, ']');
    BracketOrder(s, a, b);
    // `slice(a, b + 1)` is empty when the last `]` comes before the first `[`.
    if a <= b then s[a..b + 1] else ""
  }

  /** Some `[` comes before some `]` exactly when the first `[` comes before the last `]`. */
  lemma BracketOrder(s: string, a: int, b: int)
    requires '[' in s && ']' in s && a == IndexOf(s, '[') && b == LastIndexOf(s, ']')
    ensures a <= b <==> exists i, j :: 0 <= i < j < |s| && s[i] == '[' && s[j] == ']'
  {
    if a <= b {
      assert s[a] == '[' && s[b] == ']';
    }
  }

  // ---- `/\{[^{}]*"question"[^{}]*\}/g` ----

  const QuestionKey: string := "\"question\""

  predicate IsBrace(c: char) { c == '{' || c == '}' }

  /** The index of the first brace at or after `i`, or `|s|`. */
  function NextBrace(s: string, i: nat): (j: nat)
    requires i <= |s|
    ensures i <= j <= |s|
    ensures j < |s| ==> IsBrace(s[j])
    ensures forall k :: i <= k < j ==> !IsBrace(s[k])
    decreases |s| - i
  {
    if i == |s| || IsBrace(s[i]) then i else NextBrace(s, i + 1)
  }

  /** What one match of the object pattern looks like. */
  predicate IsObjectMatch(m: string) {
    && |m| >= 2
    && m[0] == '{' && m[|m| - 1] == '}'
    && (forall k :: 0 < k < |m| - 1 ==> !IsBrace(m[k]))
    && Contains(m[1..|m| - 1], QuestionKey)
  }

  /** The brace that ends a match starting with the `{` at `p`: the first brace behind it. */
  function MatchEnd(s: string, p: nat): (q: nat)
    requires p < |s|
    ensures p < q <= |s|
  {
    NextBrace(s, p + 1)
  }

  /** The object pattern matches at position `p`. */
  predicate MatchesAt(s: string, p: nat) {
    && p < |s| && s[p] == '{'
    && MatchEnd(s, p) < |s| && s[MatchEnd(s, p)] == '}'
    && Contains(s[p + 1..MatchEnd(s, p)], QuestionKey)
  }

  /** The positions at or after `i` where `f` holds, in increasing order. */
  function Hits(f: seq<bool>, i: nat): (r: seq<nat>)
    requires i <= |f|
    ensures forall k :: 0 <= k < |r| ==> i <= r[k] < |f| && f[r[k]]
    decreases |f| - i
  {
    if i == |f| then [] else (if f[i] then [i] else []) + Hits(f, i + 1)
  }

  /** The positions come in increasing order and none is missed. */
  lemma {:induction false} HitsComplete(f: seq<bool>, i: nat)
    requires i <= |f|
    ensures var r := Hits(f, i);
            && (forall k, l :: 0 <= k < l < |r| ==> r[k] < r[l])
            && (forall p :: i <= p < |f| && f[p] ==> p in r)
    decreases |f| - i
  {
    if i < |f| {
      HitsComplete(f, i + 1);
    }
  }

  /** A stretch where `f` never holds contributes nothing. */
  lemma {:induction false} HitsSkip(f: seq<bool>, a: nat, b: nat)
    requires a <= b <= |f|
    requires forall p :: a <= p < b ==> !f[p]
    ensures Hits(f, a) == Hits(f, b)
    decreases b - a
  {
    if a < b {
      HitsSkip(f, a + 1, b);
    }
  }

  /** For each position of `s`, whether the pattern matches there. */
  function MatchFlags(s: string): (f: seq<bool>)
    ensures |f| == |s|
    ensures forall p :: 0 <= p < |s| ==> f[p] == MatchesAt(s, p)
  {
    seq(|s|, p requires 0 <= p < |s| => MatchesAt(s, p))
  }

  /** Every position at or after `i` where the pattern matches, in increasing order. */
  function MatchStarts(s: string, i: nat): (r: seq<nat>)
    requires i <= |s|
    ensures forall k :: 0 <= k < |r| ==> i <= r[k] < |s| && MatchesAt(s, r[k])
  {
    Hits(MatchFlags(s), i)
  }

  /** The match positions come in increasing order and none is missed. */
  lemma MatchStartsComplete(s: string, i: nat)
    requires i <= |s|
    ensures var r := MatchStarts(s, i);
            && (forall k, l :: 0 <= k < l < |r| ==> r[k] < r[l])
            && (forall p :: i <= p < |s| && MatchesAt(s, p) ==> p in r)
  {
    HitsComplete(MatchFlags(s), i);
  }

  /** A match at `i` is followed by the matches behind its closing brace; otherwise the search moves on by one. */
  lemma StartsStep(s: string, i: nat)
    requires i < |s|
    ensures MatchesAt(s, i) ==> MatchStarts(s, i) == [i] + MatchStarts(s, MatchEnd(s, i) + 1)
    ensures !MatchesAt(s, i) ==> MatchStarts(s, i) == MatchStarts(s, i + 1)
  {
    var f := MatchFlags(s);
    assert Hits(f, i) == (if f[i] then [i] else []) + Hits(f, i + 1);
    if MatchesAt(s, i) {
      var e := MatchEnd(s, i);
      forall p | i + 1 <= p < e + 1
        ensures !f[p]
      {
        if p < e {
          assert !IsBrace(s[p]);
        }
      }
      HitsSkip(f, i + 1, e + 1);
    }
  }

  /** The inner part of the slice `s[i..j + 1]`. */
  lemma InnerSlice(s: string, i: nat, j: nat)
    requires i < j < |s|
    ensures s[i..j + 1][1..j - i] == s[i + 1..j]
  {
    var m := s[i..j + 1][1..j - i];
    forall k | 0 <= k < |m|
      ensures m[k] == s[i + 1..j][k]
    {
    }
  }

  /**
   * The global matches from position `i` on. A match can only start at a `{`;
   * since `[^{}]*` and the key cannot cross a brace, it must end at the first
   * brace after it, which has to be a `}`, and the key must lie in between.
   * After a match the search resumes behind it; after a failed start, one
   * character further.
   */
  function ObjectMatchesFrom(s: string, i: nat): (r: seq<string>)
    requires i <= |s|
    ensures forall k :: 0 <= k < |r| ==> IsObjectMatch(r[k])
    decreases |s| - i
  {
    if i == |s| then []
    else if s[i] == '{' then
      var j := NextBrace(s, i + 1);
      if j < |s| && s[j] == '}' && Contains(s[i + 1..j], QuestionKey) then
        InnerSlice(s, i, j);
        [s[i..j + 1]] + ObjectMatchesFrom(s, j + 1)
      else ObjectMatchesFrom(s, i + 1)
    else ObjectMatchesFrom(s, i + 1)
  }

  /** The text of the match starting at `p`. */
  function MatchText(s: string, p: nat): string
    requires MatchesAt(s, p)
  {
    s[p..MatchEnd(s, p) + 1]
  }

  /** One step of the search, stated with the pattern's own positions. */
  lemma ObjectMatchesStep(s: string, i: nat)
    requires i < |s|
    ensures MatchesAt(s, i) ==> ObjectMatchesFrom(s, i) == [MatchText(s, i)] + ObjectMatchesFrom(s, MatchEnd(s, i) + 1)
    ensures !MatchesAt(s, i) ==> ObjectMatchesFrom(s, i) == ObjectMatchesFrom(s, i + 1)
  {
  }

  /** The texts of the matches at the positions `ps`, in the same order. */
  function TextsAt(s: string, ps: seq<nat>): (r: seq<string>)
    requires forall k :: 0 <= k < |ps| ==> MatchesAt(s, ps[k])
    ensures |r| == |ps|
    ensures forall k :: 0 <= k < |ps| ==> r[k] == MatchText(s, ps[k])
  {
    if |ps| == 0 then [] else [MatchText(s, ps[0])] + TextsAt(s, ps[1..])
  }

  /**
   * The search finds every match and nothing else: the `k`-th match it
   * returns is the text at the `k`-th position where the pattern matches.
   */
  lemma {:induction false} ObjectMatchesAreStarts(s: string, i: nat)
    requires i <= |s|
    ensures ObjectMatchesFrom(s, i) == TextsAt(s, MatchStarts(s, i))
    decreases |s| - i
  {
    if i < |s| {
      StartsStep(s, i);
      ObjectMatchesStep(s, i);
      if MatchesAt(s, i) {
        var j := MatchEnd(s, i);
        ObjectMatchesAreStarts(s, j + 1);
        var st := MatchStarts(s, j + 1);
        assert ([i] + st)[1..] == st;
      } else {
        ObjectMatchesAreStarts(s, i + 1);
      }
    }
  }

  function ObjectMatches(s: string): seq<string> {
    ObjectMatchesFrom(s, 0)
  }

  // ---- `.replace(/,\s*}/g, '}')` and `.replace(/,\s*]/g, ']')` ----

  /** The index of the first non-whitespace character at or after `i`, or `|s|`. */
  function SkipSpaces(s: string, i: nat): (j: nat)
    requires i <= |s|
    ensures i <= j <= |s|
    ensures j < |s| ==> !IsSpace(s[j])
    ensures forall k :: i <= k < j ==> IsSpace(s[k])
    decreases |s| - i
  {
    if i == |s| || !IsSpace(s[i]) then i else SkipSpaces(s, i + 1)
  }

  /** Replaces every match of `,\s*` followed by `close` with `close`, left to right. */
  function DropTrailingCommas(s: string, close: char): (r: string)
    ensures |r| <= |s|
    decreases |s|
  {
    if |s| == 0 then ""
    else if s[0] == ',' then
      var k := SkipSpaces(s, 1);
      if k < |s| && s[k] == close then [close] + DropTrailingCommas(s[k + 1..], close)
      else [','] + DropTrailingCommas(s[1..], close)
    else [s[0]] + DropTrailingCommas(s[1..], close)
  }

  /** The lenient repair: trailing commas before `}`, then before `]`, removed. */
  function Repair(s: string): (r: string)
    ensures |r| <= |s|
    ensures Solid(r) == Solid(s)
  {
    DropTrailingCommasKeepsContent(s, '}');
    DropTrailingCommasKeepsContent(DropTrailingCommas(s, '}'), ']');
    DropTrailingCommas(DropTrailingCommas(s, '}'), ']')
  }

  /** The characters that are neither commas nor whitespace, in order. */
  function Solid(s: string): (r: string)
  {
    if |s| == 0 then "" else (if s[0] == ',' || IsSpace(s[0]) then "" else [s[0]]) + Solid(s[1..])
  }

  lemma {:induction false} SolidAppend(a: string, b: string)
    ensures Solid(a + b) == Solid(a) + Solid(b)
  {
    if |a| > 0 {
      assert (a + b)[1..] == a[1..] + b;
      SolidAppend(a[1..], b);
    } else {
      assert a + b == b;
    }
  }

  lemma {:induction false} SolidOfSpaces(s: string)
    requires forall k :: 0 <= k < |s| ==> IsSpace(s[k])
    ensures Solid(s) == ""
  {
    if |s| > 0 {
      SolidOfSpaces(s[1..]);
    }
  }

  /** The repair only ever deletes commas and whitespace: every other character survives, in order. */
  lemma {:induction false} DropTrailingCommasKeepsContent(s: string, close: char)
    requires close != ',' && !IsSpace(close)
    ensures Solid(DropTrailingCommas(s, close)) == Solid(s)
    decreases |s|
  {
    if |s| > 0 {
      var r := DropTrailingCommas(s, close);
      if s[0] == ',' {
        var k := SkipSpaces(s, 1);
        if k < |s| && s[k] == close {
          DropTrailingCommasKeepsContent(s[k + 1..], close);
          assert s == s[..k] + s[k..];
          SolidAppend(s[..k], s[k..]);
          assert s[..k] == [','] + s[1..k];
          SolidAppend([','], s[1..k]);
          SolidOfSpaces(s[1..k]);
          assert s[k..] == [close] + s[k + 1..];
          SolidAppend([close], s[k + 1..]);
          SolidAppend([close], DropTrailingCommas(s[k + 1..], close));
        } else {
          DropTrailingCommasKeepsContent(s[1..], close);
          SolidAppend([','], DropTrailingCommas(s[1..], close));
        }
      } else {
        DropTrailingCommasKeepsContent(s[1..], close);
        SolidAppend([s[0]], DropTrailingCommas(s[1..], close));
      }
    }
  }

  /** A trailing comma before a closing brace or bracket is gone after the repair. */
  lemma RepairRemovesBeforeBracket(a: string, w: string, b: string)
    requires forall k :: 0 <= k < |w| ==> IsSpace(w[k])
    requires '}' !in a + w + b
    ensures Repair(a + [','] + w + [']'] + b) == DropTrailingCommas(a, ']') + [']'] + DropTrailingCommas(b, ']')
  {
    var s := a + [','] + w + [']'] + b;
    assert '}' !in s;
    DropTrailingCommasRemoves(a, w, b, ']');
    NoCloseUnchanged(s, '}');
  }

  /** Without the closing character the pass changes nothing. */
  lemma {:induction false} NoCloseUnchanged(s: string, close: char)
    requires close !in s
    ensures DropTrailingCommas(s, close) == s
    decreases |s|
  {
    if |s| > 0 {
      NoCloseUnchanged(s[1..], close);
    }
  }

  /** Skipping from `i` over `n` whitespace characters stops at the first other character. */
  lemma {:induction false} SkipSpacesRun(s: string, i: nat, n: nat)
    requires i + n < |s| && !IsSpace(s[i + n])
    requires forall k :: i <= k < i + n ==> IsSpace(s[k])
    ensures SkipSpaces(s, i) == i + n
    decreases n
  {
    if n > 0 {
      SkipSpacesRun(s, i + 1, n - 1);
    }
  }

  /** Skipping whitespace in `a + t`, where `t` opens with another character, never runs into `t`. */
  lemma {:induction false} SkipSpacesPrefix(a: string, t: string, i: nat)
    requires i <= |a|
    requires |t| == 0 || !IsSpace(t[0])
    ensures SkipSpaces(a + t, i) == SkipSpaces(a, i)
    decreases |a| - i
  {
    if i < |a| && IsSpace(a[i]) {
      SkipSpacesPrefix(a, t, i + 1);
    }
  }

  /**
   * The repair works on the two parts of `a + t` separately when `t` opens
   * with a character that neither extends nor ends a match in `a`.
   */
  lemma {:induction false} DropTrailingCommasAppend(a: string, t: string, close: char)
    requires |t| == 0 || (!IsSpace(t[0]) && t[0] != close)
    ensures DropTrailingCommas(a + t, close) == DropTrailingCommas(a, close) + DropTrailingCommas(t, close)
    decreases |a|
  {
    if |a| == 0 {
      assert a + t == t;
    } else {
      var n := FirstStepLength(a, close);
      DropTrailingCommasAppend(a[n..], t, close);
      DropTrailingCommasAppendStep(a, t, close);
    }
  }

  /** How many characters of `a` the first step of the pass consumes. */
  function FirstStepLength(a: string, close: char): (n: nat)
    requires |a| > 0
    ensures 1 <= n <= |a|
  {
    var ka := SkipSpaces(a, 1);
    if a[0] == ',' && ka < |a| && a[ka] == close then ka + 1 else 1
  }

  /** One step of the induction behind `DropTrailingCommasAppend`. */
  lemma DropTrailingCommasAppendStep(a: string, t: string, close: char)
    requires |a| > 0
    requires |t| == 0 || (!IsSpace(t[0]) && t[0] != close)
    requires var n := FirstStepLength(a, close);
             DropTrailingCommas(a[n..] + t, close) == DropTrailingCommas(a[n..], close) + DropTrailingCommas(t, close)
    ensures DropTrailingCommas(a + t, close) == DropTrailingCommas(a, close) + DropTrailingCommas(t, close)
  {
    var n := FirstStepLength(a, close);
    DropTrailingCommasFirst(a, t, close);
    SuffixOfAppend(a, t, n);
    var head := FirstStepHead(a, close);
    Regroup(head, DropTrailingCommas(a[n..], close), DropTrailingCommas(t, close));
  }

  lemma SuffixOfAppend(a: string, t: string, n: nat)
    requires n <= |a|
    ensures (a + t)[n..] == a[n..] + t
  {
  }

  lemma Regroup(h: string, x: string, y: string)
    ensures h + (x + y) == (h + x) + y
  {
  }

  /** What the first step of the pass over `a` writes. */
  function FirstStepHead(a: string, close: char): string
    requires |a| > 0
  {
    if FirstStepLength(a, close) > 1 then [close] else [a[0]]
  }

  /** The first step of the pass over `a + t` is the first step over `a`. */
  lemma DropTrailingCommasFirst(a: string, t: string, close: char)
    requires |a| > 0
    requires |t| == 0 || (!IsSpace(t[0]) && t[0] != close)
    ensures var n := FirstStepLength(a, close);
            var head := FirstStepHead(a, close);
            && DropTrailingCommas(a, close) == head + DropTrailingCommas(a[n..], close)
            && DropTrailingCommas(a + t, close) == head + DropTrailingCommas((a + t)[n..], close)
  {
    var at := a + t;
    assert at[0] == a[0];
    if a[0] == ',' {
      SkipSpacesPrefix(a, t, 1);
      var ka := SkipSpaces(a, 1);
      if ka == |a| && ka < |at| {
        assert at[ka] == t[0];
      }
    }
  }

  /**
   * Every comma followed by white space and the closing character is
   * replaced by that character, whatever text precedes and follows it.
   */
  lemma DropTrailingCommasRemoves(a: string, w: string, b: string, close: char)
    requires close != ',' && !IsSpace(close)
    requires forall k :: 0 <= k < |w| ==> IsSpace(w[k])
    ensures DropTrailingCommas(a + [','] + w + [close] + b, close)
            == DropTrailingCommas(a, close) + [close] + DropTrailingCommas(b, close)
  {
    var t := [','] + w + [close] + b;
    assert a + [','] + w + [close] + b == a + t;
    DropTrailingCommasAppend(a, t, close);
    SkipSpacesRun(t, 1, |w|);
    assert t[|w| + 2..] == b;
  }

  /** A text without commas is left alone by the repair. */
  lemma {:induction false} DropTrailingCommasNoComma(s: string, close: char)
    requires ',' !in s
    ensures DropTrailingCommas(s, close) == s
  {
    if |s| > 0 {
      DropTrailingCommasNoComma(s[1..], close);
    }
  }

  // ---- the ladder ----

  /** `matches.map(JSON.parse)`: the objects when every match parses, `None` when one throws. */
  function ParseEach(ms: seq<string>, parse: string -> Option<Json>): (r: Option<seq<RawCard>>)
    ensures r.Some? ==> |r.value| == |ms|
    ensures r.Some? <==> forall k :: 0 <= k < |ms| ==> parse(ms[k]).Some?
    ensures r.Some? ==> forall k :: 0 <= k < |ms| ==> r.value[k] == AsObject(parse(ms[k]).value)
  {
    if |ms| == 0 then Some([])
    else
      match parse(ms[0])
      case None => None
      case Some(v) =>
        match ParseEach(ms[1..], parse)
        case None => None
        case Some(rest) => Some([AsObject(v)] + rest)
  }

  /** An element as the route reads it: an array element has none of the card properties. */
  function AsObject(v: Json): RawCard {
    match v
    case JObject(o) => o
    case JArray(_) => RawCard(None, None, 0, None)
  }

  /**
   * `extractJSON(text)`. With both brackets present only the bracket slice is
   * parsed; a parsed array is returned as is and a parsed object wrapped in an
   * array. When the slice does not parse, its repair is parsed and returned
   * without wrapping, and when that fails too the result is empty. With a
   * bracket missing, the brace-delimited objects mentioning `"question"` are
   * parsed, all or nothing.
   */
  function ExtractJSON(text: string, parse: string -> Option<Json>): (r: Extracted)
    ensures !('[' in text && ']' in text) ==> r.Found?
    ensures r.Bare? ==> parse(BracketSlice(text)).None? && parse(Repair(BracketSlice(text))) == Some(JObject(r.obj))
    ensures '[' in text && ']' in text && parse(BracketSlice(text)).Some? ==> r.Found?
  {
    if !('[' in text && ']' in text) then
      var ms := ObjectMatches(text);
      if |ms| > 0 then
        match ParseEach(ms, parse)
        case Some(objs) => Found(objs)
        case None => Found([])
      else Found([])
    else
      var slice := BracketSlice(text);
      match parse(slice)
      case Some(JArray(xs)) => Found(xs)
      case Some(JObject(o)) => Found([o])
      case None =>
        match parse(Repair(slice))
        case Some(JArray(xs)) => Found(xs)
        case Some(JObject(o)) => Bare(o)
        case None => Found([])
  }

  /** With both brackets present, nothing outside the bracket slice influences the result. */
  lemma OnlySliceMatters(t1: string, t2: string, parse: string -> Option<Json>)
    requires '[' in t1 && ']' in t1 && '[' in t2 && ']' in t2
    requires BracketSlice(t1) == BracketSlice(t2)
    ensures ExtractJSON(t1, parse) == ExtractJSON(t2, parse)
  {
  }

  /**
   * The object rung is all or nothing: when every match parses, card `k` is
   * the `k`-th parsed match; when one fails, or there is no match, there are
   * no cards at all.
   */
  lemma ObjectRungAllOrNothing(text: string, parse: string -> Option<Json>)
    requires !('[' in text && ']' in text)
    ensures var r := ExtractJSON(text, parse);
            var ms := ObjectMatches(text);
            && r.Found?
            && (r.cards == [] || |r.cards| == |ms|)
            && ((forall k :: 0 <= k < |ms| ==> parse(ms[k]).Some?) ==>
                  |r.cards| == |ms| && forall k :: 0 <= k < |ms| ==> r.cards[k] == AsObject(parse(ms[k]).value))
            && (forall k :: 0 <= k < |ms| && parse(ms[k]).None? ==> r.cards == [])
  {
  }

  /** A slice that parses as an array is returned as it is. */
  lemma ExtractArray(text: string, parse: string -> Option<Json>, xs: seq<RawCard>)
    requires '[' in text && ']' in text && parse(BracketSlice(text)) == Some(JArray(xs))
    ensures ExtractJSON(text, parse) == Found(xs)
  {
  }

  /** A slice that parses as one object is returned as a list of that object. */
  lemma ExtractObject(text: string, parse: string -> Option<Json>, o: RawCard)
    requires '[' in text && ']' in text && parse(BracketSlice(text)) == Some(JObject(o))
    ensures ExtractJSON(text, parse) == Found([o])
  {
  }

  /** When only the repaired slice parses, its value is returned unwrapped: an array as it is, an object bare. */
  lemma ExtractRepaired(text: string, parse: string -> Option<Json>, v: Json)
    requires '[' in text && ']' in text && parse(BracketSlice(text)).None?
    requires parse(Repair(BracketSlice(text))) == Some(v)
    ensures v.JArray? ==> ExtractJSON(text, parse) == Found(v.items)
    ensures v.JObject? ==> ExtractJSON(text, parse) == Bare(v.obj)
  {
  }

  /** When neither the slice nor its repair parses, there are no cards. */
  lemma ExtractGivesUp(text: string, parse: string -> Option<Json>)
    requires '[' in text && ']' in text
    requires parse(BracketSlice(text)).None? && parse(Repair(BracketSlice(text))).None?
    ensures ExtractJSON(text, parse) == Found([])
  {
  }

  /** The repair never touches a leading character other than a comma. */
  lemma KeepsFirst(s: string, close: char)
    requires |s| > 0 && s[0] != ','
    ensures |DropTrailingCommas(s, close)| > 0 && DropTrailingCommas(s, close)[0] == s[0]
  {
  }

  /**
   * With a parser that, like `JSON.parse`, rejects the empty text and yields
   * an array for every text opening with `[` that it accepts, the bare-object
   * outcome cannot occur: the repaired slice still opens with `[`.
   */
  lemma NoBareWithArrayParser(text: string, parse: string -> Option<Json>)
    requires parse("").None?
    requires forall t :: |t| > 0 && t[0] == '[' && parse(t).Some? ==> parse(t).value.JArray?
    ensures ExtractJSON(text, parse).Found?
  {
    if '[' in text && ']' in text {
      var slice := BracketSlice(text);
      if |slice| > 0 {
        KeepsFirst(slice, '}');
        KeepsFirst(DropTrailingCommas(slice, '}'), ']');
      } else {
        assert Repair(slice) == "";
      }
    }
  }
}
