/**
 * The chunking of the extracted document text before it is sent to the
 * generative service: `fullText.match(/(.|[\r\n]){1,4000}/g) || []`, of which
 * the first six chunks are joined with newlines.
 *
 * The pattern `(.|[\r\n])` matches every character except the two Unicode
 * separators U+2028 and U+2029 (`.` excludes them with `\r` and `\n`, and the
 * class adds back only `\r` and `\n`). A global match therefore cuts every run
 * of other characters into greedy pieces of at most 4000 characters and skips
 * the separators themselves.
 */
module Chunking {
  import opened Text

  const ChunkSize: nat := 4000
  const MaxChunks: nat := 6

  /** The two characters the pattern cannot match. */
  predicate IsSeparator(c: char) {
    c as int == 0x2028 || c as int == 0x2029
  }

  /** The length of the leading run of matchable characters, capped at `cap`. */
  function LeadingRun(s: string, cap: nat): (n: nat)
    ensures n <= cap && n <= |s|
    ensures forall i :: 0 <= i < n ==> !IsSeparator(s[i])
    ensures n < cap && n < |s| ==> IsSeparator(s[n])
  {
    if cap == 0 || |s| == 0 || IsSeparator(s[0]) then 0 else 1 + LeadingRun(s[1..], cap - 1)
  }

  /** The matches of the global pattern, left to right. */
  function Chunks(s: string): (r: seq<string>)
    ensures forall i :: 0 <= i < |r| ==> 1 <= |r[i]| <= ChunkSize
    ensures forall i, j :: 0 <= i < |r| && 0 <= j < |r[i]| ==> !IsSeparator(r[i][j])
    decreases |s|
  {
    if |s| == 0 then []
    else if IsSeparator(s[0]) then Chunks(s[1..])
    else
      var n := LeadingRun(s, ChunkSize);
      [s[..n]] + Chunks(s[n..])
  }

  /** The text without its separator characters. */
  function DropSeparators(s: string): (r: string)
    ensures |r| <= |s|
  {
    if |s| == 0 then "" else (if IsSeparator(s[0]) then "" else [s[0]]) + DropSeparators(s[1..])
  }

  lemma {:induction false} DropSeparatorsAppend(a: string, b: string)
    ensures DropSeparators(a + b) == DropSeparators(a) + DropSeparators(b)
  {
    if |a| > 0 {
      assert (a + b)[1..] == a[1..] + b;
      DropSeparatorsAppend(a[1..], b);
    } else {
      assert a + b == b;
    }
  }

  lemma {:induction false} DropSeparatorsFree(s: string)
    requires forall i :: 0 <= i < |s| ==> !IsSeparator(s[i])
    ensures DropSeparators(s) == s
  {
    if |s| > 0 {
      DropSeparatorsFree(s[1..]);
    }
  }

  /** The chunks lose no character but the two separators, and keep the order. */
  lemma {:induction false} ChunksCover(s: string)
    ensures Concat(Chunks(s)) == DropSeparators(s)
    decreases |s|
  {
    if |s| > 0 {
      if IsSeparator(s[0]) {
        ChunksCover(s[1..]);
      } else {
        var n := LeadingRun(s, ChunkSize);
        ChunksCover(s[n..]);
        assert s == s[..n] + s[n..];
        DropSeparatorsAppend(s[..n], s[n..]);
        DropSeparatorsFree(s[..n]);
      }
    }
  }

  /** Without separators in the text, the chunks concatenate back to the text exactly. */
  lemma ChunksConcatenate(s: string)
    requires forall i :: 0 <= i < |s| ==> !IsSeparator(s[i])
    ensures Concat(Chunks(s)) == s
  {
    ChunksCover(s);
    DropSeparatorsFree(s);
  }

  /** Every chunk but the last is a full 4000 characters when the text has no separator. */
  lemma {:induction false} ChunksAreFull(s: string)
    requires forall i :: 0 <= i < |s| ==> !IsSeparator(s[i])
    ensures forall i :: 0 <= i < |Chunks(s)| - 1 ==> |Chunks(s)[i]| == ChunkSize
    decreases |s|
  {
    if |s| > 0 {
      var n := LeadingRun(s, ChunkSize);
      ChunksAreFull(s[n..]);
      if n < ChunkSize {
        assert Chunks(s[n..]) == [];
      }
    }
  }

  function Min(a: int, b: int): int { if a < b then a else b }

  /** The chunks that go into the prompt: the first six, or all of them when there are fewer. */
  function Kept(s: string): (r: seq<string>)
    ensures |r| == Min(|Chunks(s)|, MaxChunks)
    ensures r == Chunks(s)[..|r|]
  {
    var cs := Chunks(s);
    if |cs| <= MaxChunks then cs else cs[..MaxChunks]
  }

  /** The context sent with the prompt: the kept chunks joined by newlines. */
  function SelectedContext(s: string): (r: string)
    ensures |r| <= MaxChunks * ChunkSize + MaxChunks - 1
  {
    JoinBound(Kept(s));
    Join(Kept(s), "\n")
  }

  /** Joining `k` pieces with newlines adds exactly `k - 1` characters to the pieces themselves. */
  lemma {:induction false} JoinBound(parts: seq<string>)
    requires forall i :: 0 <= i < |parts| ==> |parts[i]| <= ChunkSize
    ensures |Join(parts, "\n")| == |Concat(parts)| + (if |parts| == 0 then 0 else |parts| - 1)
    ensures |Join(parts, "\n")| <= |parts| * ChunkSize + (if |parts| == 0 then 0 else |parts| - 1)
  {
    if |parts| > 1 {
      JoinBound(parts[1..]);
    }
  }

  lemma {:induction false} ConcatAppend(a: seq<string>, b: seq<string>)
    ensures Concat(a + b) == Concat(a) + Concat(b)
  {
    if |a| > 0 {
      assert (a + b)[1..] == a[1..] + b;
      ConcatAppend(a[1..], b);
    } else {
      assert a + b == b;
    }
  }

  lemma {:induction false} ConcatLength(parts: seq<string>)
    requires forall i :: 0 <= i < |parts| ==> |parts[i]| <= ChunkSize
    ensures |Concat(parts)| <= |parts| * ChunkSize
    ensures (forall i :: 0 <= i < |parts| ==> |parts[i]| == ChunkSize) ==> |Concat(parts)| == |parts| * ChunkSize
  {
    if |parts| > 0 {
      ConcatLength(parts[1..]);
    }
  }

  /**
   * Without separators in the text, the kept chunks are exactly its first
   * 24000 characters, cut into pieces of 4000, and the context is those
   * characters with one newline between consecutive pieces.
   */
  lemma SelectedContextIsPrefix(s: string)
    requires forall i :: 0 <= i < |s| ==> !IsSeparator(s[i])
    ensures var kept := Kept(s);
            && Concat(kept) == s[..Min(|s|, MaxChunks * ChunkSize)]
            && (forall i :: 0 <= i < |kept| - 1 ==> |kept[i]| == ChunkSize)
            && SelectedContext(s) == Join(kept, "\n")
            && |SelectedContext(s)| == (if |s| == 0 then 0 else Min(|s|, MaxChunks * ChunkSize) + |kept| - 1)
  {
    var cs := Chunks(s);
    var kept := Kept(s);
    ChunksConcatenate(s);
    ChunksAreFull(s);
    JoinBound(kept);
    if |cs| <= MaxChunks {
      ConcatLength(cs);
    } else {
      assert cs == kept + cs[MaxChunks..];
      ConcatAppend(kept, cs[MaxChunks..]);
      ConcatLength(kept);
    }
    assert |s| > 0 ==> |kept| > 0;
  }
}
