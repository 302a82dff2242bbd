/**
 * String primitives with the JavaScript semantics the pages and routes rely on:
 * `trim`, `split` on one character, `join`, `substring(0, n)`, `slice` on arrays
 * and ASCII `toLowerCase`. Strings are sequences of characters; Unicode
 * whitespace and case mapping beyond ASCII are not modelled.
 */
module Text {

  /** Whitespace as `String.prototype.trim` and the regex class `\s` see it, restricted to ASCII. */
  predicate IsSpace(c: char) {
    c == ' ' || c == '\t' || c == '\n' || c == '\r' || c == 11 as char || c == 12 as char
  }

  /** `s.trimStart()`: drops the leading whitespace and nothing else. */
  function TrimStart(s: string): (r: string)
    ensures |r| <= |s| && r == s[|s| - |r|..]
    ensures |r| > 0 ==> !IsSpace(r[0])
    ensures forall i :: 0 <= i < |s| - |r| ==> IsSpace(s[i])
  {
    if |s| > 0 && IsSpace(s[0]) then TrimStart(s[1..]) else s
  }

  /** `s.trimEnd()`: drops the trailing whitespace and nothing else. */
  function TrimEnd(s: string): (r: string)
    ensures |r| <= |s| && r == s[..|r|]
    ensures |r| > 0 ==> !IsSpace(r[|r| - 1])
    ensures forall i :: |r| <= i < |s| ==> IsSpace(s[i])
  {
    if |s| > 0 && IsSpace(s[|s| - 1]) then TrimEnd(s[..|s| - 1]) else s
  }

  /** The number of whitespace characters `s` opens with. */
  function LeadingSpaces(s: string): (n: nat)
    ensures n <= |s|
    ensures forall i :: 0 <= i < n ==> IsSpace(s[i])
    ensures n < |s| ==> !IsSpace(s[n])
  {
    if |s| > 0 && IsSpace(s[0]) then 1 + LeadingSpaces(s[1..]) else 0
  }

  /** `TrimStart` drops exactly the leading whitespace. */
  lemma {:induction false} TrimStartSkipsLeading(s: string)
    ensures TrimStart(s) == s[LeadingSpaces(s)..]
  {
    if |s| > 0 && IsSpace(s[0]) {
      TrimStartSkipsLeading(s[1..]);
    }
  }

  /**
   * `s.trim()`: the slice of `s` that starts behind its leading whitespace
   * and is followed by whitespace only, with no whitespace at either end.
   */
  function Trim(s: string): (r: string)
    ensures |r| <= |s|
    ensures |r| > 0 ==> !IsSpace(r[0]) && !IsSpace(r[|r| - 1])
    ensures var i := LeadingSpaces(s);
            && i + |r| <= |s| && r == s[i..i + |r|]
            && forall k :: i + |r| <= k < |s| ==> IsSpace(s[k])
  {
    TrimStartSkipsLeading(s);
    TrimEndOfSuffix(s, LeadingSpaces(s));
    TrimEnd(TrimStart(s))
  }

  /** Trimming the end of a suffix of `s` leaves a slice of `s` followed by whitespace only. */
  lemma TrimEndOfSuffix(s: string, n: nat)
    requires n <= |s|
    ensures var r := TrimEnd(s[n..]);
            && n + |r| <= |s| && r == s[n..n + |r|]
            && forall k :: n + |r| <= k < |s| ==> IsSpace(s[k])
  {
    var t := s[n..];
    var r := TrimEnd(t);
    assert forall k :: n + |r| <= k < |s| ==> s[k] == t[k - n];
  }

  /** Trimming only removes characters: whatever is left occurs in the input. */
  lemma TrimChars(s: string)
    ensures forall i :: 0 <= i < |Trim(s)| ==> Trim(s)[i] in s
  {
    var r := Trim(s);
    var n := LeadingSpaces(s);
    forall i | 0 <= i < |r|
      ensures r[i] in s
    {
      assert r[i] == s[n..n + |r|][i] == s[n + i];
    }
  }

  /** A string with no whitespace at either end is its own trim. */
  lemma TrimmedIsFixpoint(s: string)
    requires |s| > 0 ==> !IsSpace(s[0]) && !IsSpace(s[|s| - 1])
    ensures Trim(s) == s
  {
  }

  /** Trimming twice is trimming once. */
  lemma TrimIdempotent(s: string)
    ensures Trim(Trim(s)) == Trim(s)
  {
    TrimmedIsFixpoint(Trim(s));
  }

  /** `s.substring(0, n)` for a non-negative `n`. */
  function Prefix(s: string, n: nat): (r: string)
    ensures |r| <= n && |r| <= |s|
    ensures r == s[..|r|]
    ensures |s| <= n ==> r == s
  {
    if |s| <= n then s else s[..n]
  }

  /** `xs.slice(lo, hi)` for non-negative bounds: both are clamped to the length. */
  function Slice<T>(xs: seq<T>, lo: nat, hi: nat): (r: seq<T>)
    requires lo <= hi
    ensures |r| <= hi - lo
  {
    var a := if lo <= |xs| then lo else |xs|;
    var b := if hi <= |xs| then hi else |xs|;
    xs[a..b]
  }

  /** Number of occurrences of `c` in `s`. */
  function Count(s: string, c: char): nat
  {
    if |s| == 0 then 0 else (if s[0] == c then 1 else 0) + Count(s[1..], c)
  }

  /** `s.split(c)` for a one-character separator: the pieces between separators, empty ones included. */
  function Split(s: string, c: char): (r: seq<string>)
    ensures |r| == Count(s, c) + 1
    ensures forall i :: 0 <= i < |r| ==> c !in r[i]
  {
    if |s| == 0 then [""]
    else
      var rest := Split(s[1..], c);
      if s[0] == c then [""] + rest else [[s[0]] + rest[0]] + rest[1..]
  }

  /** `parts.join(sep)`. */
  function Join(parts: seq<string>, sep: string): string
  {
    if |parts| == 0 then ""
    else if |parts| == 1 then parts[0]
    else parts[0] + sep + Join(parts[1..], sep)
  }

  /** Splitting on a character and joining with it gives the original string back. */
  lemma {:induction false} JoinSplit(s: string, c: char)
    ensures Join(Split(s, c), [c]) == s
  {
    if |s| > 0 {
      JoinSplit(s[1..], c);
      var rest := Split(s[1..], c);
      if s[0] == c {
        assert s == [c] + s[1..];
      } else if |rest| == 1 {
        assert s == [s[0]] + s[1..];
      } else {
        assert rest == [rest[0]] + rest[1..];
        assert Join(rest, [c]) == rest[0] + [c] + Join(rest[1..], [c]);
        assert s == [s[0]] + s[1..];
      }
    }
  }

  /** All pieces laid end to end. */
  function Concat(parts: seq<string>): string {
    if |parts| == 0 then "" else parts[0] + Concat(parts[1..])
  }

  /** ASCII `toLowerCase` of one character. */
  function LowerChar(c: char): char
  {
    if 'A' <= c <= 'Z' then (c as int + 32) as char else c
  }

  /** ASCII `toLowerCase`: changes letters only, so length and spaces are kept. */
  function Lower(s: string): (r: string)
    ensures |r| == |s|
    ensures forall i :: 0 <= i < |s| ==> r[i] == LowerChar(s[i])
  {
    if |s| == 0 then "" else [LowerChar(s[0])] + Lower(s[1..])
  }

  /** `ys` is `xs` lowered piece by piece. */
  predicate LoweredPieces(xs: seq<string>, ys: seq<string>) {
    |ys| == |xs| && forall i :: 0 <= i < |xs| ==> ys[i] == Lower(xs[i])
  }

  /** Prepending a character to the first piece keeps two split lists lowered piece by piece. */
  lemma LoweredCons(x: char, rest: seq<string>, lrest: seq<string>)
    requires |rest| > 0 && LoweredPieces(rest, lrest)
    ensures LoweredPieces([[x] + rest[0]] + rest[1..], [[LowerChar(x)] + lrest[0]] + lrest[1..])
  {
    assert Lower([x] + rest[0]) == [LowerChar(x)] + Lower(rest[0]);
  }

  /** Lowering a string lowers every piece of its split on a non-letter separator. */
  lemma {:induction false} SplitLower(s: string, c: char)
    requires LowerChar(c) == c && !('a' <= c <= 'z')
    ensures LoweredPieces(Split(s, c), Split(Lower(s), c))
  {
    if |s| > 0 {
      SplitLower(s[1..], c);
      var ls := Lower(s);
      assert ls[0] == LowerChar(s[0]) && ls[1..] == Lower(s[1..]);
      var rest := Split(s[1..], c);
      var lrest := Split(Lower(s[1..]), c);
      if s[0] == c {
        assert Split(ls, c) == [""] + lrest;
        assert Split(s, c) == [""] + rest;
      } else {
        assert LowerChar(s[0]) != c;
        assert Split(ls, c) == [[LowerChar(s[0])] + lrest[0]] + lrest[1..];
        LoweredCons(s[0], rest, lrest);
      }
    }
  }

  /** True when `s` ends with the character `c`. */
  predicate EndsWith(s: string, c: char) {
    |s| > 0 && s[|s| - 1] == c
  }

  /** True when `p` occurs in `s` as a contiguous piece. */
  predicate Contains(s: string, p: string)
  {
    (|p| <= |s| && s[..|p|] == p) || (|s| > 0 && Contains(s[1..], p))
  }

  /** Decimal digits of a natural number, as template literals render it. */
  function NatToString(n: nat): (r: string)
    ensures |r| >= 1
    ensures forall i :: 0 <= i < |r| ==> '0' <= r[i] <= '9'
  {
    if n < 10 then [(48 + n) as char] else NatToString(n / 10) + [(48 + n % 10) as char]
  }
}
