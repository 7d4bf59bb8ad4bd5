/** Case-insensitive substring matching, the meaning given here to a Mongo
    `$regex` condition with the `i` option whose pattern holds no regex
    metacharacters. Case folding is ASCII only. */
module Text {

  function LowerChar(c: char): char
  {
    if 'A' <= c <= 'Z' then (c as int + ('a' as int - 'A' as int)) as char else c
  }

  function Lower(s: string): string
  {
    seq(|s|, i requires 0 <= i < |s| => LowerChar(s[i]))
  }

  /** `needle` occurs in `hay` starting at position `k`. */
  predicate OccursAt(hay: string, needle: string, k: int)
  {
    0 <= k && k + |needle| <= |hay| && hay[k..k + |needle|] == needle
  }

  ghost predicate Contains(hay: string, needle: string)
  {
    exists k :: OccursAt(hay, needle, k)
  }

  /** Searches for `needle` in `hay` at positions `from` and later. */
  function OccursFrom(hay: string, needle: string, from: nat): (found: bool)
    ensures found <==> exists k :: from <= k && OccursAt(hay, needle, k)
    decreases |hay| - from
  {
    if from + |needle| > |hay| then false
    else OccursAt(hay, needle, from) || OccursFrom(hay, needle, from + 1)
  }

  /** True exactly when `needle` is a substring of `hay`, ignoring case. */
  function ContainsIgnoreCase(hay: string, needle: string): (found: bool)
    ensures found <==> Contains(Lower(hay), Lower(needle))
  {
    OccursFrom(Lower(hay), Lower(needle), 0)
  }

  /** Folding case makes the match insensitive to the case of either side. */
  lemma ContainsIgnoreCaseFolds(hay: string, needle: string)
    ensures ContainsIgnoreCase(hay, needle) == ContainsIgnoreCase(Lower(hay), Lower(needle))
  {
    LowerIdempotent(hay);
    LowerIdempotent(needle);
  }

  lemma LowerIdempotent(s: string)
    ensures Lower(Lower(s)) == Lower(s)
  {
  }
}
