/**
 Character classes, the ASCII part of JavaScript's `toLowerCase`, and the prefix and
 substring relations behind `startsWith`-style matching and `String.prototype.includes`.
 */
module Text {

  predicate IsPrefix(p: string, s: string) {
    |p| <= |s| && s[..|p|] == p
  }

  predicate IsLetter(c: char) {
    ('a' <= c <= 'z') || ('A' <= c <= 'Z')
  }

  predicate IsDigit(c: char) {
    '0' <= c <= '9'
  }

  /** The regex class `[a-zA-Z0-9]`. */
  predicate IsAlnum(c: char) {
    IsLetter(c) || IsDigit(c)
  }

  /** ASCII case folding: `A`..`Z` move to `a`..`z`, every other character is kept. */
  function LowerChar(c: char): (r: char)
    ensures 'a' <= r <= 'z' <==> IsLetter(c)
    ensures !('A' <= c <= 'Z') ==> r == c
    ensures 'A' <= c <= 'Z' ==> r as int == c as int + 32
  {
    if 'A' <= c <= 'Z' then (c as int + 32) as char else c
  }

  /** The upper-case partner of a lower-case ASCII letter. */
  function UpperChar(c: char): char {
    if 'a' <= c <= 'z' then (c as int - 32) as char else c
  }

  /** The only characters that fold onto a lower-case ASCII letter are that letter and its capital. */
  lemma FoldsOnto(x: char, c: char)
    requires 'a' <= c <= 'z'
    requires LowerChar(x) == c
    ensures x == c || x == UpperChar(c)
  {
  }

  function ToLower(s: string): (r: string)
    ensures |r| == |s|
    ensures forall i :: 0 <= i < |s| ==> r[i] == LowerChar(s[i])
  {
    seq(|s|, i requires 0 <= i < |s| => LowerChar(s[i]))
  }

  /** `needle` occurs in `hay` starting at index `i`. */
  predicate OccursAt(needle: string, hay: string, i: int) {
    0 <= i && i + |needle| <= |hay| && hay[i..i + |needle|] == needle
  }

  /** JavaScript `hay.includes(needle)`; the empty needle is included everywhere. */
  predicate Includes(hay: string, needle: string) {
    exists i :: 0 <= i <= |hay| - |needle| && OccursAt(needle, hay, i)
  }

  /** `hay.toLowerCase().includes(needle.toLowerCase())`, with ASCII folding. */
  predicate IncludesFolded(hay: string, needle: string) {
    Includes(ToLower(hay), ToLower(needle))
  }

  /** A letter of `needle` missing from `hay` in both cases rules out a case-insensitive match. */
  lemma {:induction false} LetterMissingExcludes(hay: string, needle: string, k: nat)
    requires k < |needle| && 'a' <= needle[k] <= 'z'
    requires forall i :: 0 <= i < |hay| ==> hay[i] != needle[k] && hay[i] != UpperChar(needle[k])
    ensures !IncludesFolded(hay, needle)
  {
    RareLetterExcludes(hay, needle, k, -1);
  }

  /**
   A letter of `needle` that `hay` holds, in either case, at index `j` at most, where
   no copy of `needle` begins at `j - k`, rules out a case-insensitive match. A `j`
   outside `hay` says the letter is missing altogether.
   */
  lemma {:induction false} RareLetterExcludes(hay: string, needle: string, k: nat, j: int)
    requires k < |needle| && 'a' <= needle[k] <= 'z'
    requires forall i :: 0 <= i < |hay| && i != j ==> hay[i] != needle[k] && hay[i] != UpperChar(needle[k])
    requires !OccursAt(ToLower(needle), ToLower(hay), j - k)
    ensures !IncludesFolded(hay, needle)
  {
    forall i | 0 <= i <= |hay| - |needle| && i != j - k
      ensures !OccursAt(ToLower(needle), ToLower(hay), i)
    {
      assert ToLower(hay)[i..i + |needle|][k] == LowerChar(hay[i + k]);
      assert ToLower(needle)[k] == needle[k];
      if LowerChar(hay[i + k]) == needle[k] {
        FoldsOnto(hay[i + k], needle[k]);
      }
    }
  }
}
