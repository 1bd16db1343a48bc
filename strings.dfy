/**
 * Text helpers shared by the three monitors: ASCII lower-casing (Python's
 * `str.lower` restricted to the characters subreddit names, user names and
 * URLs use), prefix tests (`startswith`) and substring tests (`in`).
 */
module Strings {

  function LowerChar(c: char): (r: char)
    ensures 'A' <= c <= 'Z' ==> r as int == c as int + 32
    ensures !('A' <= c <= 'Z') ==> r == c
  {
    if 'A' <= c <= 'Z' then (c as int + 32) as char else c
  }

  /**
   * `s.lower()`, one character at a time: no upper-case letter is left, each
   * upper-case letter becomes its lower-case partner, and every other
   * character stays as it was.
   */
  function Lower(s: string): (r: string)
    ensures |r| == |s|
    ensures forall i :: 0 <= i < |r| ==> !('A' <= r[i] <= 'Z')
    ensures forall i :: 0 <= i < |s| && 'A' <= s[i] <= 'Z' ==> r[i] as int == s[i] as int + 32
    ensures forall i :: 0 <= i < |s| && !('A' <= s[i] <= 'Z') ==> r[i] == s[i]
  {
    seq(|s|, i requires 0 <= i < |s| => LowerChar(s[i]))
  }

  /** `s.startswith(prefix)` */
  predicate StartsWith(s: string, prefix: string)
  {
    prefix <= s
  }

  /** `needle in s`: some suffix of `s` starts with `needle` */
  predicate Contains(s: string, needle: string)
    decreases |s|
  {
    needle <= s || (|s| > 0 && Contains(s[1..], needle))
  }

  /** Lower-casing twice is lower-casing once. */
  lemma LowerIdempotent(s: string)
    ensures Lower(Lower(s)) == Lower(s)
  {
  }

  /** `needle` occurs in `s` starting at index `i`. */
  predicate OccursAt(s: string, needle: string, i: nat)
  {
    i + |needle| <= |s| && s[i..i + |needle|] == needle
  }

  /** An occurrence of `needle` at index `i` makes `needle in s` hold. */
  lemma {:induction false} ContainsAt(s: string, needle: string, i: nat)
    requires OccursAt(s, needle, i)
    ensures Contains(s, needle)
    decreases i
  {
    if i > 0 {
      assert s[1..][i - 1..i - 1 + |needle|] == needle;
      ContainsAt(s[1..], needle, i - 1);
    }
  }

  /** Conversely, `needle in s` holds only when `needle` occurs at some index. */
  lemma {:induction false} ContainsOccurs(s: string, needle: string)
    requires Contains(s, needle)
    ensures exists i: nat :: OccursAt(s, needle, i)
    decreases |s|
  {
    if needle <= s {
      assert OccursAt(s, needle, 0);
    } else {
      ContainsOccurs(s[1..], needle);
      var i: nat :| OccursAt(s[1..], needle, i);
      assert s[i + 1..i + 1 + |needle|] == s[1..][i..i + |needle|];
      assert OccursAt(s, needle, i + 1);
    }
  }
}
