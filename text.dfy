/**
 * The small part of Python's `str` behaviour the scraper relies on:
 * `isspace`/`strip`, `lower` (ASCII letters), the `in` substring test,
 * slicing with a stop index `s[:n]`, and `" ".join`.
 */
module Text {

  /** Python's `str.isspace()`, written out character by character. */
  predicate IsSpace(c: char) {
    c == ' ' || ('\t' <= c <= '\r') || ('\U{1C}' <= c <= '\U{1F}')
    || c == '\U{85}' || c == '\U{A0}' || c == '\U{1680}'
    || ('\U{2000}' <= c <= '\U{200A}') || c == '\U{2028}' || c == '\U{2029}'
    || c == '\U{202F}' || c == '\U{205F}' || c == '\U{3000}'
  }

  /** Neither the first nor the last character is whitespace. */
  predicate IsStripped(s: string) {
    s == [] || (!IsSpace(s[0]) && !IsSpace(s[|s| - 1]))
  }

  /** Python's `str.strip()` with no argument. */
  function Strip(s: string): (r: string)
    ensures IsStripped(r)
    ensures |r| <= |s|
    decreases |s|
  {
    if s == [] then []
    else if IsSpace(s[0]) then Strip(s[1..])
    else if IsSpace(s[|s| - 1]) then Strip(s[..|s| - 1])
    else s
  }

  /** Only whitespace lies outside `s[lo..hi]`. */
  predicate SpaceAround(s: string, lo: int, hi: int) {
    0 <= lo <= hi <= |s|
    && (forall k :: 0 <= k < lo ==> IsSpace(s[k]))
    && (forall k :: hi <= k < |s| ==> IsSpace(s[k]))
  }

  lemma SpaceAroundDropFirst(s: string, lo: int, hi: int)
    requires s != [] && IsSpace(s[0]) && SpaceAround(s[1..], lo, hi)
    ensures SpaceAround(s, lo + 1, hi + 1) && s[1..][lo..hi] == s[lo + 1..hi + 1]
  {
    assert forall k :: 1 <= k < |s| ==> s[k] == s[1..][k - 1];
  }

  lemma SpaceAroundDropLast(s: string, lo: int, hi: int)
    requires s != [] && IsSpace(s[|s| - 1]) && SpaceAround(s[..|s| - 1], lo, hi)
    ensures SpaceAround(s, lo, hi) && s[..|s| - 1][lo..hi] == s[lo..hi]
  {
    assert forall k :: 0 <= k < |s| - 1 ==> s[k] == s[..|s| - 1][k];
  }

  lemma {:induction false} StripBounds(s: string) returns (lo: int, hi: int)
    ensures SpaceAround(s, lo, hi) && Strip(s) == s[lo..hi]
    decreases |s|
  {
    if s == [] {
      lo, hi := 0, 0;
    } else if IsSpace(s[0]) {
      var lo', hi' := StripBounds(s[1..]);
      SpaceAroundDropFirst(s, lo', hi');
      lo, hi := lo' + 1, hi' + 1;
    } else if IsSpace(s[|s| - 1]) {
      lo, hi := StripBounds(s[..|s| - 1]);
      SpaceAroundDropLast(s, lo, hi);
    } else {
      lo, hi := 0, |s|;
    }
  }

  /**
   * `s.strip()` is what is left of `s` once the whitespace at both ends is
   * removed: a slice of `s` with only whitespace around it.
   */
  lemma StripIsSlice(s: string)
    ensures exists lo, hi :: SpaceAround(s, lo, hi) && Strip(s) == s[lo..hi]
  {
    var lo, hi := StripBounds(s);
  }

  /** Stripping text that has no surrounding whitespace changes nothing. */
  lemma StripStripped(s: string)
    requires IsStripped(s)
    ensures Strip(s) == s
  {
  }

  lemma StripIdempotent(s: string)
    ensures Strip(Strip(s)) == Strip(s)
  {
    StripStripped(Strip(s));
  }

  function LowerChar(c: char): (d: char)
    ensures 'A' <= c <= 'Z' ==> d as int == c as int + 32
    ensures !('A' <= c <= 'Z') ==> d == c
  {
    if 'A' <= c <= 'Z' then (c as int + 32) as char else c
  }

  /** `str.lower()` restricted to the ASCII letters. */
  function Lower(s: string): (r: string)
    ensures |r| == |s|
    ensures forall k :: 0 <= k < |s| ==> r[k] == LowerChar(s[k])
  {
    seq(|s|, k requires 0 <= k < |s| => LowerChar(s[k]))
  }

  lemma LowerSlice(s: string, i: nat, j: nat)
    requires i <= j <= |s|
    ensures Lower(s)[i..j] == Lower(s[i..j])
  {
  }

  /** `t` occurs in `s` starting at index `i`. */
  predicate OccursAt(s: string, t: string, i: int) {
    0 <= i && i + |t| <= |s| && s[i..i + |t|] == t
  }

  /** Python's `t in s` for strings, as a left-to-right search. */
  function Contains(s: string, t: string): (b: bool)
    ensures b <==> exists i :: OccursAt(s, t, i)
    decreases |s|
  {
    if |t| > |s| then
      assert forall i :: !OccursAt(s, t, i);
      false
    else if s[..|t|] == t then
      assert OccursAt(s, t, 0);
      true
    else
      var rest := Contains(s[1..], t);
      assert forall i :: OccursAt(s[1..], t, i) <==> OccursAt(s, t, i + 1) by {
        forall i ensures OccursAt(s[1..], t, i) <==> OccursAt(s, t, i + 1) {
          if 0 <= i && i + |t| <= |s| - 1 {
            assert s[1..][i..i + |t|] == s[i + 1..i + 1 + |t|];
          }
        }
      }
      assert !OccursAt(s, t, 0);
      assert rest ==> exists i :: OccursAt(s, t, i) by {
        if rest {
          var i :| OccursAt(s[1..], t, i);
          assert OccursAt(s, t, i + 1);
        }
      }
      assert (exists i :: OccursAt(s, t, i)) ==> rest by {
        if exists i :: OccursAt(s, t, i) {
          var i :| OccursAt(s, t, i);
          assert i != 0;
          assert OccursAt(s[1..], t, i - 1);
        }
      }
      rest
  }

  /** Python's slice `s[:n]`, including a negative stop counted from the end. */
  function PyPrefix<T>(s: seq<T>, n: int): (r: seq<T>)
    ensures |r| <= |s| && r == s[..|r|]
    ensures n >= 0 ==> |r| == if n < |s| then n else |s|
    ensures n < 0 ==> |r| == if |s| + n > 0 then |s| + n else 0
  {
    if n >= 0 then (if n < |s| then s[..n] else s)
    else (if |s| + n > 0 then s[..|s| + n] else [])
  }

  /** A stop at or beyond the end copies the whole sequence. */
  lemma PyPrefixWhole<T>(s: seq<T>, n: int)
    requires |s| <= n
    ensures PyPrefix(s, n) == s
  {
  }

  /** Python's `" ".join(parts)`. */
  function JoinSpace(parts: seq<string>): string
  {
    if parts == [] then []
    else if |parts| == 1 then parts[0]
    else parts[0] + " " + JoinSpace(parts[1..])
  }

  /**
   * The joined text starts with the first part, followed by a space when
   * more parts come, and ends with the last part.
   */
  lemma {:induction false} JoinSpaceEnds(parts: seq<string>)
    requires parts != []
    ensures parts[0] <= JoinSpace(parts)
    ensures |parts| >= 2 ==> |parts[0]| < |JoinSpace(parts)| && JoinSpace(parts)[|parts[0]|] == ' '
    ensures var r, last := JoinSpace(parts), parts[|parts| - 1];
      |last| <= |r| && r[|r| - |last|..] == last
    decreases |parts|
  {
    if |parts| >= 2 {
      var rest := JoinSpace(parts[1..]);
      JoinSpaceEnds(parts[1..]);
      assert JoinSpace(parts) == parts[0] + " " + rest;
      assert parts[1..][|parts[1..]| - 1] == parts[|parts| - 1];
    }
  }
}
