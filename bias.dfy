/**
 * The editorial-bias heuristics of `utils.py`: the article type read off
 * the URL, the subjectivity bucket from three fixed marker lists, and
 * their combination with a sentiment score.
 *
 * The sentiment score (VADER) is foreign code and enters as a parameter.
 */
module BiasHeuristic {
  import opened Wrappers
  import opened Text

  datatype ArticleType = News | Opinion
  datatype Hint = Low | Medium | High

  /** The `Bias` record; `sentiment` is the unrounded compound score. */
  datatype Bias = Bias(articleType: ArticleType, sentiment: real, subjectivity: Hint)

  // ---------------------------------------------------------------------
  // Article type

  const OpinionMarker: string := "/opinion/"

  /** `url` holds `/opinion/` at index `i`, in any mix of ASCII case. */
  predicate OpinionAt(url: string, i: int) {
    0 <= i && i + |OpinionMarker| <= |url| && Lower(url[i..i + |OpinionMarker|]) == OpinionMarker
  }

  /** `detect_article_type`: "Opinion" exactly when the URL holds `/opinion/`, ignoring case. */
  function DetectArticleType(url: string): (t: ArticleType)
    ensures t == Opinion <==> exists i :: OpinionAt(url, i)
  {
    var lowered := Lower(url);
    assert forall i :: OccursAt(lowered, OpinionMarker, i) <==> OpinionAt(url, i) by {
      forall i ensures OccursAt(lowered, OpinionMarker, i) <==> OpinionAt(url, i) {
        if 0 <= i && i + |OpinionMarker| <= |url| {
          LowerSlice(url, i, i + |OpinionMarker|);
        }
      }
    }
    if Contains(lowered, OpinionMarker) then Opinion else News
  }

  // ---------------------------------------------------------------------
  // Subjectivity markers: `\b(w1|w2|...)\b` with IGNORECASE, counted by `findall`

  const FirstPerson: seq<string> := ["I", "we", "me", "us", "my", "our", "mine", "ours"]
  const ModalVerbs: seq<string> := ["should", "would", "could", "must", "might", "may", "ought"]
  const Evaluatives: seq<string> :=
    ["important", "significant", "remarkable", "terrible", "wonderful", "excellent", "poor", "good", "bad"]

  /** The characters of `\w`, restricted to ASCII. */
  predicate IsWordChar(c: char) {
    ('a' <= c <= 'z') || ('A' <= c <= 'Z') || ('0' <= c <= '9') || c == '_'
  }

  predicate WordAt(s: string, i: int) {
    0 <= i < |s| && IsWordChar(s[i])
  }

  /** `\b` holds before index `i`. */
  predicate Boundary(s: string, i: int) {
    WordAt(s, i - 1) != WordAt(s, i)
  }

  predicate IsMarker(w: string) {
    |w| > 0 && forall k :: 0 <= k < |w| ==> IsWordChar(w[k])
  }

  predicate Markers(words: seq<string>) {
    forall k :: 0 <= k < |words| ==> IsMarker(words[k])
  }

  lemma FirstPersonWellFormed()
    ensures Markers(FirstPerson)
  {
  }

  lemma ModalVerbsWellFormed()
    ensures Markers(ModalVerbs)
  {
  }

  lemma EvaluativesWellFormed()
    ensures Markers(Evaluatives)
  {
    forall k | 0 <= k < |Evaluatives| ensures IsMarker(Evaluatives[k]) {
    }
  }

  lemma MarkerListsWellFormed()
    ensures Markers(FirstPerson) && Markers(ModalVerbs) && Markers(Evaluatives)
  {
    FirstPersonWellFormed();
    ModalVerbsWellFormed();
    EvaluativesWellFormed();
  }

  /** The alternative `w` matches at `i` and is followed by `\b`. */
  predicate FitsAt(s: string, i: nat, w: string) {
    i + |w| <= |s| && Lower(s[i..i + |w|]) == Lower(w) && Boundary(s, i + |w|)
  }

  /** The first alternative, in pattern order, that matches at `i`. */
  function MatchAt(s: string, i: nat, words: seq<string>): (m: Option<string>)
    ensures m.Some? ==> m.value in words && FitsAt(s, i, m.value)
    ensures m.None? ==> forall k :: 0 <= k < |words| ==> !FitsAt(s, i, words[k])
  {
    if words == [] then None
    else if FitsAt(s, i, words[0]) then Some(words[0])
    else MatchAt(s, i, words[1..])
  }

  /** The match `findall` tries at `i`: `\b`, then the first alternative that fits. */
  function Step(s: string, i: nat, words: seq<string>): (m: Option<string>)
    requires Markers(words)
    ensures m.Some? ==> 0 < |m.value| && i + |m.value| <= |s|
  {
    if Boundary(s, i) then MatchAt(s, i, words) else None
  }

  /** The length of the match at `i`, 0 for none. */
  function MatchLen(s: string, i: nat, words: seq<string>): (n: nat)
    requires Markers(words)
    ensures i + n <= |s| || n == 0
  {
    match Step(s, i, words)
    case Some(w) => |w|
    case None => 0
  }

  /** The match length at every index of `s`. */
  function MatchLengths(s: string, words: seq<string>): (ms: seq<nat>)
    requires Markers(words)
    ensures |ms| == |s|
  {
    seq(|s|, k requires 0 <= k < |s| => MatchLen(s, k, words))
  }

  /** Every match that starts in `ms` ends inside it. */
  predicate Contained(ms: seq<nat>) {
    forall k :: 0 <= k < |ms| ==> k + ms[k] <= |ms|
  }

  /**
   * The number of matches of a left-to-right scan from `i` that resumes
   * where each match ends, as `findall` does.
   */
  function Scan(ms: seq<nat>, i: nat): nat
    decreases |ms| - i
  {
    if i >= |ms| then 0
    else if ms[i] > 0 then 1 + Scan(ms, i + ms[i])
    else Scan(ms, i + 1)
  }

  /** The number of matches `findall` reports from index `i` on. */
  function CountFrom(s: string, i: nat, words: seq<string>): nat
    requires Markers(words)
  {
    Scan(MatchLengths(s, words), i)
  }

  /** The scan reports nothing from `i` on exactly when no match starts at `i` or later. */
  lemma {:induction false} ScanZero(ms: seq<nat>, i: nat)
    ensures Scan(ms, i) == 0 <==> forall k :: i <= k < |ms| ==> ms[k] == 0
    decreases |ms| - i
  {
    if i < |ms| && ms[i] == 0 {
      ScanZero(ms, i + 1);
    }
  }

  /** Matches are non-empty, so there are at most as many as characters left. */
  lemma {:induction false} ScanBound(ms: seq<nat>, i: nat)
    requires i <= |ms|
    ensures Scan(ms, i) <= |ms| - i
    decreases |ms| - i
  {
    if i < |ms| {
      if ms[i] == 0 {
        ScanBound(ms, i + 1);
      } else if i + ms[i] <= |ms| {
        ScanBound(ms, i + ms[i]);
      }
    }
  }

  /** `findall` finds nothing from `i` on exactly when no alternative matches at any later index. */
  lemma CountFromZero(s: string, i: nat, words: seq<string>)
    requires Markers(words)
    ensures CountFrom(s, i, words) == 0 <==> forall k :: i <= k < |s| ==> MatchLen(s, k, words) == 0
  {
    var ms := MatchLengths(s, words);
    assert forall k :: 0 <= k < |s| ==> ms[k] == MatchLen(s, k, words);
    ScanZero(ms, i);
  }

  /** `findall` finds at most one match per character from `i` on. */
  lemma CountFromBound(s: string, i: nat, words: seq<string>)
    requires Markers(words) && i <= |s|
    ensures CountFrom(s, i, words) <= |s| - i
  {
    ScanBound(MatchLengths(s, words), i);
  }

  /** The score of `subjectivity_hint`: the hits of all three lists. */
  function Hits(text: string): (n: nat)
    ensures n <= 3 * |text|
  {
    MarkerListsWellFormed();
    CountFromBound(text, 0, FirstPerson);
    CountFromBound(text, 0, ModalVerbs);
    CountFromBound(text, 0, Evaluatives);
    CountFrom(text, 0, FirstPerson) + CountFrom(text, 0, ModalVerbs) + CountFrom(text, 0, Evaluatives)
  }

  /** No alternative of the three lists matches at any index of `text`. */
  predicate NoMarkers(text: string) {
    MarkerListsWellFormed();
    forall k :: 0 <= k < |text| ==>
      MatchLen(text, k, FirstPerson) == 0 && MatchLen(text, k, ModalVerbs) == 0 && MatchLen(text, k, Evaluatives) == 0
  }

  function Bucket(score: nat): (h: Hint)
    ensures h == Low <==> score == 0
    ensures h == Medium <==> 1 <= score <= 2
    ensures h == High <==> score >= 3
  {
    if score == 0 then Low else if score <= 2 then Medium else High
  }

  function Rank(h: Hint): nat {
    match h
    case Low => 0
    case Medium => 1
    case High => 2
  }

  /** More markers never give a lower bucket. */
  lemma BucketMonotone(m: nat, n: nat)
    requires m <= n
    ensures Rank(Bucket(m)) <= Rank(Bucket(n))
  {
  }

  /** `subjectivity_hint`. */
  function SubjectivityHint(text: string): (h: Hint)
    ensures h == Low <==> NoMarkers(text)
    ensures h == Medium <==> 1 <= Hits(text) <= 2
    ensures h == High <==> Hits(text) >= 3
  {
    MarkerListsWellFormed();
    CountFromZero(text, 0, FirstPerson);
    CountFromZero(text, 0, ModalVerbs);
    CountFromZero(text, 0, Evaluatives);
    Bucket(Hits(text))
  }

  // ---------------------------------------------------------------------
  // Counting across a separator: `a + [c] + b` with `c` not a word character

  lemma LowerCharWord(c: char)
    ensures IsWordChar(LowerChar(c)) == IsWordChar(c)
  {
  }

  lemma BoundaryLeft(s: string, a: string, c: char, b: string, k: nat)
    requires s == a + [c] + b && !IsWordChar(c) && k <= |a|
    ensures Boundary(s, k) == Boundary(a, k)
  {
  }

  lemma NoFitAcross(s: string, a: string, c: char, b: string, i: nat, w: string)
    requires s == a + [c] + b && !IsWordChar(c) && i <= |a| && IsMarker(w)
    requires i + |w| > |a|
    ensures !FitsAt(s, i, w)
  {
    if FitsAt(s, i, w) {
      var d := |a| - i;
      assert s[i..i + |w|][d] == c;
      assert Lower(s[i..i + |w|])[d] == LowerChar(c);
      assert Lower(w)[d] == LowerChar(w[d]);
      LowerCharWord(c);
      LowerCharWord(w[d]);
      assert false;
    }
  }

  lemma FitsLeft(s: string, a: string, c: char, b: string, i: nat, w: string)
    requires s == a + [c] + b && !IsWordChar(c) && i <= |a| && IsMarker(w)
    ensures FitsAt(s, i, w) == FitsAt(a, i, w)
  {
    if i + |w| <= |a| {
      assert s[i..i + |w|] == a[i..i + |w|];
      BoundaryLeft(s, a, c, b, i + |w|);
    } else {
      NoFitAcross(s, a, c, b, i, w);
    }
  }

  lemma {:induction false} MatchLeft(s: string, a: string, c: char, b: string, i: nat, words: seq<string>)
    requires s == a + [c] + b && !IsWordChar(c) && i <= |a| && Markers(words)
    ensures MatchAt(s, i, words) == MatchAt(a, i, words)
  {
    if words != [] {
      FitsLeft(s, a, c, b, i, words[0]);
      MatchLeft(s, a, c, b, i, words[1..]);
    }
  }

  lemma StepLeft(s: string, a: string, c: char, b: string, i: nat, words: seq<string>)
    requires s == a + [c] + b && !IsWordChar(c) && i < |a| && Markers(words)
    ensures Step(s, i, words) == Step(a, i, words)
  {
    BoundaryLeft(s, a, c, b, i);
    MatchLeft(s, a, c, b, i, words);
  }

  lemma NothingAtSeparator(s: string, a: string, c: char, b: string, words: seq<string>)
    requires s == a + [c] + b && !IsWordChar(c) && Markers(words)
    ensures Step(s, |a|, words) == None
  {
    forall k | 0 <= k < |words| ensures !FitsAt(s, |a|, words[k]) {
      NoFitAcross(s, a, c, b, |a|, words[k]);
    }
  }

  // The right-hand side: the scan of `s` from `off` on is the scan of `s[off..]`
  // when `s[off - 1]` is not a word character.

  predicate CleanCut(s: string, off: nat) {
    0 < off <= |s| && !IsWordChar(s[off - 1])
  }

  lemma BoundaryRight(s: string, off: nat, j: nat)
    requires CleanCut(s, off) && off + j <= |s|
    ensures Boundary(s, off + j) == Boundary(s[off..], j)
  {
  }

  lemma FitsRight(s: string, off: nat, j: nat, w: string)
    requires CleanCut(s, off) && off + j <= |s|
    ensures FitsAt(s, off + j, w) == FitsAt(s[off..], j, w)
  {
    if off + j + |w| <= |s| {
      assert s[off + j..off + j + |w|] == s[off..][j..j + |w|];
      BoundaryRight(s, off, j + |w|);
    }
  }

  lemma {:induction false} MatchRight(s: string, off: nat, j: nat, words: seq<string>)
    requires CleanCut(s, off) && off + j <= |s|
    ensures MatchAt(s, off + j, words) == MatchAt(s[off..], j, words)
  {
    if words != [] {
      FitsRight(s, off, j, words[0]);
      MatchRight(s, off, j, words[1..]);
    }
  }

  lemma StepRight(s: string, off: nat, j: nat, words: seq<string>)
    requires CleanCut(s, off) && off + j <= |s| && Markers(words)
    ensures Step(s, off + j, words) == Step(s[off..], j, words)
  {
    BoundaryRight(s, off, j);
    MatchRight(s, off, j, words);
  }

  lemma MatchLenLeft(a: string, c: char, b: string, k: nat, words: seq<string>)
    requires !IsWordChar(c) && Markers(words) && k < |a|
    ensures MatchLen(a + [c] + b, k, words) == MatchLen(a, k, words)
  {
    StepLeft(a + [c] + b, a, c, b, k, words);
  }

  lemma MatchLenRight(a: string, c: char, b: string, j: nat, words: seq<string>)
    requires !IsWordChar(c) && Markers(words) && j < |b|
    ensures MatchLen(a + [c] + b, |a| + 1 + j, words) == MatchLen(b, j, words)
  {
    var s := a + [c] + b;
    assert CleanCut(s, |a| + 1) && s[|a| + 1..] == b;
    StepRight(s, |a| + 1, j, words);
  }

  /** The match lengths of `a + [c] + b` are those of `a`, none at `c`, then those of `b`. */
  lemma MatchLengthsSplit(a: string, c: char, b: string, words: seq<string>)
    requires !IsWordChar(c) && Markers(words)
    ensures MatchLengths(a + [c] + b, words) == MatchLengths(a, words) + [0] + MatchLengths(b, words)
  {
    var s := a + [c] + b;
    var left, right := MatchLengths(a, words), MatchLengths(b, words);
    var ms, joined := MatchLengths(s, words), left + [0] + right;
    assert |ms| == |joined|;
    forall k | 0 <= k < |s| ensures ms[k] == joined[k] {
      assert ms[k] == MatchLen(s, k, words);
      if k < |a| {
        MatchLenLeft(a, c, b, k, words);
        assert joined[k] == left[k] == MatchLen(a, k, words);
      } else if k == |a| {
        NothingAtSeparator(s, a, c, b, words);
        assert joined[k] == 0;
      } else {
        MatchLenRight(a, c, b, k - |a| - 1, words);
        assert joined[k] == right[k - |a| - 1] == MatchLen(b, k - |a| - 1, words);
      }
    }
  }

  lemma MatchLengthsContained(s: string, words: seq<string>)
    requires Markers(words)
    ensures Contained(MatchLengths(s, words))
  {
  }

  /** A scan of `left + right` runs through `left` on its own when no match leaves `left`. */
  lemma {:induction false} ScanLeft(left: seq<nat>, right: seq<nat>, i: nat)
    requires Contained(left) && i <= |left|
    ensures Scan(left + right, i) == Scan(left, i) + Scan(left + right, |left|)
    decreases |left| - i
  {
    if i < |left| {
      assert (left + right)[i] == left[i];
      if left[i] > 0 {
        ScanLeft(left, right, i + left[i]);
      } else {
        ScanLeft(left, right, i + 1);
      }
    }
  }

  /** Past `left`, a scan of `left + right` is a scan of `right`. */
  lemma {:induction false} ScanRight(left: seq<nat>, right: seq<nat>, j: nat)
    ensures Scan(left + right, |left| + j) == Scan(right, j)
    decreases |right| - j
  {
    if j < |right| {
      assert (left + right)[|left| + j] == right[j];
      if right[j] > 0 {
        ScanRight(left, right, j + right[j]);
      } else {
        ScanRight(left, right, j + 1);
      }
    }
  }

  /** A scan across a position with no match adds up the scans on either side. */
  lemma ScanSplit(left: seq<nat>, right: seq<nat>)
    requires Contained(left)
    ensures Scan(left + [0] + right, 0) == Scan(left, 0) + Scan(right, 0)
  {
    assert left + [0] + right == left + ([0] + right);
    ScanLeft(left, [0] + right, 0);
    assert (left + ([0] + right))[|left|] == 0;
    assert left + ([0] + right) == (left + [0]) + right;
    ScanRight(left + [0], right, 0);
  }

  lemma CountAcrossSeparator(a: string, c: char, b: string, words: seq<string>)
    requires !IsWordChar(c) && Markers(words)
    ensures CountFrom(a + [c] + b, 0, words) == CountFrom(a, 0, words) + CountFrom(b, 0, words)
  {
    MatchLengthsSplit(a, c, b, words);
    MatchLengthsContained(a, words);
    ScanSplit(MatchLengths(a, words), MatchLengths(b, words));
  }

  /** The markers in `title + " " + summary` are those of the title plus those of the summary. */
  lemma HitsOfJoinedText(title: string, summary: string)
    ensures Hits(title + " " + summary) == Hits(title) + Hits(summary)
  {
    MarkerListsWellFormed();
    assert title + " " + summary == title + [' '] + summary;
    CountAcrossSeparator(title, ' ', summary, FirstPerson);
    CountAcrossSeparator(title, ' ', summary, ModalVerbs);
    CountAcrossSeparator(title, ' ', summary, Evaluatives);
  }

  /** Appending more text never lowers the subjectivity bucket. */
  lemma AppendingTextNeverLowersHint(a: string, b: string)
    ensures Rank(SubjectivityHint(a)) <= Rank(SubjectivityHint(a + " " + b))
  {
    HitsOfJoinedText(a, b);
    BucketMonotone(Hits(a), Hits(a) + Hits(b));
  }

  // ---------------------------------------------------------------------
  // compute_bias

  /** `compute_bias(url, title, summary)`. */
  function ComputeBias(url: string, title: string, summary: string, sentiment: string -> real): (b: Bias)
    ensures b.articleType == Opinion <==> exists i :: OpinionAt(url, i)
    ensures b.subjectivity == Bucket(Hits(title) + Hits(summary))
    ensures b.sentiment == sentiment(Strip(title + " " + summary))
  {
    HitsOfJoinedText(title, summary);
    Bias(DetectArticleType(url), sentiment(Strip(title + " " + summary)), SubjectivityHint(title + " " + summary))
  }
}
