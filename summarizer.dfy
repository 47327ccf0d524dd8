/**
 * The extractive summariser of `utils.summarize`: tags are replaced by
 * spaces, entities are decoded, the text is split into sentences, and
 * whole sentences are packed greedily under a character budget, with a
 * hard truncation when none fits.
 *
 * Entity decoding (`html.unescape`) and sentence splitting
 * (`nltk.sent_tokenize`) are foreign code; they are parameters here.
 */
module Summarizer {
  import opened Text

  /** The `max_chars` every caller of the scraper passes. */
  const MaxChars: int := 500

  // ---------------------------------------------------------------------
  // Tag stripping: `re.sub(r"<[^>]+>", " ", text)`

  /**
   * The pattern `<[^>]+>` matches at `i`: a `<`, at least one character
   * other than `>`, and a later `>`.
   */
  predicate TagAt(s: string, i: nat) {
    i + 1 < |s| && s[i] == '<' && s[i + 1] != '>' && '>' in s[i + 2..]
  }

  predicate NoTag(s: string) {
    forall i :: 0 <= i < |s| ==> !TagAt(s, i)
  }

  function IndexOf(s: string, c: char): (k: nat)
    requires c in s
    ensures k < |s| && s[k] == c && c !in s[..k]
  {
    if s[0] == c then 0
    else
      var k := 1 + IndexOf(s[1..], c);
      assert s[..k] == [s[0]] + s[1..][..k - 1];
      k
  }

  /**
   * Left-to-right replacement of every match of `<[^>]+>` by one space;
   * a match ends at the first `>` after its `<`.
   */
  function StripTags(s: string): (r: string)
    ensures |r| <= |s|
    decreases |s|
  {
    if s == [] then []
    else if TagAt(s, 0) then
      var close := 2 + IndexOf(s[2..], '>');
      " " + StripTags(s[close + 1..])
    else [s[0]] + StripTags(s[1..])
  }

  lemma TagAtShift(c: char, t: string, i: nat)
    ensures TagAt([c] + t, i + 1) <==> TagAt(t, i)
  {
    if i + 1 < |t| {
      assert ([c] + t)[i + 3..] == t[i + 2..];
    }
  }

  lemma NoTagCons(c: char, t: string)
    requires NoTag(t) && !TagAt([c] + t, 0)
    ensures NoTag([c] + t)
  {
    forall i | 1 <= i < |t| + 1 ensures !TagAt([c] + t, i) {
      TagAtShift(c, t, i - 1);
    }
  }

  lemma {:induction false} NoGtSurvives(s: string)
    requires '>' !in s
    ensures '>' !in StripTags(s)
    decreases |s|
  {
    if s != [] {
      assert !TagAt(s, 0);
      assert '>' !in s[1..];
      NoGtSurvives(s[1..]);
    }
  }

  /** A character kept by `StripTags` does not start a tag in the output. */
  lemma KeptStep(s: string)
    requires s != [] && !TagAt(s, 0) && NoTag(StripTags(s[1..]))
    ensures NoTag(StripTags(s))
  {
    var rest := StripTags(s[1..]);
    assert StripTags(s) == [s[0]] + rest;
    if s[0] == '<' && |s| >= 2 {
      if s[1] == '>' {
        assert !TagAt(s[1..], 0);
        assert rest == [s[1]] + StripTags(s[2..]);
      } else {
        assert '>' !in s[2..];
        assert s[1..] == [s[1]] + s[2..];
        NoGtSurvives(s[1..]);
        assert '>' !in rest;
        assert ([s[0]] + rest)[2..] == rest[1..];
      }
    }
    NoTagCons(s[0], rest);
  }

  /** A tag becomes one space, which starts no tag. */
  lemma TagStep(s: string)
    requires TagAt(s, 0) && NoTag(StripTags(s[2 + IndexOf(s[2..], '>') + 1..]))
    ensures NoTag(StripTags(s))
  {
    var rest := StripTags(s[2 + IndexOf(s[2..], '>') + 1..]);
    assert StripTags(s) == [' '] + rest;
    NoTagCons(' ', rest);
  }

  /** After stripping, no `<`...`>` run that the pattern would match is left. */
  lemma {:induction false} StripTagsLeavesNoTag(s: string)
    ensures NoTag(StripTags(s))
    decreases |s|
  {
    if s == [] {
    } else if TagAt(s, 0) {
      StripTagsLeavesNoTag(s[2 + IndexOf(s[2..], '>') + 1..]);
      TagStep(s);
    } else {
      StripTagsLeavesNoTag(s[1..]);
      KeptStep(s);
    }
  }

  lemma NoTagTail(s: string)
    requires s != [] && NoTag(s)
    ensures NoTag(s[1..])
  {
    forall i | 0 <= i < |s| - 1 ensures !TagAt(s[1..], i) {
      assert s == [s[0]] + s[1..];
      TagAtShift(s[0], s[1..], i);
    }
  }

  /** Text without tags passes through unchanged. */
  lemma {:induction false} StripTagsNoTagIdentity(s: string)
    requires NoTag(s)
    ensures StripTags(s) == s
    decreases |s|
  {
    if s != [] {
      assert !TagAt(s, 0);
      NoTagTail(s);
      StripTagsNoTagIdentity(s[1..]);
      assert StripTags(s) == [s[0]] + StripTags(s[1..]);
      assert s == [s[0]] + s[1..];
    }
  }

  lemma StripTagsIdempotent(s: string)
    ensures StripTags(StripTags(s)) == StripTags(s)
  {
    StripTagsLeavesNoTag(s);
    StripTagsNoTagIdentity(StripTags(s));
  }

  // ---------------------------------------------------------------------
  // Greedy sentence packing

  /** Each sentence as the loop of `summarize` sees it: stripped. */
  function Stripped(sentences: seq<string>): (r: seq<string>)
    ensures |r| == |sentences|
    ensures forall k :: 0 <= k < |r| ==> r[k] == Strip(sentences[k])
  {
    seq(|sentences|, k requires 0 <= k < |sentences| => Strip(sentences[k]))
  }

  /** The non-empty parts from index `i` on, in order. */
  function NonBlankFrom(parts: seq<string>, i: nat): (r: seq<string>)
    ensures forall k :: 0 <= k < |r| ==> r[k] != []
    decreases |parts| - i
  {
    if i >= |parts| then []
    else (if parts[i] == [] then [] else [parts[i]]) + NonBlankFrom(parts, i + 1)
  }

  lemma {:induction false} NonBlankFromStripped(parts: seq<string>, i: nat)
    requires forall j :: 0 <= j < |parts| ==> IsStripped(parts[j])
    ensures forall k :: 0 <= k < |NonBlankFrom(parts, i)| ==> IsStripped(NonBlankFrom(parts, i)[k])
    decreases |parts| - i
  {
    if i < |parts| {
      NonBlankFromStripped(parts, i + 1);
    }
  }

  lemma {:induction false} NonBlankFromKeeps(parts: seq<string>, i: nat)
    ensures forall j :: i <= j < |parts| && parts[j] != [] ==> parts[j] in NonBlankFrom(parts, i)
    decreases |parts| - i
  {
    if i < |parts| {
      NonBlankFromKeeps(parts, i + 1);
    }
  }

  /** The sentences the loop of `summarize` keeps or rejects: stripped, non-empty, in order. */
  function NonBlank(sentences: seq<string>): (r: seq<string>)
    ensures forall k :: 0 <= k < |r| ==> r[k] != [] && IsStripped(r[k])
  {
    NonBlankFromStripped(Stripped(sentences), 0);
    NonBlankFrom(Stripped(sentences), 0)
  }

  /** No non-blank sentence is lost: each one, stripped, is among those the loop considers. */
  lemma NonBlankKeeps(sentences: seq<string>)
    ensures forall k :: 0 <= k < |sentences| && Strip(sentences[k]) != [] ==> Strip(sentences[k]) in NonBlank(sentences)
  {
    NonBlankFromKeeps(Stripped(sentences), 0);
  }

  /** Characters charged for `parts`: each part and one separator. */
  function Cost(parts: seq<string>): nat {
    if parts == [] then 0 else |parts[0]| + 1 + Cost(parts[1..])
  }

  lemma CostCons(s: string, rest: seq<string>)
    ensures Cost([s] + rest) == |s| + 1 + Cost(rest)
  {
    assert ([s] + rest)[1..] == rest;
  }

  /**
   * The parts the loop of `summarize` appends from part `i` on, when
   * `total` characters are already charged: empty parts are skipped
   * without cost, and the first part that does not fit ends the loop.
   */
  function PackFrom(parts: seq<string>, i: nat, total: int, maxChars: int): seq<string>
    decreases |parts| - i
  {
    if i >= |parts| then []
    else
      var s := parts[i];
      if s == [] then PackFrom(parts, i + 1, total, maxChars)
      else if total + |s| + 1 > maxChars then []
      else [s] + PackFrom(parts, i + 1, total + |s| + 1, maxChars)
  }

  /** The parts kept from all sentences under a budget of `maxChars`. */
  function Pack(sentences: seq<string>, maxChars: int): seq<string> {
    PackFrom(Stripped(sentences), 0, 0, maxChars)
  }

  lemma NonBlankSkip(parts: seq<string>, i: nat)
    requires i < |parts| && parts[i] == []
    ensures NonBlankFrom(parts, i) == NonBlankFrom(parts, i + 1)
  {
    assert [] + NonBlankFrom(parts, i + 1) == NonBlankFrom(parts, i + 1);
  }

  /** What the loop of `summarize` does with part `i`. */
  lemma PackStep(parts: seq<string>, i: nat, total: int, maxChars: int)
    requires i < |parts|
    ensures parts[i] == [] ==> PackFrom(parts, i, total, maxChars) == PackFrom(parts, i + 1, total, maxChars)
    ensures parts[i] != [] && total + |parts[i]| + 1 > maxChars ==> PackFrom(parts, i, total, maxChars) == []
    ensures parts[i] != [] && total + |parts[i]| + 1 <= maxChars ==>
      PackFrom(parts, i, total, maxChars) == [parts[i]] + PackFrom(parts, i + 1, total + |parts[i]| + 1, maxChars)
  {
  }

  lemma PrefixCons(s: string, p: seq<string>, ne: seq<string>)
    requires |p| <= |ne| && p == ne[..|p|]
    ensures [s] + p == ([s] + ne)[..|p| + 1]
  {
  }

  lemma {:induction false} PackIsPrefix(parts: seq<string>, i: nat, total: int, maxChars: int)
    ensures |PackFrom(parts, i, total, maxChars)| <= |NonBlankFrom(parts, i)|
    ensures PackFrom(parts, i, total, maxChars)
         == NonBlankFrom(parts, i)[..|PackFrom(parts, i, total, maxChars)|]
    decreases |parts| - i
  {
    if i < |parts| {
      var s := parts[i];
      if s == [] {
        NonBlankSkip(parts, i);
        PackIsPrefix(parts, i + 1, total, maxChars);
      } else if total + |s| + 1 <= maxChars {
        var p' := PackFrom(parts, i + 1, total + |s| + 1, maxChars);
        var ne' := NonBlankFrom(parts, i + 1);
        PackIsPrefix(parts, i + 1, total + |s| + 1, maxChars);
        assert NonBlankFrom(parts, i) == [s] + ne';
        PrefixCons(s, p', ne');
      }
    }
  }

  lemma {:induction false} PackFits(parts: seq<string>, i: nat, total: int, maxChars: int)
    ensures var p := PackFrom(parts, i, total, maxChars);
      p == [] || total + Cost(p) <= maxChars
    decreases |parts| - i
  {
    if i < |parts| {
      var s := parts[i];
      if s == [] {
        PackFits(parts, i + 1, total, maxChars);
      } else if total + |s| + 1 <= maxChars {
        PackFits(parts, i + 1, total + |s| + 1, maxChars);
        CostCons(s, PackFrom(parts, i + 1, total + |s| + 1, maxChars));
      }
    }
  }

  lemma {:induction false} PackMaximal(parts: seq<string>, i: nat, total: int, maxChars: int)
    ensures var p, ne := PackFrom(parts, i, total, maxChars), NonBlankFrom(parts, i);
      |p| < |ne| ==> total + Cost(ne[..|p| + 1]) > maxChars
    decreases |parts| - i
  {
    if i < |parts| {
      var s := parts[i];
      var ne' := NonBlankFrom(parts, i + 1);
      if s == [] {
        NonBlankSkip(parts, i);
        PackMaximal(parts, i + 1, total, maxChars);
      } else if total + |s| + 1 > maxChars {
        assert NonBlankFrom(parts, i)[..1] == [s];
        CostCons(s, []);
      } else {
        var p' := PackFrom(parts, i + 1, total + |s| + 1, maxChars);
        PackMaximal(parts, i + 1, total + |s| + 1, maxChars);
        if |p'| < |ne'| {
          assert ([s] + ne')[..|p'| + 2] == [s] + ne'[..|p'| + 1];
          CostCons(s, ne'[..|p'| + 1]);
        }
      }
    }
  }

  /**
   * The packed parts are the longest prefix of the non-blank stripped
   * sentences whose total cost stays within `maxChars`.
   */
  lemma PackIsLongestFittingPrefix(sentences: seq<string>, maxChars: int)
    ensures |Pack(sentences, maxChars)| <= |NonBlank(sentences)|
    ensures Pack(sentences, maxChars) == NonBlank(sentences)[..|Pack(sentences, maxChars)|]
    ensures Pack(sentences, maxChars) == [] || Cost(Pack(sentences, maxChars)) <= maxChars
    ensures |Pack(sentences, maxChars)| < |NonBlank(sentences)| ==>
      Cost(NonBlank(sentences)[..|Pack(sentences, maxChars)| + 1]) > maxChars
  {
    PackIsPrefix(Stripped(sentences), 0, 0, maxChars);
    PackFits(Stripped(sentences), 0, 0, maxChars);
    PackMaximal(Stripped(sentences), 0, 0, maxChars);
  }

  /**
   * A first non-blank sentence of at least `maxChars` characters is never
   * kept: the separator is charged too, so a sentence of exactly
   * `max_chars` characters does not fit.
   */
  lemma FirstSentenceTooLong(sentences: seq<string>, maxChars: int)
    requires NonBlank(sentences) != [] && |NonBlank(sentences)[0]| >= maxChars
    ensures Pack(sentences, maxChars) == []
  {
    PackIsLongestFittingPrefix(sentences, maxChars);
  }

  // ---------------------------------------------------------------------
  // Joining

  lemma {:induction false} JoinSpaceLength(parts: seq<string>)
    requires parts != []
    ensures |JoinSpace(parts)| == Cost(parts) - 1
  {
    if |parts| > 1 {
      JoinSpaceLength(parts[1..]);
    }
  }

  lemma {:induction false} JoinSpaceStripped(parts: seq<string>)
    requires parts != []
    requires forall k :: 0 <= k < |parts| ==> parts[k] != [] && IsStripped(parts[k])
    ensures JoinSpace(parts) != []
    ensures JoinSpace(parts)[0] == parts[0][0]
    ensures JoinSpace(parts)[|JoinSpace(parts)| - 1] == parts[|parts| - 1][|parts[|parts| - 1]| - 1]
    ensures IsStripped(JoinSpace(parts))
  {
    if |parts| > 1 {
      JoinSpaceStripped(parts[1..]);
    }
  }

  // ---------------------------------------------------------------------
  // The whole summariser

  /** The text the sentences are taken from: tags replaced, entities decoded. */
  function Cleaned(text: string, unescape: string -> string): string {
    unescape(StripTags(text))
  }

  /** The value `summarize(text, max_chars)` returns. */
  function Summary(text: string, maxChars: int, unescape: string -> string,
                   tokenize: string -> seq<string>): string
  {
    if text == [] then []
    else
      var cleaned := Cleaned(text, unescape);
      var parts := Pack(tokenize(cleaned), maxChars);
      var summary := if parts != [] then JoinSpace(parts) else Strip(PyPrefix(cleaned, maxChars));
      Strip(PyPrefix(summary, maxChars))
  }

  /** For a non-negative budget the summary fits and carries no surrounding whitespace. */
  lemma SummaryBounded(text: string, maxChars: int, unescape: string -> string,
                       tokenize: string -> seq<string>)
    requires maxChars >= 0
    ensures |Summary(text, maxChars, unescape, tokenize)| <= maxChars
    ensures IsStripped(Summary(text, maxChars, unescape, tokenize))
  {
  }

  /**
   * When some sentence fits, the summary is exactly the kept sentences
   * joined by single spaces, one character shorter than their cost, and
   * the final slice removes nothing.
   */
  lemma SummaryOfPackedSentences(text: string, maxChars: int, unescape: string -> string,
                                 tokenize: string -> seq<string>)
    requires text != []
    requires Pack(tokenize(Cleaned(text, unescape)), maxChars) != []
    ensures var parts := Pack(tokenize(Cleaned(text, unescape)), maxChars);
      Summary(text, maxChars, unescape, tokenize) == JoinSpace(parts)
      && |JoinSpace(parts)| == Cost(parts) - 1 < maxChars
  {
    var parts := Pack(tokenize(Cleaned(text, unescape)), maxChars);
    PackIsLongestFittingPrefix(tokenize(Cleaned(text, unescape)), maxChars);
    JoinSpaceLength(parts);
    JoinSpaceStripped(parts);
    PyPrefixWhole(JoinSpace(parts), maxChars);
    StripStripped(JoinSpace(parts));
  }

  /** When no sentence fits, the summary is the truncated cleaned text, stripped. */
  lemma SummaryFallback(text: string, maxChars: int, unescape: string -> string,
                        tokenize: string -> seq<string>)
    requires text != [] && maxChars >= 0
    requires Pack(tokenize(Cleaned(text, unescape)), maxChars) == []
    ensures Summary(text, maxChars, unescape, tokenize)
         == Strip(PyPrefix(Cleaned(text, unescape), maxChars))
  {
    var t := Strip(PyPrefix(Cleaned(text, unescape), maxChars));
    PyPrefixWhole(t, maxChars);
    StripIdempotent(PyPrefix(Cleaned(text, unescape), maxChars));
  }

  lemma {:induction false} CostOfPrefix(parts: seq<string>, n: nat)
    requires n <= |parts|
    ensures Cost(parts[..n]) <= Cost(parts)
  {
    if n > 0 {
      assert parts[..n][1..] == parts[1..][..n - 1];
      CostOfPrefix(parts[1..], n - 1);
    }
  }

  /** When all non-blank sentences fit together, all of them are kept. */
  lemma PackAllWhenAllFit(sentences: seq<string>, maxChars: int)
    requires Cost(NonBlank(sentences)) <= maxChars
    ensures Pack(sentences, maxChars) == NonBlank(sentences)
  {
    var ne := NonBlank(sentences);
    PackIsLongestFittingPrefix(sentences, maxChars);
    var n := |Pack(sentences, maxChars)|;
    if n < |ne| {
      CostOfPrefix(ne, n + 1);
    }
    assert ne[..|ne|] == ne;
  }

  /**
   * Round trip: when the sentences, stripped and joined by single spaces,
   * give back the stripped cleaned text and that text is shorter than
   * `maxChars`, the summary is that text.
   */
  lemma SummaryOfShortText(text: string, maxChars: int, unescape: string -> string,
                           tokenize: string -> seq<string>)
    requires text != []
    requires var cleaned := Cleaned(text, unescape);
      NonBlank(tokenize(cleaned)) != [] && JoinSpace(NonBlank(tokenize(cleaned))) == Strip(cleaned)
    requires |Strip(Cleaned(text, unescape))| < maxChars
    ensures Summary(text, maxChars, unescape, tokenize) == Strip(Cleaned(text, unescape))
  {
    var ne := NonBlank(tokenize(Cleaned(text, unescape)));
    JoinSpaceLength(ne);
    PackAllWhenAllFit(tokenize(Cleaned(text, unescape)), maxChars);
    SummaryOfPackedSentences(text, maxChars, unescape, tokenize);
  }

  /** Round trip when the tokenizer finds no sentence: the summary is the stripped cleaned text. */
  lemma SummaryOfShortUnsplitText(text: string, maxChars: int, unescape: string -> string,
                                  tokenize: string -> seq<string>)
    requires text != [] && NonBlank(tokenize(Cleaned(text, unescape))) == []
    requires |Cleaned(text, unescape)| <= maxChars
    ensures Summary(text, maxChars, unescape, tokenize) == Strip(Cleaned(text, unescape))
  {
    PackIsLongestFittingPrefix(tokenize(Cleaned(text, unescape)), maxChars);
    SummaryFallback(text, maxChars, unescape, tokenize);
    PyPrefixWhole(Cleaned(text, unescape), maxChars);
  }

  /**
   * The round trip needs the text strictly shorter than `maxChars`: for
   * "A. B." with a budget of 5 characters and the sentences "A." and "B.",
   * the second sentence does not fit and the summary is "A.".
   */
  lemma SummaryAtBudgetDropsSentence()
    ensures Summary("A. B.", 5, s => s, s => ["A.", "B."]) == "A."
  {
    var tokenize: string -> seq<string> := s => ["A.", "B."];
    var unescape: string -> string := s => s;
    assert StripTags("A. B.") == "A. B.";
    var sentences := tokenize(Cleaned("A. B.", unescape));
    assert sentences == ["A.", "B."];
    assert Strip("A.") == "A." by { StripStripped("A."); }
    assert Strip("B.") == "B." by { StripStripped("B."); }
    assert Stripped(sentences) == sentences;
    assert PackFrom(sentences, 1, 3, 5) == [];
    assert Pack(sentences, 5) == ["A."];
    assert Summary("A. B.", 5, unescape, tokenize) == Strip(PyPrefix("A.", 5));
    StripStripped("A.");
  }

  lemma {:induction false} CostAppend(a: seq<string>, b: seq<string>)
    ensures Cost(a + b) == Cost(a) + Cost(b)
    decreases |a|
  {
    if a == [] {
      assert a + b == b;
    } else {
      assert (a + b)[0] == a[0] && (a + b)[1..] == a[1..] + b;
      CostAppend(a[1..], b);
    }
  }

  /**
   * When two or more non-blank sentences join back to exactly `maxChars`
   * characters, their cost is one more than the budget: every sentence but
   * the last is kept, and the last is dropped.
   */
  lemma PackAtBudgetDropsLast(sentences: seq<string>, maxChars: int)
    requires |NonBlank(sentences)| >= 2 && |JoinSpace(NonBlank(sentences))| == maxChars
    ensures Pack(sentences, maxChars) == NonBlank(sentences)[..|NonBlank(sentences)| - 1]
  {
    var ne := NonBlank(sentences);
    var n := |ne|;
    var init := ne[..n - 1];
    JoinSpaceLength(ne);
    assert ne == init + [ne[n - 1]];
    CostAppend(init, [ne[n - 1]]);
    assert Cost([ne[n - 1]]) == |ne[n - 1]| + 1;
    PackIsLongestFittingPrefix(sentences, maxChars);
    var p := |Pack(sentences, maxChars)|;
    assert ne[..n] == ne;
    if p < n - 1 {
      assert init[..p + 1] == ne[..p + 1];
      CostOfPrefix(init, p + 1);
    }
  }

  /**
   * The round trip fails at the budget: when the text is exactly
   * `maxChars` long and its two or more sentences join back to it, the
   * summary is the join of all but the last sentence.
   */
  lemma SummaryAtBudgetDropsLast(text: string, maxChars: int, unescape: string -> string,
                                 tokenize: string -> seq<string>)
    requires text != []
    requires var cleaned := Cleaned(text, unescape);
      |NonBlank(tokenize(cleaned))| >= 2 && JoinSpace(NonBlank(tokenize(cleaned))) == Strip(cleaned)
    requires |Strip(Cleaned(text, unescape))| == maxChars
    ensures var ne := NonBlank(tokenize(Cleaned(text, unescape)));
      Summary(text, maxChars, unescape, tokenize) == JoinSpace(ne[..|ne| - 1])
  {
    var sentences := tokenize(Cleaned(text, unescape));
    PackAtBudgetDropsLast(sentences, maxChars);
    SummaryOfPackedSentences(text, maxChars, unescape, tokenize);
  }

  lemma AppendPart(parts: seq<string>, s: string, rest: seq<string>)
    ensures parts + ([s] + rest) == (parts + [s]) + rest
  {
  }

  /** The greedy packing loop of `summarize`, with its early exit. */
  method PackSentences(sentences: seq<string>, maxChars: int) returns (parts: seq<string>)
    ensures parts == Pack(sentences, maxChars)
  {
    ghost var stripped := Stripped(sentences);
    ghost var goal := Pack(sentences, maxChars);
    ghost var pending := goal;
    parts := [];
    var total: int := 0;
    var i := 0;
    while i < |sentences|
      invariant 0 <= i <= |sentences|
      invariant pending == PackFrom(stripped, i, total, maxChars)
      invariant parts + pending == goal
    {
      var sentence := Strip(sentences[i]);
      assert sentence == stripped[i];
      PackStep(stripped, i, total, maxChars);
      if sentence == [] {
        i := i + 1;
        continue;
      }
      if total + |sentence| + 1 > maxChars {
        break;
      }
      pending := PackFrom(stripped, i + 1, total + |sentence| + 1, maxChars);
      AppendPart(parts, sentence, pending);
      parts := parts + [sentence];
      total := total + |sentence| + 1;
      i := i + 1;
    }
    assert pending == [];
  }

  /** `summarize`: clean, split, pack, then join or fall back, and cut. */
  method Summarize(text: string, maxChars: int, unescape: string -> string,
                   tokenize: string -> seq<string>) returns (summary: string)
    ensures summary == Summary(text, maxChars, unescape, tokenize)
    ensures text == [] ==> summary == []
    ensures maxChars >= 0 ==> |summary| <= maxChars
    ensures IsStripped(summary)
  {
    if text == [] {
      return [];
    }
    var cleaned := unescape(StripTags(text));
    var sentences := tokenize(cleaned);
    var parts := PackSentences(sentences, maxChars);
    if maxChars >= 0 {
      SummaryBounded(text, maxChars, unescape, tokenize);
    }
    if parts != [] {
      summary := JoinSpace(parts);
    } else {
      summary := Strip(PyPrefix(cleaned, maxChars));
    }
    summary := Strip(PyPrefix(summary, maxChars));
  }
}
