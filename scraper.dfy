// The scraper's orchestration in scraper/main.py: the time gate, the
// per-section entry loop with its filters, sort and cap, the
// de-duplication and the aggregation in `main`.

module Scraper {
  import opened Wrappers
  import opened Text
  import opened Summarizer
  import opened BiasHeuristic
  import opened Ordering
  import opened Feed

  // ---------------------------------------------------------------------
  // should_run_now

  /** `should_run_now(config, force)` with the current hour supplied. */
  function ShouldRunNow(force: bool, hour: int, allowedHours: seq<int>): (run: bool)
    ensures force ==> run
    ensures !force ==> (run <==> exists i :: 0 <= i < |allowedHours| && allowedHours[i] == hour)
  {
    if force then true
    else
      var allowed := set h | h in allowedHours;
      hour in allowed
  }

  // ---------------------------------------------------------------------
  // Picking the date field

  /** The fields tried for the publication date, in priority order. */
  const DateKeys: seq<string> := ["published", "updated", "pubDate", "date"]

  /** The value of the first key of `keys` that `e` has at all. */
  function FirstPresent(e: Entry, keys: seq<string>): (r: Option<string>)
    ensures r.None? <==> forall k :: 0 <= k < |keys| ==> keys[k] !in e
  {
    if keys == [] then None
    else if keys[0] in e then Some(e[keys[0]])
    else FirstPresent(e, keys[1..])
  }

  /**
   * The value taken is the one under the first present key, whatever it
   * holds: later keys are not consulted even when it is empty.
   */
  lemma {:induction false} FirstPresentIsFirst(e: Entry, keys: seq<string>, i: nat)
    requires i < |keys| && keys[i] in e
    requires forall j :: 0 <= j < i ==> keys[j] !in e
    ensures FirstPresent(e, keys) == Some(e[keys[i]])
    decreases i
  {
    if i > 0 {
      assert keys[0] !in e;
      FirstPresentIsFirst(e, keys[1..], i - 1);
    }
  }

  /** The inner `for key in [...]` loop of `scrape_section`. */
  method PickDateField(e: Entry) returns (pub: Option<string>)
    ensures pub == FirstPresent(e, DateKeys)
  {
    pub := None;
    var i := 0;
    while i < |DateKeys|
      invariant 0 <= i <= |DateKeys|
      invariant FirstPresent(e, DateKeys) == FirstPresent(e, DateKeys[i..])
    {
      var key := DateKeys[i];
      if key in e {
        pub := Some(e[key]);
        break;
      }
      assert DateKeys[i..][1..] == DateKeys[i + 1..];
      i := i + 1;
    }
  }

  // ---------------------------------------------------------------------
  // One entry

  /** `entry.get("summary") or entry.get("description") or ""`. */
  function RawSummary(e: Entry): (r: string)
    ensures Truthy(Get(e, "summary")) ==> r == e["summary"]
    ensures !Truthy(Get(e, "summary")) && Truthy(Get(e, "description")) ==> r == e["description"]
    ensures r == [] <==> !Truthy(Get(e, "summary")) && !Truthy(Get(e, "description"))
  {
    OrElse(Get(e, "summary"), OrElse(Get(e, "description"), ""))
  }

  /** `html.unescape(entry.get("title", "")).strip()`. */
  function TitleOf(e: Entry, env: Env): (t: string)
    ensures IsStripped(t)
    ensures "title" !in e ==> t == Strip(env.unescape(""))
    ensures |t| <= |env.unescape(if "title" in e then e["title"] else "")|
  {
    Strip(env.unescape(if "title" in e then e["title"] else ""))
  }

  /** Full-article extraction is tried only for an empty summary, when allowed, with a link. */
  predicate WantsExtraction(summary: string, allowExtract: bool, link: Option<string>) {
    summary == [] && allowExtract && Truthy(link)
  }

  /** `summary_auto`: the feed's own summary, or one of the fetched article. */
  function AutoSummary(e: Entry, cfg: Config, env: Env): string {
    var first := Summary(RawSummary(e), MaxChars, env.unescape, env.sentTokenize);
    var link := Get(e, "link");
    if WantsExtraction(first, cfg.allowExtract, link) then
      var html := env.fetchArticle(link.value);
      if Truthy(html) then Summary(html.value, MaxChars, env.unescape, env.sentTokenize) else first
    else first
  }

  /** The record one entry yields, or `None` when one of the `continue`s skips it. */
  function EntryRecord(e: Entry, sec: SectionConfig, cfg: Config, now: Clock, env: Env): Option<Record> {
    var pubStr := FirstPresent(e, DateKeys);
    if !Truthy(pubStr) then None
    else
      var publishedAt := env.parseDate(pubStr.value, TimezoneOf(cfg));
      if !Truthy(publishedAt) then None
      else if env.instantOf(publishedAt.value) < WindowStart(cfg, now) then None
      else
        var link := Get(e, "link");
        var title := TitleOf(e, env);
        var summary := AutoSummary(e, cfg, env);
        var bias := ComputeBias(OrElse(link, ""), title, summary, env.sentiment);
        Some(Record(env.stableId(OrElse(link, title)), link, title, publishedAt.value, sec.name, summary, bias))
  }

  /**
   * An entry is kept exactly when its first present date field is
   * non-empty, parses to a non-empty date, and that date is not before the
   * start of the window (an entry exactly at the start is kept).
   */
  lemma EntryKept(e: Entry, sec: SectionConfig, cfg: Config, now: Clock, env: Env)
    ensures EntryRecord(e, sec, cfg, now, env).Some?
        <==> (var pubStr := FirstPresent(e, DateKeys);
              Truthy(pubStr)
              && Truthy(env.parseDate(pubStr.value, TimezoneOf(cfg)))
              && env.instantOf(env.parseDate(pubStr.value, TimezoneOf(cfg)).value) >= WindowStart(cfg, now))
  {
  }

  /** What every emitted record carries. */
  lemma EntryRecordFields(e: Entry, sec: SectionConfig, cfg: Config, now: Clock, env: Env)
    requires EntryRecord(e, sec, cfg, now, env).Some?
    ensures var r := EntryRecord(e, sec, cfg, now, env).value;
      && r.publishedAt != []
      && env.instantOf(r.publishedAt) >= WindowStart(cfg, now)
      && r.section == sec.name
      && r.url == Get(e, "link")
      && r.id == env.stableId(OrElse(r.url, r.title))
      && IsStripped(r.title)
      && |r.summary| <= MaxChars && IsStripped(r.summary)
      && (r.bias.articleType == Opinion <==> exists i :: OpinionAt(OrElse(r.url, ""), i))
  {
    var first := Summary(RawSummary(e), MaxChars, env.unescape, env.sentTokenize);
    SummaryProperties(RawSummary(e), env);
    var link := Get(e, "link");
    if WantsExtraction(first, cfg.allowExtract, link) {
      var html := env.fetchArticle(link.value);
      if Truthy(html) {
        SummaryProperties(html.value, env);
      }
    }
  }

  lemma SummaryProperties(text: string, env: Env)
    ensures var s := Summary(text, MaxChars, env.unescape, env.sentTokenize);
      |s| <= MaxChars && IsStripped(s)
  {
    SummaryBounded(text, MaxChars, env.unescape, env.sentTokenize);
  }

  /** An empty `published` field drops the entry even when `updated` has a value. */
  lemma EmptyFirstDateDrops(e: Entry, sec: SectionConfig, cfg: Config, now: Clock, env: Env)
    requires "published" in e && e["published"] == []
    ensures EntryRecord(e, sec, cfg, now, env) == None
  {
    FirstPresentIsFirst(e, DateKeys, 0);
  }

  /**
   * When extraction is not wanted, what `fetch_content` would return plays
   * no part in the record.
   */
  lemma ExtractionNotConsulted(e: Entry, sec: SectionConfig, cfg: Config, now: Clock, env: Env,
                               fetch: string -> Option<string>)
    requires !WantsExtraction(Summary(RawSummary(e), MaxChars, env.unescape, env.sentTokenize),
                              cfg.allowExtract, Get(e, "link"))
    ensures EntryRecord(e, sec, cfg, now, env) == EntryRecord(e, sec, cfg, now, env.(fetchArticle := fetch))
  {
    assert AutoSummary(e, cfg, env) == AutoSummary(e, cfg, env.(fetchArticle := fetch));
  }

  // ---------------------------------------------------------------------
  // scrape_section

  /** The results `f` gives for the elements of `s`, in order, skipping `None`. */
  function FilterMap<A, B>(s: seq<A>, f: A -> Option<B>): (r: seq<B>)
    ensures |r| <= |s|
  {
    if s == [] then []
    else FilterMap(s[..|s| - 1], f) + match f(s[|s| - 1]) case Some(y) => [y] case None => []
  }

  lemma FilterMapStep<A, B>(s: seq<A>, i: nat, f: A -> Option<B>)
    requires i < |s|
    ensures FilterMap(s[..i + 1], f) == FilterMap(s[..i], f) + match f(s[i]) case Some(y) => [y] case None => []
  {
    assert s[..i + 1][..i] == s[..i];
  }

  /** Two functions that agree on the elements of `s` keep and map the same ones. */
  lemma {:induction false} FilterMapAgree<A, B>(s: seq<A>, f: A -> Option<B>, g: A -> Option<B>)
    requires forall k :: 0 <= k < |s| ==> f(s[k]) == g(s[k])
    ensures FilterMap(s, f) == FilterMap(s, g)
    decreases |s|
  {
    if s != [] {
      var n := |s| - 1;
      assert forall k :: 0 <= k < n ==> s[..n][k] == s[k];
      FilterMapAgree(s[..n], f, g);
    }
  }

  lemma {:induction false} FilterMapFrom<A, B>(s: seq<A>, f: A -> Option<B>, y: B)
    requires y in FilterMap(s, f)
    ensures exists k :: 0 <= k < |s| && f(s[k]) == Some(y)
    decreases |s|
  {
    var n := |s| - 1;
    if f(s[n]) != Some(y) {
      FilterMapFrom(s[..n], f, y);
      var k :| 0 <= k < n && f(s[..n][k]) == Some(y);
      assert s[k] == s[..n][k];
    }
  }

  /** `EntryRecord` for a fixed section, configuration, clock and environment. */
  function RecordOf(sec: SectionConfig, cfg: Config, now: Clock, env: Env): Entry -> Option<Record> {
    e => EntryRecord(e, sec, cfg, now, env)
  }

  /** The records the entry loop appends, in entry order. */
  function Emitted(entries: seq<Entry>, sec: SectionConfig, cfg: Config, now: Clock, env: Env): seq<Record> {
    FilterMap(entries, RecordOf(sec, cfg, now, env))
  }

  /** Every emitted record comes from an entry of the feed. */
  lemma EmittedFromEntries(entries: seq<Entry>, sec: SectionConfig, cfg: Config, now: Clock, env: Env, r: Record)
    requires r in Emitted(entries, sec, cfg, now, env)
    ensures exists k :: 0 <= k < |entries| && EntryRecord(entries[k], sec, cfg, now, env) == Some(r)
  {
    var f := RecordOf(sec, cfg, now, env);
    FilterMapFrom(entries, f, r);
    var k :| 0 <= k < |entries| && f(entries[k]) == Some(r);
  }

  /** What `scrape_section` returns for the entries of a parsed feed. */
  function SectionResult(entries: seq<Entry>, sec: SectionConfig, cfg: Config, now: Clock, env: Env): seq<Record> {
    PyPrefix(SortDesc(Emitted(entries, sec, cfg, now, env), PublishedAt), sec.maxItems)
  }

  /**
   * The section result is sorted newest first by the `published_at` string,
   * holds at most `max_items` records, and is the whole sorted list when
   * the cap is not reached.
   */
  lemma SectionResultShape(entries: seq<Entry>, sec: SectionConfig, cfg: Config, now: Clock, env: Env)
    ensures var items := SectionResult(entries, sec, cfg, now, env);
      var sorted := SortDesc(Emitted(entries, sec, cfg, now, env), PublishedAt);
      && SortedDesc(items, PublishedAt)
      && items == sorted[..|items|]
      && (sec.maxItems >= 0 ==> |items| <= sec.maxItems)
      && (sec.maxItems >= |Emitted(entries, sec, cfg, now, env)| ==> items == sorted)
  {
    var sorted := SortDesc(Emitted(entries, sec, cfg, now, env), PublishedAt);
    SortDescSorted(Emitted(entries, sec, cfg, now, env), PublishedAt);
    SortDescPermutes(Emitted(entries, sec, cfg, now, env), PublishedAt);
    var items := SectionResult(entries, sec, cfg, now, env);
    SortedPrefix(sorted, |items|, PublishedAt);
    if sec.maxItems >= |sorted| {
      PyPrefixWhole(sorted, sec.maxItems);
    }
  }

  /** Every record of the section result is one an entry of the feed yields. */
  lemma SectionResultFromEntries(entries: seq<Entry>, sec: SectionConfig, cfg: Config, now: Clock, env: Env, r: Record)
    requires r in SectionResult(entries, sec, cfg, now, env)
    ensures exists k :: 0 <= k < |entries| && EntryRecord(entries[k], sec, cfg, now, env) == Some(r)
  {
    var emitted := Emitted(entries, sec, cfg, now, env);
    SortDescPermutes(emitted, PublishedAt);
    assert r in SortDesc(emitted, PublishedAt);
    assert r in multiset(SortDesc(emitted, PublishedAt));
    EmittedFromEntries(entries, sec, cfg, now, env, r);
  }

  /** `summary_auto`: summarise the feed's text, then the fetched article when that is wanted. */
  method SummarizeEntry(entry: Entry, cfg: Config, env: Env) returns (summaryAuto: string)
    ensures summaryAuto == AutoSummary(entry, cfg, env)
  {
    var urlEntry := Get(entry, "link");
    var summaryRaw := RawSummary(entry);
    summaryAuto := Summarize(summaryRaw, MaxChars, env.unescape, env.sentTokenize);
    if summaryAuto == [] && cfg.allowExtract && Truthy(urlEntry) {
      var extracted := env.fetchArticle(urlEntry.value);
      if Truthy(extracted) {
        summaryAuto := Summarize(extracted.value, MaxChars, env.unescape, env.sentTokenize);
      }
    }
  }

  /**
   * The body of the entry loop of `scrape_section`: `None` where the loop
   * `continue`s, otherwise the record it appends.
   */
  method ProcessEntry(entry: Entry, sec: SectionConfig, cfg: Config, now: Clock, env: Env)
    returns (rec: Option<Record>)
    ensures rec == EntryRecord(entry, sec, cfg, now, env)
  {
    var pubStr := PickDateField(entry);
    if !Truthy(pubStr) {
      return None;
    }
    var publishedAt := env.parseDate(pubStr.value, TimezoneOf(cfg));
    if !Truthy(publishedAt) {
      return None;
    }
    if env.instantOf(publishedAt.value) < WindowStart(cfg, now) {
      return None;
    }
    var urlEntry := Get(entry, "link");
    var title := Strip(env.unescape(if "title" in entry then entry["title"] else ""));
    var summaryAuto := SummarizeEntry(entry, cfg, env);
    var bias := ComputeBias(OrElse(urlEntry, ""), title, summaryAuto, env.sentiment);
    rec := Some(Record(env.stableId(OrElse(urlEntry, title)), urlEntry, title, publishedAt.value,
                       sec.name, summaryAuto, bias));
  }

  /** The entry loop of `scrape_section`: the records of the kept entries, in feed order. */
  method EmitRecords(entries: seq<Entry>, sec: SectionConfig, cfg: Config, now: Clock, env: Env)
    returns (items: seq<Record>)
    ensures items == Emitted(entries, sec, cfg, now, env)
  {
    items := [];
    var i := 0;
    while i < |entries|
      invariant 0 <= i <= |entries|
      invariant items == Emitted(entries[..i], sec, cfg, now, env)
    {
      var entry := entries[i];
      var rec := ProcessEntry(entry, sec, cfg, now, env);
      FilterMapStep(entries, i, RecordOf(sec, cfg, now, env));
      assert RecordOf(sec, cfg, now, env)(entry) == rec;
      if rec.None? {
        assert Emitted(entries[..i + 1], sec, cfg, now, env) == items + [];
        i := i + 1;
        continue;
      }
      assert Emitted(entries[..i + 1], sec, cfg, now, env) == items + [rec.value];
      items := items + [rec.value];
      i := i + 1;
    }
    assert entries[..|entries|] == entries;
  }

  /** The entry loop of `scrape_section`, then the sort and the cap. */
  method ProcessFeed(entries: seq<Entry>, sec: SectionConfig, cfg: Config, now: Clock, env: Env)
    returns (items: seq<Record>)
    ensures items == SectionResult(entries, sec, cfg, now, env)
  {
    items := EmitRecords(entries, sec, cfg, now, env);
    items := SortDesc(items, PublishedAt);
    items := PyPrefix(items, sec.maxItems);
  }

  /** What `scrape_section` returns, or `None` when fetching the feed raises. */
  function SectionItems(sec: SectionConfig, cfg: Config, now: Clock, env: Env): Option<seq<Record>> {
    match env.fetchFeed(sec.url)
    case None => None
    case Some(entries) => Some(SectionResult(entries, sec, cfg, now, env))
  }

  /** `scrape_section(name, config, now, allow_extract, session)`. */
  method ScrapeSection(sec: SectionConfig, cfg: Config, now: Clock, env: Env) returns (items: Option<seq<Record>>)
    ensures items == SectionItems(sec, cfg, now, env)
  {
    var feed := env.fetchFeed(sec.url);
    if feed.None? {
      return None;
    }
    var result := ProcessFeed(feed.value, sec, cfg, now, env);
    items := Some(result);
  }

  // ---------------------------------------------------------------------
  // deduplicate

  /** The records `deduplicate` keeps from `items` once the keys in `seen` are taken. */
  function DedupFrom(items: seq<Record>, seen: set<Key>): (r: seq<Record>)
    ensures |r| <= |items|
  {
    if items == [] then []
    else if KeyOf(items[0]) in seen then DedupFrom(items[1..], seen)
    else [items[0]] + DedupFrom(items[1..], seen + {KeyOf(items[0])})
  }

  function Dedup(items: seq<Record>): seq<Record> {
    DedupFrom(items, {})
  }

  /** `deduplicate(items)`. */
  method Deduplicate(items: seq<Record>) returns (deduped: seq<Record>)
    ensures deduped == Dedup(items)
  {
    var seen: set<Key> := {};
    deduped := [];
    var i := 0;
    while i < |items|
      invariant 0 <= i <= |items|
      invariant deduped + DedupFrom(items[i..], seen) == Dedup(items)
    {
      var item := items[i];
      var key := KeyOf(item);
      assert items[i..][1..] == items[i + 1..];
      i := i + 1;
      if key in seen {
        continue;
      }
      seen := seen + {key};
      deduped := deduped + [item];
    }
  }

  /** `a` is `b` with some elements left out, the rest in their order. */
  predicate IsSubsequence(a: seq<Record>, b: seq<Record>)
    decreases |b|
  {
    if a == [] then true
    else if b == [] then false
    else (a[0] == b[0] && IsSubsequence(a[1..], b[1..])) || IsSubsequence(a, b[1..])
  }

  lemma {:induction false} SubsequenceMembers(a: seq<Record>, b: seq<Record>, x: Record)
    requires IsSubsequence(a, b) && x in a
    ensures x in b
    decreases |b|
  {
    if a[0] == b[0] && IsSubsequence(a[1..], b[1..]) {
      if x != a[0] {
        SubsequenceMembers(a[1..], b[1..], x);
      }
    } else {
      SubsequenceMembers(a, b[1..], x);
    }
  }

  /** No two records share a key. */
  predicate DistinctKeys(items: seq<Record>) {
    forall i, j :: 0 <= i < j < |items| ==> KeyOf(items[i]) != KeyOf(items[j])
  }

  /** `r` occurs in `items` with no record of its key before it. */
  predicate FirstOfKey(items: seq<Record>, r: Record) {
    exists i :: 0 <= i < |items| && items[i] == r && forall j :: 0 <= j < i ==> KeyOf(items[j]) != KeyOf(r)
  }

  function KeysOf(items: seq<Record>): set<Key> {
    set r | r in items :: KeyOf(r)
  }

  lemma {:induction false} DedupFromSubsequence(items: seq<Record>, seen: set<Key>)
    ensures IsSubsequence(DedupFrom(items, seen), items)
    decreases |items|
  {
    if items != [] {
      var k := KeyOf(items[0]);
      if k in seen {
        DedupFromSubsequence(items[1..], seen);
        SubsequenceSkip(DedupFrom(items[1..], seen), items);
      } else {
        DedupFromSubsequence(items[1..], seen + {k});
      }
    }
  }

  lemma SubsequenceSkip(a: seq<Record>, b: seq<Record>)
    requires b != [] && IsSubsequence(a, b[1..])
    ensures IsSubsequence(a, b)
  {
  }

  /** The kept records have keys outside `seen`. */
  lemma {:induction false} DedupFromAvoidsSeen(items: seq<Record>, seen: set<Key>)
    ensures forall i :: 0 <= i < |DedupFrom(items, seen)| ==> KeyOf(DedupFrom(items, seen)[i]) !in seen
    decreases |items|
  {
    if items != [] {
      var k := KeyOf(items[0]);
      if k in seen {
        DedupFromAvoidsSeen(items[1..], seen);
      } else {
        DedupFromAvoidsSeen(items[1..], seen + {k});
      }
    }
  }

  /** The kept records have pairwise distinct keys. */
  lemma {:induction false} DedupFromDistinctKeys(items: seq<Record>, seen: set<Key>)
    ensures DistinctKeys(DedupFrom(items, seen))
    decreases |items|
  {
    if items != [] {
      var k := KeyOf(items[0]);
      if k in seen {
        DedupFromDistinctKeys(items[1..], seen);
      } else {
        var rest := DedupFrom(items[1..], seen + {k});
        DedupFromDistinctKeys(items[1..], seen + {k});
        DedupFromAvoidsSeen(items[1..], seen + {k});
        var d := [items[0]] + rest;
        forall i, j | 0 <= i < j < |d| ensures KeyOf(d[i]) != KeyOf(d[j]) {
          assert d[j] == rest[j - 1];
          if i > 0 {
            assert d[i] == rest[i - 1];
          }
        }
      }
    }
  }

  /** The kept records have every key of the input that is not in `seen`. */
  lemma {:induction false} DedupFromKeySet(items: seq<Record>, seen: set<Key>)
    ensures KeysOf(DedupFrom(items, seen)) == KeysOf(items) - seen
    decreases |items|
  {
    if items != [] {
      var k := KeyOf(items[0]);
      assert KeysOf(items) == {k} + KeysOf(items[1..]) by {
        assert forall r :: r in items <==> r == items[0] || r in items[1..];
      }
      if k in seen {
        DedupFromKeySet(items[1..], seen);
      } else {
        var rest := DedupFrom(items[1..], seen + {k});
        DedupFromKeySet(items[1..], seen + {k});
        assert KeysOf([items[0]] + rest) == {k} + KeysOf(rest) by {
          assert forall r :: r in [items[0]] + rest <==> r == items[0] || r in rest;
        }
      }
    }
  }

  lemma DedupFromKeys(items: seq<Record>, seen: set<Key>)
    ensures var d := DedupFrom(items, seen);
      && (forall i :: 0 <= i < |d| ==> KeyOf(d[i]) !in seen)
      && DistinctKeys(d)
      && KeysOf(d) == KeysOf(items) - seen
  {
    DedupFromAvoidsSeen(items, seen);
    DedupFromDistinctKeys(items, seen);
    DedupFromKeySet(items, seen);
  }

  /** Every kept record is the first of its key in the input. */
  lemma {:induction false} DedupFromKeepsFirst(items: seq<Record>, seen: set<Key>, r: Record)
    requires r in DedupFrom(items, seen)
    ensures FirstOfKey(items, r)
    decreases |items|
  {
    var k := KeyOf(items[0]);
    if r == items[0] && k !in seen {
      assert items[0] == r;
    } else {
      var seen' := if k in seen then seen else seen + {k};
      assert r in DedupFrom(items[1..], seen');
      DedupFromKeepsFirst(items[1..], seen', r);
      DedupFromKeys(items[1..], seen');
      var i :| 0 <= i < |items[1..]| && items[1..][i] == r
        && forall j :: 0 <= j < i ==> KeyOf(items[1..][j]) != KeyOf(r);
      assert KeyOf(r) != k by {
        assert r in DedupFrom(items[1..], seen');
        var p :| 0 <= p < |DedupFrom(items[1..], seen')| && DedupFrom(items[1..], seen')[p] == r;
      }
      assert items[i + 1] == r;
      forall j | 0 <= j < i + 1 ensures KeyOf(items[j]) != KeyOf(r) {
        if j > 0 {
          assert items[j] == items[1..][j - 1];
        }
      }
    }
  }

  /** The first record of each key not in `seen` is kept. */
  lemma {:induction false} DedupFromKeepsEveryFirst(items: seq<Record>, seen: set<Key>, i: nat)
    requires i < |items| && KeyOf(items[i]) !in seen
    requires forall j :: 0 <= j < i ==> KeyOf(items[j]) != KeyOf(items[i])
    ensures items[i] in DedupFrom(items, seen)
    decreases i
  {
    if i > 0 {
      var k := KeyOf(items[0]);
      var seen' := if k in seen then seen else seen + {k};
      forall j | 0 <= j < i - 1 ensures KeyOf(items[1..][j]) != KeyOf(items[1..][i - 1]) {
        assert items[1..][j] == items[j + 1];
      }
      DedupFromKeepsEveryFirst(items[1..], seen', i - 1);
    }
  }

  /** A record list with distinct keys, none in `seen`, passes through unchanged. */
  lemma {:induction false} DedupFromDistinct(items: seq<Record>, seen: set<Key>)
    requires DistinctKeys(items)
    requires forall i :: 0 <= i < |items| ==> KeyOf(items[i]) !in seen
    ensures DedupFrom(items, seen) == items
    decreases |items|
  {
    if items != [] {
      var k := KeyOf(items[0]);
      forall i | 0 <= i < |items[1..]| ensures KeyOf(items[1..][i]) !in seen + {k} {
        assert items[1..][i] == items[i + 1];
      }
      forall i, j | 0 <= i < j < |items[1..]| ensures KeyOf(items[1..][i]) != KeyOf(items[1..][j]) {
        assert items[1..][i] == items[i + 1] && items[1..][j] == items[j + 1];
      }
      DedupFromDistinct(items[1..], seen + {k});
    }
  }

  /**
   * `deduplicate` keeps an order-preserving selection of its input with
   * pairwise distinct keys and every key of the input; a record is kept
   * exactly when it is the first of its key.
   */
  lemma DedupSpec(items: seq<Record>)
    ensures var d := Dedup(items);
      && IsSubsequence(d, items)
      && DistinctKeys(d)
      && KeysOf(d) == KeysOf(items)
      && (forall r :: r in d ==> FirstOfKey(items, r))
      && (forall i :: 0 <= i < |items| && (forall j :: 0 <= j < i ==> KeyOf(items[j]) != KeyOf(items[i]))
                      ==> items[i] in d)
  {
    DedupFromSubsequence(items, {});
    DedupFromKeys(items, {});
    forall r | r in Dedup(items) ensures FirstOfKey(items, r) {
      DedupFromKeepsFirst(items, {}, r);
    }
    forall i | 0 <= i < |items| && (forall j :: 0 <= j < i ==> KeyOf(items[j]) != KeyOf(items[i]))
      ensures items[i] in Dedup(items)
    {
      DedupFromKeepsEveryFirst(items, {}, i);
    }
  }

  /** Applying `deduplicate` twice is applying it once. */
  lemma DedupIdempotent(items: seq<Record>)
    ensures Dedup(Dedup(items)) == Dedup(items)
  {
    DedupFromKeys(items, {});
    DedupFromDistinct(Dedup(items), {});
  }

  /** In a list sorted newest first, the record kept for a key is the newest of that key. */
  lemma DedupOfSortedKeepsNewest(items: seq<Record>, x: Record, y: Record)
    requires SortedDesc(items, PublishedAt)
    requires x in Dedup(items) && y in items && KeyOf(x) == KeyOf(y)
    ensures StrAtLeast(x.publishedAt, y.publishedAt)
  {
    DedupFromKeepsFirst(items, {}, x);
    var i :| 0 <= i < |items| && items[i] == x && forall j :: 0 <= j < i ==> KeyOf(items[j]) != KeyOf(x);
    var j :| 0 <= j < |items| && items[j] == y;
    if j == i {
      StrLessIrreflexive(x.publishedAt);
    } else {
      assert i < j;
    }
  }

  lemma {:induction false} SubsequenceSorted(a: seq<Record>, b: seq<Record>)
    requires IsSubsequence(a, b) && SortedDesc(b, PublishedAt)
    ensures SortedDesc(a, PublishedAt)
    decreases |b|
  {
    if a != [] {
      assert SortedDesc(b[1..], PublishedAt) by {
        forall i, j | 0 <= i < j < |b[1..]| ensures StrAtLeast(b[1..][i].publishedAt, b[1..][j].publishedAt) {
          assert b[1..][i] == b[i + 1] && b[1..][j] == b[j + 1];
        }
      }
      if a[0] == b[0] && IsSubsequence(a[1..], b[1..]) {
        SubsequenceSorted(a[1..], b[1..]);
        forall j | 0 < j < |a| ensures StrAtLeast(a[0].publishedAt, a[j].publishedAt) {
          assert a[j] in a[1..];
          SubsequenceMembers(a[1..], b[1..], a[j]);
          var k :| 0 <= k < |b[1..]| && b[1..][k] == a[j];
          assert b[k + 1] == a[j];
        }
      } else {
        SubsequenceSorted(a, b[1..]);
      }
    }
  }

  // ---------------------------------------------------------------------
  // main

  function SectionContribution(sec: SectionConfig, cfg: Config, now: Clock, env: Env): seq<Record> {
    match SectionItems(sec, cfg, now, env)
    case None => []
    case Some(items) => items
  }

  /** The concatenation of what `f` gives for the elements of `s`, in order. */
  function FlatMap<A, B>(s: seq<A>, f: A -> seq<B>): seq<B> {
    if s == [] then [] else FlatMap(s[..|s| - 1], f) + f(s[|s| - 1])
  }

  lemma {:induction false} FlatMapAppend<A, B>(a: seq<A>, b: seq<A>, f: A -> seq<B>)
    ensures FlatMap(a + b, f) == FlatMap(a, f) + FlatMap(b, f)
    decreases |b|
  {
    if b == [] {
      assert a + b == a;
    } else {
      var n := |b| - 1;
      assert (a + b)[..|a + b| - 1] == a + b[..n];
      FlatMapAppend(a, b[..n], f);
    }
  }

  lemma {:induction false} FlatMapFrom<A, B>(s: seq<A>, f: A -> seq<B>, y: B)
    requires y in FlatMap(s, f)
    ensures exists k :: 0 <= k < |s| && y in f(s[k])
    decreases |s|
  {
    var n := |s| - 1;
    if y !in f(s[n]) {
      FlatMapFrom(s[..n], f, y);
      var k :| 0 <= k < n && y in f(s[..n][k]);
      assert s[k] == s[..n][k];
    }
  }

  function ContributionOf(cfg: Config, now: Clock, env: Env): SectionConfig -> seq<Record> {
    sec => SectionContribution(sec, cfg, now, env)
  }

  /** `all_items` after the loop over the sections. */
  function Collected(sections: seq<SectionConfig>, cfg: Config, now: Clock, env: Env): seq<Record> {
    FlatMap(sections, ContributionOf(cfg, now, env))
  }

  /** A section whose fetch raises adds nothing, and the other sections are still merged. */
  lemma FailedSectionContributesNothing(before: seq<SectionConfig>, sec: SectionConfig, after: seq<SectionConfig>,
                                        cfg: Config, now: Clock, env: Env)
    requires SectionItems(sec, cfg, now, env).None?
    ensures Collected(before + [sec] + after, cfg, now, env) == Collected(before + after, cfg, now, env)
  {
    var f := ContributionOf(cfg, now, env);
    assert FlatMap([sec], f) == [] by {
      assert [sec][..0] == [];
      assert f(sec) == SectionContribution(sec, cfg, now, env) == [];
    }
    FlatMapAppend(before + [sec], after, f);
    FlatMapAppend(before, [sec], f);
    FlatMapAppend(before, after, f);
  }

  /** The document `main` writes, or `None` when the time gate says not to run. */
  function Output(cfg: Config, force: bool, hour: int, now: Clock, env: Env): Option<Snapshot> {
    if !ShouldRunNow(force, hour, cfg.allowedHours) then None
    else
      var all := SortDesc(Collected(cfg.sections, cfg, now, env), PublishedAt);
      Some(Snapshot(SourceName, now.iso, TimezoneOf(cfg), Dedup(all)))
  }

  lemma SortDescKeys(all: seq<Record>)
    ensures KeysOf(SortDesc(all, PublishedAt)) == KeysOf(all)
  {
    var sorted := SortDesc(all, PublishedAt);
    SortDescPermutes(all, PublishedAt);
    assert forall r :: r in sorted <==> r in multiset(sorted);
    assert forall r :: r in all <==> r in multiset(all);
  }

  /**
   * The written items are sorted newest first, have pairwise distinct keys,
   * and each is at least as new as every collected record of its key.
   */
  lemma OutputNewestPerKey(cfg: Config, force: bool, hour: int, now: Clock, env: Env)
    requires Output(cfg, force, hour, now, env).Some?
    ensures var items := Output(cfg, force, hour, now, env).value.items;
      var all := Collected(cfg.sections, cfg, now, env);
      && SortedDesc(items, PublishedAt)
      && DistinctKeys(items)
      && KeysOf(items) == KeysOf(all)
      && (forall x, y :: x in items && y in all && KeyOf(x) == KeyOf(y) ==> StrAtLeast(x.publishedAt, y.publishedAt))
  {
    var all := Collected(cfg.sections, cfg, now, env);
    var sorted := SortDesc(all, PublishedAt);
    SortDescSorted(all, PublishedAt);
    SortDescPermutes(all, PublishedAt);
    DedupSpec(sorted);
    SubsequenceSorted(Dedup(sorted), sorted);
    SortDescKeys(all);
    forall x, y | x in Dedup(sorted) && y in all && KeyOf(x) == KeyOf(y)
      ensures StrAtLeast(x.publishedAt, y.publishedAt)
    {
      assert y in multiset(sorted);
      DedupOfSortedKeepsNewest(sorted, x, y);
    }
  }

  /** Every written item comes from a section whose feed was fetched. */
  lemma CollectedFromSections(sections: seq<SectionConfig>, cfg: Config, now: Clock, env: Env, r: Record)
    requires r in Collected(sections, cfg, now, env)
    ensures exists k :: 0 <= k < |sections| && SectionItems(sections[k], cfg, now, env).Some?
                        && r in SectionItems(sections[k], cfg, now, env).value
  {
    var f := ContributionOf(cfg, now, env);
    FlatMapFrom(sections, f, r);
    var k :| 0 <= k < |sections| && r in f(sections[k]);
  }

  /**
   * Every written item was built from an entry of its section's feed: its
   * date is non-empty, not before the window start, and its section is
   * the configured name of a section.
   */
  lemma OutputItemsFromEntries(cfg: Config, force: bool, hour: int, now: Clock, env: Env, r: Record)
    requires Output(cfg, force, hour, now, env).Some? && r in Output(cfg, force, hour, now, env).value.items
    ensures r.publishedAt != []
    ensures env.instantOf(r.publishedAt) >= WindowStart(cfg, now)
    ensures exists k :: 0 <= k < |cfg.sections| && r.section == cfg.sections[k].name
  {
    var all := Collected(cfg.sections, cfg, now, env);
    var sorted := SortDesc(all, PublishedAt);
    DedupFromSubsequence(sorted, {});
    SubsequenceMembers(Dedup(sorted), sorted, r);
    SortDescPermutes(all, PublishedAt);
    assert r in multiset(sorted);
    CollectedFromSections(cfg.sections, cfg, now, env, r);
    var k :| 0 <= k < |cfg.sections| && SectionItems(cfg.sections[k], cfg, now, env).Some?
             && r in SectionItems(cfg.sections[k], cfg, now, env).value;
    var sec := cfg.sections[k];
    var entries := env.fetchFeed(sec.url).value;
    SectionResultFromEntries(entries, sec, cfg, now, env, r);
    var m :| 0 <= m < |entries| && EntryRecord(entries[m], sec, cfg, now, env) == Some(r);
    EntryRecordFields(entries[m], sec, cfg, now, env);
  }

  /** The second `main` of scraper/main.py, from the time gate to the document it writes. */
  method Run(cfg: Config, force: bool, hour: int, now: Clock, env: Env) returns (out: Option<Snapshot>)
    ensures out == Output(cfg, force, hour, now, env)
  {
    if !ShouldRunNow(force, hour, cfg.allowedHours) {
      return None;
    }
    var allItems: seq<Record> := [];
    var i := 0;
    while i < |cfg.sections|
      invariant 0 <= i <= |cfg.sections|
      invariant allItems == Collected(cfg.sections[..i], cfg, now, env)
    {
      assert cfg.sections[..i + 1][..i] == cfg.sections[..i];
      var items := ScrapeSection(cfg.sections[i], cfg, now, env);
      if items.Some? {
        allItems := allItems + items.value;
      }
      i := i + 1;
    }
    assert cfg.sections[..|cfg.sections|] == cfg.sections;
    allItems := SortDesc(allItems, PublishedAt);
    var deduped := Deduplicate(allItems);
    out := Some(Snapshot(SourceName, now.iso, TimezoneOf(cfg), deduped));
  }
}
