// The simpler variant in cbc-news-scraper-ui/scraper/main.py: no force
// flag, and a feed that cannot be fetched parses to no entries instead of
// raising. Its entry loop does what the one in scraper/main.py does but
// calls its own `fetch_content`, so it runs Scraper's entry loop over this
// variant's own `Env`. Its `deduplicate` key lacks the other's `or ""`;
// the title is always a string, so the key is the same and Scraper's
// `Deduplicate` models it. The sort and the cap are shared too.

module UiScraper {
  import opened Wrappers
  import opened Ordering
  import opened Feed
  import Scraper

  /** `should_run_now(config)` with the current hour supplied. */
  function ShouldRunNow(hour: int, allowedHours: seq<int>): (run: bool)
    ensures run <==> exists i :: 0 <= i < |allowedHours| && allowedHours[i] == hour
  {
    var allowed := set h | h in allowedHours;
    hour in allowed
  }

  /** This gate is the other variant's gate without `--force`. */
  lemma ShouldRunNowWithoutForce(hour: int, allowedHours: seq<int>)
    ensures ShouldRunNow(hour, allowedHours) == Scraper.ShouldRunNow(false, hour, allowedHours)
  {
  }

  /**
   * What `scrape_section` returns: the feed parser does not raise on a
   * failed fetch but yields no entries.
   */
  function SectionItems(sec: SectionConfig, cfg: Config, now: Clock, env: Env): seq<Record> {
    Scraper.SectionResult(Entries(env, sec.url), sec, cfg, now, env)
  }

  /** The entries a feed yields, none when it cannot be fetched or parsed. */
  function Entries(env: Env, url: string): seq<Entry> {
    match env.fetchFeed(url) case None => [] case Some(es) => es
  }

  /**
   * `other` is the environment of the scraper/main.py variant: everything
   * but the two fetches is shared, and its `fetch_content` returns what
   * this variant's returns.
   */
  ghost predicate SameArticles(env: Env, other: Env) {
    && other == env.(fetchFeed := other.fetchFeed, fetchArticle := other.fetchArticle)
    && (forall u :: other.fetchArticle(u) == env.fetchArticle(u))
  }

  /** The two variants build the same record from an entry when their article fetches agree. */
  lemma EntryRecordAgrees(e: Entry, sec: SectionConfig, cfg: Config, now: Clock, env: Env, other: Env)
    requires SameArticles(env, other)
    ensures Scraper.EntryRecord(e, sec, cfg, now, env) == Scraper.EntryRecord(e, sec, cfg, now, other)
  {
    assert Scraper.AutoSummary(e, cfg, env) == Scraper.AutoSummary(e, cfg, other);
  }

  /**
   * A section yields here what it contributes in the other variant when
   * the two feed fetches give the same entries (none where the other
   * variant's fetch raises) and the article fetches agree.
   */
  lemma SectionItemsAgree(sec: SectionConfig, cfg: Config, now: Clock, env: Env, other: Env)
    requires SameArticles(env, other) && Entries(env, sec.url) == Entries(other, sec.url)
    ensures SectionItems(sec, cfg, now, env) == Scraper.SectionContribution(sec, cfg, now, other)
  {
    var entries := Entries(env, sec.url);
    forall k | 0 <= k < |entries|
      ensures Scraper.RecordOf(sec, cfg, now, env)(entries[k]) == Scraper.RecordOf(sec, cfg, now, other)(entries[k])
    {
      EntryRecordAgrees(entries[k], sec, cfg, now, env, other);
    }
    Scraper.FilterMapAgree(entries, Scraper.RecordOf(sec, cfg, now, env), Scraper.RecordOf(sec, cfg, now, other));
    if other.fetchFeed(sec.url).None? {
      assert Scraper.Emitted([], sec, cfg, now, other) == [];
      assert SortDesc<Record>([], PublishedAt) == [];
    }
  }

  /** `scrape_section(name, config, now, allow_extract)`. */
  method ScrapeSection(sec: SectionConfig, cfg: Config, now: Clock, env: Env) returns (items: seq<Record>)
    ensures items == SectionItems(sec, cfg, now, env)
  {
    var feed := env.fetchFeed(sec.url);
    var entries := if feed.Some? then feed.value else [];
    items := Scraper.ProcessFeed(entries, sec, cfg, now, env);
  }

  function ItemsOf(cfg: Config, now: Clock, env: Env): SectionConfig -> seq<Record> {
    sec => SectionItems(sec, cfg, now, env)
  }

  /** `all_items` after the loop over the sections. */
  function Collected(sections: seq<SectionConfig>, cfg: Config, now: Clock, env: Env): seq<Record> {
    Scraper.FlatMap(sections, ItemsOf(cfg, now, env))
  }

  /** Both variants collect the same records from sections whose fetches give the same responses. */
  lemma {:induction false} CollectedAgree(sections: seq<SectionConfig>, cfg: Config, now: Clock, env: Env, other: Env)
    requires SameArticles(env, other)
    requires forall k :: 0 <= k < |sections| ==> Entries(env, sections[k].url) == Entries(other, sections[k].url)
    ensures Collected(sections, cfg, now, env) == Scraper.Collected(sections, cfg, now, other)
    decreases |sections|
  {
    if sections != [] {
      var n := |sections| - 1;
      var init, last := sections[..n], sections[n];
      assert forall k :: 0 <= k < n ==> init[k] == sections[k];
      CollectedAgree(init, cfg, now, env, other);
      SectionItemsAgree(last, cfg, now, env, other);
      assert Collected(sections, cfg, now, env) == Collected(init, cfg, now, env) + ItemsOf(cfg, now, env)(last);
      assert Scraper.Collected(sections, cfg, now, other)
          == Scraper.Collected(init, cfg, now, other) + Scraper.ContributionOf(cfg, now, other)(last);
    }
  }

  /** The document `main` writes, or `None` outside the allowed hours. */
  function Output(cfg: Config, hour: int, now: Clock, env: Env): Option<Snapshot> {
    if !ShouldRunNow(hour, cfg.allowedHours) then None
    else
      var all := SortDesc(Collected(cfg.sections, cfg, now, env), PublishedAt);
      Some(Snapshot(SourceName, now.iso, TimezoneOf(cfg), Scraper.Dedup(all)))
  }

  /**
   * This variant writes the document the other variant writes without
   * `--force`, when every configured section's feed gives both the same
   * entries and the article fetches agree.
   */
  lemma OutputAgrees(cfg: Config, hour: int, now: Clock, env: Env, other: Env)
    requires SameArticles(env, other)
    requires forall k :: 0 <= k < |cfg.sections| ==> Entries(env, cfg.sections[k].url) == Entries(other, cfg.sections[k].url)
    ensures Output(cfg, hour, now, env) == Scraper.Output(cfg, false, hour, now, other)
  {
    CollectedAgree(cfg.sections, cfg, now, env, other);
  }

  /**
   * The written items are sorted newest first, have pairwise distinct keys,
   * and each is the newest collected record of its key.
   */
  lemma OutputNewestPerKey(cfg: Config, hour: int, now: Clock, env: Env)
    requires Output(cfg, hour, now, env).Some?
    ensures var items := Output(cfg, hour, now, env).value.items;
      var all := Collected(cfg.sections, cfg, now, env);
      && SortedDesc(items, PublishedAt)
      && Scraper.DistinctKeys(items)
      && (forall x, y :: x in items && y in all && KeyOf(x) == KeyOf(y) ==> StrAtLeast(x.publishedAt, y.publishedAt))
  {
    assert SameArticles(env, env);
    OutputAgrees(cfg, hour, now, env, env);
    CollectedAgree(cfg.sections, cfg, now, env, env);
    Scraper.OutputNewestPerKey(cfg, false, hour, now, env);
  }

  /** The section loop of `main()`: `all_items` once every section is scraped. */
  method CollectSections(cfg: Config, now: Clock, env: Env) returns (allItems: seq<Record>)
    ensures allItems == Collected(cfg.sections, cfg, now, env)
  {
    allItems := [];
    var i := 0;
    while i < |cfg.sections|
      invariant 0 <= i <= |cfg.sections|
      invariant allItems == Collected(cfg.sections[..i], cfg, now, env)
    {
      assert cfg.sections[..i + 1][..i] == cfg.sections[..i];
      var items := ScrapeSection(cfg.sections[i], cfg, now, env);
      allItems := allItems + items;
      i := i + 1;
    }
    assert cfg.sections[..|cfg.sections|] == cfg.sections;
  }

  /** `main()` of cbc-news-scraper-ui/scraper/main.py. */
  method Run(cfg: Config, hour: int, now: Clock, env: Env) returns (out: Option<Snapshot>)
    ensures out == Output(cfg, hour, now, env)
  {
    if !ShouldRunNow(hour, cfg.allowedHours) {
      return None;
    }
    var allItems := CollectSections(cfg, now, env);
    allItems := SortDesc(allItems, PublishedAt);
    var deduped := Scraper.Deduplicate(allItems);
    out := Some(Snapshot(SourceName, now.iso, TimezoneOf(cfg), deduped));
  }
}
