// The values the scraper works on: feed entries, the records it builds,
// its configuration, and the foreign code it calls.

module Feed {
  import opened Wrappers
  import opened Text
  import opened BiasHeuristic

  /** A parsed RSS entry: its fields by name, as the feed parser gives them. */
  type Entry = map<string, string>

  /** `entry.get(k)`. */
  function Get(e: Entry, k: string): (r: Option<string>)
    ensures r.Some? <==> k in e
    ensures r.Some? ==> r.value == e[k]
  {
    if k in e then Some(e[k]) else None
  }

  /** Python truthiness of an optional string: present and non-empty. */
  predicate Truthy(v: Option<string>) {
    v.Some? && v.value != []
  }

  /** `v or fallback` for an optional string. */
  function OrElse(v: Option<string>, fallback: string): (r: string)
    ensures Truthy(v) ==> r == v.value
    ensures !Truthy(v) ==> r == fallback
  {
    if Truthy(v) then v.value else fallback
  }

  /** One normalised article, the dictionary the scraper emits per entry. */
  datatype Record = Record(
    id: string,
    url: Option<string>,
    title: string,
    publishedAt: string,
    section: string,
    summary: string,
    bias: Bias)

  /** The key `deduplicate` compares: the URL and the lower-cased title. */
  datatype Key = Key(url: Option<string>, title: string)

  function KeyOf(r: Record): (k: Key)
    ensures k.url == r.url && |k.title| == |r.title|
    ensures forall i :: 0 <= i < |k.title| ==> !('A' <= k.title[i] <= 'Z')
  {
    Key(r.url, Lower(r.title))
  }

  /** Two records whose URLs agree and whose titles differ only in letter case share a key. */
  lemma KeyIgnoresCase(r: Record, s: Record)
    requires r.url == s.url && |r.title| == |s.title|
    requires forall k :: 0 <= k < |r.title| ==> LowerChar(r.title[k]) == LowerChar(s.title[k])
    ensures KeyOf(r) == KeyOf(s)
  {
    assert Lower(r.title) == Lower(s.title);
  }

  /** The sort key: the `published_at` string. */
  function PublishedAt(r: Record): string {
    r.publishedAt
  }

  /** One entry of `config["sections"]`. */
  datatype SectionConfig = SectionConfig(name: string, url: string, maxItems: int)

  /**
   * The configuration file after loading; absent optional settings are
   * `None` and take the scraper's defaults.
   */
  datatype Config = Config(
    timezone: Option<string>,
    windowHours: Option<int>,
    allowExtract: bool,
    allowedHours: seq<int>,
    sections: seq<SectionConfig>)

  const DefaultTimezone: string := "UTC"
  const DefaultWindowHours: int := 24
  const SecondsPerHour: int := 3600

  /** `config.get("timezone", "UTC")`. */
  function TimezoneOf(cfg: Config): string {
    if cfg.timezone.Some? then cfg.timezone.value else DefaultTimezone
  }

  /** `config.get("window_hours", 24)`. */
  function WindowHours(cfg: Config): int {
    if cfg.windowHours.Some? then cfg.windowHours.value else DefaultWindowHours
  }

  /** The moment the scraper takes as "now": an instant in seconds and its ISO text. */
  datatype Clock = Clock(instant: int, iso: string)

  /** `now - timedelta(hours=window_hours)`, in seconds. */
  function WindowStart(cfg: Config, now: Clock): (t: int)
    ensures cfg.windowHours.None? ==> t == now.instant - 24 * 3600
  {
    now.instant - WindowHours(cfg) * SecondsPerHour
  }

  /**
   * The code the scraper calls but that is not part of this model:
   * `html.unescape`, `nltk.sent_tokenize`, `parse_date` (dateutil plus a
   * timezone conversion), `datetime.fromisoformat` as an instant in seconds,
   * `fetch_content` (HTTP plus readability), `stable_id` (SHA-1), the VADER
   * compound score, and fetching plus parsing a feed (`None` when the fetch
   * fails).
   */
  datatype Env = Env(
    unescape: string -> string,
    sentTokenize: string -> seq<string>,
    parseDate: (string, string) -> Option<string>,
    instantOf: string -> int,
    fetchArticle: string -> Option<string>,
    stableId: string -> string,
    sentiment: string -> real,
    fetchFeed: string -> Option<seq<Entry>>)

  const SourceName: string := "CBC News"

  /** The JSON document `main` writes. */
  datatype Snapshot = Snapshot(source: string, generatedAt: string, timezone: string, items: seq<Record>)
}
