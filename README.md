# CBC news scraper, modelled in Dafny

The scraper reads the RSS feeds of a configured list of CBC News sections. For each section it turns the entries of the last `window_hours` into uniform article records. Each record has:

- a stable id;
- the link and the cleaned title;
- the ISO publication date;
- the section name;
- a summary of at most 500 characters;
- a bias heuristic: article type, sentiment score and subjectivity hint.

Each section's records are sorted newest first by the `published_at` string and capped at the section's `max_items`. Then all sections are merged, sorted again and de-duplicated on `(url, lower-cased title)`, and written as one JSON snapshot. The two entry points, `scraper/main.py` and `cbc-news-scraper-ui/scraper/main.py`, share this pipeline and differ in:

- the `--force` flag of the time gate;
- how a feed is fetched: the first uses `fetch_feed_bytes` with retries and then parses the bytes, and a fetch that raises drops the section; the UI variant calls `feedparser.parse(url)` once, which does not raise and gives no entries for a feed it cannot read;
- how an article is fetched for extraction: the two `fetch_content` functions differ too (a retrying session with a 15-second timeout, against a single `requests.get` with 10 seconds).

Each variant therefore runs over its own `Feed.Env`. The variants are proved to write the same snapshot whenever their two feed fetches give the same entries for every section and their two article fetches return the same text (`UiScraper.OutputAgrees`).

The project models the code behind this:

| file | module | what it models |
|---|---|---|
| `wrappers.dfy` | `Wrappers` | `Option` |
| `text.dfy` | `Text` | Python's `str.strip` (its exact whitespace set), `lower`, `in`, the slice `s[:n]` with a negative `n`, and `" ".join` |
| `summarizer.dfy` | `Summarizer` | `summarize`: the tag regex, the greedy sentence-packing loop, the fallback and the final cut |
| `bias.dfy` | `BiasHeuristic` | `detect_article_type`, the three `\b(...)\b` marker regexes and their `findall` counts, `subjectivity_hint`, `compute_bias` |
| `ordering.dfy` | `Ordering` | Python's `str` order and the stable `list.sort(reverse=True)` |
| `feed.dfy` | `Feed` | entries, records, the configuration, the clock, the snapshot, and the foreign code as an `Env` of functions |
| `scraper.dfy` | `Scraper` | `should_run_now`, the entry loop of `scrape_section`, the sort and cap, `deduplicate`, and the second `main` |
| `ui_scraper.dfy` | `UiScraper` | the same functions of `cbc-news-scraper-ui/scraper/main.py`. Its entry loop body (lines 149-185) does what the one in `scraper/main.py` does, except that it calls its own `fetch_content`, so it uses `Scraper.ProcessEntry` over the UI variant's `Env`. Its `deduplicate` (lines 191-211) builds the key from `item.get("title").lower()` without the other's `or ""`; the title is always a string (line 166), so the key is the same and `Scraper.Deduplicate` models it |

Where the source works in steps, the model does too. `PackSentences` (the loop of `Summarize`), `PickDateField`, `EmitRecords` (the loop of `ProcessFeed`), `Deduplicate`, `Scraper.Run` and `UiScraper.CollectSections` (the section loop of the UI variant's `main`) are methods with loops; `Summarize`, `SummarizeEntry`, `ProcessEntry`, `ProcessFeed` and `UiScraper.Run` are methods around them. Each is proved against a specification function: `Pack`, `Summary`, `FirstPresent`, `AutoSummary`, `EntryRecord`, `Emitted`, `SectionResult`, `Dedup`, `Collected` and `Output`. The lemmas state what the source promises about those functions.

Where the code and the way the project is described differ, the model follows the code:

- The sort key is the `published_at` string, compared as Python compares strings. It is not the instant. Everything proved about "newest" is in that string order.
- An article is an opinion piece when the lower-cased URL contains `/opinion/` anywhere. The code does not look for a path segment.
- The title is only unescaped and stripped. Tags in a title are kept.
- The summarizer's round trip (the summary equals the stripped cleaned text) needs that text to be strictly shorter than `max_chars` (`Summarizer.SummaryOfShortText`). If the text is exactly `max_chars` long, its sentences join back to it by single spaces, and there are two or more of them, then the last sentence is dropped and the summary is the join of the others (`Summarizer.SummaryAtBudgetDropsLast`). `Summarizer.SummaryAtBudgetDropsSentence` shows this on "A. B." with a budget of 5.

`scraper/main.py` imports a `utils` module from its own directory, and that module is not part of this model. Both entry points are modelled over the functions in `cbc-news-scraper-ui/scraper/utils.py`.

## Model

| member | source | states |
|---|---|---|
| Text.Strip | cbc-news-scraper-ui/scraper/utils.py:102 | `str.strip()` leaves no Python whitespace at either end and never lengthens the text |
| Text.StripIsSlice | cbc-news-scraper-ui/scraper/utils.py:102 | `str.strip()` returns a slice of the text with only whitespace before and after it |
| Text.StripStripped | cbc-news-scraper-ui/scraper/utils.py:115 | stripping text that has no surrounding whitespace changes nothing |
| Text.StripIdempotent | cbc-news-scraper-ui/scraper/utils.py:113-115 | stripping twice is stripping once |
| Text.Lower | cbc-news-scraper-ui/scraper/utils.py:131 | `lower()` keeps the length and lower-cases character by character |
| Text.Contains | cbc-news-scraper-ui/scraper/utils.py:131 | `t in s` is true exactly when `t` occurs in `s` at some index |
| Text.JoinSpaceEnds | cbc-news-scraper-ui/scraper/utils.py:110 | `" ".join(parts)` starts with the first part, followed by a space when more parts come, and ends with the last part |
| Text.PyPrefix | cbc-news-scraper-ui/scraper/utils.py:113-115 | `s[:n]` is a prefix of `s` of length `min(n, len(s))`, or `max(0, len(s) + n)` for a negative `n` |
| Summarizer.StripTags | cbc-news-scraper-ui/scraper/utils.py:97 | replacing tags by spaces never lengthens the text |
| Summarizer.StripTagsLeavesNoTag | cbc-news-scraper-ui/scraper/utils.py:97 | after the substitution no `<`, non-empty run of non-`>` characters, `>` is left |
| Summarizer.StripTagsNoTagIdentity | cbc-news-scraper-ui/scraper/utils.py:97 | text without a tag is left unchanged |
| Summarizer.StripTagsIdempotent | cbc-news-scraper-ui/scraper/utils.py:97 | substituting twice is substituting once |
| Summarizer.NonBlank | cbc-news-scraper-ui/scraper/utils.py:101-104 | the sentences the loop considers are stripped and non-empty; blank ones are skipped |
| Summarizer.NonBlankKeeps | cbc-news-scraper-ui/scraper/utils.py:101-104 | no sentence that is non-empty after stripping is skipped: each one, stripped, is among those the loop considers |
| Summarizer.PackIsLongestFittingPrefix | cbc-news-scraper-ui/scraper/utils.py:101-108 | the kept sentences are the longest prefix of the non-blank stripped sentences whose cost (`len + 1` each) stays within `max_chars`; the next sentence overflows, with no skip-ahead |
| Summarizer.FirstSentenceTooLong | cbc-news-scraper-ui/scraper/utils.py:105-106 | a first sentence of at least `max_chars` characters is never kept, because its separator is charged too |
| Summarizer.PackAllWhenAllFit | cbc-news-scraper-ui/scraper/utils.py:101-108 | when all non-blank sentences fit together, all of them are kept |
| Summarizer.JoinSpaceLength | cbc-news-scraper-ui/scraper/utils.py:110 | the joined parts are one character shorter than their cost |
| Summarizer.JoinSpaceStripped | cbc-news-scraper-ui/scraper/utils.py:110 | joining stripped non-empty parts gives stripped non-empty text |
| Summarizer.SummaryBounded | cbc-news-scraper-ui/scraper/utils.py:115 | for `max_chars >= 0` the summary has at most `max_chars` characters and no surrounding whitespace |
| Summarizer.SummaryOfPackedSentences | cbc-news-scraper-ui/scraper/utils.py:109-115 | when a sentence fits, the summary is the kept sentences joined by single spaces, of length cost − 1 < `max_chars`, so the final cut removes nothing |
| Summarizer.SummaryFallback | cbc-news-scraper-ui/scraper/utils.py:111-115 | when no sentence fits, the summary is `cleaned[:max_chars].strip()` |
| Summarizer.SummaryOfShortText | cbc-news-scraper-ui/scraper/utils.py:94-115 | round trip: if the sentences join back to the stripped cleaned text and it is shorter than `max_chars`, the summary is that text |
| Summarizer.SummaryOfShortUnsplitText | cbc-news-scraper-ui/scraper/utils.py:111-115 | round trip with no sentences: a cleaned text within `max_chars` comes back stripped |
| Summarizer.SummaryAtBudgetDropsSentence | cbc-news-scraper-ui/scraper/utils.py:105-106 | "A. B." with a budget of 5 and two sentences summarizes to "A.", so the round trip fails at the boundary |
| Summarizer.PackAtBudgetDropsLast | cbc-news-scraper-ui/scraper/utils.py:101-108 | when two or more non-blank sentences join to exactly `max_chars` characters, the loop keeps every sentence but the last |
| Summarizer.SummaryAtBudgetDropsLast | cbc-news-scraper-ui/scraper/utils.py:96-115 | a text exactly `max_chars` long whose two or more sentences join back to it summarizes to the join of all but its last sentence |
| Summarizer.PackSentences | cbc-news-scraper-ui/scraper/utils.py:99-108 | the loop with its `continue` and `break` keeps exactly `Pack`, the longest fitting prefix |
| Summarizer.Summarize | cbc-news-scraper-ui/scraper/utils.py:78-115 | the loop computes `Summary`; empty input gives `""`; the result is within the budget and stripped |
| BiasHeuristic.DetectArticleType | cbc-news-scraper-ui/scraper/utils.py:118-131 | Opinion exactly when the lower-cased URL contains `/opinion/` at some index, News otherwise |
| BiasHeuristic.MarkerListsWellFormed | cbc-news-scraper-ui/scraper/utils.py:167-169 | every alternative of the three patterns is a non-empty run of word characters |
| BiasHeuristic.MatchAt | cbc-news-scraper-ui/scraper/utils.py:167-169 | the alternative matched at an index is one of the list, fits case-insensitively and ends at a word boundary; on no match, no alternative fits |
| BiasHeuristic.Step | cbc-news-scraper-ui/scraper/utils.py:171-173 | a match found by `findall` is non-empty and lies inside the text |
| BiasHeuristic.CountFromZero | cbc-news-scraper-ui/scraper/utils.py:170-173 | `len(pattern.findall(text))` is 0 exactly when no alternative matches at any index of the text |
| BiasHeuristic.CountFromBound | cbc-news-scraper-ui/scraper/utils.py:170-173 | `findall` finds at most one match per character, because every match is non-empty and they do not overlap |
| BiasHeuristic.Hits | cbc-news-scraper-ui/scraper/utils.py:170-173 | the score, the sum of the three `findall` counts, is at most three per character; it adds up across a space (`HitsOfJoinedText`) |
| BiasHeuristic.SubjectivityHint | cbc-news-scraper-ui/scraper/utils.py:153-179 | `low` exactly when none of the three patterns matches anywhere in the text, `medium` for 1 or 2 matches, `high` for 3 or more |
| BiasHeuristic.Bucket | cbc-news-scraper-ui/scraper/utils.py:174-179 | a score of 0 is low, 1 to 2 is medium, 3 or more is high |
| BiasHeuristic.BucketMonotone | cbc-news-scraper-ui/scraper/utils.py:174-179 | a higher score never gives a lower bucket |
| BiasHeuristic.MatchLengthsSplit | cbc-news-scraper-ui/scraper/utils.py:170-173 | around a non-word character, the matches that start in each part are those of the part alone, and none starts at the separator |
| BiasHeuristic.CountAcrossSeparator | cbc-news-scraper-ui/scraper/utils.py:170-173 | the matches in `a + c + b` are those in `a` plus those in `b` when `c` is not a word character |
| BiasHeuristic.HitsOfJoinedText | cbc-news-scraper-ui/scraper/utils.py:210 | the markers in `f"{title} {summary}"` are those of the title plus those of the summary |
| BiasHeuristic.AppendingTextNeverLowersHint | cbc-news-scraper-ui/scraper/utils.py:170-179 | adding text after a space never lowers the hint |
| BiasHeuristic.ComputeBias | cbc-news-scraper-ui/scraper/utils.py:196-211 | the type depends on the URL alone; the hint buckets the title's plus the summary's markers; the sentiment is taken over the stripped `f"{title} {summary}"` |
| Ordering.StrLessIrreflexive | scraper/main.py:199 | no string sorts before itself |
| Ordering.StrLessTransitive | scraper/main.py:199 | the string order is transitive |
| Ordering.StrLessTotal | scraper/main.py:199 | of two different strings one sorts before the other |
| Ordering.SortDescPermutes | scraper/main.py:199 | the sort rearranges the records and loses or adds none |
| Ordering.SortDescSorted | scraper/main.py:199 | after the sort no record is followed by one with a larger `published_at` |
| Ordering.SortDescStable | scraper/main.py:199 | records with equal `published_at` keep their order |
| Ordering.SortDescOfSorted | scraper/main.py:247 | sorting a list that is already descending changes nothing |
| Feed.Get | scraper/main.py:174 | `entry.get(k)` is present exactly when the key is, with its value |
| Feed.WindowStart | scraper/main.py:156 | the window starts `window_hours` (24 by default) hours before now |
| Feed.KeyOf | scraper/main.py:208 | the de-duplication key is the URL and the lower-cased title: as long as the title, with no upper-case letter |
| Feed.KeyIgnoresCase | scraper/main.py:208 | two records with the same URL whose titles have the same length and agree character by character after lower-casing have the same key |
| Scraper.ShouldRunNow | scraper/main.py:66-81 | `--force` always runs; otherwise it runs exactly when the hour is one of `allowed_hours` |
| Scraper.FirstPresent | scraper/main.py:160-164 | no date string exactly when none of the four keys is present |
| Scraper.FirstPresentIsFirst | scraper/main.py:160-164 | the date string is the value under the first present key, in the order published, updated, pubDate, date |
| Scraper.PickDateField | scraper/main.py:160-164 | the loop with its `break` returns `FirstPresent` |
| Scraper.EntryKept | scraper/main.py:160-172 | an entry is kept exactly when its date string is non-empty, parses to a non-empty date, and that date is not before the window start |
| Scraper.EmptyFirstDateDrops | scraper/main.py:160-166 | an empty `published` drops the entry even when `updated` has a value |
| Scraper.TitleOf | scraper/main.py:175 | the unescaped title, stripped and no longer than the unescaped text; a missing title is unescaped from "" |
| Scraper.RawSummary | scraper/main.py:176 | `summary` when it is non-empty, else `description` when it is non-empty, else ""; it is empty exactly when neither is a non-empty string |
| Scraper.EntryRecordFields | scraper/main.py:174-196 | a kept record has a non-empty date in the window, the configured section name, the entry's link, `id = stable_id(link or title)`, a stripped title, a stripped summary within 500 characters, and the Opinion type exactly for `/opinion/` links |
| Scraper.ExtractionNotConsulted | scraper/main.py:179-183 | unless the summary is empty, extraction is allowed and there is a link, the result of `fetch_content` plays no part |
| Scraper.SummarizeEntry | scraper/main.py:176-183 | the feed's summary is summarised, and the fetched article only when that summary is empty, extraction is allowed and there is a link (`AutoSummary`) |
| Scraper.ProcessEntry | scraper/main.py:159-196 | the loop body returns `EntryRecord`: `None` where it `continue`s, else the record it appends |
| Scraper.EmittedFromEntries | scraper/main.py:158-196 | every appended record is the record of some entry of the feed |
| Scraper.EmitRecords | scraper/main.py:158-196 | the entry loop appends the records of the kept entries, in feed order (`Emitted`) |
| Scraper.ProcessFeed | scraper/main.py:154-200 | the loop, the sort and the cap return `SectionResult` |
| Scraper.SectionResultShape | scraper/main.py:198-200 | the section result is sorted, is the first records of the sorted list, has at most `max_items` records, and is the whole list when the cap is not reached |
| Scraper.SectionResultFromEntries | scraper/main.py:154-200 | every record of the section result comes from an entry of the feed |
| Scraper.ScrapeSection | scraper/main.py:137-200 | `None` when the feed fetch raises, otherwise the section result of its entries |
| Scraper.DedupFrom | scraper/main.py:205-212 | the loop never adds records |
| Scraper.Deduplicate | scraper/main.py:203-213 | the loop with its `seen` set returns `Dedup` |
| Scraper.DedupSpec | scraper/main.py:203-213 | the output is an order-preserving subsequence with pairwise distinct keys and every key of the input; a record is kept exactly when it is the first of its key |
| Scraper.DedupIdempotent | scraper/main.py:205-213 | de-duplicating twice is de-duplicating once |
| Scraper.DedupOfSortedKeepsNewest | scraper/main.py:246-248 | in a list sorted newest first, the record kept for a key is at least as new as every record of that key |
| Scraper.SubsequenceSorted | scraper/main.py:246-248 | de-duplication keeps a sorted list sorted |
| Scraper.FailedSectionContributesNothing | scraper/main.py:235-240 | a section whose fetch raises adds nothing, and the other sections are still merged in order |
| Scraper.OutputNewestPerKey | scraper/main.py:246-255 | the written items are sorted, have distinct keys, cover every collected key, and each is at least as new as every collected record of its key |
| Scraper.OutputItemsFromEntries | scraper/main.py:235-255 | every written item has a non-empty date not before the window start and the name of a configured section |
| Scraper.Run | scraper/main.py:216-255 | the gate, the section loop, the sort and the de-duplication produce `Output` |
| UiScraper.ShouldRunNow | cbc-news-scraper-ui/scraper/main.py:73-95 | it runs exactly when the hour is one of `allowed_hours` |
| UiScraper.ShouldRunNowWithoutForce | cbc-news-scraper-ui/scraper/main.py:85-95 | this gate is the other variant's gate without `--force` |
| UiScraper.SectionItemsAgree | cbc-news-scraper-ui/scraper/main.py:143-149 | when the two variants' feed fetches give the same entries for the section (none here where the other variant raises) and their article fetches agree, the section adds the same records here as in the other variant |
| UiScraper.ScrapeSection | cbc-news-scraper-ui/scraper/main.py:127-188 | the section result of the parsed entries, none when the fetch fails |
| UiScraper.CollectedAgree | cbc-news-scraper-ui/scraper/main.py:223-230 | under the same condition for every section, both variants collect the same records in the same order |
| UiScraper.OutputAgrees | cbc-news-scraper-ui/scraper/main.py:214-239 | under the same condition for every configured section, this variant writes what the other writes without `--force` |
| UiScraper.OutputNewestPerKey | cbc-news-scraper-ui/scraper/main.py:231-233 | the written items are sorted, have distinct keys, and each is the newest collected record of its key |
| UiScraper.CollectSections | cbc-news-scraper-ui/scraper/main.py:223-230 | the section loop extends `all_items` with each section's records, in configuration order (`Collected`) |
| UiScraper.Run | cbc-news-scraper-ui/scraper/main.py:214-239 | the gate, the section loop, the sort and the de-duplication produce `Output` |

## Left out

- Network and pacing are parameters of `Feed.Env` or are not modelled: HTTP sessions, retries, `fetch_feed_bytes`, `fetch_content`, `time.sleep` and the random jitter. The fetch of a feed is `fetchFeed`, and the article fetch is `fetchArticle`. In `scraper/main.py`, `fetchFeed` is `fetch_feed_bytes` followed by `parse`, and `None` means it raised. In the UI variant it is `feedparser.parse(url)`, which does not raise; `None` there, like a feed it cannot read, gives no entries (`UiScraper.Entries`).
- Foreign libraries are uninterpreted functions of `Feed.Env`: `feedparser.parse`, readability's `Document`, dateutil in `parse_date`, `datetime.fromisoformat` (as an instant in seconds), `html.unescape`, `nltk.sent_tokenize`, SHA-1 in `stable_id`, and the VADER compound score.
- Floating point is not modelled. The sentiment is an opaque `real` from VADER, and its rounding to 3 digits in `Bias.to_dict` is not modelled.
- Configuration loading, argparse, logging, the NLTK download at import time, and writing the JSON file are not modelled. The configuration arrives as a typed `Feed.Config`. Missing sections or keys that would raise `KeyError` are not modelled.
- The first `main` of scraper/main.py is not modelled. It is dead code, overridden by the second, and calls `ensure_nltk_data`, which the model lacks.
- Text.Lower, BiasHeuristic.IsWordChar: `lower()` and the regex case folding are modelled on ASCII letters, and `\w` as ASCII letters, digits and `_`. Python's Unicode versions are not modelled.
- UiScraper.SectionItemsAgree: the agreement is proved only for feed and article fetches that return the same results in both variants. The retrying `fetch_feed_bytes` with `parse` and the single `feedparser.parse(url)` are separate functions of the two `Env`s, and so are the two `fetch_content` functions; nothing relates them when they answer differently.
- UiScraper.CollectedAgree: the same condition, section by section: where the two fetch stacks answer differently, the collected records may differ.
- UiScraper.OutputAgrees: the same condition, for every configured section. Retries, timeouts and the differing failure modes of the two fetch stacks are not modelled.
- Summarizer.SummaryOfShortText: the round trip holds only for a tokenizer whose sentences join back to the text. Nothing is claimed about NLTK's actual segmentation.
- Feed.WindowStart: instants are whole seconds and `window_hours` is an integer. The source's `now` carries microseconds and `timedelta(hours=...)` accepts a float, so an entry exactly one window before a `now` with a non-zero microsecond part is dropped by the source but kept by the model.
- The published date is sorted as a string. No lemma relates that order to the instants used by the window filter, because the two can differ across a change of UTC offset.
- An exception raised while processing one entry, for example from `compute_bias`, is not modelled. Such code is total in the model. In the source it would drop the whole section.
