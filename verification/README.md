# ai-agent-x core, modelled in Dafny

A tweet bot searches recent crypto tweets, samples at most five per cycle, asks
a language model whether each is relevant and what to reply, optionally
publishes the reply, and records every processed tweet in a flat JSON store
(`data/processed_tweets.json`): one record per tweet id, the counters
`total_processed` and `total_responded`, and a rate-limit ledger whose history
keeps the last ten events. Two repair scripts recount the counters from the
records, and two dashboards read the store to show the counters, the
rate-limit history and the newest tweets.

The model covers:

- `schema.dfy` (`Schema`): the stored document as typed values. A file is
  `Absent`, `Corrupt` (not valid JSON) or `Parsed`. It also holds the
  `Consistent` and `Tallied` invariants of the counters.
- `order.dfy` (`Order`): Python's `str` ordering, the stable descending sort
  of `list.sort(key=..., reverse=True)`, and the "newest first, at most
  `limit`" listing that the store and the simple dashboard share.
- `storage.dfy` (`Storage`): `utils/database.py`. `Database` is a class whose
  one field is the parsed file content. Each mutation is a method that changes
  that content step by step, as the source does. The method is proved equal to
  a function on documents (`Mark`, `WithRateLimit`), and lemmas about those
  functions state what the counters and the ledger keep.
- `twitter_service.dfy` (`Twitter`): `services/twitter_service.py`. The calls
  to the platform and the language model become inputs: the search result,
  the username lookup, the relevance score, the generated reply and whether
  publishing succeeded. The random sample becomes the positions it picked.
- `stats_repair.dfy` (`InspectTweets`, `FixStats`): `inspect_tweets.py` and
  `fix_stats.py`.
- `dashboard.dfy` (`Dashboard`) and `dashboard_simple.dfy` (`DashboardSimple`):
  the counters panel, the rate-limit panel and the tweet cards. Each panel is
  modelled as the structured content it shows, not as HTML.
- `pipeline_views.dfy` (`PipelineViews`): how the parts fit together. The
  badge a dashboard shows names how processing ended. A store the pipeline
  maintains needs no recount. The two repair scripts disagree on replies that
  were generated but not published.

Timestamps (`datetime.now().isoformat()`) are inputs named `now`. The file
system is the `content` field or a `Disk` value.

The model follows the code where it departs from its own comments. The
comments at utils/database.py:121 and :126 say that `total_responded` should
grow when the tweet is new or had no reply before. The test at
utils/database.py:124 reads the "had a reply before" flag from the record that
lines 103-109 have just overwritten, so marking an id again never adds to
`total_responded`, even when the id had no reply before
(`Storage.RemarkWithReplyNotCounted`). The counter also grows only for a truthy
reply, while the recount script counts every reply that is not `None`.

## Model

| member | source | states |
|---|---|---|
| Schema.SliceLen | utils/database.py:234 | The length of `xs[:limit]`: `min(limit, n)` for a non-negative limit, `n` less `min(-limit, n)` for a negative one. |
| Order.SortDesc | utils/database.py:231 | The sorted list is a permutation of the input (same length, same multiset). |
| Order.SortDescSorted | utils/database.py:231 | The sorted list is non-increasing in the key under Python's string order. |
| Order.Entries | utils/database.py:225-228 | The id-tagged list holds every stored record exactly once, with its own id. |
| Order.MostRecent | utils/database.py:221-234 | `SliceLen(n, limit)` stored records with their ids, no id twice, newest first; no record left out is newer than one listed. |
| Storage.Load | utils/database.py:47-65 | A file that is not valid JSON reads as the empty schema with zero counters and the default ledger; otherwise the parsed document. |
| Storage.WithRateLimit | utils/database.py:141-167 | Records and counters unchanged; `last_encounter` and `wait_seconds` are the new event's; the history is the old one plus the event, last `min(10, old+1)` kept, the event last. |
| Storage.Database.constructor | utils/database.py:14-45 | A missing file is created with the empty schema; an existing file, even one that does not parse, is kept as it is. |
| Storage.Database.IsTweetProcessed | utils/database.py:72-83 | False for every id on a file that does not parse (it reads as empty); otherwise true exactly for the ids the file stores. |
| Storage.Database.GetTweetDetails | utils/database.py:184-199 | The record is present exactly when `is_tweet_processed` holds, and it is the stored record. |
| Storage.Database.GetStats | utils/database.py:201-209 | The stored counters when the section exists, zero counters when it is missing; on a consistent document the processed count is the number of stored ids and responses lie between 0 and it. |
| Storage.Database.GetRateLimitInfo | utils/database.py:170-182 | The stored ledger, or the default shape when the section is missing. |
| Storage.Database.MarkTweetProcessed | utils/database.py:85-131 | The new content is `Mark` of the loaded document; nothing is saved exactly when the id is new and `stats` is missing (the KeyError); after a save the id is processed. |
| Storage.Database.RecordRateLimit | utils/database.py:133-168 | The new content is `WithRateLimit` of the loaded document. |
| Storage.Database.GetLastProcessedTweets | utils/database.py:211-234 | The listing `MostRecent` promises, with every listed record equal to `get_tweet_details` of its id. |
| Storage.MarkStoresRecord | utils/database.py:97-113 | After a save the id holds exactly the supplied fields (sentiment only when truthy); every other id and the ledger are unchanged. |
| Storage.MarkCounters | utils/database.py:115-128 | `total_processed` grows by one exactly for a new id; `total_responded` by one exactly for a new id with a truthy reply. |
| Twitter.MarkCountsNew | utils/database.py:115-128 | One mark of a new id, with a reply that is absent or non-empty, grows the counters by exactly the ids it adds and the replies among them, and leaves a store without `stats` as it is. |
| Twitter.CountsNewTrans | services/twitter_service.py:83-98 | Counter growth composes over successive marks: the added ids of two steps are disjoint, and records kept by the second step keep their replies. |
| Storage.MarkPreservesConsistent | utils/database.py:97-128 | Marking keeps the processed count equal to the number of stored ids and responses within it. |
| Storage.MarkKeepsTallied | utils/database.py:115-128 | For a new id with a reply that is absent or non-empty, `total_responded` keeps equalling the number of stored replies. |
| Storage.RemarkWithReplyNotCounted | utils/database.py:119-128 | An id stored without a reply and marked again with one does not add to `total_responded`. |
| Storage.MarkTwiceCountsOnce | utils/database.py:99-117 | A second mark of the same id leaves the counters and the id set as the first left them. |
| Storage.FirstMarkOnEmptyStore | utils/database.py:97-130 | On the empty schema, marking one id with a reply gives counters (1, 1). |
| Storage.RateLimitPreservesConsistent | utils/database.py:141-167 | Recording a rate limit keeps consistent counters consistent. |
| Storage.CorruptStoreReadsEmpty | utils/database.py:47-65 | On a file that does not parse: zero counters, no id processed, no details, the default ledger. |
| Twitter.Batch | services/twitter_service.py:55-67 | A throttled search yields the three demo tweets with ids "1", "2", "3"; a failed search yields nothing. |
| Twitter.SampleSize | services/twitter_service.py:77 | `min(5, n)`: at most five and at most the batch. |
| Twitter.AuthorName | services/twitter_service.py:159-165 | The looked-up username, or `usuario_<author_id>` when the lookup failed. |
| Twitter.Decide | services/twitter_service.py:170-224 | Ignored exactly below relevance 0.7; generation failed exactly for a falsy reply; responded exactly when the reply is published in respond mode; otherwise generated but not published. |
| Twitter.TwitterService.constructor | services/twitter_service.py:16-45 | The service keeps the store and the respond flag. |
| Twitter.TwitterService.ProcessSingleTweet | services/twitter_service.py:151-227 | A stored id writes nothing; any other id gets exactly one mark with no sentiment and with the fields the decision dictates; stored records are kept, the ledger is untouched, the counter invariants are kept. |
| Twitter.TwitterService.ProcessMinimalTweet | services/twitter_service.py:125-149 | A stored id writes nothing; otherwise one mark with author `desconocido_ratelimit`, `responded` false and the generated reply as it is. |
| Twitter.TwitterService.ProcessSample | services/twitter_service.py:83-98 | After the loop over the sample, stored records are kept, only sampled ids are added (all of them when `stats` exists), the counters grow by one per added id and by one per added id with a reply (`Grows`), and every outcome and every added record is explained by the step that produced it (`Explained`). |
| Twitter.TwitterService.ProcessTweets | services/twitter_service.py:47-103 | A failed or empty search writes nothing; one outcome per sampled tweet, each either "already processed" or the decision on that tweet's answers (then for an id not stored before); every id added is a sampled one and holds `StoredRecord` of the step that wrote it; stored records are never changed; every sampled id is stored when `stats` exists; a store without `stats` is left as it is; otherwise `stats` stays present, `total_processed` grows by the number of added ids and `total_responded` by the number of added ids that store a reply; the ledger is untouched; `Consistent` and `Tallied` are kept. |
| InspectTweets.Recounted | inspect_tweets.py:27-45 | Records and ledger unchanged; processed is the number of ids; responded is the number of records whose reply is not `None`; the result is consistent. |
| InspectTweets.UpdateStats | inspect_tweets.py:12-57 | Nothing is written for a missing file, an unreadable file or an empty store; otherwise the recounted document. |
| InspectTweets.RecountIdempotent | inspect_tweets.py:40-45 | A second recount writes the same document. |
| FixStats.Fixed | fix_stats.py:26-45 | Records and ledger unchanged; processed is the number of ids; responded is the number of records with `responded` set; the result is consistent. |
| FixStats.FixStats | fix_stats.py:7-52 | Nothing is written for a missing or unreadable file; any parsed file is written back fixed, an empty one with zero counters. |
| FixStats.FixIdempotent | fix_stats.py:41-45 | A second fix writes the same document. |
| Dashboard.ShowNat | dashboard.py:52-56 | The decimal text of a number is a non-empty string of digits. |
| Dashboard.ParseShowNat | dashboard.py:52-56 | The decimal text of a number reads back as that number. |
| Dashboard.Split | dashboard.py:48-49 | `hours*3600 + minutes*60 + sec == seconds` with `0 <= minutes, sec < 60`, and no negative hours for a non-negative duration. |
| Dashboard.FormatSeconds | dashboard.py:43-56 | "0 segundos" exactly for zero; otherwise `Hh Mm Ss` with hours, `Mm Ss` with minutes only, `Ss` otherwise. |
| Dashboard.FormatSecondsReadsBack | dashboard.py:43-56 | For every non-negative duration, an independent reader of the text recovers the number of seconds. |
| Dashboard.ResponseRate | dashboard.py:89 | 0 when nothing was processed; otherwise `rate * processed == responded * 100`; within 0..100 when responses do not exceed processed tweets. |
| Dashboard.StatsView | dashboard.py:81-102 | The panel shows `get_stats`' two counters and `ResponseRate` of them: zeros for a missing section; on consistent counters the number of stored ids and a rate within 0..100. |
| Dashboard.RateLimitView | dashboard.py:104-175 | Only the notice exactly when `last_encounter` is falsy; otherwise the formatted wait and one row per history event, a permutation of the history in non-increasing timestamp order. |
| Dashboard.HistoryRows | dashboard.py:135-147 | One row per history event, in the order given, each showing that event's timestamp, formatted wait and endpoint. |
| Dashboard.BadgeOf | dashboard.py:189-198 | Respondido exactly when `responded`; Procesado exactly when not responded and a reply is stored; Ignorado otherwise. |
| Dashboard.SentimentOf | dashboard.py:200-224 | Shown exactly for a non-empty sentiment payload; positive and negative tones exactly for those labels; a missing label shows "desconocido". |
| Dashboard.TweetCards | dashboard.py:182-254 | The placeholder exactly for an empty listing; otherwise one card per tweet, numbered from 1, with its id, badge, author, date, text, reply, and the record's sentiment line when sentiment is shown (none otherwise). |
| Dashboard.TweetsView | dashboard.py:177-254 | The placeholder exactly for an empty store; otherwise `min(10, n)` cards, each the card of a stored id's record, no id twice, newest first, and no stored tweet left out processed later than a shown one. |
| Dashboard.CardsShowNewest | dashboard.py:177-180 | Cards built in order from a listing with the newest-first guarantees of `get_last_processed_tweets` show the newest stored tweets. |
| DashboardSimple.SimpleLoad | dashboard_simple.py:16-25 | A missing or unreadable file reads as no tweets, zero counters and no ledger; otherwise the parsed document. |
| DashboardSimple.SimpleGetStats | dashboard_simple.py:27-29 | Zero counters when the file or the section is missing; consistent counters as stored. |
| DashboardSimple.SimpleGetLastProcessedTweets | dashboard_simple.py:31-45 | `SliceLen(n, limit)` stored records with their ids, no id twice, newest first, none left out newer than one listed. |
| DashboardSimple.SimpleReadsLikeStore | dashboard_simple.py:16-29 | The simple reader shows the same records and counters as the full store opened on the same file. |
| DashboardSimple.SimpleStatsView | dashboard_simple.py:55-76 | The panel shows the simple reader's two counters and `ResponseRate` of them: zeros for a missing or unreadable file; on consistent counters the number of stored ids and a rate within 0..100. |
| DashboardSimple.SimpleTweetsView | dashboard_simple.py:78-128 | The placeholder exactly for an empty or unreadable store; otherwise `min(10, n)` cards, each the card of a stored id's record without a sentiment line, no id twice, newest first, and no stored tweet left out processed later than a shown one. |
| Twitter.StoredRecord | services/twitter_service.py:173-224 | The record the full path stores has `responded` exactly for a published reply, a reply exactly for a relevant tweet with a truthy reply, and no sentiment. |
| PipelineViews.SingleTweetStoresRecord | services/twitter_service.py:173-224 | On a tallied store the single-tweet write saves `StoredRecord` and keeps the store tallied. |
| PipelineViews.BadgeShowsOutcome | dashboard.py:189-198 | A stored tweet's badge is Respondido exactly for Responded, Procesado exactly for generated-not-published, Ignorado exactly for ignored or failed generation. |
| PipelineViews.EmptySchemaTallied | utils/database.py:29-45 | A freshly created store is tallied. |
| PipelineViews.RecountKeepsTallied | inspect_tweets.py:34-45 | On a tallied store `update_stats` writes back what it read. |
| PipelineViews.FixCountsNoMoreThanInspect | fix_stats.py:28 | On records the pipeline writes, `fix_stats` counts no more responses than `update_stats`. |
| PipelineViews.ScriptsDisagreeOnUnpublishedReply | fix_stats.py:28 | For one record with a reply and `responded` false, `update_stats` writes (1, 1) and `fix_stats` writes (1, 0). |

## Left out

- Reading and writing the JSON file, directory creation and logging are not modelled. The file is the `content` field or a `Disk` value.
- The JSON store is typed. A record missing one of its keys, a `processed_tweets` key missing from the document, or values of other JSON types are not modelled, so the `.get(..., default)` fallbacks for record fields are not modelled either.
- Storage.Load: only `json.JSONDecodeError` falls back to the empty schema; other read errors (a file deleted after start-up) propagate in the source and are not modelled.
- Dict iteration order is not modelled. `Order.Entries` lists the records in an order it chooses, so the order of equal `processed_at` values in a listing is not fixed by the model.
- Order.SortDesc: the sort is stable by construction (the earlier element goes in front of equal keys), but stability is not stated or proved, so `Dashboard.RateLimitView`'s contract allows any order among history events with equal timestamps.
- Python's `str` comparison is modelled by code point, with no locale.
- The relevance score is an exact real, so float rounding is not modelled. The `:.1f`, `:.2f` formatting of the rate and the sentiment score is not modelled either.
- `format_date`, `format_time_ago` and `calculate_reset_time` in dashboard.py, and `format_date` in dashboard_simple.py, depend on the wall clock and `datetime` parsing. They are not modelled: rows show the stored timestamp, and the rate-limit panel leaves out the reset status and its colour.
- Dashboard.SentimentOf: the label is kept as stored; `.capitalize()` and the sentiment score are not modelled.
- HTML markup, the Gradio UI, `refresh_data` and the fifteen-second refresh are not modelled.
- The platform client (`tweepy`), the language model client, `random.sample`, `random.uniform` and `time.sleep` are inputs or left out. The sample is given as positions that satisfy `random.sample`'s contract.
- The service is handed an object with `analyze_tweet_relevance` and `generate_response`. services/openai_service.py defines neither that object nor `analyze_tweet_relevance`, and main.py imports a class it does not define. The model takes the two answers as inputs.
- Twitter.TwitterService.ProcessTweets: the `TooManyRequests` fallback to `_process_minimal_tweet` is not taken. `_process_single_tweet` catches every exception itself, so that branch is unreachable. `ProcessMinimalTweet` is modelled on its own.
- Twitter.TwitterService.ProcessTweets: a search that raises is `Failed`, and an exception from the outer `try` is not otherwise modelled. The `max_results` field is stored by the constructor but never read.
- `record_rate_limit` is modelled, but none of the modelled code calls it.
- main.py, services/twitter_api.py, services/openai_service.py, config/settings.py and scripts/view_tweets.py are not part of this model.
