/**
 * The persisted document of the bot's flat-file store (data/processed_tweets.json)
 * as typed values: one record per processed tweet, the two counters and the
 * rate-limit ledger.  Python's `None` is `Option.None`; a key that a reader looks
 * up with a default is an `Option` field of the document.
 */
module Schema {

  datatype Option<+T> = None | Some(value: T) {
    function GetOr(default: T): T {
      match this
      case Some(v) => v
      case None => default
    }
  }

  /** The optional `sentiment` payload of a record, kept as text keys and values. */
  type SentimentData = map<string, string>

  /**
   * One entry of `processed_tweets`.  `sentiment` is `None` when the key is absent
   * (the store only writes it when the supplied payload is truthy).
   */
  datatype Record = Record(
    processedAt: string,
    responded: bool,
    authorUsername: Option<string>,
    tweetText: Option<string>,
    responseText: Option<string>,
    sentiment: Option<SentimentData>)

  datatype Stats = Stats(totalProcessed: int, totalResponded: int)

  /** One entry of `rate_limits.history`. */
  datatype RateEvent = RateEvent(timestamp: string, waitSeconds: int, endpoint: Option<string>)

  /** The `rate_limits` section. */
  datatype Ledger = Ledger(lastEncounter: Option<string>, waitSeconds: int, history: seq<RateEvent>)

  /** The whole JSON document; `stats` and `rate_limits` may be missing from a file on disk. */
  datatype Document = Document(
    tweets: map<string, Record>,
    stats: Option<Stats>,
    rateLimits: Option<Ledger>)

  /** What a reader finds at the store's path. */
  datatype Disk = Absent | Corrupt | Parsed(doc: Document)

  /** A stored record with its key attached, as the "most recent" listings return it. */
  datatype Entry = Entry(id: string, record: Record)

  const ZeroStats := Stats(0, 0)
  const DefaultLedger := Ledger(None, 0, [])

  /** The schema `_init_db` writes and `_load_db` falls back to. */
  const EmptySchema := Document(map[], Some(ZeroStats), Some(DefaultLedger))

  /** Largest number of events the rate-limit history keeps. */
  const HistoryCap := 10

  /** Python truthiness of an optional string: present and non-empty. */
  predicate TextTruthy(t: Option<string>) {
    t.Some? && |t.value| > 0
  }

  /** Python truthiness of an optional dict: present and non-empty. */
  predicate SentimentTruthy(s: Option<SentimentData>) {
    s.Some? && |s.value| > 0
  }

  /** Python's `limit` in `xs[:limit]`, as a length, for a list of `n` elements. */
  function SliceLen(n: nat, limit: int): (k: nat)
    ensures k <= n
    ensures limit >= 0 ==> k == if limit < n then limit else n
    ensures limit < 0 ==> k + (if -limit < n then -limit else n) == n
  {
    if limit >= 0 then (if limit < n then limit else n)
    else if n + limit > 0 then n + limit else 0
  }

  /**
   * The counters agree with what a full scan can check: one processed count per
   * stored id, and no more responses than processed tweets.
   */
  ghost predicate Consistent(d: Document) {
    && d.stats.Some?
    && d.stats.value.totalProcessed == |d.tweets|
    && 0 <= d.stats.value.totalResponded <= d.stats.value.totalProcessed
  }

  /** Ids whose stored reply text is present (the `is not None` criterion). */
  function WithResponse(tweets: map<string, Record>): set<string> {
    set k | k in tweets && tweets[k].responseText.Some?
  }

  /**
   * The counters also agree with a scan that counts stored replies
   * (`response_text is not None`), which is what the pipeline maintains.
   */
  ghost predicate Tallied(d: Document) {
    Consistent(d) && d.stats.value.totalResponded == |WithResponse(d.tweets)|
  }

  /** Ids whose stored `responded` flag is set. */
  function RespondedIds(tweets: map<string, Record>): set<string> {
    set k | k in tweets && tweets[k].responded
  }

  /** Every key set drawn from the store has at most as many ids as the store. */
  lemma SubsetOfKeys(tweets: map<string, Record>, ids: set<string>)
    requires ids <= tweets.Keys
    ensures |ids| <= |tweets|
  {
    assert |tweets| == |tweets.Keys|;
    SubsetCard(ids, tweets.Keys);
  }

  lemma {:induction false} SubsetCard<T>(a: set<T>, b: set<T>)
    requires a <= b
    ensures |a| <= |b|
    decreases |b|
  {
    if a != {} {
      var x :| x in a;
      SubsetCard(a - {x}, b - {x});
    }
  }
}
