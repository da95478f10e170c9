/**
 * The record store of utils/database.py.  The `Database` object keeps no state
 * of its own besides the path of its JSON file: every operation loads the whole
 * document, changes it and writes it back.  Here the file's parsed content is the
 * object's one field; the functions on `Document` say what each mutation makes of
 * the document it loaded, and the lemmas say what the counters and the ledger
 * keep.  Timestamps (`datetime.now().isoformat()`) are passed in as `now`.
 */
module Storage {
  import opened Schema
  import opened Order

  /** `_load_db`: a file whose text is not valid JSON reads as the empty schema. */
  function Load(content: Option<Document>): (d: Document)
    ensures content.None? ==> d.tweets == map[] && d.stats == Some(ZeroStats) && d.rateLimits == Some(DefaultLedger)
    ensures content.Some? ==> d == content.value
  {
    match content
    case Some(doc) => doc
    case None => EmptySchema
  }

  /**
   * The record `mark_tweet_processed` writes under the id: a full overwrite with
   * the supplied fields, `sentiment` only when the supplied payload is truthy.
   */
  function NewRecord(
    responded: bool, tweetText: Option<string>, responseText: Option<string>,
    authorUsername: Option<string>, sentimentData: Option<SentimentData>, now: string): Record
  {
    Record(now, responded, authorUsername, tweetText, responseText,
           if SentimentTruthy(sentimentData) then sentimentData else None)
  }

  /**
   * What `mark_tweet_processed` makes of the loaded document; `None` when it
   * raises before saving, which happens exactly when the id is new and the
   * document has no `stats` section (`db["stats"]` is a KeyError).  The counters
   * move only for a new id: `total_processed` by one, and `total_responded` by
   * one when the reply text is truthy.  For an id already present the
   * "had a response before" test reads the record just overwritten, so it never
   * adds to `total_responded`.
   */
  function Mark(
    d: Document, tweetId: string, responded: bool, tweetText: Option<string>,
    responseText: Option<string>, authorUsername: Option<string>,
    sentimentData: Option<SentimentData>, now: string): Option<Document>
  {
    var tweets := d.tweets[tweetId := NewRecord(responded, tweetText, responseText, authorUsername, sentimentData, now)];
    if tweetId in d.tweets then
      Some(d.(tweets := tweets))
    else if d.stats.None? then
      None
    else
      var s := d.stats.value;
      var bump := if TextTruthy(responseText) then 1 else 0;
      Some(d.(tweets := tweets, stats := Some(Stats(s.totalProcessed + 1, s.totalResponded + bump))))
  }

  /** `record_rate_limit(wait_seconds, endpoint)` applied to the loaded document. */
  function WithRateLimit(d: Document, waitSeconds: int, endpoint: Option<string>, now: string): (r: Document)
    ensures r.tweets == d.tweets && r.stats == d.stats
    ensures r.rateLimits.Some?
    ensures r.rateLimits.value.lastEncounter == Some(now) && r.rateLimits.value.waitSeconds == waitSeconds
    ensures var old_ := d.rateLimits.GetOr(DefaultLedger).history;
            var h := r.rateLimits.value.history;
            && |h| == (if |old_| + 1 < HistoryCap then |old_| + 1 else HistoryCap)
            && h == (old_ + [RateEvent(now, waitSeconds, endpoint)])[|old_| + 1 - |h|..]
            && h[|h| - 1] == RateEvent(now, waitSeconds, endpoint)
  {
    var ledger := d.rateLimits.GetOr(DefaultLedger);
    var h := ledger.history + [RateEvent(now, waitSeconds, endpoint)];
    d.(rateLimits := Some(Ledger(Some(now), waitSeconds, if |h| > HistoryCap then h[|h| - HistoryCap..] else h)))
  }

  class Database {
    /** The parsed content of the store file; `None` while its text is not valid JSON. */
    var content: Option<Document>

    /**
     * `__init__` / `_init_db`: a missing file is created holding the empty
     * schema; an existing file is left as it is, even one that does not parse.
     */
    constructor (onDisk: Disk)
      ensures onDisk.Absent? ==> content == Some(EmptySchema)
      ensures onDisk.Corrupt? ==> content == None
      ensures onDisk.Parsed? ==> content == Some(onDisk.doc)
    {
      match onDisk
      case Absent => content := Some(EmptySchema);
      case Corrupt => content := None;
      case Parsed(doc) => content := Some(doc);
    }

    /** The document every operation starts from (`_load_db`). */
    function Loaded(): Document
      reads this
    {
      Load(content)
    }

    /** `is_tweet_processed`: no id on a file that does not parse, otherwise exactly the ids it stores. */
    predicate IsTweetProcessed(tweetId: string)
      reads this
      ensures content.None? ==> !IsTweetProcessed(tweetId)
      ensures content.Some? ==> (IsTweetProcessed(tweetId) <==> tweetId in content.value.tweets)
    {
      tweetId in Loaded().tweets
    }

    /** `get_tweet_details`: the stored record, or `None` for an id never stored. */
    function GetTweetDetails(tweetId: string): (r: Option<Record>)
      reads this
      ensures r.Some? <==> IsTweetProcessed(tweetId)
      ensures r.Some? ==> r.value == Loaded().tweets[tweetId]
    {
      if tweetId in Loaded().tweets then Some(Loaded().tweets[tweetId]) else None
    }

    /** `get_stats`: the stored counters, zeros when the section is missing. */
    function GetStats(): (r: Stats)
      reads this
      ensures Loaded().stats.None? ==> r == ZeroStats
      ensures Loaded().stats.Some? ==> r == Loaded().stats.value
      ensures Consistent(Loaded()) ==> r.totalProcessed == |Loaded().tweets| && 0 <= r.totalResponded <= r.totalProcessed
    {
      Loaded().stats.GetOr(ZeroStats)
    }

    /** `get_rate_limit_info`: the ledger, the default shape when it is missing. */
    function GetRateLimitInfo(): (r: Ledger)
      reads this
      ensures Loaded().rateLimits.None? ==> r == DefaultLedger
      ensures Loaded().rateLimits.Some? ==> r == Loaded().rateLimits.value
    {
      Loaded().rateLimits.GetOr(DefaultLedger)
    }

    /**
     * `mark_tweet_processed`, step by step as the source does it: the record is
     * overwritten first, and the "already had a response" test then reads the
     * overwritten record.  `saved` is false when the source raises before saving.
     */
    method MarkTweetProcessed(
      tweetId: string, responded: bool, tweetText: Option<string>, responseText: Option<string>,
      authorUsername: Option<string>, sentimentData: Option<SentimentData>, now: string)
      returns (saved: bool)
      modifies this
      ensures var m := Mark(old(Loaded()), tweetId, responded, tweetText, responseText, authorUsername, sentimentData, now);
              && saved == m.Some?
              && content == if saved then Some(m.value) else old(content)
      ensures saved ==> IsTweetProcessed(tweetId)
    {
      var db := Loaded();
      var alreadyProcessed := tweetId in db.tweets;
      db := db.(tweets := db.tweets[tweetId := Record(now, responded, authorUsername, tweetText, responseText, None)]);
      if SentimentTruthy(sentimentData) {
        db := db.(tweets := db.tweets[tweetId := db.tweets[tweetId].(sentiment := sentimentData)]);
      }
      assert db.tweets == Loaded().tweets[tweetId := NewRecord(responded, tweetText, responseText, authorUsername, sentimentData, now)];
      if !alreadyProcessed {
        if db.stats.None? {
          return false;
        }
        db := db.(stats := Some(db.stats.value.(totalProcessed := db.stats.value.totalProcessed + 1)));
      }
      if TextTruthy(responseText) {
        var oldResponse := false;
        if alreadyProcessed {
          oldResponse := db.tweets[tweetId].responseText.Some?;
        }
        if !alreadyProcessed || !oldResponse {
          db := db.(stats := Some(db.stats.value.(totalResponded := db.stats.value.totalResponded + 1)));
        }
      }
      content := Some(db);
      saved := true;
    }

    /** `record_rate_limit`: creates a missing section, appends, keeps the last ten. */
    method RecordRateLimit(waitSeconds: int, endpoint: Option<string>, now: string)
      modifies this
      ensures content == Some(WithRateLimit(old(Loaded()), waitSeconds, endpoint, now))
    {
      var db := Loaded();
      if db.rateLimits.None? {
        db := db.(rateLimits := Some(DefaultLedger));
      }
      var ledger := db.rateLimits.value;
      ledger := ledger.(lastEncounter := Some(now), waitSeconds := waitSeconds);
      ledger := ledger.(history := ledger.history + [RateEvent(now, waitSeconds, endpoint)]);
      if |ledger.history| > HistoryCap {
        ledger := ledger.(history := ledger.history[|ledger.history| - HistoryCap..]);
      }
      db := db.(rateLimits := Some(ledger));
      content := Some(db);
    }

    /** `get_last_processed_tweets(limit)`: the latest records first, at most `limit`. */
    method GetLastProcessedTweets(limit: int) returns (r: seq<Entry>)
      ensures |r| == SliceLen(|Loaded().tweets|, limit)
      ensures forall i :: 0 <= i < |r| ==> IsTweetProcessed(r[i].id) && GetTweetDetails(r[i].id) == Some(r[i].record)
      ensures forall i, j :: 0 <= i < j < |r| ==> r[i].id != r[j].id
      ensures SortedDesc(r, ProcessedAt)
      ensures forall k, i :: k in Loaded().tweets && k !in IdsOf(r) && 0 <= i < |r| ==>
                TextLe(Loaded().tweets[k].processedAt, r[i].record.processedAt)
    {
      r := MostRecent(Loaded().tweets, limit);
    }
  }

  /** After a successful mark the id holds exactly the supplied fields; no other id and not the ledger changes. */
  lemma MarkStoresRecord(
    d: Document, tweetId: string, responded: bool, tweetText: Option<string>,
    responseText: Option<string>, authorUsername: Option<string>,
    sentimentData: Option<SentimentData>, now: string)
    requires Mark(d, tweetId, responded, tweetText, responseText, authorUsername, sentimentData, now).Some?
    ensures var r := Mark(d, tweetId, responded, tweetText, responseText, authorUsername, sentimentData, now).value;
            && tweetId in r.tweets
            && r.tweets[tweetId] == Record(now, responded, authorUsername, tweetText, responseText,
                                            if SentimentTruthy(sentimentData) then sentimentData else None)
            && (forall k :: k != tweetId ==> (k in r.tweets <==> k in d.tweets))
            && (forall k :: k != tweetId && k in d.tweets ==> r.tweets[k] == d.tweets[k])
            && r.rateLimits == d.rateLimits
  {
  }

  /**
   * The counters: `total_processed` grows by one exactly for a new id;
   * `total_responded` grows by one exactly for a new id with a truthy reply, and
   * never when an id already present is marked again.
   */
  lemma MarkCounters(
    d: Document, tweetId: string, responded: bool, tweetText: Option<string>,
    responseText: Option<string>, authorUsername: Option<string>,
    sentimentData: Option<SentimentData>, now: string)
    requires d.stats.Some?
    ensures var m := Mark(d, tweetId, responded, tweetText, responseText, authorUsername, sentimentData, now);
            && m.Some? && m.value.stats.Some?
            && m.value.stats.value.totalProcessed == d.stats.value.totalProcessed + (if tweetId in d.tweets then 0 else 1)
            && m.value.stats.value.totalResponded ==
                 d.stats.value.totalResponded + (if tweetId !in d.tweets && TextTruthy(responseText) then 1 else 0)
  {
  }

  /** Marking keeps the counters in agreement with the stored ids. */
  lemma MarkPreservesConsistent(
    d: Document, tweetId: string, responded: bool, tweetText: Option<string>,
    responseText: Option<string>, authorUsername: Option<string>,
    sentimentData: Option<SentimentData>, now: string)
    requires Consistent(d)
    ensures var m := Mark(d, tweetId, responded, tweetText, responseText, authorUsername, sentimentData, now);
            m.Some? && Consistent(m.value)
  {
    var rec := NewRecord(responded, tweetText, responseText, authorUsername, sentimentData, now);
    var tweets := d.tweets[tweetId := rec];
    if tweetId in d.tweets {
      assert tweets.Keys == d.tweets.Keys;
    } else {
      assert tweets.Keys == d.tweets.Keys + {tweetId};
    }
    assert |tweets| == |tweets.Keys| && |d.tweets| == |d.tweets.Keys|;
  }

  /**
   * A new id whose reply is absent or non-empty keeps `total_responded` equal to
   * the number of stored replies: the counter moves exactly when a reply is
   * stored.
   */
  lemma MarkKeepsTallied(
    d: Document, tweetId: string, responded: bool, tweetText: Option<string>,
    responseText: Option<string>, authorUsername: Option<string>,
    sentimentData: Option<SentimentData>, now: string)
    requires Tallied(d) && tweetId !in d.tweets
    requires responseText.None? || TextTruthy(responseText)
    ensures var m := Mark(d, tweetId, responded, tweetText, responseText, authorUsername, sentimentData, now);
            m.Some? && Tallied(m.value)
  {
    MarkPreservesConsistent(d, tweetId, responded, tweetText, responseText, authorUsername, sentimentData, now);
    var rec := NewRecord(responded, tweetText, responseText, authorUsername, sentimentData, now);
    var tweets := d.tweets[tweetId := rec];
    if responseText.Some? {
      assert WithResponse(tweets) == WithResponse(d.tweets) + {tweetId};
    } else {
      assert WithResponse(tweets) == WithResponse(d.tweets);
    }
  }

  /**
   * An id first stored without a reply and marked again with a reply does not
   * add to `total_responded`: the source reads the "old" reply after
   * overwriting it.
   */
  lemma RemarkWithReplyNotCounted(
    d: Document, tweetId: string, responded: bool, tweetText: Option<string>,
    responseText: Option<string>, authorUsername: Option<string>,
    sentimentData: Option<SentimentData>, now: string)
    requires tweetId in d.tweets && d.tweets[tweetId].responseText.None?
    requires TextTruthy(responseText)
    ensures var m := Mark(d, tweetId, responded, tweetText, responseText, authorUsername, sentimentData, now);
            m.Some? && m.value.stats == d.stats && m.value.tweets[tweetId].responseText == responseText
  {
  }

  /** Marking the same id twice counts it once: the counters after two marks equal those after one. */
  lemma MarkTwiceCountsOnce(
    d: Document, tweetId: string, responded: bool, tweetText: Option<string>,
    responseText: Option<string>, authorUsername: Option<string>,
    sentimentData: Option<SentimentData>, now: string, later: string)
    requires Mark(d, tweetId, responded, tweetText, responseText, authorUsername, sentimentData, now).Some?
    ensures var once := Mark(d, tweetId, responded, tweetText, responseText, authorUsername, sentimentData, now).value;
            var twice := Mark(once, tweetId, responded, tweetText, responseText, authorUsername, sentimentData, later);
            twice.Some? && twice.value.stats == once.stats && twice.value.tweets.Keys == once.tweets.Keys
  {
    var once := Mark(d, tweetId, responded, tweetText, responseText, authorUsername, sentimentData, now).value;
    assert tweetId in once.tweets;
  }

  /** On an empty store, marking "1" with the reply "hi" gives one processed and one responded. */
  lemma FirstMarkOnEmptyStore(responded: bool, tweetText: Option<string>, now: string)
    ensures var m := Mark(EmptySchema, "1", responded, tweetText, Some("hi"), None, None, now);
            && m.Some? && "1" in m.value.tweets
            && m.value.stats == Some(Stats(1, 1))
  {
    assert TextTruthy(Some("hi"));
  }

  /** Recording a rate limit touches neither the records nor the counters, so it keeps them consistent. */
  lemma RateLimitPreservesConsistent(d: Document, waitSeconds: int, endpoint: Option<string>, now: string)
    requires Consistent(d)
    ensures Consistent(WithRateLimit(d, waitSeconds, endpoint, now))
  {
  }

  /** A store that does not parse behaves as an empty one: zero counters, no ids, the default ledger. */
  lemma CorruptStoreReadsEmpty(db: Database, tweetId: string)
    requires db.content.None?
    ensures db.GetStats() == ZeroStats
    ensures !db.IsTweetProcessed(tweetId) && db.GetTweetDetails(tweetId).None?
    ensures db.GetRateLimitInfo() == DefaultLedger
  {
  }
}
