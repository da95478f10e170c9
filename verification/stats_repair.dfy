/**
 * inspect_tweets.py: `update_stats` recomputes both counters by a full scan,
 * counting a tweet as responded when its `response_text` is not None.
 */
module InspectTweets {
  import opened Schema

  /** The document `update_stats` writes back for a loaded document `d`. */
  function Recounted(d: Document): (r: Document)
    ensures r.tweets == d.tweets && r.rateLimits == d.rateLimits
    ensures r.stats.Some? && r.stats.value.totalProcessed == |d.tweets|
    ensures r.stats.value.totalResponded == |WithResponse(d.tweets)|
    ensures Consistent(r)
  {
    SubsetOfKeys(d.tweets, WithResponse(d.tweets));
    d.(stats := Some(Stats(|d.tweets|, |WithResponse(d.tweets)|)))
  }

  /**
   * `update_stats`: the document it writes, or `None` when it returns without
   * writing (missing file, unreadable file, no processed tweets).
   */
  method UpdateStats(disk: Disk) returns (written: Option<Document>)
    ensures written.Some? <==> disk.Parsed? && |disk.doc.tweets| > 0
    ensures written.Some? ==> written.value == Recounted(disk.doc)
  {
    if disk.Absent? || disk.Corrupt? {
      return None;
    }
    var db := disk.doc;
    var processedTweets := db.tweets;
    if |processedTweets| == 0 {
      return None;
    }
    var tweetsWithResponse := WithResponse(processedTweets);
    // a missing section is created empty, then both keys are assigned
    var stats := db.stats.GetOr(ZeroStats);
    stats := stats.(totalProcessed := |processedTweets|);
    stats := stats.(totalResponded := |tweetsWithResponse|);
    db := db.(stats := Some(stats));
    written := Some(db);
  }

  /** A second run writes the same document: the recount is idempotent. */
  lemma RecountIdempotent(d: Document)
    ensures Recounted(Recounted(d)) == Recounted(d)
  {
  }
}

/**
 * fix_stats.py: `fix_stats` recomputes both counters by a full scan, counting a
 * tweet as responded when its `responded` flag is set.
 */
module FixStats {
  import opened Schema

  /** The document `fix_stats` writes back for a loaded document `d`. */
  function Fixed(d: Document): (r: Document)
    ensures r.tweets == d.tweets && r.rateLimits == d.rateLimits
    ensures r.stats.Some? && r.stats.value.totalProcessed == |d.tweets|
    ensures r.stats.value.totalResponded == |RespondedIds(d.tweets)|
    ensures Consistent(r)
  {
    SubsetOfKeys(d.tweets, RespondedIds(d.tweets));
    d.(stats := Some(Stats(|d.tweets|, |RespondedIds(d.tweets)|)))
  }

  /**
   * `fix_stats`: the document it writes, or `None` when it returns without
   * writing (missing file, invalid JSON or another read error).  An empty store
   * is written back with zero counters.
   */
  method FixStats(disk: Disk) returns (written: Option<Document>)
    ensures written.Some? <==> disk.Parsed?
    ensures written.Some? ==> written.value == Fixed(disk.doc)
    ensures written.Some? && disk.doc.tweets == map[] ==> written.value.stats == Some(ZeroStats)
  {
    if disk.Absent? || disk.Corrupt? {
      return None;
    }
    var db := disk.doc;
    var processedTweets := db.tweets;
    var totalProcessed := |processedTweets|;
    var totalResponded := |RespondedIds(processedTweets)|;
    var stats := db.stats.GetOr(ZeroStats);
    stats := stats.(totalProcessed := totalProcessed);
    stats := stats.(totalResponded := totalResponded);
    db := db.(stats := Some(stats));
    written := Some(db);
  }

  /** A second run writes the same document: the fix is idempotent. */
  lemma FixIdempotent(d: Document)
    ensures Fixed(Fixed(d)) == Fixed(d)
  {
  }
}
