/**
 * How the parts fit together: what the dashboards show for the records the
 * processing pipeline writes, and how the two counter-repair scripts behave on
 * a store the pipeline maintains.
 */
module PipelineViews {
  import opened Schema
  import opened Storage
  import opened Twitter
  import opened Dashboard
  import InspectTweets
  import FixStats

  /** The record `ProcessSingleTweet` writes is `StoredRecord`, and writing it keeps the counters tallied. */
  lemma SingleTweetStoresRecord(d: Document, tweet: Tweet, respond: bool, a: Answers)
    requires Tallied(d) && tweet.id !in d.tweets
    ensures var o := Decide(respond, a);
            var m := Mark(d, tweet.id, o == Responded, Some(tweet.text), StoredReply(o, a),
                          Some(AuthorName(tweet, a.user)), None, a.now);
            && m.Some? && Tallied(m.value)
            && m.value.tweets[tweet.id] == StoredRecord(tweet, respond, a)
  {
    var o := Decide(respond, a);
    MarkKeepsTallied(d, tweet.id, o == Responded, Some(tweet.text), StoredReply(o, a),
                     Some(AuthorName(tweet, a.user)), None, a.now);
  }

  /** The badge the dashboards show for a stored tweet names how its processing ended. */
  lemma BadgeShowsOutcome(tweet: Tweet, respond: bool, a: Answers)
    ensures var b := BadgeOf(StoredRecord(tweet, respond, a));
            var o := Decide(respond, a);
            && (b == Respondido <==> o == Responded)
            && (b == Procesado <==> o == GeneratedNotPublished)
            && (b == Ignorado <==> o == Ignored || o == GenerationFailed)
  {
  }

  /** A freshly created store is tallied. */
  lemma EmptySchemaTallied()
    ensures Tallied(EmptySchema)
  {
    assert WithResponse(EmptySchema.tweets) == {};
  }

  /** On a store whose counters are tallied, `update_stats` writes back what it read. */
  lemma RecountKeepsTallied(d: Document)
    requires Tallied(d)
    ensures InspectTweets.Recounted(d) == d
  {
  }

  /**
   * On records the pipeline writes a set `responded` flag comes with a stored
   * reply, so `fix_stats` never counts more responses than `update_stats`.
   */
  lemma FixCountsNoMoreThanInspect(d: Document)
    requires forall k :: k in d.tweets ==> PipelineRecord(d.tweets[k])
    ensures FixStats.Fixed(d).stats.value.totalResponded <= InspectTweets.Recounted(d).stats.value.totalResponded
  {
    SubsetCard(RespondedIds(d.tweets), WithResponse(d.tweets));
  }

  /**
   * The two scripts disagree on a reply that was generated but not published:
   * `update_stats` counts it as responded, `fix_stats` does not.
   */
  lemma ScriptsDisagreeOnUnpublishedReply()
    ensures var d := Document(map["7" := Record("t", false, Some("u"), Some("x"), Some("reply"), None)],
                              Some(Stats(1, 1)), None);
            && InspectTweets.Recounted(d).stats == Some(Stats(1, 1))
            && FixStats.Fixed(d).stats == Some(Stats(1, 0))
  {
    var d := Document(map["7" := Record("t", false, Some("u"), Some("x"), Some("reply"), None)],
                      Some(Stats(1, 1)), None);
    assert WithResponse(d.tweets) == {"7"};
    assert RespondedIds(d.tweets) == {};
  }
}
