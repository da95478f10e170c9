/**
 * dashboard_simple.py: a dependency-free copy of the store's readers
 * (`SimpleDatabase`, which never writes the file) and the counters and tweets
 * panels built from it.  `SimpleDatabase` holds nothing but the path, so its
 * readers are functions of what is on disk.
 */
module DashboardSimple {
  import opened Schema
  import opened Order
  import opened Storage
  import opened Dashboard

  /** The document a missing or unreadable file reads as: no tweets, zero counters, no ledger. */
  const SimpleFallback := Document(map[], Some(ZeroStats), None)

  /** `SimpleDatabase._load_db`. */
  function SimpleLoad(disk: Disk): (d: Document)
    ensures disk.Parsed? ==> d == disk.doc
    ensures !disk.Parsed? ==> d.tweets == map[] && d.stats == Some(ZeroStats) && d.rateLimits.None?
  {
    match disk
    case Parsed(doc) => doc
    case _ => SimpleFallback
  }

  /** `SimpleDatabase.get_stats`: the stored counters, zero when the file or the section is missing. */
  function SimpleGetStats(disk: Disk): (s: Stats)
    ensures !disk.Parsed? ==> s == ZeroStats
    ensures disk.Parsed? && disk.doc.stats.None? ==> s == ZeroStats
    ensures Consistent(SimpleLoad(disk)) ==>
              s.totalProcessed == |SimpleLoad(disk).tweets| && 0 <= s.totalResponded <= s.totalProcessed
  {
    SimpleLoad(disk).stats.GetOr(ZeroStats)
  }

  /**
   * `SimpleDatabase.get_last_processed_tweets(limit)`: `min(limit, n)` records
   * for a non-negative limit, with their ids, newest first, none older than a
   * record left out.
   */
  method SimpleGetLastProcessedTweets(disk: Disk, limit: int) returns (r: seq<Entry>)
    ensures |r| == SliceLen(|SimpleLoad(disk).tweets|, limit)
    ensures forall i :: 0 <= i < |r| ==>
              r[i].id in SimpleLoad(disk).tweets && SimpleLoad(disk).tweets[r[i].id] == r[i].record
    ensures forall i, j :: 0 <= i < j < |r| ==> r[i].id != r[j].id
    ensures SortedDesc(r, ProcessedAt)
    ensures forall k, i :: k in SimpleLoad(disk).tweets && k !in IdsOf(r) && 0 <= i < |r| ==>
              TextLe(SimpleLoad(disk).tweets[k].processedAt, r[i].record.processedAt)
  {
    r := MostRecent(SimpleLoad(disk).tweets, limit);
  }

  /**
   * The simple readers show the same records and counters as the full store
   * opened on the same file (`content` is what its constructor keeps).
   */
  lemma SimpleReadsLikeStore(disk: Disk, content: Option<Document>)
    requires disk.Absent? ==> content == Some(EmptySchema)
    requires disk.Corrupt? ==> content.None?
    requires disk.Parsed? ==> content == Some(disk.doc)
    ensures SimpleLoad(disk).tweets == Load(content).tweets
    ensures SimpleGetStats(disk) == Load(content).stats.GetOr(ZeroStats)
  {
  }

  /** `get_stats_html` of the simple dashboard, apart from the wall-clock line. */
  function SimpleStatsView(disk: Disk): (p: StatsPanel)
    ensures !disk.Parsed? ==> p == StatsPanel(0, 0, 0.0)
    ensures p.processed == SimpleGetStats(disk).totalProcessed && p.responded == SimpleGetStats(disk).totalResponded
    ensures p.rate == ResponseRate(SimpleGetStats(disk))
    ensures Consistent(SimpleLoad(disk)) ==> p.processed == |SimpleLoad(disk).tweets| && 0.0 <= p.rate <= 100.0
  {
    var stats := SimpleGetStats(disk);
    StatsPanel(stats.totalProcessed, stats.totalResponded, ResponseRate(stats))
  }

  /**
   * `get_tweets_html` of the simple dashboard: the placeholder when nothing is
   * stored, otherwise the cards of the ten newest records, without sentiment.
   */
  method SimpleTweetsView(disk: Disk) returns (panel: TweetsPanel)
    ensures panel.NoTweets? <==> |SimpleLoad(disk).tweets| == 0
    ensures !disk.Parsed? ==> panel.NoTweets?
    ensures panel.Cards? ==> |panel.cards| == SliceLen(|SimpleLoad(disk).tweets|, 10)
    ensures panel.Cards? ==> ShowsNewest(panel.cards, SimpleLoad(disk).tweets, false)
    ensures panel.Cards? ==> forall i :: 0 <= i < |panel.cards| ==> panel.cards[i].sentiment.None?
  {
    var tweets := SimpleGetLastProcessedTweets(disk, 10);
    panel := TweetCards(tweets, false);
    if panel.Cards? {
      CardsShowNewest(SimpleLoad(disk).tweets, tweets, panel.cards, false);
    }
  }
}
