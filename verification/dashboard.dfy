/**
 * dashboard.py: the formatting and classification rules behind the three
 * panels (counters, rate limits, recent tweets).  A panel is modelled as the
 * structured content its HTML shows; the markup itself is not.
 */
module Dashboard {
  import opened Schema
  import opened Order
  import opened Storage

  // ---------------------------------------------------------------------------
  // Decimal text of naturals, as `f"{int(n)}"` prints them

  predicate IsDigit(c: char) {
    '0' <= c <= '9'
  }

  predicate AllDigits(s: string) {
    forall i :: 0 <= i < |s| ==> IsDigit(s[i])
  }

  function DigitChar(d: nat): (c: char)
    requires d < 10
    ensures IsDigit(c) && c as int - '0' as int == d
  {
    ('0' as int + d) as char
  }

  function DigitValue(c: char): nat
    requires IsDigit(c)
  {
    c as int - '0' as int
  }

  /** The decimal digits of `n`, most significant first, without leading zeros. */
  function ShowNat(n: nat): (s: string)
    ensures |s| > 0 && AllDigits(s)
  {
    if n < 10 then [DigitChar(n)] else ShowNat(n / 10) + [DigitChar(n % 10)]
  }

  /** The value of a string of decimal digits (a character that is no digit counts as 0). */
  function ParseNat(s: string): nat {
    if s == [] then 0
    else ParseNat(s[..|s| - 1]) * 10 + (if IsDigit(s[|s| - 1]) then DigitValue(s[|s| - 1]) else 0)
  }

  lemma {:induction false} ParseShowNat(n: nat)
    ensures ParseNat(ShowNat(n)) == n
  {
    if n >= 10 {
      ParseShowNat(n / 10);
      var s := ShowNat(n);
      assert s[..|s| - 1] == ShowNat(n / 10);
    }
  }

  // ---------------------------------------------------------------------------
  // format_seconds

  /** The hours, minutes and seconds of a duration. */
  datatype Clock = Clock(hours: int, minutes: int, secs: int)

  /**
   * The two `divmod` steps of `format_seconds`.  Both divide by 60, where
   * Python's floor division and Dafny's Euclidean division agree.
   */
  function Split(seconds: int): (c: Clock)
    ensures c.hours * 3600 + c.minutes * 60 + c.secs == seconds
    ensures 0 <= c.minutes < 60 && 0 <= c.secs < 60
    ensures seconds >= 0 ==> c.hours >= 0
  {
    var minutes, sec := seconds / 60, seconds % 60;
    var hours, mins := minutes / 60, minutes % 60;
    assert minutes == hours * 60 + mins;
    Clock(hours, mins, sec)
  }

  /**
   * `format_seconds(seconds)`: "0 segundos" for zero, otherwise the non-zero
   * leading units followed by every smaller one.
   */
  function FormatSeconds(seconds: int): (t: string)
    ensures seconds == 0 <==> t == "0 segundos"
    ensures seconds != 0 && Split(seconds).hours > 0 ==>
      t == ShowNat(Split(seconds).hours) + "h " + ShowNat(Split(seconds).minutes) + "m " + ShowNat(Split(seconds).secs) + "s"
    ensures seconds != 0 && Split(seconds).hours <= 0 && Split(seconds).minutes > 0 ==>
      t == ShowNat(Split(seconds).minutes) + "m " + ShowNat(Split(seconds).secs) + "s"
    ensures seconds != 0 && Split(seconds).hours <= 0 && Split(seconds).minutes == 0 ==>
      t == ShowNat(Split(seconds).secs) + "s"
  {
    if seconds == 0 then "0 segundos"
    else
      var c := Split(seconds);
      var t :=
        if c.hours > 0 then ShowNat(c.hours) + "h " + ShowNat(c.minutes) + "m " + ShowNat(c.secs) + "s"
        else if c.minutes > 0 then ShowNat(c.minutes) + "m " + ShowNat(c.secs) + "s"
        else ShowNat(c.secs) + "s";
      assert IsDigit(t[|t| - 2]) && !IsDigit("0 segundos"[8]);
      t
  }

  // ---------------------------------------------------------------------------
  // An independent reader of the duration texts

  /** The unit letters of a duration text. */
  predicate IsUnit(u: char) {
    u == 'h' || u == 'm' || u == 's'
  }

  /** `n` units of `u`, in seconds. */
  function Scale(n: int, u: char): int {
    if u == 'h' then n * 3600 else if u == 'm' then n * 60 else n
  }

  /**
   * Reads a space-separated list of parts "<digits><unit>" such as "2h 5m 9s"
   * one character at a time: `total` is the value of the parts read so far and
   * `number` the value of the digits of the current part (`None` before its
   * first digit).
   */
  function Scan(t: string, total: int, number: Option<nat>): Option<int>
    decreases |t|
  {
    if t == [] then None
    else if IsDigit(t[0]) then Scan(t[1..], total, Some(number.GetOr(0) * 10 + DigitValue(t[0])))
    else if number.None? || !IsUnit(t[0]) then None
    else if |t| == 1 then Some(total + Scale(number.value, t[0]))
    else if t[1] == ' ' then Scan(t[2..], total + Scale(number.value, t[0]), None)
    else None
  }

  /** The number of seconds a duration text stands for, if it is well formed. */
  function DurationValue(t: string): Option<int> {
    if t == "0 segundos" then Some(0) else Scan(t, 0, None)
  }

  /** The digits at the start of a part are read as their decimal value. */
  lemma {:induction false} ScanDigits(ds: string, rest: string, total: int)
    requires |ds| > 0 && AllDigits(ds)
    ensures Scan(ds + rest, total, None) == Scan(rest, total, Some(ParseNat(ds)))
    decreases |ds|
  {
    var front, d := ds[..|ds| - 1], ds[|ds| - 1];
    if front == [] {
      assert (ds + rest)[1..] == rest;
    } else {
      assert ds + rest == front + ([d] + rest);
      ScanDigits(front, [d] + rest, total);
      assert ([d] + rest)[1..] == rest;
    }
  }

  /** A unit letter closes the part, followed by a space and more parts. */
  lemma UnitThen(u: char, rest: string, total: int, n: nat)
    requires IsUnit(u)
    ensures Scan([u, ' '] + rest, total, Some(n)) == Scan(rest, total + Scale(n, u), None)
  {
    assert ([u, ' '] + rest)[2..] == rest;
  }

  lemma RegroupMinutes(dm: string, ds: string)
    ensures dm + "m " + ds + "s" == dm + (['m', ' '] + (ds + "s"))
  {
    assert "m " == ['m', ' '];
  }

  lemma RegroupHours(dh: string, dm: string, ds: string)
    ensures dh + "h " + dm + "m " + ds + "s" == dh + (['h', ' '] + (dm + "m " + ds + "s"))
  {
    assert "h " == ['h', ' '];
  }

  /** "<s>s" adds `s` seconds. */
  lemma SecondsReadBack(sec: nat, total: int)
    ensures Scan(ShowNat(sec) + "s", total, None) == Some(total + sec)
  {
    ScanDigits(ShowNat(sec), "s", total);
    ParseShowNat(sec);
  }

  /** "<m>m <s>s" adds `m` minutes and `s` seconds. */
  lemma MinutesReadBack(m: nat, sec: nat, total: int)
    ensures Scan(ShowNat(m) + "m " + ShowNat(sec) + "s", total, None) == Some(total + m * 60 + sec)
  {
    var rest := ShowNat(sec) + "s";
    RegroupMinutes(ShowNat(m), ShowNat(sec));
    ScanDigits(ShowNat(m), ['m', ' '] + rest, total);
    ParseShowNat(m);
    UnitThen('m', rest, total, m);
    SecondsReadBack(sec, total + m * 60);
  }

  /** "<h>h <m>m <s>s" adds `h` hours, `m` minutes and `s` seconds. */
  lemma HoursReadBack(h: nat, m: nat, sec: nat)
    ensures Scan(ShowNat(h) + "h " + ShowNat(m) + "m " + ShowNat(sec) + "s", 0, None) == Some(h * 3600 + m * 60 + sec)
  {
    var rest := ShowNat(m) + "m " + ShowNat(sec) + "s";
    RegroupHours(ShowNat(h), ShowNat(m), ShowNat(sec));
    ScanDigits(ShowNat(h), ['h', ' '] + rest, 0);
    ParseShowNat(h);
    UnitThen('h', rest, 0, h);
    MinutesReadBack(m, sec, h * 3600);
  }

  /** Every duration of zero or more seconds reads back as itself. */
  lemma FormatSecondsReadsBack(seconds: nat)
    ensures DurationValue(FormatSeconds(seconds)) == Some(seconds)
  {
    if seconds != 0 {
      var c := Split(seconds);
      if c.hours > 0 {
        HoursReadBack(c.hours, c.minutes, c.secs);
      } else if c.minutes > 0 {
        MinutesReadBack(c.minutes, c.secs, 0);
      } else {
        SecondsReadBack(c.secs, 0);
      }
    }
  }

  // ---------------------------------------------------------------------------
  // get_stats_html

  /** `(responded / processed * 100) if processed > 0 else 0`, as an exact real. */
  function ResponseRate(s: Stats): (rate: real)
    ensures s.totalProcessed <= 0 ==> rate == 0.0
    ensures s.totalProcessed > 0 ==> rate * (s.totalProcessed as real) == (s.totalResponded as real) * 100.0
    ensures 0 <= s.totalResponded <= s.totalProcessed ==> 0.0 <= rate <= 100.0
  {
    if s.totalProcessed > 0 then (s.totalResponded as real) / (s.totalProcessed as real) * 100.0 else 0.0
  }

  /** The figures the counters panel shows. */
  datatype StatsPanel = StatsPanel(processed: int, responded: int, rate: real)

  /** `get_stats_html`, apart from the wall-clock "last update" line. */
  function StatsView(db: Database): (p: StatsPanel)
    reads db
    ensures Consistent(db.Loaded()) ==> p.processed == |db.Loaded().tweets| && 0.0 <= p.rate <= 100.0
    ensures db.Loaded().stats.None? ==> p == StatsPanel(0, 0, 0.0)
    ensures p.processed == db.GetStats().totalProcessed && p.responded == db.GetStats().totalResponded
    ensures p.rate == ResponseRate(db.GetStats())
  {
    var stats := db.GetStats();
    StatsPanel(stats.totalProcessed, stats.totalResponded, ResponseRate(stats))
  }

  // ---------------------------------------------------------------------------
  // get_rate_limit_html

  /** One row of the history table: the stored timestamp, the formatted wait, the endpoint. */
  datatype HistoryRow = HistoryRow(timestamp: string, wait: string, endpoint: Option<string>)

  datatype RatePanel =
    | NoRateLimits
    | RateStatus(wait: string, rows: seq<HistoryRow>)

  function RowOf(e: RateEvent): HistoryRow {
    HistoryRow(e.timestamp, FormatSeconds(e.waitSeconds), e.endpoint)
  }

  /** The sort key of the history table: `x.get('timestamp', '')`. */
  function EventTime(e: RateEvent): string {
    e.timestamp
  }

  /** `rows` shows the events of `events`, one row each, in order. */
  ghost predicate RowsShow(rows: seq<HistoryRow>, events: seq<RateEvent>) {
    |rows| == |events| && forall i :: 0 <= i < |rows| ==> rows[i] == RowOf(events[i])
  }

  /** The history table's rows, built one event at a time. */
  method HistoryRows(events: seq<RateEvent>) returns (rows: seq<HistoryRow>)
    ensures RowsShow(rows, events)
  {
    rows := [];
    for i := 0 to |events|
      invariant RowsShow(rows, events[..i])
    {
      rows := rows + [RowOf(events[i])];
    }
    assert events[..|events|] == events;
  }

  /**
   * `get_rate_limit_html` given the ledger: nothing but a notice when no rate
   * limit was ever recorded, otherwise the formatted wait and one row per
   * history event, newest timestamp first.
   */
  method RateLimitView(info: Ledger) returns (panel: RatePanel)
    ensures panel.NoRateLimits? <==> !TextTruthy(info.lastEncounter)
    ensures panel.RateStatus? ==> panel.wait == FormatSeconds(info.waitSeconds)
    ensures panel.RateStatus? ==> exists events ::
              multiset(events) == multiset(info.history) && SortedDesc(events, EventTime)
              && RowsShow(panel.rows, events)
  {
    if !TextTruthy(info.lastEncounter) {
      return NoRateLimits;
    }
    var sorted := SortDesc(info.history, EventTime);
    SortDescSorted(info.history, EventTime);
    var rows := HistoryRows(sorted);
    assert multiset(sorted) == multiset(info.history) && SortedDesc(sorted, EventTime) && RowsShow(rows, sorted);
    panel := RateStatus(FormatSeconds(info.waitSeconds), rows);
  }

  // ---------------------------------------------------------------------------
  // get_tweets_html

  /** The status badge of a stored tweet. */
  datatype Badge = Respondido | Procesado | Ignorado

  function BadgeOf(r: Record): (b: Badge)
    ensures b == Respondido <==> r.responded
    ensures b == Procesado <==> !r.responded && r.responseText.Some?
    ensures b == Ignorado <==> !r.responded && r.responseText.None?
  {
    if r.responded then Respondido
    else if r.responseText.Some? then Procesado
    else Ignorado
  }

  /** The colour class of a sentiment label. */
  datatype Tone = Positive | Negative | Neutral

  datatype SentimentTag = SentimentTag(caption: string, tone: Tone)

  /** The sentiment line: shown only when the record holds a non-empty payload. */
  function SentimentOf(r: Record): (s: Option<SentimentTag>)
    ensures s.Some? <==> SentimentTruthy(r.sentiment)
    ensures s.Some? ==> (s.value.tone == Positive <==> s.value.caption == "positive")
    ensures s.Some? ==> (s.value.tone == Negative <==> s.value.caption == "negative")
    ensures s.Some? && "label" !in r.sentiment.value ==> s.value == SentimentTag("desconocido", Neutral)
  {
    if SentimentTruthy(r.sentiment) then
      var data := r.sentiment.value;
      var caption := if "label" in data then data["label"] else "desconocido";
      var tone := if caption == "positive" then Positive else if caption == "negative" then Negative else Neutral;
      Some(SentimentTag(caption, tone))
    else None
  }

  /** What one tweet card shows. */
  datatype Card = Card(
    number: nat,
    badge: Badge,
    author: Option<string>,
    processedAt: string,
    id: string,
    sentiment: Option<SentimentTag>,
    tweetText: Option<string>,
    reply: Option<string>)

  datatype TweetsPanel = NoTweets | Cards(cards: seq<Card>)

  /** The card of the `number`-th listed tweet; the reply block only when a reply is stored. */
  function CardOf(number: nat, e: Entry, showSentiment: bool): Card {
    Card(number, BadgeOf(e.record), e.record.authorUsername, e.record.processedAt, e.id,
         if showSentiment then SentimentOf(e.record) else None,
         e.record.tweetText, e.record.responseText)
  }

  /**
   * The card loop shared by both dashboards (`showSentiment` is off in the
   * simple one): a placeholder for an empty listing, otherwise one card per
   * listed tweet, numbered from 1 in listing order.
   */
  method TweetCards(tweets: seq<Entry>, showSentiment: bool) returns (panel: TweetsPanel)
    ensures panel.NoTweets? <==> tweets == []
    ensures panel.Cards? ==> |panel.cards| == |tweets|
    ensures panel.Cards? ==> forall i :: 0 <= i < |tweets| ==>
              && panel.cards[i].number == i + 1
              && panel.cards[i].id == tweets[i].id
              && panel.cards[i].badge == BadgeOf(tweets[i].record)
              && panel.cards[i].author == tweets[i].record.authorUsername
              && panel.cards[i].processedAt == tweets[i].record.processedAt
              && panel.cards[i].tweetText == tweets[i].record.tweetText
              && panel.cards[i].reply == tweets[i].record.responseText
              && panel.cards[i].sentiment == (if showSentiment then SentimentOf(tweets[i].record) else None)
  {
    if tweets == [] {
      return NoTweets;
    }
    var cards: seq<Card> := [];
    for i := 0 to |tweets|
      invariant |cards| == i
      invariant forall j :: 0 <= j < i ==> cards[j] == CardOf(j + 1, tweets[j], showSentiment)
    {
      cards := cards + [CardOf(i + 1, tweets[i], showSentiment)];
    }
    panel := Cards(cards);
  }

  /** The ids the cards show. */
  function CardIds(cards: seq<Card>): set<string> {
    set i | 0 <= i < |cards| :: cards[i].id
  }

  /**
   * `cards` shows stored tweets of `tweets`, numbered from 1, each card built
   * from its id's stored record, no id twice, newest first, and no tweet left
   * out was processed later than a shown one.
   */
  ghost predicate ShowsNewest(cards: seq<Card>, tweets: map<string, Record>, showSentiment: bool) {
    && (forall i :: 0 <= i < |cards| ==>
          cards[i].id in tweets && cards[i] == CardOf(i + 1, Entry(cards[i].id, tweets[cards[i].id]), showSentiment))
    && (forall i, j :: 0 <= i < j < |cards| ==> cards[i].id != cards[j].id)
    && (forall i, j :: 0 <= i < j < |cards| ==> TextLe(cards[j].processedAt, cards[i].processedAt))
    && (forall k, i :: k in tweets && k !in CardIds(cards) && 0 <= i < |cards| ==>
          TextLe(tweets[k].processedAt, cards[i].processedAt))
  }

  /** The cards of a listing with `MostRecent`'s guarantees show the newest tweets of the store. */
  lemma CardsShowNewest(tweets: map<string, Record>, list: seq<Entry>, cards: seq<Card>, showSentiment: bool)
    requires forall i :: 0 <= i < |list| ==> list[i].id in tweets && tweets[list[i].id] == list[i].record
    requires forall i, j :: 0 <= i < j < |list| ==> list[i].id != list[j].id
    requires SortedDesc(list, ProcessedAt)
    requires forall k, i :: k in tweets && k !in IdsOf(list) && 0 <= i < |list| ==>
               TextLe(tweets[k].processedAt, list[i].record.processedAt)
    requires |cards| == |list| && forall i :: 0 <= i < |list| ==> cards[i] == CardOf(i + 1, list[i], showSentiment)
    ensures ShowsNewest(cards, tweets, showSentiment)
  {
    assert CardIds(cards) == IdsOf(list) by {
      forall k | k in IdsOf(list) ensures k in CardIds(cards) {
        var i :| 0 <= i < |list| && list[i].id == k;
        assert cards[i].id == k;
      }
    }
    forall i, j | 0 <= i < j < |cards|
      ensures TextLe(cards[j].processedAt, cards[i].processedAt)
    {
      assert ProcessedAt(list[i]) == cards[i].processedAt && ProcessedAt(list[j]) == cards[j].processedAt;
    }
  }

  /**
   * `get_tweets_html`: the placeholder when nothing is stored, otherwise the
   * cards of the ten most recently processed tweets, newest first.
   */
  method TweetsView(db: Database) returns (panel: TweetsPanel)
    ensures panel.NoTweets? <==> |db.Loaded().tweets| == 0
    ensures panel.Cards? ==> |panel.cards| == SliceLen(|db.Loaded().tweets|, 10)
    ensures panel.Cards? ==> ShowsNewest(panel.cards, db.Loaded().tweets, true)
  {
    var tweets := db.GetLastProcessedTweets(10);
    panel := TweetCards(tweets, true);
    if panel.Cards? {
      CardsShowNewest(db.Loaded().tweets, tweets, panel.cards, true);
    }
  }
}
