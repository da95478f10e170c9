/**
 * The per-cycle and per-tweet decision logic of services/twitter_service.py.
 * The calls to the social platform and to the language model are replaced by
 * what they answered: the search result, the author lookup, the relevance score,
 * the generated reply and whether publishing succeeded.  The random sample is
 * given as the positions it picked.
 */
module Twitter {
  import opened Schema
  import opened Storage

  /** A tweet as the search returns it; ids are kept in their `str()` form. */
  datatype Tweet = Tweet(id: string, text: string, authorId: string)

  /** What `search_recent_tweets` did. */
  datatype Search =
    | Found(tweets: seq<Tweet>)   // a response; an empty `data` is the empty sequence
    | Throttled                   // tweepy.errors.TooManyRequests
    | Failed                      // any other exception

  /** The external answers that processing one tweet consumes, in call order. */
  datatype Answers = Answers(
    user: Option<string>,      // get_user(...).data.username, None when the lookup raised
    relevance: real,           // analyze_tweet_relevance(text)
    generated: Option<string>, // generate_response(text)
    published: bool,           // create_tweet(...) returned without raising
    now: string)               // the clock when the record is written

  /** How the processing of one tweet ended. */
  datatype Outcome =
    | AlreadyProcessed        // gate: the id is in the store, nothing written
    | Ignored                 // relevance below the threshold
    | GenerationFailed        // the generated reply was falsy
    | Responded               // reply generated and published
    | GeneratedNotPublished   // reply generated, not published (simulation, or publish failed)

  /** Relevance below this is ignored (`relevance < 0.7`). */
  const RelevanceThreshold: real := 0.7

  /** At most this many tweets are processed per cycle. */
  const SampleCap := 5

  /** Author name stored by the minimal path. */
  const RateLimitedAuthor := "desconocido_ratelimit"

  /** `_generate_demo_tweets().data`. */
  const DemoTweets := [
    Tweet("1", "Bitcoin looking strong today! #crypto", "user1"),
    Tweet("2", "What's your favorite altcoin? #crypto", "user2"),
    Tweet("3", "DeFi projects are the future of finance. #crypto", "user3")
  ]

  /** The batch a cycle works on: the search data, or the demo batch when the search was throttled. */
  function Batch(search: Search): (b: seq<Tweet>)
    ensures search.Throttled? ==> |b| == 3 && b[0].id == "1" && b[1].id == "2" && b[2].id == "3"
    ensures search.Failed? ==> b == []
  {
    match search
    case Found(tweets) => tweets
    case Throttled => DemoTweets
    case Failed => []
  }

  /** `min(5, len(batch))`. */
  function SampleSize(n: nat): (k: nat)
    ensures k <= n && k <= SampleCap
    ensures k == n || k == SampleCap
  {
    if n < SampleCap then n else SampleCap
  }

  /** `choice` can be what `random.sample(range(n), min(5, n))` returned. */
  ghost predicate IsSample(choice: seq<nat>, n: nat) {
    && |choice| == SampleSize(n)
    && (forall i :: 0 <= i < |choice| ==> choice[i] < n)
    && (forall i, j :: 0 <= i < j < |choice| ==> choice[i] != choice[j])
  }

  /** The ids of the sampled tweets. */
  function SampledIds(batch: seq<Tweet>, choice: seq<nat>): set<string>
    requires forall i :: 0 <= i < |choice| ==> choice[i] < |batch|
  {
    set i | 0 <= i < |choice| :: batch[choice[i]].id
  }

  /** The author name stored: the looked-up username, or `usuario_<author_id>` when the lookup failed. */
  function AuthorName(tweet: Tweet, user: Option<string>): (name: string)
    ensures user.Some? ==> name == user.value
    ensures user.None? ==> name == "usuario_" + tweet.authorId && |name| > |tweet.authorId|
  {
    match user
    case Some(u) => u
    case None => "usuario_" + tweet.authorId
  }

  /** The branch `_process_single_tweet` takes for a tweet not yet in the store. */
  function Decide(respond: bool, a: Answers): (o: Outcome)
    ensures o != AlreadyProcessed
    ensures o == Ignored <==> a.relevance < RelevanceThreshold
    ensures o == GenerationFailed <==> a.relevance >= RelevanceThreshold && !TextTruthy(a.generated)
    ensures o == Responded <==> a.relevance >= RelevanceThreshold && TextTruthy(a.generated) && respond && a.published
    ensures o == GeneratedNotPublished <==>
              a.relevance >= RelevanceThreshold && TextTruthy(a.generated) && !(respond && a.published)
  {
    if a.relevance < RelevanceThreshold then Ignored
    else if !TextTruthy(a.generated) then GenerationFailed
    else if respond && a.published then Responded
    else GeneratedNotPublished
  }

  /** The reply text stored for an outcome: the generated text once a reply was kept, otherwise none. */
  function StoredReply(o: Outcome, a: Answers): Option<string> {
    if o == Responded || o == GeneratedNotPublished then a.generated else None
  }

  /** The record the full path of `_process_single_tweet` stores for a tweet not yet in the store. */
  function StoredRecord(tweet: Tweet, respond: bool, a: Answers): (r: Record)
    ensures PipelineRecord(r)
    ensures r.responded <==> Decide(respond, a) == Responded
    ensures r.responseText.Some? <==> a.relevance >= RelevanceThreshold && TextTruthy(a.generated)
  {
    var o := Decide(respond, a);
    NewRecord(o == Responded, Some(tweet.text), StoredReply(o, a), Some(AuthorName(tweet, a.user)), None, a.now)
  }

  /**
   * Every record the full path writes has a reply that is either absent or
   * non-empty, and `responded` set only with a reply.
   */
  ghost predicate PipelineRecord(r: Record) {
    && (r.responseText.None? || TextTruthy(r.responseText))
    && (r.responded ==> r.responseText.Some?)
    && r.sentiment.None?
  }

  /** The ids `after` stores that `before` does not. */
  function NewIds(before: Document, after: Document): set<string> {
    after.tweets.Keys - before.tweets.Keys
  }

  /**
   * The counters of `after` are those of `before` grown by the ids it adds:
   * `total_processed` by one per new id, `total_responded` by one per new id
   * that stores a reply.  A document without counters is not changed at all.
   */
  ghost predicate CountsNew(before: Document, after: Document) {
    && (before.stats.None? ==> after == before)
    && (before.stats.Some? ==>
          && after.stats.Some?
          && after.stats.value.totalProcessed == before.stats.value.totalProcessed + |NewIds(before, after)|
          && after.stats.value.totalResponded ==
               before.stats.value.totalResponded + |NewIds(before, after) * WithResponse(after.tweets)|)
  }

  /**
   * `after` is `before` with at most the ids in `ids` added: stored records are
   * kept as they were, every id in `ids` is stored once the document has its
   * counters, the counters grow by what is added, the ledger is untouched and
   * consistent (or tallied) counters stay so.
   */
  ghost predicate Grows(before: Document, after: Document, ids: set<string>) {
    && (forall k :: k in before.tweets ==> k in after.tweets && after.tweets[k] == before.tweets[k])
    && after.tweets.Keys <= before.tweets.Keys + ids
    && (before.stats.Some? ==> after.stats.Some? && ids <= after.tweets.Keys)
    && CountsNew(before, after)
    && after.rateLimits == before.rateLimits
    && (Consistent(before) ==> Consistent(after))
    && (Tallied(before) ==> Tallied(after))
  }

  lemma DisjointCard(x: set<string>, y: set<string>)
    requires x * y == {}
    ensures |x + y| == |x| + |y|
  {
  }

  /**
   * A key set that grows twice: what is new overall is what is new in either
   * step, and so is what is new and has a reply.
   */
  lemma NewKeysAdd(ka: set<string>, kb: set<string>, kc: set<string>, wb: set<string>, wc: set<string>)
    requires ka <= kb <= kc
    requires (kb - ka) * wc == (kb - ka) * wb
    ensures |kc - ka| == |kb - ka| + |kc - kb|
    ensures |(kc - ka) * wc| == |(kb - ka) * wb| + |(kc - kb) * wc|
  {
    assert kc - ka == (kb - ka) + (kc - kb);
    DisjointCard(kb - ka, kc - kb);
    assert (kc - ka) * wc == (kb - ka) * wb + (kc - kb) * wc;
    DisjointCard((kb - ka) * wb, (kc - kb) * wc);
  }

  /** Ids of `tb` keep their reply in `tc`, so `tc` stores a reply for them exactly when `tb` did. */
  lemma RepliesKept(tb: map<string, Record>, tc: map<string, Record>, ids: set<string>)
    requires ids <= tb.Keys
    requires forall k :: k in tb ==> k in tc && tc[k] == tb[k]
    ensures ids * WithResponse(tc) == ids * WithResponse(tb)
  {
  }

  /** Two growth steps add up: the new ids of both are disjoint, and records of the first are kept by the second. */
  lemma {:induction false} CountsNewTrans(a: Document, b: Document, c: Document)
    requires forall k :: k in a.tweets ==> k in b.tweets
    requires forall k :: k in b.tweets ==> k in c.tweets && c.tweets[k] == b.tweets[k]
    requires CountsNew(a, b) && CountsNew(b, c)
    ensures CountsNew(a, c)
  {
    if a.stats.Some? {
      RepliesKept(b.tweets, c.tweets, NewIds(a, b));
      NewKeysAdd(a.tweets.Keys, b.tweets.Keys, c.tweets.Keys, WithResponse(b.tweets), WithResponse(c.tweets));
    }
  }

  lemma GrowsTrans(a: Document, b: Document, c: Document, s1: set<string>, s2: set<string>)
    requires Grows(a, b, s1) && Grows(b, c, s2)
    ensures Grows(a, c, s1 + s2)
  {
    CountsNewTrans(a, b, c);
  }

  /** One gated mark of a new id, with a reply that is absent or non-empty, adds that id and nothing else. */
  lemma MarkGrows(
    d: Document, tweetId: string, responded: bool, tweetText: Option<string>,
    responseText: Option<string>, authorUsername: Option<string>, now: string)
    requires tweetId !in d.tweets
    requires responseText.None? || TextTruthy(responseText)
    ensures var m := Mark(d, tweetId, responded, tweetText, responseText, authorUsername, None, now);
            Grows(d, if m.Some? then m.value else d, {tweetId})
  {
    var m := Mark(d, tweetId, responded, tweetText, responseText, authorUsername, None, now);
    MarkCountsNew(d, tweetId, responded, tweetText, responseText, authorUsername, now);
    if m.Some? {
      MarkStoresRecord(d, tweetId, responded, tweetText, responseText, authorUsername, None, now);
      if Consistent(d) {
        MarkPreservesConsistent(d, tweetId, responded, tweetText, responseText, authorUsername, None, now);
      }
      if Tallied(d) {
        MarkKeepsTallied(d, tweetId, responded, tweetText, responseText, authorUsername, None, now);
      }
      assert Grows(d, m.value, {tweetId});
    } else {
      assert Grows(d, d, {tweetId});
    }
  }

  /** One mark of a new id grows the counters by that id, and by its reply when one is stored. */
  lemma MarkCountsNew(
    d: Document, tweetId: string, responded: bool, tweetText: Option<string>,
    responseText: Option<string>, authorUsername: Option<string>, now: string)
    requires tweetId !in d.tweets
    requires responseText.None? || TextTruthy(responseText)
    ensures var m := Mark(d, tweetId, responded, tweetText, responseText, authorUsername, None, now);
            CountsNew(d, if m.Some? then m.value else d)
  {
    var m := Mark(d, tweetId, responded, tweetText, responseText, authorUsername, None, now);
    if m.Some? {
      var after := m.value;
      assert NewIds(d, after) == {tweetId};
      assert tweetId in after.tweets && after.tweets[tweetId].responseText == responseText;
      if responseText.Some? {
        assert {tweetId} * WithResponse(after.tweets) == {tweetId};
      } else {
        assert {tweetId} * WithResponse(after.tweets) == {};
      }
    }
  }

  lemma SampledIdsSnoc(batch: seq<Tweet>, choice: seq<nat>, i: nat)
    requires i < |choice| && forall j :: 0 <= j < |choice| ==> choice[j] < |batch|
    ensures SampledIds(batch, choice[..i + 1]) == SampledIds(batch, choice[..i]) + {batch[choice[i]].id}
  {
    assert forall j :: 0 <= j <= i ==> choice[..i + 1][j] == choice[j];
    assert forall j :: 0 <= j < i ==> choice[..i][j] == choice[j];
  }

  /**
   * After the first `|outcomes|` sampled tweets of a cycle: each outcome is
   * either the gate's or the decision on that tweet's answers, and every id
   * stored in `d` but not in `d0` holds the record some step of the cycle
   * wrote for it.
   */
  ghost predicate Explained(
    d0: Document, d: Document, batch: seq<Tweet>, choice: seq<nat>, answers: seq<Answers>,
    outcomes: seq<Outcome>, respond: bool)
  {
    && |outcomes| <= |choice| == |answers|
    && (forall j :: 0 <= j < |choice| ==> choice[j] < |batch|)
    && OutcomesFit(d0, batch, choice, answers, outcomes, respond)
    && NewIdsWritten(d0, d, batch, choice, answers, outcomes, respond)
  }

  ghost predicate OutcomesFit(
    d0: Document, batch: seq<Tweet>, choice: seq<nat>, answers: seq<Answers>, outcomes: seq<Outcome>, respond: bool)
    requires |outcomes| <= |choice| == |answers| && forall j :: 0 <= j < |choice| ==> choice[j] < |batch|
  {
    forall j :: 0 <= j < |outcomes| ==>
      outcomes[j] == AlreadyProcessed ||
      (outcomes[j] == Decide(respond, answers[j]) && batch[choice[j]].id !in d0.tweets)
  }

  ghost predicate NewIdsWritten(
    d0: Document, d: Document, batch: seq<Tweet>, choice: seq<nat>, answers: seq<Answers>,
    outcomes: seq<Outcome>, respond: bool)
    requires |outcomes| <= |choice| == |answers| && forall j :: 0 <= j < |choice| ==> choice[j] < |batch|
  {
    forall k :: k in d.tweets && k !in d0.tweets ==>
      exists j :: 0 <= j < |outcomes| && batch[choice[j]].id == k && outcomes[j] != AlreadyProcessed
        && d.tweets[k] == StoredRecord(batch[choice[j]], respond, answers[j])
  }

  lemma OutcomesFitStep(
    d0: Document, before: Document, batch: seq<Tweet>, choice: seq<nat>,
    answers: seq<Answers>, outcomes: seq<Outcome>, o: Outcome, respond: bool)
    requires |outcomes| < |choice| == |answers| && forall j :: 0 <= j < |choice| ==> choice[j] < |batch|
    requires OutcomesFit(d0, batch, choice, answers, outcomes, respond)
    requires forall k :: k in d0.tweets ==> k in before.tweets
    requires var tweet := batch[choice[|outcomes|]];
             && (tweet.id in before.tweets ==> o == AlreadyProcessed)
             && (tweet.id !in before.tweets ==> o == Decide(respond, answers[|outcomes|]))
    ensures OutcomesFit(d0, batch, choice, answers, outcomes + [o], respond)
  {
    var next := outcomes + [o];
    forall j | 0 <= j < |next|
      ensures next[j] == AlreadyProcessed ||
              (next[j] == Decide(respond, answers[j]) && batch[choice[j]].id !in d0.tweets)
    {
      if j < |outcomes| {
        assert next[j] == outcomes[j];
      }
    }
  }

  lemma NewIdsWrittenStep(
    d0: Document, before: Document, after: Document, batch: seq<Tweet>, choice: seq<nat>,
    answers: seq<Answers>, outcomes: seq<Outcome>, o: Outcome, respond: bool)
    requires |outcomes| < |choice| == |answers| && forall j :: 0 <= j < |choice| ==> choice[j] < |batch|
    requires NewIdsWritten(d0, before, batch, choice, answers, outcomes, respond)
    requires var tweet := batch[choice[|outcomes|]];
             && (forall k :: k in before.tweets ==> k in after.tweets && after.tweets[k] == before.tweets[k])
             && (forall k :: k in after.tweets && k !in before.tweets ==> k == tweet.id)
             && (tweet.id in before.tweets ==> o == AlreadyProcessed)
             && (tweet.id !in before.tweets && tweet.id in after.tweets ==>
                   o != AlreadyProcessed && after.tweets[tweet.id] == StoredRecord(tweet, respond, answers[|outcomes|]))
    ensures NewIdsWritten(d0, after, batch, choice, answers, outcomes + [o], respond)
  {
    var i := |outcomes|;
    var next := outcomes + [o];
    forall k | k in after.tweets && k !in d0.tweets
      ensures exists j :: 0 <= j < |next| && batch[choice[j]].id == k && next[j] != AlreadyProcessed
                && after.tweets[k] == StoredRecord(batch[choice[j]], respond, answers[j])
    {
      if k in before.tweets {
        var j :| 0 <= j < i && batch[choice[j]].id == k && outcomes[j] != AlreadyProcessed
                 && before.tweets[k] == StoredRecord(batch[choice[j]], respond, answers[j]);
        WrittenAt(batch, choice, answers, next, after.tweets[k], k, j, respond);
      } else {
        WrittenAt(batch, choice, answers, next, after.tweets[k], k, i, respond);
      }
    }
  }

  /** Step `j` of the cycle wrote `r` for `k`. */
  lemma WrittenAt(
    batch: seq<Tweet>, choice: seq<nat>, answers: seq<Answers>, outcomes: seq<Outcome>,
    r: Record, k: string, j: nat, respond: bool)
    requires j < |outcomes| <= |choice| == |answers| && forall j :: 0 <= j < |choice| ==> choice[j] < |batch|
    requires batch[choice[j]].id == k && outcomes[j] != AlreadyProcessed
    requires r == StoredRecord(batch[choice[j]], respond, answers[j])
    ensures exists j :: 0 <= j < |outcomes| && batch[choice[j]].id == k && outcomes[j] != AlreadyProcessed
              && r == StoredRecord(batch[choice[j]], respond, answers[j])
  {
  }

  /** One sampled tweet processed: the cycle so far still grows the store by the sampled ids. */
  lemma GrowsStep(d0: Document, before: Document, after: Document, batch: seq<Tweet>, choice: seq<nat>, i: nat)
    requires i < |choice| && forall j :: 0 <= j < |choice| ==> choice[j] < |batch|
    requires Grows(d0, before, SampledIds(batch, choice[..i]))
    requires Grows(before, after, {batch[choice[i]].id})
    ensures Grows(d0, after, SampledIds(batch, choice[..i + 1]))
  {
    GrowsTrans(d0, before, after, SampledIds(batch, choice[..i]), {batch[choice[i]].id});
    SampledIdsSnoc(batch, choice, i);
  }

  /** One sampled tweet processed: its outcome and anything it stored are explained. */
  lemma ExplainedStep(
    d0: Document, before: Document, after: Document, batch: seq<Tweet>, choice: seq<nat>,
    answers: seq<Answers>, outcomes: seq<Outcome>, o: Outcome, respond: bool)
    requires |outcomes| < |choice|
    requires Explained(d0, before, batch, choice, answers, outcomes, respond)
    requires forall k :: k in d0.tweets ==> k in before.tweets
    requires var tweet := batch[choice[|outcomes|]];
             && (forall k :: k in before.tweets ==> k in after.tweets && after.tweets[k] == before.tweets[k])
             && (forall k :: k in after.tweets && k !in before.tweets ==> k == tweet.id)
             && (tweet.id in before.tweets ==> o == AlreadyProcessed)
             && (tweet.id !in before.tweets ==> o == Decide(respond, answers[|outcomes|]))
             && (tweet.id !in before.tweets && tweet.id in after.tweets ==>
                   after.tweets[tweet.id] == StoredRecord(tweet, respond, answers[|outcomes|]))
    ensures Explained(d0, after, batch, choice, answers, outcomes + [o], respond)
  {
    OutcomesFitStep(d0, before, batch, choice, answers, outcomes, o, respond);
    NewIdsWrittenStep(d0, before, after, batch, choice, answers, outcomes, o, respond);
  }

  class TwitterService {
    const db: Database
    /** Whether replies are published (`respond`) or only simulated. */
    const respond: bool

    /** `__init__`: the clients are not modelled; `max_results` is stored by the source but never read. */
    constructor (db: Database, respond: bool)
      ensures this.db == db && this.respond == respond
    {
      this.db := db;
      this.respond := respond;
    }

    /**
     * `_process_single_tweet`.  A tweet already in the store writes nothing;
     * any other makes exactly one `mark_tweet_processed` call, with no
     * sentiment, whose fields follow the decision.  `saved` is false when that
     * call raised (and the source logged it).
     */
    method ProcessSingleTweet(tweet: Tweet, a: Answers) returns (outcome: Outcome, saved: bool)
      modifies db
      ensures old(db.IsTweetProcessed(tweet.id)) ==>
                outcome == AlreadyProcessed && !saved && db.content == old(db.content)
      ensures !old(db.IsTweetProcessed(tweet.id)) ==>
                && outcome == Decide(respond, a)
                && var m := Mark(old(db.Loaded()), tweet.id, outcome == Responded, Some(tweet.text),
                                 StoredReply(outcome, a), Some(AuthorName(tweet, a.user)), None, a.now);
                   saved == m.Some? && db.content == if saved then Some(m.value) else old(db.content)
      ensures Grows(old(db.Loaded()), db.Loaded(), {tweet.id})
      ensures !old(db.IsTweetProcessed(tweet.id)) && db.IsTweetProcessed(tweet.id) ==>
                db.Loaded().tweets[tweet.id] == StoredRecord(tweet, respond, a)
    {
      if db.IsTweetProcessed(tweet.id) {
        assert NewIds(db.Loaded(), db.Loaded()) == {};
        return AlreadyProcessed, false;
      }
      MarkGrows(db.Loaded(), tweet.id, Decide(respond, a) == Responded, Some(tweet.text),
                StoredReply(Decide(respond, a), a), Some(AuthorName(tweet, a.user)), a.now);
      var username := AuthorName(tweet, a.user);
      if a.relevance < RelevanceThreshold {
        saved := db.MarkTweetProcessed(tweet.id, false, Some(tweet.text), None, Some(username), None, a.now);
        return Ignored, saved;
      }
      var response := a.generated;
      if !TextTruthy(response) {
        saved := db.MarkTweetProcessed(tweet.id, false, Some(tweet.text), None, Some(username), None, a.now);
        return GenerationFailed, saved;
      }
      if respond {
        var responded := a.published;
        saved := db.MarkTweetProcessed(tweet.id, responded, Some(tweet.text), response, Some(username), None, a.now);
        outcome := if responded then Responded else GeneratedNotPublished;
      } else {
        saved := db.MarkTweetProcessed(tweet.id, false, Some(tweet.text), response, Some(username), None, a.now);
        outcome := GeneratedNotPublished;
      }
    }

    /**
     * `_process_minimal_tweet`: the gate, then one write with the fixed author
     * name, `responded` false and whatever reply was generated, possibly none.
     * The source never reaches it (see README).
     */
    method ProcessMinimalTweet(tweet: Tweet, generated: Option<string>, now: string) returns (saved: bool)
      modifies db
      ensures old(db.IsTweetProcessed(tweet.id)) ==> !saved && db.content == old(db.content)
      ensures !old(db.IsTweetProcessed(tweet.id)) ==>
                var m := Mark(old(db.Loaded()), tweet.id, false, Some(tweet.text), generated,
                              Some(RateLimitedAuthor), None, now);
                saved == m.Some? && db.content == if saved then Some(m.value) else old(db.content)
    {
      if db.IsTweetProcessed(tweet.id) {
        return false;
      }
      var username := RateLimitedAuthor;
      var response := generated;
      saved := db.MarkTweetProcessed(tweet.id, false, Some(tweet.text), response, Some(username), None, now);
    }

    /**
     * The loop of `process_tweets`: the sampled tweets, in sample order, each
     * through `_process_single_tweet`.
     */
    method ProcessSample(batch: seq<Tweet>, choice: seq<nat>, answers: seq<Answers>)
      returns (outcomes: seq<Outcome>)
      requires |answers| == |choice| && forall i :: 0 <= i < |choice| ==> choice[i] < |batch|
      modifies db
      ensures |outcomes| == |choice|
      ensures Grows(old(db.Loaded()), db.Loaded(), SampledIds(batch, choice))
      ensures Explained(old(db.Loaded()), db.Loaded(), batch, choice, answers, outcomes, respond)
    {
      outcomes := [];
      for i := 0 to |choice|
        invariant |outcomes| == i
        invariant Grows(old(db.Loaded()), db.Loaded(), SampledIds(batch, choice[..i]))
        invariant Explained(old(db.Loaded()), db.Loaded(), batch, choice, answers, outcomes, respond)
      {
        var tweet := batch[choice[i]];
        ghost var before := db.Loaded();
        ghost var prev := outcomes;
        var outcome, saved := ProcessSingleTweet(tweet, answers[i]);
        GrowsStep(old(db.Loaded()), before, db.Loaded(), batch, choice, i);
        ExplainedStep(old(db.Loaded()), before, db.Loaded(), batch, choice, answers, prev, outcome, respond);
        outcomes := outcomes + [outcome];
      }
      assert choice[..|choice|] == choice;
    }

    /**
     * `process_tweets`: search (throttled: the demo batch; failed: stop), stop
     * on an empty batch, then process the sample one tweet at a time.  Records
     * already stored are never changed; every sampled id ends up stored when the
     * document has its `stats` section; no other id is added; the counters grow
     * by the ids added and by the replies among them, and a document without
     * counters is left as it is; the ledger is not touched; consistent counters
     * stay consistent, and `total_responded` keeps counting exactly the stored
     * replies once it does.
     */
    method ProcessTweets(search: Search, choice: seq<nat>, answers: seq<Answers>)
      returns (outcomes: seq<Outcome>)
      requires IsSample(choice, |Batch(search)|)
      requires |answers| == |choice|
      modifies db
      ensures (search.Failed? || Batch(search) == []) ==> outcomes == [] && db.content == old(db.content)
      ensures |outcomes| == |choice|
      ensures forall k :: k in old(db.Loaded()).tweets ==>
                k in db.Loaded().tweets && db.Loaded().tweets[k] == old(db.Loaded()).tweets[k]
      ensures db.Loaded().tweets.Keys <= old(db.Loaded()).tweets.Keys + SampledIds(Batch(search), choice)
      ensures old(db.Loaded()).stats.Some? ==> SampledIds(Batch(search), choice) <= db.Loaded().tweets.Keys
      ensures db.Loaded().rateLimits == old(db.Loaded()).rateLimits
      ensures old(db.Loaded()).stats.None? ==> db.Loaded() == old(db.Loaded())
      ensures old(db.Loaded()).stats.Some? ==>
                && db.Loaded().stats.Some?
                && db.Loaded().stats.value.totalProcessed ==
                     old(db.Loaded()).stats.value.totalProcessed + |NewIds(old(db.Loaded()), db.Loaded())|
                && db.Loaded().stats.value.totalResponded ==
                     old(db.Loaded()).stats.value.totalResponded
                     + |NewIds(old(db.Loaded()), db.Loaded()) * WithResponse(db.Loaded().tweets)|
      ensures Consistent(old(db.Loaded())) ==> Consistent(db.Loaded())
      ensures Tallied(old(db.Loaded())) ==> Tallied(db.Loaded())
      ensures forall i :: 0 <= i < |outcomes| ==>
                outcomes[i] == AlreadyProcessed ||
                (outcomes[i] == Decide(respond, answers[i]) && Batch(search)[choice[i]].id !in old(db.Loaded()).tweets)
      ensures forall k :: k in db.Loaded().tweets && k !in old(db.Loaded()).tweets ==>
                exists i :: 0 <= i < |outcomes| && Batch(search)[choice[i]].id == k && outcomes[i] != AlreadyProcessed
                  && db.Loaded().tweets[k] == StoredRecord(Batch(search)[choice[i]], respond, answers[i])
    {
      if search.Failed? {
        return [];
      }
      var batch := Batch(search);
      if batch == [] {
        return [];
      }
      outcomes := ProcessSample(batch, choice, answers);
    }
  }
}
