/**
 * Python's ordering of `str` values (lexicographic by code point), the stable
 * descending sort that `list.sort(key=..., reverse=True)` performs, and the
 * "most recent first, at most `limit`" projection of the store that both
 * dashboards and `Database.get_last_processed_tweets` compute.
 */
module Order {
  import opened Schema

  /** `a <= b` on Python strings. */
  predicate TextLe(a: string, b: string)
    decreases |a|
  {
    a == [] || (b != [] && (a[0] < b[0] || (a[0] == b[0] && TextLe(a[1..], b[1..]))))
  }

  lemma {:induction false} TextLeRefl(a: string)
    ensures TextLe(a, a)
    decreases |a|
  {
    if a != [] {
      TextLeRefl(a[1..]);
    }
  }

  lemma {:induction false} TextLeTotal(a: string, b: string)
    ensures TextLe(a, b) || TextLe(b, a)
    decreases |a|
  {
    if a != [] && b != [] && a[0] == b[0] {
      TextLeTotal(a[1..], b[1..]);
    }
  }

  lemma {:induction false} TextLeTrans(a: string, b: string, c: string)
    requires TextLe(a, b) && TextLe(b, c)
    ensures TextLe(a, c)
    decreases |a|
  {
    if a != [] && a[0] == b[0] && b[0] == c[0] {
      TextLeTrans(a[1..], b[1..], c[1..]);
    }
  }

  /** Keys are non-increasing along `s`. */
  ghost predicate SortedDesc<T>(s: seq<T>, key: T -> string) {
    forall i, j :: 0 <= i < j < |s| ==> TextLe(key(s[j]), key(s[i]))
  }

  /**
   * Inserts `x` before the first element whose key is not greater than its own,
   * so that the earlier element of the input goes in front of equal keys.
   */
  function Insert<T>(x: T, s: seq<T>, key: T -> string): (r: seq<T>)
    ensures |r| == |s| + 1
    ensures multiset(r) == multiset(s) + multiset{x}
  {
    if s == [] then [x]
    else if TextLe(key(s[0]), key(x)) then [x] + s
    else
      assert s == [s[0]] + s[1..];
      [s[0]] + Insert(x, s[1..], key)
  }

  /** `sorted(s, key=key, reverse=True)`. */
  function SortDesc<T>(s: seq<T>, key: T -> string): (r: seq<T>)
    ensures |r| == |s|
    ensures multiset(r) == multiset(s)
  {
    if s == [] then []
    else
      assert s == [s[0]] + s[1..];
      Insert(s[0], SortDesc(s[1..], key), key)
  }

  lemma {:induction false} InsertSorted<T>(x: T, s: seq<T>, key: T -> string)
    requires SortedDesc(s, key)
    ensures SortedDesc(Insert(x, s, key), key)
  {
    if s == [] {
    } else if TextLe(key(s[0]), key(x)) {
      var r := [x] + s;
      forall i, j | 0 <= i < j < |r| ensures TextLe(key(r[j]), key(r[i])) {
        if i == 0 {
          if j > 1 {
            TextLeTrans(key(s[j - 1]), key(s[0]), key(x));
          }
        }
      }
    } else {
      var tail := Insert(x, s[1..], key);
      InsertSorted(x, s[1..], key);
      TextLeTotal(key(s[0]), key(x));
      var r := [s[0]] + tail;
      // every element of the tail is x or an element of s[1..], hence not above s[0]
      forall j | 0 <= j < |tail| ensures TextLe(key(tail[j]), key(s[0])) {
        assert tail[j] in multiset(tail);
        assert tail[j] in multiset(s[1..]) + multiset{x};
        if tail[j] != x {
          assert tail[j] in s[1..];
          var m :| 0 <= m < |s[1..]| && s[1..][m] == tail[j];
          assert s[m + 1] == tail[j];
        }
      }
      forall i, j | 0 <= i < j < |r| ensures TextLe(key(r[j]), key(r[i])) {
        if i == 0 {
          assert r[j] == tail[j - 1];
        } else {
          assert r[i] == tail[i - 1] && r[j] == tail[j - 1];
        }
      }
    }
  }

  lemma {:induction false} SortDescSorted<T>(s: seq<T>, key: T -> string)
    ensures SortedDesc(SortDesc(s, key), key)
  {
    if s != [] {
      SortDescSorted(s[1..], key);
      InsertSorted(s[0], SortDesc(s[1..], key), key);
    }
  }

  /** The sort key of the "most recent" listings: `x.get("processed_at", "")`. */
  function ProcessedAt(e: Entry): string {
    e.record.processedAt
  }

  /** The ids that appear in a listing. */
  function IdsOf(r: seq<Entry>): set<string> {
    set e | e in r :: e.id
  }

  /** A listing holds no entry twice. */
  ghost predicate NoDuplicates<T>(s: seq<T>) {
    forall i, j :: 0 <= i < j < |s| ==> s[i] != s[j]
  }

  lemma {:induction false} NoDuplicatesCount<T>(s: seq<T>, x: T)
    requires NoDuplicates(s)
    ensures multiset(s)[x] <= 1
  {
    if s != [] {
      assert s == [s[0]] + s[1..];
      assert NoDuplicates(s[1..]) by {
        forall i, j | 0 <= i < j < |s[1..]| ensures s[1..][i] != s[1..][j] {
          assert s[1..][i] == s[i + 1] && s[1..][j] == s[j + 1];
        }
      }
      NoDuplicatesCount(s[1..], x);
      if s[0] == x {
        assert x !in s[1..];
      }
    }
  }

  /** A permutation of a listing without repeats has no repeats either. */
  lemma PermutationNoDuplicates<T>(a: seq<T>, b: seq<T>)
    requires NoDuplicates(a) && multiset(a) == multiset(b)
    ensures NoDuplicates(b)
  {
    forall i, j | 0 <= i < j < |b| ensures b[i] != b[j] {
      if b[i] == b[j] {
        var x := b[i];
        assert b == b[..i] + [x] + b[i + 1..j] + [x] + b[j + 1..];
        assert multiset(b)[x] >= 2;
        NoDuplicatesCount(a, x);
        assert false;
      }
    }
  }

  /** Every stored record appears in `list`, with its id, exactly once. */
  ghost predicate ListsAll(tweets: map<string, Record>, list: seq<Entry>) {
    && |list| == |tweets|
    && (forall i :: 0 <= i < |list| ==> list[i].id in tweets && tweets[list[i].id] == list[i].record)
    && (forall i, j :: 0 <= i < j < |list| ==> list[i].id != list[j].id)
    && (forall k :: k in tweets ==> Entry(k, tweets[k]) in list)
  }

  /**
   * The comprehension `[{"id": k, **d} for k, d in tweets.items()]`.  Dict
   * iteration order is not modelled: the entries come in an order the method
   * chooses.
   */
  method Entries(tweets: map<string, Record>) returns (list: seq<Entry>)
    ensures ListsAll(tweets, list)
  {
    list := [];
    var rest := tweets.Keys;
    while rest != {}
      invariant rest <= tweets.Keys
      invariant |list| + |rest| == |tweets|
      invariant forall i :: 0 <= i < |list| ==>
                  list[i].id in tweets && tweets[list[i].id] == list[i].record && list[i].id !in rest
      invariant forall i, j :: 0 <= i < j < |list| ==> list[i].id != list[j].id
      invariant forall k :: k in tweets && k !in rest ==> Entry(k, tweets[k]) in list
      decreases |rest|
    {
      var k :| k in rest;
      list := list + [Entry(k, tweets[k])];
      rest := rest - {k};
    }
  }

  /** A prefix of the sorted listing holds the latest records of the store. */
  lemma PrefixIsLatest(tweets: map<string, Record>, list: seq<Entry>, sorted: seq<Entry>, n: nat)
    requires ListsAll(tweets, list)
    requires multiset(sorted) == multiset(list) && SortedDesc(sorted, ProcessedAt)
    requires n <= |sorted|
    ensures forall k, i :: k in tweets && k !in IdsOf(sorted[..n]) && 0 <= i < n ==>
              TextLe(tweets[k].processedAt, sorted[i].record.processedAt)
  {
    var r := sorted[..n];
    forall k, i | k in tweets && k !in IdsOf(r) && 0 <= i < n
      ensures TextLe(tweets[k].processedAt, sorted[i].record.processedAt)
    {
      var e := Entry(k, tweets[k]);
      assert e in multiset(list);
      assert e in sorted;
      var j :| 0 <= j < |sorted| && sorted[j] == e;
      assert forall m :: 0 <= m < n ==> r[m].id in IdsOf(r);
      assert n <= j;
      assert ProcessedAt(sorted[j]) == tweets[k].processedAt;
    }
  }

  /** What a prefix of the sorted listing of the whole store holds. */
  lemma PrefixOfSorted(tweets: map<string, Record>, list: seq<Entry>, sorted: seq<Entry>, n: nat)
    requires ListsAll(tweets, list)
    requires multiset(sorted) == multiset(list) && SortedDesc(sorted, ProcessedAt)
    requires n <= |sorted|
    ensures forall i :: 0 <= i < n ==> sorted[i].id in tweets && tweets[sorted[i].id] == sorted[i].record
    ensures forall i, j :: 0 <= i < j < n ==> sorted[i].id != sorted[j].id
    ensures SortedDesc(sorted[..n], ProcessedAt)
  {
    assert NoDuplicates(list);
    PermutationNoDuplicates(list, sorted);
    forall i | 0 <= i < n ensures sorted[i].id in tweets && tweets[sorted[i].id] == sorted[i].record {
      assert sorted[i] in multiset(list);
      var m :| 0 <= m < |list| && list[m] == sorted[i];
    }
    forall i, j | 0 <= i < j < n ensures sorted[i].id != sorted[j].id {
      assert sorted[i] != sorted[j];
    }
  }

  /**
   * `get_last_processed_tweets(limit)`: the id-tagged records sorted by
   * `processed_at` descending, then `[:limit]`.
   */
  method MostRecent(tweets: map<string, Record>, limit: int) returns (r: seq<Entry>)
    ensures |r| == SliceLen(|tweets|, limit)
    ensures forall i :: 0 <= i < |r| ==> r[i].id in tweets && tweets[r[i].id] == r[i].record
    ensures forall i, j :: 0 <= i < j < |r| ==> r[i].id != r[j].id
    ensures SortedDesc(r, ProcessedAt)
    ensures forall k, i :: k in tweets && k !in IdsOf(r) && 0 <= i < |r| ==>
              TextLe(tweets[k].processedAt, r[i].record.processedAt)
  {
    var list := Entries(tweets);
    var sorted := SortDesc(list, ProcessedAt);
    SortDescSorted(list, ProcessedAt);
    var n := SliceLen(|sorted|, limit);
    PrefixOfSorted(tweets, list, sorted, n);
    PrefixIsLatest(tweets, list, sorted, n);
    r := sorted[..n];
    assert forall i :: 0 <= i < n ==> r[i] == sorted[i];
  }
}
