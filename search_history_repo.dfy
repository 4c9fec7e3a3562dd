/** The search-history repository: the queries a user has searched for, newest first or grouped by frequency. */
module SearchHistoryRepository {
  import opened Wrappers
  import opened Schema
  import opened Store
  import Seqs

  const DefaultLimit: nat := 10

  /**
   * `recordSearch(userId, query)`: appends one row with the user, the
   * query and the clock's time, and returns the inserted rows (`returning()`
   * gives the whole list); the user must exist.
   */
  method RecordSearch(db: Database, userId: Id, query: string, now: Time) returns (r: Result<seq<SearchEntry>, string>)
    requires Consistent(db.tables)
    modifies db
    ensures Consistent(db.tables)
    ensures r.Ok? <==> UserExists(old(db.tables), userId)
    ensures r.Err? ==> r.error == ForeignKeyViolation && db.tables == old(db.tables)
    ensures r.Ok? ==>
      && |r.value| == 1
      && r.value[0].userId == userId && r.value[0].query == query && r.value[0].createdAt == now
      && (forall e :: e in old(db.tables.searchHistory) ==> e.id != r.value[0].id)
      && db.tables == old(db.tables).(searchHistory := old(db.tables.searchHistory) + r.value)
  {
    var t := db.tables;
    if !UserExists(t, userId) {
      return Err(ForeignKeyViolation);
    }
    var row := SearchEntry(NextId(t.searchHistory, SearchEntryKey), query, userId, now);
    AppendFresh(t.searchHistory, SearchEntryKey, row);
    db.tables := t.(searchHistory := t.searchHistory + [row]);
    return Ok([row]);
  }

  function ByCreatedAt(e: SearchEntry): seq<int> { [e.createdAt] }

  /** The user's rows, newest first. */
  function UserEntries(t: Tables, userId: Id): (r: seq<SearchEntry>)
    ensures forall e :: e in r <==> e in t.searchHistory && e.userId == userId
    ensures Seqs.SortedBy(r, ByCreatedAt, true)
  {
    var rows := Seqs.Filter(t.searchHistory, (e: SearchEntry) => e.userId == userId);
    Seqs.SortBySorted(rows, ByCreatedAt, true);
    Seqs.SortBySameRows(rows, ByCreatedAt, true);
    Seqs.SortBy(rows, ByCreatedAt, true)
  }

  /** `getRecentSearches(userId, limit = 10)`: the first `limit` of the user's rows, newest first. */
  function GetRecentSearches(t: Tables, userId: Id, limit: Option<nat>): (r: seq<SearchEntry>)
    ensures |r| == Seqs.Min(limit.GetOr(DefaultLimit), |UserEntries(t, userId)|)
    ensures forall i :: 0 <= i < |r| ==> r[i] == UserEntries(t, userId)[i]
    ensures forall e :: e in r ==> e in t.searchHistory && e.userId == userId
    ensures Seqs.SortedBy(r, ByCreatedAt, true)
  {
    var rows := UserEntries(t, userId);
    Seqs.WindowSorted(rows, 0, limit.GetOr(DefaultLimit), ByCreatedAt, true);
    Seqs.WindowRows(rows, 0, limit.GetOr(DefaultLimit));
    Seqs.Window(rows, 0, limit.GetOr(DefaultLimit))
  }

  /** A search recorded later than every earlier search of the user heads the recent list. */
  lemma RecordedSearchComesFirst(t: Tables, e: SearchEntry, limit: nat)
    requires forall x :: x in t.searchHistory && x.userId == e.userId ==> x.createdAt < e.createdAt
    requires limit >= 1
    ensures var r := GetRecentSearches(t.(searchHistory := t.searchHistory + [e]), e.userId, Some(limit));
      r != [] && r[0] == e
  {
    var t' := t.(searchHistory := t.searchHistory + [e]);
    var rows := UserEntries(t', e.userId);
    forall x | x in rows && x != e
      ensures x.createdAt < e.createdAt
    {
      assert x in t.searchHistory;
    }
    NewestHeadsRows(rows, e);
    var r := GetRecentSearches(t', e.userId, Some(limit));
    assert |r| >= 1 && r[0] == rows[0];
  }

  lemma NewestHeadsRows(rows: seq<SearchEntry>, e: SearchEntry)
    requires e in rows && Seqs.SortedBy(rows, ByCreatedAt, true)
    requires forall x :: x in rows && x != e ==> x.createdAt < e.createdAt
    ensures rows[0] == e
  {
    var k :| 0 <= k < |rows| && rows[k] == e;
    if k != 0 {
      assert Seqs.InOrder(ByCreatedAt(rows[0]), ByCreatedAt(rows[k]), true);
      Seqs.DescendingSingle(rows[0].createdAt, e.createdAt);
    }
  }

  /** One row of the grouped query: a distinct query and how often the user searched it. */
  datatype QueryCount = QueryCount(query: string, count: nat)

  function QueryOf(x: QueryCount): string { x.query }
  function ByCount(x: QueryCount): seq<int> { [x.count] }

  /** How many of the user's rows carry `query`. */
  function Occurrences(t: Tables, userId: Id, query: string): (n: nat)
    ensures n > 0 <==> exists e :: e in t.searchHistory && e.userId == userId && e.query == query
  {
    var p := (e: SearchEntry) => e.userId == userId && e.query == query;
    Seqs.CountPositive(t.searchHistory, p);
    Seqs.Count(t.searchHistory, p)
  }

  /** The queries the user searched for, each once (GROUP BY query). */
  function UserQueries(t: Tables, userId: Id): (r: seq<string>)
    ensures forall q :: q in r <==> exists e :: e in t.searchHistory && e.userId == userId && e.query == q
    ensures forall i, j :: 0 <= i < j < |r| ==> r[i] != r[j]
  {
    var rows := Seqs.Filter(t.searchHistory, (e: SearchEntry) => e.userId == userId);
    Seqs.Distinct(Seqs.Map(rows, (e: SearchEntry) => e.query))
  }

  /** One group per query, with its count. */
  function Groups(t: Tables, userId: Id): (r: seq<QueryCount>)
    ensures |r| == |UserQueries(t, userId)|
    ensures Seqs.KeysDistinct(r, QueryOf)
    ensures forall x :: x in r <==> x.query in UserQueries(t, userId) && x.count == Occurrences(t, userId, x.query)
  {
    var qs := UserQueries(t, userId);
    var r := Seqs.Map(qs, (q: string) => QueryCount(q, Occurrences(t, userId, q)));
    assert forall i :: 0 <= i < |r| ==> QueryOf(r[i]) == qs[i];
    r
  }

  /**
   * `getFrequentSearches(userId, limit = 10)`: min(limit, number of
   * distinct queries) groups, one per distinct query with the number of
   * times the user searched it, most frequent first; no query left out was
   * searched more often than the last one listed.
   */
  function GetFrequentSearches(t: Tables, userId: Id, limit: Option<nat>): (r: seq<QueryCount>)
    ensures |r| == Seqs.Min(limit.GetOr(DefaultLimit), |UserQueries(t, userId)|)
    ensures Seqs.KeysDistinct(r, QueryOf)
    ensures forall x :: x in r ==>
      x.count == Occurrences(t, userId, x.query) && x.count > 0 && x.query in UserQueries(t, userId)
    ensures Seqs.SortedBy(r, ByCount, true)
    ensures r != [] ==> forall q :: q in UserQueries(t, userId) && QueryCount(q, Occurrences(t, userId, q)) !in r ==>
      r[|r| - 1].count >= Occurrences(t, userId, q)
  {
    var groups := Groups(t, userId);
    var r := Seqs.SortedWindow(groups, ByCount, true, 0, limit.GetOr(DefaultLimit));
    FrequentPageFacts(t, userId, groups, r, limit.GetOr(DefaultLimit));
    r
  }

  lemma FrequentPageFacts(t: Tables, userId: Id, groups: seq<QueryCount>, r: seq<QueryCount>, n: nat)
    requires groups == Groups(t, userId)
    requires r == Seqs.SortedWindow(groups, ByCount, true, 0, n)
    ensures |r| == Seqs.Min(n, |UserQueries(t, userId)|)
    ensures Seqs.KeysDistinct(r, QueryOf)
    ensures forall x :: x in r ==>
      x.count == Occurrences(t, userId, x.query) && x.count > 0 && x.query in UserQueries(t, userId)
    ensures r != [] ==> forall q :: q in UserQueries(t, userId) && QueryCount(q, Occurrences(t, userId, q)) !in r ==>
      r[|r| - 1].count >= Occurrences(t, userId, q)
  {
    Seqs.SortByKeysDistinct(groups, ByCount, true, QueryOf);
    Seqs.WindowKeysDistinct(Seqs.SortBy(groups, ByCount, true), 0, n, QueryOf);
    FrequentPageLast(t, userId, groups, r, n);
  }

  lemma FrequentPageLast(t: Tables, userId: Id, groups: seq<QueryCount>, r: seq<QueryCount>, n: nat)
    requires groups == Groups(t, userId)
    requires r == Seqs.SortedWindow(groups, ByCount, true, 0, n)
    ensures r != [] ==> forall q :: q in UserQueries(t, userId) && QueryCount(q, Occurrences(t, userId, q)) !in r ==>
      r[|r| - 1].count >= Occurrences(t, userId, q)
  {
    forall q | r != [] && q in UserQueries(t, userId) && QueryCount(q, Occurrences(t, userId, q)) !in r
      ensures r[|r| - 1].count >= Occurrences(t, userId, q)
    {
      var x := QueryCount(q, Occurrences(t, userId, q));
      assert x in groups;
      CountPageLast(groups, r, n, x);
    }
  }

  /** No group left off the first page has a higher count than the page's last row. */
  lemma CountPageLast(groups: seq<QueryCount>, r: seq<QueryCount>, n: nat, x: QueryCount)
    requires r == Seqs.SortedWindow(groups, ByCount, true, 0, n)
    requires r != [] && x in groups && x !in r
    ensures r[|r| - 1].count >= x.count
  {
    Seqs.DescendingSingle(r[|r| - 1].count, x.count);
  }

  /** `clearHistory(userId)`: removes all of the user's rows and none of another user's. */
  method ClearHistory(db: Database, userId: Id)
    requires Consistent(db.tables)
    modifies db
    ensures Consistent(db.tables)
    ensures forall e :: e in db.tables.searchHistory <==> e in old(db.tables.searchHistory) && e.userId != userId
    ensures db.tables.(searchHistory := old(db.tables.searchHistory)) == old(db.tables)
    ensures UserQueries(db.tables, userId) == []
  {
    var t := db.tables;
    var keep := (e: SearchEntry) => e.userId != userId;
    Seqs.FilterKeysDistinct(t.searchHistory, keep, SearchEntryKey);
    db.tables := t.(searchHistory := Seqs.Filter(t.searchHistory, keep));
    var rest := UserQueries(db.tables, userId);
    if rest != [] {
      Seqs.HeadIsMember(rest);
    }
  }

  /** `deleteSearch(userId, id)`: removes the row with that id only if it belongs to the user. */
  method DeleteSearch(db: Database, userId: Id, id: Id)
    requires Consistent(db.tables)
    modifies db
    ensures Consistent(db.tables)
    ensures forall e :: e in db.tables.searchHistory <==>
      e in old(db.tables.searchHistory) && !(e.id == id && e.userId == userId)
    ensures db.tables.(searchHistory := old(db.tables.searchHistory)) == old(db.tables)
  {
    var t := db.tables;
    var keep := (e: SearchEntry) => !(e.id == id && e.userId == userId);
    Seqs.FilterKeysDistinct(t.searchHistory, keep, SearchEntryKey);
    db.tables := t.(searchHistory := Seqs.Filter(t.searchHistory, keep));
  }
}
