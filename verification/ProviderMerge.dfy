/**
 The composite provider: every backend returns its newest rows up to a limit, and the composite sorts the
 lot and cuts it to the limit again. A backend is given by the rows that match the query, in its order.
 */
module ProviderMerge {
  import opened Options
  import opened StableSort

  datatype Row = Row(id: int, timestamp: int)

  /** `sorted(rows, key=timestamp, reverse=True)` keeps rows of equal time in order, so it sorts by -timestamp. */
  const Newest: Row -> int := (r: Row) => -r.timestamp

  /** `s[:limit]` in Python, where a negative limit counts from the end. */
  function Slice(s: seq<Row>, limit: int): seq<Row> {
    if limit >= |s| then s
    else if limit >= 0 then s[..limit]
    else if |s| + limit >= 0 then s[..|s| + limit]
    else []
  }

  /** What one backend returns. */
  function Top(rows: seq<Row>, limit: int): seq<Row> {
    Slice(Sort(Newest, rows), limit)
  }

  function AllRows(providers: seq<seq<Row>>): seq<Row> {
    if providers == [] then [] else AllRows(providers[..|providers| - 1]) + providers[|providers| - 1]
  }

  function AllTops(providers: seq<seq<Row>>, limit: int): seq<Row> {
    if providers == [] then []
    else AllTops(providers[..|providers| - 1], limit) + Top(providers[|providers| - 1], limit)
  }

  function Composite(providers: seq<seq<Row>>, providerLimit: int, limit: int): seq<Row> {
    Slice(Sort(Newest, AllTops(providers, providerLimit)), limit)
  }

  /** What a caller would expect: sort everything, then cut. */
  function SortThenCut(providers: seq<seq<Row>>, limit: int): seq<Row> {
    Slice(Sort(Newest, AllRows(providers)), limit)
  }

  method Fanout(providers: seq<seq<Row>>, providerLimit: int) returns (rows: seq<Row>)
    ensures rows == AllTops(providers, providerLimit)
  {
    rows := [];
    for i := 0 to |providers|
      invariant rows == AllTops(providers[..i], providerLimit)
    {
      assert providers[..i + 1][..i] == providers[..i];
      rows := rows + Top(providers[i], providerLimit);
    }
    assert providers[..|providers|] == providers;
  }

  /** Also `hunt_indicator`, which differs only in the query. */
  method ListAlerts(providers: seq<seq<Row>>, limit: int) returns (r: seq<Row>)
    ensures r == Composite(providers, limit, limit)
    ensures limit >= 0 ==> r == SortThenCut(providers, limit)
  {
    if limit >= 0 {
      CompositeIsExact(providers, limit);
    }
    var alerts := Fanout(providers, limit);
    r := Slice(Sort(Newest, alerts), limit);
  }

  /** The limit a backend applies when the caller passes `limit`, or nothing. */
  function ProviderLimit(limit: Option<int>): int {
    if limit.Some? then limit.value else 500
  }

  /** `int(kwargs.get("limit") or 500)` */
  function CompositeLimit(limit: Option<int>): int {
    if limit.Some? && limit.value != 0 then limit.value else 500
  }

  method QueryEvents(providers: seq<seq<Row>>, limit: Option<int>) returns (r: seq<Row>)
    ensures r == Composite(providers, ProviderLimit(limit), CompositeLimit(limit))
    ensures limit.None? ==> r == SortThenCut(providers, 500)
    ensures limit.Some? && limit.value >= 1 ==> r == SortThenCut(providers, limit.value)
  {
    if limit.None? || limit.value >= 1 {
      CompositeIsExact(providers, CompositeLimit(limit));
    }
    var events := Fanout(providers, ProviderLimit(limit));
    r := Slice(Sort(Newest, events), CompositeLimit(limit));
  }

  // ---------- merging sorted rows ----------

  /** Merging two sorted lists; on equal keys the left one goes first. */
  function Merge(a: seq<Row>, b: seq<Row>): seq<Row> {
    if a == [] then b
    else if b == [] then a
    else if Newest(a[0]) <= Newest(b[0]) then [a[0]] + Merge(a[1..], b)
    else [b[0]] + Merge(a, b[1..])
  }

  lemma Cons(x: Row, s: seq<Row>)
    ensures ([x] + s)[0] == x && ([x] + s)[1..] == s && [x] + s != []
  {
  }

  lemma {:induction false} MergeInsert(x: Row, a: seq<Row>, b: seq<Row>)
    ensures Merge(Insert(Newest, x, a), b) == Insert(Newest, x, Merge(a, b))
    decreases |a| + |b|
  {
    if b != [] {
      Cons(b[0], Merge(a, b[1..]));
      if a == [] {
        Cons(x, []);
        if Newest(x) > Newest(b[0]) {
          MergeInsert(x, a, b[1..]);
        }
      } else {
        Cons(x, a);
        Cons(a[0], Insert(Newest, x, a[1..]));
        Cons(a[0], Merge(a[1..], b));
        if Newest(a[0]) <= Newest(b[0]) {
          MergeInsert(x, a[1..], b);
        }
        MergeInsert(x, a, b[1..]);
      }
    }
  }

  /** Sorting a concatenation merges the sorted parts, ties included. */
  lemma {:induction false} SortConcat(a: seq<Row>, b: seq<Row>)
    ensures Sort(Newest, a + b) == Merge(Sort(Newest, a), Sort(Newest, b))
  {
    if a == [] {
      assert a + b == b;
    } else {
      assert (a + b)[0] == a[0] && (a + b)[1..] == a[1..] + b;
      SortConcat(a[1..], b);
      MergeInsert(a[0], Sort(Newest, a[1..]), Sort(Newest, b));
    }
  }

  lemma {:induction false} SortOfSorted(s: seq<Row>)
    requires Ordered(Newest, s)
    ensures Sort(Newest, s) == s
  {
    if s != [] {
      SortOfSorted(s[1..]);
      assert s == [s[0]] + s[1..];
    }
  }

  lemma CutCons(x: Row, s: seq<Row>, limit: int)
    requires limit > 0
    ensures Slice([x] + s, limit) == [x] + Slice(s, limit - 1)
  {
  }

  lemma CutTwice(s: seq<Row>, k: int, limit: int)
    requires 0 <= limit <= k
    ensures Slice(Slice(s, k), limit) == Slice(s, limit)
  {
  }

  lemma CutHead(s: seq<Row>, k: int)
    requires s != [] && k > 0
    ensures Slice(s, k) != [] && Slice(s, k)[0] == s[0] && Slice(s, k)[1..] == Slice(s[1..], k - 1)
  {
  }

  lemma MergeLeft(a: seq<Row>, b: seq<Row>, ka: int, kb: int)
    requires a != [] && b != [] && ka > 0 && kb > 0 && Newest(a[0]) <= Newest(b[0])
    ensures Merge(a, b) == [a[0]] + Merge(a[1..], b)
    ensures Merge(Slice(a, ka), Slice(b, kb)) == [a[0]] + Merge(Slice(a[1..], ka - 1), Slice(b, kb))
  {
    CutHead(a, ka);
    CutHead(b, kb);
  }

  lemma MergeRight(a: seq<Row>, b: seq<Row>, ka: int, kb: int)
    requires a != [] && b != [] && ka > 0 && kb > 0 && Newest(a[0]) > Newest(b[0])
    ensures Merge(a, b) == [b[0]] + Merge(a, b[1..])
    ensures Merge(Slice(a, ka), Slice(b, kb)) == [b[0]] + Merge(Slice(a, ka), Slice(b[1..], kb - 1))
  {
    CutHead(a, ka);
    CutHead(b, kb);
  }

  /** Of two merged lists, the first `limit` rows depend only on the first `limit` rows of each. */
  lemma {:induction false} CutMerge(a: seq<Row>, b: seq<Row>, ka: int, kb: int, limit: int)
    requires 0 <= limit <= ka && limit <= kb
    ensures Slice(Merge(Slice(a, ka), Slice(b, kb)), limit) == Slice(Merge(a, b), limit)
    decreases |a| + |b|
  {
    if a == [] {
      CutTwice(b, kb, limit);
    } else if b == [] {
      CutTwice(a, ka, limit);
    } else if limit > 0 && Newest(a[0]) <= Newest(b[0]) {
      CutMerge(a[1..], b, ka - 1, kb, limit - 1);
      MergeLeft(a, b, ka, kb);
      CutConsBoth(a[0], Merge(Slice(a[1..], ka - 1), Slice(b, kb)), Merge(a[1..], b), limit);
    } else if limit > 0 {
      CutMerge(a, b[1..], ka, kb - 1, limit - 1);
      MergeRight(a, b, ka, kb);
      CutConsBoth(b[0], Merge(Slice(a, ka), Slice(b[1..], kb - 1)), Merge(a, b[1..]), limit);
    } else {
      CutToNothing(Merge(Slice(a, ka), Slice(b, kb)));
      CutToNothing(Merge(a, b));
    }
  }

  lemma CutConsBoth(x: Row, s: seq<Row>, t: seq<Row>, limit: int)
    requires limit > 0 && Slice(s, limit - 1) == Slice(t, limit - 1)
    ensures Slice([x] + s, limit) == Slice([x] + t, limit)
  {
    CutCons(x, s, limit);
    CutCons(x, t, limit);
  }

  lemma CutToNothing(s: seq<Row>)
    ensures Slice(s, 0) == []
  {
  }

  lemma TopIsSorted(rows: seq<Row>, limit: int)
    ensures Ordered(Newest, Top(rows, limit))
  {
    SortFacts(Newest, rows);
  }

  /** Cutting each backend to its top rows first loses nothing: the result is that of sorting everything. */
  lemma {:induction false} CompositeIsExact(providers: seq<seq<Row>>, limit: int)
    requires limit >= 0
    ensures Composite(providers, limit, limit) == SortThenCut(providers, limit)
  {
    if providers != [] {
      var n := |providers| - 1;
      var before, rows := providers[..n], providers[n];
      var tops, full, top, all := AllTops(before, limit), AllRows(before), Top(rows, limit), Sort(Newest, rows);
      CompositeIsExact(before, limit);
      TopIsSorted(rows, limit);
      SortOfSorted(top);
      SortConcat(tops, top);
      SortConcat(full, rows);
      CutMerge(Sort(Newest, tops), top, limit, limit, limit);
      CutTwice(all, limit, limit);
      CutMerge(Sort(Newest, full), all, limit, limit, limit);
    }
  }

  // ---------- when the limit is honoured ----------

  lemma OneProvider(rows: seq<Row>, limit: int)
    ensures AllRows([rows]) == rows && AllTops([rows], limit) == Top(rows, limit)
  {
    assert [rows][..0] == [];
    assert [] + rows == rows && [] + Top(rows, limit) == Top(rows, limit);
  }

  lemma SameLengthSlices(s: seq<Row>, t: seq<Row>, limit: int)
    requires |s| == |t|
    ensures |Slice(s, limit)| == |Slice(t, limit)|
  {
  }

  lemma Lengths(rows: seq<Row>, providerLimit: int, limit: int)
    ensures |SortThenCut([rows], limit)| == |Slice(rows, limit)|
    ensures |Composite([rows], providerLimit, limit)| == |Slice(Slice(rows, providerLimit), limit)|
  {
    OneProvider(rows, providerLimit);
    SortFacts(Newest, rows);
    SortFacts(Newest, Top(rows, providerLimit));
    SameLengthSlices(Sort(Newest, rows), rows, limit);
    SameLengthSlices(Sort(Newest, rows), rows, providerLimit);
    SameLengthSlices(Sort(Newest, Top(rows, providerLimit)), Slice(rows, providerLimit), limit);
  }

  function SomeRows(n: nat): (r: seq<Row>)
    ensures |r| == n
  {
    seq(n, i => Row(i, 0))
  }

  ghost predicate ListIsExact(limit: int) {
    forall providers :: Composite(providers, limit, limit) == SortThenCut(providers, limit)
  }

  /** `list_alerts` and `hunt_indicator` meet the expectation for all backends iff the limit is not negative. */
  lemma ListIsExactIff(limit: int)
    ensures ListIsExact(limit) <==> limit >= 0
  {
    if limit >= 0 {
      forall providers ensures Composite(providers, limit, limit) == SortThenCut(providers, limit) {
        CompositeIsExact(providers, limit);
      }
    } else {
      var rows := SomeRows(2 * -limit);
      Lengths(rows, limit, limit);
      assert Composite([rows], limit, limit) != SortThenCut([rows], limit);
    }
  }

  ghost predicate QueryIsExact(limit: Option<int>) {
    forall providers ::
      Composite(providers, ProviderLimit(limit), CompositeLimit(limit)) == SortThenCut(providers, CompositeLimit(limit))
  }

  /**
   `query_events` meets it for all backends iff the limit is absent or positive: an explicit 0 becomes 500 in
   the composite, but every backend still takes it as 0 and returns nothing.
   */
  lemma QueryIsExactIff(limit: Option<int>)
    ensures QueryIsExact(limit) <==> limit.None? || limit.value >= 1
  {
    if limit.None? || limit.value >= 1 {
      forall providers
        ensures Composite(providers, ProviderLimit(limit), CompositeLimit(limit))
            == SortThenCut(providers, CompositeLimit(limit))
      {
        CompositeIsExact(providers, CompositeLimit(limit));
      }
    } else {
      var rows := SomeRows(if limit.value == 0 then 1 else 2 * -limit.value);
      Lengths(rows, ProviderLimit(limit), CompositeLimit(limit));
      assert Composite([rows], ProviderLimit(limit), CompositeLimit(limit))
          != SortThenCut([rows], CompositeLimit(limit));
    }
  }

  // ---------- newest first ----------

  function RowsAt(t: int, s: seq<Row>): seq<Row> {
    if s == [] then [] else (if s[0].timestamp == t then [s[0]] else []) + RowsAt(t, s[1..])
  }

  lemma {:induction false} OfKeyIsRowsAt(t: int, s: seq<Row>)
    ensures OfKey(Newest, -t, s) == RowsAt(t, s)
  {
    if s != [] {
      OfKeyIsRowsAt(t, s[1..]);
      assert Newest(s[0]) == -t <==> s[0].timestamp == t;
    }
  }

  /**
   The result is the head, and `rest` the tail, of all rows from the newest to the oldest, rows of one time in
   the order of the backends: so nothing left out is newer than anything returned.
   */
  lemma ResultIsNewestFirst(providers: seq<seq<Row>>, limit: int, t: int) returns (rest: seq<Row>)
    requires limit >= 0
    ensures var r := SortThenCut(providers, limit);
      && multiset(r + rest) == multiset(AllRows(providers))
      && (forall i, j | 0 <= i < j < |r + rest| :: (r + rest)[i].timestamp >= (r + rest)[j].timestamp)
      && RowsAt(t, r + rest) == RowsAt(t, AllRows(providers))
      && |r| == if |AllRows(providers)| < limit then |AllRows(providers)| else limit
  {
    var sorted := Sort(Newest, AllRows(providers));
    SortedRows(AllRows(providers), t);
    rest := CutOff(sorted, limit);
  }

  lemma SortedIsNewestFirst(all: seq<Row>, i: nat, j: nat)
    requires i < j < |Sort(Newest, all)|
    ensures Sort(Newest, all)[i].timestamp >= Sort(Newest, all)[j].timestamp
  {
    SortFacts(Newest, all);
    assert Newest(Sort(Newest, all)[i]) <= Newest(Sort(Newest, all)[j]);
  }

  lemma SortedKeepsTies(all: seq<Row>, t: int)
    ensures RowsAt(t, Sort(Newest, all)) == RowsAt(t, all)
  {
    SortIsStable(Newest, -t, all);
    OfKeyIsRowsAt(t, Sort(Newest, all));
    OfKeyIsRowsAt(t, all);
  }

  lemma SortedRows(all: seq<Row>, t: int)
    ensures var sorted := Sort(Newest, all);
      && multiset(sorted) == multiset(all) && |sorted| == |all| && RowsAt(t, sorted) == RowsAt(t, all)
      && forall i, j | 0 <= i < j < |sorted| :: sorted[i].timestamp >= sorted[j].timestamp
  {
    var sorted := Sort(Newest, all);
    SortFacts(Newest, all);
    SortedKeepsTies(all, t);
    forall i, j | 0 <= i < j < |sorted| ensures sorted[i].timestamp >= sorted[j].timestamp {
      SortedIsNewestFirst(all, i, j);
    }
  }

  lemma CutOff(s: seq<Row>, limit: int) returns (rest: seq<Row>)
    requires limit >= 0
    ensures Slice(s, limit) + rest == s && |Slice(s, limit)| == if |s| < limit then |s| else limit
  {
    rest := s[|Slice(s, limit)|..];
  }

  /** All rows are those of the first backends followed by those of the last. */
  lemma AllRowsAppend(providers: seq<seq<Row>>, rows: seq<Row>)
    ensures AllRows([]) == [] && AllRows(providers + [rows]) == AllRows(providers) + rows
  {
    assert (providers + [rows])[..|providers|] == providers;
  }

  /** A negative limit drops that many rows from the end. */
  lemma NegativeLimitDropsLast(s: seq<Row>, limit: int)
    requires limit < 0
    ensures Slice(s, limit) == if -limit <= |s| then s[..|s| - -limit] else []
  {
  }
}
