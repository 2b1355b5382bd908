/**
 Python's `sorted(rows, key=...)`: a stable sort. `Sort` is an insertion sort; the lemmas below pin it
 down as the only ordered arrangement that keeps rows of equal key in their input order, so nothing
 depends on the algorithm chosen here.
 */
module StableSort {
  import opened Collections

  function Insert<T>(key: T -> int, x: T, s: seq<T>): seq<T> {
    if s == [] then [x]
    else if key(x) <= key(s[0]) then [x] + s
    else [s[0]] + Insert(key, x, s[1..])
  }

  function Sort<T>(key: T -> int, s: seq<T>): seq<T> {
    if s == [] then [] else Insert(key, s[0], Sort(key, s[1..]))
  }

  ghost predicate Ordered<T>(key: T -> int, s: seq<T>) {
    forall i, j | 0 <= i < j < |s| :: key(s[i]) <= key(s[j])
  }

  /** The rows of key `k`, in order. */
  ghost function OfKey<T>(key: T -> int, k: int, s: seq<T>): seq<T> {
    if s == [] then []
    else (if key(s[0]) == k then [s[0]] else []) + OfKey(key, k, s[1..])
  }

  lemma SwapHeads<T>(x: T, y: T, s: seq<T>, r: seq<T>)
    requires multiset(r) == multiset([x] + s)
    ensures multiset([y] + r) == multiset([x] + ([y] + s))
  {
  }

  lemma {:induction false} InsertFacts<T>(key: T -> int, x: T, s: seq<T>)
    ensures multiset(Insert(key, x, s)) == multiset([x] + s)
    ensures |Insert(key, x, s)| == |s| + 1
  {
    if s != [] && key(x) > key(s[0]) {
      InsertFacts(key, x, s[1..]);
      SplitHead(s);
      SwapHeads(x, s[0], s[1..], Insert(key, x, s[1..]));
    }
  }

  lemma {:induction false} InsertKeepsOrder<T>(key: T -> int, x: T, s: seq<T>)
    requires Ordered(key, s)
    ensures Ordered(key, Insert(key, x, s))
  {
    if s != [] && key(x) > key(s[0]) {
      var rest := Insert(key, x, s[1..]);
      InsertKeepsOrder(key, x, s[1..]);
      InsertFacts(key, x, s[1..]);
      forall j | 0 <= j < |rest| ensures key(s[0]) <= key(rest[j]) {
        assert rest[j] in multiset(rest);
        assert rest[j] in multiset([x] + s[1..]);
      }
    }
  }

  lemma SameHead<T>(x: T, a: seq<T>, b: seq<T>)
    requires multiset(a) == multiset(b)
    ensures multiset([x] + a) == multiset([x] + b)
  {
  }

  lemma {:induction false} SortFacts<T>(key: T -> int, s: seq<T>)
    ensures multiset(Sort(key, s)) == multiset(s)
    ensures |Sort(key, s)| == |s|
    ensures Ordered(key, Sort(key, s))
  {
    if s != [] {
      var rest := Sort(key, s[1..]);
      SortFacts(key, s[1..]);
      InsertFacts(key, s[0], rest);
      InsertKeepsOrder(key, s[0], rest);
      SplitHead(s);
      SameHead(s[0], rest, s[1..]);
    }
  }

  lemma OfKeyCons<T>(key: T -> int, k: int, x: T, s: seq<T>)
    ensures OfKey(key, k, [x] + s) == (if key(x) == k then [x] else []) + OfKey(key, k, s)
  {
    assert ([x] + s)[1..] == s;
  }

  lemma {:induction false} InsertOfKey<T>(key: T -> int, k: int, x: T, s: seq<T>)
    ensures OfKey(key, k, Insert(key, x, s)) == (if key(x) == k then [x] else []) + OfKey(key, k, s)
  {
    if s == [] || key(x) <= key(s[0]) {
      OfKeyCons(key, k, x, s);
    } else {
      InsertOfKey(key, k, x, s[1..]);
      OfKeyCons(key, k, s[0], Insert(key, x, s[1..]));
      OfKeyCons(key, k, s[0], s[1..]);
      SplitHead(s);
      NoneOnOneSide(OfKey(key, k, s[1..]), x);
      NoneOnOneSide(OfKey(key, k, s[1..]), s[0]);
    }
  }

  lemma NoneOnOneSide<T>(s: seq<T>, x: T)
    ensures [] + s == s && [] + ([x] + s) == [x] + s && [x] + ([] + s) == [x] + s
  {
  }

  /** Stability: rows with equal keys keep their relative order. */
  lemma {:induction false} SortIsStable<T>(key: T -> int, k: int, s: seq<T>)
    ensures OfKey(key, k, Sort(key, s)) == OfKey(key, k, s)
  {
    if s != [] {
      SortIsStable(key, k, s[1..]);
      InsertOfKey(key, k, s[0], Sort(key, s[1..]));
      SplitHead(s);
      OfKeyCons(key, k, s[0], s[1..]);
    }
  }

  lemma {:induction false} OfKeyHead<T>(key: T -> int, s: seq<T>, t: seq<T>)
    requires s != [] && Ordered(key, s) && Ordered(key, t)
    requires forall k :: OfKey(key, k, s) == OfKey(key, k, t)
    ensures t != [] && s[0] == t[0]
  {
    assert OfKey(key, key(s[0]), s)[0] == s[0];
    OfKeyMembers(key, key(s[0]), t);
    if key(t[0]) != key(s[0]) {
      assert OfKey(key, key(t[0]), t)[0] == t[0];
      OfKeyMembers(key, key(t[0]), s);
    }
  }

  lemma {:induction false} OfKeyMembers<T>(key: T -> int, k: int, s: seq<T>)
    requires OfKey(key, k, s) != []
    ensures exists i :: 0 <= i < |s| && s[i] == OfKey(key, k, s)[0] && key(s[i]) == k
  {
    if key(s[0]) != k {
      OfKeyMembers(key, k, s[1..]);
      var i :| 0 <= i < |s[1..]| && s[1..][i] == OfKey(key, k, s[1..])[0] && key(s[1..][i]) == k;
      assert s[i + 1] == s[1..][i];
    }
  }

  /** Ordered + stable determines the result: `Sort` is the stable sort. */
  lemma {:induction false} StableSortIsUnique<T>(key: T -> int, s: seq<T>, t: seq<T>)
    requires Ordered(key, s) && Ordered(key, t)
    requires forall k :: OfKey(key, k, s) == OfKey(key, k, t)
    ensures s == t
  {
    if s == [] {
      if t != [] {
        OfKeyHead(key, t, s);
      }
    } else {
      OfKeyHead(key, s, t);
      forall k ensures OfKey(key, k, s[1..]) == OfKey(key, k, t[1..]) {
        var h := if key(s[0]) == k then [s[0]] else [];
        assert OfKey(key, k, s) == h + OfKey(key, k, s[1..]);
        assert OfKey(key, k, t) == h + OfKey(key, k, t[1..]);
        assert OfKey(key, k, s[1..]) == OfKey(key, k, s)[|h|..];
      }
      StableSortIsUnique(key, s[1..], t[1..]);
    }
  }
}
