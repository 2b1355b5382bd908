/**
 Following parent links through an index that may be cyclic, contradictory or incomplete. Three places
 walk this way: the ancestor loop of the process graph, both modes of the process-chain endpoint, and
 the JSON-file provider's chain trace. They differ in the index, the link and the ids already seen.
 */
module ParentWalk {
  import opened Options
  import opened Collections

  lemma SmallerSetOnce(keys: set<string>, seen: set<string>, x: string)
    requires x in keys && x !in seen
    ensures |keys - (seen + {x})| < |keys - seen|
  {
    assert x in keys - seen;
    SubsetSize(keys - (seen + {x}), keys - seen);
  }

  /** The ids a guarded walk visits: it stops at a missing link, an unindexed id, or an id in `seen`. */
  function WalkIds<E>(idx: map<string, E>, parent: E -> Option<string>, from: Option<string>,
      seen: set<string>): (ids: seq<string>)
    ensures forall x | x in ids :: x in idx
    decreases |idx.Keys - seen|
  {
    if !Truthy(from) || from.value !in idx || from.value in seen then []
    else
      SmallerSetOnce(idx.Keys, seen, from.value);
      [from.value] + WalkIds(idx, parent, parent(idx[from.value]), seen + {from.value})
  }

  /** The rows of an index at the given ids. */
  function Rows<E>(idx: map<string, E>, ids: seq<string>): (rows: seq<E>)
    requires forall x | x in ids :: x in idx
    ensures |rows| == |ids|
  {
    seq(|ids|, i requires 0 <= i < |ids| => idx[ids[i]])
  }

  lemma RowsAppend<E>(idx: map<string, E>, ids: seq<string>, id: string)
    requires id in idx && forall x | x in ids :: x in idx
    ensures (forall x | x in ids + [id] :: x in idx) && Rows(idx, ids + [id]) == Rows(idx, ids) + [idx[id]]
  {
  }

  /** The n-th id of the unguarded walk, which on a cycle goes round for ever. */
  ghost function Nth<E>(idx: map<string, E>, parent: E -> Option<string>, from: Option<string>, n: nat): Option<string>
    decreases n
  {
    if !Truthy(from) || from.value !in idx then None
    else if n == 0 then from
    else Nth(idx, parent, parent(idx[from.value]), n - 1)
  }

  /** The unguarded walk reaches `x` without first meeting an id of `seen`. */
  ghost predicate ReachesUp<E>(idx: map<string, E>, parent: E -> Option<string>, from: Option<string>,
      seen: set<string>, x: string) {
    exists n: nat :: Nth(idx, parent, from, n) == Some(x) && Avoids(idx, parent, from, seen, n)
  }

  ghost predicate Avoids<E>(idx: map<string, E>, parent: E -> Option<string>, from: Option<string>, seen: set<string>,
      n: nat) {
    forall m: nat | m <= n :: var y := Nth(idx, parent, from, m); y.Some? ==> y.value !in seen
  }

  lemma {:induction false} NthStep<E>(idx: map<string, E>, parent: E -> Option<string>, from: Option<string>, n: nat)
    ensures match Nth(idx, parent, from, n)
            case None => Nth(idx, parent, from, n + 1) == None
            case Some(x) =>
              && x in idx
              && var p := parent(idx[x]);
                 Nth(idx, parent, from, n + 1) == if Truthy(p) && p.value in idx then p else None
    decreases n
  {
    if Truthy(from) && from.value in idx && n > 0 {
      NthStep(idx, parent, parent(idx[from.value]), n - 1);
    }
  }

  /** The i-th id visited is the i-th iterate; no id is visited twice; none was already seen. */
  lemma {:induction false} WalkIsIterates<E>(idx: map<string, E>, parent: E -> Option<string>, from: Option<string>,
      seen: set<string>)
    ensures var ids := WalkIds(idx, parent, from, seen);
      && (forall i | 0 <= i < |ids| :: Nth(idx, parent, from, i) == Some(ids[i]) && ids[i] in idx && ids[i] !in seen)
      && (forall i, j | 0 <= i < j < |ids| :: ids[i] != ids[j])
    decreases |idx.Keys - seen|
  {
    var ids := WalkIds(idx, parent, from, seen);
    if ids != [] {
      SmallerSetOnce(idx.Keys, seen, from.value);
      var next := parent(idx[from.value]);
      WalkIsIterates(idx, parent, next, seen + {from.value});
      var rest := WalkIds(idx, parent, next, seen + {from.value});
      forall i | 0 <= i < |ids|
        ensures Nth(idx, parent, from, i) == Some(ids[i]) && ids[i] in idx && ids[i] !in seen
      {
        if i > 0 {
          assert ids[i] == rest[i - 1];
          assert Nth(idx, parent, from, i) == Nth(idx, parent, next, i - 1);
        }
      }
    }
  }

  /** Whatever follows a visited id was visited too, unless the walk had to stop there. */
  lemma {:induction false} WalkIsClosed<E>(idx: map<string, E>, parent: E -> Option<string>, from: Option<string>,
      seen: set<string>, x: string)
    requires x in WalkIds(idx, parent, from, seen)
    ensures x in idx
    ensures var p := parent(idx[x]); Truthy(p) && p.value in idx && p.value !in seen ==>
        p.value in WalkIds(idx, parent, from, seen)
    decreases |idx.Keys - seen|
  {
    SmallerSetOnce(idx.Keys, seen, from.value);
    var next := parent(idx[from.value]);
    var rest := WalkIds(idx, parent, next, seen + {from.value});
    assert WalkIds(idx, parent, from, seen) == [from.value] + rest;
    if x in rest {
      WalkIsClosed(idx, parent, next, seen + {from.value}, x);
    } else {
      assert x == from.value;
      assert Truthy(next) && next.value in idx && next.value !in seen + {from.value} ==> rest[0] == next.value;
    }
  }

  /**
   Exactness: the guarded walk visits an id iff the unguarded walk would reach it before meeting a
   previously seen id. So a cycle stops the walk but hides nothing.
   */
  lemma {:induction false} WalkIsExact<E>(idx: map<string, E>, parent: E -> Option<string>, from: Option<string>,
      seen: set<string>, x: string)
    ensures x in WalkIds(idx, parent, from, seen) <==> ReachesUp(idx, parent, from, seen, x)
  {
    var ids := WalkIds(idx, parent, from, seen);
    WalkIsIterates(idx, parent, from, seen);
    if x in ids {
      var i :| 0 <= i < |ids| && ids[i] == x;
      forall m: nat | m <= i
        ensures var y := Nth(idx, parent, from, m); y.Some? ==> y.value !in seen
      {
        assert Nth(idx, parent, from, m) == Some(ids[m]);
      }
      assert Avoids(idx, parent, from, seen, i);
    }
    if ReachesUp(idx, parent, from, seen, x) {
      var n: nat :| Nth(idx, parent, from, n) == Some(x) && Avoids(idx, parent, from, seen, n);
      AvoidingIterateIsVisited(idx, parent, from, seen, n);
    }
  }

  lemma {:induction false} AvoidingIterateIsVisited<E>(idx: map<string, E>, parent: E -> Option<string>,
      from: Option<string>, seen: set<string>, n: nat)
    requires Nth(idx, parent, from, n).Some?
    requires Avoids(idx, parent, from, seen, n)
    ensures Nth(idx, parent, from, n).value in WalkIds(idx, parent, from, seen)
    decreases n
  {
    if n == 0 {
      assert from.value !in seen by {
        assert Nth(idx, parent, from, 0) == from;
      }
    } else {
      NthStep(idx, parent, from, n - 1);
      AvoidingIterateIsVisited(idx, parent, from, seen, n - 1);
      WalkIsClosed(idx, parent, from, seen, Nth(idx, parent, from, n - 1).value);
    }
  }

  /** `x` is one or more links above `root`. */
  ghost predicate IsAbove<E>(idx: map<string, E>, parent: E -> Option<string>, root: string, x: string) {
    exists n: nat :: n >= 1 && Nth(idx, parent, Some(root), n) == Some(x)
  }

  /**
   Starting one link above `root` with only `root` seen, the walk finds every id at least one link up,
   except `root` itself: a cycle through `root` loses none of the others.
   */
  lemma AncestorsAreExact<E>(idx: map<string, E>, parent: E -> Option<string>, root: string, x: string)
    requires root in idx && root != ""
    ensures x in WalkIds(idx, parent, parent(idx[root]), {root})
            <==> x != root && IsAbove(idx, parent, root, x)
  {
    var above := WalkIds(idx, parent, parent(idx[root]), {root});
    assert {} + {root} == {root};
    assert WalkIds(idx, parent, Some(root), {}) == [root] + above;
    WalkIsExact(idx, parent, Some(root), {}, x);
    WalkIsIterates(idx, parent, parent(idx[root]), {root});
    if x in above {
      assert x in [root] + above && x != root;
      var n: nat :| Nth(idx, parent, Some(root), n) == Some(x) && Avoids(idx, parent, Some(root), {}, n);
      assert n >= 1;
    }
  }

  /** The guarded walk as a loop. */
  method Walk<E>(idx: map<string, E>, parent: E -> Option<string>, from: Option<string>, seenBefore: set<string>)
      returns (rows: seq<E>)
    ensures rows == Rows(idx, WalkIds(idx, parent, from, seenBefore))
  {
    rows := [];
    var seen := seenBefore;
    var current := from;
    ghost var ids: seq<string> := [];
    while Truthy(current) && current.value !in seen && current.value in idx
      invariant forall x | x in ids :: x in idx
      invariant rows == Rows(idx, ids)
      invariant WalkIds(idx, parent, from, seenBefore) == ids + WalkIds(idx, parent, current, seen)
      decreases |idx.Keys - seen|
    {
      var id := current.value;
      SmallerSetOnce(idx.Keys, seen, id);
      RowsAppend(idx, ids, id);
      Assoc(ids, [id], WalkIds(idx, parent, parent(idx[id]), seen + {id}));
      seen := seen + {id};
      rows := rows + [idx[id]];
      ids := ids + [id];
      current := parent(idx[id]);
    }
  }
}
