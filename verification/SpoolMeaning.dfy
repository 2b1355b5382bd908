/**
 What the spool does, read off the records, the limits and the server's answers: which records a flush keeps,
 when a trim does nothing, and which record an eviction takes.
 */
module SpoolMeaning {
  import opened Collections
  import opened Spool

  // ---------- flushing ----------

  predicate CanBeSent(r: Record) {
    r.kind == Events || (r.kind == TaskResult && r.hasResult)
  }

  function At(q: seq<Record>, positions: seq<nat>): (r: seq<Record>)
    requires forall i | i in positions :: i < |q|
    ensures |r| == |positions|
  {
    seq(|positions|, k requires 0 <= k < |positions| =>
      assert positions[k] in positions; q[positions[k]])
  }

  /** The positions below `n` whose upload was answered with an error or not at all. */
  function Failed(q: seq<Record>, acks: seq<bool>, n: nat): (positions: seq<nat>)
    requires n <= |q|
    ensures forall i | i in positions :: i < n
  {
    if n == 0 then []
    else Failed(q, acks, n - 1) + if CanBeSent(q[n - 1])
        && (n - 1 >= |acks| || acks[n - 1] == false) then [n - 1] else []
  }

  /** The positions below `n` whose upload succeeded. */
  function Succeeded(q: seq<Record>, acks: seq<bool>, n: nat): (positions: seq<nat>)
    requires n <= |q|
    ensures forall i | i in positions :: i < n
  {
    if n == 0 then []
    else Succeeded(q, acks, n - 1) + if CanBeSent(q[n - 1]) && n - 1 < |acks|
        && acks[n - 1] == true then [n - 1] else []
  }

  predicate IsIncreasing(s: seq<nat>) {
    forall i, j | 0 <= i < j < |s| :: s[i] < s[j]
  }

  lemma IncreasingSnoc(s: seq<nat>, n: nat)
    requires IsIncreasing(s) && forall i | i in s :: i < n
    ensures IsIncreasing(s + [n]) && IsIncreasing(s + [])
    ensures forall i :: i in s + [n] <==> i in s || i == n
    ensures s + [] == s
  {
    assert forall k | 0 <= k < |s| :: s[k] in s;
  }

  lemma {:induction false} FailedAreExact(q: seq<Record>, acks: seq<bool>, n: nat, i: nat)
    requires n <= |q|
    ensures IsIncreasing(Failed(q, acks, n))
    ensures i in Failed(q, acks, n) <==> i < n && CanBeSent(q[i]) && (i >= |acks| || acks[i] == false)
  {
    if n > 0 {
      FailedAreExact(q, acks, n - 1, i);
      IncreasingSnoc(Failed(q, acks, n - 1), n - 1);
    }
  }

  lemma {:induction false} SucceededAreExact(q: seq<Record>, acks: seq<bool>, n: nat, i: nat)
    requires n <= |q|
    ensures IsIncreasing(Succeeded(q, acks, n))
    ensures i in Succeeded(q, acks, n) <==> i < n && CanBeSent(q[i]) && i < |acks| && acks[i] == true
  {
    if n > 0 {
      SucceededAreExact(q, acks, n - 1, i);
      IncreasingSnoc(Succeeded(q, acks, n - 1), n - 1);
    }
  }

  lemma {:induction false} PicksAreAtPositions(q: seq<Record>, acks: seq<bool>, n: nat)
    requires n <= |q|
    ensures Unsent(q[..n], acks) == At(q, Failed(q, acks, n)) && Sent(q[..n], acks) == At(q, Succeeded(q, acks, n))
  {
    if n > 0 {
      PicksAreAtPositions(q, acks, n - 1);
      assert q[..n][..n - 1] == q[..n - 1];
      AtSnoc(q, Failed(q, acks, n - 1), n - 1);
      AtSnoc(q, Succeeded(q, acks, n - 1), n - 1);
    }
  }

  lemma AtSnoc(q: seq<Record>, positions: seq<nat>, i: nat)
    requires i < |q| && forall k | k in positions :: k < |q|
    ensures At(q, positions + [i]) == At(q, positions) + [q[i]]
    ensures positions + [] == positions && At(q, positions) + [] == At(q, positions)
  {
  }

  /**
   A flush keeps, in order, exactly the sendable records whose upload did not succeed; it counts those as
   retried and the others as uploaded and replayed, and touches no other counter.
   */
  lemma FlushIsExact(st: State, acks: seq<bool>, at: string)
    ensures var after := FlushStep(st, acks, at);
      var failed, succeeded := Failed(st.queue, acks, |st.queue|), Succeeded(st.queue, acks, |st.queue|);
      && after.queue == At(st.queue, failed)
      && after.uploaded == st.uploaded + |succeeded| && after.replayed == st.replayed + |succeeded|
      && after.retried == st.retried + |failed| && after.lastUpload == (if succeeded == [] then st.lastUpload else at)
      && after.accepted == st.accepted && after.dropped == st.dropped && after.blocked == st.blocked
  {
    PicksAreAtPositions(st.queue, acks, |st.queue|);
    assert st.queue[..|st.queue|] == st.queue;
  }

  // ---------- limits ----------

  function Bytes(s: seq<Record>): nat {
    if s == [] then 0 else s[0].size + Bytes(s[1..])
  }

  lemma {:induction false} SizeIsBytes(s: seq<Record>)
    ensures Size(s) == Bytes(s)
  {
    if s != [] {
      var n := |s| - 1;
      SizeIsBytes(s[..n]);
      BytesSnoc(s[..n], s[n]);
      SplitLast(s);
    }
  }

  lemma {:induction false} BytesSnoc(s: seq<Record>, r: Record)
    ensures Bytes(s + [r]) == Bytes(s) + r.size
  {
    if s == [] {
      assert s + [r] == [r] && [r][1..] == [];
    } else {
      assert (s + [r])[1..] == s[1..] + [r];
      BytesSnoc(s[1..], r);
    }
  }

  /** A trim leaves the records alone exactly when both limits are met, a limit of zero or less being none. */
  lemma TrimIsIdleIff(s: seq<Record>, limits: Limits)
    ensures Trim(s, limits) == s <==>
      && (limits.maxRecords <= 0 || |s| <= limits.maxRecords)
      && (limits.maxBytes <= 0 || Bytes(s) <= limits.maxBytes)
  {
    SizeIsBytes(s);
    TrimIsLeastStep(s, limits, 0);
  }

  /** And what it leaves always meets them. */
  lemma TrimMeetsLimits(s: seq<Record>, limits: Limits)
    ensures var r := Trim(s, limits);
      && (limits.maxRecords <= 0 || |r| <= limits.maxRecords)
      && (limits.maxBytes <= 0 || Bytes(r) <= limits.maxBytes)
  {
    SizeIsBytes(Trim(s, limits));
    TrimIsLeastStep(s, limits, 0);
  }

  /** An eviction takes the first record that is not a task result; only among task results alone, the first. */
  lemma {:induction false} EvictionTakes(s: seq<Record>)
    requires s != []
    ensures var i := DropIndex(s);
      && EvictOnce(s) == s[..i] + s[i + 1..]
      && (forall j | 0 <= j < i :: s[j].kind == TaskResult)
      && (s[i].kind == TaskResult ==> i == 0 && forall j | 0 <= j < |s| :: s[j].kind == TaskResult)
  {
    if IsTask(s[0]) && |s| > 1 {
      EvictionTakes(s[1..]);
      assert forall j | 0 < j < |s| :: s[j] == s[1..][j - 1];
    }
  }
}
