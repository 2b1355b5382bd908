/**
 What the tracker's results say, read off the events that went in: what an exit keeps of its start, which
 exits count as expired, what a snapshot fills in, and the reasons given for missing parents.
 */
module TrackerMeaning {
  import opened Collections
  import opened Options
  import opened ProcessIdentity
  import opened TrackerModel

  // ---------- from start to exit ----------

  function ImageIn(e: Event): string {
    if e.imagePath == "" && "image" in e.raw then e.raw["image"] else e.imagePath
  }

  /** A started process is active under its PID with exactly what its start said. */
  lemma StartIsActive(at: Endpoint, ix: Indexes, start: Event)
    requires start.pid != ""
    ensures var active := Step(at, ix, StartOp(start)).byPid;
      && start.pid in active
      && active[start.pid] == Tracked(start.pid, Identified(at, start).entity, start.createTime, ImageIn(start),
          start.imageHash, 0)
  {
    IdentityFills(start.(host := if start.host == "" then at.host else start.host), at.bootId);
  }

  /**
   A process that stops with nothing but its PID is reported, and kept, with the entity id, create time, image
   path and hash of its start, whatever the tracker held before.
   */
  lemma ExitReturnsTheStart(at: Endpoint, ix: Indexes, pool: Pool, start: Event, exit: Event, now: int)
    requires start.pid == exit.pid != ""
    requires exit.entity == NoId && exit.createTime == exit.imagePath == exit.imageHash == "" && "image" !in exit.raw
    ensures var stopped := IdentifiedExit(at, exit, Step(at, ix, StartOp(start)).byPid);
      var entity := Identified(at, start).entity;
      && entity != NoId && stopped.entity == entity && stopped.pid == start.pid
      && stopped.createTime == start.createTime && stopped.imagePath == ImageIn(start)
          && stopped.imageHash == start.imageHash
      && var kept := WithExit(pool, stopped, now);
         && start.pid in kept && kept[start.pid] != []
         && kept[start.pid][|kept[start.pid]| - 1]
            == Tracked(start.pid, entity, start.createTime, ImageIn(start), start.imageHash, now)
  {
    StartIsActive(at, ix, start);
    var filled := FilledFromActive(exit, Step(at, ix, StartOp(start)).byPid);
    IdentityFills(filled.(host := if filled.host == "" then at.host else filled.host), at.bootId);
  }

  /** What an exit brings itself is never overwritten by the active entry. */
  lemma ExitKeepsItsOwn(at: Endpoint, exit: Event, active: ByPid)
    requires exit.pid != ""
    ensures var stopped := IdentifiedExit(at, exit, active);
      && (exit.entity != NoId ==> stopped.entity == exit.entity)
      && (exit.createTime != "" ==> stopped.createTime == exit.createTime)
      && (exit.imagePath != "" ==> stopped.imagePath == exit.imagePath)
      && (exit.imageHash != "" ==> stopped.imageHash == exit.imageHash)
      && stopped.eventType == (if exit.eventType == "" then "process_stop" else exit.eventType)
  {
    var filled := FilledFromActive(exit, active);
    IdentityFills(filled.(host := if filled.host == "" then at.host else filled.host), at.bootId);
  }

  // ---------- the retention window ----------

  /** Of exits in chronological order, those still inside the window are the tail from some position on. */
  lemma {:induction false} UnexpiredIsTail(s: seq<Tracked>, now: int, retention: int) returns (k: nat)
    requires Chronological(s)
    ensures k <= |s| && Unexpired(s, now, retention) == s[k..]
    ensures forall i | 0 <= i < |s| :: i < k <==> s[i].exitedAt < now - retention
  {
    var n := |s| - 1;
    if s == [] {
      k := 0;
    } else if s[n].exitedAt < now - retention {
      k := |s|;
      AllExpired(s, now, retention);
    } else {
      k := UnexpiredIsTail(s[..n], now, retention);
      TailSnoc(s, k);
      assert forall i | 0 <= i < n :: s[..n][i] == s[i];
    }
  }

  lemma {:induction false} AllExpired(s: seq<Tracked>, now: int, retention: int)
    requires forall i | 0 <= i < |s| :: s[i].exitedAt < now - retention
    ensures Unexpired(s, now, retention) == []
  {
    if s != [] {
      AllExpired(s[..|s| - 1], now, retention);
    }
  }

  lemma TailSnoc<T>(s: seq<T>, k: nat)
    requires s != [] && k < |s|
    ensures s[..|s| - 1][k..] + [s[|s| - 1]] == s[k..]
  {
  }

  // ---------- snapshots ----------

  /** What a snapshot fills in: the tenant and the host where the event has none. */
  lemma SnapshotFillsIn(at: Endpoint, tenant: string, events: seq<Event>, i: nat)
    requires i < |events|
    ensures var e := IdentifyAll(at, tenant, events)[i];
      && e.tenant == (if events[i].tenant == "" then tenant else events[i].tenant)
      && e.host == (if events[i].host == "" then at.host else events[i].host)
      && e.pid == events[i].pid && e.parentPid == events[i].parentPid && e.createTime == events[i].createTime
      && (e.pid != "" ==> e.imagePath == ImageIn(events[i]) && e.imageHash == events[i].imageHash)
  {
    var given := events[i].(tenant := if events[i].tenant == "" then tenant else events[i].tenant);
    if given.pid != "" {
      IdentityFills(given.(host := if given.host == "" then at.host else given.host), at.bootId);
    }
  }

  // ---------- missing parents ----------

  /** After resolution a parent that was asked for has an id and no reason, or no id and the given reason. */
  lemma ResolvedOrReason(e: Event, current: ByPid, active: ByPid, pool: Pool, now: int, retention: int, reason: string)
    requires Named(current) && Named(active) && PoolOk(pool, now) && e.parentPid != "" && e.parentEntity == NoId
    ensures var r := Resolve(e, current, active, pool, now, retention, reason);
      && (r.parentEntity != NoId ==> r == e.(parentEntity := r.parentEntity, missingReason := ""))
      && (r.parentEntity == NoId ==> r == e.(missingReason := reason))
  {
    GapIffNoParent(e, current, active, pool, now, retention, reason);
  }

  lemma OthersAreLeftAlone(e: Event, current: ByPid, active: ByPid, pool: Pool, now: int, retention: int,
      reason: string)
    requires e.parentPid == "" || e.parentEntity != NoId
    ensures Resolve(e, current, active, pool, now, retention, reason) == e
  {
  }

  ghost function GapsBelow(s: seq<Event>, n: nat): set<nat>
    requires n <= |s|
  {
    set i: nat | i < n && IsGap(s[i])
  }

  predicate IsGap(e: Event) {
    |e.parentPid| > 0 && e.parentEntity == NoId
  }

  /** The number of gaps is the number of positions whose event has a parent PID and no parent id. */
  lemma {:induction false} GapsAreCounted(s: seq<Event>)
    ensures CountGaps(s) == |GapsBelow(s, |s|)|
  {
    if s != [] {
      var n := |s| - 1;
      GapsAreCounted(s[..n]);
      assert GapsBelow(s[..n], n) == GapsBelow(s, n);
      GapsBelowSnoc(s, n);
      assert NeedsParent(s[n]) <==> IsGap(s[n]);
    }
  }

  lemma GapsBelowSnoc(s: seq<Event>, n: nat)
    requires n < |s|
    ensures |GapsBelow(s, n + 1)| == |GapsBelow(s, n)| + if IsGap(s[n]) then 1 else 0
  {
    if IsGap(s[n]) {
      assert GapsBelow(s, n + 1) == GapsBelow(s, n) + {n};
    } else {
      assert GapsBelow(s, n + 1) == GapsBelow(s, n);
    }
  }

  /** The first snapshot names itself in its gaps; no later one does. */
  lemma SnapshotReasons()
    ensures SnapshotGapReason(true) == "parent_not_observed_in_startup_snapshot"
    ensures SnapshotGapReason(false) == "parent_not_observed_in_snapshot"
  {
  }
}
