/** The agent's process tracker, with the loops and in-place updates of the original. */
module ProcessTracker {
  import opened Options
  import opened ProcessIdentity
  import opened TrackerModel
  import opened RetainedParents

  /** The scan for the oldest exit; Go visits the PIDs in any order. */
  method OldestExit(pool: Pool) returns (oldestPid: string, oldestIndex: int)
    ensures oldestIndex == -1 ==> Slots(pool) == {}
    ensures oldestIndex != -1 ==> oldestPid in pool && 0 <= oldestIndex < |pool[oldestPid]|
    ensures oldestIndex != -1 ==>
      && (forall q, j | q in pool && 0 <= j < |pool[q]| :: pool[oldestPid][oldestIndex].exitedAt <= pool[q][j].exitedAt)
      && (forall i | 0 <= i < oldestIndex :: pool[oldestPid][oldestIndex].exitedAt < pool[oldestPid][i].exitedAt)
  {
    oldestPid, oldestIndex := "", -1;
    var oldestTime := 0;
    var todo := pool.Keys;
    while todo != {}
      invariant todo <= pool.Keys
      invariant oldestIndex == -1 ==> forall q | q in pool && q !in todo :: pool[q] == []
      invariant oldestIndex != -1 ==>
          oldestPid in pool && 0 <= oldestIndex < |pool[oldestPid]|
          && oldestTime == pool[oldestPid][oldestIndex].exitedAt
      invariant oldestIndex != -1 ==>
        && (forall q, j | q in pool && q !in todo && 0 <= j < |pool[q]| :: oldestTime <= pool[q][j].exitedAt)
        && (forall i | 0 <= i < oldestIndex :: oldestTime < pool[oldestPid][i].exitedAt)
      decreases todo
    {
      var pid :| pid in todo;
      todo := todo - {pid};
      var exits := pool[pid];
      for n := 0 to |exits|
        invariant oldestIndex == -1 ==> n == 0 && forall q | q in pool && q !in todo && q != pid :: pool[q] == []
        invariant oldestIndex != -1 ==>
            oldestPid in pool && 0 <= oldestIndex < |pool[oldestPid]|
            && oldestTime == pool[oldestPid][oldestIndex].exitedAt
        invariant oldestIndex != -1 ==>
          && (forall q, j | q in pool && q !in todo && q != pid
              && 0 <= j < |pool[q]| :: oldestTime <= pool[q][j].exitedAt)
          && (forall j | 0 <= j < n :: oldestTime <= exits[j].exitedAt)
          && (forall i | 0 <= i < oldestIndex :: oldestTime < pool[oldestPid][i].exitedAt)
      {
        if oldestIndex == -1 || exits[n].exitedAt < oldestTime {
          oldestPid, oldestIndex, oldestTime := pid, n, exits[n].exitedAt;
        }
      }
    }
  }

  method FilterUnexpired(s: seq<Tracked>, now: int, retention: int) returns (filtered: seq<Tracked>)
    ensures filtered == Unexpired(s, now, retention)
  {
    filtered := [];
    for n := 0 to |s|
      invariant filtered == Unexpired(s[..n], now, retention)
    {
      assert s[..n + 1][..n] == s[..n];
      if now - s[n].exitedAt <= retention {
        filtered := filtered + [s[n]];
      }
    }
    assert s[..|s|] == s;
  }

  /** `retainedParent`: the newest exit of the list that is still inside the window. */
  method FindRetained(s: seq<Tracked>, now: int, retention: int) returns (r: Option<Tracked>)
    ensures r == RetainedParent(s, now, retention)
  {
    var i := |s|;
    assert s[..i] == s;
    while i > 0
      invariant 0 <= i <= |s|
      invariant RetainedParent(s, now, retention) == RetainedParent(s[..i], now, retention)
    {
      assert s[..i][..i - 1] == s[..i - 1];
      i := i - 1;
      if now - s[i].exitedAt <= retention {
        return Some(s[i]);
      }
    }
    r := None;
  }

  class Tracker {
    const at: Endpoint
    const retention: int
    const maxExited: nat
    var snapshotObserved: bool
    var missingParentGaps: nat
    var lastGapReason: string
    var activeByPid: ByPid
    var activeByEntity: ByEntity
    var retained: Pool

    /** The tracker after its last reading of the clock, `now`. */
    ghost predicate Valid(now: int)
      reads this
    {
      Named(activeByPid) && PoolOk(retained, now)
    }

    ghost function Ix(): Indexes
      reads this
    {
      Indexes(activeByPid, activeByEntity)
    }

    ghost function Contents(): Store
      reads this
    {
      Store(Ix(), retained)
    }

    constructor (at: Endpoint, retention: int, maxExited: int)
      ensures this.at == at && Ix() == Indexes(map[], map[]) && retained == map[]
      ensures this.retention == (if retention <= 0 then 300_000_000_000 else retention)
      ensures this.maxExited == (if maxExited <= 0 then 1024 else maxExited)
      ensures forall now :: Valid(now)
      ensures missingParentGaps == 0 && !snapshotObserved
    {
      this.at := at;
      this.retention := if retention <= 0 then 300_000_000_000 else retention;
      this.maxExited := if maxExited <= 0 then 1024 else maxExited;
      snapshotObserved, missingParentGaps, lastGapReason := false, 0, "";
      activeByPid, activeByEntity, retained := map[], map[], map[];
    }

    method RememberActive(p: Tracked)
      modifies this`activeByPid, this`activeByEntity
      ensures Ix() == Remember(old(Ix()), p)
    {
      if p.pid != "" {
        if p.pid in activeByPid && activeByPid[p.pid].entity != p.entity {
          activeByEntity := activeByEntity - {activeByPid[p.pid].entity};
        }
        activeByPid := activeByPid[p.pid := p];
      }
      if p.entity != NoId {
        activeByEntity := activeByEntity[p.entity := p];
      }
    }

    method ResolveParent(e: Event, current: ByPid, reason: string, now: int) returns (r: Event)
      requires Valid(now) && Named(current)
      modifies this`missingParentGaps, this`lastGapReason
      ensures r == Resolve(e, current, activeByPid, retained, now, retention, reason)
      ensures missingParentGaps == old(missingParentGaps) + if NeedsParent(r) then 1 else 0
      ensures lastGapReason == if NeedsParent(r) then reason else old(lastGapReason)
    {
      r := e;
      GapIffNoParent(e, current, activeByPid, retained, now, retention, reason);
      if !NeedsParent(e) {
        return;
      }
      if e.parentPid in current {
        return e.(parentEntity := current[e.parentPid].entity, missingReason := "");
      }
      if e.parentPid in activeByPid {
        return e.(parentEntity := activeByPid[e.parentPid].entity, missingReason := "");
      }
      var parent := FindRetained(if e.parentPid in retained then retained[e.parentPid] else [], now, retention);
      if parent.Some? {
        return e.(parentEntity := parent.value.entity, missingReason := "");
      }
      missingParentGaps := missingParentGaps + 1;
      lastGapReason := reason;
      r := e.(missingReason := reason);
    }

    // ---------- purging ----------

    method PurgeExited(now: int)
      requires PoolOk(retained, now)
      modifies this`retained
      ensures Purged(old(retained), retained, now, retention, maxExited)
      ensures PoolOk(retained, now)
    {
      UnexpiredPoolOk(retained, now, retention);
      var total := DropExpired(now);
      DropOldest(total);
      PurgedPoolOk(old(retained), retained, now, retention, maxExited);
    }

    /** The first loop of the purge. */
    method DropExpired(now: int) returns (total: nat)
      modifies this`retained
      ensures retained == UnexpiredPool(old(retained), now, retention) && total == Total(retained)
    {
      ghost var alive := UnexpiredPool(retained, now, retention);
      total := 0;
      var todo := retained.Keys;
      assert alive - todo == map[];
      while todo != {}
        invariant todo <= old(retained).Keys && retained.Keys <= old(retained).Keys
        invariant forall pid | pid in todo :: pid in retained && retained[pid] == old(retained)[pid]
        invariant retained - todo == alive - todo && total == Total(alive - todo)
        decreases todo
      {
        var pid :| pid in todo;
        var filtered := FilterUnexpired(retained[pid], now, retention);
        ExpiredStep(old(retained), now, retention, todo, pid);
        ghost var before := retained;
        if |filtered| == 0 {
          retained := retained - {pid};
        } else {
          retained := retained[pid := filtered];
          total := total + |filtered|;
        }
        FinishPid(before, alive, todo, pid, filtered);
        todo := todo - {pid};
      }
      assert retained - todo == retained && alive - todo == alive;
    }

    /** The second loop of the purge. */
    method DropOldest(counted: nat)
      requires counted == Total(retained)
      requires forall pid | pid in retained :: retained[pid] != [] && Chronological(retained[pid])
      modifies this`retained
      ensures NewestOf(old(retained), retained)
      ensures Total(retained) == if counted <= maxExited then counted else maxExited
    {
      ghost var alive := retained;
      var total := counted;
      while total > maxExited
        invariant total == Total(retained) && total <= counted && (total >= maxExited || total == counted)
        invariant NewestOf(alive, retained)
      {
        var oldestPid, oldestIndex := OldestExit(retained);
        if oldestIndex == -1 {
          return;
        }
        FirstIsOldest(alive, retained, oldestPid, oldestIndex);
        SlotsDrop(retained, oldestPid);
        SuffixStep(alive, retained, oldestPid);
        OldestStep(alive, retained, oldestPid);
        DeleteAtHead(retained, oldestPid);
        var exits := retained[oldestPid];
        retained := retained[oldestPid := exits[..oldestIndex] + exits[oldestIndex + 1..]];
        if |retained[oldestPid]| == 0 {
          retained := retained - {oldestPid};
        }
        total := total - 1;
      }
    }

    // ---------- observing ----------

    /** Resolve an identified event and remember its process; both the start and the snapshot path do this. */
    method Admit(event: Event, current: ByPid, reason: string, now: int) returns (out: Event)
      requires Valid(now) && Named(current) && (event.pid != "" ==> event.entity != NoId)
      modifies this`activeByPid, this`activeByEntity, this`missingParentGaps, this`lastGapReason
      ensures Valid(now)
      ensures out == Resolve(event, current, old(activeByPid), retained, now, retention, reason)
      ensures Ix() == AfterStart(old(Ix()), event)
      ensures missingParentGaps == old(missingParentGaps) + if NeedsParent(out) then 1 else 0
      ensures lastGapReason == if NeedsParent(out) then reason else old(lastGapReason)
    {
      NamedStep(Ix(), event);
      out := ResolveParent(event, current, reason, now);
      if out.pid != "" {
        RememberActive(ProcessOf(out, 0));
      }
    }

    method IdentifySnapshot(tenant: string, events: seq<Event>) returns (out: seq<Event>, current: ByPid)
      ensures out == IdentifyAll(at, tenant, events) && current == SnapshotByPid(out)
    {
      current := map[];
      out := [];
      var identify := Identifier(at, tenant);
      for i := 0 to |events|
        invariant out == MapAll(identify, events[..i])
        invariant current == SnapshotByPid(out)
      {
        var event := identify(events[i]);
        SnapshotByPidStep(out, event);
        MapAllStep(identify, events, i);
        out := out + [event];
        if event.pid != "" {
          current := current[event.pid := ProcessOf(event, 0)];
        }
      }
      assert events[..|events|] == events;
    }

    /** The second pass, which updates the indexes while it still resolves against them. */
    method ResolveSnapshot(identified: seq<Event>, current: ByPid, reason: string, now: int) returns (out: seq<Event>)
      requires Valid(now) && Named(current) && PidsIn(identified, current)
      requires forall e | e in identified && e.pid != "" :: e.entity != NoId
      modifies this`activeByPid, this`activeByEntity, this`missingParentGaps, this`lastGapReason
      ensures Valid(now)
      ensures out == ResolveAll(identified, current, old(activeByPid), retained, now, retention, reason)
      ensures Ix() == AfterAll(old(Ix()), out)
      ensures missingParentGaps == old(missingParentGaps) + CountGaps(out)
      ensures lastGapReason == if CountGaps(out) > 0 then reason else old(lastGapReason)
    {
      out := [];
      ghost var before, counted, pool := Ix(), missingParentGaps, retained;
      ghost var resolve := Resolver(current, activeByPid, retained, now, retention, reason);
      for i := 0 to |identified|
        invariant Valid(now) && missingParentGaps >= counted
        invariant lastGapReason == if missingParentGaps > counted then reason else old(lastGapReason)
        invariant ResolvedSoFar(identified, i, out, resolve, current, before, Ix(), missingParentGaps - counted)
      {
        ResolveOneMore(identified, i, out, current, before, Ix(), missingParentGaps - counted, pool, now, retention,
            reason);
        var event := Admit(identified[i], current, reason, now);
        out := out + [event];
      }
      assert identified[..|identified|] == identified;
    }

    /** Both passes and the purge. */
    method AdmitSnapshot(tenant: string, events: seq<Event>, reason: string, now: int) returns (out: seq<Event>)
      requires Valid(now)
      modifies this`activeByPid, this`activeByEntity, this`retained, this`missingParentGaps, this`lastGapReason
      ensures Valid(now)
      ensures Ix() == AfterAll(old(Ix()), IdentifyAll(at, tenant, events))
      ensures Purged(old(retained), retained, now, retention, maxExited)
      ensures var s := IdentifyAll(at, tenant, events);
        out == ResolveAll(s, SnapshotByPid(s), old(activeByPid), old(retained), now, retention, reason)
      ensures missingParentGaps == old(missingParentGaps) + CountGaps(out)
      ensures lastGapReason == if CountGaps(out) > 0 then reason else old(lastGapReason)
    {
      ghost var before, pool := Ix(), retained;
      var identified, current := IdentifySnapshot(tenant, events);
      SnapshotTableIsComplete(identified);
      out := ResolveSnapshot(identified, current, reason, now);
      ResolvedProcessesAreTheSame(before, identified, current, before.byPid, pool, now, retention, reason);
      PurgeExited(now);
    }

    method ObserveSnapshot(tenant: string, events: seq<Event>, now: int) returns (out: seq<Event>)
      requires Valid(now)
      modifies this
      ensures Valid(now)
      ensures Ix() == AfterAll(old(Ix()), IdentifyAll(at, tenant, events))
      ensures events == [] ==> snapshotObserved == old(snapshotObserved) && retained == old(retained)
      ensures events != [] ==> snapshotObserved && Purged(old(retained), retained, now, retention, maxExited)
      ensures var s := IdentifyAll(at, tenant, events);
        out == ResolveAll(s, SnapshotByPid(s), old(activeByPid), old(retained), now, retention,
            SnapshotGapReason(!old(snapshotObserved)))
      ensures missingParentGaps == old(missingParentGaps) + CountGaps(out)
      ensures lastGapReason == if CountGaps(out) > 0 then SnapshotGapReason(!old(snapshotObserved))
          else old(lastGapReason)
      ensures Observes(at, old(Contents()), Timed(SnapshotOp(tenant, events), now), Contents(), retention, maxExited)
    {
      if |events| == 0 {
        EmptySnapshot(at, tenant, events, Ix(), activeByPid, retained, now, retention,
            SnapshotGapReason(!snapshotObserved));
        return events;
      }
      out := AdmitSnapshot(tenant, events, SnapshotGapReason(!snapshotObserved), now);
      snapshotObserved := true;
    }

    method ObserveProcessStart(e: Event, now: int) returns (out: Event)
      requires Valid(now)
      modifies this`activeByPid, this`activeByEntity, this`retained, this`missingParentGaps, this`lastGapReason
      ensures Valid(now)
      ensures Ix() == AfterStart(old(Ix()), Identified(at, e))
      ensures out == Resolve(Identified(at, e), map[], old(activeByPid), old(retained), now, retention,
          "parent_not_observed_by_tracker")
      ensures missingParentGaps == old(missingParentGaps) + if NeedsParent(out) then 1 else 0
      ensures lastGapReason == if NeedsParent(out) then "parent_not_observed_by_tracker" else old(lastGapReason)
      ensures Purged(old(retained), retained, now, retention, maxExited)
      ensures Observes(at, old(Contents()), Timed(StartOp(e), now), Contents(), retention, maxExited)
    {
      var event := Identified(at, e);
      out := Admit(event, map[], "parent_not_observed_by_tracker", now);
      PurgeExited(now);
    }

    /** Move an identified process from the indexes to the pool. */
    method Retire(event: Event, now: int)
      requires Valid(now) && (event.pid != "" ==> event.entity != NoId)
      modifies this`activeByPid, this`activeByEntity, this`retained
      ensures Valid(now)
      ensures Ix() == AfterExit(old(Ix()), event)
      ensures retained == WithExit(old(retained), event, now)
    {
      NamedStep(Ix(), event);
      WithExitOk(retained, event, now);
      if event.pid != "" {
        activeByPid := activeByPid - {event.pid};
        if event.entity != NoId {
          activeByEntity := activeByEntity - {event.entity};
        }
        var exits := if event.pid in retained then retained[event.pid] else [];
        retained := retained[event.pid := exits + [ProcessOf(event, now)]];
      }
    }

    method ObserveProcessExit(e: Event, now: int) returns (out: Event)
      requires Valid(now)
      modifies this`activeByPid, this`activeByEntity, this`retained
      ensures Valid(now)
      ensures Ix() == AfterExit(old(Ix()), out)
      ensures out == IdentifiedExit(at, e, old(activeByPid))
      ensures Purged(WithExit(old(retained), out, now), retained, now, retention, maxExited)
      ensures Observes(at, old(Contents()), Timed(ExitOp(e), now), Contents(), retention, maxExited)
      ensures e.pid != "" && e.pid in old(activeByPid) ==> TakesFrom(e, old(activeByPid)[e.pid], out)
    {
      out := IdentifiedExit(at, e, activeByPid);
      if e.pid != "" && e.pid in activeByPid {
        ExitTakesFromActive(at, e, activeByPid);
      }
      Retire(out, now);
      PurgeExited(now);
    }
  }
}
