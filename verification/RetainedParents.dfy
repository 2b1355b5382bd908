/** A parent that exits before its child starts: how long the tracker still knows it, over any run. */
module RetainedParents {
  import opened Options
  import opened Collections
  import opened ProcessIdentity
  import opened TrackerModel

  /** The part of a tracker that observations read and write, and an observation with its reading of the clock. */
  datatype Store = Store(ix: Indexes, pool: Pool)

  datatype Timed = Timed(op: Op, now: int)

  ghost function PoolWith(at: Endpoint, s: Store, o: Timed): Pool {
    if o.op.ExitOp? then WithExit(s.pool, IdentifiedExit(at, o.op.event, s.ix.byPid), o.now) else s.pool
  }

  /** What an observation does; among exits of the same instant, the purge is free in its choice. */
  ghost predicate Observes(at: Endpoint, before: Store, o: Timed, after: Store, retention: int, maxExited: nat) {
    && after.ix == Step(at, before.ix, o.op)
    && if o.op.SnapshotOp? && o.op.events == [] then after.pool == before.pool
       else Purged(PoolWith(at, before, o), after.pool, o.now, retention, maxExited)
  }

  /** A run of observations with a clock that does not go back. */
  ghost predicate History(at: Endpoint, states: seq<Store>, ops: seq<Timed>, retention: int, maxExited: nat) {
    && |states| == |ops| + 1
    && (forall i | 0 <= i < |ops| :: Observes(at, states[i], ops[i], states[i + 1], retention, maxExited))
    && (forall i, j | 0 <= i < j < |ops| :: ops[i].now <= ops[j].now)
  }

  predicate LeavesAlone(op: Op, pid: string) {
    match op
    case SnapshotOp(_, events) => forall e | e in events :: e.pid != pid
    case StartOp(e) => e.pid != pid
    case ExitOp(e) => e.pid != pid
  }

  function Exits(ops: seq<Timed>): nat {
    if ops == [] then 0 else Exits(ops[..|ops| - 1]) + if ops[|ops| - 1].op.ExitOp? then 1 else 0
  }

  /** How many of the pool's exits happened at time `t` or later. */
  ghost function Recents(pool: Pool, t: int): nat {
    Total(UnexpiredPool(pool, t, 0))
  }

  lemma SlotsWithin(a: Pool, b: Pool)
    requires forall pid | pid in a :: pid in b && |a[pid]| <= |b[pid]|
    ensures Slots(a) <= Slots(b) && Total(a) <= Total(b)
    ensures Slots(a) != Slots(b) ==> Total(a) < Total(b)
  {
    SubsetSize(Slots(a), Slots(b));
  }

  lemma {:induction false} UnexpiredOfUnexpired(s: seq<Tracked>, now: int, retention: int, t: int)
    ensures |Unexpired(Unexpired(s, now, retention), t, 0)| <= |Unexpired(s, t, 0)|
  {
    if s != [] {
      UnexpiredOfUnexpired(s[..|s| - 1], now, retention, t);
      UnexpiredSnoc(Unexpired(s[..|s| - 1], now, retention), s[|s| - 1], t, 0);
    }
  }

  lemma UnexpiredSnoc(s: seq<Tracked>, x: Tracked, now: int, retention: int)
    ensures Unexpired(s + [x], now, retention)
            == Unexpired(s, now, retention) + if now - x.exitedAt <= retention then [x] else []
    ensures s + [] == s
  {
    assert (s + [x])[..|s|] == s;
  }

  lemma {:induction false} UnexpiredOfSuffix(s: seq<Tracked>, k: nat, t: int)
    requires k <= |s|
    ensures |Unexpired(s[k..], t, 0)| <= |Unexpired(s, t, 0)|
  {
    if k < |s| {
      UnexpiredOfSuffix(s[..|s| - 1], k, t);
      assert s[k..][..|s[k..]| - 1] == s[..|s| - 1][k..];
    }
  }

  /** A purge lets no exit become recent. */
  lemma PurgeKeepsRecents(before: Pool, after: Pool, now: int, retention: int, maxExited: nat, t: int)
    requires Purged(before, after, now, retention, maxExited)
    ensures Recents(after, t) <= Recents(before, t)
    ensures forall pid | pid in UnexpiredPool(after, t, 0) ::
      pid in UnexpiredPool(before, t, 0) && |UnexpiredPool(after, t, 0)[pid]| <= |UnexpiredPool(before, t, 0)[pid]|
  {
    var alive := UnexpiredPool(before, now, retention);
    forall pid | pid in UnexpiredPool(after, t, 0)
      ensures pid in UnexpiredPool(before, t, 0)
      ensures |UnexpiredPool(after, t, 0)[pid]| <= |UnexpiredPool(before, t, 0)[pid]|
    {
      UnexpiredOfSuffix(alive[pid], |alive[pid]| - |after[pid]|, t);
      UnexpiredOfUnexpired(before[pid], now, retention, t);
    }
    SlotsWithin(UnexpiredPool(after, t, 0), UnexpiredPool(before, t, 0));
  }

  lemma SlotsOverwrite(pool: Pool, pid: string, s: seq<Tracked>)
    requires pid in pool
    ensures Total(pool[pid := s]) == Total(pool) - |pool[pid]| + |s|
  {
    SlotsPut(pool - {pid}, pid, s);
    SlotsPut(pool - {pid}, pid, pool[pid]);
    assert (pool - {pid})[pid := s] == pool[pid := s];
    assert (pool - {pid})[pid := pool[pid]] == pool;
  }

  lemma RecentsPut(pool: Pool, pid: string, s: seq<Tracked>, t: int)
    ensures var recent, u := UnexpiredPool(pool, t, 0), Unexpired(s, t, 0);
      UnexpiredPool(pool[pid := s], t, 0) == if u == [] then recent - {pid} else recent[pid := u]
  {
  }

  lemma ExitAddsOneRecent(pool: Pool, e: Event, now: int, t: int)
    ensures Recents(WithExit(pool, e, now), t) <= Recents(pool, t) + 1
  {
    if e.pid != "" {
      var recent, s := UnexpiredPool(pool, t, 0), if e.pid in pool then pool[e.pid] else [];
      var longer := s + [ProcessOf(e, now)];
      RecentsPut(pool, e.pid, longer, t);
      UnexpiredSnoc(s, ProcessOf(e, now), t, 0);
      LengthenOne(recent, e.pid, Unexpired(longer, t, 0));
    }
  }

  lemma LengthenOne(pool: Pool, pid: string, s: seq<Tracked>)
    requires |s| <= 1 + if pid in pool then |pool[pid]| else 0
    ensures Total(if s == [] then pool - {pid} else pool[pid := s]) <= Total(pool) + 1
  {
    if s == [] {
      SlotsWithin(pool - {pid}, pool);
    } else if pid in pool {
      SlotsOverwrite(pool, pid, s);
    } else {
      SlotsPut(pool, pid, s);
    }
  }

  lemma {:induction false} AllUnexpired(s: seq<Tracked>, t: int)
    requires forall i | 0 <= i < |s| :: s[i].exitedAt >= t
    ensures Unexpired(s, t, 0) == s
  {
    if s != [] {
      AllUnexpired(s[..|s| - 1], t);
    }
  }

  /** A purge cannot evict the last exit of a PID while at most `maxExited` exits are as recent as it is. */
  lemma RecentExitSurvives(before: Pool, after: Pool, pid: string, now: int, retention: int, maxExited: nat)
    requires Purged(before, after, now, retention, maxExited)
    requires pid in before && before[pid] != [] && now - before[pid][|before[pid]| - 1].exitedAt <= retention
    requires Recents(before, before[pid][|before[pid]| - 1].exitedAt) <= maxExited
    ensures pid in after
    ensures after[pid] != [] && after[pid][|after[pid]| - 1] == before[pid][|before[pid]| - 1]
  {
    if pid !in after {
      EvictedOnlyWhenFull(before, after, pid, now, retention, maxExited);
    } else {
      PurgeKeepsLast(before, after, pid, now, retention, maxExited);
    }
  }

  lemma PurgeKeepsLast(before: Pool, after: Pool, pid: string, now: int, retention: int, maxExited: nat)
    requires Purged(before, after, now, retention, maxExited) && pid in after
    requires pid in before && before[pid] != [] && now - before[pid][|before[pid]| - 1].exitedAt <= retention
    ensures after[pid] != [] && after[pid][|after[pid]| - 1] == before[pid][|before[pid]| - 1]
  {
    UnexpiredLast(before[pid], now, retention);
    SuffixLast(after[pid], UnexpiredPool(before, now, retention)[pid]);
  }

  lemma EvictedOnlyWhenFull(before: Pool, after: Pool, pid: string, now: int, retention: int, maxExited: nat)
    requires Purged(before, after, now, retention, maxExited)
    requires pid in before && before[pid] != [] && now - before[pid][|before[pid]| - 1].exitedAt <= retention
    requires pid !in after
    ensures Recents(before, before[pid][|before[pid]| - 1].exitedAt) > maxExited
  {
    var alive, t := UnexpiredPool(before, now, retention), before[pid][|before[pid]| - 1].exitedAt;
    UnexpiredLast(before[pid], now, retention);
    UnexpiredLast(before[pid], t, 0);
    SlotsMissing(after, alive, pid);
    EvictionIsFull(alive, after, pid, t);
    PurgeKeepsRecents(before, after, now, retention, maxExited, t);
    SlotsMissing(UnexpiredPool(after, t, 0), UnexpiredPool(before, t, 0), pid);
  }

  lemma SlotsMissing(a: Pool, b: Pool, pid: string)
    requires forall p | p in a :: p in b && |a[p]| <= |b[p]|
    requires pid in b && b[pid] != [] && pid !in a
    ensures Total(a) < Total(b)
  {
    assert (pid, 0) in Slots(b) && (pid, 0) !in Slots(a);
    SlotsWithin(a, b);
  }

  /** If a purge took all exits of a PID, everything it left is as recent as the last of them. */
  lemma EvictionIsFull(alive: Pool, after: Pool, pid: string, t: int)
    requires NewestOf(alive, after) && pid in alive && pid !in after
    requires alive[pid] != [] && alive[pid][|alive[pid]| - 1].exitedAt == t
    ensures UnexpiredPool(after, t, 0) == after
  {
    forall q | q in after ensures Unexpired(after[q], t, 0) == after[q] {
      assert GoneIsOlder(alive, after, pid, q);
      AllUnexpired(after[q], t);
    }
  }

  lemma PoolOkLater(pool: Pool, now: int, later: int)
    requires PoolOk(pool, now) && now <= later
    ensures PoolOk(pool, later)
  {
  }

  lemma {:induction false} AbsentStaysAbsent(ix: Indexes, s: seq<Event>, pid: string)
    requires pid !in ix.byPid && forall e | e in s :: e.pid != pid
    ensures pid !in AfterAll(ix, s).byPid
  {
    AfterAllIsOverwrite(ix, s);
    SnapshotByPidIsLast(s, pid);
  }

  lemma LeftAloneStaysAbsent(at: Endpoint, ix: Indexes, op: Op, pid: string)
    requires pid !in ix.byPid && LeavesAlone(op, pid)
    ensures pid !in Step(at, ix, op).byPid
  {
    if op.SnapshotOp? {
      var s := IdentifyAll(at, op.tenant, op.events);
      forall e | e in s ensures e.pid != pid {
        var i :| 0 <= i < |s| && s[i] == e;
        assert op.events[i] in op.events;
      }
      AbsentStaysAbsent(ix, s, pid);
    }
  }

  /** The last exit of `pid` is `gone`, and at most `recents` exits are as recent. */
  ghost predicate IsLast(pool: Pool, pid: string, gone: Tracked, recents: nat) {
    pid in pool && pool[pid] != [] && pool[pid][|pool[pid]| - 1] == gone && Recents(pool, gone.exitedAt) <= recents
  }

  lemma WithExitElsewhere(pool: Pool, e: Event, now: int, pid: string)
    requires pid in pool && e.pid != pid
    ensures pid in WithExit(pool, e, now) && WithExit(pool, e, now)[pid] == pool[pid]
  {
  }

  lemma OtherExitKeepsLast(pool: Pool, e: Event, now: int, pid: string, gone: Tracked, recents: nat)
    requires IsLast(pool, pid, gone, recents) && e.pid != pid
    ensures IsLast(WithExit(pool, e, now), pid, gone, recents + 1)
  {
    WithExitElsewhere(pool, e, now, pid);
    ExitAddsOneRecent(pool, e, now, gone.exitedAt);
  }

  lemma PurgeKeepsLastOne(before: Pool, after: Pool, now: int, retention: int, maxExited: nat, pid: string,
      gone: Tracked, recents: nat)
    requires Purged(before, after, now, retention, maxExited)
    requires IsLast(before, pid, gone, recents) && recents <= maxExited && now - gone.exitedAt <= retention
    ensures IsLast(after, pid, gone, recents)
  {
    PurgeKeepsRecents(before, after, now, retention, maxExited, gone.exitedAt);
    RecentExitSurvives(before, after, pid, now, retention, maxExited);
  }

  lemma ObservationKeepsGone(at: Endpoint, before: Store, o: Timed, after: Store, retention: int, maxExited: nat,
      pid: string, gone: Tracked, recents: nat)
    requires Observes(at, before, o, after, retention, maxExited)
    requires LeavesAlone(o.op, pid) && o.now <= gone.exitedAt + retention
    requires IsLast(before.pool, pid, gone, recents) && recents + Exits([o]) <= maxExited
    ensures IsLast(after.pool, pid, gone, recents + Exits([o]))
  {
    var pool := PoolWith(at, before, o);
    ExitsOfOne(o);
    if o.op.ExitOp? {
      OtherExitKeepsLast(before.pool, IdentifiedExit(at, o.op.event, before.ix.byPid), o.now, pid, gone, recents);
    }
    if !(o.op.SnapshotOp? && o.op.events == []) {
      PurgeKeepsLastOne(pool, after.pool, o.now, retention, maxExited, pid, gone, recents + Exits([o]));
    }
  }

  lemma PoolWithOk(at: Endpoint, s: Store, o: Timed)
    requires PoolOk(s.pool, o.now)
    ensures PoolOk(PoolWith(at, s, o), o.now)
  {
    if o.op.ExitOp? {
      WithExitOk(s.pool, IdentifiedExit(at, o.op.event, s.ix.byPid), o.now);
    }
  }

  lemma ExitsOfOne(o: Timed)
    ensures Exits([o]) == if o.op.ExitOp? then 1 else 0
  {
    assert [o][..0] == [];
  }

  /** The record that an exit leaves. */
  function Gone(at: Endpoint, s: Store, exit: Event, now: int): Tracked {
    ProcessOf(IdentifiedExit(at, exit, s.ix.byPid), now)
  }

  /** A history that begins with an exit whose PID is not used again, all inside the retention window. */
  ghost predicate ExitHistory(at: Endpoint, states: seq<Store>, ops: seq<Timed>, exit: Event, retention: int,
      maxExited: nat) {
    && History(at, states, ops, retention, maxExited) && ops != [] && ops[0].op == ExitOp(exit)
    && PoolOk(states[0].pool, ops[0].now) && exit.pid != "" && retention > 0
    && (forall i | 1 <= i < |ops| :: LeavesAlone(ops[i].op, exit.pid))
    && ops[|ops| - 1].now <= ops[0].now + retention
  }

  lemma {:induction false} ExitStaysRetained(at: Endpoint, states: seq<Store>, ops: seq<Timed>, exit: Event,
      retention: int, maxExited: nat, recents: nat)
    requires ExitHistory(at, states, ops, exit, retention, maxExited)
    requires Recents(states[0].pool, ops[0].now) <= recents && recents + Exits(ops) <= maxExited
    ensures var last := states[|ops|];
      && exit.pid !in last.ix.byPid && PoolOk(last.pool, ops[|ops| - 1].now)
      && IsLast(last.pool, exit.pid, Gone(at, states[0], exit, ops[0].now), recents + Exits(ops))
    decreases |ops|
  {
    var n := |ops| - 1;
    var gone := Gone(at, states[0], exit, ops[0].now);
    var pool := PoolWith(at, states[n], ops[n]);
    ExitHistoryLast(at, states, ops, exit, retention, maxExited);
    ExitsLast(ops);
    if n == 0 {
      PoolWithOk(at, states[0], ops[0]);
      PurgedPoolOk(pool, states[1].pool, ops[0].now, retention, maxExited);
      ExitAddsOneRecent(states[0].pool, IdentifiedExit(at, exit, states[0].ix.byPid), ops[0].now, ops[0].now);
      PurgeKeepsLastOne(pool, states[1].pool, ops[0].now, retention, maxExited, exit.pid, gone, recents + 1);
    } else {
      ExitHistoryPrefix(at, states, ops, exit, retention, maxExited);
      ExitStaysRetained(at, states[..n + 1], ops[..n], exit, retention, maxExited, recents);
      PoolOkLater(states[n].pool, ops[n - 1].now, ops[n].now);
      PoolWithOk(at, states[n], ops[n]);
      if states[n + 1].pool != states[n].pool {
        PurgedPoolOk(pool, states[n + 1].pool, ops[n].now, retention, maxExited);
      }
      LeftAloneStaysAbsent(at, states[n].ix, ops[n].op, exit.pid);
      ObservationKeepsGone(at, states[n], ops[n], states[n + 1], retention, maxExited, exit.pid, gone,
                           recents + Exits(ops[..n]));
    }
  }

  lemma ExitsLast(ops: seq<Timed>)
    requires ops != []
    ensures Exits(ops) == Exits(ops[..|ops| - 1]) + Exits([ops[|ops| - 1]])
    ensures |ops| == 1 ==> Exits(ops) == Exits([ops[0]]) && (ops[0].op.ExitOp? ==> Exits(ops) == 1)
  {
    ExitsOfOne(ops[|ops| - 1]);
    if |ops| == 1 {
      assert ops == [ops[0]];
    }
  }

  lemma ExitHistoryLast(at: Endpoint, states: seq<Store>, ops: seq<Timed>, exit: Event, retention: int, maxExited: nat)
    requires ExitHistory(at, states, ops, exit, retention, maxExited)
    ensures var n := |ops| - 1;
      && |states| == n + 2 && Observes(at, states[n], ops[n], states[n + 1], retention, maxExited)
      && ops[n].now <= ops[0].now + retention
      && (n == 0 ==> ops[0] == Timed(ExitOp(exit), ops[0].now))
      && (n > 0 ==> LeavesAlone(ops[n].op, exit.pid) && ops[n - 1].now <= ops[n].now)
  {
  }

  lemma ExitHistoryPrefix(at: Endpoint, states: seq<Store>, ops: seq<Timed>, exit: Event, retention: int,
      maxExited: nat)
    requires ExitHistory(at, states, ops, exit, retention, maxExited) && |ops| > 1
    ensures ExitHistory(at, states[..|ops|], ops[..|ops| - 1], exit, retention, maxExited)
  {
    HistoryPrefix(at, states, ops, retention, maxExited);
  }

  lemma HistoryPrefix(at: Endpoint, states: seq<Store>, ops: seq<Timed>, retention: int, maxExited: nat)
    requires History(at, states, ops, retention, maxExited) && ops != []
    ensures History(at, states[..|ops|], ops[..|ops| - 1], retention, maxExited)
  {
    forall i | 0 <= i < |ops| - 1
      ensures Observes(at, states[..|ops|][i], ops[..|ops| - 1][i], states[..|ops|][i + 1], retention, maxExited)
    {
      assert Observes(at, states[i], ops[i], states[i + 1], retention, maxExited);
    }
  }

  /**
   A child that starts after its parent exited still gets the parent's entity id, whatever is observed in
   between: for as long as the retention window lasts, if the parent's PID is not in use again and if, before
   the parent's exit, there was room for it and for the exits to come.
   */
  lemma LateChildFindsItsParent(at: Endpoint, states: seq<Store>, ops: seq<Timed>, exit: Event, child: Event,
      current: ByPid, now: int, retention: int, maxExited: nat, reason: string)
    requires ExitHistory(at, states, ops, exit, retention, maxExited)
    requires Recents(states[0].pool, ops[0].now) + Exits(ops) <= maxExited
    requires ops[|ops| - 1].now <= now <= ops[0].now + retention
    requires NeedsParent(child) && child.parentPid == exit.pid && exit.pid !in current
    ensures var last := states[|ops|];
      Resolve(child, current, last.ix.byPid, last.pool, now, retention, reason)
      == child.(parentEntity := IdentifiedExit(at, exit, states[0].ix.byPid).entity, missingReason := "")
  {
    ExitStaysRetained(at, states, ops, exit, retention, maxExited, Recents(states[0].pool, ops[0].now));
    assert RetainedParent(states[|ops|].pool[exit.pid], now, retention) == Some(Gone(at, states[0], exit, ops[0].now));
  }

  lemma UnexpiredLast(s: seq<Tracked>, now: int, retention: int)
    requires s != [] && now - s[|s| - 1].exitedAt <= retention
    ensures var u := Unexpired(s, now, retention); u != [] && u[|u| - 1] == s[|s| - 1]
  {
  }

  lemma SuffixLast<T>(a: seq<T>, b: seq<T>)
    requires 0 < |a| <= |b| && a == b[|b| - |a|..]
    ensures a[|a| - 1] == b[|b| - 1]
  {
  }

  // ---------- whose id a child gets ----------

  /**
   A child that knows its parent's create time and image or hash gets the id of exactly that process,
   whatever the tracker holds under the parent's PID.
   */
  lemma NamedParentIsKept(at: Endpoint, child: Event, current: ByPid, active: ByPid, pool: Pool, now: int,
      retention: int,
      reason: string)
    requires child.pid != "" && child.parentPid != "" && child.parentEntity == NoId && NamesParent(child)
    ensures var e := Identified(at, child);
      Resolve(e, current, active, pool, now, retention, reason).parentEntity
      == ProcessEntityId(e.host, e.bootId, child.parentPid, RawString(child.raw, "parent_process_create_time"),
             RawString(child.raw, "parent_image_path"), RawString(child.raw, "parent_image_hash"))
  {
  }

  /**
   Any other child goes by PID: it gets the id of a process iff that process is the latest holder of the PID,
   that is the one in the snapshot or else the active one or else the last to exit inside the window.
   */
  lemma ParentIsLatestHolder(child: Event, id: EntityId, current: ByPid, active: ByPid, pool: Pool, now: int,
      retention: int,
      reason: string)
    requires NeedsParent(child) && id != NoId
    ensures var pid := child.parentPid;
      var exits := if pid in pool then Unexpired(pool[pid], now, retention) else [];
      Resolve(child, current, active, pool, now, retention, reason).parentEntity == id <==>
          if pid in current then current[pid].entity == id
          else if pid in active then active[pid].entity == id
          else exits != [] && exits[|exits| - 1].entity == id
  {
    if child.parentPid in pool {
      RetainedParentIsNewestUnexpired(pool[child.parentPid], now, retention);
    }
  }

  /**
   So once a PID is in use again, whatever went before, a late child of its former holder is linked to the new
   one.
   */
  lemma ReusedPidMisleads(at: Endpoint, ops: seq<Op>, parent: Event, other: Event, child: Event, pool: Pool, now: int,
      retention: int, reason: string)
    requires parent.pid == other.pid == child.parentPid != "" && NeedsParent(Identified(at, child))
    requires parent.entity == other.entity == NoId && parent.createTime != other.createTime
    ensures var active := Run(at, ops + [StartOp(other)]).byPid;
      Resolve(Identified(at, child), map[], active, pool, now, retention, reason).parentEntity
      == Identified(at, other).entity != Identified(at, parent).entity
  {
    assert (ops + [StartOp(other)])[..|ops|] == ops;
    StartIsActive(at, Run(at, ops), other);
    CreateTimesTellApart(at, parent, other);
  }

  lemma StartIsActive(at: Endpoint, ix: Indexes, e: Event)
    requires e.pid != ""
    ensures var active := Step(at, ix, StartOp(e)).byPid;
      e.pid in active && active[e.pid].entity == Identified(at, e).entity
  {
  }

  lemma CreateTimesTellApart(at: Endpoint, a: Event, b: Event)
    requires a.pid == b.pid != "" && a.entity == b.entity == NoId && a.createTime != b.createTime
    ensures Identified(at, a).entity != Identified(at, b).entity
  {
    DerivedIdsAreInjective(a.(host := if a.host == "" then at.host else a.host),
                           b.(host := if b.host == "" then at.host else b.host), at.bootId);
  }
}
