/**
 What the process tracker computes, on values: the two indexes of the active processes, the pool of
 exited ones, and the resolution of parents against them. The class in ProcessTracker.dfy refines this.
 */
module TrackerModel {
  import opened Options
  import opened ProcessIdentity

  datatype Tracked = Tracked(pid: string, entity: EntityId, createTime: string, imagePath: string, imageHash: string,
      exitedAt: int)

  type ByPid = map<string, Tracked>
  type ByEntity = map<EntityId, Tracked>
  type Pool = map<string, seq<Tracked>>

  /** `activeByPID` and `activeByEntity`. */
  datatype Indexes = Indexes(byPid: ByPid, byEntity: ByEntity)

  /** `processFromEvent`; time.Time{} is 0. */
  function ProcessOf(e: Event, exitedAt: int): Tracked {
    Tracked(e.pid, e.entity, e.createTime, e.imagePath, e.imageHash, exitedAt)
  }

  // ---------- the two indexes ----------

  /** Each index is the inverse of the other and both store the same record. */
  ghost predicate MutuallyInverse(ix: Indexes) {
    && (forall p | p in ix.byPid ::
          && ix.byPid[p].pid == p && ix.byPid[p].entity in ix.byEntity
          && ix.byEntity[ix.byPid[p].entity] == ix.byPid[p])
    && (forall e | e in ix.byEntity ::
          && ix.byEntity[e].entity == e && ix.byEntity[e].pid in ix.byPid
          && ix.byPid[ix.byEntity[e].pid] == ix.byEntity[e])
  }

  /** The indexes are inverse and every active record carries an id derived from its own PID. */
  ghost predicate Agree(ix: Indexes) {
    && MutuallyInverse(ix)
    && forall p | p in ix.byPid :: p != "" && ix.byPid[p].entity.Derived? && ix.byPid[p].entity.pid == p
  }

  function Remember(ix: Indexes, p: Tracked): Indexes {
    var stale := p.pid != "" && p.pid in ix.byPid && ix.byPid[p.pid].entity != p.entity;
    var kept := if stale then ix.byEntity - {ix.byPid[p.pid].entity} else ix.byEntity;
    Indexes(if p.pid != "" then ix.byPid[p.pid := p] else ix.byPid,
            if p.entity != NoId then kept[p.entity := p] else kept)
  }

  /**
   When remembering a process keeps the indexes inverse, exactly: its entity id must not be active under
   another PID. A preset id can break that; an id derived from the PID cannot.
   */
  lemma RememberKeepsInverseIff(ix: Indexes, p: Tracked)
    requires MutuallyInverse(ix) && p.pid != "" && p.entity != NoId
    ensures MutuallyInverse(Remember(ix, p)) <==> (p.entity in ix.byEntity ==> ix.byEntity[p.entity].pid == p.pid)
  {
    var after := Remember(ix, p);
    if p.entity in ix.byEntity && ix.byEntity[p.entity].pid != p.pid {
      var q := ix.byEntity[p.entity].pid;
      assert after.byPid[q] == ix.byPid[q] && after.byPid[q].entity == p.entity;
      assert after.byEntity[p.entity] == p;
    } else {
      forall q | q in after.byPid
        ensures after.byPid[q].pid == q && after.byPid[q].entity in after.byEntity
            && after.byEntity[after.byPid[q].entity] == after.byPid[q]
      {
        if q != p.pid {
          assert ix.byEntity[ix.byPid[q].entity] == ix.byPid[q];
        }
      }
    }
  }

  predicate NamesItsPid(e: Event) {
    e.pid != "" ==> e.entity.Derived? && e.entity.pid == e.pid
  }

  lemma RememberAgrees(ix: Indexes, e: Event)
    requires Agree(ix) && e.pid != "" && NamesItsPid(e)
    ensures Agree(Remember(ix, ProcessOf(e, 0)))
  {
    RememberKeepsInverseIff(ix, ProcessOf(e, 0));
  }

  function Forget(ix: Indexes, pid: string, entity: EntityId): Indexes {
    Indexes(ix.byPid - {pid}, if entity != NoId then ix.byEntity - {entity} else ix.byEntity)
  }

  /**
   When an exit keeps the indexes inverse, exactly: its entity id must be that of the active process with
   its PID or, when there is none, of no active process at all.
   */
  lemma ForgetKeepsInverseIff(ix: Indexes, pid: string, entity: EntityId)
    requires MutuallyInverse(ix) && entity != NoId
    ensures MutuallyInverse(Forget(ix, pid, entity)) <==>
            if pid in ix.byPid then ix.byPid[pid].entity == entity else entity !in ix.byEntity
  {
    var after := Forget(ix, pid, entity);
    if pid in ix.byPid {
      var own := ix.byPid[pid].entity;
      if own != entity {
        assert own in after.byEntity && after.byEntity[own].pid == pid;
      }
    } else if entity in ix.byEntity {
      var q := ix.byEntity[entity].pid;
      assert q in after.byPid && after.byPid[q].entity == entity;
    }
  }

  lemma ForgetAgrees(ix: Indexes, pid: string, entity: EntityId)
    requires Agree(ix) && entity != NoId
    ensures Agree(Forget(ix, pid, entity)) <==>
            if pid in ix.byPid then ix.byPid[pid].entity == entity else entity !in ix.byEntity
  {
    ForgetKeepsInverseIff(ix, pid, entity);
  }

  // ---------- what each observation does to the indexes ----------

  /** The endpoint a tracker belongs to. */
  datatype Endpoint = Endpoint(host: string, bootId: string)

  function Identified(at: Endpoint, e: Event): (r: Event)
    ensures r.pid == e.pid && (e.pid != "" ==> r.entity != NoId)
  {
    ApplyProcessIdentity(e.(host := if e.host == "" then at.host else e.host), at.bootId)
  }

  /** What the active entry lends an exit event, which usually carries little more than its PID. */
  function FilledFromActive(e: Event, active: ByPid): (r: Event)
    ensures r.pid == e.pid
  {
    var a := if e.pid in active then active[e.pid] else Tracked("", NoId, "", "", "", 0);
    e.(eventType := if e.eventType == "" then "process_stop" else e.eventType,
       entity := if e.entity == NoId then a.entity else e.entity,
       createTime := if e.createTime == "" then a.createTime else e.createTime,
       imagePath := if e.imagePath == "" then a.imagePath else e.imagePath,
       imageHash := if e.imageHash == "" then a.imageHash else e.imageHash)
  }

  /** What an exit event takes from the active process with its PID. */
  predicate TakesFrom(e: Event, a: Tracked, out: Event) {
    && (e.entity == NoId && a.entity != NoId ==> out.entity == a.entity)
    && (e.createTime == "" ==> out.createTime == a.createTime)
    && (e.imagePath == "" && a.imagePath != "" ==> out.imagePath == a.imagePath)
    && (e.imageHash == "" ==> out.imageHash == a.imageHash)
  }

  lemma ExitTakesFromActive(at: Endpoint, e: Event, active: ByPid)
    requires e.pid != "" && e.pid in active
    ensures TakesFrom(e, active[e.pid], IdentifiedExit(at, e, active))
  {
  }

  function IdentifiedExit(at: Endpoint, e: Event, active: ByPid): (r: Event)
    ensures r.pid == e.pid && (e.pid != "" ==> r.entity != NoId)
  {
    Identified(at, FilledFromActive(e, active))
  }

  function AfterStart(ix: Indexes, e: Event): Indexes {
    if e.pid == "" then ix else Remember(ix, ProcessOf(e, 0))
  }

  function AfterExit(ix: Indexes, e: Event): Indexes {
    if e.pid == "" then ix else Forget(ix, e.pid, e.entity)
  }

  function AfterAll(ix: Indexes, s: seq<Event>): Indexes {
    if s == [] then ix else AfterStart(AfterAll(ix, s[..|s| - 1]), s[|s| - 1])
  }

  datatype Op = SnapshotOp(tenant: string, events: seq<Event>) | StartOp(event: Event) | ExitOp(event: Event)

  function Step(at: Endpoint, ix: Indexes, op: Op): Indexes {
    match op
    case SnapshotOp(tenant, events) => AfterAll(ix, IdentifyAll(at, tenant, events))
    case StartOp(e) => AfterStart(ix, Identified(at, e))
    case ExitOp(e) => AfterExit(ix, IdentifiedExit(at, e, ix.byPid))
  }

  function Run(at: Endpoint, ops: seq<Op>): Indexes {
    if ops == [] then Indexes(map[], map[]) else Step(at, Run(at, ops[..|ops| - 1]), ops[|ops| - 1])
  }

  /**
   Events whose id, if they bring one, is derived from their own PID; and an exit's id is that of the
   process that exits.
   */
  ghost predicate BringsOwnId(ix: Indexes, op: Op) {
    match op
    case SnapshotOp(_, events) => forall e | e in events :: HasOwnId(e)
    case StartOp(e) => HasOwnId(e)
    case ExitOp(e) => HasOwnId(e) && (e.entity != NoId && e.pid in ix.byPid ==> e.entity == ix.byPid[e.pid].entity)
  }

  lemma {:induction false} AfterAllAgrees(ix: Indexes, s: seq<Event>)
    requires Agree(ix) && forall e | e in s :: NamesItsPid(e)
    ensures Agree(AfterAll(ix, s))
  {
    if s != [] {
      AfterAllAgrees(ix, s[..|s| - 1]);
      if s[|s| - 1].pid != "" {
        RememberAgrees(AfterAll(ix, s[..|s| - 1]), s[|s| - 1]);
      }
    }
  }

  lemma StepAgrees(at: Endpoint, ix: Indexes, op: Op)
    requires Agree(ix) && BringsOwnId(ix, op)
    ensures Agree(Step(at, ix, op))
  {
    match op
    case SnapshotOp(tenant, events) =>
      var s := IdentifyAll(at, tenant, events);
      forall e | e in s ensures NamesItsPid(e) {
        var i :| 0 <= i < |s| && s[i] == e;
        assert HasOwnId(events[i]);
      }
      AfterAllAgrees(ix, s);
    case StartOp(e) =>
      if e.pid != "" {
        RememberAgrees(ix, Identified(at, e));
      }
    case ExitOp(e) =>
      if e.pid != "" {
        var r := IdentifiedExit(at, e, ix.byPid);
        ForgetAgrees(ix, e.pid, r.entity);
      }
  }

  /**
   In every state reachable by snapshots (repeated PIDs included), starts that reuse a PID, and exits with
   or without an active entry, the two indexes are inverse and store the same records.
   */
  lemma {:induction false} RunAgrees(at: Endpoint, ops: seq<Op>)
    requires forall n | 0 <= n < |ops| :: BringsOwnId(Run(at, ops[..n]), ops[n])
    ensures Agree(Run(at, ops))
  {
    if ops != [] {
      var before := ops[..|ops| - 1];
      forall n | 0 <= n < |before| ensures BringsOwnId(Run(at, before[..n]), before[n]) {
        assert before[..n] == ops[..n];
      }
      RunAgrees(at, before);
      StepAgrees(at, Run(at, ops[..|ops| - 1]), ops[|ops| - 1]);
    }
  }

  // ---------- the pool of exited processes ----------

  function Unexpired(s: seq<Tracked>, now: int, retention: int): seq<Tracked> {
    if s == [] then []
    else
      var last := s[|s| - 1];
      Unexpired(s[..|s| - 1], now, retention) + if now - last.exitedAt <= retention then [last] else []
  }

  /** The pool without the expired records and without the PIDs that have no other. */
  function UnexpiredPool(pool: Pool, now: int, retention: int): Pool {
    map pid | pid in pool && Unexpired(pool[pid], now, retention) != [] :: Unexpired(pool[pid], now, retention)
  }

  ghost function Slots(pool: Pool): set<(string, int)> {
    set pid, i | pid in pool && 0 <= i < |pool[pid]| :: (pid, i)
  }

  /** How many exited processes the pool holds. */
  ghost function Total(pool: Pool): nat {
    |Slots(pool)|
  }

  ghost predicate Chronological(s: seq<Tracked>) {
    forall i, j | 0 <= i < j < |s| :: s[i].exitedAt <= s[j].exitedAt
  }

  /** Every list is nonempty, in exit order, holds only its own PID, and nothing exited after `now`. */
  ghost predicate PoolOk(pool: Pool, now: int) {
    forall pid | pid in pool ::
      && pid != "" && pool[pid] != [] && Chronological(pool[pid])
      && forall i | 0 <= i < |pool[pid]| :: pool[pid][i].pid == pid && pool[pid][i].entity != NoId
          && pool[pid][i].exitedAt <= now
  }

  ghost function Kept(all: Pool, left: Pool, pid: string): nat {
    if pid in left then |left[pid]| else 0
  }

  ghost predicate Suffixes(all: Pool, left: Pool) {
    && left.Keys <= all.Keys
    && forall pid | pid in left :: 0 < |left[pid]| <= |all[pid]| && left[pid] == all[pid][|all[pid]| - |left[pid]|..]
  }

  /** No exit that `left` lacks under `p` is later than any it has under `q`. */
  ghost predicate GoneIsOlder(all: Pool, left: Pool, p: string, q: string)
    requires p in all && q in left
  {
    forall i, j | 0 <= i < |all[p]| - Kept(all, left, p)
        && 0 <= j < |left[q]| :: all[p][i].exitedAt <= left[q][j].exitedAt
  }

  ghost predicate OldestGone(all: Pool, left: Pool) {
    forall p, q {:trigger GoneIsOlder(all, left, p, q)} | p in all && q in left :: GoneIsOlder(all, left, p, q)
  }

  /** `left` keeps, of every list of `all`, a suffix; and no survivor exited before a record taken away. */
  ghost predicate NewestOf(all: Pool, left: Pool) {
    Suffixes(all, left) && OldestGone(all, left)
  }

  /** What a purge does: drop what expired, then the oldest exits, until at most `maxExited` are left. */
  ghost predicate Purged(before: Pool, after: Pool, now: int, retention: int, maxExited: nat) {
    var alive := UnexpiredPool(before, now, retention);
    NewestOf(alive, after) && Total(after) == if Total(alive) <= maxExited then Total(alive) else maxExited
  }

  lemma {:induction false} UnexpiredFacts(s: seq<Tracked>, now: int, retention: int)
    requires Chronological(s)
    ensures var u := Unexpired(s, now, retention);
      && Chronological(u) && |u| <= |s|
      && forall i | 0 <= i < |u| :: u[i] in s && now - u[i].exitedAt <= retention
  {
    if s != [] {
      UnexpiredFacts(s[..|s| - 1], now, retention);
    }
  }

  lemma UnexpiredPoolOk(pool: Pool, now: int, retention: int)
    requires PoolOk(pool, now)
    ensures PoolOk(UnexpiredPool(pool, now, retention), now)
  {
    var alive := UnexpiredPool(pool, now, retention);
    forall pid | pid in alive
      ensures Chronological(alive[pid])
      ensures forall i | 0 <= i < |alive[pid]| ::
          alive[pid][i].pid == pid && alive[pid][i].entity != NoId && alive[pid][i].exitedAt <= now
    {
      UnexpiredFacts(pool[pid], now, retention);
    }
  }

  /** A purge leaves a well-formed pool in which everything is inside the retention window. */
  lemma PurgedPoolOk(before: Pool, after: Pool, now: int, retention: int, maxExited: nat)
    requires PoolOk(before, now) && Purged(before, after, now, retention, maxExited)
    ensures PoolOk(after, now) && Total(after) <= maxExited
    ensures forall pid, i | pid in after && 0 <= i < |after[pid]| :: now - after[pid][i].exitedAt <= retention
  {
    UnexpiredPoolOk(before, now, retention);
    forall pid, i | pid in after && 0 <= i < |after[pid]| ensures now - after[pid][i].exitedAt <= retention {
      UnexpiredFacts(before[pid], now, retention);
    }
  }

  lemma {:induction false} SlotsOfOne(pid: string, n: nat)
    ensures |set i | 0 <= i < n :: (pid, i)| == n
  {
    if n > 0 {
      SlotsOfOne(pid, n - 1);
      assert (set i | 0 <= i < n :: (pid, i)) == (set i | 0 <= i < n - 1 :: (pid, i)) + {(pid, n - 1)};
    }
  }

  lemma SlotsPut(pool: Pool, pid: string, s: seq<Tracked>)
    requires pid !in pool
    ensures Total(pool[pid := s]) == Total(pool) + |s|
  {
    var own := set i | 0 <= i < |s| :: (pid, i);
    SlotsOfOne(pid, |s|);
    assert Slots(pool[pid := s]) == Slots(pool) + own;
  }

  /** Counting one more PID during the first loop of a purge. */
  lemma ExpiredStep(pool: Pool, now: int, retention: int, todo: set<string>, pid: string)
    requires pid in pool && pid in todo
    ensures Total(UnexpiredPool(pool, now, retention) - (todo - {pid}))
            == Total(UnexpiredPool(pool, now, retention) - todo) + |Unexpired(pool[pid], now, retention)|
  {
    var alive, u := UnexpiredPool(pool, now, retention), Unexpired(pool[pid], now, retention);
    if u == [] {
      assert alive - (todo - {pid}) == alive - todo;
    } else {
      SlotsPut(alive - todo, pid, u);
      assert alive - (todo - {pid}) == (alive - todo)[pid := u];
    }
  }

  lemma FinishPid(pool: Pool, alive: Pool, todo: set<string>, pid: string, filtered: seq<Tracked>)
    requires pid in todo && pid in pool && pool - todo == alive - todo
    requires if filtered == [] then pid !in alive else pid in alive && alive[pid] == filtered
    ensures (if filtered == [] then pool - {pid} else pool[pid := filtered]) - (todo - {pid}) == alive - (todo - {pid})
  {
    var next := if filtered == [] then pool - {pid} else pool[pid := filtered];
    forall q | q != pid ensures q in next - (todo - {pid}) <==> q in alive - (todo - {pid}) {
      assert q in pool - todo <==> q in alive - todo;
    }
    forall q | q in next - (todo - {pid}) ensures next[q] == alive[q] {
      assert q != pid ==> (pool - todo)[q] == (alive - todo)[q];
    }
  }

  /** The pool without the first exit of one PID. */
  function DropFirst(pool: Pool, pid: string): Pool
    requires pid in pool && pool[pid] != []
  {
    if |pool[pid]| == 1 then pool - {pid} else pool[pid := pool[pid][1..]]
  }

  lemma SlotsDrop(pool: Pool, pid: string)
    requires pid in pool && pool[pid] != []
    ensures Total(DropFirst(pool, pid)) == Total(pool) - 1
  {
    assert Slots(pool) == Slots(DropFirst(pool, pid)) + {(pid, |pool[pid]| - 1)};
  }

  lemma SuffixStep(all: Pool, left: Pool, pid: string)
    requires Suffixes(all, left) && pid in left
    ensures Suffixes(all, DropFirst(left, pid))
  {
    var a, l := all[pid], left[pid];
    assert l[1..] == a[|a| - |l| + 1..];
  }

  lemma OldestStep(all: Pool, left: Pool, pid: string)
    requires Suffixes(all, left) && OldestGone(all, left) && pid in left
    requires forall q, j | q in left && 0 <= j < |left[q]| :: left[pid][0].exitedAt <= left[q][j].exitedAt
    ensures OldestGone(all, DropFirst(left, pid))
  {
    var next := DropFirst(left, pid);
    forall p, q | p in all && q in next ensures GoneIsOlder(all, next, p, q) {
      assert GoneIsOlder(all, left, p, q);
      forall i, j | 0 <= i < |all[p]| - Kept(all, next, p) && 0 <= j < |next[q]|
        ensures all[p][i].exitedAt <= next[q][j].exitedAt
      {
        var j' := if q == pid then j + 1 else j;
        assert next[q][j] == left[q][j'];
        if i >= |all[p]| - Kept(all, left, p) {
          assert p == pid && i == |all[p]| - |left[p]|;
          assert all[p][i] == left[pid][0];
        }
      }
    }
  }

  /** In exit order the scan, which keeps the first of equals, always lands on the head of a list. */
  lemma FirstIsOldest(all: Pool, left: Pool, pid: string, i: nat)
    requires Suffixes(all, left) && pid in left && i < |left[pid]| && Chronological(all[pid])
    requires forall j | 0 <= j < i :: left[pid][i].exitedAt < left[pid][j].exitedAt
    ensures i == 0
  {
    var k := |all[pid]| - |left[pid]|;
    assert left[pid][0] == all[pid][k] && left[pid][i] == all[pid][k + i];
    assert all[pid][k].exitedAt <= all[pid][k + i].exitedAt;
  }

  lemma DeleteAtHead(pool: Pool, pid: string)
    requires pid in pool && pool[pid] != []
    ensures var cut := pool[pid := pool[pid][..0] + pool[pid][1..]];
      DropFirst(pool, pid) == if |cut[pid]| == 0 then cut - {pid} else cut
  {
    assert pool[pid][..0] + pool[pid][1..] == pool[pid][1..];
  }

  // ---------- resolving a parent ----------

  /** The newest retained exit of the list that is still inside the window. */
  function RetainedParent(s: seq<Tracked>, now: int, retention: int): Option<Tracked> {
    if s == [] then None
    else if now - s[|s| - 1].exitedAt <= retention then Some(s[|s| - 1])
    else RetainedParent(s[..|s| - 1], now, retention)
  }

  lemma {:induction false} RetainedParentIsNewestUnexpired(s: seq<Tracked>, now: int, retention: int)
    ensures var u := Unexpired(s, now, retention);
      RetainedParent(s, now, retention) == if u == [] then None else Some(u[|u| - 1])
  {
    if s != [] && now - s[|s| - 1].exitedAt > retention {
      RetainedParentIsNewestUnexpired(s[..|s| - 1], now, retention);
    }
  }

  /** Where a parent PID leads: the snapshot, then the active processes, then the retained exits. */
  function FindParent(pid: string, current: ByPid, active: ByPid, pool: Pool, now: int,
      retention: int): Option<Tracked> {
    if pid in current then Some(current[pid])
    else if pid in active then Some(active[pid])
    else if pid in pool then RetainedParent(pool[pid], now, retention)
    else None
  }

  predicate NeedsParent(e: Event) {
    e.parentPid != "" && e.parentEntity == NoId
  }

  function Resolve(e: Event, current: ByPid, active: ByPid, pool: Pool, now: int, retention: int,
      reason: string): Event {
    if !NeedsParent(e) then e
    else match FindParent(e.parentPid, current, active, pool, now, retention)
         case Some(parent) => e.(parentEntity := parent.entity, missingReason := "")
         case None => e.(missingReason := reason)
  }

  function CountGaps(s: seq<Event>): nat {
    if s == [] then 0
    else CountGaps(s[..|s| - 1]) + if NeedsParent(s[|s| - 1]) then 1 else 0
  }

  ghost predicate Named(m: ByPid) {
    forall p | p in m :: m[p].entity != NoId
  }

  /** An event is a gap after resolution iff it was unresolved and its parent is nowhere to be found. */
  lemma GapIffNoParent(e: Event, current: ByPid, active: ByPid, pool: Pool, now: int, retention: int, reason: string)
    requires Named(current) && Named(active) && PoolOk(pool, now)
    ensures NeedsParent(Resolve(e, current, active, pool, now, retention, reason))
            <==> NeedsParent(e) && FindParent(e.parentPid, current, active, pool, now, retention) == None
  {
    if e.parentPid in pool {
      RetainedParentIsMember(pool[e.parentPid], now, retention);
    }
  }

  lemma {:induction false} RetainedParentIsMember(s: seq<Tracked>, now: int, retention: int)
    ensures RetainedParent(s, now, retention).Some? ==>
      exists i :: 0 <= i < |s| && s[i] == RetainedParent(s, now, retention).value && now - s[i].exitedAt <= retention
  {
    if s != [] && now - s[|s| - 1].exitedAt > retention {
      RetainedParentIsMember(s[..|s| - 1], now, retention);
    }
  }

  // ---------- snapshots ----------

  function MapAll<A, B>(f: A -> B, s: seq<A>): (r: seq<B>)
    ensures |r| == |s|
  {
    seq(|s|, i requires 0 <= i < |s| => f(s[i]))
  }

  lemma MapAllStep<A, B>(f: A -> B, s: seq<A>, i: nat)
    requires i < |s|
    ensures MapAll(f, s[..i + 1]) == MapAll(f, s[..i]) + [f(s[i])]
  {
  }

  function Identifier(at: Endpoint, tenant: string): Event -> Event {
    (e: Event) => Identified(at, e.(tenant := if e.tenant == "" then tenant else e.tenant))
  }

  function IdentifyAll(at: Endpoint, tenant: string, events: seq<Event>): (r: seq<Event>)
    ensures |r| == |events|
  {
    MapAll(Identifier(at, tenant), events)
  }

  function Resolver(current: ByPid, active: ByPid, pool: Pool, now: int, retention: int,
      reason: string): Event -> Event {
    (e: Event) => Resolve(e, current, active, pool, now, retention, reason)
  }

  /** Each event resolved on its own against the same three tables. */
  function ResolveAll(s: seq<Event>, current: ByPid, active: ByPid, pool: Pool, now: int, retention: int,
      reason: string): (r: seq<Event>)
    ensures |r| == |s|
  {
    MapAll(Resolver(current, active, pool, now, retention, reason), s)
  }

  /** The processes of a snapshot by PID; for a repeated PID the last one counts. */
  function SnapshotByPid(s: seq<Event>): ByPid {
    if s == [] then map[]
    else
      var before, e := SnapshotByPid(s[..|s| - 1]), s[|s| - 1];
      if e.pid != "" then before[e.pid := ProcessOf(e, 0)] else before
  }

  lemma {:induction false} SnapshotByPidIsLast(s: seq<Event>, k: string)
    ensures k in SnapshotByPid(s) <==> k != "" && exists e :: e in s && e.pid == k
    ensures k in SnapshotByPid(s) ==> exists i ::
      && 0 <= i < |s| && s[i].pid == k && SnapshotByPid(s)[k] == ProcessOf(s[i], 0)
      && forall j | i < j < |s| :: s[j].pid != k
  {
    if s != [] {
      var n := |s| - 1;
      assert s == s[..n] + [s[n]];
      SnapshotByPidIsLast(s[..n], k);
    }
  }

  lemma SnapshotByPidStep(s: seq<Event>, e: Event)
    ensures SnapshotByPid(s + [e]) == if e.pid == "" then SnapshotByPid(s)
        else SnapshotByPid(s)[e.pid := ProcessOf(e, 0)]
  {
    assert (s + [e])[..|s|] == s;
  }

  /** After a snapshot the PID index is the old one overwritten by the snapshot. */
  lemma {:induction false} AfterAllIsOverwrite(ix: Indexes, s: seq<Event>)
    ensures AfterAll(ix, s).byPid == ix.byPid + SnapshotByPid(s)
  {
    if s != [] {
      AfterAllIsOverwrite(ix, s[..|s| - 1]);
    }
  }

  lemma AfterAllStep(ix: Indexes, s: seq<Event>, e: Event)
    ensures AfterAll(ix, s + [e]) == AfterStart(AfterAll(ix, s), e)
    ensures CountGaps(s + [e]) == CountGaps(s) + if NeedsParent(e) then 1 else 0
  {
    assert (s + [e])[..|s|] == s;
  }

  ghost predicate PidsIn(s: seq<Event>, m: ByPid) {
    forall e | e in s && e.pid != "" :: e.pid in m
  }

  lemma PidsInStep(s: seq<Event>, e: Event, m: ByPid)
    requires PidsIn(s, m) && (e.pid != "" ==> e.pid in m)
    ensures PidsIn(s + [e], m)
  {
  }

  /**
   Remembering some of a snapshot's processes changes no resolution in it: every PID it touches is in the
   snapshot's own table, which is asked first.
   */
  lemma {:induction false} ResolutionIgnoresRemembered(e: Event, seen: seq<Event>, current: ByPid, ix: Indexes,
      pool: Pool, now: int, retention: int, reason: string)
    requires PidsIn(seen, current)
    ensures Resolve(e, current, AfterAll(ix, seen).byPid, pool, now, retention, reason)
            == Resolve(e, current, ix.byPid, pool, now, retention, reason)
  {
    if seen != [] {
      ResolutionIgnoresRemembered(e, seen[..|seen| - 1], current, ix, pool, now, retention, reason);
    }
  }

  /** The second pass after `i` events: what is out is resolved against the tables as they were before it. */
  ghost predicate ResolvedSoFar(s: seq<Event>, i: nat, out: seq<Event>, f: Event -> Event, current: ByPid,
      before: Indexes, ix: Indexes, gaps: nat)
    requires i <= |s|
  {
    PidsIn(out, current) && out == MapAll(f, s[..i]) && ix == AfterAll(before, out) && gaps == CountGaps(out)
  }

  lemma ResolveOneMore(s: seq<Event>, i: nat, out: seq<Event>, current: ByPid, before: Indexes, ix: Indexes,
      gaps: nat, pool: Pool, now: int, retention: int, reason: string)
    requires i < |s| && PidsIn(s, current)
    requires ResolvedSoFar(s, i, out, Resolver(current, before.byPid, pool, now, retention, reason), current, before,
        ix, gaps)
    ensures var e := Resolve(s[i], current, ix.byPid, pool, now, retention, reason);
      ResolvedSoFar(s, i + 1, out + [e], Resolver(current, before.byPid, pool, now, retention, reason), current, before,
                    AfterStart(ix, s[i]), gaps + if NeedsParent(e) then 1 else 0)
  {
    var f := Resolver(current, before.byPid, pool, now, retention, reason);
    var e := Resolve(s[i], current, ix.byPid, pool, now, retention, reason);
    ResolutionIgnoresRemembered(s[i], out, current, before, pool, now, retention, reason);
    assert s[i] in s;
    PidsInStep(out, e, current);
    AfterAllStep(before, out, e);
    MapAllStep(f, s, i);
  }

  lemma NamedStep(ix: Indexes, e: Event)
    requires Named(ix.byPid) && (e.pid != "" ==> e.entity != NoId)
    ensures Named(AfterStart(ix, e).byPid) && Named(AfterExit(ix, e).byPid)
  {
  }

  lemma {:induction false} ResolvedProcessesAreTheSame(ix: Indexes, s: seq<Event>, current: ByPid, active: ByPid,
      pool: Pool, now: int, retention: int, reason: string)
    ensures AfterAll(ix, ResolveAll(s, current, active, pool, now, retention, reason)) == AfterAll(ix, s)
  {
    if s != [] {
      var n := |s| - 1;
      var e := Resolve(s[n], current, active, pool, now, retention, reason);
      ResolvedProcessesAreTheSame(ix, s[..n], current, active, pool, now, retention, reason);
      MapAllStep(Resolver(current, active, pool, now, retention, reason), s, n);
      assert s[..n + 1] == s;
      AfterAllStep(ix, ResolveAll(s[..n], current, active, pool, now, retention, reason), e);
    }
  }

  lemma SnapshotTableIsComplete(s: seq<Event>)
    requires forall e | e in s && e.pid != "" :: e.entity != NoId
    ensures Named(SnapshotByPid(s)) && PidsIn(s, SnapshotByPid(s))
  {
    forall p | p in SnapshotByPid(s) ensures SnapshotByPid(s)[p].entity != NoId {
      SnapshotByPidIsLast(s, p);
    }
    forall e | e in s && e.pid != "" ensures e.pid in SnapshotByPid(s) {
      SnapshotByPidIsLast(s, e.pid);
    }
  }

  lemma EmptySnapshot(at: Endpoint, tenant: string, events: seq<Event>, ix: Indexes, active: ByPid, pool: Pool,
      now: int, retention: int, reason: string)
    requires events == []
    ensures var s := IdentifyAll(at, tenant, events);
      s == [] && AfterAll(ix, s) == ix && ResolveAll(s, SnapshotByPid(s), active, pool, now, retention, reason) == []
          && CountGaps(events) == 0
  {
  }

  function SnapshotGapReason(first: bool): string {
    if first then "parent_not_observed_in_startup_snapshot" else "parent_not_observed_in_snapshot"
  }

  /** The pool after an exit event is added to it. */
  function WithExit(pool: Pool, e: Event, now: int): Pool {
    if e.pid == "" then pool
    else pool[e.pid := (if e.pid in pool then pool[e.pid] else []) + [ProcessOf(e, now)]]
  }

  lemma WithExitOk(pool: Pool, e: Event, now: int)
    requires PoolOk(pool, now) && (e.pid != "" ==> e.entity != NoId)
    ensures PoolOk(WithExit(pool, e, now), now)
  {
  }

  // ---------- what the tracker promises across calls ----------

  /** Removing one occurrence of `x` from both of two permutations leaves permutations. */
  lemma CancelOne<A>(a: seq<A>, b: seq<A>, k: nat)
    requires a != [] && multiset(a) == multiset(b) && k < |b| && b[k] == a[|a| - 1]
    ensures multiset(a[..|a| - 1]) == multiset(b[..k] + b[k + 1..])
  {
    RemoveAt(a, |a| - 1);
    RemoveAt(b, k);
    assert a[..|a| - 1] + a[|a|..] == a[..|a| - 1];
  }

  lemma RemoveAt<A>(s: seq<A>, k: nat)
    requires k < |s|
    ensures multiset(s[..k] + s[k + 1..]) == multiset(s) - multiset{s[k]}
  {
    var front, back := s[..k], s[k + 1..];
    assert s == front + ([s[k]] + back);
    assert multiset(s) == multiset(front) + multiset([s[k]] + back);
    assert multiset([s[k]] + back) == multiset{s[k]} + multiset(back);
    assert multiset(front + back) == multiset(front) + multiset(back);
  }

  lemma FindOccurrence<A>(a: seq<A>, b: seq<A>) returns (k: nat)
    requires a != [] && multiset(a) == multiset(b)
    ensures k < |b| && b[k] == a[|a| - 1]
  {
    assert a[|a| - 1] in multiset(a);
    assert a[|a| - 1] in multiset(b);
    k :| k < |b| && b[k] == a[|a| - 1];
  }

  lemma {:induction false} MapAllPermutes<A, B>(f: A -> B, a: seq<A>, b: seq<A>)
    requires multiset(a) == multiset(b)
    ensures multiset(MapAll(f, a)) == multiset(MapAll(f, b))
    decreases |a|
  {
    if a == [] {
      assert |multiset(b)| == |b|;
    } else {
      var n := |a| - 1;
      var k := FindOccurrence(a, b);
      CancelOne(a, b, k);
      MapAllPermutes(f, a[..n], b[..k] + b[k + 1..]);
      assert MapAll(f, a) == MapAll(f, a[..n]) + [f(a[n])];
      assert MapAll(f, b) == MapAll(f, b[..k]) + [f(b[k])] + MapAll(f, b[k + 1..]);
      assert MapAll(f, b[..k] + b[k + 1..]) == MapAll(f, b[..k]) + MapAll(f, b[k + 1..]);
    }
  }

  lemma {:induction false} CountGapsConcat(a: seq<Event>, b: seq<Event>)
    ensures CountGaps(a + b) == CountGaps(a) + CountGaps(b)
  {
    if b == [] {
      assert a + b == a;
    } else {
      assert (a + b)[..|a + b| - 1] == a + b[..|b| - 1];
      CountGapsConcat(a, b[..|b| - 1]);
    }
  }

  lemma {:induction false} CountGapsPermutes(a: seq<Event>, b: seq<Event>)
    requires multiset(a) == multiset(b)
    ensures CountGaps(a) == CountGaps(b)
    decreases |a|
  {
    if a == [] {
      assert |multiset(b)| == |b|;
    } else {
      var n := |a| - 1;
      var k := FindOccurrence(a, b);
      CancelOne(a, b, k);
      CountGapsPermutes(a[..n], b[..k] + b[k + 1..]);
      CountGapsConcat(b[..k], b[k + 1..]);
      CountGapsConcat(b[..k] + [b[k]], b[k + 1..]);
      CountGapsConcat(b[..k], [b[k]]);
      assert [b[k]][..0] == [];
      assert b == b[..k] + [b[k]] + b[k + 1..];
    }
  }

  ghost predicate DistinctPids(s: seq<Event>) {
    forall i, j | 0 <= i < |s| && 0 <= j < |s| && s[i].pid == s[j].pid != "" :: s[i] == s[j]
  }

  ghost predicate SameMembers(a: seq<Event>, b: seq<Event>) {
    forall e :: e in a <==> e in b
  }

  lemma PermutationsShareMembers(a: seq<Event>, b: seq<Event>)
    requires multiset(a) == multiset(b)
    ensures SameMembers(a, b)
  {
    forall e ensures e in a <==> e in b {
      assert e in a <==> e in multiset(a);
      assert e in b <==> e in multiset(b);
    }
  }

  lemma SnapshotEntryPermutes(a: seq<Event>, b: seq<Event>, k: string)
    requires SameMembers(a, b) && DistinctPids(a)
    ensures k in SnapshotByPid(a) <==> k in SnapshotByPid(b)
    ensures k in SnapshotByPid(a) ==> SnapshotByPid(a)[k] == SnapshotByPid(b)[k]
  {
    SnapshotByPidIsLast(a, k);
    SnapshotByPidIsLast(b, k);
    if k in SnapshotByPid(a) {
      var i :| 0 <= i < |a| && a[i].pid == k && SnapshotByPid(a)[k] == ProcessOf(a[i], 0);
      assert a[i] in b;
      var j :| 0 <= j < |b| && b[j].pid == k && SnapshotByPid(b)[k] == ProcessOf(b[j], 0);
      assert b[j] in a;
      var m :| 0 <= m < |a| && a[m] == b[j];
      assert a[i] == a[m];
    }
  }

  lemma SnapshotTablePermutes(a: seq<Event>, b: seq<Event>)
    requires multiset(a) == multiset(b) && DistinctPids(a)
    ensures SnapshotByPid(a) == SnapshotByPid(b)
  {
    PermutationsShareMembers(a, b);
    forall k ensures (k in SnapshotByPid(a) <==> k in SnapshotByPid(b))
        && (k in SnapshotByPid(a) ==> SnapshotByPid(a)[k] == SnapshotByPid(b)[k]) {
      SnapshotEntryPermutes(a, b, k);
    }
  }

  /**
   The order of a snapshot does not matter when its PIDs are distinct: the same events in another order
   give the same results in that order, the same indexes and the same number of gaps.
   */
  lemma SnapshotOrderIsIrrelevant(at: Endpoint, tenant: string, a: seq<Event>, b: seq<Event>, ix: Indexes, pool: Pool,
      now: int, retention: int, reason: string)
    requires multiset(a) == multiset(b) && DistinctPids(a)
    ensures var sa, sb := IdentifyAll(at, tenant, a), IdentifyAll(at, tenant, b);
      var ra, rb := ResolveAll(sa, SnapshotByPid(sa), ix.byPid, pool, now, retention, reason),
          ResolveAll(sb, SnapshotByPid(sb), ix.byPid, pool, now, retention, reason);
      && multiset(ra) == multiset(rb) && CountGaps(ra) == CountGaps(rb)
      && AfterAll(ix, sa).byPid == AfterAll(ix, sb).byPid
      && (MutuallyInverse(AfterAll(ix, sa)) && MutuallyInverse(AfterAll(ix, sb)) ==>
          AfterAll(ix, sa) == AfterAll(ix, sb))
      && (Agree(ix) && BringsOwnId(ix, SnapshotOp(tenant, a)) ==> AfterAll(ix, sa) == AfterAll(ix, sb))
  {
    var sa, sb := IdentifyAll(at, tenant, a), IdentifyAll(at, tenant, b);
    MapAllPermutes(Identifier(at, tenant), a, b);
    forall i, j | 0 <= i < |sa| && 0 <= j < |sa| && sa[i].pid == sa[j].pid != "" ensures sa[i] == sa[j] {
      assert a[i].pid == a[j].pid;
    }
    SnapshotTablePermutes(sa, sb);
    MapAllPermutes(Resolver(SnapshotByPid(sa), ix.byPid, pool, now, retention, reason), sa, sb);
    CountGapsPermutes(ResolveAll(sa, SnapshotByPid(sa), ix.byPid, pool, now, retention, reason),
                      ResolveAll(sb, SnapshotByPid(sb), ix.byPid, pool, now, retention, reason));
    AfterAllIsOverwrite(ix, sa);
    AfterAllIsOverwrite(ix, sb);
    if Agree(ix) && BringsOwnId(ix, SnapshotOp(tenant, a)) {
      PermutationsShareMembers(a, b);
      StepAgrees(at, ix, SnapshotOp(tenant, a));
      StepAgrees(at, ix, SnapshotOp(tenant, b));
    }
    if MutuallyInverse(AfterAll(ix, sa)) && MutuallyInverse(AfterAll(ix, sb)) {
      InverseIsUnique(AfterAll(ix, sa), AfterAll(ix, sb));
    }
  }

  /** Agreeing indexes with the same PID index are the same. */
  lemma InverseIsUnique(x: Indexes, y: Indexes)
    requires MutuallyInverse(x) && MutuallyInverse(y) && x.byPid == y.byPid
    ensures x == y
  {
    forall e ensures (e in x.byEntity <==> e in y.byEntity) && (e in x.byEntity ==> x.byEntity[e] == y.byEntity[e]) {
      if e in x.byEntity {
        assert x.byEntity[e].pid in y.byPid;
      }
      if e in y.byEntity {
        assert y.byEntity[e].pid in x.byPid;
      }
    }
    assert x.byEntity == y.byEntity;
  }
}
