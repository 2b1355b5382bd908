/**
 The two older lineage views: the process-chain endpoint (by entity, or by PID for old telemetry) and
 the JSON-file provider's chain trace. Both index rows with a Python dict comprehension, where the last
 row of a key wins, and follow parent links through it.
 */
module ProcessChains {
  import opened Options
  import opened ParentWalk
  import opened ProcessGraph

  const EntityKey: Event -> Option<string> := (e: Event) => e.entity
  const PidKey: Event -> Option<string> := (e: Event) => e.processId
  const ParentPidOf: Event -> Option<string> := (e: Event) => e.parentProcessId

  /** `{key(e): e for e in rows if key(e)}` */
  function LastBy(key: Event -> Option<string>, rows: seq<Event>): map<string, Event> {
    if rows == [] then map[]
    else
      var last := rows[|rows| - 1];
      var before := LastBy(key, rows[..|rows| - 1]);
      if Truthy(key(last)) then before[key(last).value := last] else before
  }

  lemma {:induction false} LastByIsLast(key: Event -> Option<string>, rows: seq<Event>, k: string)
    ensures k in LastBy(key, rows) <==> exists e :: e in rows && Truthy(key(e)) && key(e).value == k
    ensures k in LastBy(key, rows) ==> exists i ::
      && 0 <= i < |rows| && rows[i] == LastBy(key, rows)[k] && key(rows[i]) == Some(k)
      && forall j | i < j < |rows| :: key(rows[j]) != Some(k)
  {
    if rows != [] {
      var n := |rows| - 1;
      assert rows == rows[..n] + [rows[n]];
      LastByIsLast(key, rows[..n], k);
    }
  }

  /**
   The entity mode of the endpoint: chain, direct children, gaps, and the PID of the first process or else the
   caller's.
   */
  method EntityChain(events: seq<Event>, id: string, pid: Option<string>)
    returns (chain: seq<Event>, children: seq<Event>, gaps: seq<Gap>, processId: Option<string>)
    ensures var idx := LastBy(EntityKey, events);
      && chain == Rows(idx, WalkIds(idx, ParentOf, Some(id), {}))
      && gaps == AppendGaps(idx, [], chain)
    ensures children == FirstHundred(Filter((e: Event) => e.parent == Some(id), events))
    ensures id != "" ==>
      var idx := LastBy(EntityKey, events); processId == if id in idx then idx[id].processId else pid
  {
    var idx := LastBy(EntityKey, events);
    forall k | k in idx ensures idx[k].entity == Some(k) {
      LastByIsLast(EntityKey, events, k);
    }
    chain, gaps := WalkChain(idx, id);
    children := FirstHundred(Filter((e: Event) => e.parent == Some(id), events));
    processId := if chain != [] then chain[0].processId else pid;
  }

  function FirstHundred(s: seq<Event>): (r: seq<Event>)
    ensures r <= s && (|r| == 100 || r == s) && |r| <= 100
  {
    if |s| <= 100 then s else s[..100]
  }

  /** The PID mode, kept for telemetry without entity ids; it reports no gaps. */
  method PidChain(events: seq<Event>, pid: string) returns (chain: seq<Event>, children: seq<Event>)
    ensures var idx := LastBy(PidKey, events);
      chain == Rows(idx, WalkIds(idx, ParentPidOf, Some(pid), {}))
    ensures children == FirstHundred(Filter((e: Event) => e.parentProcessId == Some(pid), events))
  {
    children := FirstHundred(Filter((e: Event) => e.parentProcessId == Some(pid), events));
    chain := Walk(LastBy(PidKey, events), ParentPidOf, Some(pid), {});
  }

  /**
   Over one index, the endpoint's chain is the graph's process followed by the graph's ancestors, and it
   visits exactly the ids the unguarded walk would reach.
   */
  lemma ChainIsProcessThenAncestors(idx: map<string, Event>, id: string, x: string)
    requires id in idx && id != "" && KeyedByEntity(idx)
    ensures Rows(idx, WalkIds(idx, ParentOf, Some(id), {}))
            == [idx[id]] + Rows(idx, WalkIds(idx, ParentOf, idx[id].parent, {id}))
    ensures x in EntityIds(Rows(idx, WalkIds(idx, ParentOf, Some(id), {}))) <==>
        x == id || IsAbove(idx, ParentOf, id, x)
  {
    var above := WalkIds(idx, ParentOf, idx[id].parent, {id});
    assert {} + {id} == {id};
    assert WalkIds(idx, ParentOf, Some(id), {}) == [id] + above;
    AncestorsAreExact(idx, ParentOf, id, x);
    RowsEntities(idx, WalkIds(idx, ParentOf, Some(id), {}), x);
  }

  /** Because a chain never repeats an entity, the endpoint's unchecked appends leave no repeated gap. */
  lemma ChainGapsAreDistinct(idx: map<string, Event>, id: string, gap: Gap)
    requires KeyedByEntity(idx)
    ensures var chain := Rows(idx, WalkIds(idx, ParentOf, Some(id), {}));
      && Distinct(chain) && Distinct(AppendGaps(idx, [], chain))
      && (gap in AppendGaps(idx, [], chain) <==> exists r :: r in chain && ReportsGap(idx, r) && GapOf(r) == gap)
  {
    var ids := WalkIds(idx, ParentOf, Some(id), {});
    WalkIsIterates(idx, ParentOf, Some(id), {});
    var chain := Rows(idx, ids);
    GapReportIsExact(idx, [], chain, gap);
    forall i, j | 0 <= i < j < |chain| ensures chain[i] != chain[j] {
      assert chain[i].entity == Some(ids[i]) && chain[j].entity == Some(ids[j]);
    }
  }

  // ---------- the JSON-file provider ----------

  function Reversed(s: seq<Event>): seq<Event> {
    if s == [] then [] else Reversed(s[1..]) + [s[0]]
  }

  lemma {:induction false} ReversedAt(s: seq<Event>, i: nat)
    requires i < |s|
    ensures |Reversed(s)| == |s| && Reversed(s)[i] == s[|s| - 1 - i]
  {
    if |s| > 1 {
      ReversedAt(s[1..], if i < |s| - 1 then i else 0);
    }
  }

  function FindById(rows: seq<Event>, id: string): Option<Event> {
    if rows == [] then None else if rows[0].id == id then Some(rows[0]) else FindById(rows[1..], id)
  }

  /** Where the trace starts: the PID's last start event or, failing that, the event with the given id. */
  function TraceStart(starts: seq<Event>, pid: Option<string>, eventId: Option<string>): Option<Event> {
    var byPid := LastBy(PidKey, starts);
    if Truthy(pid) && pid.value in byPid then Some(byPid[pid.value])
    else if Truthy(eventId) then FindById(starts, eventId.value)
    else None
  }

  function SeenFrom(e: Event): set<string> {
    if e.processId.Some? then {e.processId.value} else {}
  }

  function TraceUp(byPid: map<string, Event>, start: Event): seq<Event> {
    [start] + Rows(byPid, WalkIds(byPid, ParentPidOf, start.parentProcessId, SeenFrom(start)))
  }

  method TraceProcessChain(events: seq<Event>, host: string, pid: Option<string>, eventId: Option<string>)
      returns (r: seq<Event>)
    ensures var starts := Filter((e: Event) => e.host == Some(host) && e.eventType.ProcessStart?, events);
      r == match TraceStart(starts, pid, eventId)
           case None => []
           case Some(start) => Reversed(TraceUp(LastBy(PidKey, starts), start))
  {
    var starts := Filter((e: Event) => e.host == Some(host) && e.eventType.ProcessStart?, events);
    var byPid := LastBy(PidKey, starts);
    var current := TraceStart(starts, pid, eventId);
    if current.None? {
      return [];
    }
    var above := Walk(byPid, ParentPidOf, current.value.parentProcessId, SeenFrom(current.value));
    r := Reversed([current.value] + above);
  }

  ghost predicate IsPathUp(up: seq<Event>) {
    && (forall i | 0 <= i < |up| - 1 :: Truthy(up[i].parentProcessId) && up[i].parentProcessId == up[i + 1].processId)
    && (forall i, j | 0 <= i < j < |up| :: up[i].processId != up[j].processId)
  }

  ghost predicate IsPathDown(r: seq<Event>) {
    && (forall i | 0 <= i < |r| - 1 :: Truthy(r[i].processId) && r[i].processId == r[i + 1].parentProcessId)
    && (forall i, j | 0 <= i < j < |r| :: r[i].processId != r[j].processId)
  }

  lemma TraceStep(starts: seq<Event>, start: Event, i: nat)
    requires i + 1 < |TraceUp(LastBy(PidKey, starts), start)|
    ensures var up := TraceUp(LastBy(PidKey, starts), start);
      var ids := WalkIds(LastBy(PidKey, starts), ParentPidOf, start.parentProcessId, SeenFrom(start));
      i < |ids| && up[i + 1].processId == Some(ids[i]) && ids[i] != "" && up[i].parentProcessId == Some(ids[i])
  {
    var idx := LastBy(PidKey, starts);
    var ids := WalkIds(idx, ParentPidOf, start.parentProcessId, SeenFrom(start));
    WalkIsIterates(idx, ParentPidOf, start.parentProcessId, SeenFrom(start));
    LastByIsLast(PidKey, starts, ids[i]);
    if i > 0 {
      NthStep(idx, ParentPidOf, start.parentProcessId, i - 1);
    }
  }

  lemma TraceUpIsPath(starts: seq<Event>, start: Event)
    ensures IsPathUp(TraceUp(LastBy(PidKey, starts), start))
  {
    var up := TraceUp(LastBy(PidKey, starts), start);
    WalkIsIterates(LastBy(PidKey, starts), ParentPidOf, start.parentProcessId, SeenFrom(start));
    forall i | 0 <= i < |up| - 1 ensures Truthy(up[i].parentProcessId) && up[i].parentProcessId == up[i + 1].processId {
      TraceStep(starts, start, i);
    }
    forall i, j | 0 <= i < j < |up| ensures up[i].processId != up[j].processId {
      TraceStep(starts, start, j - 1);
      if i > 0 {
        TraceStep(starts, start, i - 1);
      }
    }
  }

  /**
   The trace reads root first: it ends at the start event, every event's PID is the next one's parent
   PID, and no PID occurs twice, whatever cycles PID reuse has put into the links.
   */
  lemma TraceIsRootFirstPath(starts: seq<Event>, start: Event)
    ensures var r := Reversed(TraceUp(LastBy(PidKey, starts), start));
      r != [] && r[|r| - 1] == start && IsPathDown(r)
  {
    TraceUpIsPath(starts, start);
    ReversedPath(TraceUp(LastBy(PidKey, starts), start));
  }

  lemma ReversedPath(up: seq<Event>)
    requires up != [] && IsPathUp(up)
    ensures |Reversed(up)| == |up| && Reversed(up)[|up| - 1] == up[0] && IsPathDown(Reversed(up))
  {
    var r := Reversed(up);
    ReversedAt(up, 0);
    forall i | 0 <= i < |up| ensures r[i] == up[|up| - 1 - i] {
      ReversedAt(up, i);
    }
    forall i | 0 <= i < |r| - 1 ensures Truthy(r[i].processId) && r[i].processId == r[i + 1].parentProcessId {
      var k := |up| - 2 - i;
      assert up[k].parentProcessId == up[k + 1].processId;
    }
    forall i, j | 0 <= i < j < |r| ensures r[i].processId != r[j].processId {
      assert up[|up| - 1 - j].processId != up[|up| - 1 - i].processId;
    }
  }

  /** The i-th event is the last with this PID, or the first with this id. */
  predicate IsLastOfPid(starts: seq<Event>, pid: string, i: int) {
    0 <= i < |starts| && starts[i].processId == Some(pid)
        && forall j | i < j < |starts| :: starts[j].processId != Some(pid)
  }

  predicate IsFirstOfId(starts: seq<Event>, id: string, i: int) {
    0 <= i < |starts| && starts[i].id == id && forall j | 0 <= j < i :: starts[j].id != id
  }

  lemma {:induction false} FindByIdIsFirst(rows: seq<Event>, id: string)
    ensures match FindById(rows, id)
            case None => forall e | e in rows :: e.id != id
            case Some(e) => exists i :: IsFirstOfId(rows, id, i) && rows[i] == e
  {
    if rows != [] {
      FindByIdIsFirst(rows[1..], id);
      if rows[0].id == id {
        assert IsFirstOfId(rows, id, 0);
      } else if FindById(rows, id).Some? {
        var i :| IsFirstOfId(rows[1..], id, i) && rows[1..][i] == FindById(rows, id).value;
        assert IsFirstOfId(rows, id, i + 1);
      }
    }
  }

  /**
   The trace starts at the last start event with the PID asked for; when there is none, at the first with the
   event id asked for; and nowhere when there is none either.
   */
  lemma TraceStartsAt(starts: seq<Event>, pid: Option<string>, eventId: Option<string>)
    ensures var wanted := pid.Some? && pid.value != "" && exists e :: e in starts && e.processId == pid;
      match TraceStart(starts, pid, eventId)
      case Some(start) =>
        (if wanted then exists i :: IsLastOfPid(starts, pid.value, i) && starts[i] == start
         else eventId.Some? && eventId.value != "" && exists i ::
             IsFirstOfId(starts, eventId.value, i) && starts[i] == start)
      case None =>
        !wanted && (eventId.Some? && eventId.value != "" ==> forall e | e in starts :: e.id != eventId.value)
  {
    if pid.Some? {
      LastByIsLast(PidKey, starts, pid.value);
      if Truthy(pid) && pid.value in LastBy(PidKey, starts) {
        var i :| 0 <= i < |starts| && starts[i] == LastBy(PidKey, starts)[pid.value]
            && PidKey(starts[i]) == Some(pid.value)
          && forall j | i < j < |starts| :: PidKey(starts[j]) != Some(pid.value);
        assert IsLastOfPid(starts, pid.value, i);
      }
    }
    if eventId.Some? {
      FindByIdIsFirst(starts, eventId.value);
    }
  }
}
