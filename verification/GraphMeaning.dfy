/**
 What a process graph says, read off the fields of the events themselves: which event stands for an entity,
 the order of the timeline, the links along the ancestors and descendants, and the gaps.
 */
module GraphMeaning {
  import opened Collections
  import opened Options
  import opened StableSort
  import opened ParentWalk
  import opened ProcessGraph

  predicate IsStartOf(e: Event, id: string) {
    e.eventType == ProcessStart && e.entity == Some(id)
  }

  predicate IsProcessEventOf(e: Event, id: string) {
    (e.eventType == ProcessStart || e.eventType == ProcessStop || e.eventType == ProcessEnd) && e.entity == Some(id)
  }

  function Starts(id: string): Event -> bool {
    (e: Event) => IsStartOf(e, id)
  }

  function Processes(id: string): Event -> bool {
    (e: Event) => IsProcessEventOf(e, id)
  }

  function AtTime(t: int): Event -> bool {
    (e: Event) => e.timestamp == t
  }

  ghost predicate OldestFirst(s: seq<Event>) {
    forall i, j | 0 <= i < j < |s| :: s[i].timestamp <= s[j].timestamp
  }

  function FirstWhere(p: Event -> bool, s: seq<Event>): Option<Event> {
    if s == [] then None else if p(s[0]) then Some(s[0]) else FirstWhere(p, s[1..])
  }

  function LastWhere(p: Event -> bool, s: seq<Event>): Option<Event> {
    if s == [] then None
    else if LastWhere(p, s[1..]).Some? then LastWhere(p, s[1..])
    else if p(s[0]) then Some(s[0]) else None
  }

  // ---------- filters ----------

  lemma {:induction false} FilterKeepsOrder(p: Event -> bool, s: seq<Event>)
    requires OldestFirst(s)
    ensures OldestFirst(Filter(p, s))
  {
    if s != [] {
      var rest := Filter(p, s[1..]);
      FilterKeepsOrder(p, s[1..]);
      forall j | 0 <= j < |rest| ensures s[0].timestamp <= rest[j].timestamp {
        assert rest[j] in rest;
        var k :| 0 <= k < |s[1..]| && s[1..][k] == rest[j];
        assert s[k + 1] == rest[j];
      }
    }
  }

  lemma FilterCons(p: Event -> bool, x: Event, s: seq<Event>)
    ensures Filter(p, [x] + s) == if p(x) then [x] + Filter(p, s) else Filter(p, s)
  {
    assert ([x] + s)[1..] == s;
  }

  lemma {:induction false} FiltersCommute(p: Event -> bool, q: Event -> bool, s: seq<Event>)
    ensures Filter(p, Filter(q, s)) == Filter(q, Filter(p, s))
  {
    if s != [] {
      FiltersCommute(p, q, s[1..]);
      FilterCons(p, s[0], Filter(q, s[1..]));
      FilterCons(q, s[0], Filter(p, s[1..]));
    }
  }

  lemma {:induction false} LastWhereFiltered(p: Event -> bool, q: Event -> bool, s: seq<Event>)
    requires forall e | e in s && p(e) :: q(e)
    ensures LastWhere(p, Filter(q, s)) == LastWhere(p, s)
  {
    if s != [] {
      LastWhereFiltered(p, q, s[1..]);
      assert ([s[0]] + Filter(q, s[1..]))[1..] == Filter(q, s[1..]);
    }
  }

  lemma {:induction false} FirstWhereFiltered(p: Event -> bool, q: Event -> bool, s: seq<Event>)
    requires forall e | e in s && p(e) :: q(e)
    ensures FirstWhere(p, Filter(q, s)) == FirstWhere(p, s)
  {
    if s != [] {
      FirstWhereFiltered(p, q, s[1..]);
      assert ([s[0]] + Filter(q, s[1..]))[1..] == Filter(q, s[1..]);
    }
  }

  lemma {:induction false} LastWhereAt(p: Event -> bool, s: seq<Event>, i: nat)
    requires i < |s| && p(s[i]) && forall j | i < j < |s| :: !p(s[j])
    ensures LastWhere(p, s) == Some(s[i])
  {
    if i > 0 {
      LastWhereAt(p, s[1..], i - 1);
    } else {
      NoneWhere(p, s[1..]);
    }
  }

  lemma {:induction false} NoneWhere(p: Event -> bool, s: seq<Event>)
    requires forall j | 0 <= j < |s| :: !p(s[j])
    ensures LastWhere(p, s) == None
  {
    if s != [] {
      NoneWhere(p, s[1..]);
    }
  }

  lemma {:induction false} FirstWhereAt(p: Event -> bool, s: seq<Event>, i: nat)
    requires i < |s| && p(s[i]) && forall j | 0 <= j < i :: !p(s[j])
    ensures FirstWhere(p, s) == Some(s[i])
  {
    if i > 0 {
      FirstWhereAt(p, s[1..], i - 1);
    }
  }

  /** The last such event is also the last among those of its own time. */
  lemma {:induction false} LastWhereAtTime(p: Event -> bool, s: seq<Event>)
    ensures match LastWhere(p, s)
            case None => true
            case Some(e) => p(e) && LastWhere(p, Filter(AtTime(e.timestamp), s)) == Some(e)
  {
    if s != [] {
      LastWhereAtTime(p, s[1..]);
      if LastWhere(p, s).Some? {
        var t := LastWhere(p, s).value.timestamp;
        var rest := Filter(AtTime(t), s[1..]);
        assert ([s[0]] + rest)[1..] == rest;
        if LastWhere(p, s[1..]).None? {
          NoneLeft(p, AtTime(t), s[1..]);
        }
      }
    }
  }

  lemma {:induction false} NoneLeft(p: Event -> bool, q: Event -> bool, s: seq<Event>)
    requires LastWhere(p, s) == None
    ensures LastWhere(p, Filter(q, s)) == None
  {
    if s != [] {
      NoneLeft(p, q, s[1..]);
      assert ([s[0]] + Filter(q, s[1..]))[1..] == Filter(q, s[1..]);
    }
  }

  lemma {:induction false} FirstWhereAtTime(p: Event -> bool, s: seq<Event>)
    ensures match FirstWhere(p, s)
            case None => true
            case Some(e) => p(e) && FirstWhere(p, Filter(AtTime(e.timestamp), s)) == Some(e)
  {
    if s != [] {
      FirstWhereAtTime(p, s[1..]);
      if FirstWhere(p, s).Some? {
        var rest := Filter(AtTime(FirstWhere(p, s).value.timestamp), s[1..]);
        assert ([s[0]] + rest)[1..] == rest;
      }
    }
  }

  // ---------- the order of events ----------

  lemma {:induction false} OfKeyIsAtTime(t: int, s: seq<Event>)
    ensures OfKey(ByTime, t, s) == Filter(AtTime(t), s)
  {
    if s != [] {
      OfKeyIsAtTime(t, s[1..]);
      Plain(Filter(AtTime(t), s[1..]));
    }
  }

  lemma SortedByTimestamp(events: seq<Event>, t: int)
    ensures OldestFirst(Sort(ByTime, events))
    ensures Filter(AtTime(t), Sort(ByTime, events)) == Filter(AtTime(t), events)
  {
    var s := Sort(ByTime, events);
    SortFacts(ByTime, events);
    forall i, j | 0 <= i < j < |s| ensures s[i].timestamp <= s[j].timestamp {
      assert ByTime(s[i]) <= ByTime(s[j]);
    }
    SortIsStable(ByTime, t, events);
    OfKeyIsAtTime(t, s);
    OfKeyIsAtTime(t, events);
  }

  /** The timeline runs from the oldest event to the newest. */
  lemma TimelineIsOldestFirst(events: seq<Event>, id: string, g: Graph)
    requires HasTimeline(events, id, g)
    ensures OldestFirst(g.timeline)
  {
    SortedByTimestamp(events, 0);
    FilterKeepsOrder(Touching({id} + EntityIds(g.descendants)), Sort(ByTime, events));
  }

  /** Events of one time stand in the timeline in the order they came in. */
  lemma TimelineKeepsTies(events: seq<Event>, id: string, g: Graph, t: int)
    requires HasTimeline(events, id, g)
    ensures Filter(AtTime(t), g.timeline) == Filter(Touching({id} + EntityIds(g.descendants)),
        Filter(AtTime(t), events))
  {
    SortedByTimestamp(events, t);
    FiltersCommute(AtTime(t), Touching({id} + EntityIds(g.descendants)), Sort(ByTime, events));
  }

  lemma TouchesMeans(id: string, ds: seq<Event>, e: Event)
    requires forall d | d in ds :: d.entity.Some?
    ensures Touches({id} + EntityIds(ds), e) <==>
      e.entity == Some(id) || e.parent == Some(id) || exists d ::
          d in ds && (e.entity == d.entity || e.parent == d.entity)
  {
  }

  /** The timeline holds exactly the events that are of, or name as parent, the entity or a descendant. */
  lemma TimelineIsExact(events: seq<Event>, id: string, g: Graph, e: Event)
    requires HasDescendants(events, id, g) && HasTimeline(events, id, g)
    ensures e in g.timeline <==>
      && e in events
      && (e.entity == Some(id) || e.parent == Some(id)
          || exists d :: d in g.descendants && (e.entity == d.entity || e.parent == d.entity))
  {
    SortedMembers(events);
    DescendantsHaveEntities(events, id, g);
    TouchesMeans(id, g.descendants, e);
  }

  lemma DescendantsHaveEntities(events: seq<Event>, id: string, g: Graph)
    requires HasDescendants(events, id, g)
    ensures forall d | d in g.descendants :: d.entity.Some?
  {
    var procs := ProcessEvents(events);
    DescendantsAreExact(procs, id, id);
    forall d | d in g.descendants ensures d.entity.Some? {
      assert d in procs;
    }
  }

  /** The evidence lists exactly the events of the timeline that have raw evidence. */
  lemma EvidenceIsExact(events: seq<Event>, id: string, g: Graph, e: Event)
    requires HasTimeline(events, id, g) && HasEvidence(g)
    ensures e in g.evidence <==> e in g.timeline && e.rawRef.Some? && e.rawRef.value != ""
    ensures OldestFirst(g.evidence)
  {
    TimelineIsOldestFirst(events, id, g);
    FilterKeepsOrder((x: Event) => Truthy(x.rawRef), g.timeline);
  }

  // ---------- the event that stands for an entity ----------

  /**
   The latest start of the entity or, when it has none, its oldest process event; at equal times, the last
   start and the first process event in the order the events came in.
   */
  ghost predicate StandsFor(events: seq<Event>, e: Event, id: string) {
    e in events && e.entity == Some(id) &&
    if exists s :: s in events && IsStartOf(s, id)
    then
      && IsStartOf(e, id) && (forall s | s in events && IsStartOf(s, id) :: s.timestamp <= e.timestamp)
      && LastWhere(Starts(id), Filter(AtTime(e.timestamp), events)) == Some(e)
    else
      && IsProcessEventOf(e, id) && (forall s | s in events && IsProcessEventOf(s, id) :: e.timestamp <= s.timestamp)
      && FirstWhere(Processes(id), Filter(AtTime(e.timestamp), events)) == Some(e)
  }

  lemma ProcessEventsAre(events: seq<Event>, e: Event)
    ensures e in ProcessEvents(events) <==> e in events && exists id :: id != "" && IsProcessEventOf(e, id)
    ensures OldestFirst(ProcessEvents(events))
  {
    SortedMembers(events);
    SortedByTimestamp(events, 0);
    FilterKeepsOrder((x: Event) => IsProcessEvent(x), Sort(ByTime, events));
    if e in ProcessEvents(events) {
      assert IsProcessEventOf(e, e.entity.value);
    }
  }

  lemma AtTimeKeepsProcessEvents(events: seq<Event>, id: string, t: int)
    requires id != ""
    ensures LastWhere(Starts(id), Filter(AtTime(t), ProcessEvents(events)))
        == LastWhere(Starts(id), Filter(AtTime(t), events))
    ensures FirstWhere(Processes(id), Filter(AtTime(t), ProcessEvents(events)))
        == FirstWhere(Processes(id), Filter(AtTime(t), events))
  {
    var p := (x: Event) => IsProcessEvent(x);
    SortedByTimestamp(events, t);
    FiltersCommute(AtTime(t), p, Sort(ByTime, events));
    LastWhereFiltered(Starts(id), p, Filter(AtTime(t), events));
    FirstWhereFiltered(Processes(id), p, Filter(AtTime(t), events));
  }

  lemma LatestStartStands(events: seq<Event>, e: Event, id: string, i: nat)
    requires id != "" && i < |ProcessEvents(events)| && ProcessEvents(events)[i] == e && IsStartOf(e, id)
    requires forall j | i < j < |ProcessEvents(events)| :: !IsStartOf(ProcessEvents(events)[j], id)
    ensures StandsFor(events, e, id)
  {
    var procs := ProcessEvents(events);
    ProcessEventsAre(events, e);
    assert procs[i] in procs;
    LastWhereAt(Starts(id), procs, i);
    LastWhereAtTime(Starts(id), procs);
    AtTimeKeepsProcessEvents(events, id, e.timestamp);
    forall s | s in events && IsStartOf(s, id) ensures s.timestamp <= e.timestamp {
      ProcessEventsAre(events, s);
      assert IsProcessEventOf(s, id);
      var j :| 0 <= j < |procs| && procs[j] == s;
    }
  }

  lemma OldestEventStands(events: seq<Event>, e: Event, id: string, i: nat)
    requires id != "" && i < |ProcessEvents(events)| && ProcessEvents(events)[i] == e && IsProcessEventOf(e, id)
    requires forall j | 0 <= j < i :: ProcessEvents(events)[j].entity != Some(id)
    requires forall j | 0 <= j < |ProcessEvents(events)| :: !IsStartOf(ProcessEvents(events)[j], id)
    ensures StandsFor(events, e, id)
  {
    var procs := ProcessEvents(events);
    ProcessEventsAre(events, e);
    assert procs[i] in procs;
    FirstWhereAt(Processes(id), procs, i);
    FirstWhereAtTime(Processes(id), procs);
    AtTimeKeepsProcessEvents(events, id, e.timestamp);
    forall s | s in events && IsProcessEventOf(s, id) ensures e.timestamp <= s.timestamp && !IsStartOf(s, id) {
      ProcessEventsAre(events, s);
      var j :| 0 <= j < |procs| && procs[j] == s;
    }
  }

  lemma IndexStands(events: seq<Event>, idx: map<string, Event>, id: string)
    requires IndexOf(ProcessEvents(events), idx)
    ensures id in idx ==> StandsFor(events, idx[id], id)
    ensures id in idx <==> id != "" && exists e :: e in events && IsProcessEventOf(e, id)
  {
    var procs := ProcessEvents(events);
    if id in idx {
      var e := idx[id];
      var i :| && 0 <= i < |procs| && procs[i] == e && IsProcessEvent(e)
               && if e.eventType.ProcessStart?
                  then forall j | i < j < |procs| && procs[j].entity == e.entity :: !procs[j].eventType.ProcessStart?
                  else (forall j | 0 <= j < i :: procs[j].entity != e.entity)
                       && (forall j | 0 <= j < |procs|
                           && procs[j].entity == e.entity :: !procs[j].eventType.ProcessStart?);
      if e.eventType.ProcessStart? {
        LatestStartStands(events, e, id, i);
      } else {
        OldestEventStands(events, e, id, i);
      }
      assert IsProcessEventOf(e, id);
    }
    if id != "" && exists e :: e in events && IsProcessEventOf(e, id) {
      var e :| e in events && IsProcessEventOf(e, id);
      ProcessEventsAre(events, e);
    }
  }

  /** The process of a graph is the event that stands for its entity. */
  lemma ProcessStandsForEntity(events: seq<Event>, idx: map<string, Event>, id: string, g: Graph)
    requires HasIndex(events, idx, id) && HasAncestors(idx, id, g)
    ensures StandsFor(events, g.process, id)
  {
    IndexStands(events, idx, id);
  }

  // ---------- ancestors ----------

  /** The process for 0, and its i-th ancestor for i. */
  function Above(g: Graph, i: nat): Event
    requires i <= |g.ancestors|
  {
    if i == 0 then g.process else g.ancestors[i - 1]
  }

  /** The ids that the ancestor walk visits. */
  function LineIds(idx: map<string, Event>, id: string, g: Graph): seq<string> {
    WalkIds(idx, ParentOf, g.process.parent, {id})
  }

  lemma LineIsRows(events: seq<Event>, idx: map<string, Event>, id: string, g: Graph, i: nat)
    requires HasIndex(events, idx, id) && HasAncestors(idx, id, g) && i < |g.ancestors|
    ensures var ids := LineIds(idx, id, g);
      && |ids| == |g.ancestors| && ids[i] in idx && ids[i] != id && g.ancestors[i] == idx[ids[i]]
      && g.ancestors[i].entity == Some(ids[i])
  {
    WalkIsIterates(idx, ParentOf, g.process.parent, {id});
  }

  lemma LineFollowsParents(events: seq<Event>, idx: map<string, Event>, id: string, g: Graph, i: nat)
    requires HasIndex(events, idx, id) && HasAncestors(idx, id, g) && i < |g.ancestors|
    ensures |LineIds(idx, id, g)| == |g.ancestors| && Above(g, i).parent == Some(LineIds(idx, id, g)[i])
  {
    WalkIsIterates(idx, ParentOf, g.process.parent, {id});
    if i > 0 {
      LineIsRows(events, idx, id, g, i - 1);
      NthStep(idx, ParentOf, g.process.parent, i - 1);
    }
  }

  /** Each ancestor is the event that stands for the parent named by the one before it, and never the entity itself. */
  lemma AncestorsAreTheLine(events: seq<Event>, idx: map<string, Event>, id: string, g: Graph, i: nat)
    requires HasIndex(events, idx, id) && HasAncestors(idx, id, g) && i < |g.ancestors|
    ensures var parent := Above(g, i).parent;
      && parent.Some? && parent.value != "" && parent.value != id
      && g.ancestors[i].entity == parent && StandsFor(events, g.ancestors[i], parent.value)
  {
    LineIsRows(events, idx, id, g, i);
    LineFollowsParents(events, idx, id, g, i);
    IndexStands(events, idx, LineIds(idx, id, g)[i]);
  }

  lemma AncestorsAreDistinct(events: seq<Event>, idx: map<string, Event>, id: string, g: Graph, j: nat, k: nat)
    requires HasIndex(events, idx, id) && HasAncestors(idx, id, g) && j < k < |g.ancestors|
    ensures g.ancestors[j].entity != g.ancestors[k].entity
  {
    LineIsRows(events, idx, id, g, j);
    LineIsRows(events, idx, id, g, k);
    WalkIsIterates(idx, ParentOf, g.process.parent, {id});
  }

  /** The line goes on until a parent is missing, unknown, or already in it. */
  lemma AncestorsGoOn(events: seq<Event>, idx: map<string, Event>, id: string, g: Graph)
    requires HasIndex(events, idx, id) && HasAncestors(idx, id, g)
    ensures var parent := Above(g, |g.ancestors|).parent;
      || parent == None || parent == Some("") || parent == Some(id)
      || (exists j :: 0 <= j < |g.ancestors| && g.ancestors[j].entity == parent)
      || forall e | e in events :: !IsProcessEventOf(e, parent.value)
  {
    var n := |g.ancestors|;
    var parent := Above(g, n).parent;
    var ids := LineIds(idx, id, g);
    if parent.Some? {
      IndexStands(events, idx, parent.value);
      if n > 0 {
        LineIsRows(events, idx, id, g, n - 1);
        assert ids[n - 1] in ids;
        WalkIsClosed(idx, ParentOf, g.process.parent, {id}, ids[n - 1]);
      }
      if parent.value in ids {
        var k :| 0 <= k < |ids| && ids[k] == parent.value;
        LineIsRows(events, idx, id, g, k);
      }
    }
  }

  // ---------- descendants ----------

  /** The entity itself, or the entity of one of the given events. */
  ghost predicate IsWithin(x: string, id: string, es: seq<Event>) {
    x == id || exists d :: d in es && d.entity == Some(x)
  }

  /**
   Each descendant names as parent the entity or a descendant listed before it, and no child is left out: a
   process event that names the entity or a descendant belongs to a descendant. The first one is the oldest
   event that names the entity itself.
   */
  lemma DescendantsAreTheChildren(events: seq<Event>, idx: map<string, Event>, id: string, g: Graph, i: nat, e: Event,
      x: string)
    requires HasIndex(events, idx, id) && HasDescendants(events, id, g)
    ensures i < |g.descendants| ==>
      var d := g.descendants[i];
      d in events && d.parent.Some? && d.parent.value != "" && IsWithin(d.parent.value, id, g.descendants[..i])
    ensures e in events && x != "" && IsProcessEventOf(e, x) && e.parent.Some? && e.parent.value != ""
            && IsWithin(e.parent.value, id, g.descendants)
            ==> exists d :: d in g.descendants && d.entity == Some(x)
    ensures e in events && x != "" && IsProcessEventOf(e, x) && e.parent == Some(id)
            ==> g.descendants != [] && g.descendants[0].parent == Some(id) && g.descendants[0].timestamp <= e.timestamp
  {
    var procs := ProcessEvents(events);
    DescendantsAreExact(procs, id, x);
    SortedMembers(events);
    if i < |g.descendants| {
      assert HasListedParent(id, g.descendants, i);
      assert g.descendants[i] in procs;
      ListedIsWithin(id, g.descendants, i);
    }
    ProcessEventsAre(events, e);
    if e in events && x != "" && IsProcessEventOf(e, x) && e.parent.Some? && e.parent.value != ""
      && IsWithin(e.parent.value, id, g.descendants)
    {
      ChildOfGraphIsInGraph(procs, id, e);
      if e.parent == Some(id) {
        FirstChild(procs, id, e);
      }
    }
  }

  lemma ListedIsWithin(id: string, order: seq<Event>, i: nat)
    requires i < |order| && HasListedParent(id, order, i)
    ensures IsWithin(order[i].parent.value, id, order[..i])
  {
  }

  lemma FirstChild(procs: seq<Event>, id: string, e: Event)
    requires AreProcessEvents(procs) && OldestFirst(procs) && e in procs && e.parent == Some(id) && id != ""
    ensures var order := Descendants(procs, id).order;
      order != [] && order[0].parent == Some(id) && order[0].timestamp <= e.timestamp
  {
    var todo := ChildrenOf(procs, id);
    assert e in todo;
    FilterKeepsOrder((x: Event) => IsChildOf(x, id), procs);
    var j :| 0 <= j < |todo| && todo[j] == e;
    assert todo[0] in todo;
    assert todo[0] in procs;
    var first := Search([] + [todo[0]], {} + {todo[0].entity.value});
    assert Visit(procs, todo, Search([], {}))
           == Visit(procs, todo[1..], Visit(procs, ChildrenOf(procs, todo[0].entity.value), first));
  }

  // ---------- gaps ----------

  /** The event gives a reason for a missing parent, and names none or one that no process event is of. */
  ghost predicate MissesParent(events: seq<Event>, r: Event) {
    && r.missingReason.Some? && r.missingReason.value != ""
    && (r.parent.None? || r.parent.value == "" || forall e | e in events :: !IsProcessEventOf(e, r.parent.value))
  }

  lemma ReportsMeansMisses(events: seq<Event>, idx: map<string, Event>, r: Event)
    requires IndexOf(ProcessEvents(events), idx)
    ensures ReportsGap(idx, r) <==> MissesParent(events, r)
  {
    if r.parent.Some? {
      IndexStands(events, idx, r.parent.value);
    }
  }

  /** The gaps are exactly those of the events of the graph that miss their parent. */
  lemma GapsAreMissingParents(events: seq<Event>, idx: map<string, Event>, id: string, g: Graph, gap: Gap)
    requires HasIndex(events, idx, id) && HasGaps(idx, g)
    ensures gap in g.gaps <==> exists r ::
      && (r == g.process || r in g.ancestors || r in g.descendants) && MissesParent(events, r)
      && gap == Gap(r.entity, r.parent, r.missingReason, r.confidence)
  {
    GapReportIsExact(idx, [], [g.process] + g.ancestors + g.descendants, gap);
    forall r ensures ReportsGap(idx, r) <==> MissesParent(events, r) {
      ReportsMeansMisses(events, idx, r);
    }
  }
}
