/**
 The process graph of one entity: its representative event, its ancestors, its descendants, the events
 that touch them, and the parents that are missing. Parent links come from telemetry, so they may be
 cyclic, contradict each other, or point nowhere.
 */
module ProcessGraph {
  import opened Options
  import opened Collections
  import opened StableSort
  import opened ParentWalk

  datatype EventType = ProcessStart | ProcessStop | ProcessEnd | OtherType

  datatype Event = Event(
    id: string, timestamp: int, eventType: EventType, host: Option<string>,
    processId: Option<string>, parentProcessId: Option<string>,
    entity: Option<string>, parent: Option<string>,
    missingReason: Option<string>, confidence: Option<string>, rawRef: Option<string>)

  datatype Gap = Gap(entity: Option<string>, parent: Option<string>, reason: Option<string>, confidence: Option<string>)

  datatype Graph = Graph(
    host: Option<string>, process: Event, ancestors: seq<Event>, descendants: seq<Event>,
    timeline: seq<Event>, evidence: seq<Event>, gaps: seq<Gap>)

  // ---------- selecting process events ----------

  predicate IsProcessEvent(e: Event) {
    Truthy(e.entity) && !e.eventType.OtherType?
  }

  predicate AreProcessEvents(procs: seq<Event>) {
    forall e | e in procs :: IsProcessEvent(e)
  }

  function Filter(p: Event -> bool, s: seq<Event>): (r: seq<Event>)
    ensures forall e :: e in r <==> e in s && p(e)
  {
    if s == [] then []
    else if p(s[0]) then [s[0]] + Filter(p, s[1..])
    else Filter(p, s[1..])
  }

  const ByTime: Event -> int := (e: Event) => e.timestamp

  function ProcessEvents(events: seq<Event>): seq<Event> {
    Filter((e: Event) => IsProcessEvent(e), Sort(ByTime, events))
  }

  // ---------- one representative event per entity ----------

  /**
   The representative of an entity: its last process_start in time order or, when it never started on
   record, its first process event.
   */
  ghost predicate Represents(procs: seq<Event>, e: Event) {
    exists i ::
      && 0 <= i < |procs| && procs[i] == e && IsProcessEvent(e)
      && if e.eventType.ProcessStart?
         then forall j | i < j < |procs| && procs[j].entity == e.entity :: !procs[j].eventType.ProcessStart?
         else (forall j | 0 <= j < i :: procs[j].entity != e.entity)
              && (forall j | 0 <= j < |procs| && procs[j].entity == e.entity :: !procs[j].eventType.ProcessStart?)
  }

  ghost predicate IndexOf(procs: seq<Event>, idx: map<string, Event>) {
    && (forall e | e in procs :: e.entity.Some? && e.entity.value in idx)
    && (forall k | k in idx :: k != "" && idx[k].entity == Some(k) && Represents(procs, idx[k]))
  }

  lemma RepresentsLater(procs: seq<Event>, e: Event, event: Event)
    requires Represents(procs, e)
    requires event.entity == e.entity ==> !event.eventType.ProcessStart?
    ensures Represents(procs + [event], e)
  {
    var longer := procs + [event];
    assert forall j | 0 <= j < |procs| :: longer[j] == procs[j];
    var i :| && 0 <= i < |procs| && procs[i] == e && IsProcessEvent(e)
             && if e.eventType.ProcessStart?
                then forall j | i < j < |procs| && procs[j].entity == e.entity :: !procs[j].eventType.ProcessStart?
                else (forall j | 0 <= j < i :: procs[j].entity != e.entity)
                     && (forall j | 0 <= j < |procs|
                         && procs[j].entity == e.entity :: !procs[j].eventType.ProcessStart?);
    assert longer[i] == e;
  }

  lemma RepresentsNow(procs: seq<Event>, event: Event)
    requires IsProcessEvent(event)
    requires event.eventType.ProcessStart? || forall e | e in procs :: e.entity != event.entity
    ensures Represents(procs + [event], event)
  {
    var longer := procs + [event];
    assert longer[|procs|] == event;
    if !event.eventType.ProcessStart? {
      forall j | 0 <= j < |procs| ensures longer[j].entity != event.entity {
        assert longer[j] in procs;
      }
    }
  }

  method BuildIndex(procs: seq<Event>) returns (idx: map<string, Event>)
    requires AreProcessEvents(procs)
    ensures IndexOf(procs, idx)
  {
    idx := map[];
    for n := 0 to |procs|
      invariant IndexOf(procs[..n], idx)
    {
      var event := procs[n];
      assert event in procs;
      var k := event.entity.value;
      assert procs[..n + 1] == procs[..n] + [event];
      forall x | x in idx && (event.entity == Some(x) ==> !event.eventType.ProcessStart?)
        ensures Represents(procs[..n + 1], idx[x])
      {
        RepresentsLater(procs[..n], idx[x], event);
      }
      if event.eventType.ProcessStart? || k !in idx {
        RepresentsNow(procs[..n], event);
        idx := idx[k := event];
      }
    }
    assert procs[..|procs|] == procs;
  }

  // ---------- missing parents ----------

  predicate ReportsGap(idx: map<string, Event>, e: Event) {
    Truthy(e.missingReason) && !(Truthy(e.parent) && e.parent.value in idx)
  }

  function GapOf(e: Event): Gap {
    Gap(e.entity, e.parent, e.missingReason, e.confidence)
  }

  function AppendGap(idx: map<string, Event>, gaps: seq<Gap>, e: Event): seq<Gap> {
    if ReportsGap(idx, e) && GapOf(e) !in gaps then gaps + [GapOf(e)] else gaps
  }

  function AppendGaps(idx: map<string, Event>, gaps: seq<Gap>, es: seq<Event>): seq<Gap> {
    if es == [] then gaps
    else AppendGap(idx, AppendGaps(idx, gaps, es[..|es| - 1]), es[|es| - 1])
  }

  ghost predicate Distinct<T>(s: seq<T>) {
    forall i, j | 0 <= i < j < |s| :: s[i] != s[j]
  }

  method AppendAllGaps(idx: map<string, Event>, before: seq<Gap>, es: seq<Event>) returns (gaps: seq<Gap>)
    ensures gaps == AppendGaps(idx, before, es)
  {
    gaps := before;
    for n := 0 to |es|
      invariant gaps == AppendGaps(idx, before, es[..n])
    {
      assert es[..n + 1][..n] == es[..n];
      gaps := AppendGap(idx, gaps, es[n]);
    }
    assert es[..|es|] == es;
  }

  lemma {:induction false} AppendGapsConcat(idx: map<string, Event>, gaps: seq<Gap>, a: seq<Event>, b: seq<Event>)
    ensures AppendGaps(idx, gaps, a + b) == AppendGaps(idx, AppendGaps(idx, gaps, a), b)
  {
    if b == [] {
      assert a + b == a;
    } else {
      assert (a + b)[..|a + b| - 1] == a + b[..|b| - 1];
      AppendGapsConcat(idx, gaps, a, b[..|b| - 1]);
    }
  }

  /** The report holds exactly the gaps of the events given, each once, however often an event recurs. */
  lemma {:induction false} GapReportIsExact(idx: map<string, Event>, gaps: seq<Gap>, es: seq<Event>, g: Gap)
    requires Distinct(gaps)
    ensures Distinct(AppendGaps(idx, gaps, es))
    ensures g in AppendGaps(idx, gaps, es) <==> g in gaps || exists e :: e in es && ReportsGap(idx, e) && GapOf(e) == g
  {
    if es != [] {
      var init, last := es[..|es| - 1], es[|es| - 1];
      assert es == init + [last];
      GapReportIsExact(idx, gaps, init, g);
    }
  }

  // ---------- descendants ----------

  predicate IsChildOf(e: Event, id: string) {
    Truthy(e.parent) && e.parent.value == id
  }

  function ChildrenOf(procs: seq<Event>, id: string): (r: seq<Event>)
    ensures forall e :: e in r <==> e in procs && IsChildOf(e, id)
  {
    Filter((e: Event) => IsChildOf(e, id), procs)
  }

  /** A parent-to-child edge recorded by some process event. */
  ghost predicate Edge(procs: seq<Event>, a: string, b: string) {
    exists e :: e in procs && IsChildOf(e, a) && e.entity == Some(b)
  }

  ghost predicate ReachIn(procs: seq<Event>, a: string, b: string, n: nat)
    decreases n
  {
    if n == 0 then a == b
    else exists m :: ReachIn(procs, a, m, n - 1) && Edge(procs, m, b)
  }

  /** `b` is one or more edges below `a`. */
  ghost predicate Reaches(procs: seq<Event>, a: string, b: string) {
    exists n: nat :: n >= 1 && ReachIn(procs, a, b, n)
  }

  function EntityIds(es: seq<Event>): set<string> {
    set e | e in es && e.entity.Some? :: e.entity.value
  }

  /** The search state: the events appended so far and the entities they belong to. */
  datatype Search = Search(order: seq<Event>, seen: set<string>)

  /** Depth-first search from a list of child events, as a function of the state it starts in. */
  function Visit(procs: seq<Event>, todo: seq<Event>, s: Search): (r: Search)
    requires AreProcessEvents(procs) && forall e | e in todo :: e in procs
    ensures s.seen <= r.seen && s.order <= r.order
    decreases |EntityIds(procs) - s.seen|, |todo|
  {
    if todo == [] then s
    else
      var child := todo[0];
      assert child in procs;
      var id := child.entity.value;
      if id in s.seen then Visit(procs, todo[1..], s)
      else
        SmallerSetOnce(EntityIds(procs), s.seen, id);
        var inner := Visit(procs, ChildrenOf(procs, id), Search(s.order + [child], s.seen + {id}));
        SubsetSize(EntityIds(procs) - inner.seen, EntityIds(procs) - s.seen);
        Visit(procs, todo[1..], inner)
  }

  function Descendants(procs: seq<Event>, root: string): Search
    requires AreProcessEvents(procs)
  {
    Visit(procs, ChildrenOf(procs, root), Search([], {}))
  }

  /** The search visits what it lists, keeps every entity once, and stays inside the recorded edges. */
  ghost predicate IsSearchTree(procs: seq<Event>, root: string, s: Search) {
    && (forall e | e in s.order :: e in procs)
    && EntityIds(s.order) == s.seen
    && (forall i, j | 0 <= i < j < |s.order| :: s.order[i].entity != s.order[j].entity)
    && (forall i | 0 <= i < |s.order| :: HasListedParent(root, s.order, i))
  }

  /** The i-th descendant hangs below the root or below an entity listed before it. */
  ghost predicate HasListedParent(root: string, order: seq<Event>, i: nat)
    requires i < |order|
  {
    Truthy(order[i].parent) && (order[i].parent.value == root || order[i].parent.value in EntityIds(order[..i]))
  }

  lemma TreeGrows(procs: seq<Event>, root: string, s: Search, child: Event)
    requires AreProcessEvents(procs) && IsSearchTree(procs, root, s)
    requires child in procs && child.entity.value !in s.seen
    requires Truthy(child.parent) && (child.parent.value == root || child.parent.value in s.seen)
    ensures IsSearchTree(procs, root, Search(s.order + [child], s.seen + {child.entity.value}))
  {
    var order := s.order + [child];
    assert EntityIds(order) == s.seen + {child.entity.value} by {
      assert forall e | e in s.order :: e in order;
      assert child in order;
    }
    forall i, j | 0 <= i < j < |order| ensures order[i].entity != order[j].entity {
      assert s.order[i] in s.order;
      assert s.order[i].entity.value in EntityIds(s.order);
    }
    forall i | 0 <= i < |order| ensures HasListedParent(root, order, i) {
      if i < |s.order| {
        assert HasListedParent(root, s.order, i);
        assert order[..i] == s.order[..i];
      } else {
        assert order[..i] == s.order;
      }
    }
  }

  lemma {:induction false} VisitIsTree(procs: seq<Event>, root: string, todo: seq<Event>, s: Search)
    requires AreProcessEvents(procs) && IsSearchTree(procs, root, s)
    requires forall e | e in todo ::
        e in procs && Truthy(e.parent) && (e.parent.value == root || e.parent.value in s.seen)
    ensures IsSearchTree(procs, root, Visit(procs, todo, s))
    decreases |EntityIds(procs) - s.seen|, |todo|
  {
    if todo != [] {
      var child := todo[0];
      assert child in procs;
      var id := child.entity.value;
      if id in s.seen {
        VisitIsTree(procs, root, todo[1..], s);
      } else {
        SmallerSetOnce(EntityIds(procs), s.seen, id);
        var deeper := Search(s.order + [child], s.seen + {id});
        TreeGrows(procs, root, s, child);
        VisitIsTree(procs, root, ChildrenOf(procs, id), deeper);
        var inner := Visit(procs, ChildrenOf(procs, id), deeper);
        SubsetSize(EntityIds(procs) - inner.seen, EntityIds(procs) - s.seen);
        VisitIsTree(procs, root, todo[1..], inner);
      }
    }
  }

  /** All children of the entities in `done` are in `seen`. */
  ghost predicate Closed(procs: seq<Event>, done: set<string>, seen: set<string>) {
    forall x, e | x in done && e in procs && IsChildOf(e, x) && e.entity.Some? :: e.entity.value in seen
  }

  lemma {:induction false} VisitCloses(procs: seq<Event>, todo: seq<Event>, s: Search)
    requires AreProcessEvents(procs) && forall e | e in todo :: e in procs
    ensures var r := Visit(procs, todo, s);
      && (forall e | e in todo :: e.entity.value in r.seen)
      && Closed(procs, r.seen - s.seen, r.seen)
    decreases |EntityIds(procs) - s.seen|, |todo|
  {
    if todo != [] {
      var child := todo[0];
      assert child in procs;
      var id := child.entity.value;
      if id in s.seen {
        VisitCloses(procs, todo[1..], s);
      } else {
        SmallerSetOnce(EntityIds(procs), s.seen, id);
        var deeper := Search(s.order + [child], s.seen + {id});
        VisitCloses(procs, ChildrenOf(procs, id), deeper);
        var inner := Visit(procs, ChildrenOf(procs, id), deeper);
        SubsetSize(EntityIds(procs) - inner.seen, EntityIds(procs) - s.seen);
        VisitCloses(procs, todo[1..], inner);
      }
    }
  }

  lemma {:induction false} TreeIsReachable(procs: seq<Event>, root: string, s: Search, i: nat)
    requires IsSearchTree(procs, root, s) && i < |s.order| && s.order[i].entity.Some?
    ensures Reaches(procs, root, s.order[i].entity.value)
    decreases i
  {
    var e := s.order[i];
    assert e in s.order;
    assert HasListedParent(root, s.order, i);
    var p := e.parent.value;
    assert IsChildOf(e, p);
    assert Edge(procs, p, e.entity.value);
    if p == root {
      assert ReachIn(procs, root, root, 0);
      assert ReachIn(procs, root, e.entity.value, 1);
    } else {
      var f :| f in s.order[..i] && f.entity == Some(p);
      var j :| 0 <= j < i && s.order[j] == f;
      TreeIsReachable(procs, root, s, j);
      var n: nat :| n >= 1 && ReachIn(procs, root, p, n);
      assert ReachIn(procs, root, e.entity.value, n + 1);
    }
  }

  lemma {:induction false} ClosedSetHoldsReachable(procs: seq<Event>, root: string, seen: set<string>, x: string,
      n: nat)
    requires Closed(procs, {root} + seen, seen)
    requires n >= 1 && ReachIn(procs, root, x, n)
    ensures x in seen
    decreases n
  {
    var m :| ReachIn(procs, root, m, n - 1) && Edge(procs, m, x);
    if n > 1 {
      ClosedSetHoldsReachable(procs, root, seen, m, n - 1);
    }
  }

  /**
   The search is exact, on cyclic and contradictory links alike: an entity is listed iff it is one or
   more edges below the root, so the root itself is listed iff it lies on a cycle; and each is listed once.
   */
  lemma DescendantsAreExact(procs: seq<Event>, root: string, x: string)
    requires AreProcessEvents(procs)
    ensures IsSearchTree(procs, root, Descendants(procs, root))
    ensures x in Descendants(procs, root).seen <==> Reaches(procs, root, x)
  {
    var s := Descendants(procs, root);
    VisitIsTree(procs, root, ChildrenOf(procs, root), Search([], {}));
    VisitCloses(procs, ChildrenOf(procs, root), Search([], {}));
    if x in s.seen {
      var e :| e in s.order && e.entity == Some(x);
      var i :| 0 <= i < |s.order| && s.order[i] == e;
      TreeIsReachable(procs, root, s, i);
    }
    if Reaches(procs, root, x) {
      var n: nat :| n >= 1 && ReachIn(procs, root, x, n);
      assert s.seen - {} == s.seen;
      ClosedSetHoldsReachable(procs, root, s.seen, x, n);
    }
  }

  lemma {:induction false} FilterConcat(p: Event -> bool, a: seq<Event>, b: seq<Event>)
    ensures Filter(p, a + b) == Filter(p, a) + Filter(p, b)
  {
    if a == [] {
      assert a + b == b;
    } else {
      assert (a + b)[1..] == a[1..] + b;
      FilterConcat(p, a[1..], b);
    }
  }

  ghost predicate ChildTable(procs: seq<Event>, children: map<string, seq<Event>>) {
    forall id :: (if id in children then children[id] else []) == ChildrenOf(procs, id)
  }

  method BuildChildTable(procs: seq<Event>) returns (children: map<string, seq<Event>>)
    ensures ChildTable(procs, children)
  {
    children := map[];
    for n := 0 to |procs|
      invariant ChildTable(procs[..n], children)
    {
      var event := procs[n];
      ghost var before := children;
      if Truthy(event.parent) {
        var id := event.parent.value;
        children := children[id := (if id in children then children[id] else []) + [event]];
      }
      forall id ensures (if id in children then children[id] else []) == ChildrenOf(procs[..n + 1], id) {
        assert procs[..n + 1] == procs[..n] + [event];
        FilterConcat((e: Event) => IsChildOf(e, id), procs[..n], [event]);
        assert (if id in before then before[id] else []) == ChildrenOf(procs[..n], id);
      }
    }
    assert procs[..|procs|] == procs;
  }

  /** What the nested `visit_descendants` closes over: two tables it reads and three lists it grows. */
  class DescendantWalk {
    const procs: seq<Event>
    const index: map<string, Event>
    const children: map<string, seq<Event>>
    var descendants: seq<Event>
    var descendantSeen: set<string>
    var gaps: seq<Gap>

    ghost predicate Valid() {
      AreProcessEvents(procs) && ChildTable(procs, children)
    }

    ghost function State(): Search
      reads this
    {
      Search(descendants, descendantSeen)
    }

    constructor (procs: seq<Event>, index: map<string, Event>, children: map<string, seq<Event>>, gaps: seq<Gap>)
      requires AreProcessEvents(procs) && ChildTable(procs, children)
      ensures Valid() && this.procs == procs && this.index == index
      ensures State() == Search([], {}) && this.gaps == gaps
    {
      this.procs, this.index, this.children, this.gaps := procs, index, children, gaps;
      descendants, descendantSeen := [], {};
    }

    method VisitDescendants(id: string) returns (ghost added: seq<Event>)
      requires Valid()
      modifies this
      ensures State() == Visit(procs, ChildrenOf(procs, id), old(State()))
      ensures descendants == old(descendants) + added && old(descendantSeen) <= descendantSeen
      ensures gaps == AppendGaps(index, old(gaps), added)
      decreases |EntityIds(procs) - descendantSeen|, 1
    {
      var todo := if id in children then children[id] else [];
      assert todo == ChildrenOf(procs, id) && forall e | e in todo :: e in procs;
      added := [];
      ghost var start, gapsBefore := State(), gaps;
      VisitStarts(procs, index, todo, start, gapsBefore);
      for n := 0 to |todo|
        invariant VisitedSoFar(procs, index, todo, n, start, gapsBefore, State(), gaps, added)
      {
        var child := todo[n];
        ghost var here, gapsHere := State(), gaps;
        if Truthy(child.entity) && child.entity.value !in descendantSeen {
          SubsetSize(EntityIds(procs) - descendantSeen, EntityIds(procs) - start.seen);
          ghost var more := VisitUnseen(child);
          VisitReturns(procs, index, todo, n, start, gapsBefore, here, gapsHere, added, State(), gaps, more);
          added := added + [child] + more;
        } else {
          VisitSkips(procs, index, todo, n, start, gapsBefore, here, gapsHere, added);
        }
      }
      assert todo[|todo|..] == [];
    }

    /** The loop body, past its `continue`. */
    method VisitUnseen(child: Event) returns (ghost more: seq<Event>)
      requires Valid() && child in procs && Truthy(child.entity) && child.entity.value !in descendantSeen
      modifies this
      ensures State() == VisitBelow(procs, child, old(State()))
      ensures descendants == old(descendants) + [child] + more && old(descendantSeen) <= descendantSeen
      ensures gaps == AppendGaps(index, AppendGap(index, old(gaps), child), more)
      decreases |EntityIds(procs) - descendantSeen|, 0
    {
      SmallerSetOnce(EntityIds(procs), descendantSeen, child.entity.value);
      descendantSeen := descendantSeen + {child.entity.value};
      descendants := descendants + [child];
      gaps := AppendGap(index, gaps, child);
      more := VisitDescendants(child.entity.value);
    }
  }

  function VisitBelow(procs: seq<Event>, child: Event, s: Search): Search
    requires AreProcessEvents(procs) && child in procs
  {
    Visit(procs, ChildrenOf(procs, child.entity.value), Search(s.order + [child], s.seen + {child.entity.value}))
  }

  /** The loop of the search before its n-th child: what is done, and what the search would still do. */
  ghost predicate VisitedSoFar(procs: seq<Event>, idx: map<string, Event>, todo: seq<Event>, n: nat, start: Search,
      gapsBefore: seq<Gap>, now: Search, gaps: seq<Gap>, added: seq<Event>)
    requires n <= |todo| && AreProcessEvents(procs) && forall e | e in todo :: e in procs
  {
    && now.order == start.order + added && start.seen <= now.seen
    && Visit(procs, todo[n..], now) == Visit(procs, todo, start)
    && gaps == AppendGaps(idx, gapsBefore, added)
  }

  lemma VisitStarts(procs: seq<Event>, idx: map<string, Event>, todo: seq<Event>, start: Search, gaps: seq<Gap>)
    requires AreProcessEvents(procs) && forall e | e in todo :: e in procs
    ensures VisitedSoFar(procs, idx, todo, 0, start, gaps, start, gaps, [])
  {
    assert todo[0..] == todo && start.order + [] == start.order;
  }

  lemma VisitSkips(procs: seq<Event>, idx: map<string, Event>, todo: seq<Event>, n: nat, start: Search,
      gapsBefore: seq<Gap>,
                   now: Search, gaps: seq<Gap>, added: seq<Event>)
    requires n < |todo| && AreProcessEvents(procs) && forall e | e in todo :: e in procs
    requires VisitedSoFar(procs, idx, todo, n, start, gapsBefore, now, gaps, added)
    requires Truthy(todo[n].entity) ==> todo[n].entity.value in now.seen
    ensures VisitedSoFar(procs, idx, todo, n + 1, start, gapsBefore, now, gaps, added)
  {
    VisitNext(procs, todo, n, now);
  }

  lemma VisitReturns(procs: seq<Event>, idx: map<string, Event>, todo: seq<Event>, n: nat, start: Search,
      gapsBefore: seq<Gap>,
      here: Search, gapsHere: seq<Gap>, added: seq<Event>, now: Search, gaps: seq<Gap>, more: seq<Event>)
    requires n < |todo| && AreProcessEvents(procs) && forall e | e in todo :: e in procs
    requires VisitedSoFar(procs, idx, todo, n, start, gapsBefore, here, gapsHere, added)
    requires Truthy(todo[n].entity) && todo[n].entity.value !in here.seen && now == VisitBelow(procs, todo[n], here)
    requires now.order == here.order + [todo[n]] + more && here.seen <= now.seen
    requires gaps == AppendGaps(idx, AppendGap(idx, gapsHere, todo[n]), more)
    ensures VisitedSoFar(procs, idx, todo, n + 1, start, gapsBefore, now, gaps, added + [todo[n]] + more)
  {
    var child := todo[n];
    VisitNext(procs, todo, n, here);
    AppendGapsLast(idx, gapsBefore, added, child);
    AppendGapsConcat(idx, gapsBefore, added + [child], more);
    Assoc(start.order, added, [child]);
    Assoc(start.order, added + [child], more);
  }

  lemma VisitNext(procs: seq<Event>, todo: seq<Event>, n: nat, s: Search)
    requires AreProcessEvents(procs) && forall e | e in todo :: e in procs
    requires n < |todo|
    ensures todo[n] in procs && Truthy(todo[n].entity)
    ensures var id := todo[n].entity.value;
      Visit(procs, todo[n..], s) ==
        Visit(procs, todo[n + 1..],
              if id in s.seen then s else VisitBelow(procs, todo[n], s))
  {
    assert todo[n] in procs;
    assert todo[n..][0] == todo[n] && todo[n..][1..] == todo[n + 1..];
  }

  lemma AppendGapsLast(idx: map<string, Event>, gaps: seq<Gap>, es: seq<Event>, e: Event)
    ensures AppendGaps(idx, gaps, es + [e]) == AppendGap(idx, AppendGaps(idx, gaps, es), e)
  {
    assert (es + [e])[..|es|] == es;
  }

  // ---------- ancestors ----------

  const ParentOf: Event -> Option<string> := (e: Event) => e.parent

  method WalkAncestors(idx: map<string, Event>, target: Event, id: string) returns (ancestors: seq<Event>)
    ensures ancestors == Rows(idx, WalkIds(idx, ParentOf, target.parent, {id}))
  {
    ancestors := [];
    var seen := {id};
    var current := target;
    ghost var ids: seq<string> := [];
    while Truthy(current.parent)
      invariant forall x | x in ids :: x in idx
      invariant ancestors == Rows(idx, ids)
      invariant WalkIds(idx, ParentOf, target.parent, {id}) == ids + WalkIds(idx, ParentOf, current.parent, seen)
      decreases |idx.Keys - seen|
    {
      var parentId := current.parent.value;
      if parentId !in idx || parentId in seen {
        break;
      }
      SmallerSetOnce(idx.Keys, seen, parentId);
      RowsAppend(idx, ids, parentId);
      Assoc(ids, [parentId], WalkIds(idx, ParentOf, idx[parentId].parent, seen + {parentId}));
      ancestors := ancestors + [idx[parentId]];
      ids := ids + [parentId];
      seen := seen + {parentId};
      current := idx[parentId];
    }
  }

  ghost predicate KeyedByEntity(idx: map<string, Event>) {
    forall k | k in idx :: idx[k].entity == Some(k)
  }

  ghost predicate GapsWithin(gaps: seq<Gap>, seen: set<string>) {
    forall g | g in gaps :: g.entity.Some? && g.entity.value in seen
  }

  /** The endpoint's loop so far: what is collected, and what the walk would still collect. */
  ghost predicate ChainSoFar(idx: map<string, Event>, start: string, ids: seq<string>, chain: seq<Event>,
      gaps: seq<Gap>, current: Option<string>, seen: set<string>) {
    && (forall x | x in ids :: x in idx) && chain == Rows(idx, ids)
    && WalkIds(idx, ParentOf, Some(start), {}) == ids + WalkIds(idx, ParentOf, current, seen)
    && gaps == AppendGaps(idx, [], chain) && GapsWithin(gaps, seen)
  }

  lemma ChainStarts(idx: map<string, Event>, start: string)
    ensures ChainSoFar(idx, start, [], [], [], Some(start), {})
  {
    assert [] + WalkIds(idx, ParentOf, Some(start), {}) == WalkIds(idx, ParentOf, Some(start), {});
  }

  lemma ChainEnds(idx: map<string, Event>, start: string, ids: seq<string>, chain: seq<Event>, gaps: seq<Gap>,
      current: Option<string>, seen: set<string>)
    requires ChainSoFar(idx, start, ids, chain, gaps, current, seen)
    requires !(Truthy(current) && current.value !in seen && current.value in idx)
    ensures chain == Rows(idx, WalkIds(idx, ParentOf, Some(start), {})) && gaps == AppendGaps(idx, [], chain)
  {
    assert ids + [] == ids;
  }

  lemma ChainGrows(idx: map<string, Event>, start: string, ids: seq<string>, chain: seq<Event>, gaps: seq<Gap>,
      id: string, seen: set<string>)
    requires KeyedByEntity(idx) && id != "" && id in idx && id !in seen
    requires ChainSoFar(idx, start, ids, chain, gaps, Some(id), seen)
    ensures ChainSoFar(idx, start, ids + [id], chain + [idx[id]],
                       if ReportsGap(idx, idx[id]) then gaps + [GapOf(idx[id])] else gaps,
                       idx[id].parent, seen + {id})
  {
    RowsAppend(idx, ids, id);
    Assoc(ids, [id], WalkIds(idx, ParentOf, idx[id].parent, seen + {id}));
    AppendGapsLast(idx, [], chain, idx[id]);
  }

  /** The loop of the endpoint that the graph supersedes: the same walk, starting at the entity itself. */
  method WalkChain(idx: map<string, Event>, start: string) returns (chain: seq<Event>, gaps: seq<Gap>)
    requires KeyedByEntity(idx)
    ensures chain == Rows(idx, WalkIds(idx, ParentOf, Some(start), {}))
    ensures gaps == AppendGaps(idx, [], chain)
  {
    chain, gaps := [], [];
    var seen: set<string> := {};
    var current := Some(start);
    ghost var ids: seq<string> := [];
    ChainStarts(idx, start);
    while Truthy(current) && current.value !in seen && current.value in idx
      invariant ChainSoFar(idx, start, ids, chain, gaps, current, seen)
      decreases |idx.Keys - seen|
    {
      var id := current.value;
      SmallerSetOnce(idx.Keys, seen, id);
      ChainGrows(idx, start, ids, chain, gaps, id, seen);
      seen := seen + {id};
      var event := idx[id];
      chain := chain + [event];
      ids := ids + [id];
      if Truthy(event.missingReason) && (!Truthy(event.parent) || event.parent.value !in idx) {
        gaps := gaps + [GapOf(event)];
      }
      current := event.parent;
    }
    ChainEnds(idx, start, ids, chain, gaps, current, seen);
  }

  // ---------- the graph ----------

  predicate Touches(ids: set<string>, e: Event) {
    (e.entity.Some? && e.entity.value in ids) || (e.parent.Some? && e.parent.value in ids)
  }

  function Touching(ids: set<string>): Event -> bool {
    (e: Event) => Touches(ids, e)
  }

  ghost predicate HasIndex(events: seq<Event>, idx: map<string, Event>, id: string) {
    IndexOf(ProcessEvents(events), idx) && id in idx
  }

  ghost predicate HasAncestors(idx: map<string, Event>, id: string, g: Graph) {
    && id in idx && g.process == idx[id]
    && g.ancestors == Rows(idx, WalkIds(idx, ParentOf, idx[id].parent, {id}))
  }

  ghost predicate HasDescendants(events: seq<Event>, id: string, g: Graph) {
    AreProcessEvents(ProcessEvents(events)) && g.descendants == Descendants(ProcessEvents(events), id).order
  }

  ghost predicate HasTimeline(events: seq<Event>, id: string, g: Graph) {
    g.timeline == Filter(Touching({id} + EntityIds(g.descendants)), Sort(ByTime, events))
  }

  ghost predicate HasEvidence(g: Graph) {
    g.evidence == Filter((e: Event) => Truthy(e.rawRef), g.timeline)
  }

  ghost predicate HasGaps(idx: map<string, Event>, g: Graph) {
    g.gaps == AppendGaps(idx, [], [g.process] + g.ancestors + g.descendants)
  }

  /** `g` is the graph of entity `id` over `events`, given the representative index `idx`. */
  ghost predicate IsGraphOf(events: seq<Event>, idx: map<string, Event>, id: string, g: Graph) {
    && HasIndex(events, idx, id) && HasAncestors(idx, id, g) && HasDescendants(events, id, g)
    && HasTimeline(events, id, g) && HasEvidence(g) && HasGaps(idx, g)
  }

  method BuildProcessGraph(events: seq<Event>, id: string, host: Option<string>)
    returns (g: Option<Graph>, ghost idx: map<string, Event>)
    ensures g.None? <==> forall e | e in events && e.entity == Some(id) :: e.eventType.OtherType? || id == ""
    ensures g.Some? ==> IsGraphOf(events, idx, id, g.value)
    ensures g.Some? ==> g.value.host == if Truthy(host) then host else g.value.process.host
  {
    SortedMembers(events);
    var ordered := Sort(ByTime, events);
    var procs := Filter((e: Event) => IsProcessEvent(e), ordered);
    var byEntity := BuildIndex(procs);
    idx := byEntity;
    if id !in byEntity {
      return None, idx;
    }
    var target := byEntity[id];
    var ancestors := WalkAncestors(byEntity, target, id);
    AppendGapsLast(byEntity, [], [], target);
    var gaps := AppendAllGaps(byEntity, AppendGap(byEntity, [], target), ancestors);
    AppendGapsConcat(byEntity, [], [target], ancestors);
    var children := BuildChildTable(procs);
    var walk := new DescendantWalk(procs, byEntity, children, gaps);
    ghost var added := walk.VisitDescendants(id);
    AppendGapsConcat(byEntity, [], [target] + ancestors, added);
    var descendants := walk.descendants;
    assert descendants == added;
    var timeline := Filter(Touching({id} + EntityIds(descendants)), ordered);
    var evidence := Filter((e: Event) => Truthy(e.rawRef), timeline);
    g := Some(Graph(if Truthy(host) then host else target.host, target, ancestors, descendants, timeline, evidence,
        walk.gaps));
  }

  lemma SortedMembers(events: seq<Event>)
    ensures forall e :: e in Sort(ByTime, events) <==> e in events
  {
    SortFacts(ByTime, events);
    forall e ensures e in Sort(ByTime, events) <==> e in events {
      assert e in Sort(ByTime, events) <==> e in multiset(Sort(ByTime, events));
      assert e in events <==> e in multiset(events);
    }
  }

  lemma RowsEntities(idx: map<string, Event>, ids: seq<string>, x: string)
    requires KeyedByEntity(idx) && forall k | k in ids :: k in idx
    ensures x in EntityIds(Rows(idx, ids)) <==> x in ids
  {
    var rows := Rows(idx, ids);
    if x in ids {
      var i :| 0 <= i < |ids| && ids[i] == x;
      assert rows[i] in rows && rows[i].entity == Some(x);
    }
    if x in EntityIds(rows) {
      var e :| e in rows && e.entity == Some(x);
      var i :| 0 <= i < |rows| && rows[i] == e;
      assert ids[i] == x;
    }
  }

  /** The index is determined by the events: no entity has two representatives. */
  lemma IndexIsUnique(procs: seq<Event>, a: map<string, Event>, b: map<string, Event>)
    requires IndexOf(procs, a) && IndexOf(procs, b)
    ensures a == b
  {
    forall k ensures (k in a <==> k in b) && (k in a ==> a[k] == b[k]) {
      if k in a {
        var i :| 0 <= i < |procs| && procs[i] == a[k];
        assert procs[i] in procs;
        RepresentativeIsUnique(procs, a[k], b[k]);
      }
    }
  }

  lemma RepresentativeIsUnique(procs: seq<Event>, a: Event, b: Event)
    requires Represents(procs, a) && Represents(procs, b) && a.entity == b.entity
    ensures a == b
  {
  }

  /**
   What a caller may rely on, for every list of events: exact ancestors, exact descendants each listed
   once below a listed parent, exact gaps without repeats, and a timeline whose process events are
   those of the entity and its descendants and no others.
   */
  lemma GraphIsExact(events: seq<Event>, idx: map<string, Event>, id: string, g: Graph, x: string, gap: Gap, e: Event)
    requires IsGraphOf(events, idx, id, g)
    ensures x in EntityIds(g.ancestors) <==> x != id && IsAbove(idx, ParentOf, id, x)
    ensures x in EntityIds(g.descendants) <==> Reaches(ProcessEvents(events), id, x)
    ensures forall i, j | 0 <= i < j < |g.descendants| :: g.descendants[i].entity != g.descendants[j].entity
    ensures forall i | 0 <= i < |g.descendants| :: HasListedParent(id, g.descendants, i)
    ensures Distinct(g.gaps)
    ensures gap in g.gaps <==> exists r ::
        r in [g.process] + g.ancestors + g.descendants && ReportsGap(idx, r) && GapOf(r) == gap
    ensures e in ProcessEvents(events) ==>
      (e in g.timeline <==> e.entity == Some(id) || Reaches(ProcessEvents(events), id, e.entity.value))
  {
    var procs := ProcessEvents(events);
    AncestorsAreExact(idx, ParentOf, id, x);
    RowsEntities(idx, WalkIds(idx, ParentOf, idx[id].parent, {id}), x);
    DescendantsAreExact(procs, id, x);
    GapReportIsExact(idx, [], [g.process] + g.ancestors + g.descendants, gap);
    if e in procs {
      var y := e.entity.value;
      DescendantsAreExact(procs, id, y);
      if e.parent.Some? && e.parent.value in {id} + EntityIds(g.descendants) {
        ChildOfGraphIsInGraph(procs, id, e);
      }
    }
  }

  lemma ChildOfGraphIsInGraph(procs: seq<Event>, root: string, e: Event)
    requires AreProcessEvents(procs) && root != "" && e in procs && e.parent.Some?
    requires e.parent.value == root || e.parent.value in Descendants(procs, root).seen
    ensures Reaches(procs, root, e.entity.value)
  {
    var p := e.parent.value;
    DescendantsAreExact(procs, root, p);
    if p != root {
      var d :| d in Descendants(procs, root).order && d.entity == Some(p);
      assert d in procs;
    }
    assert IsChildOf(e, p);
    assert Edge(procs, p, e.entity.value);
    if p == root {
      assert ReachIn(procs, root, root, 0);
      assert ReachIn(procs, root, e.entity.value, 1);
    } else {
      var n: nat :| n >= 1 && ReachIn(procs, root, p, n);
      assert ReachIn(procs, root, e.entity.value, n + 1);
    }
  }
}
