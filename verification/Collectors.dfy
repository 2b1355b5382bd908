/**
 The two collectors as objects, and the snapshot that drains them. Both keep a bounded queue that a source
 fills, a list of processed events, and the same `DrainEvents`.
 */
module Collectors {
  import opened Options
  import opened Collections
  import EventLogModel
  import opened ProcessIdentity
  import opened TrackerModel
  import opened RetainedParents
  import ProcessTracker

  class EventLogSubscriber {
    const capacity: nat
    var queue: seq<EventLogModel.Record>
    var checkpoints: map<string, int>
    var saved: map<string, int>
    var dropped: nat
    var processed: nat
    var skipped: nat
    var gaps: nat
    var events: seq<EventLogModel.Mark>

    ghost function State(): EventLogModel.Subscriber
      reads this
    {
      EventLogModel.Subscriber(capacity, queue, checkpoints, saved, EventLogModel.Idle, dropped, processed, skipped,
          gaps, events)
    }

    /** A size of zero or less means 1024. The checkpoints come from the file, which may not exist yet. */
    constructor (queueSize: int, file: map<string, int>)
      ensures State() == EventLogModel.Started(if queueSize <= 0 then 1024 else queueSize, file)
    {
      capacity := if queueSize <= 0 then 1024 else queueSize;
      queue, checkpoints, saved, events := [], file, file, [];
      dropped, processed, skipped, gaps := 0, 0, 0, 0;
    }

    method Enqueue(r: EventLogModel.Record) returns (ok: bool)
      modifies this`queue, this`dropped
      ensures State() == EventLogModel.EnqueueStep(old(State()), r)
      ensures ok <==> |old(queue)| < capacity
      ensures queue == (if ok then old(queue) + [r] else old(queue)) && dropped == old(dropped) + if ok then 0 else 1
    {
      if |queue| < capacity {
        queue := queue + [r];
        return true;
      }
      dropped := dropped + 1;
      ok := false;
    }

    /** `saveOk` is whether the checkpoint file can be written. */
    method Observe(r: EventLogModel.Record, saveOk: bool) returns (accepted: bool)
      modifies this`checkpoints, this`saved, this`processed, this`skipped, this`gaps
      ensures var checked := EventLogModel.CheckStep(old(State()), EventLogModel.MarkOf(r));
        && State() == EventLogModel.SaveStep(checked, saveOk).(consumer := EventLogModel.Idle)
        && (accepted <==> EventLogModel.SaveStep(checked, saveOk).consumer.Emitting?)
      ensures accepted <==>
          saveOk && r.recordId > 0 && r.recordId > EventLogModel.Last(old(checkpoints), EventLogModel.Key(r))
      ensures accepted ==> saved == checkpoints == old(checkpoints)[EventLogModel.Key(r) := r.recordId]
    {
      var m := EventLogModel.MarkOf(r);
      if m.id <= 0 {
        return false;
      }
      var last := EventLogModel.Last(checkpoints, m.key);
      if m.id <= last {
        skipped := skipped + 1;
        return false;
      }
      if last > 0 && m.id > last + 1 {
        gaps := gaps + 1;
      }
      checkpoints := checkpoints[m.key := m.id];
      processed := processed + 1;
      if !saveOk {
        return false;
      }
      saved := checkpoints;
      accepted := true;
    }

    /** One turn of the run loop: take a record, observe it, and append the event if it was accepted. */
    method RunOnce(saveOk: bool)
      requires queue != []
      modifies this
      ensures State() == EventLogModel.EmitStep(EventLogModel.SaveStep(EventLogModel.TakeStep(old(State())), saveOk))
      ensures queue == old(queue)[1..]
      ensures events == old(events) || events == old(events) + [EventLogModel.MarkOf(old(queue)[0])]
    {
      var r := queue[0];
      queue := queue[1..];
      var accepted := Observe(r, saveOk);
      if accepted {
        events := events + [EventLogModel.MarkOf(r)];
      }
    }

    method DrainEvents(max: int) returns (out: seq<EventLogModel.Mark>)
      modifies this`events
      ensures State() == EventLogModel.DrainStep(old(State()), max)
      ensures out + events == old(events)
      ensures |out| == if 0 < max <= |old(events)| then max else |old(events)|
    {
      var n := EventLogModel.DrainCount(|events|, max);
      out := events[..n];
      events := events[n..];
    }
  }

  // ---------- the ETW collector ----------

  /** PIDs are 32 bits wide on the wire; 0 means none for the parent. */
  datatype EtwRecord = EtwRecord(
    kind: string, host: string, processId: nat, parentProcessId: nat,
    imagePath: string, imageHash: string, createTime: string, raw: map<string, string>)

  const ETW_STOP := "process_stop"

  /** `strconv.FormatUint(n, 10)` */
  function Decimal(n: nat): (r: string)
    ensures |r| > 0
  {
    if n < 10 then [Digit(n)] else Decimal(n / 10) + [Digit(n % 10)]
  }

  function Digit(d: nat): char
    requires d < 10
  {
    '0' + d as char
  }

  function Value(s: string): int {
    if s == "" then 0 else 10 * Value(s[..|s| - 1]) + (s[|s| - 1] as int - '0' as int)
  }

  /** The text is the number in decimal, without leading zeros. */
  lemma {:induction false} DecimalReads(n: nat)
    ensures Value(Decimal(n)) == n && (forall c | c in Decimal(n) :: '0' <= c <= '9')
    ensures n > 0 ==> Decimal(n)[0] != '0'
  {
    if n >= 10 {
      DecimalReads(n / 10);
      assert (Decimal(n / 10) + [Digit(n % 10)])[..|Decimal(n / 10)|] == Decimal(n / 10);
    } else {
      assert [Digit(n)][..0] == [];
    }
  }

  /** Different PIDs stay different as text, so the tracker never confuses them. */
  lemma DecimalIsInjective(a: nat, b: nat)
    requires Decimal(a) == Decimal(b)
    ensures a == b
  {
    DecimalReads(a);
    DecimalReads(b);
  }

  function RawOf(r: EtwRecord): map<string, string> {
    map["collector" := "windows_etw_process", "platform" := "windows_etw", "kind" := r.kind] + r.raw
  }

  /** `eventFromRecord`, in the fields that identity and parent resolution use. */
  function EventOf(tenant: string, r: EtwRecord): Event {
    Event(tenant, if r.kind == ETW_STOP then ETW_STOP else "process_start", r.host, "",
          Decimal(r.processId), NoId, r.createTime, r.imagePath, r.imageHash,
          if r.parentProcessId != 0 then Decimal(r.parentProcessId) else "", NoId, "", "", RawOf(r))
  }

  /** Every field of the event, read off the record. */
  lemma EventSaysTheRecord(tenant: string, r: EtwRecord)
    ensures var e := EventOf(tenant, r);
      && e.tenant == tenant && e.host == r.host && e.pid == Decimal(r.processId)
      && e.parentPid == (if r.parentProcessId == 0 then "" else Decimal(r.parentProcessId))
      && e.createTime == r.createTime && e.imagePath == r.imagePath && e.imageHash == r.imageHash
      && e.eventType == (if r.kind == "process_stop" then "process_stop" else "process_start")
      && e.entity == NoId && e.parentEntity == NoId && e.bootId == "" && e.confidence == "" && e.missingReason == ""
    ensures forall key | key in r.raw :: key in EventOf(tenant, r).raw && EventOf(tenant, r).raw[key] == r.raw[key]
    ensures forall key | key in EventOf(tenant, r).raw && key !in r.raw :: key in ["collector", "platform", "kind"]
  {
  }

  function OpOf(tenant: string, r: EtwRecord): Op {
    if r.kind == ETW_STOP then ExitOp(EventOf(tenant, r)) else StartOp(EventOf(tenant, r))
  }

  /** An observation as the collectors make it: of an ETW record, or of a snapshot of processes without ids. */
  ghost predicate IsFromCollectors(op: Op, tenant: string) {
    (exists r :: op == OpOf(tenant, r)) || (op.SnapshotOp? && forall e | e in op.events :: e.entity == NoId)
  }

  /** What the collectors feed the tracker never breaks its indexes, however records and snapshots interleave. */
  lemma CollectorsKeepIndexes(at: Endpoint, tenant: string, ops: seq<Op>)
    requires forall op | op in ops :: IsFromCollectors(op, tenant)
    ensures Agree(Run(at, ops))
  {
    forall n | 0 <= n < |ops| ensures BringsOwnId(Run(at, ops[..n]), ops[n]) {
      assert ops[n] in ops;
      assert IsFromCollectors(ops[n], tenant);
    }
    RunAgrees(at, ops);
  }

  /** What every event emitted for a record still says. */
  predicate IsEventOf(e: Event, tenant: string, r: EtwRecord) {
    Keeps(e, EventOf(tenant, r))
  }

  ghost predicate Matches(log: seq<Event>, tenant: string, taken: seq<EtwRecord>) {
    |log| == |taken| && forall i | 0 <= i < |log| :: IsEventOf(log[i], tenant, taken[i])
  }

  lemma MatchesSnoc(log: seq<Event>, tenant: string, taken: seq<EtwRecord>, e: Event, r: EtwRecord)
    requires Matches(log, tenant, taken) && IsEventOf(e, tenant, r)
    ensures Matches(log + [e], tenant, taken + [r])
  {
  }

  function InHand(e: Option<Event>): seq<Event> {
    if e.Some? then [e.value] else []
  }

  /** All drains, then the pending events, then the one in hand, are the events of the records taken. */
  ghost predicate InOrder(drained: seq<Event>, events: seq<Event>, inHand: Option<Event>, tenant: string,
      taken: seq<EtwRecord>) {
    Matches(drained + events + InHand(inHand), tenant, taken)
  }

  lemma TakeInOrder(drained: seq<Event>, events: seq<Event>, tenant: string, taken: seq<EtwRecord>, e: Event,
      r: EtwRecord)
    requires InOrder(drained, events, None, tenant, taken) && IsEventOf(e, tenant, r)
    ensures InOrder(drained, events, Some(e), tenant, taken + [r])
  {
    Plain(drained + events);
    MatchesSnoc(drained + events, tenant, taken, e, r);
  }

  lemma AppendInOrder(drained: seq<Event>, events: seq<Event>, tenant: string, taken: seq<EtwRecord>, e: Event)
    requires InOrder(drained, events, Some(e), tenant, taken)
    ensures InOrder(drained, events + [e], None, tenant, taken)
  {
    Assoc(drained, events, [e]);
    Plain(drained + (events + [e]));
  }

  lemma DrainInOrder(drained: seq<Event>, events: seq<Event>, inHand: Option<Event>, tenant: string,
      taken: seq<EtwRecord>,
      n: nat)
    requires n <= |events| && InOrder(drained, events, inHand, tenant, taken)
    ensures InOrder(drained + events[..n], events[n..], inHand, tenant, taken) && events[..n] + events[n..] == events
  {
    SplitAssoc(drained, events, n);
  }

  /**
   The collector, with the history of its queue and of its events. `inHand` is the event that the run
   goroutine has observed but not yet appended; a drain may come in between.
   */
  class EtwProcessCollector {
    const tenant: string
    const tracker: ProcessTracker.Tracker
    const capacity: nat
    var queue: seq<EtwRecord>
    var inHand: Option<Event>
    var dropped: nat
    var processed: nat
    var events: seq<Event>
    ghost var accepted: seq<EtwRecord>
    ghost var taken: seq<EtwRecord>
    ghost var drained: seq<Event>

    /**
     Conservation and order: the records accepted are those taken followed by those queued, and all drains,
     then the pending events, then the one in hand, are the events of the records taken, one each, in order.
     */
    ghost predicate Valid(now: int)
      reads this, tracker
    {
      && tracker.Valid(now)
      && accepted == taken + queue && |queue| <= capacity && processed == |taken|
      && InOrder(drained, events, inHand, tenant, taken)
    }

    constructor (tenant: string, tracker: ProcessTracker.Tracker, queueSize: int, ghost now: int)
      requires tracker.Valid(now)
      ensures Valid(now) && this.tenant == tenant && this.tracker == tracker
      ensures events == [] && queue == [] && inHand == None && accepted == [] && drained == [] && dropped == 0
      ensures capacity == if queueSize <= 0 then 1024 else queueSize
    {
      this.tenant, this.tracker := tenant, tracker;
      capacity := if queueSize <= 0 then 1024 else queueSize;
      queue, inHand, dropped, processed, events := [], None, 0, 0, [];
      accepted, taken, drained := [], [], [];
    }

    method Enqueue(r: EtwRecord, ghost now: int) returns (ok: bool)
      requires Valid(now)
      modifies this`queue, this`dropped, this`accepted
      ensures Valid(now)
      ensures ok <==> |old(queue)| < capacity
      ensures ok ==> queue == old(queue) + [r] && accepted == old(accepted) + [r] && dropped == old(dropped)
      ensures !ok ==> queue == old(queue) && accepted == old(accepted) && dropped == old(dropped) + 1
    {
      if |queue| < capacity {
        Assoc(taken, queue, [r]);
        queue := queue + [r];
        accepted := accepted + [r];
        return true;
      }
      dropped := dropped + 1;
      ok := false;
    }

    method Observe(r: EtwRecord, now: int) returns (out: Event)
      requires tracker.Valid(now)
      modifies this`processed, tracker
      ensures tracker.Valid(now)
      ensures out == ObservedEvent(tenant, r, old(tracker.Ix()), old(tracker.retained), tracker, now)
      ensures Observes(tracker.at, old(tracker.Contents()), Timed(OpOf(tenant, r), now), tracker.Contents(),
          tracker.retention, tracker.maxExited)
      ensures IsEventOf(out, tenant, r) && processed == old(processed) + 1
      ensures if r.kind == "process_stop" then Decimal(r.processId) !in tracker.activeByPid
              else Decimal(r.processId) in tracker.activeByPid
    {
      var event := EventOf(tenant, r);
      if r.kind == ETW_STOP {
        out := tracker.ObserveProcessExit(event, now);
      } else {
        out := tracker.ObserveProcessStart(event, now);
      }
      processed := processed + 1;
      ObservedIsEventOf(tenant, r, old(tracker.Ix()), old(tracker.retained), tracker, now);
    }

    /** The first half of a turn of the run loop: the oldest queued record is taken and observed. */
    method TakeNext(now: int)
      requires Valid(now) && queue != [] && inHand == None
      modifies this`queue, this`inHand, this`processed, this`taken, tracker
      ensures Valid(now) && accepted == old(accepted)
      ensures queue == old(queue)[1..] && taken == old(taken) + [old(queue)[0]]
      ensures inHand == Some(ObservedEvent(tenant, old(queue)[0], old(tracker.Ix()), old(tracker.retained), tracker,
          now))
    {
      var r := queue[0];
      queue := queue[1..];
      var out := Observe(r, now);
      TakeOne(taken, old(queue));
      TakeInOrder(drained, events, tenant, taken, out, r);
      taken := taken + [r];
      inHand := Some(out);
    }

    /** The second half: the event is appended to the pending ones. */
    method AppendInHand(ghost now: int)
      requires Valid(now) && inHand.Some?
      modifies this`inHand, this`events
      ensures Valid(now) && inHand == None && events == old(events) + [old(inHand).value]
    {
      AppendInOrder(drained, events, tenant, taken, inHand.value);
      events := events + [inHand.value];
      inHand := None;
    }

    method DrainEvents(max: int, ghost now: int) returns (out: seq<Event>)
      requires Valid(now)
      modifies this`events, this`drained
      ensures Valid(now)
      ensures out + events == old(events) && drained == old(drained) + out
      ensures |out| == if 0 < max <= |old(events)| then max else |old(events)|
    {
      var n := EventLogModel.DrainCount(|events|, max);
      out := events[..n];
      DrainInOrder(drained, events, inHand, tenant, taken, n);
      events := events[n..];
      drained := drained + out;
    }
  }

  function ObservedEvent(tenant: string, r: EtwRecord, ix: Indexes, pool: Pool, t: ProcessTracker.Tracker,
      now: int): Event {
    var event := EventOf(tenant, r);
    if r.kind == ETW_STOP then IdentifiedExit(t.at, event, ix.byPid)
    else Resolve(Identified(t.at, event), map[], ix.byPid, pool, now, t.retention, "parent_not_observed_by_tracker")
  }

  lemma ObservedIsEventOf(tenant: string, r: EtwRecord, ix: Indexes, pool: Pool, t: ProcessTracker.Tracker, now: int)
    ensures IsEventOf(ObservedEvent(tenant, r, ix, pool, t, now), tenant, r)
  {
    var event := EventOf(tenant, r);
    EventHasType(tenant, r);
    ExitKeepsFields(t.at, event, ix.byPid);
    StartKeepsFields(t.at, event, ix.byPid, pool, now, t.retention, "parent_not_observed_by_tracker");
  }

  /** `e` is `made` as far as observing it may change it: what was set stays, as does all of `raw`. */
  predicate Keeps(e: Event, made: Event) {
    && e.tenant == made.tenant && e.eventType == made.eventType && e.pid == made.pid && e.parentPid == made.parentPid
    && e.raw == made.raw
    && (made.host != "" ==> e.host == made.host)
    && (made.createTime != "" ==> e.createTime == made.createTime)
    && (made.imagePath != "" ==> e.imagePath == made.imagePath)
    && (made.imageHash != "" ==> e.imageHash == made.imageHash)
  }

  lemma EventHasType(tenant: string, r: EtwRecord)
    ensures EventOf(tenant, r).eventType != ""
  {
  }

  lemma ExitKeepsFields(at: Endpoint, e: Event, active: ByPid)
    requires e.eventType != ""
    ensures Keeps(IdentifiedExit(at, e, active), e)
  {
  }

  lemma StartKeepsFields(at: Endpoint, e: Event, active: ByPid, pool: Pool, now: int, retention: int, reason: string)
    ensures Keeps(Resolve(Identified(at, e), map[], active, pool, now, retention, reason), e)
  {
    IdentifyingKeepsFields(at, e);
    ResolvingKeepsFields(Identified(at, e), map[], active, pool, now, retention, reason);
  }

  lemma IdentifyingKeepsFields(at: Endpoint, e: Event)
    ensures Keeps(Identified(at, e), e)
  {
  }

  lemma ResolvingKeepsFields(e: Event, current: ByPid, active: ByPid, pool: Pool, now: int, retention: int,
      reason: string)
    ensures Keeps(Resolve(e, current, active, pool, now, retention, reason), e)
  {
  }

  lemma TakeOne<T>(taken: seq<T>, queue: seq<T>)
    requires queue != []
    ensures taken + queue == taken + [queue[0]] + queue[1..]
  {
  }

  lemma SplitAssoc<T>(a: seq<T>, b: seq<T>, n: nat)
    requires n <= |b|
    ensures a + b == a + b[..n] + b[n..] && b[..n] + b[n..] == b
  {
    assert b == b[..n] + b[n..];
  }

  // ---------- the telemetry snapshot ----------

  datatype Telemetry =
    EndpointState | Process(event: Event) | EventLog(mark: EventLogModel.Mark) | Sampled(name: string)

  datatype TelemetryOptions = TelemetryOptions(processes: bool, network: bool, eventLogs: bool, etw: bool,
      subscriptions: bool)

  function Processes(s: seq<Event>): (r: seq<Telemetry>)
    ensures |r| == |s| && forall i | 0 <= i < |s| :: r[i] == Process(s[i])
  {
    seq(|s|, i requires 0 <= i < |s| => Process(s[i]))
  }

  function EventLogs(s: seq<EventLogModel.Mark>): (r: seq<Telemetry>)
    ensures |r| == |s| && forall i | 0 <= i < |s| :: r[i] == EventLog(s[i])
  {
    seq(|s|, i requires 0 <= i < |s| => EventLog(s[i]))
  }

  /** How many events a snapshot may hold. */
  function BudgetOf(maxEvents: int): (r: nat)
    ensures r > 0
  {
    if maxEvents <= 0 then 50 else maxEvents
  }

  function Least(a: nat, b: int): int {
    if a < b then a else b
  }

  function Cut(s: seq<Telemetry>, limit: nat): seq<Telemetry> {
    if |s| > limit then s[..limit] else s
  }

  /** A list that fills the budget is not changed by what comes after it. */
  lemma CutPrefix(s: seq<Telemetry>, more: seq<Telemetry>, limit: nat)
    ensures s + [] == s
    ensures |s| >= limit ==> Cut(s + more, limit) == Cut(s, limit) == s[..limit] && (s + more)[..limit] == s[..limit]
  {
  }

  /** The first half of the snapshot: the endpoint event and the two drains, each guarded by the budget left. */
  method DrainInto(limit: nat, opts: TelemetryOptions, etw: EtwProcessCollector, subscriber: EventLogSubscriber,
      ghost now: int)
    returns (out: seq<Telemetry>, ghost fromEtw: seq<Event>, ghost fromLog: seq<EventLogModel.Mark>)
    requires limit > 0 && etw.Valid(now)
    modifies etw`events, etw`drained, subscriber`events
    ensures etw.Valid(now)
    ensures |out| <= limit && out == [EndpointState] + Processes(fromEtw) + EventLogs(fromLog)
    ensures old(etw.events) == fromEtw + etw.events && etw.drained == old(etw.drained) + fromEtw
    ensures old(subscriber.events) == fromLog + subscriber.events
    ensures |fromEtw| == if opts.etw then Least(|old(etw.events)|, limit - 1) else 0
    ensures |fromLog| == if opts.subscriptions then Least(|old(subscriber.events)|, limit - 1 - |fromEtw|) else 0
  {
    fromEtw, fromLog := [], [];
    out := [EndpointState];
    Plain(out);
    Plain(etw.drained);
    if opts.etw && |out| < limit {
      var drained := etw.DrainEvents(limit - |out|, now);
      fromEtw := drained;
      out := out + Processes(drained);
    }
    Plain(out);
    if opts.subscriptions && |out| < limit {
      var drained := subscriber.DrainEvents(limit - |out|);
      fromLog := drained;
      out := out + EventLogs(drained);
    }
  }

  /**
   A snapshot within a budget. What the two drains take out of the collectors heads the result in order and
   is never cut off again, however much the platform collectors (here arguments) return.
   */
  method SnapshotTelemetry(maxEvents: int, opts: TelemetryOptions, etw: EtwProcessCollector,
      subscriber: EventLogSubscriber, processes: seq<Telemetry>, network: seq<Telemetry>, eventLogs: seq<Telemetry>,
      ghost now: int)
    returns (out: seq<Telemetry>, ghost fromEtw: seq<Event>, ghost fromLog: seq<EventLogModel.Mark>)
    requires etw.Valid(now)
    modifies etw`events, etw`drained, subscriber`events
    ensures etw.Valid(now)
    ensures |out| <= BudgetOf(maxEvents)
    ensures out == Cut([EndpointState] + Processes(fromEtw) + EventLogs(fromLog)
                       + (if opts.processes then processes else []) + (if opts.network then network else [])
                       + (if opts.eventLogs then eventLogs else []), BudgetOf(maxEvents))
    ensures [EndpointState] + Processes(fromEtw) + EventLogs(fromLog) <= out
    ensures old(etw.events) == fromEtw + etw.events && etw.drained == old(etw.drained) + fromEtw
    ensures old(subscriber.events) == fromLog + subscriber.events
    ensures |fromEtw| == if opts.etw then Least(|old(etw.events)|, BudgetOf(maxEvents) - 1) else 0
    ensures |fromLog| == if opts.subscriptions then Least(|old(subscriber.events)|,
        BudgetOf(maxEvents) - 1 - |fromEtw|) else 0
  {
    var limit := if maxEvents <= 0 then 50 else maxEvents;
    assert limit == BudgetOf(maxEvents);
    out, fromEtw, fromLog := DrainInto(limit, opts, etw, subscriber, now);
    ghost var head := out;
    ghost var all := head;
    CutPrefix(all, [], limit);
    if opts.processes {
      CutPrefix(all, processes, limit);
      out := out + processes;
      all := all + processes;
    }
    CutPrefix(all, [], limit);
    if opts.network {
      CutPrefix(all, network, limit);
      all := all + network;
    }
    if opts.network && |out| < limit {
      out := out + network;
    }
    CutPrefix(all, [], limit);
    if opts.eventLogs {
      CutPrefix(all, eventLogs, limit);
      all := all + eventLogs;
    }
    if opts.eventLogs && |out| < limit {
      out := out + eventLogs;
    }
    if |out| > limit {
      out := out[..limit];
    }
  }
}
