/**
 The Windows event-log subscriber on values: a bounded queue, one consumer that checkpoints a record in
 memory, saves the checkpoints and only then emits the event, and a process that may stop at any point in
 between and start again from the saved checkpoints.
 */
module EventLogModel {
  datatype Record = Record(query: string, logName: string, eventId: int, recordId: int)

  datatype Profile = Profile(name: string, logName: string, eventType: string, severity: string, mitre: string)

  const PROFILES := [
    Profile("powershell_operational", "Microsoft-Windows-PowerShell/Operational", "script_result", "medium",
        "T1059.001"),
    Profile("security_auth", "Security", "auth_event", "info", ""),
    Profile("service_control_manager", "System", "endpoint_state", "medium", "T1543.003"),
    Profile("task_scheduler", "Microsoft-Windows-TaskScheduler/Operational", "endpoint_state", "low", "T1053.005")]

  function FirstNonEmpty(values: seq<string>): string {
    if values == [] then "" else if values[0] != "" then values[0] else FirstNonEmpty(values[1..])
  }

  function FindProfile(query: string, logName: string, profiles: seq<Profile>): Profile {
    if profiles == [] then Profile(FirstNonEmpty([query, logName, "unknown"]), logName, "endpoint_state", "info", "")
    else if query == profiles[0].name || logName == profiles[0].logName then profiles[0]
    else FindProfile(query, logName, profiles[1..])
  }

  function EventLogProfile(query: string, logName: string): Profile {
    FindProfile(query, logName, PROFILES)
  }

  function Key(r: Record): string {
    EventLogProfile(r.query, r.logName).name
  }

  /** Every record has a checkpoint key, so the subscriber's error for a record without one never arises. */
  lemma {:induction false} KeyIsNeverEmpty(query: string, logName: string, profiles: seq<Profile>)
    requires forall p | p in profiles :: p.name != ""
    ensures FindProfile(query, logName, profiles).name != ""
  {
    if profiles != [] {
      KeyIsNeverEmpty(query, logName, profiles[1..]);
    } else {
      assert [query, logName, "unknown"][1..] == [logName, "unknown"] && [logName, "unknown"][1..] == ["unknown"];
      assert FirstNonEmpty(["unknown"]) == "unknown" && |"unknown"| == 7;
      assert FirstNonEmpty([logName, "unknown"]) == if logName != "" then logName else "unknown";
    }
  }

  predicate Matches(p: Profile, query: string, logName: string) {
    p.name == query || p.logName == logName
  }

  /** A record goes by the first profile with its query or its log; without one, by its query, its log, or "unknown". */
  lemma {:induction false} ProfileIsFirstMatch(query: string, logName: string, profiles: seq<Profile>, i: nat)
    requires i <= |profiles| && forall j | 0 <= j < i :: !Matches(profiles[j], query, logName)
    ensures i < |profiles| && Matches(profiles[i], query, logName) ==>
        FindProfile(query, logName, profiles) == profiles[i]
    ensures i == |profiles| ==>
      FindProfile(query, logName, profiles).name == (if query != "" then query else if logName != "" then logName
          else "unknown")
  {
    if i > 0 {
      ProfileIsFirstMatch(query, logName, profiles[1..], i - 1);
    } else {
      assert [query, logName, "unknown"][1..] == [logName, "unknown"] && [logName, "unknown"][1..] == ["unknown"];
      assert |"unknown"| == 7 && FirstNonEmpty(["unknown"]) == "unknown";
      assert FirstNonEmpty([logName, "unknown"]) == if logName != "" then logName else "unknown";
    }
  }

  /** So two records of one log that no earlier profile claims share a checkpoint, whatever their queries. */
  lemma OneLogOneKey(a: Record, b: Record, i: nat)
    requires i < |PROFILES| && a.logName == b.logName == PROFILES[i].logName
    requires forall j | 0 <= j < i ::
        !Matches(PROFILES[j], a.query, a.logName) && !Matches(PROFILES[j], b.query, b.logName)
    ensures Key(a) == Key(b) == PROFILES[i].name
  {
    ProfileIsFirstMatch(a.query, a.logName, PROFILES, i);
    ProfileIsFirstMatch(b.query, b.logName, PROFILES, i);
  }

  lemma EveryRecordHasAKey(r: Record)
    ensures Key(r) != ""
  {
    KeyIsNeverEmpty(r.query, r.logName, PROFILES);
  }

  // ---------- checkpoints ----------

  type Checkpoints = map<string, int>

  /** An id observed under a key; also what an emitted event is identified by. */
  datatype Mark = Mark(key: string, id: int)

  /** Go's zero value for a missing key. */
  function Last(c: Checkpoints, key: string): int {
    if key in c then c[key] else 0
  }

  predicate IsJump(last: int, id: int) {
    last > 0 && id > last + 1
  }

  /** Where the consumer is with the record it has taken. */
  datatype Consumer = Idle | Saving(mark: Mark) | Emitting(mark: Mark)

  datatype Subscriber = Subscriber(
    capacity: nat, queue: seq<Record>, checkpoints: Checkpoints, disk: Checkpoints, consumer: Consumer,
    dropped: nat, processed: nat, skipped: nat, gaps: nat, events: seq<Mark>)

  function Started(capacity: nat, disk: Checkpoints): Subscriber {
    Subscriber(capacity, [], disk, disk, Idle, 0, 0, 0, 0, [])
  }

  function EnqueueStep(s: Subscriber, r: Record): Subscriber {
    if |s.queue| < s.capacity then s.(queue := s.queue + [r]) else s.(dropped := s.dropped + 1)
  }

  predicate IsNew(s: Subscriber, m: Mark) {
    m.id > 0 && m.id > Last(s.checkpoints, m.key)
  }

  /** The locked part of `Observe`: compare, count a gap, checkpoint in memory. */
  function CheckStep(s: Subscriber, m: Mark): Subscriber {
    if m.id <= 0 then s
    else if !IsNew(s, m) then s.(skipped := s.skipped + 1)
    else s.(gaps := s.gaps + (if IsJump(Last(s.checkpoints, m.key), m.id) then 1 else 0),
            checkpoints := s.checkpoints[m.key := m.id], processed := s.processed + 1, consumer := Saving(m))
  }

  function MarkOf(r: Record): Mark {
    Mark(Key(r), r.recordId)
  }

  function TakeStep(s: Subscriber): Subscriber {
    if s.queue == [] || s.consumer != Idle then s else CheckStep(s.(queue := s.queue[1..]), MarkOf(s.queue[0]))
  }

  /** Writing the checkpoint file; on an error the record is given up. */
  function SaveStep(s: Subscriber, ok: bool): Subscriber {
    if !s.consumer.Saving? then s
    else if ok then s.(disk := s.checkpoints, consumer := Emitting(s.consumer.mark))
    else s.(consumer := Idle)
  }

  function EmitStep(s: Subscriber): Subscriber {
    if !s.consumer.Emitting? then s else s.(events := s.events + [s.consumer.mark], consumer := Idle)
  }

  /** How many of the pending events a drain returns; a bound of zero or less means all. */
  function DrainCount(have: nat, max: int): nat {
    if max <= 0 || max > have then have else max
  }

  function DrainStep(s: Subscriber, max: int): Subscriber {
    s.(events := s.events[DrainCount(|s.events|, max)..])
  }

  datatype Op = Enqueue(record: Record) | Take | Save(ok: bool) | Emit | Drain(max: int) | Crash

  function Step(s: Subscriber, op: Op): Subscriber {
    match op
    case Enqueue(r) => EnqueueStep(s, r)
    case Take => TakeStep(s)
    case Save(ok) => SaveStep(s, ok)
    case Emit => EmitStep(s)
    case Drain(max) => DrainStep(s, max)
    case Crash => Started(s.capacity, s.disk)
  }

  /** A run, with what has happened over all lifetimes and in the current one. */
  datatype World = World(
    now: Subscriber,
    emitted: seq<Mark>,       // events emitted since the beginning
    loaded: Checkpoints,      // the checkpoints this lifetime started from
    trail: seq<Mark>,         // the marks checkpointed in this lifetime
    life: seq<Mark>,          // the events emitted in this lifetime
    drained: seq<Mark>,       // the events drained in this lifetime
    failures: nat,            // the checkpoint files this lifetime failed to write
    offered: nat,             // the records offered to the queue in this lifetime
    invalid: nat)             // the records taken in this lifetime that had no positive id

  function FirstWorld(capacity: nat): World {
    World(Started(capacity, map[]), [], map[], [], [], [], 0, 0, 0)
  }

  /** The next record to take has no positive id: `Observe` fails, and no counter of the subscriber moves. */
  predicate TakesInvalid(s: Subscriber) {
    s.queue != [] && s.consumer.Idle? && s.queue[0].recordId <= 0
  }

  function StepWorld(w: World, op: Op): World {
    var next := Step(w.now, op);
    match op
    case Enqueue(_) => w.(now := next, offered := w.offered + 1)
    case Take =>
      var more := if w.now.consumer.Idle? && next.consumer.Saving? then [next.consumer.mark] else [];
      w.(now := next, trail := w.trail + more, invalid := w.invalid + if TakesInvalid(w.now) then 1 else 0)
    case Save(ok) =>
      w.(now := next, failures := w.failures + if w.now.consumer.Saving? && !ok then 1 else 0)
    case Emit =>
      var more := if w.now.consumer.Emitting? then [w.now.consumer.mark] else [];
      w.(now := next, emitted := w.emitted + more, life := w.life + more)
    case Drain(max) => w.(now := next, drained := w.drained + w.now.events[..DrainCount(|w.now.events|, max)])
    case Crash => World(next, w.emitted, next.disk, [], [], [], 0, 0, 0)
  }

  function Run(capacity: nat, ops: seq<Op>): World {
    if ops == [] then FirstWorld(capacity) else StepWorld(Run(capacity, ops[..|ops| - 1]), ops[|ops| - 1])
  }

  // ---------- at most once ----------

  ghost predicate Below(es: seq<Mark>, m: Mark) {
    forall e | e in es && e.key == m.key :: e.id < m.id
  }

  ghost predicate Covered(es: seq<Mark>, c: Checkpoints) {
    forall e | e in es :: 0 < e.id <= Last(c, e.key)
  }

  /** Per key, ids come in strictly increasing order; so no mark comes twice. */
  ghost predicate Increasing(es: seq<Mark>) {
    forall i, j | 0 <= i < j < |es| && es[i].key == es[j].key :: es[i].id < es[j].id
  }

  ghost predicate NeverBehind(a: Checkpoints, b: Checkpoints) {
    forall k | k in a :: 0 < a[k] <= Last(b, k)
  }

  ghost predicate OnceInv(w: World) {
    && Covered(w.emitted, w.now.disk) && Increasing(w.emitted)
    && NeverBehind(w.now.disk, w.now.checkpoints) && NeverBehind(w.now.checkpoints, w.now.checkpoints)
    && (w.now.consumer.Saving? ==>
          var m := w.now.consumer.mark; 0 < m.id <= Last(w.now.checkpoints, m.key) && Below(w.emitted, m))
    && (w.now.consumer.Emitting? ==>
          var m := w.now.consumer.mark; 0 < m.id <= Last(w.now.disk, m.key) && Below(w.emitted, m))
  }

  lemma CheckKeepsOnce(w: World, m: Mark)
    requires OnceInv(w) && w.now.consumer.Idle?
    ensures OnceInv(w.(now := CheckStep(w.now, m)))
  {
    if IsNew(w.now, m) {
      forall e | e in w.emitted && e.key == m.key ensures e.id < m.id {
        assert Last(w.now.disk, e.key) <= Last(w.now.checkpoints, e.key);
      }
    }
  }

  lemma TakeKeepsOnce(w: World)
    requires OnceInv(w)
    ensures OnceInv(StepWorld(w, Take))
  {
    if w.now.queue != [] && w.now.consumer.Idle? {
      CheckKeepsOnce(w, MarkOf(w.now.queue[0]));
    }
  }

  lemma SaveKeepsOnce(w: World, ok: bool)
    requires OnceInv(w)
    ensures OnceInv(StepWorld(w, Save(ok)))
  {
    if w.now.consumer.Saving? && ok {
      forall e | e in w.emitted ensures e.id <= Last(w.now.checkpoints, e.key) {
        assert e.id <= Last(w.now.disk, e.key);
      }
    }
  }

  lemma EmitKeepsOnce(w: World)
    requires OnceInv(w)
    ensures OnceInv(StepWorld(w, Emit))
  {
    assert w.emitted + [] == w.emitted;
  }

  lemma StepKeepsOnce(w: World, op: Op)
    requires OnceInv(w)
    ensures OnceInv(StepWorld(w, op))
  {
    match op
    case Take => TakeKeepsOnce(w);
    case Save(ok) => SaveKeepsOnce(w, ok);
    case Emit => EmitKeepsOnce(w);
    case Enqueue(_) =>
    case Drain(_) =>
    case Crash =>
  }

  /** The saved checkpoints never go back. */
  lemma SavedNeverDecreases(w: World, op: Op)
    requires OnceInv(w)
    ensures NeverBehind(w.now.disk, StepWorld(w, op).now.disk)
  {
  }

  /**
   Over any run of enqueues, consumer steps, failed saves, drains, crashes and restarts, every record id of
   a profile is emitted at most once, in increasing order, and never above the saved checkpoint.
   */
  lemma {:induction false} EmittedAtMostOnce(capacity: nat, ops: seq<Op>)
    ensures var w := Run(capacity, ops); OnceInv(w) && Increasing(w.emitted) && Covered(w.emitted, w.now.disk)
  {
    if ops != [] {
      EmittedAtMostOnce(capacity, ops[..|ops| - 1]);
      StepKeepsOnce(Run(capacity, ops[..|ops| - 1]), ops[|ops| - 1]);
    }
  }

  // ---------- no silent skip ----------

  /** The newest id of a key after `trail`, counting from the loaded checkpoints. */
  function LastIn(loaded: Checkpoints, trail: seq<Mark>, key: string): int {
    if trail == [] then Last(loaded, key)
    else
      var m := trail[|trail| - 1];
      if m.key == key then m.id else LastIn(loaded, trail[..|trail| - 1], key)
  }

  /** How many marks of the trail skip at least one id of their key. */
  function Jumps(loaded: Checkpoints, trail: seq<Mark>): nat {
    if trail == [] then 0
    else
      var before, m := trail[..|trail| - 1], trail[|trail| - 1];
      Jumps(loaded, before) + if IsJump(LastIn(loaded, before, m.key), m.id) then 1 else 0
  }

  /** Ids are positive and each is above what the trail had reached under its key. */
  ghost predicate Climbs(loaded: Checkpoints, trail: seq<Mark>) {
    forall p | 0 <= p < |trail| :: ClimbsAt(loaded, trail, p)
  }

  ghost predicate ClimbsAt(loaded: Checkpoints, trail: seq<Mark>, p: nat)
    requires p < |trail|
  {
    trail[p].id > 0 && trail[p].id > LastIn(loaded, trail[..p], trail[p].key)
  }

  /** The checkpoints and the gap counter are those of the trail. */
  ghost predicate TrailInv(s: Subscriber, loaded: Checkpoints, trail: seq<Mark>) {
    && (forall k :: Last(s.checkpoints, k) == LastIn(loaded, trail, k))
    && Climbs(loaded, trail)
    && s.gaps == Jumps(loaded, trail) && s.processed == |trail|
    && (s.consumer != Idle ==> trail != [] && trail[|trail| - 1] == s.consumer.mark)
  }

  function InHand(c: Consumer): seq<Mark> {
    if c.Idle? then [] else [c.mark]
  }

  /** What was checkpointed was emitted, is in hand, or fell to a failed save; drains take from the front. */
  ghost predicate EmitInv(w: World) {
    && w.life == w.drained + w.now.events
    && |w.trail| == |w.life| + w.failures + |InHand(w.now.consumer)|
    && (w.failures == 0 ==> w.trail == w.life + InHand(w.now.consumer))
  }

  ghost predicate LifeInv(w: World) {
    TrailInv(w.now, w.loaded, w.trail) && EmitInv(w)
  }

  lemma TrailGrows(loaded: Checkpoints, trail: seq<Mark>, m: Mark)
    requires Climbs(loaded, trail) && m.id > 0 && m.id > LastIn(loaded, trail, m.key)
    ensures Climbs(loaded, trail + [m])
    ensures Jumps(loaded, trail + [m])
            == Jumps(loaded, trail) + if IsJump(LastIn(loaded, trail, m.key), m.id) then 1 else 0
    ensures forall k :: LastIn(loaded, trail + [m], k) == if k == m.key then m.id else LastIn(loaded, trail, k)
  {
    var longer := trail + [m];
    assert longer[..|trail|] == trail;
    forall p | 0 <= p < |longer| ensures ClimbsAt(loaded, longer, p) {
      if p < |trail| {
        assert ClimbsAt(loaded, trail, p) && longer[..p] == trail[..p];
      }
    }
  }

  lemma DrainKeepsOrder(drained: seq<Mark>, events: seq<Mark>, n: nat)
    requires n <= |events|
    ensures drained + events[..n] + events[n..] == drained + events
  {
    assert events == events[..n] + events[n..];
  }

  lemma CheckKeepsTrail(s: Subscriber, loaded: Checkpoints, trail: seq<Mark>, m: Mark)
    requires TrailInv(s, loaded, trail) && s.consumer.Idle?
    ensures TrailInv(CheckStep(s, m), loaded, if IsNew(s, m) then trail + [m] else trail)
  {
    if IsNew(s, m) {
      TrailGrows(loaded, trail, m);
    }
  }

  ghost predicate TrailOk(w: World) {
    TrailInv(w.now, w.loaded, w.trail)
  }

  lemma TakeKeepsTrail(w: World)
    requires TrailOk(w)
    ensures TrailOk(StepWorld(w, Take))
  {
    assert w.trail + [] == w.trail;
    if w.now.queue != [] && w.now.consumer.Idle? {
      CheckKeepsTrail(w.now.(queue := w.now.queue[1..]), w.loaded, w.trail, MarkOf(w.now.queue[0]));
    }
  }

  lemma StepKeepsTrail(w: World, op: Op)
    requires TrailOk(w)
    ensures TrailOk(StepWorld(w, op))
  {
    match op
    case Take => TakeKeepsTrail(w);
    case Enqueue(_) =>
    case Save(_) =>
    case Emit =>
    case Drain(_) =>
    case Crash =>
  }

  lemma EmitKeepsEmitted(w: World)
    requires EmitInv(w)
    ensures EmitInv(StepWorld(w, Emit))
  {
    assert w.life + [] == w.life;
    if w.now.consumer.Emitting? {
      var m := w.now.consumer.mark;
      assert w.drained + (w.now.events + [m]) == w.drained + w.now.events + [m];
      assert w.life + [m] + [] == w.life + [m];
    }
  }

  lemma StepKeepsEmitted(w: World, op: Op)
    requires EmitInv(w)
    ensures EmitInv(StepWorld(w, op))
  {
    assert w.trail + [] == w.trail && w.life + [] == w.life;
    match op
    case Take =>
    case Enqueue(_) =>
    case Save(_) =>
    case Emit => EmitKeepsEmitted(w);
    case Drain(max) => DrainKeepsOrder(w.drained, w.now.events, DrainCount(|w.now.events|, max));
    case Crash =>
  }

  /**
   In every reachable state the gap counter equals the number of jumps between ids checkpointed in turn
   under a profile, and the events drained followed by the events pending are the events emitted, in order.
   */
  lemma {:induction false} BooksAreExact(capacity: nat, ops: seq<Op>)
    ensures LifeInv(Run(capacity, ops))
  {
    if ops != [] {
      BooksAreExact(capacity, ops[..|ops| - 1]);
      StepKeepsTrail(Run(capacity, ops[..|ops| - 1]), ops[|ops| - 1]);
      StepKeepsEmitted(Run(capacity, ops[..|ops| - 1]), ops[|ops| - 1]);
    }
  }

  ghost predicate OffersOk(w: World) {
    w.offered == w.now.dropped + |w.now.queue| + w.now.skipped + w.now.processed + w.invalid
  }

  lemma StepKeepsOffers(w: World, op: Op)
    requires OffersOk(w)
    ensures OffersOk(StepWorld(w, op))
  {
    match op
    case Enqueue(_) =>
    case Take =>
    case Save(_) =>
    case Emit =>
    case Drain(_) =>
    case Crash =>
  }

  /**
   Every record offered in a lifetime was dropped, is queued, or was skipped, processed or invalid. The last
   is the only fate without a counter of its own.
   */
  lemma {:induction false} OffersAddUp(capacity: nat, ops: seq<Op>)
    ensures OffersOk(Run(capacity, ops))
  {
    if ops != [] {
      OffersAddUp(capacity, ops[..|ops| - 1]);
      StepKeepsOffers(Run(capacity, ops[..|ops| - 1]), ops[|ops| - 1]);
    }
  }

  lemma RunSnoc(capacity: nat, ops: seq<Op>, op: Op)
    ensures Run(capacity, ops + [op]) == StepWorld(Run(capacity, ops), op)
  {
    assert (ops + [op])[..|ops|] == ops;
  }

  /** Between records, everything checkpointed in a lifetime was emitted in it iff no save failed. */
  lemma AllEmittedIffNoFailedSave(capacity: nat, ops: seq<Op>)
    ensures var w := Run(capacity, ops); w.now.consumer.Idle? ==> (w.life == w.trail <==> w.failures == 0)
  {
    BooksAreExact(capacity, ops);
    var w := Run(capacity, ops);
    assert w.life + [] == w.life;
  }

  /** The id was checkpointed in this lifetime or is the one the lifetime started from. */
  ghost predicate Seen(loaded: Checkpoints, trail: seq<Mark>, key: string, id: int) {
    (id > 0 && id == Last(loaded, key)) || Mark(key, id) in trail
  }

  /** The id lies strictly inside a jump that was counted when the trail was made. */
  ghost predicate InCountedGap(loaded: Checkpoints, trail: seq<Mark>, key: string, id: int) {
    exists p :: 0 <= p < |trail| && trail[p].key == key && 0 < LastIn(loaded, trail[..p], key) < id < trail[p].id
  }

  ghost predicate SeenBetween(loaded: Checkpoints, trail: seq<Mark>, key: string, id: int) {
    exists lo, hi :: Seen(loaded, trail, key, lo) && Seen(loaded, trail, key, hi) && lo < id < hi
  }

  lemma {:induction false} SeenIsBounded(loaded: Checkpoints, trail: seq<Mark>, key: string, id: int)
    requires Climbs(loaded, trail) && Seen(loaded, trail, key, id)
    ensures 0 < id <= LastIn(loaded, trail, key)
  {
    if trail != [] {
      var n := |trail| - 1;
      var before := trail[..n];
      ClimbsBefore(loaded, trail);
      assert ClimbsAt(loaded, trail, n);
      assert trail == before + [trail[n]];
      if Seen(loaded, before, key, id) {
        SeenIsBounded(loaded, before, key, id);
      }
    }
  }

  lemma ClimbsBefore(loaded: Checkpoints, trail: seq<Mark>)
    requires trail != [] && Climbs(loaded, trail)
    ensures Climbs(loaded, trail[..|trail| - 1])
  {
    var before := trail[..|trail| - 1];
    forall p | 0 <= p < |before| ensures ClimbsAt(loaded, before, p) {
      assert ClimbsAt(loaded, trail, p) && before[..p] == trail[..p];
    }
  }

  lemma {:induction false} LastInIsSeen(loaded: Checkpoints, trail: seq<Mark>, key: string)
    requires LastIn(loaded, trail, key) > 0
    ensures Seen(loaded, trail, key, LastIn(loaded, trail, key))
  {
    if trail != [] {
      var n := |trail| - 1;
      assert trail == trail[..n] + [trail[n]];
      if trail[n].key != key {
        LastInIsSeen(loaded, trail[..n], key);
      }
    }
  }

  /** An id between two seen ids is itself seen or lies inside a counted gap. */
  lemma {:induction false} SkippedIdsAreCounted(loaded: Checkpoints, trail: seq<Mark>, key: string, id: int)
    requires Climbs(loaded, trail) && SeenBetween(loaded, trail, key, id)
    ensures Seen(loaded, trail, key, id) || InCountedGap(loaded, trail, key, id)
    decreases |trail|
  {
    var lo, hi :| Seen(loaded, trail, key, lo) && Seen(loaded, trail, key, hi) && lo < id < hi;
    if trail != [] {
      var n := |trail| - 1;
      var before := trail[..n];
      ClimbsBefore(loaded, trail);
      assert ClimbsAt(loaded, trail, n);
      SeenSplit(loaded, trail, key, lo);
      SeenSplit(loaded, trail, key, hi);
      if Seen(loaded, before, key, hi) {
        SeenIsBounded(loaded, before, key, hi);
      } else {
        SeenIsBounded(loaded, before, key, lo);
        LastInIsSeen(loaded, before, key);
      }
      if SeenBetween(loaded, before, key, id) {
        SkippedIdsAreCounted(loaded, before, key, id);
      } else {
        JumpOverIsCounted(loaded, trail, key, id);
      }
      GapStays(loaded, trail, key, id);
    }
  }

  lemma SeenSplit(loaded: Checkpoints, trail: seq<Mark>, key: string, id: int)
    requires trail != []
    ensures Seen(loaded, trail, key, id) <==>
        Seen(loaded, trail[..|trail| - 1], key, id) || trail[|trail| - 1] == Mark(key, id)
  {
    assert trail == trail[..|trail| - 1] + [trail[|trail| - 1]];
  }

  lemma JumpOverIsCounted(loaded: Checkpoints, trail: seq<Mark>, key: string, id: int)
    requires trail != []
    ensures var last := trail[|trail| - 1];
      last.key == key && 0 < LastIn(loaded, trail[..|trail| - 1], key) < id < last.id ==>
          InCountedGap(loaded, trail, key, id)
  {
  }

  lemma GapStays(loaded: Checkpoints, trail: seq<Mark>, key: string, id: int)
    requires trail != []
    ensures Seen(loaded, trail[..|trail| - 1], key, id) ==> Seen(loaded, trail, key, id)
    ensures InCountedGap(loaded, trail[..|trail| - 1], key, id) ==> InCountedGap(loaded, trail, key, id)
  {
    var before := trail[..|trail| - 1];
    if InCountedGap(loaded, before, key, id) {
      var p :| 0 <= p < |before| && before[p].key == key && 0 < LastIn(loaded, before[..p], key) < id < before[p].id;
      assert trail[p] == before[p] && trail[..p] == before[..p];
    }
  }

  ghost predicate JumpAt(loaded: Checkpoints, trail: seq<Mark>, p: nat)
    requires p < |trail|
  {
    IsJump(LastIn(loaded, trail[..p], trail[p].key), trail[p].id)
  }

  lemma {:induction false} JumpsArePositions(loaded: Checkpoints, trail: seq<Mark>)
    ensures Jumps(loaded, trail) == 0 <==> forall p | 0 <= p < |trail| :: !JumpAt(loaded, trail, p)
  {
    if trail != [] {
      var n := |trail| - 1;
      var before := trail[..n];
      JumpsArePositions(loaded, before);
      forall p | 0 <= p < n ensures JumpAt(loaded, before, p) <==> JumpAt(loaded, trail, p) {
        assert before[..p] == trail[..p];
      }
      assert JumpAt(loaded, trail, n) <==> IsJump(LastIn(loaded, before, trail[n].key), trail[n].id);
    }
  }

  /**
   No silent skip: the gap counter is zero exactly when, under every profile, every id between two seen
   ids was itself seen, counting from the loaded checkpoint or from the first id when none was loaded.
   */
  lemma ZeroGapsIffContiguous(loaded: Checkpoints, trail: seq<Mark>)
    requires Climbs(loaded, trail)
    ensures Jumps(loaded, trail) == 0 <==> forall key, id :: SeenBetween(loaded, trail, key, id) ==>
        Seen(loaded, trail, key, id)
  {
    JumpsArePositions(loaded, trail);
    if Jumps(loaded, trail) == 0 {
      forall key, id | SeenBetween(loaded, trail, key, id) ensures Seen(loaded, trail, key, id) {
        SkippedIdsAreCounted(loaded, trail, key, id);
        CountedGapIsJump(loaded, trail, key, id);
      }
    } else {
      var p :| 0 <= p < |trail| && JumpAt(loaded, trail, p);
      JumpSkips(loaded, trail, p);
    }
  }

  lemma CountedGapIsJump(loaded: Checkpoints, trail: seq<Mark>, key: string, id: int)
    ensures InCountedGap(loaded, trail, key, id) ==> exists p :: 0 <= p < |trail| && JumpAt(loaded, trail, p)
  {
    if InCountedGap(loaded, trail, key, id) {
      var p :| 0 <= p < |trail| && trail[p].key == key && 0 < LastIn(loaded, trail[..p], key) < id < trail[p].id;
      assert JumpAt(loaded, trail, p);
    }
  }

  lemma JumpSkips(loaded: Checkpoints, trail: seq<Mark>, p: nat)
    requires Climbs(loaded, trail) && p < |trail| && JumpAt(loaded, trail, p)
    ensures var key, id := trail[p].key, LastIn(loaded, trail[..p], trail[p].key) + 1;
      SeenBetween(loaded, trail, key, id) && !Seen(loaded, trail, key, id)
  {
    var key, last := trail[p].key, LastIn(loaded, trail[..p], trail[p].key);
    LastInIsSeen(loaded, trail[..p], key);
    assert Seen(loaded, trail, key, last);
    assert Seen(loaded, trail, key, trail[p].id);
    SkippedStaysUnseen(loaded, trail, p, last + 1, |trail|);
    assert trail[..|trail|] == trail;
  }

  lemma {:induction false} SkippedStaysUnseen(loaded: Checkpoints, trail: seq<Mark>, p: nat, id: int, n: nat)
    requires Climbs(loaded, trail) && p < n <= |trail|
    requires 0 < LastIn(loaded, trail[..p], trail[p].key) < id < trail[p].id
    ensures !Seen(loaded, trail[..n], trail[p].key, id)
    ensures LastIn(loaded, trail[..n], trail[p].key) >= trail[p].id
    decreases n
  {
    var key := trail[p].key;
    assert trail[..n][..n - 1] == trail[..n - 1] && trail[..n] == trail[..n - 1] + [trail[n - 1]];
    assert ClimbsAt(loaded, trail, n - 1);
    if n == p + 1 {
      ClimbsPrefix(loaded, trail, p);
      if Seen(loaded, trail[..p], key, id) {
        SeenIsBounded(loaded, trail[..p], key, id);
      }
    } else {
      SkippedStaysUnseen(loaded, trail, p, id, n - 1);
    }
  }

  /**
   Exactly the ids that were passed over lie inside counted gaps: an id between two seen ids is in one iff it
   was never seen.
   */
  lemma UnseenIffInCountedGap(loaded: Checkpoints, trail: seq<Mark>, key: string, id: int)
    requires Climbs(loaded, trail) && SeenBetween(loaded, trail, key, id)
    ensures !Seen(loaded, trail, key, id) <==> InCountedGap(loaded, trail, key, id)
  {
    SkippedIdsAreCounted(loaded, trail, key, id);
    if InCountedGap(loaded, trail, key, id) {
      var p :| 0 <= p < |trail| && trail[p].key == key && 0 < LastIn(loaded, trail[..p], key) < id < trail[p].id;
      SkippedStaysUnseen(loaded, trail, p, id, |trail|);
      assert trail[..|trail|] == trail;
    }
  }

  lemma ClimbsPrefix(loaded: Checkpoints, trail: seq<Mark>, n: nat)
    requires Climbs(loaded, trail) && n <= |trail|
    ensures Climbs(loaded, trail[..n])
  {
    var before := trail[..n];
    forall p | 0 <= p < |before| ensures ClimbsAt(loaded, before, p) {
      assert ClimbsAt(loaded, trail, p) && before[..p] == trail[..p];
    }
  }
}
