/**
 When the tracker's two indexes stay inverse. Collectors never set an entity id, and then they always do;
 but the tracker's methods are exported and take any event, so this says for which events they do.
 */
module TrackerIndexes {
  import opened ProcessIdentity
  import opened TrackerModel

  /** The record of `p` is the one filed under its entity id. */
  ghost predicate IsFiled(ix: Indexes, p: string)
    requires p in ix.byPid
  {
    ix.byPid[p].entity in ix.byEntity && ix.byEntity[ix.byPid[p].entity] == ix.byPid[p]
  }

  /** Remembering `e` overwrites or deletes what `m[p]` is filed under. */
  predicate TakesId(m: ByPid, e: Event, p: string) {
    e.pid != "" && p in m && (m[p].entity == e.entity || (e.pid in m && m[e.pid].entity == m[p].entity))
  }

  /** No event of `s` after the last event of `p` itself takes the entity id that `p` then has. */
  predicate KeepsId(active: ByPid, s: seq<Event>, p: string) {
    if s == [] then true
    else
      var before, e := s[..|s| - 1], s[|s| - 1];
      (e.pid == p && p != "") || (KeepsId(active, before, p) && !TakesId(active + SnapshotByPid(before), e, p))
  }

  /** No event of `s` takes the id of a process after that process's own last event. */
  ghost predicate AllKeepIds(active: ByPid, s: seq<Event>) {
    forall p | p in active + SnapshotByPid(s) :: KeepsId(active, s, p)
  }

  ghost predicate EntitySideOk(ix: Indexes) {
    && (forall p | p in ix.byPid :: ix.byPid[p].pid == p)
    && (forall e | e in ix.byEntity ::
          && ix.byEntity[e].entity == e && ix.byEntity[e].pid in ix.byPid
          && ix.byPid[ix.byEntity[e].pid] == ix.byEntity[e])
  }

  /** The entity side never breaks: what is filed under an id always is the active record of its PID. */
  lemma RememberKeepsEntitySide(ix: Indexes, e: Event)
    requires EntitySideOk(ix) && (e.pid != "" ==> e.entity != NoId)
    ensures EntitySideOk(AfterStart(ix, e))
  {
  }

  /** What one event does to the filing of the record of another PID. */
  lemma FiledAfterStart(ix: Indexes, e: Event, p: string)
    requires EntitySideOk(ix) && (e.pid != "" ==> e.entity != NoId)
    requires p in AfterStart(ix, e).byPid
    ensures e.pid == p && p != "" ==> IsFiled(AfterStart(ix, e), p)
    ensures !(e.pid == p && p != "") ==>
      p in ix.byPid && (IsFiled(AfterStart(ix, e), p) <==> IsFiled(ix, p) && !TakesId(ix.byPid, e, p))
  {
  }

  lemma {:induction false} FiledAfterAll(ix: Indexes, s: seq<Event>, p: string)
    requires MutuallyInverse(ix) && forall e | e in s && e.pid != "" :: e.entity != NoId
    requires p in AfterAll(ix, s).byPid
    ensures EntitySideOk(AfterAll(ix, s))
    ensures IsFiled(AfterAll(ix, s), p) <==> KeepsId(ix.byPid, s, p)
  {
    if s != [] {
      var before, e := s[..|s| - 1], s[|s| - 1];
      EntitySideAfterAll(ix, before);
      RememberKeepsEntitySide(AfterAll(ix, before), e);
      FiledAfterStart(AfterAll(ix, before), e, p);
      AfterAllIsOverwrite(ix, before);
      if !(e.pid == p && p != "") {
        FiledAfterAll(ix, before, p);
      }
    }
  }

  lemma {:induction false} EntitySideAfterAll(ix: Indexes, s: seq<Event>)
    requires EntitySideOk(ix) && forall e | e in s && e.pid != "" :: e.entity != NoId
    ensures EntitySideOk(AfterAll(ix, s))
  {
    if s != [] {
      EntitySideAfterAll(ix, s[..|s| - 1]);
      RememberKeepsEntitySide(AfterAll(ix, s[..|s| - 1]), s[|s| - 1]);
    }
  }

  /** For any snapshot, repeated PIDs and repeated ids included. */
  lemma SnapshotKeepsInverseIff(ix: Indexes, s: seq<Event>)
    requires MutuallyInverse(ix) && forall e | e in s && e.pid != "" :: e.entity != NoId
    ensures MutuallyInverse(AfterAll(ix, s)) <==> AllKeepIds(ix.byPid, s)
  {
    var after := AfterAll(ix, s);
    EntitySideAfterAll(ix, s);
    AfterAllIsOverwrite(ix, s);
    forall p | p in after.byPid ensures IsFiled(after, p) <==> KeepsId(ix.byPid, s, p) {
      FiledAfterAll(ix, s, p);
    }
    assert MutuallyInverse(after) <==> forall p | p in after.byPid :: IsFiled(after, p);
  }

  lemma IdentifiedAreNamed(at: Endpoint, tenant: string, events: seq<Event>)
    ensures forall e | e in IdentifyAll(at, tenant, events) && e.pid != "" :: e.entity != NoId
  {
    var s := IdentifyAll(at, tenant, events);
    forall e | e in s && e.pid != "" ensures e.entity != NoId {
      var i :| 0 <= i < |s| && s[i] == e;
    }
  }

  /** What a caller can check before an observation. */
  ghost predicate KeepsInverse(at: Endpoint, ix: Indexes, op: Op) {
    match op
    case SnapshotOp(tenant, events) =>
      AllKeepIds(ix.byPid, IdentifyAll(at, tenant, events))
    case StartOp(e) =>
      var id := Identified(at, e).entity;
      e.pid != "" && id in ix.byEntity ==> ix.byEntity[id].pid == e.pid
    case ExitOp(e) =>
      e.pid == "" ||
      if e.pid in ix.byPid then e.entity == NoId || e.entity == ix.byPid[e.pid].entity
      else IdentifiedExit(at, e, ix.byPid).entity !in ix.byEntity
  }

  /** Which observations keep the indexes inverse: exactly those that bring no id belonging elsewhere. */
  lemma StepKeepsInverseIff(at: Endpoint, ix: Indexes, op: Op)
    requires MutuallyInverse(ix) && Named(ix.byPid)
    ensures MutuallyInverse(Step(at, ix, op)) <==> KeepsInverse(at, ix, op)
  {
    match op
    case SnapshotOp(tenant, events) =>
      IdentifiedAreNamed(at, tenant, events);
      SnapshotKeepsInverseIff(ix, IdentifyAll(at, tenant, events));
    case StartOp(e) =>
      if e.pid != "" {
        RememberKeepsInverseIff(ix, ProcessOf(Identified(at, e), 0));
      }
    case ExitOp(e) =>
      if e.pid != "" {
        ForgetKeepsInverseIff(ix, e.pid, IdentifiedExit(at, e, ix.byPid).entity);
      }
  }

  lemma {:induction false} AfterAllIsNamed(ix: Indexes, s: seq<Event>)
    requires Named(ix.byPid) && forall e | e in s && e.pid != "" :: e.entity != NoId
    ensures Named(AfterAll(ix, s).byPid)
  {
    if s != [] {
      AfterAllIsNamed(ix, s[..|s| - 1]);
      NamedStep(AfterAll(ix, s[..|s| - 1]), s[|s| - 1]);
    }
  }

  lemma {:induction false} RunIsNamed(at: Endpoint, ops: seq<Op>)
    ensures Named(Run(at, ops).byPid)
  {
    if ops != [] {
      var ix := Run(at, ops[..|ops| - 1]);
      RunIsNamed(at, ops[..|ops| - 1]);
      match ops[|ops| - 1]
      case SnapshotOp(tenant, events) =>
        IdentifiedAreNamed(at, tenant, events);
        AfterAllIsNamed(ix, IdentifyAll(at, tenant, events));
      case StartOp(e) => NamedStep(ix, Identified(at, e));
      case ExitOp(e) => NamedStep(ix, IdentifiedExit(at, e, ix.byPid));
    }
  }

  ghost predicate InverseAfter(at: Endpoint, ops: seq<Op>, n: nat)
    requires n <= |ops|
  {
    MutuallyInverse(Run(at, ops[..n]))
  }

  ghost predicate KeepsInverseAt(at: Endpoint, ops: seq<Op>, n: nat)
    requires n < |ops|
  {
    KeepsInverse(at, Run(at, ops[..n]), ops[n])
  }

  lemma StepOfRun(at: Endpoint, ops: seq<Op>, n: nat)
    requires n < |ops| && InverseAfter(at, ops, n)
    ensures InverseAfter(at, ops, n + 1) <==> KeepsInverseAt(at, ops, n)
  {
    assert ops[..n + 1][..n] == ops[..n];
    RunIsNamed(at, ops[..n]);
    StepKeepsInverseIff(at, Run(at, ops[..n]), ops[n]);
  }

  lemma {:induction false} InverseUpTo(at: Endpoint, ops: seq<Op>, n: nat)
    requires n <= |ops| && forall k | 0 <= k < |ops| :: KeepsInverseAt(at, ops, k)
    ensures InverseAfter(at, ops, n)
  {
    if n == 0 {
      assert ops[..0] == [];
    } else {
      InverseUpTo(at, ops, n - 1);
      StepOfRun(at, ops, n - 1);
    }
  }

  /**
   Over any run, whatever ids the events bring: the indexes are inverse all along iff every observation
   meets the condition in the state it finds.
   */
  lemma RunKeepsInverseIff(at: Endpoint, ops: seq<Op>)
    ensures (forall n | 0 <= n <= |ops| :: InverseAfter(at, ops, n)) <==>
            (forall n | 0 <= n < |ops| :: KeepsInverseAt(at, ops, n))
  {
    if forall n | 0 <= n < |ops| :: KeepsInverseAt(at, ops, n) {
      forall n | 0 <= n <= |ops| ensures InverseAfter(at, ops, n) {
        InverseUpTo(at, ops, n);
      }
    }
    if forall n | 0 <= n <= |ops| :: InverseAfter(at, ops, n) {
      forall n | 0 <= n < |ops| ensures KeepsInverseAt(at, ops, n) {
        StepOfRun(at, ops, n);
        assert InverseAfter(at, ops, n + 1);
      }
    }
  }

  lemma RunOfTwo(at: Endpoint, first: Op, second: Op)
    ensures Run(at, [first]) == Step(at, Indexes(map[], map[]), first)
    ensures Run(at, [first, second]) == Step(at, Run(at, [first]), second)
  {
    assert [first][..0] == [] && [first, second][..1] == [first];
  }

  /** Two starts under different PIDs that bring the same id. */
  lemma PresetIdsCanBreakTheIndexes(at: Endpoint, first: Event, second: Event)
    requires first.pid == "1" && second.pid == "2" && first.entity == Preset("x") && second.entity == Preset("x")
    ensures MutuallyInverse(Run(at, [StartOp(first)])) && !MutuallyInverse(Run(at, [StartOp(first), StartOp(second)]))
  {
    var none := Indexes(map[], map[]);
    RunOfTwo(at, StartOp(first), StartOp(second));
    StepKeepsInverseIff(at, none, StartOp(first));
    NamedStep(none, Identified(at, first));
    StepKeepsInverseIff(at, Run(at, [StartOp(first)]), StartOp(second));
  }

  /** An exit that brings an id active nowhere leaves the entity index with a process that is gone. */
  lemma ExitIdsCanBreakTheIndexes(at: Endpoint, start: Event, exit: Event)
    requires start.pid == "1" && exit.pid == "1" && start.entity == NoId && exit.entity == Preset("y")
    ensures MutuallyInverse(Run(at, [StartOp(start)])) && !MutuallyInverse(Run(at, [StartOp(start), ExitOp(exit)]))
    ensures Preset("y") !in Run(at, [StartOp(start)]).byEntity
  {
    var none := Indexes(map[], map[]);
    RunOfTwo(at, StartOp(start), ExitOp(exit));
    StepKeepsInverseIff(at, none, StartOp(start));
    NamedStep(none, Identified(at, start));
    StepKeepsInverseIff(at, Run(at, [StartOp(start)]), ExitOp(exit));
  }

  /** With ids that belong elsewhere, the order of a snapshot matters: giving an id up before it is taken is fine. */
  lemma SnapshotOrderCanMatter(ix: Indexes, p: Event, q: Event)
    requires p.pid == "1" && q.pid == "2" && p.entity == Preset("y") && q.entity == Preset("x")
    requires ix == Remember(Indexes(map[], map[]), Tracked("1", Preset("x"), "", "", "", 0))
    ensures MutuallyInverse(AfterAll(ix, [p, q])) && !MutuallyInverse(AfterAll(ix, [q, p]))
  {
    RememberKeepsInverseIff(Indexes(map[], map[]), Tracked("1", Preset("x"), "", "", "", 0));
    AfterTwo(ix, p, q);
    AfterTwo(ix, q, p);
    RememberKeepsInverseIff(ix, ProcessOf(p, 0));
    RememberKeepsInverseIff(AfterStart(ix, p), ProcessOf(q, 0));
    var after := AfterAll(ix, [q, p]);
    assert after.byPid["2"].entity == Preset("x") && Preset("x") !in after.byEntity;
  }

  lemma AfterTwo(ix: Indexes, p: Event, q: Event)
    ensures AfterAll(ix, [p, q]) == AfterStart(AfterStart(ix, p), q)
  {
    AfterAllStep(ix, [], p);
    AfterAllStep(ix, [p], q);
    assert [] + [p] == [p] && [p] + [q] == [p, q];
  }
}
