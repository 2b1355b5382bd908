/**
 Which records the event-log subscriber can lose, over any run: failed saves, crashes at any point, restarts
 from the saved checkpoints, and records offered again.
 */
module EventLogLosses {
  import opened EventLogModel

  // ---------- when a record can still be emitted ----------

  /** While a checkpoint is being saved, the saved one is still below it. */
  ghost predicate SavingIsNew(w: World) {
    w.now.consumer.Saving? ==> Last(w.now.disk, w.now.consumer.mark.key) < w.now.consumer.mark.id
  }

  ghost predicate LossInv(w: World) {
    OnceInv(w) && SavingIsNew(w)
  }

  lemma LastIsBehind(s: Subscriber, key: string)
    requires NeverBehind(s.disk, s.checkpoints) && NeverBehind(s.checkpoints, s.checkpoints)
    ensures Last(s.disk, key) <= Last(s.checkpoints, key)
  {
  }

  lemma StepKeepsNew(w: World, op: Op)
    requires LossInv(w)
    ensures SavingIsNew(StepWorld(w, op))
  {
    match op
    case Take =>
      if w.now.queue != [] {
        LastIsBehind(w.now, MarkOf(w.now.queue[0]).key);
      }
    case Enqueue(_) =>
    case Save(_) =>
    case Emit =>
    case Drain(_) =>
    case Crash =>
  }

  lemma {:induction false} RunKeepsLossInv(capacity: nat, ops: seq<Op>)
    ensures LossInv(Run(capacity, ops))
  {
    EmittedAtMostOnce(capacity, ops);
    if ops != [] {
      RunKeepsLossInv(capacity, ops[..|ops| - 1]);
      StepKeepsNew(Run(capacity, ops[..|ops| - 1]), ops[|ops| - 1]);
    }
  }

  /** The saved checkpoints have passed the mark, and it is not about to be emitted. */
  ghost predicate IsLost(w: World, m: Mark) {
    m !in w.emitted && w.now.consumer != Emitting(m) && m.id <= Last(w.now.disk, m.key)
  }

  lemma StepKeepsLost(w: World, op: Op, m: Mark)
    requires LossInv(w) && IsLost(w, m)
    ensures IsLost(StepWorld(w, op), m)
  {
    SavedNeverDecreases(w, op);
    match op
    case Take =>
    case Save(_) =>
    case Emit =>
    case Enqueue(_) =>
    case Drain(_) =>
    case Crash =>
  }

  lemma {:induction false} LostForGood(capacity: nat, ops: seq<Op>, more: seq<Op>, m: Mark)
    requires IsLost(Run(capacity, ops), m)
    ensures IsLost(Run(capacity, ops + more), m)
  {
    if more == [] {
      assert ops + more == ops;
    } else {
      var n := |more| - 1;
      LostForGood(capacity, ops, more[..n], m);
      RunKeepsLossInv(capacity, ops + more[..n]);
      assert ops + more == ops + more[..n] + [more[n]];
      RunSnoc(capacity, ops + more[..n], more[n]);
      StepKeepsLost(Run(capacity, ops + more[..n]), more[n], m);
    }
  }

  ghost predicate CanBeEmitted(capacity: nat, ops: seq<Op>, m: Mark) {
    exists more :: m in Run(capacity, ops + more).emitted
  }

  /** A record that carries the mark. */
  function RecordOf(m: Mark): Record {
    Record(m.key, "", 0, m.id)
  }

  lemma RecordOfHasMark(m: Mark)
    requires m.key != ""
    ensures MarkOf(RecordOf(m)) == m
  {
    NoProfileFits(m.key, PROFILES);
  }

  lemma {:induction false} NoProfileFits(query: string, profiles: seq<Profile>)
    requires query != "" && forall p | p in profiles :: p.logName != ""
    ensures FindProfile(query, "", profiles).name == query
  {
    if profiles != [] {
      NoProfileFits(query, profiles[1..]);
    }
  }

  lemma EmitNext(capacity: nat, ops: seq<Op>, m: Mark)
    requires Run(capacity, ops).now.consumer == Emitting(m)
    ensures m in Run(capacity, ops + [Emit]).emitted
  {
    RunSnoc(capacity, ops, Emit);
    var w := Run(capacity, ops);
    assert StepWorld(w, Emit).emitted == w.emitted + [m];
    assert (w.emitted + [m])[|w.emitted|] == m;
  }

  /** Restart, offer the record, take it, save its checkpoint, emit. */
  lemma EmitAfterRestart(capacity: nat, ops: seq<Op>, m: Mark) returns (more: seq<Op>)
    requires capacity > 0 && m.key != "" && m.id > Last(Run(capacity, ops).now.disk, m.key) && m.id > 0
    ensures m in Run(capacity, ops + more).emitted
    ensures more == [Crash, Enqueue(RecordOf(m)), Take, Save(true), Emit]
  {
    var r := RecordOf(m);
    RecordOfHasMark(m);
    RunKeepsCapacity(capacity, ops);
    var p1 := ops + [Crash];
    RunSnoc(capacity, ops, Crash);
    var p2 := p1 + [Enqueue(r)];
    RunSnoc(capacity, p1, Enqueue(r));
    assert Run(capacity, p2).now.queue == [r];
    var p3 := p2 + [Take];
    RunSnoc(capacity, p2, Take);
    assert Run(capacity, p3).now.consumer == Saving(m);
    var p4 := p3 + [Save(true)];
    RunSnoc(capacity, p3, Save(true));
    EmitNext(capacity, p4, m);
    more := [Crash, Enqueue(r), Take, Save(true), Emit];
    assert ops + more == p4 + [Emit];
  }

  lemma {:induction false} RunKeepsCapacity(capacity: nat, ops: seq<Op>)
    ensures Run(capacity, ops).now.capacity == capacity
  {
    if ops != [] {
      RunKeepsCapacity(capacity, ops[..|ops| - 1]);
    }
  }

  /**
   After any run, a mark not emitted so far can still be emitted, by some continuation, iff its emission is
   next or the saved checkpoint is below it. Otherwise it is lost for good, whatever is offered again.
   */
  lemma CanBeEmittedIff(capacity: nat, ops: seq<Op>, m: Mark)
    requires capacity > 0 && m.id > 0 && m.key != "" && m !in Run(capacity, ops).emitted
    ensures var w := Run(capacity, ops);
      CanBeEmitted(capacity, ops, m) <==> w.now.consumer == Emitting(m) || m.id > Last(w.now.disk, m.key)
  {
    var w := Run(capacity, ops);
    if w.now.consumer == Emitting(m) {
      EmitNext(capacity, ops, m);
    } else if m.id > Last(w.now.disk, m.key) {
      var more := EmitAfterRestart(capacity, ops, m);
    } else {
      forall more ensures m !in Run(capacity, ops + more).emitted {
        LostForGood(capacity, ops, more, m);
      }
    }
  }

  // ---------- records given up ----------

  /** Some save since the given run has succeeded. */
  ghost predicate SavedSince(capacity: nat, ops: seq<Op>, more: seq<Op>)
    decreases |more|
  {
    more != [] &&
    var n := |more| - 1;
    SavedSince(capacity, ops, more[..n]) || (more[n] == Save(true)
        && Run(capacity, ops + more[..n]).now.consumer.Saving?)
  }

  /** In the lifetime in which it was given up, a mark is behind the checkpoints in memory. */
  ghost predicate IsGivenUp(w: World, m: Mark) {
    && m !in w.emitted && w.now.consumer != Saving(m) && w.now.consumer != Emitting(m)
    && m.id <= Last(w.now.checkpoints, m.key)
  }

  lemma StepKeepsGivenUp(w: World, op: Op, m: Mark)
    requires LossInv(w) && IsGivenUp(w, m) && !op.Crash?
    ensures IsGivenUp(StepWorld(w, op), m)
    ensures StepWorld(w, op).now.disk == if op == Save(true)
        && w.now.consumer.Saving? then w.now.checkpoints else w.now.disk
  {
    match op
    case Take =>
    case Save(_) =>
    case Emit =>
    case Enqueue(_) =>
    case Drain(_) =>
  }

  lemma {:induction false} GivenUpUntilSaved(capacity: nat, ops: seq<Op>, more: seq<Op>, m: Mark)
    requires IsGivenUp(Run(capacity, ops), m) && m.id > Last(Run(capacity, ops).now.disk, m.key)
    requires forall op | op in more :: !op.Crash?
    ensures var w := Run(capacity, ops + more);
      IsGivenUp(w, m) && (m.id > Last(w.now.disk, m.key) <==> !SavedSince(capacity, ops, more))
  {
    if more == [] {
      assert ops + more == ops;
    } else {
      var n := |more| - 1;
      var before := Run(capacity, ops + more[..n]);
      GivenUpUntilSaved(capacity, ops, more[..n], m);
      RunKeepsLossInv(capacity, ops + more[..n]);
      assert ops + more == ops + more[..n] + [more[n]];
      assert more[n] in more;
      RunSnoc(capacity, ops + more[..n], more[n]);
      StepKeepsGivenUp(before, more[n], m);
      SavedNeverDecreases(before, more[n]);
    }
  }

  /**
   A record whose save failed comes back only through a restart before the next save that succeeds, under
   whatever profile: until then it can still be emitted, from then on never.
   */
  lemma GivenUpReturnsIff(capacity: nat, ops: seq<Op>, more: seq<Op>, m: Mark)
    requires capacity > 0 && m.key != "" && Run(capacity, ops).now.consumer == Saving(m)
    requires forall op | op in more :: !op.Crash?
    ensures var given := ops + [Save(false)];
      CanBeEmitted(capacity, given + more, m) <==> !SavedSince(capacity, given, more)
  {
    var given := ops + [Save(false)];
    RunKeepsLossInv(capacity, ops);
    RunSnoc(capacity, ops, Save(false));
    GivenUpUntilSaved(capacity, given, more, m);
    CanBeEmittedIff(capacity, given + more, m);
  }

  // ---------- runs ----------

  /**
   Zero gaps does not mean that everything was emitted: a record whose checkpoint could not be saved is
   given up, in no counted gap, and offering it again in the same lifetime does not bring it back.
   */
  lemma FailedSaveIsSilent(r: Record)
    requires r.recordId == 1
    ensures var w := Run(1, [Enqueue(r), Take, Save(false), Enqueue(r), Take]);
      && w.now.gaps == 0 && w.now.dropped == 0 && w.life == [] && w.emitted == []
      && w.now.skipped == 1 && w.now.queue == []
  {
    var p3 := SaveOne(r, false);
    RunSnoc(1, p3, Enqueue(r));
    RunSnoc(1, p3 + [Enqueue(r)], Take);
    assert p3 + [Enqueue(r)] + [Take] == [Enqueue(r), Take, Save(false), Enqueue(r), Take];
  }

  /** The run that offers a record, takes it and tries to save its checkpoint. */
  lemma SaveOne(r: Record, ok: bool) returns (p3: seq<Op>)
    requires r.recordId == 1
    ensures p3 == [Enqueue(r), Take, Save(ok)]
    ensures var w := Run(1, p3);
      && w.now.queue == [] && w.now.checkpoints == map[Key(r) := 1]
          && w.now.disk == (if ok then map[Key(r) := 1] else map[])
      && w.now.consumer == (if ok then Emitting(MarkOf(r)) else Idle) && w.now.capacity == 1 && w.now.skipped == 0
      && w.now.gaps == 0 && w.now.dropped == 0 && w.life == [] && w.emitted == [] && w.failures == if ok then 0 else 1
  {
    var p0: seq<Op> := [];
    var p1 := p0 + [Enqueue(r)];
    RunSnoc(1, p0, Enqueue(r));
    assert Run(1, p1).now.queue == [r];
    var p2 := p1 + [Take];
    RunSnoc(1, p1, Take);
    assert Run(1, p2).now.consumer == Saving(MarkOf(r)) && Run(1, p2).now.queue == [];
    p3 := p2 + [Save(ok)];
    RunSnoc(1, p2, Save(ok));
  }

  /** A restart right after the failed save brings the record back. */
  lemma RestartBringsGivenUpBack(r: Record)
    requires r.recordId == 1
    ensures Run(1, [Enqueue(r), Take, Save(false), Crash, Enqueue(r), Take, Save(true), Emit]).emitted == [MarkOf(r)]
  {
    var p3 := SaveOne(r, false);
    var p4 := p3 + [Crash];
    RunSnoc(1, p3, Crash);
    var p5 := p4 + [Enqueue(r)];
    RunSnoc(1, p4, Enqueue(r));
    assert Run(1, p5).now.queue == [r];
    var p6 := p5 + [Take];
    RunSnoc(1, p5, Take);
    var p7 := p6 + [Save(true)];
    RunSnoc(1, p6, Save(true));
    RunSnoc(1, p7, Emit);
    assert p7 + [Emit] == [Enqueue(r), Take, Save(false), Crash, Enqueue(r), Take, Save(true), Emit];
  }

  /** A crash between the save and the emission loses the record, without a failed save and without a gap. */
  lemma CrashAfterSaveIsSilent(r: Record)
    requires r.recordId == 1
    ensures var w := Run(1, [Enqueue(r), Take, Save(true), Crash, Enqueue(r), Take]);
      w.emitted == [] && w.now.gaps == 0 && w.failures == 0 && w.now.dropped == 0 && w.now.skipped == 1
  {
    var p3 := SaveOne(r, true);
    var p4 := p3 + [Crash];
    RunSnoc(1, p3, Crash);
    var p5 := p4 + [Enqueue(r)];
    RunSnoc(1, p4, Enqueue(r));
    assert Run(1, p5).now.queue == [r];
    RunSnoc(1, p5, Take);
    assert p5 + [Take] == [Enqueue(r), Take, Save(true), Crash, Enqueue(r), Take];
  }
}
