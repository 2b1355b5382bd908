/**
 Start, Stop and the run goroutine of a collector, interleaved in every possible way. Each locked section
 is one step, as are launching a goroutine, cancelling a context and waking up from a channel. Both
 collectors have this code; contexts, channels and callers are numbered.
 */
module CollectorLifecycle {
  import opened Collections
  import opened Options

  /** Where a caller of Start or Stop is. */
  datatype Pc =
    | Idle
    | Launching(ctx: nat)                                     // Start has unlocked, `go run(ctx)` is next
    | Sourcing(ctx: nat)                                      // Start is opening its event source
    | Failed                                                  // the source failed; Start calls Stop
    | Stopping(cancel: Option<nat>, done: nat, wasRunning: bool)  // Stop has unlocked with these copies
    | Waiting(done: nat)                                      // Stop is blocked on a channel

  /** A `close(done)` and the context of the goroutine that did it. */
  datatype Close = Close(ctx: nat, chan: nat)

  datatype State = State(
    running: bool, started: bool, done: nat, cancel: Option<nat>,
    nextChan: nat, nextCtx: nat, live: set<nat>, cancelled: set<nat>,
    closes: seq<Close>, epochChan: map<nat, nat>, callers: map<nat, Pc>)

  const INITIAL := State(false, false, 0, None, 1, 0, {}, {}, [], map[], map[])

  datatype Op =
    | StartLock(caller: nat)
    | Launch(caller: nat)
    | SourceOpened(caller: nat)
    | SourceFailed(caller: nat)
    | StopLock(caller: nat)
    | StopCancel(caller: nat)
    | StopWake(caller: nat)
    | ParentCancel(ctx: nat)
    | RunExit(ctx: nat)

  function PcOf(s: State, t: nat): Pc {
    if t in s.callers then s.callers[t] else Idle
  }

  predicate IsClosed(s: State, chan: nat) {
    exists c | c in s.closes :: c.chan == chan
  }

  predicate Enabled(s: State, op: Op) {
    match op
    case StartLock(t) => PcOf(s, t).Idle?
    case Launch(t) => PcOf(s, t).Launching?
    case SourceOpened(t) => PcOf(s, t).Sourcing?
    case SourceFailed(t) => PcOf(s, t).Sourcing?
    case StopLock(t) => PcOf(s, t).Idle? || PcOf(s, t).Failed?
    case StopCancel(t) => PcOf(s, t).Stopping?
    case StopWake(t) => PcOf(s, t).Waiting? && IsClosed(s, PcOf(s, t).done)
    case ParentCancel(_) => true
    case RunExit(c) => c in s.live && c in s.cancelled
  }

  function Step(s: State, op: Op): State
    requires Enabled(s, op)
  {
    match op
    case StartLock(t) =>
      if s.running then s
      else
        var chan := if s.started then s.nextChan else s.done;
        s.(running := true, started := true, done := chan, cancel := Some(s.nextCtx),
           nextChan := if s.started then s.nextChan + 1 else s.nextChan, nextCtx := s.nextCtx + 1,
           epochChan := s.epochChan[s.nextCtx := chan], callers := s.callers[t := Launching(s.nextCtx)])
    case Launch(t) =>
      var c := PcOf(s, t).ctx;
      s.(live := s.live + {c}, callers := s.callers[t := Sourcing(c)])
    case SourceOpened(t) => s.(callers := s.callers[t := Idle])
    case SourceFailed(t) => s.(cancelled := s.cancelled + {PcOf(s, t).ctx}, callers := s.callers[t := Failed])
    case StopLock(t) => s.(callers := s.callers[t := Stopping(s.cancel, s.done, s.running)])
    case StopCancel(t) =>
      var p := PcOf(s, t);
      s.(cancelled := if p.cancel.Some? then s.cancelled + {p.cancel.value} else s.cancelled,
         callers := s.callers[t := if p.wasRunning then Waiting(p.done) else Idle])
    case StopWake(t) => s.(callers := s.callers[t := Idle])
    case ParentCancel(c) => s.(cancelled := s.cancelled + {c})
    case RunExit(c) => s.(running := false, closes := s.closes + [Close(c, s.done)], live := s.live - {c})
  }

  ghost predicate Possible(ops: seq<Op>)
    decreases |ops|, 0
  {
    ops == [] || (Possible(ops[..|ops| - 1]) && Enabled(Run(ops[..|ops| - 1]), ops[|ops| - 1]))
  }

  ghost function Run(ops: seq<Op>): State
    requires Possible(ops)
    decreases |ops|, 1
  {
    if ops == [] then INITIAL else Step(Run(ops[..|ops| - 1]), ops[|ops| - 1])
  }

  // ---------- the invariant ----------

  /** The run goroutine of this context is launched or committed to be. */
  ghost predicate Lives(s: State, ctx: nat) {
    ctx in s.live || exists t :: t in s.callers && s.callers[t] == Launching(ctx)
  }

  /** `running` holds iff exactly one run goroutine lives, and then it owns the current channel and cancel. */
  ghost predicate OneRun(s: State) {
    && (s.running ==> s.cancel.Some? && Lives(s, s.cancel.value))
    && (forall c | c in s.live :: s.running && s.cancel == Some(c))
    && (forall t | t in s.callers && s.callers[t].Launching? ::
          s.running && s.cancel == Some(s.callers[t].ctx) && s.callers[t].ctx !in s.live)
    && (forall t, u | t in s.callers && u in s.callers && s.callers[t].Launching? && s.callers[u].Launching? :: t == u)
  }

  /** Every channel belongs to one epoch, and only that epoch's goroutine closes it, once. */
  ghost predicate Channels(s: State) {
    && s.done < s.nextChan && (!s.started ==> s.nextCtx == 0 && s.closes == [])
    && (forall c | c in s.epochChan :: c < s.nextCtx && s.epochChan[c] < s.nextChan)
    && (forall c, d | c in s.epochChan && d in s.epochChan && s.epochChan[c] == s.epochChan[d] :: c == d)
    && (forall i | 0 <= i < |s.closes| ::
        s.closes[i].ctx in s.epochChan && s.epochChan[s.closes[i].ctx] == s.closes[i].chan)
    && (forall i, j | 0 <= i < j < |s.closes| :: s.closes[i].chan != s.closes[j].chan)
    && (s.running ==>
        s.started && s.cancel.Some? && s.cancel.value in s.epochChan
        && s.epochChan[s.cancel.value] == s.done && !IsClosed(s, s.done))
    && (s.started && !s.running ==> IsClosed(s, s.done))
  }

  /** A Stop that saw the collector running holds a channel that is closed or about to be. */
  ghost predicate Waiters(s: State) {
    forall t | t in s.callers ::
      && (s.callers[t].Stopping? && s.callers[t].wasRunning && !IsClosed(s, s.callers[t].done) ==>
            s.running && s.callers[t].done == s.done && s.callers[t].cancel == s.cancel)
      && (s.callers[t].Waiting? && !IsClosed(s, s.callers[t].done) ==>
            s.running && s.callers[t].done == s.done && s.cancel.Some? && s.cancel.value in s.cancelled)
  }

  ghost predicate Inv(s: State) {
    OneRun(s) && Channels(s) && Waiters(s)
  }

  lemma StartKeepsInv(s: State, t: nat)
    requires Inv(s) && Enabled(s, StartLock(t))
    ensures Inv(Step(s, StartLock(t)))
  {
    if !s.running {
      var next := Step(s, StartLock(t));
      assert next.callers[t] == Launching(s.nextCtx);
      assert forall i | 0 <= i < |s.closes| :: s.closes[i].ctx in s.epochChan;
      forall d ensures IsClosed(s, d) <==> IsClosed(next, d) {
      }
    }
  }

  lemma ExitKeepsInv(s: State, c: nat)
    requires Inv(s) && Enabled(s, RunExit(c))
    ensures Inv(Step(s, RunExit(c)))
  {
    var next := Step(s, RunExit(c));
    forall d ensures IsClosed(next, d) <==> IsClosed(s, d) || d == s.done {
      if IsClosed(s, d) {
        var x :| x in s.closes && x.chan == d;
        assert x in next.closes;
      }
      assert Close(c, s.done) in next.closes;
    }
    forall i | 0 <= i < |s.closes| ensures s.closes[i].chan != s.done {
      assert s.closes[i] in s.closes;
    }
  }

  lemma LivesOn(s: State, op: Op, c: nat)
    requires Enabled(s, op) && !op.RunExit? && Lives(s, c)
    requires op.StartLock? ==> s.running
    ensures Lives(Step(s, op), c)
  {
    var next := Step(s, op);
    if c !in s.live {
      var u :| u in s.callers && s.callers[u] == Launching(c);
      if !(op.Launch? && op.caller == u) {
        assert u in next.callers && next.callers[u] == Launching(c);
      }
    }
  }

  /** The steps that touch only callers, contexts and the set of live goroutines. */
  predicate IsQuiet(op: Op) {
    !op.StartLock? && !op.RunExit?
  }

  lemma QuietKeepsOneRun(s: State, op: Op)
    requires OneRun(s) && Enabled(s, op) && IsQuiet(op)
    ensures OneRun(Step(s, op))
  {
    if s.running {
      LivesOn(s, op, s.cancel.value);
    }
  }

  lemma QuietKeepsChannels(s: State, op: Op)
    requires Channels(s) && Enabled(s, op) && IsQuiet(op)
    ensures Channels(Step(s, op))
  {
    var next := Step(s, op);
    assert next.closes == s.closes && next.epochChan == s.epochChan;
    assert IsClosed(next, next.done) <==> IsClosed(s, s.done);
  }

  lemma QuietKeepsWaiters(s: State, op: Op)
    requires Waiters(s) && Channels(s) && Enabled(s, op) && IsQuiet(op)
    ensures Waiters(Step(s, op))
  {
    var next := Step(s, op);
    forall d ensures IsClosed(next, d) <==> IsClosed(s, d) {
      assert next.closes == s.closes;
    }
  }

  lemma StepKeepsInv(s: State, op: Op)
    requires Inv(s) && Enabled(s, op)
    ensures Inv(Step(s, op))
  {
    match op
    case StartLock(t) => StartKeepsInv(s, t);
    case RunExit(c) => ExitKeepsInv(s, c);
    case _ =>
      QuietKeepsOneRun(s, op);
      QuietKeepsChannels(s, op);
      QuietKeepsWaiters(s, op);
  }

  lemma {:induction false} RunKeepsInv(ops: seq<Op>)
    requires Possible(ops)
    ensures Inv(Run(ops))
  {
    if ops != [] {
      RunKeepsInv(ops[..|ops| - 1]);
      StepKeepsInv(Run(ops[..|ops| - 1]), ops[|ops| - 1]);
    }
  }

  // ---------- what it means ----------

  /** A collector is `running` iff a run goroutine lives, and there is never a second one. */
  lemma RunningIffOneRun(ops: seq<Op>, c: nat, d: nat)
    requires Possible(ops)
    ensures var s := Run(ops);
      && (s.running <==> s.cancel.Some? && Lives(s, s.cancel.value))
      && (Lives(s, c) ==> s.running && s.cancel == Some(c))
      && (Lives(s, c) && Lives(s, d) ==> c == d)
  {
    RunKeepsInv(ops);
  }

  /** No channel is closed twice, which in Go would panic, and each is closed by its own epoch's goroutine. */
  lemma ClosedOnceByOwnEpoch(ops: seq<Op>, i: nat, j: nat, c: nat)
    requires Possible(ops) && i < |Run(ops).closes| && j < |Run(ops).closes|
    ensures var s := Run(ops);
      && (s.closes[i].chan == s.closes[j].chan ==> i == j)
      && s.closes[i].ctx in s.epochChan && s.epochChan[s.closes[i].ctx] == s.closes[i].chan
      && (Enabled(s, RunExit(c)) ==> !IsClosed(s, s.done) && c in s.epochChan && s.epochChan[c] == s.done)
  {
    RunKeepsInv(ops);
    var s := Run(ops);
    assert i < j ==> s.closes[i].chan != s.closes[j].chan;
    assert j < i ==> s.closes[j].chan != s.closes[i].chan;
  }

  /** Once the context's goroutine is live, it can exit, and its exit wakes the caller. */
  ghost predicate ExitWakes(s: State, c: nat, t: nat) {
    Enabled(s, RunExit(c)) && Enabled(Step(s, RunExit(c)), StopWake(t))
  }

  ghost predicate IsServed(s: State, t: nat) {
    && s.running && s.cancel.Some?
    && var c := s.cancel.value;
       && Lives(s, c) && c in s.cancelled && c in s.epochChan && PcOf(s, t) == Waiting(s.epochChan[c])
       && (c in s.live ==> ExitWakes(s, c, t))
       && (forall u | u in s.callers && s.callers[u] == Launching(c) :: ExitWakes(Step(s, Launch(u)), c, t))
  }

  /**
   A blocked Stop is never abandoned: the goroutine of its epoch lives with its context cancelled, so that
   goroutine, once launched, can exit, and its exit closes the very channel the Stop waits on.
   */
  lemma BlockedStopIsServed(ops: seq<Op>, t: nat)
    requires Possible(ops) && PcOf(Run(ops), t).Waiting? && !Enabled(Run(ops), StopWake(t))
    ensures IsServed(Run(ops), t)
  {
    RunKeepsInv(ops);
    var s := Run(ops);
    assert t in s.callers;
    var c := s.cancel.value;
    assert Close(c, s.done) in s.closes + [Close(c, s.done)];
  }

  // ---------- a Stop waits ----------

  /** Caller `t` is still in a Stop that found the collector running with this channel. */
  predicate IsStopping(s: State, t: nat, done: nat) {
    var pc := PcOf(s, t);
    (pc.Stopping? && pc.done == done && pc.wasRunning) || (pc.Waiting? && pc.done == done)
  }

  /** The channel is closed, and its goroutine neither runs nor is about to. */
  ghost predicate IsOver(s: State, done: nat, ctx: nat) {
    IsClosed(s, done) && !Lives(s, ctx)
  }

  /** Every prefix of a possible run is possible. */
  lemma {:induction false} PrefixIsPossible(ops: seq<Op>, n: nat)
    requires Possible(ops) && n <= |ops|
    ensures Possible(ops[..n])
    decreases |ops|
  {
    if n < |ops| {
      PrefixIsPossible(ops[..|ops| - 1], n);
      assert ops[..|ops| - 1][..n] == ops[..n];
    } else {
      assert ops[..n] == ops;
    }
  }

  lemma LastStep(longer: seq<Op>, shorter: seq<Op>, op: Op)
    requires longer == shorter + [op] && Possible(longer)
    ensures Possible(shorter) && Enabled(Run(shorter), op) && Run(longer) == Step(Run(shorter), op)
  {
    assert longer[..|longer| - 1] == shorter;
  }

  lemma ClosedIsOver(s: State, done: nat, ctx: nat)
    requires Inv(s) && IsClosed(s, done) && ctx in s.epochChan && s.epochChan[ctx] == done
    ensures IsOver(s, done, ctx)
  {
  }

  lemma StopLockStops(s: State, t: nat)
    requires Inv(s) && Enabled(s, StopLock(t)) && s.running
    ensures IsStopping(Step(s, StopLock(t)), t, s.done)
    ensures s.cancel.Some? && s.cancel.value in s.epochChan && s.epochChan[s.cancel.value] == s.done
  {
  }

  lemma StepKeepsEpoch(s: State, op: Op, ctx: nat)
    requires Inv(s) && Enabled(s, op) && ctx in s.epochChan
    ensures ctx in Step(s, op).epochChan && Step(s, op).epochChan[ctx] == s.epochChan[ctx]
  {
  }

  lemma StepKeepsClosed(s: State, op: Op, done: nat)
    requires Enabled(s, op) && IsClosed(s, done)
    ensures IsClosed(Step(s, op), done)
  {
    var c :| c in s.closes && c.chan == done;
    assert c in Step(s, op).closes;
  }

  lemma StepKeepsStopping(s: State, op: Op, t: nat, done: nat)
    requires Inv(s) && Enabled(s, op) && IsStopping(s, t, done)
    ensures IsStopping(Step(s, op), t, done) || IsClosed(s, done)
  {
  }

  lemma {:induction false} StopIsPendingOrOver(ops: seq<Op>, n: nat, m: nat, t: nat)
    requires Possible(ops) && n < m <= |ops| && ops[n] == StopLock(t) && Possible(ops[..n]) && Possible(ops[..m])
    requires Run(ops[..n]).running
    ensures var s, done := Run(ops[..m]), Run(ops[..n]).done;
      && Run(ops[..n]).cancel.Some? && Run(ops[..n]).cancel.value in s.epochChan
      && s.epochChan[Run(ops[..n]).cancel.value] == done
      && (IsStopping(s, t, done) || IsClosed(s, done))
    decreases m
  {
    var before := Run(ops[..n]);
    RunKeepsInv(ops[..n]);
    if m == n + 1 {
      SplitPrefix(ops, n);
      LastStep(ops[..m], ops[..n], ops[n]);
      StopLockStops(before, t);
      StepKeepsEpoch(before, ops[n], before.cancel.value);
    } else {
      SplitPrefix(ops, m - 1);
      LastStep(ops[..m], ops[..m - 1], ops[m - 1]);
      StopIsPendingOrOver(ops, n, m - 1, t);
      var s := Run(ops[..m - 1]);
      RunKeepsInv(ops[..m - 1]);
      StepKeepsEpoch(s, ops[m - 1], before.cancel.value);
      if IsClosed(s, before.done) {
        StepKeepsClosed(s, ops[m - 1], before.done);
      } else {
        StepKeepsStopping(s, ops[m - 1], t, before.done);
      }
    }
  }

  /**
   Stop is synchronous: if a Stop found the collector running, then at any later position its caller is still
   in it, or the channel it found is closed and the goroutine of that epoch is gone.
   */
  lemma StopWaitsForItsRun(ops: seq<Op>, n: nat, m: nat, t: nat)
    requires Possible(ops) && n < m <= |ops| && ops[n] == StopLock(t) && Possible(ops[..n]) && Possible(ops[..m])
    requires Run(ops[..n]).running
    ensures Run(ops[..n]).cancel.Some?
    ensures var found, s := Run(ops[..n]), Run(ops[..m]);
      IsStopping(s, t, found.done) || IsOver(s, found.done, found.cancel.value)
  {
    StopIsPendingOrOver(ops, n, m, t);
    RunKeepsInv(ops[..m]);
    if IsClosed(Run(ops[..m]), Run(ops[..n]).done) {
      ClosedIsOver(Run(ops[..m]), Run(ops[..n]).done, Run(ops[..n]).cancel.value);
    }
  }

  /** And Start is effective: on a stopped collector it makes a new goroutine run, on a channel nobody has closed. */
  lemma StartRuns(ops: seq<Op>, t: nat)
    requires Possible(ops) && Enabled(Run(ops), StartLock(t)) && !Run(ops).running
    ensures var locked := Step(Run(ops), StartLock(t));
      && locked.running && !IsClosed(locked, locked.done) && Enabled(locked, Launch(t))
      && locked.cancel == Some(Run(ops).nextCtx) && Run(ops).nextCtx in Step(locked, Launch(t)).live
      && (Run(ops).nextCtx !in Run(ops).live)
      && PcOf(Step(locked, Launch(t)), t) == Sourcing(Run(ops).nextCtx)
      && PcOf(Step(Step(locked, Launch(t)), SourceOpened(t)), t) == Idle
  {
    RunKeepsInv(ops);
    StartKeepsInv(Run(ops), t);
  }

  /** A Start on a running collector changes nothing; a Start whose source fails cancels its run and goes on to Stop. */
  lemma StartElsewhere(s: State, t: nat)
    ensures Enabled(s, StartLock(t)) && s.running ==> Step(s, StartLock(t)) == s
    ensures Enabled(s, SourceFailed(t)) ==>
      var failed := Step(s, SourceFailed(t));
      PcOf(s, t).ctx in failed.cancelled && PcOf(failed, t) == Failed && Enabled(failed, StopLock(t))
          && !Enabled(failed, StartLock(t))
  {
  }
}
