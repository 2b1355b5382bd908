/**
 The server's task table: queued, claimed, finished, cancelled, timed out and retried tasks, and the
 reports of agents, which may arrive late or twice because the agent spools them. A task's id is its
 position in the table, which is also the order of `created_at`.
 */
module Tasks {
  import opened Options
  import opened Collections

  /** `status` is free text on the wire; `Other` stands for anything the server gives no meaning to. */
  datatype Status = Queued | Claimed | Succeeded | Failed | BlockedByPolicy | Cancelled | TimedOut | Other(text: string)

  type Fields = map<string, string>

  datatype Task = Task(
    tenant: string, agent: string, status: Status, claimedAt: Option<int>, completed: bool, timeout: int,
    result: Option<Fields>, error: Option<string>)

  /** What a task went through: how often it was claimed and retried, and how it was created. */
  datatype Past = Past(claims: nat, retries: nat, born: Task)

  datatype World = World(agents: map<string, string>, tasks: seq<Task>, pasts: seq<Past>)

  datatype Op =
    | Create(tenant: string, agent: string, timeout: int, audit: Fields)
    | CreateBlocked(tenant: string, agent: string, reason: string, verdict: Fields)
    | Claim(tenant: string, agent: string, max: int, now: int)
    | Complete(tenant: string, agent: string, id: nat, status: Status, result: Fields, error: Option<string>)
    | Expire(tenant: string, now: int)
    | Cancel(tenant: string, id: nat)
    | Retry(tenant: string, id: nat)

  // ---------- one task ----------

  predicate IsQueuedFor(t: Task, tenant: string, agent: string) {
    t.tenant == tenant && t.agent == agent && t.status == Queued
  }

  function ClaimedTask(t: Task, now: int): Task {
    t.(status := Claimed, claimedAt := Some(now))
  }

  function FieldsOf(t: Task): Fields {
    if t.result.Some? then t.result.value else map[]
  }

  /** A report sets the status whatever it was; of the result, keys already stored are kept as they are. */
  function Reported(t: Task, status: Status, result: Fields, error: Option<string>): Task {
    t.(status := status, completed := true, result := Some(result + FieldsOf(t)), error := error)
  }

  predicate IsOverdue(t: Task, tenant: string, now: int) {
    t.tenant == tenant && t.status == Claimed && t.claimedAt.Some? && now - t.claimedAt.value >= t.timeout
  }

  function TimedOutTask(t: Task): Task {
    t.(status := TimedOut, completed := true, error := Some("task_claim_timeout"))
  }

  predicate CanCancel(t: Task, tenant: string) {
    t.tenant == tenant && (t.status == Queued || t.status == Claimed)
  }

  function CancelledTask(t: Task): Task {
    t.(status := Cancelled, completed := true, error := Some("cancelled_by_admin"))
  }

  predicate CanRetry(t: Task, tenant: string) {
    t.tenant == tenant && (t.status == Failed || t.status == TimedOut || t.status == Cancelled)
  }

  function RetriedTask(t: Task): Task {
    t.(status := Queued, claimedAt := None, completed := false, result := None, error := None)
  }

  // ---------- the table ----------

  /** The positions of an agent's queued tasks below `n`, oldest first. */
  function QueuedIds(tasks: seq<Task>, tenant: string, agent: string, n: nat): (ids: seq<nat>)
    requires n <= |tasks|
    ensures forall i | i in ids :: i < n && IsQueuedFor(tasks[i], tenant, agent)
  {
    if n == 0 then []
    else QueuedIds(tasks, tenant, agent, n - 1) + if IsQueuedFor(tasks[n - 1], tenant, agent) then [n - 1] else []
  }

  /** SQL's `limit ?`: a negative limit is none. */
  function Limited(ids: seq<nat>, max: int): seq<nat> {
    if max < 0 || max > |ids| then ids else ids[..max]
  }

  function ClaimIds(tasks: seq<Task>, tenant: string, agent: string, max: int): (ids: seq<nat>)
    ensures forall i | i in ids :: i < |tasks| && IsQueuedFor(tasks[i], tenant, agent)
  {
    Limited(QueuedIds(tasks, tenant, agent, |tasks|), max)
  }

  function ClaimAll(tasks: seq<Task>, ids: seq<nat>, now: int): (r: seq<Task>)
    ensures |r| == |tasks|
  {
    seq(|tasks|, i requires 0 <= i < |tasks| => if i in ids then ClaimedTask(tasks[i], now) else tasks[i])
  }

  function ExpireAll(tasks: seq<Task>, tenant: string, now: int): (r: seq<Task>)
    ensures |r| == |tasks|
  {
    seq(|tasks|, i requires 0 <= i < |tasks| => if IsOverdue(tasks[i], tenant, now) then TimedOutTask(tasks[i])
        else tasks[i])
  }

  /** `_ensure_task_agent` */
  predicate KnownAgent(agents: map<string, string>, tenant: string, agent: string) {
    agent in agents && agents[agent] == tenant
  }

  function NewTask(tenant: string, agent: string, timeout: int, audit: Fields): Task {
    Task(tenant, agent, Queued, None, false, timeout, if audit == map[] then None else Some(audit), None)
  }

  function NewBlockedTask(tenant: string, agent: string, reason: string, verdict: Fields): Task {
    Task(tenant, agent, BlockedByPolicy, None, true, 0, Some(verdict), Some(reason))
  }

  predicate IsReportOn(tasks: seq<Task>, tenant: string, agent: string, id: nat) {
    id < |tasks| && tasks[id].tenant == tenant && tasks[id].agent == agent
  }

  function StepTasks(agents: map<string, string>, tasks: seq<Task>, op: Op): seq<Task> {
    match op
    case Create(tenant, agent, timeout, audit) =>
      if KnownAgent(agents, tenant, agent) then tasks + [NewTask(tenant, agent, timeout, audit)] else tasks
    case CreateBlocked(tenant, agent, reason, verdict) =>
      if KnownAgent(agents, tenant, agent) then tasks + [NewBlockedTask(tenant, agent, reason, verdict)] else tasks
    case Claim(tenant, agent, max, now) => ClaimAll(tasks, ClaimIds(tasks, tenant, agent, max), now)
    case Complete(tenant, agent, id, status, result, error) =>
      if IsReportOn(tasks, tenant, agent, id) then tasks[id := Reported(tasks[id], status, result, error)] else tasks
    case Expire(tenant, now) => ExpireAll(tasks, tenant, now)
    case Cancel(tenant, id) =>
      if id < |tasks| && CanCancel(tasks[id], tenant) then tasks[id := CancelledTask(tasks[id])] else tasks
    case Retry(tenant, id) =>
      if id < |tasks| && CanRetry(tasks[id], tenant) then tasks[id := RetriedTask(tasks[id])] else tasks
  }

  /** Does this step claim, or successfully retry, task `i`? */
  predicate Claims(tasks: seq<Task>, op: Op, i: nat) {
    op.Claim? && i in ClaimIds(tasks, op.tenant, op.agent, op.max)
  }

  predicate Retries(tasks: seq<Task>, op: Op, i: nat) {
    op.Retry? && op.id == i && i < |tasks| && CanRetry(tasks[i], op.tenant)
  }

  function Step(w: World, op: Op): World
    requires |w.pasts| == |w.tasks|
  {
    var tasks := StepTasks(w.agents, w.tasks, op);
    var kept := seq(|w.tasks|, i requires 0 <= i < |w.tasks| =>
      w.pasts[i].(claims := w.pasts[i].claims + if Claims(w.tasks, op, i) then 1 else 0,
                  retries := w.pasts[i].retries + if Retries(w.tasks, op, i) then 1 else 0));
    World(w.agents, tasks, if |tasks| > |w.tasks| then kept + [Past(0, 0, tasks[|w.tasks|])] else kept)
  }

  /** The agent reports on tasks it has claimed. */
  predicate ReportsClaimed(w: World, op: Op) {
    op.Complete? ==> op.id < |w.pasts| && w.pasts[op.id].claims > 0
  }

  ghost predicate ClaimedRun(agents: map<string, string>, ops: seq<Op>)
    decreases |ops|, 0
  {
    ops == [] || (ClaimedRun(agents, ops[..|ops| - 1]) && ReportsClaimed(Run(agents, ops[..|ops| - 1]), ops[|ops| - 1]))
  }

  function Run(agents: map<string, string>, ops: seq<Op>): (w: World)
    ensures |w.pasts| == |w.tasks|
    decreases |ops|, 1
  {
    if ops == [] then World(agents, [], [])
    else
      var before := Run(agents, ops[..|ops| - 1]);
      StepSizes(before, ops[|ops| - 1]);
      Step(before, ops[|ops| - 1])
  }

  lemma StepSizes(w: World, op: Op)
    requires |w.pasts| == |w.tasks|
    ensures |Step(w, op).pasts| == |Step(w, op).tasks|
  {
  }

  // ---------- claiming ----------

  lemma {:induction false} QueuedIdsAreComplete(tasks: seq<Task>, tenant: string, agent: string, n: nat, i: nat)
    requires n <= |tasks|
    ensures i in QueuedIds(tasks, tenant, agent, n) <==> i < n && IsQueuedFor(tasks[i], tenant, agent)
    ensures forall a, b | 0 <= a < b < |QueuedIds(tasks, tenant, agent, n)| ::
      QueuedIds(tasks, tenant, agent, n)[a] < QueuedIds(tasks, tenant, agent, n)[b]
  {
    if n > 0 {
      QueuedIdsAreComplete(tasks, tenant, agent, n - 1, i);
      var before := QueuedIds(tasks, tenant, agent, n - 1);
      assert forall a | 0 <= a < |before| :: before[a] in before;
    }
  }

  lemma LimitedKeeps(ids: seq<nat>, max: int, a: nat)
    requires a < |ids|
    ensures ids[a] in Limited(ids, max) || 0 <= max <= a
  {
    if a < max || max < 0 {
      assert Limited(ids, max)[a] == ids[a];
    }
  }

  /** A claim takes the agent's oldest queued tasks: what it leaves behind is newer than all it takes. */
  lemma ClaimTakesOldest(tasks: seq<Task>, tenant: string, agent: string, max: int, i: nat, j: nat)
    requires i < |tasks| && IsQueuedFor(tasks[i], tenant, agent)
    requires i !in ClaimIds(tasks, tenant, agent, max)
    ensures |ClaimIds(tasks, tenant, agent, max)| == max
    ensures j in ClaimIds(tasks, tenant, agent, max) ==> j < i && IsQueuedFor(tasks[j], tenant, agent)
  {
    var all := QueuedIds(tasks, tenant, agent, |tasks|);
    QueuedIdsAreComplete(tasks, tenant, agent, |tasks|, i);
    var a :| 0 <= a < |all| && all[a] == i;
    LimitedKeeps(all, max, a);
    if j in ClaimIds(tasks, tenant, agent, max) {
      var b :| 0 <= b < |all[..max]| && all[..max][b] == j;
      assert all[b] == j && j in all;
    }
  }

  // ---------- what every run keeps ----------

  function SlotsUsed(t: Task, p: Past): nat {
    p.claims + if t.status == Queued then 1 else 0
  }

  /** Each retry buys at most one more claim; a task waiting in the queue already counts. */
  predicate ClaimBound(t: Task, p: Past) {
    SlotsUsed(t, p) <= 1 + p.retries
  }

  ghost predicate AllWithinBound(w: World) {
    |w.pasts| == |w.tasks| && forall i | 0 <= i < |w.tasks| :: ClaimBound(w.tasks[i], w.pasts[i])
  }

  predicate RequeuesByReport(op: Op) {
    op.Complete? && op.status == Queued
  }

  lemma ClaimKeepsBound(w: World, op: Op, i: nat)
    requires AllWithinBound(w) && op.Claim? && i < |w.tasks|
    ensures ClaimBound(Step(w, op).tasks[i], Step(w, op).pasts[i])
  {
    assert ClaimBound(w.tasks[i], w.pasts[i]);
    QueuedIdsAreComplete(w.tasks, op.tenant, op.agent, |w.tasks|, i);
    if i in ClaimIds(w.tasks, op.tenant, op.agent, op.max) {
      assert i in QueuedIds(w.tasks, op.tenant, op.agent, |w.tasks|);
    }
  }

  lemma StepKeepsBound(w: World, op: Op)
    requires AllWithinBound(w) && !RequeuesByReport(op)
    ensures AllWithinBound(Step(w, op))
  {
    var next := Step(w, op);
    StepSizes(w, op);
    forall i | 0 <= i < |next.tasks| ensures ClaimBound(next.tasks[i], next.pasts[i]) {
      if i < |w.tasks| {
        assert ClaimBound(w.tasks[i], w.pasts[i]);
        if op.Claim? {
          ClaimKeepsBound(w, op, i);
        }
      }
    }
  }

  /** For any agents, honest or not, that never report `queued`: claims of a task + [is queued] <= 1 + retries. */
  lemma {:induction false} RunKeepsBound(agents: map<string, string>, ops: seq<Op>)
    requires forall op | op in ops :: !RequeuesByReport(op)
    ensures AllWithinBound(Run(agents, ops))
  {
    if ops != [] {
      var n := |ops| - 1;
      assert ops[n] in ops;
      RunKeepsBound(agents, ops[..n]);
      StepKeepsBound(Run(agents, ops[..n]), ops[n]);
    }
  }

  /** An agent that claims its task and reports it `queued`: one claim, no retry, and the task can be claimed again. */
  lemma QueuedReportBreaksTheBound(tenant: string, agent: string)
    ensures var w := Run(map[agent := tenant], RequeueRun(tenant, agent));
      |w.tasks| == |w.pasts| == 1 && w.tasks[0].status == Queued && w.pasts[0].claims == 1 && w.pasts[0].retries == 0
  {
    var agents := map[agent := tenant];
    var ops := RequeueRun(tenant, agent);
    RunOfCreate(tenant, agent);
    RunSnoc(agents, [ops[0]], ops[1]);
    var w1 := Run(agents, [ops[0]]);
    OnlyTaskIsClaimed(w1, ops[1]);
    var w2 := Step(w1, ops[1]);
    assert w2.tasks == [ClaimedTask(w1.tasks[0], 0)] && w2.pasts[0].claims == 1 && w2.pasts[0].retries == 0;
    RunSnoc(agents, [ops[0], ops[1]], ops[2]);
    assert ops == [ops[0], ops[1]] + [ops[2]];
  }

  function RequeueRun(tenant: string, agent: string): seq<Op> {
    [Create(tenant, agent, 60, map[]), Claim(tenant, agent, 1, 0), Complete(tenant, agent, 0, Queued, map[], None)]
  }

  lemma RunOfCreate(tenant: string, agent: string)
    ensures var w := Run(map[agent := tenant], [Create(tenant, agent, 60, map[])]);
      w == World(map[agent := tenant], [NewTask(tenant, agent, 60, map[])],
          [Past(0, 0, NewTask(tenant, agent, 60, map[]))])
  {
    RunSnoc(map[agent := tenant], [], Create(tenant, agent, 60, map[]));
  }

  lemma RunSnoc(agents: map<string, string>, ops: seq<Op>, op: Op)
    ensures Run(agents, ops + [op]) == Step(Run(agents, ops), op)
    ensures ops == [] ==> ops + [op] == [op]
    ensures |ops| == 1 ==> ops + [op] == [ops[0], op]
  {
    assert (ops + [op])[..|ops|] == ops;
  }

  lemma OnlyTaskIsClaimed(w: World, op: Op)
    requires |w.tasks| == |w.pasts| == 1 && op.Claim? && op.max >= 1 && IsQueuedFor(w.tasks[0], op.tenant, op.agent)
    ensures Claims(w.tasks, op, 0)
  {
    var ids := QueuedIds(w.tasks, op.tenant, op.agent, 1);
    QueuedIdsAreComplete(w.tasks, op.tenant, op.agent, 1, 0);
    assert ids[0] in ids;
    assert Limited(ids, op.max)[0] == 0;
  }

  ghost predicate ReportsWithin(ops: seq<Op>, allowed: set<Status>) {
    forall op | op in ops && op.Complete? :: op.status in allowed
  }

  ghost predicate BoundHolds(allowed: set<Status>) {
    forall agents, ops :: ReportsWithin(ops, allowed) ==> AllWithinBound(Run(agents, ops))
  }

  /**
   The endpoint takes any status. If it took only the statuses in `allowed`, the bound would hold on every
   run, whatever the agents do, exactly when `queued` is not among them.
   */
  lemma BoundHoldsIff(allowed: set<Status>)
    ensures BoundHolds(allowed) <==> Queued !in allowed
  {
    if Queued in allowed {
      QueuedReportBreaksTheBound("t", "a");
      var w := Run(map["a" := "t"], RequeueRun("t", "a"));
      assert ReportsWithin(RequeueRun("t", "a"), allowed);
      assert !ClaimBound(w.tasks[0], w.pasts[0]);
    } else {
      forall agents, ops | ReportsWithin(ops, allowed) ensures AllWithinBound(Run(agents, ops)) {
        assert forall op | op in ops :: !RequeuesByReport(op);
        RunKeepsBound(agents, ops);
      }
    }
  }

  /** A task blocked at creation is as it was, and was never claimed or retried. */
  ghost predicate BlockedOk(t: Task, p: Past) {
    p.born.status == BlockedByPolicy ==> t == p.born && p.claims == 0 && p.retries == 0
  }

  ghost predicate AllBlockedOk(w: World) {
    |w.pasts| == |w.tasks| && forall i | 0 <= i < |w.tasks| :: BlockedOk(w.tasks[i], w.pasts[i])
  }

  lemma ClaimKeepsBlocked(w: World, op: Op, i: nat)
    requires AllBlockedOk(w) && op.Claim? && i < |w.tasks|
    ensures BlockedOk(Step(w, op).tasks[i], Step(w, op).pasts[i])
  {
    assert BlockedOk(w.tasks[i], w.pasts[i]);
    if i in ClaimIds(w.tasks, op.tenant, op.agent, op.max) {
      assert IsQueuedFor(w.tasks[i], op.tenant, op.agent);
    }
  }

  lemma StepKeepsBlocked(w: World, op: Op)
    requires AllBlockedOk(w) && ReportsClaimed(w, op)
    ensures AllBlockedOk(Step(w, op))
  {
    var next := Step(w, op);
    StepSizes(w, op);
    forall i | 0 <= i < |next.tasks| ensures BlockedOk(next.tasks[i], next.pasts[i]) {
      if i < |w.tasks| {
        assert BlockedOk(w.tasks[i], w.pasts[i]);
        if op.Claim? {
          ClaimKeepsBlocked(w, op, i);
        }
      }
    }
  }

  /**
   With agents that report only on tasks they have claimed, with any status, however late or often: a task
   blocked at creation never changes.
   */
  lemma {:induction false} RunKeepsBlocked(agents: map<string, string>, ops: seq<Op>)
    requires ClaimedRun(agents, ops)
    ensures AllBlockedOk(Run(agents, ops))
  {
    if ops != [] {
      RunKeepsBlocked(agents, ops[..|ops| - 1]);
      StepKeepsBlocked(Run(agents, ops[..|ops| - 1]), ops[|ops| - 1]);
    }
  }

  ghost predicate Extends(later: Fields, earlier: Fields) {
    forall k | k in earlier :: k in later && later[k] == earlier[k]
  }

  /** Any run from a given state; no honesty needed. */
  function TasksAfter(agents: map<string, string>, tasks: seq<Task>, ops: seq<Op>): seq<Task> {
    if ops == [] then tasks else StepTasks(agents, TasksAfter(agents, tasks, ops[..|ops| - 1]), ops[|ops| - 1])
  }

  ghost predicate NeverRetried(agents: map<string, string>, tasks: seq<Task>, ops: seq<Op>, i: nat) {
    ops == [] ||
    (NeverRetried(agents, tasks, ops[..|ops| - 1], i)
        && !Retries(TasksAfter(agents, tasks, ops[..|ops| - 1]), ops[|ops| - 1], i))
  }

  /** Until a task is retried, no key of its stored result is ever changed or removed, by any report. */
  lemma {:induction false} ResultsOnlyGrow(agents: map<string, string>, tasks: seq<Task>, ops: seq<Op>, i: nat)
    requires i < |tasks| && NeverRetried(agents, tasks, ops, i)
    ensures i < |TasksAfter(agents, tasks, ops)|
    ensures Extends(FieldsOf(TasksAfter(agents, tasks, ops)[i]), FieldsOf(tasks[i]))
  {
    if ops != [] {
      ResultsOnlyGrow(agents, tasks, ops[..|ops| - 1], i);
    }
  }

  predicate IsFinished(t: Task) {
    t.status != Queued && t.status != Claimed
  }

  predicate ReportsOn(tasks: seq<Task>, op: Op, i: nat) {
    op.Complete? && op.id == i && IsReportOn(tasks, op.tenant, op.agent, i)
  }

  /** What can move a finished task, exactly: a retry, or a report, which may come after a cancel or a timeout. */
  lemma FinishedMovesIff(agents: map<string, string>, tasks: seq<Task>, op: Op, i: nat)
    requires i < |tasks| && IsFinished(tasks[i])
    ensures i < |StepTasks(agents, tasks, op)|
    ensures StepTasks(agents, tasks, op)[i].status != tasks[i].status <==>
            Retries(tasks, op, i) || (ReportsOn(tasks, op, i) && op.status != tasks[i].status)
    ensures !Retries(tasks, op, i) && !ReportsOn(tasks, op, i) ==> StepTasks(agents, tasks, op)[i] == tasks[i]
  {
  }

  /** A task that an administrator cancelled before it was even claimed, overwritten by a report. */
  lemma ReportOverwritesCancel(tenant: string, agent: string)
    ensures var agents := map[agent := tenant];
      var create, cancel := Create(tenant, agent, 60, map[]), Cancel(tenant, 0);
      var report := Complete(tenant, agent, 0, Succeeded, map[], None);
      && |Run(agents, [create, cancel]).tasks| == |Run(agents, [create, cancel, report]).tasks| == 1
      && Run(agents, [create, cancel]).tasks[0].status == Cancelled
      && Run(agents, [create, cancel, report]).tasks[0].status == Succeeded
  {
    var agents := map[agent := tenant];
    var create, cancel := Create(tenant, agent, 60, map[]), Cancel(tenant, 0);
    var report := Complete(tenant, agent, 0, Succeeded, map[], None);
    RunOfCreate(tenant, agent);
    RunSnoc(agents, [create], cancel);
    RunSnoc(agents, [create, cancel], report);
    assert [create, cancel] + [report] == [create, cancel, report];
  }

  ghost predicate LeftAlone(agents: map<string, string>, tasks: seq<Task>, ops: seq<Op>, i: nat) {
    ops == [] ||
    var before := TasksAfter(agents, tasks, ops[..|ops| - 1]);
    LeftAlone(agents, tasks, ops[..|ops| - 1], i) && !Retries(before, ops[|ops| - 1], i)
        && !ReportsOn(before, ops[|ops| - 1], i)
  }

  /** A finished task stays as it is, in every field, over any run without a retry of it or a report on it. */
  lemma {:induction false} FinishedStays(agents: map<string, string>, tasks: seq<Task>, ops: seq<Op>, i: nat)
    requires i < |tasks| && IsFinished(tasks[i]) && LeftAlone(agents, tasks, ops, i)
    ensures i < |TasksAfter(agents, tasks, ops)| && TasksAfter(agents, tasks, ops)[i] == tasks[i]
  {
    if ops != [] {
      FinishedStays(agents, tasks, ops[..|ops| - 1], i);
      FinishedMovesIff(agents, TasksAfter(agents, tasks, ops[..|ops| - 1]), ops[|ops| - 1], i);
    }
  }

  // ---------- the operations, spelled out ----------

  /** The task waits for this agent. */
  predicate WaitsFor(t: Task, tenant: string, agent: string) {
    t.status == Queued && t.tenant == tenant && t.agent == agent
  }

  ghost function WaitingBelow(tasks: seq<Task>, tenant: string, agent: string, n: nat): set<nat>
    requires n <= |tasks|
  {
    set j: nat | j < n && WaitsFor(tasks[j], tenant, agent)
  }

  lemma {:induction false} QueuedCount(tasks: seq<Task>, tenant: string, agent: string, n: nat)
    requires n <= |tasks|
    ensures |QueuedIds(tasks, tenant, agent, n)| == |WaitingBelow(tasks, tenant, agent, n)|
  {
    if n > 0 {
      QueuedCount(tasks, tenant, agent, n - 1);
      var before := WaitingBelow(tasks, tenant, agent, n - 1);
      if WaitsFor(tasks[n - 1], tenant, agent) {
        assert WaitingBelow(tasks, tenant, agent, n) == before + {n - 1};
      } else {
        assert WaitingBelow(tasks, tenant, agent, n) == before;
      }
    }
  }

  lemma {:induction false} QueuedPosition(tasks: seq<Task>, tenant: string, agent: string, n: nat, i: nat)
    requires i < n <= |tasks| && WaitsFor(tasks[i], tenant, agent)
    ensures var k := |QueuedIds(tasks, tenant, agent, i)|;
      k < |QueuedIds(tasks, tenant, agent, n)| && QueuedIds(tasks, tenant, agent, n)[k] == i
  {
    if i < n - 1 {
      QueuedPosition(tasks, tenant, agent, n - 1, i);
    }
  }

  /**
   A claim takes a task iff it waits for the agent and fewer than `max` older ones do; a negative `max` is no
   bound.
   */
  lemma ClaimsAreExact(tasks: seq<Task>, tenant: string, agent: string, max: int, i: nat)
    ensures i in ClaimIds(tasks, tenant, agent, max) <==>
      && i < |tasks| && WaitsFor(tasks[i], tenant, agent)
      && (max < 0 || |WaitingBelow(tasks, tenant, agent, i)| < max)
  {
    var all := QueuedIds(tasks, tenant, agent, |tasks|);
    var ids := ClaimIds(tasks, tenant, agent, max);
    if i < |tasks| && WaitsFor(tasks[i], tenant, agent) {
      QueuedCount(tasks, tenant, agent, i);
      QueuedPosition(tasks, tenant, agent, |tasks|, i);
      QueuedIdsAreComplete(tasks, tenant, agent, |tasks|, i);
      var k := |WaitingBelow(tasks, tenant, agent, i)|;
      if max < 0 || k < max {
        assert ids[k] == i;
      }
    }
  }

  /** The task was claimed at `t` or before, and still is. */
  predicate IsClaimedSince(task: Task, tenant: string, t: int) {
    task.tenant == tenant && task.status == Claimed && task.claimedAt.Some? && task.claimedAt.value <= t
  }

  /** What each operation does to the table. */
  lemma StepsSpelledOut(agents: map<string, string>, tasks: seq<Task>, op: Op)
    ensures var after := StepTasks(agents, tasks, op);
      match op
      case Create(tenant, agent, timeout, audit) =>
        after == if agent in agents && agents[agent] == tenant
          then tasks + [Task(tenant, agent, Queued, None, false, timeout, if audit == map[] then None
              else Some(audit), None)]
          else tasks
      case CreateBlocked(tenant, agent, reason, verdict) =>
        after == if agent in agents && agents[agent] == tenant
          then tasks + [Task(tenant, agent, BlockedByPolicy, None, true, 0, Some(verdict), Some(reason))]
          else tasks
      case Claim(tenant, agent, max, now) =>
        |after| == |tasks| && forall i | 0 <= i < |tasks| ::
          after[i] == if i in ClaimIds(tasks, tenant, agent, max)
              then tasks[i].(status := Claimed, claimedAt := Some(now)) else tasks[i]
      case Complete(tenant, agent, id, status, result, error) =>
        if id < |tasks| && tasks[id].tenant == tenant && tasks[id].agent == agent
        then
          && |after| == |tasks| && (forall i | 0 <= i < |tasks| && i != id :: after[i] == tasks[i])
          && after[id].result.Some? && after[id].result.value.Keys == result.Keys + FieldsOf(tasks[id]).Keys
          && (forall k | k in FieldsOf(tasks[id]) :: after[id].result.value[k] == FieldsOf(tasks[id])[k])
          && (forall k | k in result && k !in FieldsOf(tasks[id]) :: after[id].result.value[k] == result[k])
          && after[id] == tasks[id].(status := status, completed := true, result := after[id].result, error := error)
        else after == tasks
      case Expire(tenant, now) =>
        |after| == |tasks| && forall i | 0 <= i < |tasks| ::
          after[i] == if IsClaimedSince(tasks[i], tenant, now - tasks[i].timeout)
                      then tasks[i].(status := TimedOut, completed := true, error := Some("task_claim_timeout"))
                          else tasks[i]
      case Cancel(tenant, id) =>
        after == if id < |tasks| && tasks[id].tenant == tenant
            && (tasks[id].status == Queued || tasks[id].status == Claimed)
          then tasks[id := tasks[id].(status := Cancelled, completed := true, error := Some("cancelled_by_admin"))]
              else tasks
      case Retry(tenant, id) =>
        after == if id < |tasks| && tasks[id].tenant == tenant
            && (tasks[id].status == Failed || tasks[id].status == TimedOut || tasks[id].status == Cancelled)
          then tasks[id := tasks[id].(status := Queued, claimedAt := None, completed := false, result := None,
              error := None)]
          else tasks
  {
  }

  // ---------- the store itself ----------

  class TaskStore {
    const agents: map<string, string>
    var tasks: seq<Task>

    constructor (agents: map<string, string>)
      ensures this.agents == agents && tasks == []
    {
      this.agents, tasks := agents, [];
    }

    method CreateTask(tenant: string, agent: string, timeout: int, audit: Fields) returns (id: Option<nat>)
      modifies this
      ensures tasks == StepTasks(agents, old(tasks), Create(tenant, agent, timeout, audit))
      ensures id == if KnownAgent(agents, tenant, agent) then Some(|old(tasks)|) else None
    {
      if agent !in agents || agents[agent] != tenant {
        return None;
      }
      id := Some(|tasks|);
      tasks := tasks + [NewTask(tenant, agent, timeout, audit)];
    }

    method CreateBlockedTask(tenant: string, agent: string, reason: string, verdict: Fields) returns (id: Option<nat>)
      modifies this
      ensures tasks == StepTasks(agents, old(tasks), CreateBlocked(tenant, agent, reason, verdict))
      ensures id == if KnownAgent(agents, tenant, agent) then Some(|old(tasks)|) else None
    {
      if agent !in agents || agents[agent] != tenant {
        return None;
      }
      id := Some(|tasks|);
      tasks := tasks + [NewBlockedTask(tenant, agent, reason, verdict)];
    }

    method ClaimTasks(tenant: string, agent: string, max: int, now: int) returns (ids: seq<nat>)
      modifies this
      ensures ids == ClaimIds(old(tasks), tenant, agent, max)
      ensures tasks == StepTasks(agents, old(tasks), Claim(tenant, agent, max, now))
    {
      ids := ClaimIds(tasks, tenant, agent, max);
      assert tasks == ClaimAll(tasks, [], now);
      for n := 0 to |ids|
        invariant tasks == ClaimAll(old(tasks), ids[..n], now)
      {
        assert ids[n] in ids;
        ClaimOneMore(old(tasks), ids, n, now);
        tasks := tasks[ids[n] := tasks[ids[n]].(status := Claimed, claimedAt := Some(now))];
      }
      assert ids[..|ids|] == ids;
    }

    method CompleteTask(tenant: string, agent: string, id: nat, status: Status, result: Fields, error: Option<string>)
      modifies this
      ensures tasks == StepTasks(agents, old(tasks), Complete(tenant, agent, id, status, result, error))
    {
      var found := id < |tasks| && tasks[id].tenant == tenant && tasks[id].agent == agent;
      var existing: Fields := if found && tasks[id].result.Some? then tasks[id].result.value else map[];
      var merged := result + existing;
      if found {
        tasks := tasks[id := tasks[id].(status := status, completed := true, result := Some(merged), error := error)];
      }
    }

    method ExpireStaleTasks(tenant: string, now: int) returns (count: nat)
      modifies this
      ensures tasks == StepTasks(agents, old(tasks), Expire(tenant, now))
      ensures count == |OverdueBelow(old(tasks), tenant, now, |old(tasks)|)|
    {
      count := 0;
      ghost var before := tasks;
      ghost var n := |tasks|;
      for i := 0 to |tasks|
        invariant |tasks| == |before| == n && count == |OverdueBelow(before, tenant, now, i)|
        invariant tasks[i..] == before[i..] && tasks[..i] == ExpireAll(before, tenant, now)[..i]
      {
        ExpireOneMore(before, tasks, tenant, now, i);
        if IsOverdue(tasks[i], tenant, now) {
          tasks := tasks[i := TimedOutTask(tasks[i])];
          count := count + 1;
        }
      }
      WholeSeq(tasks, n);
      WholeSeq(ExpireAll(before, tenant, now), n);
    }

    method CancelTask(tenant: string, id: nat) returns (ok: bool)
      modifies this
      ensures tasks == StepTasks(agents, old(tasks), Cancel(tenant, id))
      ensures ok <==> id < |old(tasks)| && CanCancel(old(tasks)[id], tenant)
    {
      ok := id < |tasks| && CanCancel(tasks[id], tenant);
      if ok {
        tasks := tasks[id := CancelledTask(tasks[id])];
      }
    }

    method RetryTask(tenant: string, id: nat) returns (ok: bool)
      modifies this
      ensures tasks == StepTasks(agents, old(tasks), Retry(tenant, id))
      ensures ok <==> id < |old(tasks)| && CanRetry(old(tasks)[id], tenant)
    {
      ok := id < |tasks| && CanRetry(tasks[id], tenant);
      if ok {
        tasks := tasks[id := RetriedTask(tasks[id])];
      }
    }
  }

  lemma ClaimOneMore(tasks: seq<Task>, ids: seq<nat>, n: nat, now: int)
    requires n < |ids| && ids[n] < |tasks|
    ensures var before := ClaimAll(tasks, ids[..n], now);
      ClaimAll(tasks, ids[..n + 1], now) == before[ids[n] := ClaimedTask(before[ids[n]], now)]
  {
    assert forall i :: i in ids[..n + 1] <==> i in ids[..n] || i == ids[n];
  }

  ghost function OverdueBelow(tasks: seq<Task>, tenant: string, now: int, n: nat): set<nat>
    requires n <= |tasks|
  {
    set i: nat | i < n && IsOverdue(tasks[i], tenant, now)
  }

  lemma WholeSeq<T>(s: seq<T>, n: nat)
    requires n == |s|
    ensures s[..n] == s
  {
  }

  lemma ExpireOneMore(before: seq<Task>, tasks: seq<Task>, tenant: string, now: int, i: nat)
    requires i < |before| == |tasks| && tasks[i..] == before[i..]
    requires tasks[..i] == ExpireAll(before, tenant, now)[..i]
    ensures tasks[i] == before[i]
    ensures |OverdueBelow(before, tenant, now, i + 1)| ==
            |OverdueBelow(before, tenant, now, i)| + if IsOverdue(before[i], tenant, now) then 1 else 0
    ensures var after := if IsOverdue(before[i], tenant, now) then tasks[i := TimedOutTask(tasks[i])] else tasks;
            after[i + 1..] == before[i + 1..] && after[..i + 1] == ExpireAll(before, tenant, now)[..i + 1]
  {
    var below := OverdueBelow(before, tenant, now, i);
    if IsOverdue(before[i], tenant, now) {
      assert OverdueBelow(before, tenant, now, i + 1) == below + {i};
    } else {
      assert OverdueBelow(before, tenant, now, i + 1) == below;
    }
    assert tasks[i..][0] == before[i..][0];
    TailsAgree(tasks, before, i);
    var after := if IsOverdue(before[i], tenant, now) then tasks[i := TimedOutTask(tasks[i])] else tasks;
    assert after[..i] == tasks[..i] && after[i] == ExpireAll(before, tenant, now)[i];
    SplitPrefix(after, i);
    SplitPrefix(ExpireAll(before, tenant, now), i);
    assert after[i + 1..] == tasks[i + 1..];
  }

  lemma TailsAgree<T>(a: seq<T>, b: seq<T>, i: nat)
    requires i < |a| == |b| && a[i..] == b[i..]
    ensures a[i + 1..] == b[i + 1..]
  {
    assert a[i..][1..] == a[i + 1..] && b[i..][1..] == b[i + 1..];
  }

}
