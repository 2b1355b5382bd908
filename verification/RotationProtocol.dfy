/**
 Credential rotation as a protocol between one agent and its row on the server. The heartbeat handler is
 one server step; its reply is delivered or lost separately. The agent adopts an update in memory, tries
 to save it, and after a restart goes on from what is on disk. Administrators act at any time.
 */
module RotationProtocol {
  import opened Options
  import opened Credentials

  /** What the agent holds: token and version. */
  type Credential = Update

  /** A reply in flight, with the credential update it may carry. */
  datatype Reply = Reply(update: Option<Update>)

  datatype World = World(row: AgentRow, memory: Credential, disk: Credential, inFlight: Option<Reply>,
      issued: set<string>)

  datatype Op =
    | AdminRotate(newToken: string)
    | AdminRevoke
    | StaleSweep
    | Heartbeat
    | Deliver(saved: bool)
    | Lose
    | Restart

  /** Unicode white space, as `strings.TrimSpace` understands it. */
  predicate IsSpace(c: char) {
    var u := c as int;
    (9 <= u <= 13) || u == 32 || u == 0x85 || u == 0xA0 || u == 0x1680 || (0x2000 <= u <= 0x200A)
    || u == 0x2028 || u == 0x2029 || u == 0x202F || u == 0x205F || u == 0x3000
  }

  /** `strings.TrimSpace(s) == ""` */
  predicate Blank(s: string) {
    forall i | 0 <= i < |s| :: IsSpace(s[i])
  }

  /** Tokens are 32 random bytes in URL-safe text: never blank and never drawn twice. */
  predicate Enabled(w: World, op: Op) {
    match op
    case AdminRotate(token) => token !in w.issued && !Blank(token)
    case Heartbeat => w.inFlight.None?
    case Deliver(_) => w.inFlight.Some?
    case Lose => w.inFlight.Some?
    case _ => true
  }

  /** `runCycleWithContext`: an update is taken iff it has a token and a newer version. */
  function Adopt(mine: Credential, update: Option<Update>): Credential {
    if update.Some? && !Blank(update.value.token) && update.value.version > mine.version then update.value else mine
  }

  function Step(w: World, op: Op): World {
    match op
    case AdminRotate(token) =>
      if RotationRefused(w.row) then w else w.(row := Scheduled(w.row, token), issued := w.issued + {token})
    case AdminRevoke => w.(row := w.row.(status := RevokedStatus, revoked := true))
    case StaleSweep => w.(row := w.row.(status := Offline))
    case Heartbeat =>
      if !Authenticates(w.row, w.memory.token) then w
      else w.(row := Activated(w.row.(status := Online)), inFlight := Some(Reply(w.row.pending)))
    case Deliver(saved) =>
      if w.inFlight.None? then w
      else
        var next := Adopt(w.memory, w.inFlight.value.update);
        w.(memory := next, disk := if saved && next != w.memory then next else w.disk, inFlight := None)
    case Lose => w.(inFlight := None)
    case Restart => w.(memory := w.disk, inFlight := None)
  }

  function Enrolled(tenant: string, token: string): World {
    World(AgentRow(tenant, token, 1, None, false, Online), Update(token, 1), Update(token, 1), None, {token})
  }

  function Run(start: World, ops: seq<Op>): World {
    if ops == [] then start else Step(Run(start, ops[..|ops| - 1]), ops[|ops| - 1])
  }

  ghost predicate Possible(start: World, ops: seq<Op>) {
    ops == [] || (Possible(start, ops[..|ops| - 1]) && Enabled(Run(start, ops[..|ops| - 1]), ops[|ops| - 1]))
  }

  // ---------- the three phases ----------

  function RowCredential(w: World): Credential {
    Update(w.row.token, w.row.version)
  }

  predicate CarriesUpdate(w: World) {
    w.inFlight.Some? && w.inFlight.value.update.Some?
  }

  /** Agent and server hold the same credential and no update is on its way. */
  predicate InSync(w: World) {
    w.memory == RowCredential(w) && !CarriesUpdate(w)
  }

  /** The server has moved one version on and the reply that says so is still undelivered. */
  predicate Activating(w: World) {
    && CarriesUpdate(w) && w.inFlight.value.update.value == RowCredential(w)
    && w.memory.version + 1 == w.row.version && w.memory.token != w.row.token
  }

  /** The agent holds an old token and nothing is on its way. */
  predicate Stranded(w: World) {
    !CarriesUpdate(w) && w.memory.version < w.row.version && w.memory.token != w.row.token
  }

  /** A credential the server no longer accepts or has not got to yet. */
  predicate Outdated(c: Credential, row: AgentRow) {
    c.version < row.version && c.token != row.token
  }

  ghost predicate Inv(w: World) {
    && (InSync(w) || Activating(w) || Stranded(w))
    && (w.disk == w.memory || (w.disk.version <= w.memory.version && Outdated(w.disk, w.row)))
    && w.row.token in w.issued && w.memory.token in w.issued && w.disk.token in w.issued
    && !Blank(w.row.token)
    && (w.row.status == RevokedStatus ==> w.row.revoked)
    && (w.row.pending.Some? ==>
          var next := w.row.pending.value;
          && next.version == w.row.version + 1 && next.token in w.issued && !Blank(next.token)
          && next.token != w.row.token && next.token != w.memory.token && next.token != w.disk.token)
  }

  lemma EnrolledInv(tenant: string, token: string)
    requires !Blank(token)
    ensures Inv(Enrolled(tenant, token)) && InSync(Enrolled(tenant, token))
  {
  }

  lemma StepKeepsInv(w: World, op: Op)
    requires Inv(w) && Enabled(w, op)
    ensures Inv(Step(w, op))
  {
  }

  lemma {:induction false} RunKeepsInv(start: World, ops: seq<Op>)
    requires Inv(start) && Possible(start, ops)
    ensures Inv(Run(start, ops))
  {
    if ops != [] {
      RunKeepsInv(start, ops[..|ops| - 1]);
      StepKeepsInv(Run(start, ops[..|ops| - 1]), ops[|ops| - 1]);
    }
  }

  /** The phases exclude each other, and only in the first does the server accept the agent's token. */
  lemma AcceptedIffInSync(w: World)
    requires Inv(w)
    ensures Authenticates(w.row, w.memory.token) <==> InSync(w) && !w.row.revoked
    ensures !(InSync(w) && Activating(w)) && !(InSync(w) && Stranded(w)) && !(Activating(w) && Stranded(w))
  {
  }

  /** Exactly two things strand an agent: losing an activating reply, and restarting from a stale disk. */
  lemma StrandedIff(w: World, op: Op)
    requires Inv(w) && Enabled(w, op) && !Stranded(w)
    ensures Stranded(Step(w, op)) <==> Strands(w, op)
  {
  }

  /** Losing an activating reply, or restarting while one is undelivered or from a disk older than memory. */
  predicate Strands(w: World, op: Op) {
    (op.Lose? && Activating(w)) || (op.Restart? && (Activating(w) || w.disk != w.memory))
  }

  lemma StrandedStays(w: World, op: Op)
    requires Inv(w) && Enabled(w, op) && Stranded(w)
    ensures Stranded(Step(w, op))
  {
  }

  ghost predicate StrandsAt(start: World, ops: seq<Op>, n: nat)
    requires n < |ops|
  {
    Strands(Run(start, ops[..n]), ops[n])
  }

  /** Over any possible run: the agent ends up stranded iff one of those two things happened on the way. */
  lemma {:induction false} RunStrandsIff(start: World, ops: seq<Op>)
    requires Inv(start) && !Stranded(start) && Possible(start, ops)
    ensures Stranded(Run(start, ops)) <==> exists n :: 0 <= n < |ops| && StrandsAt(start, ops, n)
  {
    if ops != [] {
      var last := |ops| - 1;
      var before := ops[..last];
      RunStrandsIff(start, before);
      RunKeepsInv(start, before);
      forall n | 0 <= n < last ensures StrandsAt(start, before, n) <==> StrandsAt(start, ops, n) {
        assert before[..n] == ops[..n];
      }
      if Stranded(Run(start, before)) {
        StrandedStays(Run(start, before), ops[last]);
        var n :| 0 <= n < last && StrandsAt(start, before, n);
        assert StrandsAt(start, ops, n);
      } else {
        StrandedIff(Run(start, before), ops[last]);
        assert StrandsAt(start, ops, last) <==> Stranded(Run(start, ops));
      }
    }
  }

  /** A run that strands an agent: one rotation, one heartbeat, and its reply lost. */
  lemma LostReplyStrands(tenant: string)
    ensures var start, ops := Enrolled(tenant, "a"), [AdminRotate("b"), Heartbeat, Lose];
      Possible(start, ops) && Stranded(Run(start, ops)) && !Run(start, ops).row.revoked
  {
    var start := Enrolled(tenant, "a");
    var rotate := AdminRotate("b");
    RunSnoc(start, [], rotate);
    RunSnoc(start, [rotate], Heartbeat);
    RunSnoc(start, [rotate, Heartbeat], Lose);
    assert "a"[0] != "b"[0] && !IsSpace("b"[0]);
    assert Enabled(start, rotate);
    var w := Step(start, rotate);
    assert Enabled(w, Heartbeat) && Authenticates(w.row, w.memory.token);
    assert [rotate, Heartbeat] + [Lose] == [rotate, Heartbeat, Lose];
  }

  lemma RunSnoc(start: World, ops: seq<Op>, op: Op)
    ensures Run(start, ops + [op]) == Step(Run(start, ops), op)
    ensures Possible(start, ops + [op]) <==> Possible(start, ops) && Enabled(Run(start, ops), op)
    ensures ops == [] ==> ops + [op] == [op]
    ensures |ops| == 1 ==> ops + [op] == [ops[0], op]
  {
    assert (ops + [op])[..|ops|] == ops;
  }

  /** A stranded agent never authenticates again, whatever the administrators, the network or a restart do. */
  lemma {:induction false} StrandedForever(start: World, ops: seq<Op>)
    requires Inv(start) && Stranded(start) && Possible(start, ops)
    ensures Stranded(Run(start, ops)) && !Authenticates(Run(start, ops).row, Run(start, ops).memory.token)
  {
    if ops != [] {
      var before := Run(start, ops[..|ops| - 1]);
      StrandedForever(start, ops[..|ops| - 1]);
      RunKeepsInv(start, ops[..|ops| - 1]);
    }
  }

  ghost predicate SavesSucceed(ops: seq<Op>) {
    forall op | op in ops && op.Deliver? :: op.saved
  }

  lemma {:induction false} DiskFollowsMemory(start: World, ops: seq<Op>)
    requires start.disk == start.memory && SavesSucceed(ops)
    ensures Run(start, ops).disk == Run(start, ops).memory
  {
    if ops != [] {
      assert ops[|ops| - 1] in ops;
      DiskFollowsMemory(start, ops[..|ops| - 1]);
    }
  }

  /**
   While saves succeed, the server is never more than one version ahead: level exactly when the tokens are
   equal, one ahead exactly while an activating reply is undelivered, in flight or lost.
   */
  lemma {:induction false} ServerIsAtMostOneAhead(tenant: string, token: string, ops: seq<Op>)
    requires !Blank(token) && Possible(Enrolled(tenant, token), ops) && SavesSucceed(ops)
    ensures var w := Run(Enrolled(tenant, token), ops);
      && (w.row.version == w.memory.version || w.row.version == w.memory.version + 1)
      && (w.row.version == w.memory.version <==> w.row.token == w.memory.token)
      && (w.row.version == w.memory.version <==> InSync(w))
      && (w.row.version == w.memory.version + 1 <==> Activating(w) || Stranded(w))
  {
    var start := Enrolled(tenant, token);
    EnrolledInv(tenant, token);
    RunKeepsInv(start, ops);
    DiskFollowsMemory(start, ops);
    if ops != [] {
      var before, op := Run(start, ops[..|ops| - 1]), ops[|ops| - 1];
      ServerIsAtMostOneAhead(tenant, token, ops[..|ops| - 1]);
      RunKeepsInv(start, ops[..|ops| - 1]);
      DiskFollowsMemory(start, ops[..|ops| - 1]);
    }
  }

  /** The protocol's row moves exactly as the store's does. */
  lemma RowFollowsStore(w: World, t: Tables, agent: string, newToken: string)
    requires agent in t.agents && t.agents[agent] == w.row
    ensures var tenant := w.row.tenant;
      && Credentials.Step(t, Rotate(tenant, agent, newToken)).agents[agent] == Step(w, AdminRotate(newToken)).row
      && Credentials.Step(t, Revoke(tenant, agent)).agents[agent] == Step(w, AdminRevoke).row
      && Credentials.Step(t, MarkOffline([agent])).agents[agent] == Step(w, StaleSweep).row
      && (Authenticates(w.row, w.memory.token) ==>
            var authenticated := Credentials.Step(t, Authenticate(agent, w.memory.token));
            var beaten := Credentials.Step(authenticated, UpdateHeartbeat(agent));
            Credentials.Step(beaten, Activate(tenant, agent)).agents[agent] == Step(w, Heartbeat).row)
  {
  }

  /** The agent's credential, updated in place by a heartbeat reply. */
  class AgentState {
    var token: string
    var version: nat

    constructor (token: string, version: nat)
      ensures this.token == token && this.version == version
    {
      this.token, this.version := token, version;
    }

    method ApplyHeartbeat(update: Option<Update>) returns (changed: bool)
      modifies this
      ensures Update(token, version) == Adopt(Update(old(token), old(version)), update)
      ensures changed <==> update.Some? && update.value.version > old(version) && exists i ::
        0 <= i < |update.value.token| && !IsSpace(update.value.token[i])
      ensures changed ==> token == update.value.token && version == update.value.version
      ensures !changed ==> token == old(token) && version == old(version)
    {
      changed := false;
      if update.Some? && !Blank(update.value.token) && update.value.version > version {
        token, version := update.value.token, update.value.version;
        changed := true;
      }
    }
  }
}
