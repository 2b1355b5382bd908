/**
 The server's agent credentials: enrollment, authentication, rotation, revocation and the audit trail.
 Each store method is one transaction. Requests of different callers may interleave between transactions
 in any way, so a heartbeat that was authenticated before a revocation may still run its later steps.
 */
module Credentials {
  import opened Options

  datatype Status = Online | Offline | RevokedStatus

  datatype Update = Update(token: string, version: nat)

  datatype AgentRow = AgentRow(tenant: string, token: string, version: nat, pending: Option<Update>, revoked: bool,
      status: Status)

  datatype EventKind = Enrolled | Authenticated | Revoked | RotationScheduled | Rotated

  datatype CredentialEvent = CredentialEvent(tenant: string, agent: string, kind: EventKind, version: nat)

  datatype EnrollmentToken = EnrollmentToken(tenant: string, expiresAt: Option<int>, maxUses: Option<nat>, uses: nat,
      revoked: bool)

  datatype Tables = Tables(agents: map<string, AgentRow>, events: seq<CredentialEvent>,
      tokens: map<string, EnrollmentToken>)

  const EMPTY := Tables(map[], [], map[])

  // ---------- one row ----------

  /** `agent_token = ? and credential_revoked_at is null and status != 'revoked'` */
  predicate Authenticates(row: AgentRow, token: string) {
    row.token == token && !row.revoked && row.status != RevokedStatus
  }

  predicate RotationRefused(row: AgentRow) {
    row.revoked || row.status == RevokedStatus
  }

  function Scheduled(row: AgentRow, token: string): AgentRow {
    row.(pending := Some(Update(token, row.version + 1)))
  }

  function Activated(row: AgentRow): AgentRow {
    if row.pending.None? then row else row.(token := row.pending.value.token, version := row.pending.value.version,
        pending := None)
  }

  // ---------- the store methods on tables ----------

  predicate HasAgent(t: Tables, tenant: string, agent: string) {
    agent in t.agents && t.agents[agent].tenant == tenant
  }

  function Logged(t: Tables, agent: string, kind: EventKind, version: nat): Tables
    requires agent in t.agents
  {
    t.(events := t.events + [CredentialEvent(t.agents[agent].tenant, agent, kind, version)])
  }

  predicate TokenAccepted(t: Tables, token: string, now: int) {
    token in t.tokens
    && !t.tokens[token].revoked
    && !(t.tokens[token].expiresAt.Some? && t.tokens[token].expiresAt.value < now)
    && !(t.tokens[token].maxUses.Some? && t.tokens[token].uses >= t.tokens[token].maxUses.value)
  }

  datatype Op =
    | CreateToken(token: string, tokenTenant: string, maxUses: Option<nat>, expiresAt: Option<int>)
    | RevokeToken(tokenTenant: string, token: string)
    | Enroll(token: string, agent: string, agentToken: string, now: int)
    | Authenticate(agent: string, agentToken: string)
    | Revoke(tenant: string, agent: string)
    | Rotate(tenant: string, agent: string, newToken: string)
    | Activate(tenant: string, agent: string)
    | UpdateHeartbeat(agent: string)
    | MarkOffline(agents: seq<string>)

  predicate EnrollSucceeds(t: Tables, token: string, agent: string, now: int) {
    TokenAccepted(t, token, now) && agent !in t.agents
  }

  predicate AuthSucceeds(t: Tables, agent: string, token: string) {
    agent in t.agents && Authenticates(t.agents[agent], token)
  }

  function OfflineRows(agents: map<string, AgentRow>, ids: seq<string>): map<string, AgentRow> {
    map a | a in agents :: if a in ids then agents[a].(status := Offline) else agents[a]
  }

  function Step(t: Tables, op: Op): Tables {
    match op
    case CreateToken(token, tenant, maxUses, expiresAt) =>
      t.(tokens := t.tokens[token := EnrollmentToken(tenant, expiresAt, maxUses, 0, false)])
    case RevokeToken(tenant, token) =>
      if token in t.tokens && t.tokens[token].tenant == tenant
      then t.(tokens := t.tokens[token := t.tokens[token].(revoked := true)]) else t
    case Enroll(token, agent, agentToken, now) =>
      if !EnrollSucceeds(t, token, agent, now) then t
      else
        var row := AgentRow(t.tokens[token].tenant, agentToken, 1, None, false, Online);
        var used := t.tokens[token := t.tokens[token].(uses := t.tokens[token].uses + 1)];
        Logged(t.(agents := t.agents[agent := row], tokens := used), agent, Enrolled, 1)
    case Authenticate(agent, token) =>
      if AuthSucceeds(t, agent, token) then Logged(t, agent, Authenticated, t.agents[agent].version) else t
    case Revoke(tenant, agent) =>
      if !HasAgent(t, tenant, agent) then t
      else
        var row := t.agents[agent];
        Logged(t.(agents := t.agents[agent := row.(status := RevokedStatus, revoked := true)]), agent, Revoked,
            row.version)
    case Rotate(tenant, agent, newToken) =>
      if !HasAgent(t, tenant, agent) || RotationRefused(t.agents[agent]) then t
      else
        var row := t.agents[agent];
        Logged(t.(agents := t.agents[agent := Scheduled(row, newToken)]), agent, RotationScheduled, row.version + 1)
    case Activate(tenant, agent) =>
      if !HasAgent(t, tenant, agent) || t.agents[agent].pending.None? then t
      else
        var row := t.agents[agent];
        Logged(t.(agents := t.agents[agent := Activated(row)]), agent, Rotated, row.pending.value.version)
    case UpdateHeartbeat(agent) =>
      if agent in t.agents then t.(agents := t.agents[agent := t.agents[agent].(status := Online)]) else t
    case MarkOffline(ids) =>
      t.(agents := OfflineRows(t.agents, ids))
  }

  function Run(ops: seq<Op>): Tables {
    if ops == [] then EMPTY else Step(Run(ops[..|ops| - 1]), ops[|ops| - 1])
  }

  /** A run that goes on from a given state. */
  function RunFrom(t: Tables, ops: seq<Op>): Tables {
    if ops == [] then t else Step(RunFrom(t, ops[..|ops| - 1]), ops[|ops| - 1])
  }

  // ---------- revocation ----------

  ghost predicate IsRevoked(t: Tables, agent: string) {
    agent in t.agents && t.agents[agent].revoked
  }

  /** Nothing brings a revoked credential back: not a heartbeat in flight, not the stale sweep, not a rotation. */
  lemma {:induction false} RevocationIsPermanent(t: Tables, ops: seq<Op>, agent: string, token: string)
    requires IsRevoked(t, agent)
    ensures IsRevoked(RunFrom(t, ops), agent) && !AuthSucceeds(RunFrom(t, ops), agent, token)
  {
    if ops != [] {
      RevocationIsPermanent(t, ops[..|ops| - 1], agent, token);
    }
  }

  /** Whatever `status` says, in a reachable state only the revocation date and the token decide. */
  lemma {:induction false} AuthenticationIsTokenAndDate(ops: seq<Op>, agent: string, token: string)
    ensures var t := Run(ops);
      AuthSucceeds(t, agent, token) <==> agent in t.agents && t.agents[agent].token == token && !t.agents[agent].revoked
  {
    StatusImpliesDate(ops, agent);
  }

  lemma {:induction false} StatusImpliesDate(ops: seq<Op>, agent: string)
    ensures var t := Run(ops); agent in t.agents && t.agents[agent].status == RevokedStatus ==> t.agents[agent].revoked
  {
    if ops != [] {
      StatusImpliesDate(ops[..|ops| - 1], agent);
    }
  }

  // ---------- the audit trail ----------

  predicate IsEvent(e: CredentialEvent, agent: string, kind: EventKind) {
    e.agent == agent && e.kind == kind
  }

  function Rotations(es: seq<CredentialEvent>, agent: string): nat {
    if es == [] then 0
    else Rotations(es[..|es| - 1], agent) + if IsEvent(es[|es| - 1], agent, Rotated) then 1 else 0
  }

  ghost predicate WasScheduled(es: seq<CredentialEvent>, agent: string, version: nat) {
    exists e :: e in es && IsEvent(e, agent, RotationScheduled) && e.version == version
  }

  /** The k-th rotation of an agent produced version k + 1 and had been scheduled under that version. */
  ghost predicate RotationOk(es: seq<CredentialEvent>, p: nat)
    requires p < |es|
  {
    es[p].kind == Rotated ==>
      es[p].version == 2 + Rotations(es[..p], es[p].agent) && WasScheduled(es[..p], es[p].agent, es[p].version)
  }

  ghost predicate AuditOk(t: Tables) {
    && (forall p | 0 <= p < |t.events| :: RotationOk(t.events, p))
    && (forall e | e in t.events :: e.agent in t.agents)
    && (forall a | a in t.agents :: RowOk(t, a))
  }

  ghost predicate RowOk(t: Tables, a: string)
    requires a in t.agents
  {
    var row := t.agents[a];
    && row.version == 1 + Rotations(t.events, a)
    && (row.pending.Some? ==>
        row.pending.value.version == row.version + 1 && WasScheduled(t.events, a, row.version + 1))
  }

  lemma {:induction false} NoEventsNoRotations(es: seq<CredentialEvent>, agent: string)
    requires forall e | e in es :: e.agent != agent
    ensures Rotations(es, agent) == 0
  {
    if es != [] {
      assert es[|es| - 1] in es;
      NoEventsNoRotations(es[..|es| - 1], agent);
    }
  }

  lemma AppendEvent(es: seq<CredentialEvent>, e: CredentialEvent, a: string)
    ensures Rotations(es + [e], a) == Rotations(es, a) + if IsEvent(e, a, Rotated) then 1 else 0
    ensures forall v :: WasScheduled(es, a, v) ==> WasScheduled(es + [e], a, v)
    ensures IsEvent(e, a, RotationScheduled) ==> WasScheduled(es + [e], a, e.version)
  {
    assert (es + [e])[..|es|] == es;
    assert forall x | x in es :: x in es + [e];
    assert e in es + [e];
  }

  lemma AppendKeepsRotationsOk(es: seq<CredentialEvent>, e: CredentialEvent)
    requires forall p | 0 <= p < |es| :: RotationOk(es, p)
    requires e.kind == Rotated ==> e.version == 2 + Rotations(es, e.agent) && WasScheduled(es, e.agent, e.version)
    ensures forall p | 0 <= p < |es| + 1 :: RotationOk(es + [e], p)
  {
    var all := es + [e];
    forall p | 0 <= p < |all| ensures RotationOk(all, p) {
      if p < |es| {
        assert RotationOk(es, p) && all[..p] == es[..p];
      } else {
        assert all[..p] == es;
      }
    }
  }

  /** A logged change of one agent's row keeps the audit exact when the event fits the new row. */
  lemma LoggedKeepsAudit(t: Tables, agent: string, row: AgentRow, e: CredentialEvent)
    requires AuditOk(t) && e.agent == agent
    requires e.kind == Rotated ==>
        e.version == 2 + Rotations(t.events, agent) && WasScheduled(t.events, agent, e.version)
    requires row.version == 1 + Rotations(t.events, agent) + if e.kind == Rotated then 1 else 0
    requires row.pending.Some? ==>
      && row.pending.value.version == row.version + 1
      && (WasScheduled(t.events, agent, row.version + 1)
          || (e.kind == RotationScheduled && e.version == row.version + 1))
    ensures AuditOk(t.(agents := t.agents[agent := row], events := t.events + [e]))
  {
    var after := t.(agents := t.agents[agent := row], events := t.events + [e]);
    AppendKeepsRotationsOk(t.events, e);
    forall a | a in after.agents ensures RowOk(after, a) {
      AppendEvent(t.events, e, a);
      assert a != agent ==> RowOk(t, a);
    }
  }

  lemma SilentKeepsAudit(t: Tables, after: Tables)
    requires AuditOk(t) && after.events == t.events && after.agents.Keys == t.agents.Keys
    requires forall a | a in t.agents ::
        after.agents[a].version == t.agents[a].version && after.agents[a].pending == t.agents[a].pending
    ensures AuditOk(after)
  {
    forall a | a in after.agents ensures RowOk(after, a) {
      assert RowOk(t, a);
    }
  }

  lemma StepKeepsAudit(t: Tables, op: Op)
    requires AuditOk(t)
    ensures AuditOk(Step(t, op))
  {
    var after := Step(t, op);
    match op
    case Enroll(token, agent, agentToken, now) =>
      if EnrollSucceeds(t, token, agent, now) {
        NoEventsNoRotations(t.events, agent);
        var mid := t.(tokens := after.tokens);
        SilentKeepsAudit(t, mid);
        LoggedKeepsAudit(mid, agent, after.agents[agent], after.events[|t.events|]);
      }
    case Authenticate(agent, token) =>
      if AuthSucceeds(t, agent, token) {
        assert RowOk(t, agent) && t.agents[agent := t.agents[agent]] == t.agents;
        LoggedKeepsAudit(t, agent, t.agents[agent], after.events[|t.events|]);
      }
    case Revoke(tenant, agent) =>
      if HasAgent(t, tenant, agent) {
        assert RowOk(t, agent);
        LoggedKeepsAudit(t, agent, after.agents[agent], after.events[|t.events|]);
      }
    case Rotate(tenant, agent, newToken) =>
      if HasAgent(t, tenant, agent) && !RotationRefused(t.agents[agent]) {
        assert RowOk(t, agent);
        LoggedKeepsAudit(t, agent, after.agents[agent], after.events[|t.events|]);
      }
    case Activate(tenant, agent) =>
      if HasAgent(t, tenant, agent) && t.agents[agent].pending.Some? {
        assert RowOk(t, agent);
        LoggedKeepsAudit(t, agent, after.agents[agent], after.events[|t.events|]);
      }
    case CreateToken(_, _, _, _) => SilentKeepsAudit(t, after);
    case RevokeToken(_, _) => SilentKeepsAudit(t, after);
    case UpdateHeartbeat(_) => SilentKeepsAudit(t, after);
    case MarkOffline(_) => SilentKeepsAudit(t, after);
  }

  /**
   The audit is exact after any interleaving of store methods: an agent's version is one more than its
   rotations, the rotations run through versions 2, 3, 4, ..., and each had been scheduled under the same
   version before.
   */
  lemma {:induction false} AuditIsExact(ops: seq<Op>)
    ensures AuditOk(Run(ops))
  {
    if ops != [] {
      AuditIsExact(ops[..|ops| - 1]);
      StepKeepsAudit(Run(ops[..|ops| - 1]), ops[|ops| - 1]);
    }
  }

  /** An agent's credential moves only by its own operations. */
  lemma OthersAreUntouched(t: Tables, op: Op, agent: string)
    requires agent in t.agents
    requires match op
             case Revoke(_, a) => a != agent
             case Rotate(_, a, _) => a != agent
             case Activate(_, a) => a != agent
             case _ => true
    ensures agent in Step(t, op).agents
    ensures var before, after := t.agents[agent], Step(t, op).agents[agent];
      after.token == before.token && after.version == before.version && after.pending == before.pending
          && after.revoked == before.revoked
  {
  }

  // ---------- the store itself ----------

  datatype Outcome<T> = Missing | Refused(reason: string) | Done(value: T)

  class CredentialStore {
    var agents: map<string, AgentRow>
    var events: seq<CredentialEvent>
    var tokens: map<string, EnrollmentToken>

    ghost function Contents(): Tables
      reads this
    {
      Tables(agents, events, tokens)
    }

    constructor ()
      ensures Contents() == EMPTY
    {
      agents, events, tokens := map[], [], map[];
    }

    method RecordEvent(tenant: string, agent: string, kind: EventKind, version: nat)
      modifies this`events
      ensures events == old(events) + [CredentialEvent(tenant, agent, kind, version)]
    {
      events := events + [CredentialEvent(tenant, agent, kind, version)];
    }

    /** `agent` and `agentToken` are the fresh random values; an id already taken violates the primary key. */
    method EnrollAgent(token: string, agent: string, agentToken: string, now: int) returns (r: Outcome<Update>)
      modifies this
      ensures Contents() == Step(old(Contents()), Enroll(token, agent, agentToken, now))
      ensures r.Done? <==> EnrollSucceeds(old(Contents()), token, agent, now)
      ensures r.Done? ==> r.value == Update(agentToken, 1) && AuthSucceeds(Contents(), agent, agentToken)
      ensures r.Done? ==> token in old(tokens)
      ensures r.Done? ==>
        var grant := old(tokens)[token];
        tokens == old(tokens)[token := grant.(uses := grant.uses + 1)]
      ensures !r.Done? ==> Contents() == old(Contents())
      ensures token !in old(tokens) || old(tokens)[token].revoked ==>
          r == Refused("invalid_or_revoked_enrollment_token")
    {
      if token !in tokens || tokens[token].revoked {
        return Refused("invalid_or_revoked_enrollment_token");
      }
      var grant := tokens[token];
      if grant.expiresAt.Some? && grant.expiresAt.value < now {
        return Refused("expired_enrollment_token");
      }
      if grant.maxUses.Some? && grant.uses >= grant.maxUses.value {
        return Refused("enrollment_token_use_limit_reached");
      }
      if agent in agents {
        return Refused("integrity_error");
      }
      tokens := tokens[token := grant.(uses := grant.uses + 1)];
      agents := agents[agent := AgentRow(grant.tenant, agentToken, 1, None, false, Online)];
      RecordEvent(grant.tenant, agent, Enrolled, 1);
      r := Done(Update(agentToken, 1));
    }

    method AuthenticateAgent(agent: string, token: string) returns (r: Option<AgentRow>)
      modifies this`events
      ensures Contents() == Step(old(Contents()), Authenticate(agent, token))
      ensures r == if AuthSucceeds(old(Contents()), agent, token) then Some(old(agents)[agent]) else None
    {
      if agent !in agents || !Authenticates(agents[agent], token) {
        return None;
      }
      RecordEvent(agents[agent].tenant, agent, Authenticated, agents[agent].version);
      r := Some(agents[agent]);
    }

    method RevokeAgentCredential(tenant: string, agent: string) returns (r: Outcome<AgentRow>)
      modifies this
      ensures Contents() == Step(old(Contents()), Revoke(tenant, agent))
      ensures r.Done? <==> HasAgent(old(Contents()), tenant, agent)
      ensures r.Done? ==> IsRevoked(Contents(), agent) && r.value == agents[agent]
    {
      if agent !in agents || agents[agent].tenant != tenant {
        return Missing;
      }
      agents := agents[agent := agents[agent].(status := RevokedStatus, revoked := true)];
      RecordEvent(tenant, agent, Revoked, agents[agent].version);
      r := Done(agents[agent]);
    }

    method RotateAgentCredential(tenant: string, agent: string, newToken: string) returns (r: Outcome<AgentRow>)
      modifies this
      ensures Contents() == Step(old(Contents()), Rotate(tenant, agent, newToken))
      ensures r.Missing? <==> !HasAgent(old(Contents()), tenant, agent)
      ensures r.Done? <==> HasAgent(old(Contents()), tenant, agent) && !RotationRefused(old(agents)[agent])
      ensures r.Done? ==> r.value == agents[agent] && AuthSucceeds(Contents(), agent, old(agents)[agent].token)
      ensures r.Done? ==>
        agents[agent] == old(agents)[agent].(pending := Some(Update(newToken, old(agents)[agent].version + 1)))
    {
      if agent !in agents || agents[agent].tenant != tenant {
        return Missing;
      }
      if RotationRefused(agents[agent]) {
        return Refused("agent_credential_revoked");
      }
      var next := agents[agent].version + 1;
      agents := agents[agent := agents[agent].(pending := Some(Update(newToken, next)))];
      RecordEvent(tenant, agent, RotationScheduled, next);
      r := Done(agents[agent]);
    }

    method ActivatePendingAgentCredential(tenant: string, agent: string) returns (r: Option<Update>)
      modifies this
      ensures Contents() == Step(old(Contents()), Activate(tenant, agent))
      ensures r == if HasAgent(old(Contents()), tenant, agent) then old(agents)[agent].pending else None
      ensures r.Some? ==>
        agents[agent] == old(agents)[agent].(token := r.value.token, version := r.value.version, pending := None)
    {
      if agent !in agents || agents[agent].tenant != tenant || agents[agent].pending.None? {
        return None;
      }
      var update := agents[agent].pending.value;
      agents := agents[agent := agents[agent].(token := update.token, version := update.version, pending := None)];
      RecordEvent(tenant, agent, Rotated, update.version);
      r := Some(update);
    }

    method UpdateHeartbeatRow(agent: string)
      modifies this`agents
      ensures Contents() == Step(old(Contents()), UpdateHeartbeat(agent))
    {
      if agent in agents {
        agents := agents[agent := agents[agent].(status := Online)];
      }
    }

    method MarkAgentsOffline(ids: seq<string>)
      modifies this`agents
      ensures Contents() == Step(old(Contents()), MarkOffline(ids))
    {
      assert OfflineRows(agents, []) == agents;
      for i := 0 to |ids|
        invariant agents == OfflineRows(old(agents), ids[..i])
        invariant events == old(events) && tokens == old(tokens)
      {
        if ids[i] in agents {
          agents := agents[ids[i] := agents[ids[i]].(status := Offline)];
        }
        assert agents == OfflineRows(old(agents), ids[..i + 1]) by {
          assert forall a :: a in ids[..i + 1] <==> a in ids[..i] || a == ids[i];
        }
      }
      assert ids[..|ids|] == ids;
    }

    /** The endpoint: authenticate, then three store calls; the reply carries the update, if there is one. */
    method Heartbeat(agent: string, token: string) returns (accepted: bool, update: Option<Update>)
      modifies this
      ensures accepted <==> AuthSucceeds(old(Contents()), agent, token)
      ensures !accepted ==> Contents() == old(Contents()) && update == None
      ensures accepted ==> update == old(agents)[agent].pending
      ensures accepted ==> agent in agents && agents[agent] == Activated(old(agents)[agent].(status := Online))
      ensures accepted ==>
        Contents() == Step(Step(Step(old(Contents()), Authenticate(agent, token)), UpdateHeartbeat(agent)),
                           Activate(old(agents)[agent].tenant, agent))
    {
      var row := AuthenticateAgent(agent, token);
      if row.None? {
        return false, None;
      }
      UpdateHeartbeatRow(agent);
      update := ActivatePendingAgentCredential(row.value.tenant, agent);
      accepted := true;
    }
  }
}
