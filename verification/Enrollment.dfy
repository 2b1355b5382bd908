/**
 Enrollment tokens over whole runs: every use is counted, the bound binds, and revoked or expired tokens enroll
 no one.
 */
module Enrollment {
  import opened Options
  import opened Credentials

  /** The operation enrolled a new agent with the token. */
  predicate Enrolls(t: Tables, op: Op, token: string) {
    op.Enroll? && op.token == token && op.agent !in t.agents && op.agent in Step(t, op).agents
  }

  /** How many agents were enrolled with the token since it was last created. */
  function EnrolledSince(ops: seq<Op>, token: string): nat {
    if ops == [] then 0
    else
      var before, op := ops[..|ops| - 1], ops[|ops| - 1];
      if op.CreateToken? && op.token == token then 0
      else EnrolledSince(before, token) + if Enrolls(Run(before), op, token) then 1 else 0
  }

  /** Exactly when an enrollment succeeds, and what it leaves. */
  lemma EnrollsIff(t: Tables, token: string, agent: string, agentToken: string, now: int)
    ensures var op := Enroll(token, agent, agentToken, now);
      && (Enrolls(t, op, token) <==>
            && agent !in t.agents && token in t.tokens && !t.tokens[token].revoked
            && (t.tokens[token].expiresAt.None? || now <= t.tokens[token].expiresAt.value)
            && (t.tokens[token].maxUses.None? || t.tokens[token].uses < t.tokens[token].maxUses.value))
      && (Enrolls(t, op, token) ==>
            var after := Step(t, op);
            && after.agents == t.agents[agent := AgentRow(t.tokens[token].tenant, agentToken, 1, None, false, Online)]
            && after.tokens == t.tokens[token := t.tokens[token].(uses := t.tokens[token].uses + 1)])
      && (!Enrolls(t, op, token) ==> Step(t, op) == t)
  {
  }

  lemma StepCountsUse(t: Tables, op: Op, token: string)
    requires token in Step(t, op).tokens && !(op.CreateToken? && op.token == token)
    ensures token in t.tokens && Step(t, op).tokens[token].maxUses == t.tokens[token].maxUses
    ensures Step(t, op).tokens[token].uses == t.tokens[token].uses + if Enrolls(t, op, token) then 1 else 0
    ensures Enrolls(t, op, token) && t.tokens[token].maxUses.Some? ==>
        t.tokens[token].uses < t.tokens[token].maxUses.value
  {
  }

  /**
   Over every run: a token's uses are the agents enrolled with it since it was created, and never exceed its
   bound.
   */
  lemma {:induction false} UsesAreEnrollments(ops: seq<Op>, token: string)
    requires token in Run(ops).tokens
    ensures var grant := Run(ops).tokens[token];
      && grant.uses == EnrolledSince(ops, token)
      && (grant.maxUses.Some? ==> EnrolledSince(ops, token) <= grant.maxUses.value)
  {
    if ops != [] {
      var before, op := ops[..|ops| - 1], ops[|ops| - 1];
      if !(op.CreateToken? && op.token == token) {
        StepCountsUse(Run(before), op, token);
        UsesAreEnrollments(before, token);
      }
    }
  }

  /** A new token starts afresh, and a revocation marks exactly the tenant's own token. */
  lemma TokensAreManaged(t: Tables, token: string, tenant: string, maxUses: Option<nat>, expiresAt: Option<int>)
    ensures Step(t, CreateToken(token, tenant, maxUses, expiresAt))
            == t.(tokens := t.tokens[token := EnrollmentToken(tenant, expiresAt, maxUses, 0, false)])
    ensures token in t.tokens && t.tokens[token].tenant == tenant ==>
              Step(t, RevokeToken(tenant, token)) == t.(tokens := t.tokens[token := t.tokens[token].(revoked := true)])
    ensures token !in t.tokens || t.tokens[token].tenant != tenant ==> Step(t, RevokeToken(tenant, token)) == t
  {
  }

  /** Once revoked, and until it is created anew, a token enrolls no one. */
  lemma {:induction false} RevokedEnrollsNoOne(t: Tables, ops: seq<Op>, token: string, op: Op)
    requires token in t.tokens && t.tokens[token].revoked
    requires forall o | o in ops && o.CreateToken? :: o.token != token
    ensures token in RunFrom(t, ops).tokens && RunFrom(t, ops).tokens[token].revoked
    ensures !Enrolls(RunFrom(t, ops), op, token)
  {
    if ops != [] {
      var before, last := ops[..|ops| - 1], ops[|ops| - 1];
      assert last in ops;
      RevokedEnrollsNoOne(t, before, token, last);
    }
  }

  /** What every operation but an enrollment does to the agents' rows and to the log, spelled out. */
  lemma StepsAreLogged(t: Tables, op: Op)
    ensures var after := Step(t, op);
      match op
      case CreateToken(_, _, _, _) => after.agents == t.agents && after.events == t.events
      case RevokeToken(_, _) => after.agents == t.agents && after.events == t.events
      case Enroll(token, agent, _, _) =>
        after.events == t.events + if Enrolls(t, op, token)
          then [CredentialEvent(t.tokens[token].tenant, agent, Enrolled, 1)] else []
      case Authenticate(agent, token) =>
        && after.agents == t.agents
        && after.events == t.events +
          if agent in t.agents && t.agents[agent].token == token && !t.agents[agent].revoked
              && t.agents[agent].status != RevokedStatus
          then [CredentialEvent(t.agents[agent].tenant, agent, Authenticated, t.agents[agent].version)] else []
      case Revoke(tenant, agent) =>
        if agent in t.agents && t.agents[agent].tenant == tenant
        then
          && after.agents == t.agents[agent := t.agents[agent].(status := RevokedStatus, revoked := true)]
          && after.events == t.events + [CredentialEvent(tenant, agent, Revoked, t.agents[agent].version)]
        else after == t
      case Rotate(tenant, agent, token) =>
        if agent in t.agents && t.agents[agent].tenant == tenant && !t.agents[agent].revoked
            && t.agents[agent].status != RevokedStatus
        then
          var next := t.agents[agent].version + 1;
          && after.agents == t.agents[agent := t.agents[agent].(pending := Some(Update(token, next)))]
          && after.events == t.events + [CredentialEvent(tenant, agent, RotationScheduled, next)]
        else after == t
      case Activate(tenant, agent) =>
        if agent in t.agents && t.agents[agent].tenant == tenant && t.agents[agent].pending.Some?
        then
          var update := t.agents[agent].pending.value;
          && after.agents == t.agents[agent := t.agents[agent].(token := update.token, version := update.version,
              pending := None)]
          && after.events == t.events + [CredentialEvent(tenant, agent, Rotated, update.version)]
        else after == t
      case UpdateHeartbeat(agent) =>
        && after.events == t.events && after.agents.Keys == t.agents.Keys
        && forall a | a in t.agents :: after.agents[a] == if a == agent then t.agents[a].(status := Online)
            else t.agents[a]
      case MarkOffline(ids) =>
        && after.events == t.events && after.agents.Keys == t.agents.Keys
        && forall a | a in t.agents :: after.agents[a] == if a in ids then t.agents[a].(status := Offline)
            else t.agents[a]
  {
  }
}
