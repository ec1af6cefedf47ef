/** The agent registry of `gateway/identity.py`, in memory, with its two indexes. */
module Agents {
  import opened Basics

  datatype Agent = Agent(agentId: Text, kid: Text, registeredAt: real, liveChallengeUrl: Option<Text>)

  /** A registration carries the kid its public key hashes to, None when the key does not parse. */
  datatype Op =
    | Register(agentId: Text, kid: Option<Text>, at: real, url: Option<Text>)
    | Revoke(agentId: Text)

  datatype Index = Index(agents: map<Text, Agent>, byKid: map<Text, Agent>)

  function NewAgent(op: Op): Agent
    requires op.Register? && op.kid.Some?
  {
    Agent(op.agentId, op.kid.value, op.at, op.url)
  }

  /** `self._by_kid.pop(existing.kid, None)` for the agent now under an id. */
  function Unindexed(x: Index, agentId: Text): map<Text, Agent> {
    if agentId in x.agents then x.byKid - {x.agents[agentId].kid} else x.byKid
  }

  predicate Accepted(x: Index, op: Op) {
    if op.Register? then op.kid.Some? else op.agentId in x.agents
  }

  function After(x: Index, op: Op): Index {
    if !Accepted(x, op) then x
    else if op.Register? then
      Index(x.agents[op.agentId := NewAgent(op)], Unindexed(x, op.agentId)[op.kid.value := NewAgent(op)])
    else Index(x.agents - {op.agentId}, Unindexed(x, op.agentId))
  }

  class AgentRegistry {
    var agents: map<Text, Agent>
    var byKid: map<Text, Agent>

    constructor ()
      ensures Now() == Index(map[], map[])
    {
      agents, byKid := map[], map[];
    }

    function Now(): Index
      reads this
    {
      Index(agents, byKid)
    }

    /** `register`, with replace semantics. None is the ValueError of a bad key. */
    method RegisterAgent(op: Op) returns (agent: Option<Agent>)
      requires op.Register?
      modifies this
      ensures Now() == After(old(Now()), op)
      ensures agent == if op.kid.Some? then Some(NewAgent(op)) else None
    {
      if op.kid.None? {
        return None;
      }
      if op.agentId in agents {
        byKid := byKid - {agents[op.agentId].kid};
      }
      var a := NewAgent(op);
      agents := agents[op.agentId := a];
      byKid := byKid[op.kid.value := a];
      return Some(a);
    }

    /** `revoke`. False is the ValueError of an unknown id. */
    method RevokeAgent(agentId: Text) returns (ok: bool)
      modifies this
      ensures Now() == After(old(Now()), Revoke(agentId))
      ensures ok == (agentId in old(agents))
    {
      if agentId !in agents {
        return false;
      }
      var agent := agents[agentId];
      agents := agents - {agentId};
      byKid := byKid - {agent.kid};
      return true;
    }
  }

  function RunAgents(ops: seq<Op>): Index {
    if ops == [] then Index(map[], map[]) else After(RunAgents(ops[..|ops| - 1]), ops[|ops| - 1])
  }

  predicate SoundIndex(x: Index) {
    && (forall id | id in x.agents :: x.agents[id].agentId == id)
    && (forall kid | kid in x.byKid ::
          x.byKid[kid].kid == kid && x.byKid[kid].agentId in x.agents && x.agents[x.byKid[kid].agentId] == x.byKid[kid])
  }

  /** What `get_by_kid` returns is always a registered agent with that kid: no stale entry survives. */
  lemma {:induction false} KidIndexSound(ops: seq<Op>)
    ensures SoundIndex(RunAgents(ops))
    decreases |ops|
  {
    if ops != [] {
      KidIndexSound(ops[..|ops| - 1]);
    }
  }

  /** The operation registers under the kid, or replaces or revokes an agent that has it. */
  predicate Touches(x: Index, op: Op, kid: Text) {
    && Accepted(x, op)
    && ((op.Register? && op.kid.value == kid) || (op.agentId in x.agents && x.agents[op.agentId].kid == kid))
  }

  predicate TouchedAfter(ops: seq<Op>, i: nat, kid: Text) {
    exists k | i < k < |ops| :: Touches(RunAgents(ops[..k]), ops[k], kid)
  }

  predicate IdLeftAlone(ops: seq<Op>, i: nat)
    requires i < |ops|
  {
    forall k | i < k < |ops| :: ops[k].agentId != ops[i].agentId
  }

  /**
   * It may miss a registered agent. Exactly: an agent registered by call `i` and left alone since is
   * found by its kid if and only if no later call registered under that kid, or replaced or revoked
   * another agent that had it.
   */
  lemma {:induction false} KidLookupExact(ops: seq<Op>, i: nat)
    requires i < |ops| && ops[i].Register? && ops[i].kid.Some? && IdLeftAlone(ops, i)
    ensures var x, a := RunAgents(ops), NewAgent(ops[i]);
            && a.agentId in x.agents && x.agents[a.agentId] == a
            && (a.kid in x.byKid && x.byKid[a.kid] == a <==> !TouchedAfter(ops, i, a.kid))
    decreases |ops|
  {
    hide After, Accepted, TouchedAfter;
    var n := |ops| - 1;
    var before := ops[..n];
    var a := NewAgent(ops[i]);
    if i < n {
      assert before[i] == ops[i];
      assert forall k | i < k < n :: before[k] == ops[k];
      KidLookupExact(before, i);
      StepKeepsOthers(RunAgents(before), ops[n], a);
      TouchedAfterNext(ops, i, a.kid);
    } else {
      JustRegistered(RunAgents(before), ops[n]);
      NotTouchedYet(ops, a.kid);
    }
  }

  lemma JustRegistered(x: Index, op: Op)
    requires op.Register? && op.kid.Some?
    ensures var a := NewAgent(op);
            && a.agentId in After(x, op).agents && After(x, op).agents[a.agentId] == a
            && a.kid in After(x, op).byKid && After(x, op).byKid[a.kid] == a
  {
  }

  lemma StepKeepsOthers(x: Index, op: Op, a: Agent)
    requires a.agentId in x.agents && x.agents[a.agentId] == a && op.agentId != a.agentId
    ensures var y := After(x, op);
            && a.agentId in y.agents && y.agents[a.agentId] == a
            && (a.kid in y.byKid && y.byKid[a.kid] == a <==> a.kid in x.byKid && x.byKid[a.kid] == a && !Touches(x, op, a.kid))
  {
  }

  lemma NotTouchedYet(ops: seq<Op>, kid: Text)
    requires ops != []
    ensures !TouchedAfter(ops, |ops| - 1, kid)
  {
  }

  lemma TouchedAfterNext(ops: seq<Op>, i: nat, kid: Text)
    requires i < |ops| - 1
    ensures var n := |ops| - 1;
            TouchedAfter(ops, i, kid) <==> TouchedAfter(ops[..n], i, kid) || Touches(RunAgents(ops[..n]), ops[n], kid)
  {
    hide Touches, RunAgents;
    var n := |ops| - 1;
    var before := ops[..n];
    forall k | i < k < n ensures before[..k] == ops[..k] && before[k] == ops[k] {
    }
    if TouchedAfter(ops, i, kid) {
      var k :| i < k < |ops| && Touches(RunAgents(ops[..k]), ops[k], kid);
      assert k == n || Touches(RunAgents(before[..k]), before[k], kid);
    }
    if TouchedAfter(before, i, kid) {
      var k :| i < k < n && Touches(RunAgents(before[..k]), before[k], kid);
      assert Touches(RunAgents(ops[..k]), ops[k], kid);
    }
  }

  /** A run that goes wrong: two agents share a key, one is revoked, and the other is registered but not found by its kid. */
  lemma SharedKeyLosesAgent(a: Text, b: Text, kid: Text, at: real)
    requires a != b
    ensures var x := RunAgents([Register(a, Some(kid), at, None), Register(b, Some(kid), at, None), Revoke(b)]);
            && a in x.agents && x.agents[a].kid == kid && kid !in x.byKid
  {
    var ops := [Register(a, Some(kid), at, None), Register(b, Some(kid), at, None), Revoke(b)];
    assert ops[..2][..1][..0] == [] && ops[..2][..1][0] == ops[0] && ops[..2][1] == ops[1];
    assert RunAgents(ops[..2][..1][..0]) == Index(map[], map[]);
    assert RunAgents(ops[..2][..1]) == After(Index(map[], map[]), ops[0]);
    assert RunAgents(ops[..2]) == After(RunAgents(ops[..2][..1]), ops[1]);
  }

  /** The last accepted call on an id: None when there is none or it is a revocation. */
  predicate LastRegistered(ops: seq<Op>, id: Text, i: nat)
    requires i < |ops|
  {
    && ops[i].Register? && ops[i].agentId == id && ops[i].kid.Some?
    && forall k | i < k < |ops| && ops[k].agentId == id :: ops[k].Register? && ops[k].kid.None?
  }

  /**
   * Who is registered after a run: exactly the ids whose last call, failed registrations aside, is a
   * registration, each with the key, time and URL that it gave.
   */
  lemma {:induction false} RegisteredExactly(ops: seq<Op>, id: Text)
    ensures id in RunAgents(ops).agents <==> exists i | 0 <= i < |ops| :: LastRegistered(ops, id, i)
    ensures forall i | 0 <= i < |ops| && LastRegistered(ops, id, i) ::
              id in RunAgents(ops).agents &&
              RunAgents(ops).agents[id] == Agent(id, ops[i].kid.value, ops[i].at, ops[i].url)
    decreases |ops|
  {
    if ops != [] {
      var n := |ops| - 1;
      var before, op := ops[..n], ops[n];
      RegisteredExactly(before, id);
      if op.agentId != id || (op.Register? && op.kid.None?) {
        forall i | 0 <= i < n ensures LastRegistered(ops, id, i) <==> LastRegistered(before, id, i) {
          SameLast(ops, id, i);
        }
      } else if op.Register? {
        assert LastRegistered(ops, id, n);
      }
    }
  }

  lemma SameLast(ops: seq<Op>, id: Text, i: nat)
    requires i < |ops| - 1
    requires ops[|ops| - 1].agentId == id ==> ops[|ops| - 1].Register? && ops[|ops| - 1].kid.None?
    ensures LastRegistered(ops, id, i) <==> LastRegistered(ops[..|ops| - 1], id, i)
  {
    var before := ops[..|ops| - 1];
    assert forall k | 0 <= k < |before| :: before[k] == ops[k];
    if LastRegistered(before, id, i) {
      forall k | i < k < |ops| && ops[k].agentId == id ensures ops[k].Register? && ops[k].kid.None? {
        assert k == |ops| - 1 || before[k] == ops[k];
      }
    }
  }
}
