/** `simulate_policy` of `gateway/api.py`: stored decisions replayed, dry, against a proposed policy. */
module Simulation {
  import opened Basics
  import opened Policy

  /** What is read of a stored receipt: its decision, and the request its metadata records ("" when missing). */
  datatype Record = Record(decision: Option<Text>, agentId: Text, action: Text, resource: Text)

  predicate Replayable(r: Record) {
    r.agentId != [] && r.action != [] && r.resource != []
  }

  /** `all_receipts[-lookback:]` for a positive lookback. */
  function LastOf<T>(xs: seq<T>, lookback: nat): seq<T> {
    if lookback <= |xs| then xs[|xs| - lookback..] else xs
  }

  datatype Flip = Flip(record: Record, simulated: EvaluationResult)

  /** The rates are percentages before they are printed with one decimal; None prints as "N/A". */
  datatype Summary = Summary(
    total: nat, same: int, flipped: nat, wouldFlip: seq<Flip>, hasMoreFlips: bool, approveToDeny: nat, denyToApprove: nat,
    originalRate: Option<real>, simulatedRate: Option<real>, affected: set<Text>, unaffected: set<Text>)

  const MAX_SHOWN: nat := 100

  /** `flips[:100]` */
  function Shown(flips: seq<Flip>): seq<Flip> {
    if |flips| <= MAX_SHOWN then flips else flips[..MAX_SHOWN]
  }

  function Rate(approvals: int, total: nat): Option<real> {
    if total == 0 then None else Some(approvals as real / total as real * 100.0)
  }

  function DryCall(r: Record, clock: seq<real>): Call {
    Call(r.agentId, r.action, r.resource, clock, true)
  }

  /** The candidate's answer to one record on an engine that has counted nothing. */
  function Simulated(lower: Lower, rules: seq<Rule>, r: Record): EvaluationResult {
    Evaluation(lower, rules, map[], DryCall(r, seq(|rules|, _ => 0.0)))
  }

  // ----- dry runs leave every counter empty -----

  predicate NothingCounted(counters: Counters) {
    forall k | k in counters :: counters[k] == []
  }

  lemma {:induction false} DryCallCountsNothing(rules: seq<Rule>, counters: Counters, call: Call, n: nat)
    requires NothingCounted(counters) && call.dryRun && n <= |rules| == |call.clock|
    ensures NothingCounted(CountersAfter(rules, counters, call, n))
    decreases n
  {
    hide KeyOf;
    if n > 0 {
      DryCallCountsNothing(rules, counters, call, n - 1);
    }
  }

  /** On an engine that has counted nothing, a limiter lets a call pass exactly when its maximum is positive, at any time. */
  lemma EmptyLimiterIff(rules: seq<Rule>, counters: Counters, call: Call, j: nat)
    requires NothingCounted(counters) && j < |rules| == |call.clock|
    ensures RateOk(rules, counters, call, j) <==> (rules[j].config.RateLimit? ==> rules[j].Max() > 0)
  {
    hide KeyOf;
  }

  lemma {:induction false} DryReasonsAlike(lower: Lower, rules: seq<Rule>, c: Counters, d: Counters, x: Call, y: Call, n: nat)
    requires NothingCounted(c) && NothingCounted(d) && x.dryRun && y.dryRun && n <= |rules| == |x.clock| == |y.clock|
    requires x.agentId == y.agentId && x.action == y.action && x.resource == y.resource
    ensures ReasonsAfter(lower, rules, c, x, n) == ReasonsAfter(lower, rules, d, y, n)
    decreases n
  {
    hide RateOk, CountersAfter, NothingCounted, ActionAllowed, ResourceInScope, Lit;
    if n > 0 {
      DryReasonsAlike(lower, rules, c, d, x, y, n - 1);
      DryCallCountsNothing(rules, c, x, n - 1);
      DryCallCountsNothing(rules, d, y, n - 1);
      EmptyLimiterIff(rules, CountersAfter(rules, c, x, n - 1), x, n - 1);
      EmptyLimiterIff(rules, CountersAfter(rules, d, y, n - 1), y, n - 1);
    }
  }

  /**
   * A simulated answer does not depend on when, nor after how many others, it is asked: replayed dry,
   * no rate limit ever bites. The candidate is judged on allowlists and scopes, and on limits of zero.
   */
  lemma SimulationIgnoresRates(lower: Lower, rules: seq<Rule>, counters: Counters, r: Record, clock: seq<real>)
    requires NothingCounted(counters) && |clock| == |rules|
    ensures Evaluation(lower, rules, counters, DryCall(r, clock)) == Simulated(lower, rules, r)
    ensures Simulated(lower, rules, r).reasonCodes == [] <==>
            forall j | 0 <= j < |rules| :: PassesUncounted(lower, rules[j], r)
  {
    hide ReasonsAfter, PassesUncounted;
    DryReasonsAlike(lower, rules, counters, map[], DryCall(r, clock), DryCall(r, seq(|rules|, _ => 0.0)), |rules|);
    UncountedIff(lower, rules, DryCall(r, seq(|rules|, _ => 0.0)), r, |rules|);
  }

  predicate PassesUncounted(lower: Lower, rule: Rule, r: Record) {
    match rule.config
    case Allowlist(allowed) => ActionAllowed(lower, allowed, r.action)
    case ResourceScope(allowed, denied) => ResourceInScope(lower, allowed, denied, r.resource)
    case RateLimit(_, _) => rule.Max() > 0
    case UnknownType => true
  }

  lemma {:induction false} UncountedIff(lower: Lower, rules: seq<Rule>, call: Call, r: Record, n: nat)
    requires n <= |rules| == |call.clock| && call.dryRun && call.action == r.action && call.resource == r.resource
    ensures ReasonsAfter(lower, rules, map[], call, n) == [] <==> forall j | 0 <= j < n :: PassesUncounted(lower, rules[j], r)
    decreases n
  {
    hide RateOk, CountersAfter, PassesUncounted, DenyCode;
    if n > 0 {
      UncountedIff(lower, rules, call, r, n - 1);
      DryCallCountsNothing(rules, map[], call, n - 1);
      UncountedOne(lower, rules, CountersAfter(rules, map[], call, n - 1), call, r, n - 1);
    }
  }

  lemma UncountedOne(lower: Lower, rules: seq<Rule>, counters: Counters, call: Call, r: Record, j: nat)
    requires NothingCounted(counters) && j < |rules| == |call.clock| && call.action == r.action && call.resource == r.resource
    ensures DenyCode(lower, rules[j], call, RateOk(rules, counters, call, j)) == [] <==> PassesUncounted(lower, rules[j], r)
  {
    hide RateOk, ActionAllowed, ResourceInScope, Lit;
    EmptyLimiterIff(rules, counters, call, j);
  }

  // ----- the replay -----

  predicate Flips(lower: Lower, rules: seq<Rule>, r: Record) {
    Replayable(r) && Some(Simulated(lower, rules, r).decision) != r.decision
  }

  function FlipsOf(lower: Lower, rules: seq<Rule>, rs: seq<Record>): seq<Flip> {
    if rs == [] then []
    else
      FlipsOf(lower, rules, rs[..|rs| - 1]) +
      if Flips(lower, rules, rs[|rs| - 1]) then [Flip(rs[|rs| - 1], Simulated(lower, rules, rs[|rs| - 1]))] else []
  }

  /** The records of one decision whose simulated decision is another one. */
  function Changed(lower: Lower, rules: seq<Rule>, rs: seq<Record>, original: Text, simulated: Text): nat {
    if rs == [] then 0
    else
      var r := rs[|rs| - 1];
      Changed(lower, rules, rs[..|rs| - 1], original, simulated) +
      if Flips(lower, rules, r) && r.decision == Some(original) && Simulated(lower, rules, r).decision == simulated then 1 else 0
  }

  function Agents(lower: Lower, rules: seq<Rule>, rs: seq<Record>, flipped: bool): set<Text> {
    set i | 0 <= i < |rs| && Replayable(rs[i]) && Flips(lower, rules, rs[i]) == flipped :: rs[i].agentId
  }

  function Approvals(rs: seq<Record>): nat {
    if rs == [] then 0
    else Approvals(rs[..|rs| - 1]) + if rs[|rs| - 1].decision == Some(Lit("approve")) then 1 else 0
  }

  /** The endpoint, from the parsed rules on; `clocks` are the engine's readings, one list per record. */
  method SimulatePolicy(lower: Lower, rules: seq<Rule>, history: seq<Record>, lookback: nat, clocks: seq<seq<real>>) returns (s: Summary)
    requires lookback >= 1 && |clocks| == |LastOf(history, lookback)|
    requires forall i | 0 <= i < |clocks| :: |clocks[i]| == |rules|
    ensures var rs := LastOf(history, lookback);
            var flips := FlipsOf(lower, rules, rs);
            && s.total == |rs| && s.flipped == |flips| && s.same == |rs| - |flips|
            && s.wouldFlip == Shown(flips) && (s.hasMoreFlips <==> |flips| > MAX_SHOWN)
            && s.approveToDeny == Changed(lower, rules, rs, Lit("approve"), Lit("deny"))
            && s.denyToApprove == Changed(lower, rules, rs, Lit("deny"), Lit("approve"))
            && s.affected == Agents(lower, rules, rs, true)
            && s.unaffected == Agents(lower, rules, rs, false) - s.affected
            && s.originalRate == Rate(Approvals(rs), |rs|)
            && s.simulatedRate == Rate(FinalApprovals(lower, rules, rs) - Unaccounted(lower, rules, rs), |rs|)
  {
    hide Simulated, Lit, CountersAfter, Evaluation, FlipsOf, Changed, Approvals, Agents, Rate, Shown, FinalApprovals, Unaccounted, PassesUncounted, NothingCounted;
    NothingAtFirst(lower, rules);
    var candidate := new PolicyEngine(lower, rules);
    var receipts := LastOf(history, lookback);
    var flips: seq<Flip>, affected: set<Text>, unaffected: set<Text> := [], {}, {};
    var approveToDeny, denyToApprove, originalApprovals := 0, 0, 0;
    DenyIsNotApprove();
    for i := 0 to |receipts|
      invariant candidate.rules == rules && candidate.lower == lower && NothingCounted(candidate.rateCounters)
      invariant fresh(candidate)
      invariant flips == FlipsOf(lower, rules, receipts[..i])
      invariant approveToDeny == Changed(lower, rules, receipts[..i], Lit("approve"), Lit("deny"))
      invariant denyToApprove == Changed(lower, rules, receipts[..i], Lit("deny"), Lit("approve"))
      invariant affected == Agents(lower, rules, receipts[..i], true) && unaffected == Agents(lower, rules, receipts[..i], false)
      invariant originalApprovals == Approvals(receipts[..i])
    {
      var r := receipts[i];
      AgentsAppend(lower, rules, receipts, i);
      TallyAppend(lower, rules, receipts, i);
      if r.decision == Some(Lit("approve")) {
        originalApprovals := originalApprovals + 1;
      }
      if Replayable(r) {
        DryCallCountsNothing(rules, candidate.rateCounters, DryCall(r, clocks[i]), |rules|);
        SimulationIgnoresRates(lower, rules, candidate.rateCounters, r, clocks[i]);
        var result := candidate.Evaluate(DryCall(r, clocks[i]));
        if Some(result.decision) != r.decision {
          flips := flips + [Flip(r, result)];
          affected := affected + {r.agentId};
          if r.decision == Some(Lit("approve")) && result.decision == Lit("deny") {
            approveToDeny := approveToDeny + 1;
          } else if r.decision == Some(Lit("deny")) && result.decision == Lit("approve") {
            denyToApprove := denyToApprove + 1;
          }
        } else {
          unaffected := unaffected + {r.agentId};
        }
      }
    }
    assert receipts[..|receipts|] == receipts;
    unaffected := unaffected - affected;
    SimulatedApprovalsCount(lower, rules, receipts);
    var simulatedApprovals := originalApprovals - approveToDeny + denyToApprove;
    s := Summary(|receipts|, |receipts| - |flips|, |flips|, Shown(flips), |flips| > MAX_SHOWN, approveToDeny, denyToApprove,
                 Rate(originalApprovals, |receipts|), Rate(simulatedApprovals, |receipts|), affected, unaffected);
  }

  lemma TallyAppend(lower: Lower, rules: seq<Rule>, rs: seq<Record>, i: nat)
    requires i < |rs|
    ensures var r := rs[i];
            && FlipsOf(lower, rules, rs[..i + 1]) ==
               FlipsOf(lower, rules, rs[..i]) + (if Flips(lower, rules, r) then [Flip(r, Simulated(lower, rules, r))] else [])
            && Approvals(rs[..i + 1]) == Approvals(rs[..i]) + (if r.decision == Some(Lit("approve")) then 1 else 0)
            && forall x, y :: Changed(lower, rules, rs[..i + 1], x, y) ==
                 Changed(lower, rules, rs[..i], x, y) +
                 (if Flips(lower, rules, r) && r.decision == Some(x) && Simulated(lower, rules, r).decision == y then 1 else 0)
  {
    hide Flips, Simulated, Lit;
    assert rs[..i + 1][..i] == rs[..i];
  }

  lemma NothingAtFirst(lower: Lower, rules: seq<Rule>)
    ensures NothingCounted(map[])
    ensures FlipsOf(lower, rules, []) == [] && Approvals([]) == 0 && forall x, y :: Changed(lower, rules, [], x, y) == 0
    ensures Agents(lower, rules, [], true) == Agents(lower, rules, [], false) == {}
  {
  }

  lemma AgentsAppend(lower: Lower, rules: seq<Rule>, rs: seq<Record>, i: nat)
    requires i < |rs|
    ensures forall flipped :: Agents(lower, rules, rs[..i + 1], flipped) ==
                              Agents(lower, rules, rs[..i], flipped) +
                              if Replayable(rs[i]) && Flips(lower, rules, rs[i]) == flipped then {rs[i].agentId} else {}
  {
    hide Flips, Replayable;
    var all, before := rs[..i + 1], rs[..i];
    forall flipped ensures Agents(lower, rules, all, flipped) ==
        Agents(lower, rules, before, flipped) + if Replayable(rs[i]) && Flips(lower, rules, rs[i]) == flipped then {rs[i].agentId} else {}
    {
      forall k | 0 <= k < i ensures all[k] == before[k] {
      }
      assert all[i] == rs[i];
    }
  }

  // ----- what the summary says -----

  /** The decision a record would end up with: the simulated one, or its own when it cannot be replayed. */
  function FinalDecision(lower: Lower, rules: seq<Rule>, r: Record): Option<Text> {
    if Replayable(r) then Some(Simulated(lower, rules, r).decision) else r.decision
  }

  function FinalApprovals(lower: Lower, rules: seq<Rule>, rs: seq<Record>): nat {
    if rs == [] then 0
    else
      FinalApprovals(lower, rules, rs[..|rs| - 1]) +
      if FinalDecision(lower, rules, rs[|rs| - 1]) == Some(Lit("approve")) then 1 else 0
  }

  /** Replayed records that approve without having been approved or denied before. */
  function Unaccounted(lower: Lower, rules: seq<Rule>, rs: seq<Record>): nat {
    if rs == [] then 0
    else
      var r := rs[|rs| - 1];
      Unaccounted(lower, rules, rs[..|rs| - 1]) +
      if Replayable(r) && Simulated(lower, rules, r).decision == Lit("approve") &&
         r.decision != Some(Lit("approve")) && r.decision != Some(Lit("deny")) then 1 else 0
  }

  lemma SimulatedDecides(lower: Lower, rules: seq<Rule>, r: Record)
    ensures Simulated(lower, rules, r).decision == Lit("approve") || Simulated(lower, rules, r).decision == Lit("deny")
  {
    hide Lit, ReasonsAfter;
  }

  /**
   * The simulated approvals are the records that would end up approved, short by exactly those that
   * approve from a decision that is neither "approve" nor "deny"; with ordinary receipts there are none.
   */
  lemma {:induction false} SimulatedApprovalsCount(lower: Lower, rules: seq<Rule>, rs: seq<Record>)
    ensures Approvals(rs) - Changed(lower, rules, rs, Lit("approve"), Lit("deny")) + Changed(lower, rules, rs, Lit("deny"), Lit("approve"))
            == FinalApprovals(lower, rules, rs) - Unaccounted(lower, rules, rs)
    decreases |rs|
  {
    hide Simulated, Lit;
    DenyIsNotApprove();
    if rs != [] {
      SimulatedApprovalsCount(lower, rules, rs[..|rs| - 1]);
      SimulatedDecides(lower, rules, rs[|rs| - 1]);
    }
  }

  /** Every agent with a replayed record is listed once: as affected when any of its decisions flips, else as unaffected. */
  lemma AgentsPartitioned(lower: Lower, rules: seq<Rule>, rs: seq<Record>, agentId: Text)
    ensures var affected := Agents(lower, rules, rs, true);
            var unaffected := Agents(lower, rules, rs, false) - affected;
            && (agentId in affected <==> exists i | 0 <= i < |rs| :: Flips(lower, rules, rs[i]) && rs[i].agentId == agentId)
            && (agentId in affected + unaffected <==> exists i | 0 <= i < |rs| :: Replayable(rs[i]) && rs[i].agentId == agentId)
            && agentId !in affected * unaffected
  {
    hide Simulated;
  }

  /** A record is among the flips exactly when it can be replayed and the candidate decides otherwise than it states. */
  lemma {:induction false} FlipsExactly(lower: Lower, rules: seq<Rule>, rs: seq<Record>, f: Flip)
    ensures f in FlipsOf(lower, rules, rs) <==>
            && f.record in rs && f.simulated == Simulated(lower, rules, f.record)
            && f.record.agentId != [] && f.record.action != [] && f.record.resource != []
            && f.record.decision != Some(f.simulated.decision)
    decreases |rs|
  {
    hide Simulated;
    if rs != [] {
      var n := |rs| - 1;
      FlipsExactly(lower, rules, rs[..n], f);
      assert rs == rs[..n] + [rs[n]];
    }
  }

  /** The last records are replayed, as many as asked for or as there are; of the flips the first hundred are shown. */
  lemma ReplayedAndShown(rs: seq<Record>, lookback: nat, flips: seq<Flip>)
    ensures |LastOf(rs, lookback)| == (if lookback < |rs| then lookback else |rs|)
    ensures forall i | 0 <= i < |LastOf(rs, lookback)| :: LastOf(rs, lookback)[i] == rs[|rs| - |LastOf(rs, lookback)| + i]
    ensures |Shown(flips)| == (if 100 < |flips| then 100 else |flips|)
    ensures forall i | 0 <= i < |Shown(flips)| :: Shown(flips)[i] == flips[i]
  {
  }

  /** A rate is the share of the approvals in percent. */
  lemma RateIsShare(approvals: int, total: nat)
    ensures Rate(approvals, total).None? <==> total == 0
    ensures total > 0 ==> Rate(approvals, total).value * total as real == 100.0 * approvals as real
  {
    if total > 0 {
      assert approvals as real / total as real * total as real == approvals as real;
    }
  }
}
