/** `gateway/policy.py`: the engine that evaluates allowlists, resource scopes and rate limits. */
module Policy {
  import opened Basics
  import opened SlidingWindow

  /** A rule's typed config; an absent limit takes the default of the code. */
  datatype Config =
    | Allowlist(allowedActions: seq<Text>)
    | ResourceScope(allowedResources: seq<Text>, deniedResources: seq<Text>)
    | RateLimit(maxActions: Option<int>, windowSeconds: Option<real>)
    | UnknownType

  datatype Rule = Rule(id: Text, config: Config)
  {
    function Max(): int
      requires config.RateLimit?
    {
      if config.maxActions.Some? then config.maxActions.value else 100
    }

    function Window(): real
      requires config.RateLimit?
    {
      if config.windowSeconds.Some? then config.windowSeconds.value else 60.0
    }
  }

  /** One call of `evaluate`, with the reading of the clock at each rule of the policy. */
  datatype Call = Call(agentId: Text, action: Text, resource: Text, clock: seq<real>, dryRun: bool)

  type Lower = Text -> Text

  type Counters = map<Text, seq<real>>

  /** `f"{agent_id}:{rule.id}"` */
  function KeyOf(agentId: Text, ruleId: Text): Text {
    agentId + [0x3A] + ruleId
  }

  function Get(counters: Counters, key: Text): seq<real> {
    if key in counters then counters[key] else []
  }

  /** `_check_allowlist` */
  predicate ActionAllowed(lower: Lower, allowed: seq<Text>, action: Text) {
    allowed == [] || exists i | 0 <= i < |allowed| :: lower(allowed[i]) == lower(action)
  }

  /** `_check_resource_scope`: a denied resource wins over an allowed one. */
  predicate ResourceInScope(lower: Lower, allowed: seq<Text>, denied: seq<Text>, resource: Text) {
    && !(exists i | 0 <= i < |denied| :: Contains(lower(resource), lower(denied[i])))
    && (allowed == [] || exists i | 0 <= i < |allowed| :: Contains(lower(resource), lower(allowed[i])))
  }

  // ----- what a call does -----

  /** The deny reason of one rule, if it denies; `rateOk` is the answer of the rate limiter. */
  function DenyCode(lower: Lower, rule: Rule, call: Call, rateOk: bool): seq<Text> {
    match rule.config
    case Allowlist(allowed) => if ActionAllowed(lower, allowed, call.action) then [] else [Lit("ACTION_NOT_ALLOWED:") + rule.id]
    case ResourceScope(allowed, denied) =>
      if ResourceInScope(lower, allowed, denied, call.resource) then [] else [Lit("RESOURCE_OUT_OF_SCOPE:") + rule.id]
    case RateLimit(_, _) => if rateOk then [] else [Lit("RATE_LIMIT_EXCEEDED:") + rule.id]
    case UnknownType => []
  }

  /** Whether the limiter of rule `j` admits the call. */
  predicate RateOk(rules: seq<Rule>, counters: Counters, call: Call, j: nat)
    requires j < |rules| == |call.clock|
  {
    rules[j].config.RateLimit? ==>
      Admits(Get(counters, KeyOf(call.agentId, rules[j].id)), rules[j].Max(), rules[j].Window(), call.clock[j])
  }

  /** The counters after the first `n` rules have been looked at. All rules are, even after one has denied. */
  function CountersAfter(rules: seq<Rule>, counters: Counters, call: Call, n: nat): Counters
    requires n <= |rules| == |call.clock|
  {
    if n == 0 then counters
    else
      var before := CountersAfter(rules, counters, call, n - 1);
      var rule := rules[n - 1];
      if !rule.config.RateLimit? then before
      else
        var key := KeyOf(call.agentId, rule.id);
        before[key := Use(Get(before, key), rule.Max(), rule.Window(), Op(call.clock[n - 1], call.dryRun))]
  }

  /** The reasons of the first `n` rules, each limiter asked in the state the rules before it left. */
  function ReasonsAfter(lower: Lower, rules: seq<Rule>, counters: Counters, call: Call, n: nat): seq<Text>
    requires n <= |rules| == |call.clock|
  {
    if n == 0 then []
    else
      ReasonsAfter(lower, rules, counters, call, n - 1) +
      DenyCode(lower, rules[n - 1], call, RateOk(rules, CountersAfter(rules, counters, call, n - 1), call, n - 1))
  }

  datatype EvaluationResult = EvaluationResult(decision: Text, reasonCodes: seq<Text>)

  function ResultOf(reasons: seq<Text>): EvaluationResult {
    EvaluationResult(if reasons == [] then Lit("approve") else Lit("deny"), reasons)
  }

  function Evaluation(lower: Lower, rules: seq<Rule>, counters: Counters, call: Call): EvaluationResult
    requires |rules| == |call.clock|
  {
    ResultOf(ReasonsAfter(lower, rules, counters, call, |rules|))
  }

  lemma DenyIsNotApprove()
    ensures Lit("deny") != Lit("approve")
  {
    assert |Lit("deny")| == 4 && |Lit("approve")| == 7;
  }

  /** `PolicyEngine` */
  class PolicyEngine {
    const lower: Lower
    const rules: seq<Rule>
    var rateCounters: Counters

    constructor (lower: Lower, rules: seq<Rule>)
      ensures this.lower == lower && this.rules == rules && rateCounters == map[]
    {
      this.lower := lower;
      this.rules := rules;
      rateCounters := map[];
    }

    /** `evaluate`. The clock is read once at each rate-limit rule, so the call carries one reading per rule. */
    method Evaluate(call: Call) returns (result: EvaluationResult)
      requires |call.clock| == |rules|
      modifies this
      ensures rateCounters == CountersAfter(rules, old(rateCounters), call, |rules|)
      ensures result == Evaluation(lower, rules, old(rateCounters), call)
    {
      hide ActionAllowed, ResourceInScope, Use, Admits, KeyOf;
      var denyReasons := [];
      for n := 0 to |rules|
        invariant rateCounters == CountersAfter(rules, old(rateCounters), call, n)
        invariant denyReasons == ReasonsAfter(lower, rules, old(rateCounters), call, n)
      {
        var rule := rules[n];
        match rule.config {
          case Allowlist(allowed) =>
            if !ActionAllowed(lower, allowed, call.action) {
              denyReasons := denyReasons + [Lit("ACTION_NOT_ALLOWED:") + rule.id];
            }
          case ResourceScope(allowed, denied) =>
            if !ResourceInScope(lower, allowed, denied, call.resource) {
              denyReasons := denyReasons + [Lit("RESOURCE_OUT_OF_SCOPE:") + rule.id];
            }
          case RateLimit(_, _) =>
            var ok := CheckRateLimit(rule, call.agentId, call.clock[n], call.dryRun);
            if !ok {
              denyReasons := denyReasons + [Lit("RATE_LIMIT_EXCEEDED:") + rule.id];
            }
          case UnknownType =>
        }
      }
      result := EvaluationResult(if denyReasons != [] then Lit("deny") else Lit("approve"), denyReasons);
    }

    /** `_check_rate_limit` */
    method CheckRateLimit(rule: Rule, agentId: Text, now: real, dryRun: bool) returns (ok: bool)
      requires rule.config.RateLimit?
      modifies this
      ensures var key := KeyOf(agentId, rule.id);
              && ok == Admits(Get(old(rateCounters), key), rule.Max(), rule.Window(), now)
              && rateCounters == old(rateCounters)[key := Use(Get(old(rateCounters), key), rule.Max(), rule.Window(), Op(now, dryRun))]
    {
      var maxActions := rule.Max();
      var key := KeyOf(agentId, rule.id);
      var cutoff := now - rule.Window();
      if key !in rateCounters {
        rateCounters := rateCounters[key := []];
      }
      rateCounters := rateCounters[key := After(rateCounters[key], cutoff)];
      if |rateCounters[key]| >= maxActions {
        return false;
      }
      if !dryRun {
        rateCounters := rateCounters[key := rateCounters[key] + [now]];
      }
      return true;
    }
  }

  // ----- what a rule forbids, said of the texts themselves -----

  predicate AnyFoundIn(lower: Lower, needles: seq<Text>, haystack: Text) {
    exists k, i | 0 <= k < |needles| && 0 <= i <= |lower(haystack)| - |lower(needles[k])| ::
      FoundAt(lower(haystack), lower(needles[k]), i)
  }

  /**
   * The call offends rule `j`: an allowlist without its action; a scope with a denied text somewhere in its
   * resource, or with allowed texts of which none is; a limiter that does not admit it.
   */
  predicate Offends(lower: Lower, rules: seq<Rule>, counters: Counters, call: Call, j: nat)
    requires j < |rules| == |call.clock|
  {
    match rules[j].config
    case Allowlist(allowed) => allowed != [] && forall k | 0 <= k < |allowed| :: lower(allowed[k]) != lower(call.action)
    case ResourceScope(allowed, denied) =>
      AnyFoundIn(lower, denied, call.resource) || (allowed != [] && !AnyFoundIn(lower, allowed, call.resource))
    case RateLimit(_, _) => !RateOk(rules, CountersAfter(rules, counters, call, j), call, j)
    case UnknownType => false
  }

  /** The reason a rule gives. */
  function Reason(rule: Rule): Text {
    (if rule.config.Allowlist? then Lit("ACTION_NOT_ALLOWED")
     else if rule.config.ResourceScope? then Lit("RESOURCE_OUT_OF_SCOPE")
     else Lit("RATE_LIMIT_EXCEEDED")) + [':' as int] + rule.id
  }

  lemma ScopeIsFound(lower: Lower, allowed: seq<Text>, denied: seq<Text>, resource: Text)
    ensures ResourceInScope(lower, allowed, denied, resource) <==>
            !AnyFoundIn(lower, denied, resource) && (allowed == [] || AnyFoundIn(lower, allowed, resource))
  {
    ContainedIsFound(lower, allowed, resource);
    ContainedIsFound(lower, denied, resource);
  }

  lemma ContainedIsFound(lower: Lower, needles: seq<Text>, haystack: Text)
    ensures (exists k | 0 <= k < |needles| :: Contains(lower(haystack), lower(needles[k]))) <==> AnyFoundIn(lower, needles, haystack)
  {
    if AnyFoundIn(lower, needles, haystack) {
      var k, i :| 0 <= k < |needles| && 0 <= i <= |lower(haystack)| - |lower(needles[k])| && FoundAt(lower(haystack), lower(needles[k]), i);
      assert Contains(lower(haystack), lower(needles[k]));
    }
    if k :| 0 <= k < |needles| && Contains(lower(haystack), lower(needles[k])) {
      var i :| 0 <= i <= |lower(haystack)| - |lower(needles[k])| && FoundAt(lower(haystack), lower(needles[k]), i);
    }
  }

  lemma CodeIsReason(lower: Lower, rules: seq<Rule>, counters: Counters, call: Call, j: nat)
    requires j < |rules| == |call.clock|
    ensures DenyCode(lower, rules[j], call, RateOk(rules, CountersAfter(rules, counters, call, j), call, j)) ==
            if Offends(lower, rules, counters, call, j) then [Reason(rules[j])] else []
  {
    hide ResourceInScope, RateOk, CountersAfter, AnyFoundIn, Lit;
    ReasonTexts(rules[j]);
    match rules[j].config
    case ResourceScope(allowed, denied) => ScopeIsFound(lower, allowed, denied, call.resource);
    case _ =>
  }

  lemma ReasonTexts(rule: Rule)
    ensures !rule.config.UnknownType? ==>
              Reason(rule) == (if rule.config.Allowlist? then Lit("ACTION_NOT_ALLOWED:")
                               else if rule.config.ResourceScope? then Lit("RESOURCE_OUT_OF_SCOPE:")
                               else Lit("RATE_LIMIT_EXCEEDED:")) + rule.id
  {
    assert Lit("ACTION_NOT_ALLOWED:") == Lit("ACTION_NOT_ALLOWED") + [0x3A];
    assert Lit("RESOURCE_OUT_OF_SCOPE:") == Lit("RESOURCE_OUT_OF_SCOPE") + [0x3A];
    assert Lit("RATE_LIMIT_EXCEEDED:") == Lit("RATE_LIMIT_EXCEEDED") + [0x3A];
  }

  /** The reasons of the offended rules, in the order of the policy. */
  function Offences(lower: Lower, rules: seq<Rule>, counters: Counters, call: Call, n: nat): seq<Text>
    requires n <= |rules| == |call.clock|
  {
    if n == 0 then []
    else Offences(lower, rules, counters, call, n - 1) +
         if Offends(lower, rules, counters, call, n - 1) then [Reason(rules[n - 1])] else []
  }

  lemma {:induction false} ReasonsAreOffences(lower: Lower, rules: seq<Rule>, counters: Counters, call: Call, n: nat)
    requires n <= |rules| == |call.clock|
    ensures ReasonsAfter(lower, rules, counters, call, n) == Offences(lower, rules, counters, call, n)
    decreases n
  {
    hide DenyCode, Offends, Reason, RateOk, CountersAfter;
    if n > 0 {
      ReasonsAreOffences(lower, rules, counters, call, n - 1);
      CodeIsReason(lower, rules, counters, call, n - 1);
    }
  }

  lemma {:induction false} NoOffencesIff(lower: Lower, rules: seq<Rule>, counters: Counters, call: Call, n: nat)
    requires n <= |rules| == |call.clock|
    ensures Offences(lower, rules, counters, call, n) == [] <==> forall j | 0 <= j < n :: !Offends(lower, rules, counters, call, j)
    decreases n
  {
    hide Offends, Reason;
    if n > 0 {
      NoOffencesIff(lower, rules, counters, call, n - 1);
    }
  }

  /**
   * What every answer rests on, whatever the counters: the reasons are those of the offended rules, each
   * once and in order, and the call is approved exactly when it offends none.
   */
  lemma AnswerIsOffences(lower: Lower, rules: seq<Rule>, counters: Counters, call: Call)
    requires |rules| == |call.clock|
    ensures var answer := Evaluation(lower, rules, counters, call);
            && answer.reasonCodes == Offences(lower, rules, counters, call, |rules|)
            && (if forall j | 0 <= j < |rules| :: !Offends(lower, rules, counters, call, j)
                then answer.decision == Lit("approve") else answer.decision == Lit("deny"))
  {
    hide Offends, Lit, ReasonsAfter, Offences;
    ReasonsAreOffences(lower, rules, counters, call, |rules|);
    NoOffencesIff(lower, rules, counters, call, |rules|);
  }

  lemma {:induction false} OffenceGiven(lower: Lower, rules: seq<Rule>, counters: Counters, call: Call, n: nat, j: nat)
    requires j < n <= |rules| == |call.clock| && Offends(lower, rules, counters, call, j)
    ensures Reason(rules[j]) in Offences(lower, rules, counters, call, n)
    decreases n
  {
    hide Offends, Reason;
    if j < n - 1 {
      OffenceGiven(lower, rules, counters, call, n - 1, j);
    }
  }

  /** A denied text at any place in the resource, in any rule of the policy, denies the call and gives that rule's reason. */
  lemma DeniedResourceIsDenied(lower: Lower, rules: seq<Rule>, counters: Counters, call: Call, j: nat, k: nat, i: nat)
    requires j < |rules| == |call.clock| && rules[j].config.ResourceScope? && k < |rules[j].config.deniedResources|
    requires var denied := lower(rules[j].config.deniedResources[k]);
             i + |denied| <= |lower(call.resource)| && lower(call.resource)[i..i + |denied|] == denied
    ensures Evaluation(lower, rules, counters, call).decision == Lit("deny")
    ensures Lit("RESOURCE_OUT_OF_SCOPE:") + rules[j].id in Evaluation(lower, rules, counters, call).reasonCodes
  {
    hide Lit, Evaluation, Offences, RateOk, CountersAfter;
    assert FoundAt(lower(call.resource), lower(rules[j].config.deniedResources[k]), i);
    assert Offends(lower, rules, counters, call, j);
    ReasonTexts(rules[j]);
    AnswerIsOffences(lower, rules, counters, call);
    OffenceGiven(lower, rules, counters, call, |rules|, j);
  }

  /** So does a list of allowed texts none of which is at any place in the resource. */
  lemma ResourceNotAllowedIsDenied(lower: Lower, rules: seq<Rule>, counters: Counters, call: Call, j: nat)
    requires j < |rules| == |call.clock| && rules[j].config.ResourceScope? && rules[j].config.allowedResources != []
    requires !AnyFoundIn(lower, rules[j].config.allowedResources, call.resource)
    ensures Evaluation(lower, rules, counters, call).decision == Lit("deny")
    ensures Lit("RESOURCE_OUT_OF_SCOPE:") + rules[j].id in Evaluation(lower, rules, counters, call).reasonCodes
  {
    hide Lit, Evaluation, Offences, RateOk, CountersAfter, AnyFoundIn;
    assert Offends(lower, rules, counters, call, j);
    ReasonTexts(rules[j]);
    AnswerIsOffences(lower, rules, counters, call);
    OffenceGiven(lower, rules, counters, call, |rules|, j);
  }

  /** And a list of allowed actions none of which is the action, case aside. */
  lemma ActionNotAllowedIsDenied(lower: Lower, rules: seq<Rule>, counters: Counters, call: Call, j: nat)
    requires j < |rules| == |call.clock| && rules[j].config.Allowlist? && rules[j].config.allowedActions != []
    requires forall k | 0 <= k < |rules[j].config.allowedActions| :: lower(rules[j].config.allowedActions[k]) != lower(call.action)
    ensures Evaluation(lower, rules, counters, call).decision == Lit("deny")
    ensures Lit("ACTION_NOT_ALLOWED:") + rules[j].id in Evaluation(lower, rules, counters, call).reasonCodes
  {
    hide Lit, Evaluation, Offences, RateOk, CountersAfter, AnyFoundIn;
    assert Offends(lower, rules, counters, call, j);
    ReasonTexts(rules[j]);
    AnswerIsOffences(lower, rules, counters, call);
    OffenceGiven(lower, rules, counters, call, |rules|, j);
  }

  // ----- runs between policy replacements -----

  predicate ValidCalls(rules: seq<Rule>, calls: seq<Call>) {
    forall i | 0 <= i < |calls| :: |calls[i].clock| == |rules|
  }

  /** The counters after a run of calls on a fresh engine. */
  function RunCounters(rules: seq<Rule>, calls: seq<Call>): Counters
    requires ValidCalls(rules, calls)
  {
    if calls == [] then map[]
    else CountersAfter(rules, RunCounters(rules, calls[..|calls| - 1]), calls[|calls| - 1], |rules|)
  }

  /** The uses that an agent's calls make of the limiter of rule `j`. */
  function OpsOf(rules: seq<Rule>, calls: seq<Call>, agentId: Text, j: nat): seq<Op>
    requires ValidCalls(rules, calls) && j < |rules|
  {
    if calls == [] then []
    else
      var c := calls[|calls| - 1];
      OpsOf(rules, calls[..|calls| - 1], agentId, j) + (if c.agentId == agentId then [Op(c.clock[j], c.dryRun)] else [])
  }

  /** The id `r` ends in a colon followed by the id `s`. */
  predicate ColonSuffix(r: Text, s: Text) {
    |s| < |r| && r[|r| - |s| - 1] == 0x3A && r[|r| - |s|..] == s
  }

  /** Rule ids are distinct, and none is another one behind a colon. Distinct colon-free ids are such. */
  predicate PlainIds(rules: seq<Rule>) {
    forall i, j | 0 <= i < |rules| && 0 <= j < |rules| && i != j ::
      rules[i].id != rules[j].id && !ColonSuffix(rules[i].id, rules[j].id)
  }

  lemma ColonFreeIsPlain(rules: seq<Rule>)
    requires forall i | 0 <= i < |rules| :: ColonFree(rules[i].id)
    requires forall i, j | 0 <= i < j < |rules| :: rules[i].id != rules[j].id
    ensures PlainIds(rules)
  {
  }

  /** Plain ids make the counter keys unambiguous, whatever the agent ids are. */
  lemma KeyOfInjective(a: Text, r: Text, b: Text, s: Text)
    requires !ColonSuffix(r, s) && !ColonSuffix(s, r)
    requires KeyOf(a, r) == KeyOf(b, s)
    ensures a == b && r == s
  {
    var k := KeyOf(a, r);
    assert k[|a|] == 0x3A && k[|b|] == 0x3A;
    assert k[|a| + 1..] == r && k[|b| + 1..] == s;
    if |a| == |b| {
      SplitEqual(a + [0x3A], r, b + [0x3A], s);
      SplitEqual(a, [0x3A], b, [0x3A]);
    }
  }

  /** The condition is needed: an id behind a colon makes every agent share a counter with another agent. */
  lemma ColonSuffixMixesAgents(a: Text, r: Text, s: Text) returns (b: Text)
    requires ColonSuffix(r, s)
    ensures a != b && KeyOf(a, r) == KeyOf(b, s)
  {
    var n := |r| - |s| - 1;
    b := a + [0x3A] + r[..n];
    assert r == r[..n] + [0x3A] + s;
    assert a + [0x3A] + (r[..n] + [0x3A] + s) == a + [0x3A] + r[..n] + [0x3A] + s;
    assert |b| > |a|;
  }

  /** One call uses the limiter of each rule once, for the calling agent only. */
  lemma {:induction false} CallUses(rules: seq<Rule>, counters: Counters, call: Call, n: nat, agentId: Text, j: nat)
    requires PlainIds(rules) && n <= |rules| == |call.clock| && j < |rules| && rules[j].config.RateLimit?
    ensures var key := KeyOf(agentId, rules[j].id);
            Get(CountersAfter(rules, counters, call, n), key) ==
            if j < n && call.agentId == agentId
            then Use(Get(counters, key), rules[j].Max(), rules[j].Window(), Op(call.clock[j], call.dryRun))
            else Get(counters, key)
    decreases n
  {
    hide KeyOf, Use, PlainIds;
    if n > 0 {
      CallUses(rules, counters, call, n - 1, agentId, j);
      KeysApart(rules, call.agentId, n - 1, agentId, j);
    }
  }

  lemma KeysApart(rules: seq<Rule>, a: Text, i: nat, b: Text, j: nat)
    requires PlainIds(rules) && i < |rules| && j < |rules|
    ensures KeyOf(a, rules[i].id) == KeyOf(b, rules[j].id) <==> a == b && i == j
  {
    hide KeyOf;
    if KeyOf(a, rules[i].id) == KeyOf(b, rules[j].id) {
      if i == j {
        NotOwnSuffix(rules[i].id);
      }
      KeyOfInjective(a, rules[i].id, b, rules[j].id);
    }
  }

  lemma NotOwnSuffix(r: Text)
    ensures !ColonSuffix(r, r)
  {
  }

  /** After a run the counter of an agent and a rule is the pruned list of that agent's uses of that rule. */
  lemma {:induction false} RunKeeps(rules: seq<Rule>, calls: seq<Call>, agentId: Text, j: nat)
    requires PlainIds(rules) && ValidCalls(rules, calls) && j < |rules| && rules[j].config.RateLimit?
    ensures Get(RunCounters(rules, calls), KeyOf(agentId, rules[j].id)) ==
            Kept(rules[j].Max(), rules[j].Window(), OpsOf(rules, calls, agentId, j))
    decreases |calls|
  {
    hide KeyOf, Use, CountersAfter;
    if calls != [] {
      var before, c := calls[..|calls| - 1], calls[|calls| - 1];
      RunKeeps(rules, before, agentId, j);
      CallUses(rules, RunCounters(rules, before), c, |rules|, agentId, j);
      var ops := OpsOf(rules, before, agentId, j);
      if c.agentId == agentId {
        assert (ops + [Op(c.clock[j], c.dryRun)])[..|ops|] == ops;
      } else {
        assert ops + [] == ops;
      }
    }
  }

  /** No rule is ever evaluated at an earlier time than before. */
  predicate ClockMonotone(rules: seq<Rule>, calls: seq<Call>)
    requires ValidCalls(rules, calls)
  {
    forall i, k, j | 0 <= i < k < |calls| && 0 <= j < |rules| :: calls[i].clock[j] <= calls[k].clock[j]
  }

  lemma {:induction false} OpsChronological(rules: seq<Rule>, calls: seq<Call>, agentId: Text, j: nat, now: real)
    requires ValidCalls(rules, calls) && j < |rules| && ClockMonotone(rules, calls)
    requires forall i | 0 <= i < |calls| :: calls[i].clock[j] <= now
    ensures Chronological(OpsOf(rules, calls, agentId, j))
    ensures forall i | 0 <= i < |OpsOf(rules, calls, agentId, j)| :: OpsOf(rules, calls, agentId, j)[i].now <= now
    decreases |calls|
  {
    if calls != [] {
      var before, c := calls[..|calls| - 1], calls[|calls| - 1];
      assert forall i | 0 <= i < |before| :: before[i] == calls[i];
      OpsChronological(rules, before, agentId, j, c.clock[j]);
    }
  }

  // ----- the full history as reference -----

  /** What the limiter of rule `j` should answer: fewer than the maximum of the agent's counted passes lie in the window. */
  predicate FullHistoryAdmits(rules: seq<Rule>, calls: seq<Call>, call: Call, j: nat)
    requires ValidCalls(rules, calls) && j < |rules| == |call.clock|
  {
    rules[j].config.RateLimit? ==>
      Admits(PassHistory(rules, calls, call.agentId, j), rules[j].Max(), rules[j].Window(), call.clock[j])
  }

  /** All times at which a non-dry call of the agent passed rule `j`, never pruned. */
  function PassHistory(rules: seq<Rule>, calls: seq<Call>, agentId: Text, j: nat): seq<real>
    requires ValidCalls(rules, calls) && j < |rules| && rules[j].config.RateLimit?
  {
    History(rules[j].Max(), rules[j].Window(), OpsOf(rules, calls, agentId, j))
  }

  function ReferenceReasons(lower: Lower, rules: seq<Rule>, calls: seq<Call>, call: Call, n: nat): seq<Text>
    requires ValidCalls(rules, calls) && n <= |rules| == |call.clock|
  {
    if n == 0 then []
    else
      ReferenceReasons(lower, rules, calls, call, n - 1) +
      DenyCode(lower, rules[n - 1], call, FullHistoryAdmits(rules, calls, call, n - 1))
  }

  lemma LimiterAnswersAsFull(rules: seq<Rule>, calls: seq<Call>, call: Call, j: nat)
    requires PlainIds(rules) && ValidCalls(rules, calls + [call]) && ClockMonotone(rules, calls + [call])
    requires ValidCalls(rules, calls) && j < |rules| == |call.clock|
    ensures RateOk(rules, CountersAfter(rules, RunCounters(rules, calls), call, j), call, j) <==>
            FullHistoryAdmits(rules, calls, call, j)
  {
    hide KeyOf, Admits, Use, CountersAfter, RunCounters, PlainIds;
    if rules[j].config.RateLimit? {
      var all := calls + [call];
      forall i | 0 <= i < |calls| ensures calls[i] == all[i] && calls[i].clock[j] <= call.clock[j] {
        assert all[i].clock[j] <= all[|calls|].clock[j];
      }
      assert ClockMonotone(rules, calls);
      CallUses(rules, RunCounters(rules, calls), call, j, call.agentId, j);
      RunKeeps(rules, calls, call.agentId, j);
      OpsChronological(rules, calls, call.agentId, j, call.clock[j]);
      PrunedAnswersAsFull(rules[j].Max(), rules[j].Window(), OpsOf(rules, calls, call.agentId, j), call.clock[j]);
    }
  }

  lemma {:induction false} ReasonsAreReference(lower: Lower, rules: seq<Rule>, calls: seq<Call>, call: Call, n: nat)
    requires PlainIds(rules) && ValidCalls(rules, calls + [call]) && ClockMonotone(rules, calls + [call])
    requires ValidCalls(rules, calls) && n <= |rules| == |call.clock|
    ensures ReasonsAfter(lower, rules, RunCounters(rules, calls), call, n) == ReferenceReasons(lower, rules, calls, call, n)
    decreases n
  {
    hide DenyCode, RateOk, FullHistoryAdmits, CountersAfter, RunCounters, PlainIds, ClockMonotone;
    if n > 0 {
      ReasonsAreReference(lower, rules, calls, call, n - 1);
      LimiterAnswersAsFull(rules, calls, call, n - 1);
    }
  }

  /**
   * Refinement: after any run on a monotone clock, with distinct colon-free rule ids, the engine's
   * answer to a call, decision and reasons, is the one computed from the never-pruned history of each
   * agent and rule.
   */
  lemma EngineRefinesFullHistory(lower: Lower, rules: seq<Rule>, calls: seq<Call>, call: Call)
    requires PlainIds(rules) && ValidCalls(rules, calls + [call]) && ClockMonotone(rules, calls + [call])
    requires ValidCalls(rules, calls) && |rules| == |call.clock|
    ensures Evaluation(lower, rules, RunCounters(rules, calls), call) ==
            ResultOf(ReferenceReasons(lower, rules, calls, call, |rules|))
  {
    ReasonsAreReference(lower, rules, calls, call, |rules|);
  }

  /** What the policy promises of one rule: a matching action, a resource in scope, a use still free in the window. */
  predicate RulePasses(lower: Lower, rules: seq<Rule>, calls: seq<Call>, call: Call, j: nat)
    requires ValidCalls(rules, calls) && j < |rules| == |call.clock|
  {
    match rules[j].config
    case Allowlist(allowed) => ActionAllowed(lower, allowed, call.action)
    case ResourceScope(allowed, denied) => ResourceInScope(lower, allowed, denied, call.resource)
    case RateLimit(_, _) => FullHistoryAdmits(rules, calls, call, j)
    case UnknownType => true
  }

  lemma {:induction false} NoReasonsIffAllPass(lower: Lower, rules: seq<Rule>, calls: seq<Call>, call: Call, n: nat)
    requires ValidCalls(rules, calls) && n <= |rules| == |call.clock|
    ensures ReferenceReasons(lower, rules, calls, call, n) == [] <==> forall j | 0 <= j < n :: RulePasses(lower, rules, calls, call, j)
    decreases n
  {
    hide DenyCode, RulePasses, FullHistoryAdmits;
    if n > 0 {
      NoReasonsIffAllPass(lower, rules, calls, call, n - 1);
      DeniesIffFails(lower, rules, calls, call, n - 1);
    }
  }

  lemma DeniesIffFails(lower: Lower, rules: seq<Rule>, calls: seq<Call>, call: Call, j: nat)
    requires ValidCalls(rules, calls) && j < |rules| == |call.clock|
    ensures DenyCode(lower, rules[j], call, FullHistoryAdmits(rules, calls, call, j)) == [] <==> RulePasses(lower, rules, calls, call, j)
  {
    hide ActionAllowed, ResourceInScope, Lit, PassHistory, Admits;
  }

  /**
   * A call is approved exactly when all rules pass, the rate limits being judged by the agent's whole
   * history, and denied otherwise.
   */
  lemma ApprovedIffAllRulesPass(lower: Lower, rules: seq<Rule>, calls: seq<Call>, call: Call)
    requires PlainIds(rules) && ValidCalls(rules, calls + [call]) && ClockMonotone(rules, calls + [call])
    requires ValidCalls(rules, calls) && |rules| == |call.clock|
    ensures var decision := Evaluation(lower, rules, RunCounters(rules, calls), call).decision;
            if forall j | 0 <= j < |rules| :: RulePasses(lower, rules, calls, call, j)
            then decision == Lit("approve") else decision == Lit("deny")
  {
    hide PlainIds, ClockMonotone, RunCounters, Evaluation, Lit, RulePasses, ReferenceReasons;
    EngineRefinesFullHistory(lower, rules, calls, call);
    NoReasonsIffAllPass(lower, rules, calls, call, |rules|);
  }

  /** The reference never holds more than `max_actions` in an interval (t - window, t]. */
  lemma HistoryWithinLimit(rules: seq<Rule>, calls: seq<Call>, agentId: Text, j: nat, t: real)
    requires ValidCalls(rules, calls) && j < |rules| && rules[j].config.RateLimit?
    ensures var max := rules[j].Max();
            |InWindow(PassHistory(rules, calls, agentId, j), t, rules[j].Window())| <= if max > 0 then max else 0
  {
    WindowBound(rules[j].Max(), rules[j].Window(), OpsOf(rules, calls, agentId, j), t);
  }

  /** The times of the agent's real calls that the engine's limiter of rule `j` let pass, as the run went. */
  function EnginePasses(rules: seq<Rule>, calls: seq<Call>, agentId: Text, j: nat): seq<real>
    requires ValidCalls(rules, calls) && j < |rules|
  {
    if calls == [] then []
    else
      var before, c := calls[..|calls| - 1], calls[|calls| - 1];
      EnginePasses(rules, before, agentId, j) +
      if c.agentId == agentId && !c.dryRun && RateOk(rules, CountersAfter(rules, RunCounters(rules, before), c, j), c, j)
      then [c.clock[j]] else []
  }

  /** Pruning loses no pass: what the engine let pass is what the reference counts. */
  lemma {:induction false} EnginePassesAreHistory(rules: seq<Rule>, calls: seq<Call>, agentId: Text, j: nat)
    requires PlainIds(rules) && ValidCalls(rules, calls) && ClockMonotone(rules, calls)
    requires j < |rules| && rules[j].config.RateLimit?
    ensures EnginePasses(rules, calls, agentId, j) == PassHistory(rules, calls, agentId, j)
    decreases |calls|
  {
    hide RateOk, CountersAfter, RunCounters, PlainIds, Admits, ClockMonotone;
    if calls != [] {
      var before, c := calls[..|calls| - 1], calls[|calls| - 1];
      assert calls == before + [c];
      MonotoneAppend(rules, before, c);
      EnginePassesAreHistory(rules, before, agentId, j);
      LimiterAnswersAsFull(rules, before, c, j);
      var ops := OpsOf(rules, before, agentId, j);
      if c.agentId == agentId {
        assert (ops + [Op(c.clock[j], c.dryRun)])[..|ops|] == ops;
      } else {
        assert ops + [] == ops;
      }
    }
  }

  /**
   * Safety: on every run on a monotone clock, no interval (t - window, t] holds more than `max_actions`
   * real calls of one agent that the engine let pass one rule.
   */
  lemma RateLimitHolds(rules: seq<Rule>, calls: seq<Call>, agentId: Text, j: nat, t: real)
    requires PlainIds(rules) && ValidCalls(rules, calls) && ClockMonotone(rules, calls)
    requires j < |rules| && rules[j].config.RateLimit?
    ensures var max := rules[j].Max();
            |InWindow(EnginePasses(rules, calls, agentId, j), t, rules[j].Window())| <= if max > 0 then max else 0
  {
    hide EnginePasses, PassHistory, InWindow, PlainIds, ClockMonotone;
    EnginePassesAreHistory(rules, calls, agentId, j);
    HistoryWithinLimit(rules, calls, agentId, j, t);
  }

  lemma {:induction false} AllPast(ts: seq<real>, window: real, now: real)
    requires forall i | 0 <= i < |ts| :: ts[i] <= now
    ensures After(ts, now - window) == InWindow(ts, now, window)
  {
    if ts != [] {
      AllPast(ts[1..], window, now);
    }
  }

  lemma {:induction false} PassesArePast(rules: seq<Rule>, calls: seq<Call>, agentId: Text, j: nat, now: real)
    requires ValidCalls(rules, calls) && j < |rules|
    requires forall i | 0 <= i < |calls| :: calls[i].clock[j] <= now
    ensures forall i | 0 <= i < |EnginePasses(rules, calls, agentId, j)| :: EnginePasses(rules, calls, agentId, j)[i] <= now
    decreases |calls|
  {
    hide RateOk, CountersAfter, RunCounters;
    if calls != [] {
      PassesArePast(rules, calls[..|calls| - 1], agentId, j, now);
    }
  }

  /**
   * The limiter, exactly: on every run on a monotone clock a call passes it if and only if, in the window
   * of 60 seconds or as configured that ends now, it let fewer than 100 calls of the agent pass, or as
   * many as configured.
   */
  lemma LimiterExact(rules: seq<Rule>, calls: seq<Call>, call: Call, j: nat)
    requires PlainIds(rules) && ValidCalls(rules, calls + [call]) && ClockMonotone(rules, calls + [call])
    requires ValidCalls(rules, calls) && j < |rules| == |call.clock| && rules[j].config.RateLimit?
    ensures var max := (match rules[j].config.maxActions case Some(m) => m case None => 100);
            var window := (match rules[j].config.windowSeconds case Some(w) => w case None => 60.0);
            RateOk(rules, CountersAfter(rules, RunCounters(rules, calls), call, j), call, j) <==>
            |InWindow(EnginePasses(rules, calls, call.agentId, j), call.clock[j], window)| < max
  {
    hide RateOk, CountersAfter, RunCounters, PlainIds, ClockMonotone, EnginePasses, PassHistory, InWindow, After;
    MonotoneAppend(rules, calls, call);
    EnginePassesAreHistory(rules, calls, call.agentId, j);
    LimiterAnswersAsFull(rules, calls, call, j);
    PassesArePast(rules, calls, call.agentId, j, call.clock[j]);
    AllPast(EnginePasses(rules, calls, call.agentId, j), rules[j].Window(), call.clock[j]);
  }

  // ----- what ambiguous keys do -----

  /** The first colon splits a key too: agents without colons are never mixed, whatever the rule ids. */
  lemma ColonFreeAgentsApart(a: Text, r: Text, b: Text, s: Text)
    requires ColonFree(a) && ColonFree(b) && KeyOf(a, r) == KeyOf(b, s)
    ensures a == b && r == s
  {
    var k := KeyOf(a, r);
    assert k[|a|] == 0x3A && k[|b|] == 0x3A;
    assert k[..|a|] == a && k[..|b|] == b;
    if |a| == |b| {
      SplitEqual(a + [0x3A], r, b + [0x3A], s);
    }
  }

  /** One call per minute under each of two rules. */
  function OncePerMinute(r: Text, s: Text): seq<Rule> {
    [Rule(r, RateLimit(Some(1), None)), Rule(s, RateLimit(Some(1), None))]
  }

  /**
   * A run that goes wrong: with the id `s` behind a colon in `r`, the very first call of an agent is
   * denied because another agent has made one, though the agent's own history would admit it.
   */
  lemma OtherAgentUsesUpLimit(lower: Lower, a: Text, r: Text, s: Text, action: Text, resource: Text)
    returns (b: Text)
    requires ColonSuffix(r, s)
    ensures a != b
    ensures var rules := OncePerMinute(r, s);
            var calls := [Call(b, action, resource, [0.0, 0.0], false)];
            var call := Call(a, action, resource, [1.0, 1.0], false);
            && Evaluation(lower, rules, RunCounters(rules, calls), call).decision == Lit("deny")
            && PassHistory(rules, calls, a, 0) == [] && FullHistoryAdmits(rules, calls, call, 0)
  {
    hide KeyOf, Lit, ColonSuffix;
    b := ColonSuffixMixesAgents(a, r, s);
    var rules := OncePerMinute(r, s);
    var c := Call(b, action, resource, [0.0, 0.0], false);
    var call := Call(a, action, resource, [1.0, 1.0], false);
    assert [c][..0] == [];
    LongerIdOtherKey(b, r, s);
    LaterPutsKept(rules, c);
    assert Get(RunCounters(rules, [c]), KeyOf(a, r)) == [0.0];
    FirstRuleDenies(lower, rules, RunCounters(rules, [c]), call);
    assert OpsOf(rules, [c][..0], a, 0) == [];
    assert OpsOf(rules, [c], a, 0) == [];
    assert After([], 1.0 - 60.0) == [];
  }

  lemma LongerIdOtherKey(b: Text, r: Text, s: Text)
    requires ColonSuffix(r, s)
    ensures KeyOf(b, r) != KeyOf(b, s)
  {
    assert |KeyOf(b, r)| > |KeyOf(b, s)|;
  }

  lemma LaterPutsKept(rules: seq<Rule>, c: Call)
    requires |rules| == |c.clock| == 2 && c.clock[1] == 0.0 && !c.dryRun
    requires rules[0].config == rules[1].config == RateLimit(Some(1), None)
    requires KeyOf(c.agentId, rules[0].id) != KeyOf(c.agentId, rules[1].id)
    ensures Get(CountersAfter(rules, map[], c, 2), KeyOf(c.agentId, rules[1].id)) == [0.0]
  {
    hide KeyOf;
    var one := CountersAfter(rules, map[], c, 1);
    assert CountersAfter(rules, map[], c, 0) == map[];
    assert Get(one, KeyOf(c.agentId, rules[1].id)) == [];
  }

  lemma FirstRuleDenies(lower: Lower, rules: seq<Rule>, counters: Counters, call: Call)
    requires |rules| == |call.clock| == 2 && call.clock[0] == 1.0
    requires rules[0].config == RateLimit(Some(1), None)
    requires Get(counters, KeyOf(call.agentId, rules[0].id)) == [0.0]
    ensures Evaluation(lower, rules, counters, call).decision == Lit("deny")
  {
    hide KeyOf;
    assert After([0.0], 1.0 - 60.0) == [0.0];
    assert !RateOk(rules, counters, call, 0);
    assert ReasonsAfter(lower, rules, counters, call, 1) != [];
    assert ReasonsAfter(lower, rules, counters, call, 2) != [];
  }

  // ----- dry runs -----

  function RealCalls(calls: seq<Call>): (r: seq<Call>)
    ensures forall i | 0 <= i < |r| :: r[i] in calls
    ensures |r| <= |calls|
  {
    if calls == [] then []
    else RealCalls(calls[..|calls| - 1]) + (if calls[|calls| - 1].dryRun then [] else [calls[|calls| - 1]])
  }

  lemma RealCallsValid(rules: seq<Rule>, calls: seq<Call>)
    requires ValidCalls(rules, calls)
    ensures ValidCalls(rules, RealCalls(calls))
  {
    forall i | 0 <= i < |RealCalls(calls)| ensures |RealCalls(calls)[i].clock| == |rules| {
      assert RealCalls(calls)[i] in calls;
    }
  }

  lemma {:induction false} OpsOfRealCalls(rules: seq<Rule>, calls: seq<Call>, agentId: Text, j: nat)
    requires ValidCalls(rules, calls) && ValidCalls(rules, RealCalls(calls)) && j < |rules|
    ensures OpsOf(rules, RealCalls(calls), agentId, j) == Counted(OpsOf(rules, calls, agentId, j))
    decreases |calls|
  {
    if calls != [] {
      var before, c := calls[..|calls| - 1], calls[|calls| - 1];
      RealCallsValid(rules, before);
      OpsOfRealCalls(rules, before, agentId, j);
      var ops := OpsOf(rules, before, agentId, j);
      if c.agentId == agentId {
        assert (ops + [Op(c.clock[j], c.dryRun)])[..|ops|] == ops;
      } else {
        assert ops + [] == ops;
      }
      if c.dryRun {
        assert RealCalls(before) + [] == RealCalls(before);
      } else {
        assert (RealCalls(before) + [c])[..|RealCalls(before)|] == RealCalls(before);
      }
    }
  }

  lemma {:induction false} ReferenceIgnoresDryRuns(lower: Lower, rules: seq<Rule>, calls: seq<Call>, call: Call, n: nat)
    requires ValidCalls(rules, calls) && ValidCalls(rules, RealCalls(calls)) && n <= |rules| == |call.clock|
    ensures ReferenceReasons(lower, rules, RealCalls(calls), call, n) == ReferenceReasons(lower, rules, calls, call, n)
    decreases n
  {
    hide DenyCode, Admits, OpsOf, History, RealCalls;
    if n > 0 {
      ReferenceIgnoresDryRuns(lower, rules, calls, call, n - 1);
      if rules[n - 1].config.RateLimit? {
        OpsOfRealCalls(rules, calls, call.agentId, n - 1);
        DryUsesLeaveNoTrace(rules[n - 1].Max(), rules[n - 1].Window(), OpsOf(rules, calls, call.agentId, n - 1));
      }
    }
  }

  /** The call reads every clock no earlier than the calls before it. */
  predicate Latest(rules: seq<Rule>, calls: seq<Call>, call: Call)
    requires ValidCalls(rules, calls) && |call.clock| == |rules|
  {
    forall i, j | 0 <= i < |calls| && 0 <= j < |rules| :: calls[i].clock[j] <= call.clock[j]
  }

  lemma MonotoneAppend(rules: seq<Rule>, calls: seq<Call>, call: Call)
    requires ValidCalls(rules, calls) && |call.clock| == |rules| && ValidCalls(rules, calls + [call])
    ensures ClockMonotone(rules, calls + [call]) <==> ClockMonotone(rules, calls) && Latest(rules, calls, call)
  {
    var all := calls + [call];
    assert forall i | 0 <= i < |calls| :: all[i] == calls[i];
    assert all[|calls|] == call;
    if ClockMonotone(rules, all) {
      forall i, j | 0 <= i < |calls| && 0 <= j < |rules| ensures calls[i].clock[j] <= call.clock[j] {
        assert all[i].clock[j] <= all[|calls|].clock[j];
      }
      forall i, k, j | 0 <= i < k < |calls| && 0 <= j < |rules| ensures calls[i].clock[j] <= calls[k].clock[j] {
        assert all[i].clock[j] <= all[k].clock[j];
      }
    }
  }

  lemma {:induction false} RealCallsMonotone(rules: seq<Rule>, calls: seq<Call>)
    requires ValidCalls(rules, calls) && ClockMonotone(rules, calls) && ValidCalls(rules, RealCalls(calls))
    ensures ClockMonotone(rules, RealCalls(calls))
    decreases |calls|
  {
    hide ClockMonotone, Latest;
    if calls != [] {
      var before, c := calls[..|calls| - 1], calls[|calls| - 1];
      assert calls == before + [c];
      RealCallsValid(rules, before);
      MonotoneAppend(rules, before, c);
      RealCallsMonotone(rules, before);
      RealCallsEarlier(rules, before, c);
      if c.dryRun {
        assert RealCalls(before) + [] == RealCalls(before);
      } else {
        MonotoneAppend(rules, RealCalls(before), c);
      }
    }
  }

  lemma RealCallsEarlier(rules: seq<Rule>, calls: seq<Call>, call: Call)
    requires ValidCalls(rules, calls) && |call.clock| == |rules| && ValidCalls(rules, RealCalls(calls))
    requires Latest(rules, calls, call)
    ensures Latest(rules, RealCalls(calls), call)
  {
    hide RealCalls;
    var r := RealCalls(calls);
    forall i, j | 0 <= i < |r| && 0 <= j < |rules| ensures r[i].clock[j] <= call.clock[j] {
      assert r[i] in calls;
    }
  }

  /** Dry runs change nothing: with all earlier dry calls deleted, every call gets the same answer. */
  lemma DryRunsChangeNothing(lower: Lower, rules: seq<Rule>, calls: seq<Call>, call: Call)
    requires PlainIds(rules) && ValidCalls(rules, calls + [call]) && ClockMonotone(rules, calls + [call])
    requires ValidCalls(rules, calls) && ValidCalls(rules, RealCalls(calls)) && |rules| == |call.clock|
    ensures Evaluation(lower, rules, RunCounters(rules, RealCalls(calls)), call) ==
            Evaluation(lower, rules, RunCounters(rules, calls), call)
  {
    hide PlainIds, ClockMonotone, Evaluation, RunCounters, ReferenceReasons, Latest;
    MonotoneAppend(rules, calls, call);
    RealCallsMonotone(rules, calls);
    RealCallsEarlier(rules, calls, call);
    MonotoneAppend(rules, RealCalls(calls), call);
    EngineRefinesFullHistory(lower, rules, calls, call);
    EngineRefinesFullHistory(lower, rules, RealCalls(calls), call);
    ReferenceIgnoresDryRuns(lower, rules, calls, call, |rules|);
  }
}
