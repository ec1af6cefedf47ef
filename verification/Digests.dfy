/** Hashes of canonical objects that bind: the action digest of `gateway/tokens.py` and `policy_hash` of `gateway/policy.py`. */
module Digests {
  import opened Basics
  import opened Json
  import opened Sha256
  import opened Canonical
  import opened Policy
  import CanonicalTheorems

  /** The hash of an object's canonical bytes. */
  function ObjectHash(sha: Sha, ms: seq<Member>): Result<Text, Error> {
    var bytes :- Canonicalize(Obj(ms));
    Ok(HashText(sha, bytes))
  }

  /** The two canonical byte strings that collide when two unequal objects have one hash. */
  function ObjectCollision(ms: seq<Member>, ns: seq<Member>): (Bytes, Bytes) {
    match (Canonicalize(Obj(ms)), Canonicalize(Obj(ns)))
    case (Ok(a), Ok(b)) => (a, b)
    case _ => ([], [])
  }

  /** Equal objects have one hash; objects with one hash are equal, or their canonical bytes collide. */
  lemma ObjectHashBinds(sha: Sha, ms: seq<Member>, ns: seq<Member>)
    requires WellFormed(Obj(ms)) && WellFormed(Obj(ns)) && ObjectHash(sha, ms).Ok?
    ensures Same(Obj(ms), Obj(ns)) ==> ObjectHash(sha, ms) == ObjectHash(sha, ns)
    ensures ObjectHash(sha, ms) == ObjectHash(sha, ns) ==>
              Same(Obj(ms), Obj(ns)) || Collides(sha, ObjectCollision(ms, ns))
  {
    hide Canonicalize, WellFormed, Same, DigestText;
    CanonicalTheorems.CanonicalizeExact(Obj(ms), Obj(ns));
    if ObjectHash(sha, ms) == ObjectHash(sha, ns) {
      DigestTextInjective(sha(Canonicalize(Obj(ms)).value), sha(Canonicalize(Obj(ns)).value));
    }
  }

  /** Objects with the same keys in the same places are equal when their values are, place by place. */
  lemma SameByPlace(ms: seq<Member>, ns: seq<Member>)
    requires |ms| == |ns| && DistinctKeys(ms) && forall k | 0 <= k < |ms| :: ms[k].key == ns[k].key
    ensures Same(Obj(ms), Obj(ns)) <==> forall k | 0 <= k < |ms| :: Same(ms[k].value, ns[k].value)
  {
    assert SameKeys(ms, ns) by {
      assert forall k | 0 <= k < |ms| :: HasKey(ns, ms[k].key) && HasKey(ms, ns[k].key);
    }
    forall i, j | 0 <= i < |ms| && 0 <= j < |ns| && ms[i].key == ns[j].key ensures i == j {
      assert ms[j].key == ns[j].key;
    }
  }

  lemma PlacesUpTo4(ms: seq<Member>, ns: seq<Member>)
    requires 2 <= |ms| == |ns| <= 4
    ensures (forall k | 0 <= k < |ms| :: Same(ms[k].value, ns[k].value)) <==>
            && Same(ms[0].value, ns[0].value) && Same(ms[1].value, ns[1].value)
            && (|ms| > 2 ==> Same(ms[2].value, ns[2].value)) && (|ms| > 3 ==> Same(ms[3].value, ns[3].value))
  {
    hide Same;
  }

  /** Objects with different numbers of members are not equal, when keys are distinct and the shorter list starts the longer. */
  lemma NotSameShorter(ms: seq<Member>, ns: seq<Member>)
    requires |ms| < |ns| && DistinctKeys(ns) && forall k | 0 <= k < |ms| :: ms[k].key == ns[k].key
    ensures !Same(Obj(ms), Obj(ns)) && !Same(Obj(ns), Obj(ms))
  {
    assert !HasKey(ms, ns[|ms|].key);
  }

  // ----- action digests -----

  datatype Intent = Intent(agentId: Text, action: Text, resource: Text, parameters: Option<seq<Member>>)
  {
    /** No parameters and an empty dict of parameters are the same intent. */
    function Parameters(): seq<Member> {
      if parameters.Some? then parameters.value else []
    }

    function Members(): seq<Member> {
      [Member(Lit("agent_id"), Str(agentId)), Member(Lit("action"), Str(action)), Member(Lit("resource"), Str(resource))] +
      if Parameters() != [] then [Member(Lit("parameters"), Obj(Parameters()))] else []
    }
  }

  predicate SameIntent(i: Intent, j: Intent) {
    i.agentId == j.agentId && i.action == j.action && i.resource == j.resource && Same(Obj(i.Parameters()), Obj(j.Parameters()))
  }

  /** `compute_action_digest` */
  function ActionDigest(sha: Sha, i: Intent): Result<Text, Error> {
    ObjectHash(sha, i.Members())
  }

  lemma IntentKeys()
    ensures Lit("agent_id")[0] == 0x61 && Lit("agent_id")[1] == 0x67
    ensures Lit("action")[0] == 0x61 && Lit("action")[1] == 0x63
    ensures Lit("resource")[0] == 0x72
    ensures Lit("parameters")[0] == 0x70
  {
  }

  lemma IntentWellFormed(i: Intent)
    requires WellFormed(Obj(i.Parameters()))
    ensures WellFormed(Obj(i.Members()))
  {
    hide Lit;
    IntentKeys();
  }

  lemma IntentMembersSame(i: Intent, j: Intent)
    ensures Same(Obj(i.Members()), Obj(j.Members())) <==> SameIntent(i, j)
  {
    hide Lit, Same;
    IntentKeys();
    var ms, ns := i.Members(), j.Members();
    assert DistinctKeys(ms) && DistinctKeys(ns);
    assert forall k | 0 <= k < |ms| && k < |ns| :: ms[k].key == ns[k].key;
    StrSame(i.agentId, j.agentId);
    StrSame(i.action, j.action);
    StrSame(i.resource, j.resource);
    if Same(Obj(i.Parameters()), Obj(j.Parameters())) {
      ParametersBoth(i, j);
    }
    if |ms| == |ns| {
      SameByPlace(ms, ns);
      PlacesUpTo4(ms, ns);
      if |ms| == 3 {
        SameByPlace([], []);
      }
    } else if |ms| < |ns| {
      NotSameShorter(ms, ns);
    } else {
      NotSameShorter(ns, ms);
    }
  }

  lemma StrSame(s: Text, t: Text)
    ensures Same(Str(s), Str(t)) <==> s == t
  {
  }

  lemma ParametersBoth(i: Intent, j: Intent)
    requires Same(Obj(i.Parameters()), Obj(j.Parameters()))
    ensures i.Parameters() == [] <==> j.Parameters() == []
  {
    var ps, qs := i.Parameters(), j.Parameters();
    if ps != [] {
      assert HasKey(qs, ps[0].key);
    }
    if qs != [] {
      assert HasKey(ps, qs[0].key);
    }
  }

  /** What is hashed: the three texts under their own keys, and the parameters only when there are any. */
  lemma IntentObject(i: Intent)
    ensures var ms := i.Members();
            && Lookup(ms, Lit("agent_id")) == Some(Str(i.agentId)) && Lookup(ms, Lit("action")) == Some(Str(i.action))
            && Lookup(ms, Lit("resource")) == Some(Str(i.resource))
            && Lookup(ms, Lit("parameters")) ==
               (if i.parameters == None || i.parameters == Some([]) then None else Some(Obj(i.parameters.value)))
            && |ms| == (if i.parameters == None || i.parameters == Some([]) then 3 else 4)
  {
    hide Lit;
    IntentKeys();
    var ms := i.Members();
    assert ms[1..][0] == ms[1] && ms[1..][1..][0] == ms[2];
    LookupThird(ms, Lit("agent_id"));
    LookupThird(ms, Lit("action"));
    LookupThird(ms, Lit("resource"));
    LookupThird(ms, Lit("parameters"));
  }

  /** `get` on the first three members and what is behind them. */
  lemma LookupThird(ms: seq<Member>, k: Text)
    requires |ms| >= 3
    ensures Lookup(ms, k) ==
            if ms[0].key == k then Some(ms[0].value) else if ms[1].key == k then Some(ms[1].value)
            else if ms[2].key == k then Some(ms[2].value) else Lookup(ms[3..], k)
    ensures |ms| == 3 ==> Lookup(ms[3..], k) == None
    ensures |ms| == 4 ==> Lookup(ms[3..], k) == if ms[3].key == k then Some(ms[3].value) else None
  {
    assert ms[1..][1..] == ms[2..] && ms[2..][1..] == ms[3..];
    assert Lookup(ms[1..], k) == if ms[1].key == k then Some(ms[1].value) else Lookup(ms[2..], k);
    assert Lookup(ms[2..], k) == if ms[2].key == k then Some(ms[2].value) else Lookup(ms[3..], k);
    if |ms| == 4 {
      assert ms[3..] == [ms[3]] && ms[3..][1..] == [];
    }
  }

  /**
   * An action digest stands for one intent: equal agents, actions, resources, and parameters equal as
   * JSON give one digest, and one digest comes from such intents or from a SHA-256 collision.
   */
  lemma ActionDigestBinds(sha: Sha, i: Intent, j: Intent)
    requires WellFormed(Obj(i.Parameters())) && WellFormed(Obj(j.Parameters())) && ActionDigest(sha, i).Ok?
    ensures SameIntent(i, j) ==> ActionDigest(sha, i) == ActionDigest(sha, j)
    ensures ActionDigest(sha, i) == ActionDigest(sha, j) ==>
              SameIntent(i, j) || Collides(sha, ObjectCollision(i.Members(), j.Members()))
  {
    hide ObjectHash, ObjectCollision, WellFormed, Same, SameIntent, Intent.Members;
    IntentWellFormed(i);
    IntentWellFormed(j);
    IntentMembersSame(i, j);
    ObjectHashBinds(sha, i.Members(), j.Members());
  }

  // ----- policy hashes -----

  /** A rule as it is written, its config still a dict. */
  datatype RuleSource = RuleSource(id: Text, kind: Text, config: seq<Member>)
  {
    function ToJson(): Json {
      Obj([Member(Lit("id"), Str(id)), Member(Lit("type"), Str(kind)), Member(Lit("config"), Obj(config))])
    }
  }

  datatype PolicySource = PolicySource(rules: seq<RuleSource>, version: Text, requireRegistration: bool)
  {
    function RulesJson(): (r: seq<Json>)
      ensures |r| == |rules| && forall i | 0 <= i < |r| :: r[i] == rules[i].ToJson()
    {
      seq(|rules|, i requires 0 <= i < |rules| => rules[i].ToJson())
    }

    function Members(): seq<Member> {
      [Member(Lit("v"), Str(version)), Member(Lit("rules"), Arr(RulesJson()))] +
      if requireRegistration then [Member(Lit("require_resource_registration"), Bool(true))] else []
    }

    predicate DictConfigs() {
      forall i | 0 <= i < |rules| :: WellFormed(Obj(rules[i].config))
    }
  }

  /** `policy_hash` */
  function PolicyHash(sha: Sha, p: PolicySource): Result<Text, Error> {
    ObjectHash(sha, p.Members())
  }

  predicate SameRule(r: RuleSource, s: RuleSource) {
    r.id == s.id && r.kind == s.kind && Same(Obj(r.config), Obj(s.config))
  }

  predicate SamePolicy(p: PolicySource, q: PolicySource) {
    && p.version == q.version && p.requireRegistration == q.requireRegistration
    && |p.rules| == |q.rules| && forall i | 0 <= i < |p.rules| :: SameRule(p.rules[i], q.rules[i])
  }

  lemma PolicyKeys()
    ensures Lit("id")[0] == 0x69 && Lit("type")[0] == 0x74 && Lit("config")[0] == 0x63
    ensures |Lit("v")| == 1 && |Lit("rules")| == 5 && |Lit("require_resource_registration")| == 29
  {
  }

  lemma RuleJsonSame(r: RuleSource, s: RuleSource)
    ensures Same(r.ToJson(), s.ToJson()) <==> SameRule(r, s)
    ensures WellFormed(Obj(r.config)) ==> WellFormed(r.ToJson())
  {
    hide Lit, Same;
    PolicyKeys();
    StrSame(r.id, s.id);
    StrSame(r.kind, s.kind);
    var ms, ns := r.ToJson().members, s.ToJson().members;
    SameByPlace(ms, ns);
    PlacesUpTo4(ms, ns);
    if WellFormed(Obj(r.config)) {
      assert forall i | 0 <= i < |ms| :: WellFormed(ms[i].value);
    }
  }

  /** What is hashed of a policy: its version, its rules in order with id, type and config, and the flag only when it is set. */
  lemma PolicyObject(p: PolicySource)
    ensures var ms := p.Members();
            && Lookup(ms, Lit("v")) == Some(Str(p.version)) && Lookup(ms, Lit("rules")) == Some(Arr(p.RulesJson()))
            && Lookup(ms, Lit("require_resource_registration")) == (if p.requireRegistration then Some(Bool(true)) else None)
            && |ms| == (if p.requireRegistration then 3 else 2)
    ensures forall i | 0 <= i < |p.rules| ::
              && p.RulesJson()[i].Obj? && |p.RulesJson()[i].members| == 3
              && Lookup(p.RulesJson()[i].members, Lit("id")) == Some(Str(p.rules[i].id))
              && Lookup(p.RulesJson()[i].members, Lit("type")) == Some(Str(p.rules[i].kind))
              && Lookup(p.RulesJson()[i].members, Lit("config")) == Some(Obj(p.rules[i].config))
  {
    hide Lit;
    PolicyKeys();
    var ms := p.Members();
    LookupSecond(ms, Lit("v"));
    LookupSecond(ms, Lit("rules"));
    LookupSecond(ms, Lit("require_resource_registration"));
    forall i | 0 <= i < |p.rules|
      ensures p.RulesJson()[i].Obj? && |p.RulesJson()[i].members| == 3
      ensures Lookup(p.RulesJson()[i].members, Lit("id")) == Some(Str(p.rules[i].id))
      ensures Lookup(p.RulesJson()[i].members, Lit("type")) == Some(Str(p.rules[i].kind))
      ensures Lookup(p.RulesJson()[i].members, Lit("config")) == Some(Obj(p.rules[i].config))
    {
      RuleObject(p.rules[i]);
    }
  }

  lemma RuleObject(r: RuleSource)
    ensures var ms := r.ToJson().members;
            && Lookup(ms, Lit("id")) == Some(Str(r.id)) && Lookup(ms, Lit("type")) == Some(Str(r.kind))
            && Lookup(ms, Lit("config")) == Some(Obj(r.config))
  {
    hide Lit;
    PolicyKeys();
    var ms := r.ToJson().members;
    LookupThird(ms, Lit("id"));
    LookupThird(ms, Lit("type"));
    LookupThird(ms, Lit("config"));
  }

  lemma LookupSecond(ms: seq<Member>, k: Text)
    requires 2 <= |ms| <= 3
    ensures Lookup(ms, k) ==
            if ms[0].key == k then Some(ms[0].value) else if ms[1].key == k then Some(ms[1].value)
            else if |ms| == 3 && ms[2].key == k then Some(ms[2].value) else None
  {
    assert ms[1..][1..] == ms[2..];
    assert Lookup(ms[1..], k) == if ms[1].key == k then Some(ms[1].value) else Lookup(ms[2..], k);
    if |ms| == 3 {
      assert ms[2..] == [ms[2]] && ms[2..][1..] == [];
    }
  }

  lemma PolicyWellFormed(p: PolicySource)
    requires p.DictConfigs()
    ensures WellFormed(Obj(p.Members()))
  {
    hide Lit, RuleSource.ToJson;
    PolicyKeys();
    forall i | 0 <= i < |p.rules| ensures WellFormed(p.RulesJson()[i]) {
      RuleJsonSame(p.rules[i], p.rules[i]);
    }
    assert WellFormed(Arr(p.RulesJson()));
  }

  lemma RulesJsonSame(p: PolicySource, q: PolicySource)
    ensures Same(Arr(p.RulesJson()), Arr(q.RulesJson())) <==>
            |p.rules| == |q.rules| && forall i | 0 <= i < |p.rules| :: SameRule(p.rules[i], q.rules[i])
  {
    hide RuleSource.ToJson, SameRule;
    if |p.rules| == |q.rules| {
      forall i | 0 <= i < |p.rules| ensures Same(p.RulesJson()[i], q.RulesJson()[i]) <==> SameRule(p.rules[i], q.rules[i]) {
        RuleJsonSame(p.rules[i], q.rules[i]);
      }
    }
  }

  lemma PolicyMembersSame(p: PolicySource, q: PolicySource)
    ensures Same(Obj(p.Members()), Obj(q.Members())) <==> SamePolicy(p, q)
  {
    hide Lit, SameRule, PolicySource.RulesJson, Same;
    PolicyKeys();
    RulesJsonSame(p, q);
    StrSame(p.version, q.version);
    BoolSame();
    var ms, ns := p.Members(), q.Members();
    assert DistinctKeys(ms) && DistinctKeys(ns);
    assert forall k | 0 <= k < |ms| && k < |ns| :: ms[k].key == ns[k].key;
    if |ms| == |ns| {
      SameByPlace(ms, ns);
      PlacesUpTo4(ms, ns);
    } else if |ms| < |ns| {
      NotSameShorter(ms, ns);
    } else {
      NotSameShorter(ns, ms);
    }
  }

  lemma BoolSame()
    ensures Same(Bool(true), Bool(true))
  {
  }

  // ----- the rules an engine runs -----

  /** A list of texts in a config; missing and null count as empty. None when it is something else. */
  function TextList(v: Option<Json>): Option<seq<Text>> {
    match v
    case None => Some([])
    case Some(Null) => Some([])
    case Some(Arr(items)) =>
      if forall i | 0 <= i < |items| :: items[i].Str? then
        Some(seq(|items|, i requires 0 <= i < |items| => items[i].s))
      else None
    case _ => None
  }

  function IntField(v: Option<Json>): Option<Option<int>> {
    match v
    case None => Some(None)
    case Some(Int(n)) => Some(Some(n))
    case _ => None
  }

  /** The rule as the engine reads it; None when a value has a type the engine trips over. */
  function TypedRule(r: RuleSource): Option<Rule> {
    if r.kind == Lit("allowlist") then
      match TextList(Lookup(r.config, Lit("allowed_actions")))
      case Some(allowed) => Some(Rule(r.id, Allowlist(allowed)))
      case None => None
    else if r.kind == Lit("resource_scope") then
      match (TextList(Lookup(r.config, Lit("allowed_resources"))), TextList(Lookup(r.config, Lit("denied_resources"))))
      case (Some(allowed), Some(denied)) => Some(Rule(r.id, ResourceScope(allowed, denied)))
      case _ => None
    else if r.kind == Lit("rate_limit") then
      match (IntField(Lookup(r.config, Lit("max_actions"))), IntField(Lookup(r.config, Lit("window_seconds"))))
      case (Some(max), Some(window)) =>
        Some(Rule(r.id, RateLimit(max, if window.Some? then Some(window.value as real) else None)))
      case _ => None
    else Some(Rule(r.id, UnknownType))
  }

  predicate WellTyped(p: PolicySource) {
    forall i | 0 <= i < |p.rules| :: TypedRule(p.rules[i]).Some?
  }

  function TypedRules(p: PolicySource): (r: seq<Rule>)
    requires WellTyped(p)
    ensures |r| == |p.rules| && forall i | 0 <= i < |r| :: Some(r[i]) == TypedRule(p.rules[i]) && r[i].id == p.rules[i].id
  {
    seq(|p.rules|, i requires 0 <= i < |p.rules| => TypedRule(p.rules[i]).value)
  }

  /** The texts are read from a config under a key: none when it is missing or null. */
  predicate Reads(config: seq<Member>, k: string, texts: seq<Text>) {
    match Lookup(config, Lit(k))
    case None => texts == []
    case Some(Null) => texts == []
    case Some(Arr(items)) => |items| == |texts| && forall i | 0 <= i < |items| :: items[i] == Str(texts[i])
    case _ => false
  }

  /** The number is read from a config under a key: none when it is missing. */
  predicate ReadsInt(config: seq<Member>, k: string, n: Option<int>) {
    match Lookup(config, Lit(k))
    case None => n == None
    case Some(v) => n.Some? && v == Int(n.value)
  }

  /** Which values of its config each type of rule is run with, and that rules of another type do nothing. */
  lemma RuleReads(r: RuleSource)
    requires TypedRule(r).Some?
    ensures var rule := TypedRule(r).value;
            && rule.id == r.id
            && (rule.config.Allowlist? <==> r.kind == Lit("allowlist"))
            && (rule.config.ResourceScope? <==> r.kind == Lit("resource_scope"))
            && (rule.config.RateLimit? <==> r.kind == Lit("rate_limit"))
            && match rule.config
               case Allowlist(allowed) => Reads(r.config, "allowed_actions", allowed)
               case ResourceScope(allowed, denied) =>
                 Reads(r.config, "allowed_resources", allowed) && Reads(r.config, "denied_resources", denied)
               case RateLimit(max, window) =>
                 && ReadsInt(r.config, "max_actions", max)
                 && (window.None? <==> ReadsInt(r.config, "window_seconds", None))
                 && (window.Some? ==> exists n: int :: window.value == n as real && ReadsInt(r.config, "window_seconds", Some(n)))
               case UnknownType => true
  {
    hide Lit, Lookup;
    KindsDiffer();
    if r.kind == Lit("rate_limit") {
      var window := IntField(Lookup(r.config, Lit("window_seconds"))).value;
      if window.Some? {
        assert ReadsInt(r.config, "window_seconds", Some(window.value));
      }
    }
  }

  lemma KindsDiffer()
    ensures |Lit("allowlist")| == 9 && |Lit("resource_scope")| == 14 && |Lit("rate_limit")| == 10
  {
  }

  lemma SameTextList(v: Option<Json>, w: Option<Json>)
    requires v.Some? <==> w.Some?
    requires v.Some? ==> Same(v.value, w.value)
    ensures TextList(v) == TextList(w) && IntField(v) == IntField(w)
  {
    if v.Some? && v.value.Arr? {
      var xs, ys := v.value.items, w.value.items;
      forall i | 0 <= i < |xs| ensures xs[i].Str? || ys[i].Str? ==> xs[i] == ys[i] {
        assert Same(xs[i], ys[i]);
      }
      assert (forall i | 0 <= i < |xs| :: xs[i].Str?) ==> xs == ys;
    }
  }

  lemma SameRuleTyped(r: RuleSource, s: RuleSource)
    requires SameRule(r, s)
    ensures TypedRule(r) == TypedRule(s)
  {
    hide Lit, TextList, IntField, Lookup, Same;
    forall k: Text ensures TextList(Lookup(r.config, k)) == TextList(Lookup(s.config, k)) &&
                           IntField(Lookup(r.config, k)) == IntField(Lookup(s.config, k)) {
      SameLookup(r.config, s.config, k);
      SameTextList(Lookup(r.config, k), Lookup(s.config, k));
    }
  }

  /**
   * The policy version on a receipt stands for the policy: one hash comes from policies with equal
   * versions, flags and rules, in order, each config equal as JSON, or from a SHA-256 collision. Equal
   * policies have one hash, and an engine reads the same rules from them.
   */
  lemma PolicyHashBinds(sha: Sha, p: PolicySource, q: PolicySource)
    requires p.DictConfigs() && q.DictConfigs() && PolicyHash(sha, p).Ok?
    ensures SamePolicy(p, q) ==> PolicyHash(sha, p) == PolicyHash(sha, q)
    ensures PolicyHash(sha, p) == PolicyHash(sha, q) ==>
              SamePolicy(p, q) || Collides(sha, ObjectCollision(p.Members(), q.Members()))
    ensures SamePolicy(p, q) && WellTyped(p) ==> WellTyped(q) && TypedRules(p) == TypedRules(q)
  {
    hide ObjectHash, ObjectCollision, WellFormed, PolicySource.Members, TypedRule, SameRule;
    PolicyWellFormed(p);
    PolicyWellFormed(q);
    PolicyMembersSame(p, q);
    ObjectHashBinds(sha, p.Members(), q.Members());
    if SamePolicy(p, q) {
      forall i | 0 <= i < |p.rules| ensures TypedRule(p.rules[i]) == TypedRule(q.rules[i]) {
        SameRuleTyped(p.rules[i], q.rules[i]);
      }
    }
  }
}
