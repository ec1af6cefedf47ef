/** The replay cache of DPoP proofs (`verify_agent_proof` in `gateway/identity.py`). */
module ProofReplay {
  import opened Basics
  import opened ExpiringMap

  const PROOF_MAX_AGE: real := 30.0

  /** The claims the code reads; a missing `iat` reads as 0 and a missing `jti` as "". */
  datatype Claims = Claims(iat: real, jti: Text, action: Option<Text>, resource: Option<Text>, actionDigest: Option<Text>)

  datatype Decoded = Valid(claims: Claims) | BadSignature | BadToken

  /**
   * The JWT library: `subject` reads the unverified `sub` of a token (None when malformed), and
   * `decode(token, key, now)` verifies it under a key while its clock reads `now`.
   */
  datatype JwtLibrary = JwtLibrary(subject: Text -> Option<Text>, decode: (Text, Text, real) -> Decoded)
  {
    /** It rejects tokens whose `iat`, cut to whole seconds, is later than now; and a token always carries the same claims. */
    ghost predicate Lawful() {
      && (forall t, k, now :: decode(t, k, now).Valid? ==> decode(t, k, now).claims.iat.Floor as real <= now)
      && (forall t, k, k', now, now' :: decode(t, k, now).Valid? && decode(t, k', now').Valid? ==>
            decode(t, k, now).claims == decode(t, k', now').claims)
    }
  }

  datatype Error =
    | Malformed | AgentMismatch | UnregisteredAgent | InvalidSignature | InvalidProof | ProofExpired
    | ActionMismatch | ResourceMismatch | DigestMissing | DigestMismatch | Replay

  /**
   * One call of `verify_agent_proof`: its arguments, the keys registered at the time, and the four
   * readings of the clock, by the library, for the age, for the new entry and for the sweep.
   */
  datatype Attempt = Attempt(
    token: Text, agentId: Text, action: Text, resource: Text, actionDigest: Option<Text>,
    registry: map<Text, Text>, decodeTime: real, ageTime: real, storeTime: real, sweepTime: real)

  /** The checks before the cache: the claims, or the first error. */
  function CheckClaims(jwt: JwtLibrary, a: Attempt): Result<Claims, Error> {
    match jwt.subject(a.token)
    case None => Err(Malformed)
    case Some(sub) =>
      if sub != a.agentId then Err(AgentMismatch)
      else if sub !in a.registry then Err(UnregisteredAgent)
      else
        match jwt.decode(a.token, a.registry[sub], a.decodeTime)
        case BadSignature => Err(InvalidSignature)
        case BadToken => Err(InvalidProof)
        case Valid(c) =>
          if a.ageTime - c.iat > PROOF_MAX_AGE then Err(ProofExpired)
          else if c.action != Some(a.action) then Err(ActionMismatch)
          else if c.resource != Some(a.resource) then Err(ResourceMismatch)
          else if a.actionDigest.Some? && a.actionDigest.value != [] && (c.actionDigest.None? || c.actionDigest.value == []) then
            Err(DigestMissing)
          else if a.actionDigest.Some? && a.actionDigest.value != [] && c.actionDigest != a.actionDigest then Err(DigestMismatch)
          else Ok(c)
  }

  function Outcome(jwt: JwtLibrary, cache: Entries, a: Attempt): Result<Claims, Error> {
    var c :- CheckClaims(jwt, a);
    if c.jti in cache then Err(Replay) else Ok(c)
  }

  function CacheAfter(jwt: JwtLibrary, cache: Entries, a: Attempt): Entries {
    match Outcome(jwt, cache, a)
    case Err(_) => cache
    case Ok(c) => Sweep(cache[c.jti := a.storeTime + PROOF_MAX_AGE], a.sweepTime)
  }

  /** The module-level `_proof_jti_cache` with the function that uses it. */
  class ProofVerifier {
    const jwt: JwtLibrary
    var cache: Entries

    constructor (jwt: JwtLibrary)
      ensures this.jwt == jwt && cache == map[]
    {
      this.jwt := jwt;
      cache := map[];
    }

    method VerifyAgentProof(a: Attempt) returns (r: Result<Claims, Error>)
      modifies this
      ensures r == Outcome(jwt, old(cache), a)
      ensures cache == CacheAfter(jwt, old(cache), a)
    {
      hide Sweep;
      var sub := jwt.subject(a.token);
      if sub.None? {
        return Err(Malformed);
      }
      if sub.value != a.agentId {
        return Err(AgentMismatch);
      }
      if sub.value !in a.registry {
        return Err(UnregisteredAgent);
      }
      var decoded := jwt.decode(a.token, a.registry[sub.value], a.decodeTime);
      match decoded {
        case BadSignature => return Err(InvalidSignature);
        case BadToken => return Err(InvalidProof);
        case Valid(_) =>
      }
      var claims := decoded.claims;
      if a.ageTime - claims.iat > PROOF_MAX_AGE {
        return Err(ProofExpired);
      }
      if claims.action != Some(a.action) {
        return Err(ActionMismatch);
      }
      if claims.resource != Some(a.resource) {
        return Err(ResourceMismatch);
      }
      if a.actionDigest.Some? && a.actionDigest.value != [] {
        if claims.actionDigest.None? || claims.actionDigest.value == [] {
          return Err(DigestMissing);
        }
        if claims.actionDigest != a.actionDigest {
          return Err(DigestMismatch);
        }
      }
      if claims.jti in cache {
        return Err(Replay);
      }
      cache := cache[claims.jti := a.storeTime + PROOF_MAX_AGE];
      cache := DeleteExpired(cache, a.sweepTime);
      return Ok(claims);
    }
  }

  // ----- what an accepted proof proves -----

  /** The claims are for this call: its action, its resource and, when one is expected, its digest. */
  predicate ForCall(c: Claims, a: Attempt) {
    && c.action == Some(a.action) && c.resource == Some(a.resource)
    && (a.actionDigest.Some? && a.actionDigest.value != [] ==> c.actionDigest == a.actionDigest)
  }

  /** The token is the agent's own: it names the agent as its subject and opens under the agent's registered key. */
  predicate OpensForAgent(jwt: JwtLibrary, a: Attempt, c: Claims) {
    && jwt.subject(a.token) == Some(a.agentId) && a.agentId in a.registry
    && jwt.decode(a.token, a.registry[a.agentId], a.decodeTime) == Valid(c)
  }

  /** A proof is accepted if and only if it is the agent's own, at most 30 seconds old, for this very call, and unused. */
  lemma AcceptedIff(jwt: JwtLibrary, cache: Entries, a: Attempt, c: Claims)
    ensures Outcome(jwt, cache, a) == Ok(c) <==>
            OpensForAgent(jwt, a, c) && a.ageTime - c.iat <= 30.0 && ForCall(c, a) && c.jti !in cache
  {
  }

  /** What comes of opening a registered agent's own token under its key. */
  function Opened(jwt: JwtLibrary, a: Attempt): Option<Decoded> {
    if jwt.subject(a.token) == Some(a.agentId) && a.agentId in a.registry
    then Some(jwt.decode(a.token, a.registry[a.agentId], a.decodeTime))
    else None
  }

  /** Each answer names what is wrong, and a later check is only reached when the earlier ones have passed. */
  lemma RefusedBecause(jwt: JwtLibrary, cache: Entries, a: Attempt)
    ensures var o := Outcome(jwt, cache, a);
            && (o == Err(Malformed) <==> jwt.subject(a.token).None?)
            && (o == Err(AgentMismatch) <==> jwt.subject(a.token).Some? && jwt.subject(a.token).value != a.agentId)
            && (o == Err(UnregisteredAgent) <==> jwt.subject(a.token) == Some(a.agentId) && a.agentId !in a.registry)
            && (o == Err(InvalidSignature) <==> Opened(jwt, a) == Some(BadSignature))
            && (o == Err(InvalidProof) <==> Opened(jwt, a) == Some(BadToken))
    ensures forall c: Claims | OpensForAgent(jwt, a, c) ::
              var o := Outcome(jwt, cache, a);
              && (o == Err(ProofExpired) <==> a.ageTime - c.iat > 30.0)
              && (o == Err(ActionMismatch) <==> a.ageTime - c.iat <= 30.0 && c.action != Some(a.action))
              && (o == Err(ResourceMismatch) <==>
                    a.ageTime - c.iat <= 30.0 && c.action == Some(a.action) && c.resource != Some(a.resource))
              && (o == Err(DigestMissing) <==>
                    && a.ageTime - c.iat <= 30.0 && c.action == Some(a.action) && c.resource == Some(a.resource)
                    && !ForCall(c, a) && (c.actionDigest.None? || c.actionDigest.value == []))
              && (o == Err(DigestMismatch) <==>
                    && a.ageTime - c.iat <= 30.0 && c.action == Some(a.action) && c.resource == Some(a.resource)
                    && !ForCall(c, a) && c.actionDigest.Some? && c.actionDigest.value != [])
              && (o == Err(Replay) <==> a.ageTime - c.iat <= 30.0 && ForCall(c, a) && c.jti in cache)
  {
  }

  // ----- runs -----

  function RunCache(jwt: JwtLibrary, attempts: seq<Attempt>): Entries {
    if attempts == [] then map[]
    else CacheAfter(jwt, RunCache(jwt, attempts[..|attempts| - 1]), attempts[|attempts| - 1])
  }

  /** The answer to attempt `i` of a run. */
  function OutcomeAt(jwt: JwtLibrary, attempts: seq<Attempt>, i: nat): Result<Claims, Error>
    requires i < |attempts|
  {
    Outcome(jwt, RunCache(jwt, attempts[..i]), attempts[i])
  }

  /** The clock never goes back, within a call or between calls. */
  predicate Chronological(attempts: seq<Attempt>) {
    && (forall i | 0 <= i < |attempts| ::
          attempts[i].decodeTime <= attempts[i].ageTime <= attempts[i].storeTime <= attempts[i].sweepTime)
    && (forall i, k | 0 <= i < k < |attempts| :: attempts[i].sweepTime <= attempts[k].decodeTime)
  }

  /** An accepted jti stays known until 30 seconds after its entry was made. */
  lemma {:induction false} AcceptedIsRemembered(jwt: JwtLibrary, attempts: seq<Attempt>, i: nat)
    requires Chronological(attempts) && i < |attempts| && OutcomeAt(jwt, attempts, i).Ok?
    ensures var jti := OutcomeAt(jwt, attempts, i).value.jti;
            Remembers(RunCache(jwt, attempts), jti, attempts[i].storeTime + PROOF_MAX_AGE, attempts[|attempts| - 1].sweepTime)
    decreases |attempts|
  {
    hide CheckClaims, Sweep, Remembers;
    var n := |attempts| - 1;
    var before, a := attempts[..n], attempts[n];
    var cache := RunCache(jwt, before);
    var until := attempts[i].storeTime + PROOF_MAX_AGE;
    var jti := OutcomeAt(jwt, attempts, i).value.jti;
    if i < n {
      assert before[..i] == attempts[..i] && before[i] == attempts[i];
      assert forall k | 0 <= k < n :: before[k] == attempts[k];
      AcceptedIsRemembered(jwt, before, i);
      match Outcome(jwt, cache, a)
      case Err(_) => LaterRemembers(cache, jti, until, before[n - 1].sweepTime, a.sweepTime);
      case Ok(c) =>
        PutRemembers(cache, jti, until, before[n - 1].sweepTime, c.jti, a.storeTime + PROOF_MAX_AGE);
        SweepRemembers(cache[c.jti := a.storeTime + PROOF_MAX_AGE], jti, until, before[n - 1].sweepTime, a.sweepTime);
    } else {
      StoredRemembers(cache, jti, until, a.sweepTime);
    }
  }

  /**
   * A jti is accepted a second time only from a proof issued after the first acceptance: the age
   * bound expires no later than the entry can be evicted.
   */
  lemma JtiReuseIsLater(jwt: JwtLibrary, attempts: seq<Attempt>, i: nat, k: nat)
    requires Chronological(attempts) && i < k < |attempts|
    requires OutcomeAt(jwt, attempts, i).Ok? && OutcomeAt(jwt, attempts, k).Ok?
    requires OutcomeAt(jwt, attempts, i).value.jti == OutcomeAt(jwt, attempts, k).value.jti
    ensures OutcomeAt(jwt, attempts, k).value.iat > attempts[i].storeTime
  {
    hide RunCache;
    var before := attempts[..k];
    assert before[..i] == attempts[..i] && before[i] == attempts[i];
    assert forall m | 0 <= m < k :: before[m] == attempts[m];
    AcceptedIsRemembered(jwt, before, i);
  }

  /** The proof was issued at a whole second, as the agents' own helper does. */
  predicate WholeSecond(c: Claims) {
    c.iat.Floor as real == c.iat
  }

  /**
   * Single use: over every run with a clock that never goes back, no proof issued at a whole second is
   * accepted twice.
   */
  lemma ProofSingleUse(jwt: JwtLibrary, attempts: seq<Attempt>, i: nat, k: nat)
    requires jwt.Lawful() && Chronological(attempts) && i < k < |attempts|
    requires OutcomeAt(jwt, attempts, i).Ok? && OutcomeAt(jwt, attempts, k).Ok?
    ensures attempts[i].token != attempts[k].token || !WholeSecond(OutcomeAt(jwt, attempts, i).value)
  {
    hide RunCache;
    if attempts[i].token == attempts[k].token {
      SameTokenSameClaims(jwt, attempts, i, k);
      JtiReuseIsLater(jwt, attempts, i, k);
    }
  }

  lemma SameTokenSameClaims(jwt: JwtLibrary, attempts: seq<Attempt>, i: nat, k: nat)
    requires jwt.Lawful() && i < k < |attempts|
    requires OutcomeAt(jwt, attempts, i).Ok? && OutcomeAt(jwt, attempts, k).Ok?
    requires attempts[i].token == attempts[k].token
    ensures OutcomeAt(jwt, attempts, i).value == OutcomeAt(jwt, attempts, k).value
    ensures OutcomeAt(jwt, attempts, i).value.iat.Floor as real <= attempts[i].decodeTime
  {
    hide RunCache;
    var a, b := attempts[i], attempts[k];
    assert jwt.decode(a.token, a.registry[a.agentId], a.decodeTime).Valid?;
    assert jwt.decode(b.token, b.registry[b.agentId], b.decodeTime).Valid?;
  }

  // ----- the exception -----

  function ClaimsAt(iat: real, jti: Text): Claims {
    Claims(iat, jti, Some([]), Some([]), None)
  }

  /** A lawful library that knows two tokens, one issued at `iat` and one 30 seconds after that second began. */
  function TwoTokens(iat: real): JwtLibrary {
    JwtLibrary(
      t => Some([]),
      (t, k, now) =>
        var claims := if t == [1] then ClaimsAt(iat, [1]) else ClaimsAt(iat.Floor as real + 30.0, [2]);
        if claims.iat.Floor as real <= now then Valid(claims) else BadToken)
  }

  function AttemptAt(token: Text, now: real): Attempt {
    Attempt(token, [], [], [], None, map[[] := []], now, now, now, now)
  }

  /**
   * The exception is real: for every `iat` with a fraction there is a run in which a proof issued then
   * is accepted twice. The library accepts it before its time has come, its entry is gone 30 seconds
   * later, and the proof itself is still young enough.
   */
  lemma FractionalProofTwice(iat: real) returns (attempts: seq<Attempt>)
    requires iat.Floor as real != iat
    ensures TwoTokens(iat).Lawful() && Chronological(attempts) && |attempts| == 3
    ensures attempts[0].token == attempts[2].token
    ensures OutcomeAt(TwoTokens(iat), attempts, 0) == Ok(ClaimsAt(iat, [1])) == OutcomeAt(TwoTokens(iat), attempts, 2)
  {
    hide RunCache, Outcome, CacheAfter;
    var jwt := TwoTokens(iat);
    var start := iat.Floor as real;
    var middle := start + 30.0 + (iat - start) / 2.0;
    attempts := [AttemptAt([1], start), AttemptAt([2], middle), AttemptAt([1], iat + 30.0)];
    RunOfTwo(jwt, attempts);
    var one := CacheAfter(jwt, map[], attempts[0]);
    FirstAccepted(iat);
    assert one == map[[1] := start + 30.0];
    SecondSweeps(iat, middle);
    ThirdAccepted(iat, CacheAfter(jwt, one, attempts[1]));
    TwoTokensLawful(iat);
  }

  lemma TwoTokensLawful(iat: real)
    ensures TwoTokens(iat).Lawful()
  {
  }

  lemma RunOfTwo(jwt: JwtLibrary, attempts: seq<Attempt>)
    requires |attempts| == 3
    ensures RunCache(jwt, attempts[..0]) == map[]
    ensures RunCache(jwt, attempts[..2]) == CacheAfter(jwt, CacheAfter(jwt, map[], attempts[0]), attempts[1])
  {
    hide CacheAfter;
    assert attempts[..2][..1][..0] == [] && attempts[..2][..1][0] == attempts[0] && attempts[..2][1] == attempts[1];
    assert RunCache(jwt, attempts[..2][..1][..0]) == map[];
    assert RunCache(jwt, attempts[..2][..1]) == CacheAfter(jwt, map[], attempts[0]);
  }

  lemma FirstAccepted(iat: real)
    ensures var a := AttemptAt([1], iat.Floor as real);
            && Outcome(TwoTokens(iat), map[], a) == Ok(ClaimsAt(iat, [1]))
            && CacheAfter(TwoTokens(iat), map[], a) == map[[1] := iat.Floor as real + 30.0]
  {
  }

  lemma SecondSweeps(iat: real, now: real)
    requires iat.Floor as real + 30.0 < now <= iat.Floor as real + 31.0
    ensures [1] !in CacheAfter(TwoTokens(iat), map[[1] := iat.Floor as real + 30.0], AttemptAt([2], now))
  {
  }

  lemma ThirdAccepted(iat: real, cache: Entries)
    requires [1] !in cache
    ensures Outcome(TwoTokens(iat), cache, AttemptAt([1], iat + 30.0)) == Ok(ClaimsAt(iat, [1]))
  {
  }
}
