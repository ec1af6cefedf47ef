/** The replay cache of authorization tokens at a protected resource (`gateway/middleware.py`). */
module TokenReplay {
  import opened Basics
  import opened ExpiringMap

  const CLOCK_SKEW: real := 5.0
  const JTI_CACHE_MAX: nat := 10000

  /** The claims of a token whose signature, issuer and audience the library has accepted. */
  datatype Claims = Claims(jti: Option<Text>, exp: Option<real>, action: Text, resource: Text)

  /** What the JWT library says of a token under one key, apart from expiry. */
  datatype Decoded = Valid(claims: Claims) | BadSignature | OtherError

  /** `decode(token, key, now)`. A token always carries the same claims, whichever key opens it and whenever. */
  datatype JwtLibrary = JwtLibrary(decode: (Text, Text, real) -> Decoded)
  {
    ghost predicate Lawful() {
      forall t, k, k', now, now' :: decode(t, k, now).Valid? && decode(t, k', now').Valid? ==>
        decode(t, k, now).claims == decode(t, k', now').claims
    }
  }

  datatype Error = NoKey | Expired | InvalidSignature | Replay | WrongAction | WrongResource

  /**
   * One request: the bearer token, the gateway's keys, the action and resource the endpoint expects,
   * and the readings of the clock: by the library, by the first cleaning, for the default expiry, and
   * by the second cleaning.
   */
  datatype Request = Request(
    token: Text, keys: seq<Text>, action: Text, resourcePattern: Text,
    decodeTime: real, cleanTime: real, storeTime: real, secondCleanTime: real)

  /** Section 4.1.4 of RFC 7519 with leeway: a token without `exp` never expires here. */
  predicate HasExpired(c: Claims, now: real) {
    c.exp.Some? && c.exp.value <= now - CLOCK_SKEW
  }

  /** The loop over the keys: the first that opens the token decides; expiry ends the loop at once. */
  function TryKeys(jwt: JwtLibrary, token: Text, keys: seq<Text>, now: real): Result<Claims, Error> {
    if keys == [] then Err(InvalidSignature)
    else
      match jwt.decode(token, keys[0], now)
      case Valid(c) => if HasExpired(c, now) then Err(Expired) else Ok(c)
      case _ => TryKeys(jwt, token, keys[1..], now)
  }

  function CheckToken(jwt: JwtLibrary, r: Request): Result<Claims, Error> {
    if r.keys == [] then Err(NoKey) else TryKeys(jwt, r.token, r.keys, r.decodeTime)
  }

  /** When the entry of a token expires. */
  function EntryTime(c: Claims, now: real): real {
    (if c.exp.Some? then c.exp.value else now + 60.0) + CLOCK_SKEW
  }

  /** The replay check: the new cache, and whether the token got through. Only a nonempty jti is checked. */
  function ReplayCheck(cache: Entries, c: Claims, r: Request): (Entries, bool) {
    if c.jti.None? || c.jti.value == [] then (cache, true)
    else
      var cleaned := Sweep(cache, r.cleanTime);
      if c.jti.value in cleaned then (cleaned, false)
      else
        var stored := cleaned[c.jti.value := EntryTime(c, r.storeTime)];
        (if |stored| > JTI_CACHE_MAX then Sweep(stored, r.secondCleanTime) else stored, true)
  }

  /** The cache after a request: a token with the wrong action is used up all the same. */
  function CacheAfter(jwt: JwtLibrary, cache: Entries, r: Request): Entries {
    match CheckToken(jwt, r)
    case Err(_) => cache
    case Ok(c) => ReplayCheck(cache, c, r).0
  }

  function Answer(jwt: JwtLibrary, cache: Entries, r: Request): Result<Claims, Error> {
    var c :- CheckToken(jwt, r);
    if !ReplayCheck(cache, c, r).1 then Err(Replay)
    else if c.action != r.action then Err(WrongAction)
    else if !Contains(c.resource, r.resourcePattern) && !Contains(r.resourcePattern, c.resource) then Err(WrongResource)
    else Ok(c)
  }

  /** The request got past decoding and past the replay check. */
  predicate GotThrough(jwt: JwtLibrary, cache: Entries, r: Request) {
    CheckToken(jwt, r).Ok? && ReplayCheck(cache, CheckToken(jwt, r).value, r).1
  }

  /** The module-level `_jti_cache` with the dependency that uses it. */
  class TokenVerifier {
    const jwt: JwtLibrary
    var jtiCache: Entries

    constructor (jwt: JwtLibrary)
      ensures this.jwt == jwt && jtiCache == map[]
    {
      this.jwt := jwt;
      jtiCache := map[];
    }

    /** `_clean_jti_cache` */
    method CleanJtiCache(now: real)
      modifies this
      ensures jtiCache == Sweep(old(jtiCache), now)
    {
      jtiCache := DeleteExpired(jtiCache, now);
    }

    /** `verify`, from the token and the fetched keys on. */
    method Verify(r: Request) returns (answer: Result<Claims, Error>)
      modifies this
      ensures answer == Answer(jwt, old(jtiCache), r)
      ensures jtiCache == CacheAfter(jwt, old(jtiCache), r)
    {
      hide Sweep, Contains, HasExpired;
      if r.keys == [] {
        return Err(NoKey);
      }
      var claims := None;
      var i := 0;
      while i < |r.keys| && claims.None?
        invariant 0 <= i <= |r.keys|
        invariant claims.Some? ==> CheckToken(jwt, r) == Ok(claims.value)
        invariant claims.None? ==> TryKeys(jwt, r.token, r.keys, r.decodeTime) == TryKeys(jwt, r.token, r.keys[i..], r.decodeTime)
      {
        match jwt.decode(r.token, r.keys[i], r.decodeTime) {
          case Valid(c) =>
            if HasExpired(c, r.decodeTime) {
              return Err(Expired);
            }
            claims := Some(c);
          case _ =>
        }
        i := i + 1;
      }
      if claims.None? {
        return Err(InvalidSignature);
      }
      var c := claims.value;
      if c.jti.Some? && c.jti.value != [] {
        var jti := c.jti.value;
        CleanJtiCache(r.cleanTime);
        if jti in jtiCache {
          return Err(Replay);
        }
        jtiCache := jtiCache[jti := EntryTime(c, r.storeTime)];
        if |jtiCache| > JTI_CACHE_MAX {
          CleanJtiCache(r.secondCleanTime);
        }
      }
      if c.action != r.action {
        return Err(WrongAction);
      }
      if !Contains(c.resource, r.resourcePattern) && !Contains(r.resourcePattern, c.resource) {
        return Err(WrongResource);
      }
      return Ok(c);
    }
  }

  // ----- what a request that is let in has shown -----

  /** The first of the gateway's keys that opens the token, whatever the later ones would do. */
  predicate OpenedBy(jwt: JwtLibrary, r: Request, j: nat, c: Claims)
    requires j < |r.keys|
  {
    jwt.decode(r.token, r.keys[j], r.decodeTime) == Valid(c) && forall i | 0 <= i < j :: !jwt.decode(r.token, r.keys[i], r.decodeTime).Valid?
  }

  predicate ExpiredAt(c: Claims, now: real) {
    match c.exp case Some(exp) => now >= exp + 5.0 case None => false
  }

  /** The jti has been seen: its entry is there and has not run out. */
  predicate Seen(cache: Entries, c: Claims, now: real) {
    match c.jti case Some(jti) => jti != [] && jti in cache && cache[jti] >= now case None => false
  }

  lemma {:induction false} TriedKeys(jwt: JwtLibrary, token: Text, keys: seq<Text>, now: real, j: nat, c: Claims)
    requires j < |keys| && jwt.decode(token, keys[j], now) == Valid(c)
    requires forall i | 0 <= i < j :: !jwt.decode(token, keys[i], now).Valid?
    ensures TryKeys(jwt, token, keys, now) == if ExpiredAt(c, now) then Err(Expired) else Ok(c)
    decreases j
  {
    if j > 0 {
      TriedKeys(jwt, token, keys[1..], now, j - 1, c);
    }
  }

  lemma {:induction false} NoKeyOpens(jwt: JwtLibrary, token: Text, keys: seq<Text>, now: real)
    requires forall i | 0 <= i < |keys| :: !jwt.decode(token, keys[i], now).Valid?
    ensures TryKeys(jwt, token, keys, now) == Err(InvalidSignature)
    decreases |keys|
  {
    if keys != [] {
      NoKeyOpens(jwt, token, keys[1..], now);
    }
  }

  /** One resource text lies in the other, at some place. */
  predicate Overlap(s: Text, t: Text) {
    || (exists i | 0 <= i <= |s| - |t| :: FoundAt(s, t, i))
    || (exists i | 0 <= i <= |t| - |s| :: FoundAt(t, s, i))
  }

  /**
   * A token that some key of the gateway opens: the request is let in if and only if it has not expired,
   * has not been seen, is for the endpoint's action, and its resource and the endpoint's overlap; otherwise
   * the answer is the first of these that fails.
   */
  lemma OpenedAnswer(jwt: JwtLibrary, cache: Entries, r: Request, j: nat, c: Claims)
    requires j < |r.keys| && OpenedBy(jwt, r, j, c)
    ensures Answer(jwt, cache, r) ==
            if ExpiredAt(c, r.decodeTime) then Err(Expired)
            else if Seen(cache, c, r.cleanTime) then Err(Replay)
            else if c.action != r.action then Err(WrongAction)
            else if !Overlap(c.resource, r.resourcePattern) then Err(WrongResource)
            else Ok(c)
  {
    hide TryKeys, Contains, Overlap;
    TriedKeys(jwt, r.token, r.keys, r.decodeTime, j, c);
    OverlapIsContained(c.resource, r.resourcePattern);
  }

  lemma OverlapIsContained(s: Text, t: Text)
    ensures Overlap(s, t) <==> Contains(s, t) || Contains(t, s)
  {
  }

  /** A token that no key opens is refused, and so is every token when the gateway gives no keys. */
  lemma UnopenedAnswer(jwt: JwtLibrary, cache: Entries, r: Request)
    requires forall i | 0 <= i < |r.keys| :: !jwt.decode(r.token, r.keys[i], r.decodeTime).Valid?
    ensures Answer(jwt, cache, r) == Err(if r.keys == [] then NoKey else InvalidSignature)
    ensures CacheAfter(jwt, cache, r) == cache
  {
    NoKeyOpens(jwt, r.token, r.keys, r.decodeTime);
  }

  // ----- runs -----

  function RunCache(jwt: JwtLibrary, requests: seq<Request>): Entries {
    if requests == [] then map[]
    else CacheAfter(jwt, RunCache(jwt, requests[..|requests| - 1]), requests[|requests| - 1])
  }

  predicate GotThroughAt(jwt: JwtLibrary, requests: seq<Request>, i: nat)
    requires i < |requests|
  {
    GotThrough(jwt, RunCache(jwt, requests[..i]), requests[i])
  }

  /** The clock never goes back, within a request or between requests. */
  predicate Chronological(requests: seq<Request>) {
    && (forall i | 0 <= i < |requests| ::
          requests[i].decodeTime <= requests[i].cleanTime <= requests[i].storeTime <= requests[i].secondCleanTime)
    && (forall i, k | 0 <= i < k < |requests| :: requests[i].secondCleanTime <= requests[k].decodeTime)
  }

  lemma {:induction false} UsedIsRemembered(jwt: JwtLibrary, requests: seq<Request>, i: nat)
    requires Chronological(requests) && i < |requests| && GotThroughAt(jwt, requests, i)
    requires CheckToken(jwt, requests[i]).value.jti.Some? && CheckToken(jwt, requests[i]).value.jti.value != []
    ensures var c := CheckToken(jwt, requests[i]).value;
            Remembers(RunCache(jwt, requests), c.jti.value, EntryTime(c, requests[i].storeTime), requests[|requests| - 1].secondCleanTime)
    decreases |requests|
  {
    hide CheckToken, Sweep, Remembers, EntryTime;
    var n := |requests| - 1;
    var before, r := requests[..n], requests[n];
    var cache := RunCache(jwt, before);
    var c := CheckToken(jwt, requests[i]).value;
    var jti, until := c.jti.value, EntryTime(c, requests[i].storeTime);
    if i < n {
      assert before[..i] == requests[..i] && before[i] == requests[i];
      assert forall k | 0 <= k < n :: before[k] == requests[k];
      UsedIsRemembered(jwt, before, i);
      StepRemembers(jwt, cache, r, jti, until, before[n - 1].secondCleanTime);
    } else {
      var stored := Sweep(cache, r.cleanTime)[jti := until];
      StoredRemembers(Sweep(cache, r.cleanTime), jti, until, r.secondCleanTime);
      PlainStored(Sweep(cache, r.cleanTime), jti, until, r.secondCleanTime);
    }
  }

  lemma PlainStored(m: Entries, id: Text, until: real, now: real)
    ensures Remembers(m[id := until], id, until, now)
  {
  }

  lemma StepRemembers(jwt: JwtLibrary, cache: Entries, r: Request, jti: Text, until: real, clock: real)
    requires Remembers(cache, jti, until, clock)
    requires clock <= r.cleanTime <= r.secondCleanTime
    ensures Remembers(CacheAfter(jwt, cache, r), jti, until, r.secondCleanTime)
  {
    hide CheckToken, Sweep, Remembers, EntryTime;
    LaterRemembers(cache, jti, until, clock, r.secondCleanTime);
    SweepRemembers(cache, jti, until, clock, r.cleanTime);
    var cleaned := Sweep(cache, r.cleanTime);
    LaterRemembers(cleaned, jti, until, r.cleanTime, r.secondCleanTime);
    if CheckToken(jwt, r).Ok? {
      var c := CheckToken(jwt, r).value;
      if c.jti.Some? && c.jti.value !in cleaned {
        var stored := cleaned[c.jti.value := EntryTime(c, r.storeTime)];
        PutRemembers(cleaned, jti, until, r.cleanTime, c.jti.value, EntryTime(c, r.storeTime));
        LaterRemembers(stored, jti, until, r.cleanTime, r.secondCleanTime);
        SweepRemembers(stored, jti, until, r.cleanTime, r.secondCleanTime);
      }
    }
  }

  /** A jti gets through again only in a request whose first cleaning runs after the entry's time. */
  lemma ReuseNeedsEviction(jwt: JwtLibrary, requests: seq<Request>, i: nat, k: nat)
    requires Chronological(requests) && i < k < |requests|
    requires GotThroughAt(jwt, requests, i) && GotThroughAt(jwt, requests, k)
    requires CheckToken(jwt, requests[i]).value.jti.Some? && CheckToken(jwt, requests[i]).value.jti.value != []
    requires CheckToken(jwt, requests[k]).value.jti == CheckToken(jwt, requests[i]).value.jti
    ensures requests[k].cleanTime > EntryTime(CheckToken(jwt, requests[i]).value, requests[i].storeTime)
  {
    hide CheckToken, Sweep, EntryTime, RunCache;
    var before, r := requests[..k], requests[k];
    assert before[..i] == requests[..i] && before[i] == requests[i];
    assert forall m | 0 <= m < k :: before[m] == requests[m];
    UsedIsRemembered(jwt, before, i);
    var c := CheckToken(jwt, requests[i]).value;
    SweepRemembers(RunCache(jwt, before), c.jti.value, EntryTime(c, requests[i].storeTime), before[k - 1].secondCleanTime, r.cleanTime);
  }

  /** The moment `exp + skew` falls between the library's reading of the clock and the cleaning's, in one request. */
  predicate Straddles(r: Request, exp: real) {
    r.decodeTime < exp + CLOCK_SKEW < r.cleanTime
  }

  lemma {:induction false} TryKeysNotExpired(jwt: JwtLibrary, token: Text, keys: seq<Text>, now: real)
    requires TryKeys(jwt, token, keys, now).Ok?
    ensures !HasExpired(TryKeys(jwt, token, keys, now).value, now)
    ensures exists k :: jwt.decode(token, k, now) == Valid(TryKeys(jwt, token, keys, now).value)
  {
    match jwt.decode(token, keys[0], now)
    case Valid(c) =>
    case _ => TryKeysNotExpired(jwt, token, keys[1..], now);
  }

  /**
   * Single use: over every run on a clock that never goes back, a token carrying jti and exp gets
   * through the replay check at most once, unless one request's readings straddle the very moment it
   * stops being accepted.
   */
  lemma TokenSingleUse(jwt: JwtLibrary, requests: seq<Request>, i: nat, k: nat)
    requires jwt.Lawful() && Chronological(requests) && i < k < |requests|
    requires GotThroughAt(jwt, requests, i) && GotThroughAt(jwt, requests, k)
    requires requests[i].token == requests[k].token
    requires var c := CheckToken(jwt, requests[i]).value; c.jti.Some? && c.jti.value != [] && c.exp.Some?
    ensures Straddles(requests[k], CheckToken(jwt, requests[i]).value.exp.value)
  {
    hide RunCache, ReplayCheck, TryKeys;
    var a, b := requests[i], requests[k];
    TryKeysNotExpired(jwt, a.token, a.keys, a.decodeTime);
    TryKeysNotExpired(jwt, b.token, b.keys, b.decodeTime);
    assert CheckToken(jwt, a) == CheckToken(jwt, b);
    ReuseNeedsEviction(jwt, requests, i, k);
  }

  /**
   * The exception is real: a request that follows one in which the token got through, with the same
   * token still accepted by the library, gets through exactly when its readings straddle.
   */
  lemma SecondUseIffStraddles(jwt: JwtLibrary, cache: Entries, first: Request, second: Request)
    requires jwt.Lawful() && GotThrough(jwt, cache, first) && CheckToken(jwt, second).Ok?
    requires first.token == second.token
    requires first.decodeTime <= first.cleanTime <= first.secondCleanTime <= second.decodeTime <= second.cleanTime
    requires var c := CheckToken(jwt, first).value; c.jti.Some? && c.jti.value != [] && c.exp.Some?
    ensures GotThrough(jwt, CacheAfter(jwt, cache, first), second) <==>
            Straddles(second, CheckToken(jwt, first).value.exp.value)
  {
    hide TryKeys;
    TryKeysNotExpired(jwt, first.token, first.keys, first.decodeTime);
    TryKeysNotExpired(jwt, second.token, second.keys, second.decodeTime);
    assert CheckToken(jwt, first) == CheckToken(jwt, second);
  }

  /** Over every run, a token without exp gets through again only 65 seconds after it was last stored. */
  lemma NoExpReuse(jwt: JwtLibrary, requests: seq<Request>, i: nat, k: nat)
    requires jwt.Lawful() && Chronological(requests) && i < k < |requests|
    requires GotThroughAt(jwt, requests, i) && GotThroughAt(jwt, requests, k)
    requires requests[i].token == requests[k].token
    requires var c := CheckToken(jwt, requests[i]).value; c.jti.Some? && c.jti.value != [] && c.exp.None?
    ensures requests[k].cleanTime > requests[i].storeTime + 65.0
  {
    hide RunCache, ReplayCheck, TryKeys;
    var a, b := requests[i], requests[k];
    TryKeysNotExpired(jwt, a.token, a.keys, a.decodeTime);
    TryKeysNotExpired(jwt, b.token, b.keys, b.decodeTime);
    ReuseNeedsEviction(jwt, requests, i, k);
  }

  /**
   * And then it does: a request that follows one in which such a token got through, with the token
   * still accepted by the library, gets through exactly when its cleaning runs more than 65 seconds
   * after the entry was made. The library never rejects such a token for its age.
   */
  lemma SecondNoExpUseIff(jwt: JwtLibrary, cache: Entries, first: Request, second: Request)
    requires jwt.Lawful() && GotThrough(jwt, cache, first) && CheckToken(jwt, second).Ok?
    requires first.token == second.token
    requires first.decodeTime <= first.cleanTime <= first.storeTime <= first.secondCleanTime <= second.decodeTime <= second.cleanTime
    requires var c := CheckToken(jwt, first).value; c.jti.Some? && c.jti.value != [] && c.exp.None?
    ensures GotThrough(jwt, CacheAfter(jwt, cache, first), second) <==> second.cleanTime > first.storeTime + 65.0
  {
    hide TryKeys;
    TryKeysNotExpired(jwt, first.token, first.keys, first.decodeTime);
    TryKeysNotExpired(jwt, second.token, second.keys, second.decodeTime);
    assert CheckToken(jwt, first) == CheckToken(jwt, second);
  }
}
