/** The registration challenges of `gateway/identity.py` and the endpoint that hands them out. */
module Challenges {
  import opened Basics
  import SlidingWindow

  const CHALLENGE_RATE_LIMIT: int := 10
  const CHALLENGE_RATE_WINDOW: real := 60.0
  const CHALLENGE_DICT_MAX: nat := 10000

  /** The alphabet of base64url without padding, in which nonces are drawn. */
  predicate UrlSafe(c: CodePoint) {
    0x61 <= c <= 0x7A || 0x41 <= c <= 0x5A || 0x30 <= c <= 0x39 || c == 0x2D || c == 0x5F
  }

  type Nonce = t: Text | forall i | 0 <= i < |t| :: UrlSafe(t[i])

  datatype Challenge = Challenge(nonce: Nonce, challengeId: Text, tenant: Text, agentId: Text, expiresAt: real, consumed: bool)

  /** `f"{tenant}:{agent_id}:{nonce}"` */
  function KeyOf(tenant: Text, agentId: Text, nonce: Text): Text {
    tenant + [0x3A] + agentId + [0x3A] + nonce
  }

  /** `_gc` */
  function Live(challenges: map<Text, Challenge>, now: real): (r: map<Text, Challenge>)
    ensures forall k :: k in r <==> k in challenges && now <= challenges[k].expiresAt
    ensures forall k | k in r :: r[k] == challenges[k]
  {
    map k | k in challenges && now <= challenges[k].expiresAt :: challenges[k]
  }

  datatype Cache = Cache(challenges: map<Text, Challenge>, ipRequests: map<Text, seq<real>>)

  /**
   * `Ask` is a request for a challenge: rate limit, capacity, `issue`; `drawn` and the id are what the
   * random sources give. `Redeem` tries to consume one. Each carries its readings of the clock. An agent
   * id, and the nonce and the id of a redemption, are any texts: the endpoints check lengths only.
   */
  datatype Use =
    | Ask(ip: Text, tenant: Text, agentId: Text, drawn: Nonce, challengeId: Text, ttl: real, rateTime: real, gcTime: real, issueTime: real)
    | Redeem(tenant: Text, agentId: Text, nonce: Text, challengeId: Text, gcTime: real, now: real)

  datatype Answer = Issued(challenge: Challenge) | RateLimited | Full | Consumed | NotFound | Replay | Expired | IdMismatch

  function RequestsOf(c: Cache, ip: Text): seq<real> {
    if ip in c.ipRequests then c.ipRequests[ip] else []
  }

  function AnswerTo(c: Cache, u: Use): Answer {
    match u
    case Ask(ip, tenant, agentId, nonce, challengeId, ttl, rateTime, gcTime, issueTime) =>
      if !SlidingWindow.Admits(RequestsOf(c, ip), CHALLENGE_RATE_LIMIT, CHALLENGE_RATE_WINDOW, rateTime) then RateLimited
      else if |c.challenges| >= CHALLENGE_DICT_MAX then Full
      else Issued(Challenge(nonce, challengeId, tenant, agentId, issueTime + ttl, false))
    case Redeem(tenant, agentId, nonce, challengeId, gcTime, now) =>
      var key := KeyOf(tenant, agentId, nonce);
      var live := Live(c.challenges, gcTime);
      if key !in live then NotFound
      else if live[key].consumed then Replay
      else if now > live[key].expiresAt then Expired
      else if live[key].challengeId != challengeId then IdMismatch
      else Consumed
  }

  function CacheAfter(c: Cache, u: Use): Cache {
    match u
    case Ask(ip, tenant, agentId, nonce, _, _, rateTime, gcTime, _) =>
      var counted := Cache(c.challenges, c.ipRequests[ip :=
        SlidingWindow.Use(RequestsOf(c, ip), CHALLENGE_RATE_LIMIT, CHALLENGE_RATE_WINDOW, SlidingWindow.Op(rateTime, false))]);
      (match AnswerTo(c, u)
       case Issued(ch) => counted.(challenges := Live(c.challenges, gcTime)[KeyOf(tenant, agentId, nonce) := ch])
       case _ => counted)
    case Redeem(tenant, agentId, nonce, _, gcTime, _) =>
      var live := Live(c.challenges, gcTime);
      c.(challenges := if AnswerTo(c, u).Consumed? then live - {KeyOf(tenant, agentId, nonce)} else live)
  }

  class RegistrationChallengeCache {
    var challenges: map<Text, Challenge>
    var ipRequests: map<Text, seq<real>>

    constructor ()
      ensures Now() == Cache(map[], map[])
    {
      challenges, ipRequests := map[], map[];
    }

    function Now(): Cache
      reads this
    {
      Cache(challenges, ipRequests)
    }

    /** `check_rate_limit` */
    method CheckRateLimit(ip: Text, now: real) returns (ok: bool)
      modifies `ipRequests
      ensures ok == SlidingWindow.Admits(RequestsOf(old(Now()), ip), CHALLENGE_RATE_LIMIT, CHALLENGE_RATE_WINDOW, now)
      ensures ipRequests == old(ipRequests)[ip :=
        SlidingWindow.Use(RequestsOf(old(Now()), ip), CHALLENGE_RATE_LIMIT, CHALLENGE_RATE_WINDOW, SlidingWindow.Op(now, false))]
    {
      var history := if ip in ipRequests then ipRequests[ip] else [];
      history := SlidingWindow.After(history, now - CHALLENGE_RATE_WINDOW);
      if |history| >= CHALLENGE_RATE_LIMIT {
        ipRequests := ipRequests[ip := history];
        return false;
      }
      history := history + [now];
      ipRequests := ipRequests[ip := history];
      return true;
    }

    /** `_gc` */
    method CollectGarbage(now: real)
      modifies `challenges
      ensures challenges == Live(old(challenges), now)
    {
      var expired := set k | k in challenges && now > challenges[k].expiresAt;
      while expired != {}
        invariant forall k :: k in expired ==> k in challenges && k in old(challenges) && now > old(challenges)[k].expiresAt
        invariant forall k :: k in challenges <==> k in old(challenges) && (now <= old(challenges)[k].expiresAt || k in expired)
        invariant forall k | k in challenges :: challenges[k] == old(challenges)[k]
        decreases |expired|
      {
        var k :| k in expired;
        challenges := challenges - {k};
        expired := expired - {k};
      }
    }

    /** The endpoint that hands out challenges, with `check_rate_limit`, `check_capacity` and `issue`. */
    method RegisterChallenge(u: Use) returns (answer: Answer)
      requires u.Ask?
      modifies this
      ensures answer == AnswerTo(old(Now()), u) && Now() == CacheAfter(old(Now()), u)
    {
      hide SlidingWindow.Use, SlidingWindow.Admits, Live;
      var ok := CheckRateLimit(u.ip, u.rateTime);
      if !ok {
        return RateLimited;
      }
      if !(|challenges| < CHALLENGE_DICT_MAX) {
        return Full;
      }
      CollectGarbage(u.gcTime);
      var ch := Challenge(u.drawn, u.challengeId, u.tenant, u.agentId, u.issueTime + u.ttl, false);
      challenges := challenges[KeyOf(u.tenant, u.agentId, u.drawn) := ch];
      return Issued(ch);
    }

    /** `consume` */
    method ConsumeChallenge(u: Use) returns (answer: Answer)
      requires u.Redeem?
      modifies this
      ensures answer == AnswerTo(old(Now()), u) && Now() == CacheAfter(old(Now()), u)
    {
      CollectGarbage(u.gcTime);
      var key := KeyOf(u.tenant, u.agentId, u.nonce);
      if key !in challenges {
        return NotFound;
      }
      var ch := challenges[key];
      if ch.consumed {
        return Replay;
      }
      if u.now > ch.expiresAt {
        return Expired;
      }
      if ch.challengeId != u.challengeId {
        return IdMismatch;
      }
      challenges := challenges[key := ch.(consumed := true)];
      challenges := challenges - {key};
      return Consumed;
    }
  }

  // ----- runs -----

  function RunCache(us: seq<Use>): Cache {
    if us == [] then Cache(map[], map[]) else CacheAfter(RunCache(us[..|us| - 1]), us[|us| - 1])
  }

  function AnswerAt(us: seq<Use>, i: nat): Answer
    requires i < |us|
  {
    AnswerTo(RunCache(us[..i]), us[i])
  }

  /** Challenge ids are fresh: no two requests of a run draw the same. */
  predicate FreshIds(us: seq<Use>) {
    forall i, k | 0 <= i < k < |us| && us[i].Ask? && us[k].Ask? :: us[i].challengeId != us[k].challengeId
  }

  predicate Asked(us: seq<Use>, id: Text) {
    exists i | 0 <= i < |us| :: us[i].Ask? && us[i].challengeId == id
  }

  /** Every stored challenge was asked for, is stored under its own key, has its own id, and is not marked consumed. */
  predicate Tidy(challenges: map<Text, Challenge>, us: seq<Use>) {
    && (forall k | k in challenges ::
          && Asked(us, challenges[k].challengeId) && !challenges[k].consumed
          && k == KeyOf(challenges[k].tenant, challenges[k].agentId, challenges[k].nonce))
    && (forall k, l | k in challenges && l in challenges && challenges[k].challengeId == challenges[l].challengeId :: k == l)
  }

  lemma AskedBefore(us: seq<Use>, id: Text)
    requires us != [] && Asked(us[..|us| - 1], id)
    ensures Asked(us, id)
    ensures FreshIds(us) && us[|us| - 1].Ask? ==> us[|us| - 1].challengeId != id
  {
    var i :| 0 <= i < |us| - 1 && us[..|us| - 1][i].Ask? && us[..|us| - 1][i].challengeId == id;
    assert us[i] == us[..|us| - 1][i];
  }

  lemma {:induction false} ChallengesTidy(us: seq<Use>)
    requires FreshIds(us)
    ensures Tidy(RunCache(us).challenges, us)
    decreases |us|
  {
    hide Asked, SlidingWindow.Use, SlidingWindow.Admits, KeyOf;
    if us != [] {
      var before, u := us[..|us| - 1], us[|us| - 1];
      assert FreshIds(before);
      ChallengesTidy(before);
      var c := RunCache(before);
      forall k | k in c.challenges
        ensures Asked(us, c.challenges[k].challengeId) && (u.Ask? ==> u.challengeId != c.challenges[k].challengeId)
      {
        AskedBefore(us, c.challenges[k].challengeId);
      }
      if u.Ask? {
        LastAsked(us);
      }
    }
  }

  lemma LastAsked(us: seq<Use>)
    requires us != [] && us[|us| - 1].Ask?
    ensures Asked(us, us[|us| - 1].challengeId)
  {
  }

  predicate Absent(challenges: map<Text, Challenge>, id: Text) {
    forall k | k in challenges :: challenges[k].challengeId != id
  }

  /** A challenge, once consumed, is gone for good. */
  lemma {:induction false} ConsumedStaysAbsent(us: seq<Use>, i: nat)
    requires i < |us| && FreshIds(us) && us[i].Redeem? && AnswerAt(us, i).Consumed?
    ensures Absent(RunCache(us).challenges, us[i].challengeId)
    decreases |us|
  {
    hide CacheAfter, Asked, Tidy, Absent;
    var n := |us| - 1;
    var before, u := us[..n], us[n];
    var id := us[i].challengeId;
    assert forall k | 0 <= k < n :: before[k] == us[k];
    assert FreshIds(before);
    ChallengesTidy(before);
    if i < n {
      assert before[..i] == us[..i];
      ConsumedStaysAbsent(before, i);
      ConsumedWasAsked(before, i);
      AskedBefore(us, id);
      StepKeepsAbsent(RunCache(before), u, id);
    } else {
      ConsumeRemoves(RunCache(before), u, before);
    }
  }

  lemma StepKeepsAbsent(c: Cache, u: Use, id: Text)
    requires Absent(c.challenges, id) && (u.Ask? ==> u.challengeId != id)
    ensures Absent(CacheAfter(c, u).challenges, id)
  {
    hide SlidingWindow.Use, SlidingWindow.Admits, KeyOf;
  }

  lemma ConsumeRemoves(c: Cache, u: Use, us: seq<Use>)
    requires Tidy(c.challenges, us) && u.Redeem? && AnswerTo(c, u).Consumed?
    ensures Absent(CacheAfter(c, u).challenges, u.challengeId)
  {
    hide KeyOf, Asked;
  }

  lemma ConsumedWasAsked(us: seq<Use>, i: nat)
    requires i < |us| && FreshIds(us) && us[i].Redeem? && AnswerAt(us, i).Consumed?
    ensures Asked(us, us[i].challengeId)
  {
    hide RunCache;
    assert FreshIds(us[..i]);
    ChallengesTidy(us[..i]);
    assert Asked(us[..i], us[i].challengeId);
    var k :| 0 <= k < i && us[..i][k].Ask? && us[..i][k].challengeId == us[i].challengeId;
    assert us[k] == us[..i][k];
  }

  /** Single use: over every run, with fresh ids, no challenge is consumed twice. */
  lemma ChallengeConsumedOnce(us: seq<Use>, i: nat, k: nat)
    requires FreshIds(us) && i < k < |us| && us[i].Redeem? && us[k].Redeem?
    requires AnswerAt(us, i).Consumed? && AnswerAt(us, k).Consumed?
    ensures us[i].challengeId != us[k].challengeId
  {
    hide RunCache, KeyOf;
    var before := us[..k];
    assert before[i] == us[i] && before[..i] == us[..i];
    assert FreshIds(before);
    ConsumedStaysAbsent(before, i);
  }

  /** Every stored challenge lies under its own key and is not marked consumed. */
  predicate Filed(challenges: map<Text, Challenge>) {
    forall k | k in challenges ::
      !challenges[k].consumed && k == KeyOf(challenges[k].tenant, challenges[k].agentId, challenges[k].nonce)
  }

  lemma {:induction false} ChallengesFiled(us: seq<Use>)
    ensures Filed(RunCache(us).challenges)
    decreases |us|
  {
    hide SlidingWindow.Use, SlidingWindow.Admits, KeyOf;
    if us != [] {
      ChallengesFiled(us[..|us| - 1]);
    }
  }

  /** A consumed challenge is removed, never kept marked: no run ever answers REPLAY. */
  lemma ReplayNeverAnswered(us: seq<Use>, i: nat)
    requires i < |us|
    ensures !AnswerAt(us, i).Replay?
  {
    hide RunCache, KeyOf;
    ChallengesFiled(us[..i]);
  }

  predicate OneTenant(us: seq<Use>, tenant: Text) {
    forall k | 0 <= k < |us| && us[k].Ask? :: us[k].tenant == tenant
  }

  lemma {:induction false} StoredTenant(us: seq<Use>, tenant: Text, key: Text)
    requires OneTenant(us, tenant) && key in RunCache(us).challenges
    ensures RunCache(us).challenges[key].tenant == tenant
    decreases |us|
  {
    hide SlidingWindow.Use, SlidingWindow.Admits, KeyOf;
    if us != [] {
      var before := us[..|us| - 1];
      assert OneTenant(before, tenant);
      if key in RunCache(before).challenges {
        StoredTenant(before, tenant, key);
      }
    }
  }

  /** Two keys of one tenant agree on the agent exactly when the nonce that may hold colons does not. */
  lemma SameKeySameAgent(t: Text, a: Text, n: Text, b: Text, m: Nonce)
    requires KeyOf(t, a, n) == KeyOf(t, b, m)
    ensures a == b <==> ColonFree(n)
    ensures a == b ==> n == m
  {
    assert ColonFree(m);
    assert KeyOf(t, a, n) == t + [0x3A] + (a + [0x3A] + n) && KeyOf(t, b, m) == t + [0x3A] + (b + [0x3A] + m);
    SplitEqual(t + [0x3A], a + [0x3A] + n, t + [0x3A], b + [0x3A] + m);
    if a == b {
      SplitEqual(a + [0x3A], n, b + [0x3A], m);
    }
    if ColonFree(n) {
      SplitAtLastColon(a, n, b, m);
    }
  }

  /**
   * Exactly who consumes what: within one tenant, a redemption that consumes is in time and states the
   * challenge's id, and it comes from the agent the challenge was issued to if and only if the nonce it
   * states holds no colon.
   */
  lemma ConsumedAsIssued(us: seq<Use>, i: nat)
    requires i < |us| && us[i].Redeem? && OneTenant(us[..i], us[i].tenant)
    requires AnswerAt(us, i).Consumed?
    ensures var key := KeyOf(us[i].tenant, us[i].agentId, us[i].nonce);
            var c := RunCache(us[..i]).challenges;
            && key in c && c[key].challengeId == us[i].challengeId
            && us[i].gcTime <= c[key].expiresAt && us[i].now <= c[key].expiresAt
            && (c[key].agentId == us[i].agentId <==> ColonFree(us[i].nonce))
            && (c[key].agentId == us[i].agentId ==> c[key].nonce == us[i].nonce)
  {
    hide RunCache, KeyOf;
    var key := KeyOf(us[i].tenant, us[i].agentId, us[i].nonce);
    ChallengesFiled(us[..i]);
    StoredTenant(us[..i], us[i].tenant, key);
    var ch := RunCache(us[..i]).challenges[key];
    SameKeySameAgent(us[i].tenant, us[i].agentId, us[i].nonce, ch.agentId, ch.nonce);
  }

  /** The other half is real: a challenge issued to `a:b` is consumed by `a`, who puts the `b` before the nonce. */
  lemma AnotherAgentConsumes(ip: Text, tenant: Text, a: Text, b: Text, nonce: Nonce, id: Text)
    ensures var us := [Ask(ip, tenant, a + [0x3A] + b, nonce, id, 60.0, 0.0, 0.0, 0.0),
                       Redeem(tenant, a, b + [0x3A] + nonce, id, 1.0, 1.0)];
            && a != a + [0x3A] + b
            && AnswerAt(us, 0).Issued? && AnswerAt(us, 0).challenge.agentId == a + [0x3A] + b
            && AnswerAt(us, 1).Consumed?
  {
    hide KeyOf;
    var us := [Ask(ip, tenant, a + [0x3A] + b, nonce, id, 60.0, 0.0, 0.0, 0.0),
               Redeem(tenant, a, b + [0x3A] + nonce, id, 1.0, 1.0)];
    KeyShift(tenant, a, b, nonce);
    assert |a| < |a + [0x3A] + b|;
    RunOfOne(us);
  }

  lemma RunOfOne(us: seq<Use>)
    requires us != []
    ensures RunCache(us[..0]) == Cache(map[], map[])
    ensures RunCache(us[..1]) == CacheAfter(Cache(map[], map[]), us[0])
  {
    hide CacheAfter;
    assert us[..1][..0] == [];
  }

  lemma KeyShift(tenant: Text, a: Text, b: Text, nonce: Text)
    ensures KeyOf(tenant, a + [0x3A] + b, nonce) == KeyOf(tenant, a, b + [0x3A] + nonce)
  {
    assert tenant + [0x3A] + (a + [0x3A] + b) + [0x3A] + nonce == tenant + [0x3A] + a + [0x3A] + (b + [0x3A] + nonce);
  }

  /** What a redemption is answered, exactly: the first of these that goes wrong. */
  lemma RedeemAnswer(us: seq<Use>, u: Use)
    requires u.Redeem?
    ensures var c := RunCache(us).challenges;
            var key := u.tenant + [0x3A] + u.agentId + [0x3A] + u.nonce;
            AnswerTo(RunCache(us), u) ==
            if key !in c || u.gcTime > c[key].expiresAt then NotFound
            else if u.now > c[key].expiresAt then Expired
            else if u.challengeId != c[key].challengeId then IdMismatch
            else Consumed
  {
    hide RunCache;
    ChallengesFiled(us);
  }

  /**
   * A challenge that was asked for and issued can be redeemed: with its nonce and id, by its agent, when
   * nothing happened in between and its time, 60 seconds or as configured, has not run out.
   */
  lemma IssuedIsRedeemable(us: seq<Use>, ask: Use, redeem: Use)
    requires ask.Ask? && redeem.Redeem? && AnswerTo(RunCache(us), ask).Issued?
    requires redeem.tenant == ask.tenant && redeem.agentId == ask.agentId
    requires redeem.nonce == ask.drawn && redeem.challengeId == ask.challengeId
    ensures AnswerTo(RunCache(us), ask).challenge == Challenge(ask.drawn, ask.challengeId, ask.tenant, ask.agentId, ask.issueTime + ask.ttl, false)
    ensures AnswerTo(CacheAfter(RunCache(us), ask), redeem) ==
            if redeem.gcTime > ask.issueTime + ask.ttl then NotFound
            else if redeem.now > ask.issueTime + ask.ttl then Expired else Consumed
  {
    hide RunCache, SlidingWindow.Use, SlidingWindow.Admits, KeyOf;
  }

  /** What a request for a challenge is answered: refused above ten admitted in the last minute, then when the cache is full. */
  lemma AskAnswer(us: seq<Use>, u: Use)
    requires u.Ask?
    requires var past := AsksOf(us, u.ip); SlidingWindow.Chronological(past) && (past != [] ==> past[|past| - 1].now <= u.rateTime)
    ensures var admitted := SlidingWindow.History(10, 60.0, AsksOf(us, u.ip));
            var answer := AnswerTo(RunCache(us), u);
            && (answer == RateLimited <==> |SlidingWindow.After(admitted, u.rateTime - 60.0)| >= 10)
            && (answer == Full <==> |SlidingWindow.After(admitted, u.rateTime - 60.0)| < 10 && |RunCache(us).challenges| >= 10000)
            && (answer.Issued? <==> |SlidingWindow.After(admitted, u.rateTime - 60.0)| < 10 && |RunCache(us).challenges| < 10000)
  {
    hide RunCache, AsksOf, SlidingWindow.History, SlidingWindow.InWindow, SlidingWindow.After, RequestsOf;
    AddressLimited(us, u.ip, u.rateTime, u.rateTime);
  }

  // ----- the limits -----

  function AsksOf(us: seq<Use>, ip: Text): seq<SlidingWindow.Op> {
    if us == [] then []
    else
      AsksOf(us[..|us| - 1], ip) +
      if us[|us| - 1].Ask? && us[|us| - 1].ip == ip then [SlidingWindow.Op(us[|us| - 1].rateTime, false)] else []
  }

  /** The list of an address is the pruned list of its requests, so the limiter's laws hold of it: it answers as the full history would. */
  lemma AddressLimited(us: seq<Use>, ip: Text, now: real, t: real)
    requires SlidingWindow.Chronological(AsksOf(us, ip)) && (AsksOf(us, ip) != [] ==> AsksOf(us, ip)[|AsksOf(us, ip)| - 1].now <= now)
    ensures var full := SlidingWindow.History(CHALLENGE_RATE_LIMIT, CHALLENGE_RATE_WINDOW, AsksOf(us, ip));
            && (SlidingWindow.Admits(RequestsOf(RunCache(us), ip), CHALLENGE_RATE_LIMIT, CHALLENGE_RATE_WINDOW, now) <==>
                SlidingWindow.Admits(full, CHALLENGE_RATE_LIMIT, CHALLENGE_RATE_WINDOW, now))
            && |SlidingWindow.InWindow(full, t, CHALLENGE_RATE_WINDOW)| <= 10
  {
    hide SlidingWindow.Use, SlidingWindow.Admits, SlidingWindow.History, SlidingWindow.Kept, AsksOf, RunCache, SlidingWindow.InWindow;
    AddressKept(us, ip);
    SlidingWindow.PrunedAnswersAsFull(CHALLENGE_RATE_LIMIT, CHALLENGE_RATE_WINDOW, AsksOf(us, ip), now);
    SlidingWindow.WindowBound(CHALLENGE_RATE_LIMIT, CHALLENGE_RATE_WINDOW, AsksOf(us, ip), t);
  }

  lemma {:induction false} AddressKept(us: seq<Use>, ip: Text)
    ensures RequestsOf(RunCache(us), ip) == SlidingWindow.Kept(CHALLENGE_RATE_LIMIT, CHALLENGE_RATE_WINDOW, AsksOf(us, ip))
    decreases |us|
  {
    hide SlidingWindow.Use, SlidingWindow.Admits, KeyOf;
    if us != [] {
      var before, u := us[..|us| - 1], us[|us| - 1];
      AddressKept(before, ip);
      var asks := AsksOf(before, ip);
      if u.Ask? && u.ip == ip {
        assert (asks + [SlidingWindow.Op(u.rateTime, false)])[..|asks|] == asks;
      } else {
        assert asks + [] == asks;
      }
    }
  }

  function RunFrom(c: Cache, us: seq<Use>): Cache
    decreases |us|
  {
    if us == [] then c else RunFrom(CacheAfter(c, us[0]), us[1..])
  }

  /**
   * Capacity is checked before the expired are swept: once the cache is full, requests alone never
   * empty it, however much time passes. All are refused until a challenge is redeemed or tried.
   */
  lemma {:induction false} FullStaysFull(c: Cache, us: seq<Use>)
    requires |c.challenges| >= CHALLENGE_DICT_MAX && forall i | 0 <= i < |us| :: us[i].Ask?
    ensures RunFrom(c, us).challenges == c.challenges
    ensures forall u: Use | u.Ask? :: !AnswerTo(RunFrom(c, us), u).Issued?
    decreases |us|
  {
    hide SlidingWindow.Use, SlidingWindow.Admits;
    if us != [] {
      FullStaysFull(CacheAfter(c, us[0]), us[1..]);
    }
  }

  /** Request number `n` of a run in which every request comes from a new address, at time 0. */
  function NewAsk(tenant: Text, agentId: Text, n: nat): Use {
    Ask(Unary(n), tenant, agentId, Unary(n), Unary(n), 60.0, 0.0, 0.0, 0.0)
  }

  function Unary(n: nat): (t: Nonce)
    ensures |t| == n
  {
    seq(n, _ => 0x61)
  }

  function Asks(tenant: Text, agentId: Text, n: nat): (us: seq<Use>)
    ensures |us| == n && forall i | 0 <= i < n :: us[i] == NewAsk(tenant, agentId, i)
  {
    seq(n, i requires 0 <= i < n => NewAsk(tenant, agentId, i))
  }

  lemma {:induction false} AsksFill(tenant: Text, agentId: Text, n: nat)
    requires n <= CHALLENGE_DICT_MAX
    ensures var c := RunCache(Asks(tenant, agentId, n));
            && |c.challenges| == n
            && (forall k | k in c.challenges :: |k| < |KeyOf(tenant, agentId, [])| + n && c.challenges[k].expiresAt == 60.0)
            && (forall ip | ip in c.ipRequests :: |ip| < n)
  {
    hide CacheAfter;
    if n > 0 {
      var us := Asks(tenant, agentId, n);
      assert us[..n - 1] == Asks(tenant, agentId, n - 1);
      AsksFill(tenant, agentId, n - 1);
      AskFillsOne(tenant, agentId, n - 1, RunCache(us[..n - 1]));
    }
  }

  lemma AskFillsOne(tenant: Text, agentId: Text, n: nat, c: Cache)
    requires n < CHALLENGE_DICT_MAX && |c.challenges| == n
    requires forall k | k in c.challenges :: |k| < |KeyOf(tenant, agentId, [])| + n && c.challenges[k].expiresAt == 60.0
    requires forall ip | ip in c.ipRequests :: |ip| < n
    ensures var d := CacheAfter(c, NewAsk(tenant, agentId, n));
            && |d.challenges| == n + 1
            && (forall k | k in d.challenges :: |k| < |KeyOf(tenant, agentId, [])| + n + 1 && d.challenges[k].expiresAt == 60.0)
            && (forall ip | ip in d.ipRequests :: |ip| < n + 1)
  {
    hide SlidingWindow.Use, KeyOf;
    var u := NewAsk(tenant, agentId, n);
    KeyLength(tenant, agentId, u.drawn);
    assert RequestsOf(c, u.ip) == [] && AnswerTo(c, u).Issued?;
    assert Live(c.challenges, 0.0) == c.challenges;
    assert KeyOf(tenant, agentId, u.drawn) !in c.challenges;
  }

  lemma KeyLength(tenant: Text, agentId: Text, nonce: Text)
    ensures |KeyOf(tenant, agentId, nonce)| == |KeyOf(tenant, agentId, [])| + |nonce|
  {
  }

  /** A full cache is reached: ten thousand requests, each from another address, fill it, and then it stays full. */
  lemma FullIsReached(tenant: Text, agentId: Text, us: seq<Use>)
    requires forall i | 0 <= i < |us| :: us[i].Ask?
    ensures var full := RunCache(Asks(tenant, agentId, CHALLENGE_DICT_MAX));
            && |full.challenges| == CHALLENGE_DICT_MAX
            && RunFrom(full, us).challenges == full.challenges
            && forall u: Use | u.Ask? :: !AnswerTo(RunFrom(full, us), u).Issued?
  {
    hide RunCache, RunFrom, AnswerTo, Asks, KeyOf;
    AsksFill(tenant, agentId, CHALLENGE_DICT_MAX);
    FullStaysFull(RunCache(Asks(tenant, agentId, CHALLENGE_DICT_MAX)), us);
  }
}
