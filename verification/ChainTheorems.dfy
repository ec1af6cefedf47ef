/** What passing `verify_chain` means, and how the two verifiers relate. */
module ChainTheorems {
  import opened Basics
  import opened Json
  import Numerals
  import opened Sha256
  import opened Platform
  import opened Receipts
  import opened Verify
  import Canonical
  import CanonicalTheorems

  // ----- a chain passes when every link holds -----

  /** The receipt passes its own checks, carries number `n`, points to `prev`, and states a hash. */
  predicate LinkOk(p: Platform, e: Envelope, key: Jwk, prev: Text, n: int) {
    && EarlyFailure(e, key).None?
    && BodyErrors(p, e, key) == []
    && Lookup(e.body, Lit("seq")).Some?
    && p.IntOf(Lookup(e.body, Lit("seq")).value) == Some(n)
    && Lookup(e.body, Lit("prev_receipt")) == Some(Str(prev))
    && e.receiptHash.Some?
  }

  /** The hash that receipt `i` should point to, in a list whose first receipt points to `first`. */
  function PrevOf(envelopes: seq<Envelope>, i: nat, first: Text): Text
    requires i <= |envelopes|
  {
    if i == 0 then first
    else
      match envelopes[i - 1].receiptHash
      case Some(t) => t
      case None => []
  }

  predicate LinksOk(p: Platform, envelopes: seq<Envelope>, key: Jwk, keysByKid: map<Text, Jwk>, first: Text, n: int) {
    forall i | 0 <= i < |envelopes| :: LinkOkAt(p, envelopes, key, keysByKid, first, n, i)
  }

  predicate LinkOkAt(p: Platform, envelopes: seq<Envelope>, key: Jwk, keysByKid: map<Text, Jwk>, first: Text, n: int, i: nat)
    requires i < |envelopes|
  {
    LinkOk(p, envelopes[i], KeyFor(envelopes[i], key, keysByKid), PrevOf(envelopes, i, first), n + i)
  }

  lemma LinkFailureNone(p: Platform, e: Envelope, key: Jwk, prev: Text, n: int)
    ensures LinkFailure(p, e, key, prev, n).None? <==> LinkOk(p, e, key, prev, n)
    ensures LinkFailure(p, e, key, prev, n) != Some(Returned(PASSED))
  {
    hide Lookup, BodyErrors, EarlyFailure;
  }

  lemma {:induction false} ChainFromPasses(
    p: Platform, envelopes: seq<Envelope>, key: Jwk, keysByKid: map<Text, Jwk>, first: Text, n: int)
    ensures ChainFrom(p, envelopes, key, keysByKid, first, n) == Returned(PASSED) <==>
            LinksOk(p, envelopes, key, keysByKid, first, n)
    decreases |envelopes|
  {
    hide LinkFailure, LinkOk, LinkOkAt, KeyFor;
    if envelopes != [] {
      var e, later := envelopes[0], envelopes[1..];
      LinkFailureNone(p, e, KeyFor(e, key, keysByKid), first, n);
      if LinkOk(p, e, KeyFor(e, key, keysByKid), first, n) {
        LinkOkHash(p, e, KeyFor(e, key, keysByKid), first, n);
        ChainFromPasses(p, later, key, keysByKid, e.receiptHash.value, n + 1);
        LinksOkCons(p, envelopes, key, keysByKid, first, n);
      } else {
        LinkOkHead(p, envelopes, key, keysByKid, first, n);
      }
    }
  }

  lemma LinkOkHash(p: Platform, e: Envelope, key: Jwk, prev: Text, n: int)
    requires LinkOk(p, e, key, prev, n)
    ensures e.receiptHash.Some?
  {
  }

  lemma LinksOkCons(p: Platform, envelopes: seq<Envelope>, key: Jwk, keysByKid: map<Text, Jwk>, first: Text, n: int)
    requires envelopes != [] && envelopes[0].receiptHash.Some?
    requires LinkOk(p, envelopes[0], KeyFor(envelopes[0], key, keysByKid), first, n)
    ensures LinksOk(p, envelopes, key, keysByKid, first, n) <==>
            LinksOk(p, envelopes[1..], key, keysByKid, envelopes[0].receiptHash.value, n + 1)
  {
    hide LinkOk, LinkOkAt, KeyFor;
    var later, hash := envelopes[1..], envelopes[0].receiptHash.value;
    var m := n + 1;
    forall i | 0 < i < |envelopes|
      ensures LinkOkAt(p, envelopes, key, keysByKid, first, n, i) <==> LinkOkAt(p, later, key, keysByKid, hash, m, i - 1)
    {
      LinkOkShift(p, envelopes, key, keysByKid, first, n, i - 1);
    }
    LinkOkHead(p, envelopes, key, keysByKid, first, n);
    if LinksOk(p, later, key, keysByKid, hash, m) {
      forall i | 0 <= i < |envelopes| ensures LinkOkAt(p, envelopes, key, keysByKid, first, n, i) {
        if i > 0 {
          assert LinkOkAt(p, later, key, keysByKid, hash, m, i - 1);
        }
      }
    }
    if LinksOk(p, envelopes, key, keysByKid, first, n) {
      forall j | 0 <= j < |later| ensures LinkOkAt(p, later, key, keysByKid, hash, m, j) {
        assert LinkOkAt(p, envelopes, key, keysByKid, first, n, j + 1);
      }
    }
  }

  lemma LinkOkHead(p: Platform, envelopes: seq<Envelope>, key: Jwk, keysByKid: map<Text, Jwk>, first: Text, n: int)
    requires envelopes != []
    ensures LinkOkAt(p, envelopes, key, keysByKid, first, n, 0) <==>
            LinkOk(p, envelopes[0], KeyFor(envelopes[0], key, keysByKid), first, n)
  {
    hide LinkOk, KeyFor;
  }

  lemma LinkOkShift(p: Platform, envelopes: seq<Envelope>, key: Jwk, keysByKid: map<Text, Jwk>, first: Text, n: int, j: nat)
    requires j + 1 < |envelopes| && envelopes[0].receiptHash.Some?
    ensures LinkOkAt(p, envelopes[1..], key, keysByKid, envelopes[0].receiptHash.value, n + 1, j) <==>
            LinkOkAt(p, envelopes, key, keysByKid, first, n, j + 1)
  {
    hide LinkOk, KeyFor;
    assert PrevOf(envelopes[1..], j, envelopes[0].receiptHash.value) == PrevOf(envelopes, j + 1, first);
  }

  /** `verify_chain` reports PASS and PASS exactly for the nonempty lists, numbered from 1, whose links all hold. */
  lemma ChainPassesIff(p: Platform, envelopes: seq<Envelope>, key: Jwk, keysByKid: map<Text, Jwk>)
    ensures ChainVerdict(p, envelopes, key, keysByKid) == Returned(PASSED) <==>
            envelopes != [] && LinksOk(p, envelopes, key, keysByKid, Genesis(), 1)
  {
    ChainFromPasses(p, envelopes, key, keysByKid, Genesis(), 1);
  }

  // ----- tamper evidence -----

  function BodyBytes(e: Envelope): Bytes {
    match Canonical.Canonicalize(Obj(e.body))
    case Ok(b) => b
    case Err(_) => []
  }

  /** Compares two chains from their ends and gives the first pair of differing canonical bodies. */
  function ChainCollision(xs: seq<Envelope>, ys: seq<Envelope>): (Bytes, Bytes) {
    if xs == [] || ys == [] then ([], [])
    else
      var a, b := BodyBytes(xs[|xs| - 1]), BodyBytes(ys[|ys| - 1]);
      if a != b then (a, b) else ChainCollision(xs[..|xs| - 1], ys[..|ys| - 1])
  }

  predicate SameBodies(xs: seq<Envelope>, ys: seq<Envelope>) {
    |xs| == |ys| && forall i | 0 <= i < |xs| :: Same(Obj(xs[i].body), Obj(ys[i].body))
  }

  predicate DictBodies(xs: seq<Envelope>) {
    forall i | 0 <= i < |xs| :: WellFormed(Obj(xs[i].body))
  }

  predicate HashesStated(xs: seq<Envelope>) {
    forall i | 0 <= i < |xs| :: xs[i].receiptHash.Some? && xs[i].receiptHash.value != []
  }

  lemma LinkHash(p: Platform, e: Envelope, key: Jwk, prev: Text, n: int)
    requires LinkOk(p, e, key, prev, n)
    ensures Canonical.Canonicalize(Obj(e.body)) == Ok(BodyBytes(e))
    ensures e.receiptHash.Some? && (e.receiptHash.value != [] ==> e.receiptHash.value == HashText(p.sha, BodyBytes(e)))
  {
    hide Canonical.Canonicalize, Lookup;
  }

  /** Two sound links with the same stated hash have equal bodies, numbers and predecessors, or collide. */
  lemma LinkBinds(p: Platform, d: Envelope, dKey: Jwk, dPrev: Text, m: int, e: Envelope, eKey: Jwk, ePrev: Text, n: int)
    requires LinkOk(p, d, dKey, dPrev, m) && LinkOk(p, e, eKey, ePrev, n)
    requires d.receiptHash == e.receiptHash && d.receiptHash.value != []
    requires WellFormed(Obj(d.body)) && WellFormed(Obj(e.body))
    ensures p.sha(BodyBytes(d)) == p.sha(BodyBytes(e))
    ensures BodyBytes(d) == BodyBytes(e) ==> Same(Obj(d.body), Obj(e.body)) && m == n && dPrev == ePrev
  {
    hide Canonical.Canonicalize, Lookup, WellFormed, HashText, BodyBytes, EarlyFailure, BodyErrors;
    LinkHash(p, d, dKey, dPrev, m);
    LinkHash(p, e, eKey, ePrev, n);
    EqualHashTexts(p.sha, BodyBytes(d), BodyBytes(e));
    if BodyBytes(d) == BodyBytes(e) {
      CanonicalTheorems.CanonicalizeExact(Obj(d.body), Obj(e.body));
      SameLookup(d.body, e.body, Lit("seq"));
      SameLookup(d.body, e.body, Lit("prev_receipt"));
      p.IntOfSame(Lookup(d.body, Lit("seq")).value, Lookup(e.body, Lit("seq")).value);
    }
  }

  lemma EqualHashTexts(sha: Sha, a: Bytes, b: Bytes)
    requires HashText(sha, a) == HashText(sha, b)
    ensures sha(a) == sha(b)
  {
    DigestTextInjective(sha(a), sha(b));
  }

  /** What tamper evidence asks of a list: sound links, stated hashes, and bodies that are dicts. */
  predicate Sound(p: Platform, xs: seq<Envelope>, key: Jwk, keysByKid: map<Text, Jwk>) {
    LinksOk(p, xs, key, keysByKid, Genesis(), 1) && HashesStated(xs) && DictBodies(xs)
  }

  lemma SoundPrefix(p: Platform, xs: seq<Envelope>, key: Jwk, keysByKid: map<Text, Jwk>)
    requires xs != [] && Sound(p, xs, key, keysByKid)
    ensures Sound(p, xs[..|xs| - 1], key, keysByKid)
  {
    hide LinkOk, KeyFor, WellFormed, Genesis;
    var ys := xs[..|xs| - 1];
    forall i | 0 <= i < |ys| ensures LinkOkAt(p, ys, key, keysByKid, Genesis(), 1, i) {
      assert LinkOkAt(p, xs, key, keysByKid, Genesis(), 1, i);
      assert PrevOf(ys, i, Genesis()) == PrevOf(xs, i, Genesis());
    }
  }

  lemma SoundLast(p: Platform, xs: seq<Envelope>, key: Jwk, keysByKid: map<Text, Jwk>)
    requires xs != [] && Sound(p, xs, key, keysByKid)
    ensures var x := xs[|xs| - 1];
            && LinkOk(p, x, KeyFor(x, key, keysByKid), PrevOf(xs, |xs| - 1, Genesis()), |xs|)
            && x.receiptHash.Some? && x.receiptHash.value != [] && WellFormed(Obj(x.body))
    ensures |xs| > 1 ==> xs[|xs| - 2].receiptHash == Some(PrevOf(xs, |xs| - 1, Genesis()))
  {
    hide LinkOk, KeyFor, WellFormed, Genesis;
    assert LinkOkAt(p, xs, key, keysByKid, Genesis(), 1, |xs| - 1);
    assert 1 + (|xs| - 1) == |xs|;
  }

  lemma {:induction false} SoundListsBind(
    p: Platform, xs: seq<Envelope>, xKey: Jwk, xKeys: map<Text, Jwk>, ys: seq<Envelope>, yKey: Jwk, yKeys: map<Text, Jwk>)
    requires xs != [] && ys != []
    requires Sound(p, xs, xKey, xKeys) && Sound(p, ys, yKey, yKeys)
    requires xs[|xs| - 1].receiptHash == ys[|ys| - 1].receiptHash
    ensures SameBodies(xs, ys) || Collides(p.sha, ChainCollision(xs, ys))
    decreases |xs|
  {
    hide Sound, LinkOk, KeyFor, WellFormed, Same, BodyBytes, Genesis;
    var m, n := |xs|, |ys|;
    var x, y := xs[m - 1], ys[n - 1];
    SoundLast(p, xs, xKey, xKeys);
    SoundLast(p, ys, yKey, yKeys);
    LinkBinds(p, x, KeyFor(x, xKey, xKeys), PrevOf(xs, m - 1, Genesis()), m,
              y, KeyFor(y, yKey, yKeys), PrevOf(ys, n - 1, Genesis()), n);
    if BodyBytes(x) == BodyBytes(y) && m > 1 {
      SoundPrefix(p, xs, xKey, xKeys);
      SoundPrefix(p, ys, yKey, yKeys);
      SoundListsBind(p, xs[..m - 1], xKey, xKeys, ys[..n - 1], yKey, yKeys);
    }
  }

  /**
   * Tamper evidence: two lists that `verify_chain` passes, under any keys, with the same last receipt
   * hash have the same length and the same bodies throughout, or a SHA-256 collision is computed from them.
   */
  lemma TamperEvidence(
    p: Platform, xs: seq<Envelope>, xKey: Jwk, xKeys: map<Text, Jwk>, ys: seq<Envelope>, yKey: Jwk, yKeys: map<Text, Jwk>)
    requires ChainVerdict(p, xs, xKey, xKeys) == Returned(PASSED)
    requires ChainVerdict(p, ys, yKey, yKeys) == Returned(PASSED)
    requires HashesStated(xs) && HashesStated(ys) && DictBodies(xs) && DictBodies(ys)
    requires xs != [] && ys != [] && xs[|xs| - 1].receiptHash == ys[|ys| - 1].receiptHash
    ensures SameBodies(xs, ys) || Collides(p.sha, ChainCollision(xs, ys))
  {
    hide ChainVerdict, LinksOk, HashesStated, DictBodies, SameBodies, ChainCollision, Genesis;
    ChainPassesIff(p, xs, xKey, xKeys);
    ChainPassesIff(p, ys, yKey, yKeys);
    SoundListsBind(p, xs, xKey, xKeys, ys, yKey, yKeys);
  }

  // ----- the verdict on one receipt, said of the receipt itself -----

  /** The receipt gets as far as its hash and its signature. */
  predicate Checkable(e: Envelope, key: Jwk, bytes: Bytes) {
    && e.body != [] && e.sig.Some? && e.sig.value.kid == key.kid && e.sig.value.alg == Some(Lit("EdDSA"))
    && Canonical.Canonicalize(Obj(e.body)) == Ok(bytes)
  }

  /** It carries a signature that the key checks over its canonical bytes, and states their hash or none. */
  predicate Genuine(p: Platform, e: Envelope, key: Jwk, bytes: Bytes) {
    && Checkable(e, key, bytes)
    && (e.receiptHash == None || e.receiptHash == Some([]) || e.receiptHash == Some(Lit("sha256:") + Numerals.ToHex(p.sha(bytes))))
    && key.x.Some? && e.sig.value.value.Some?
    && p.check(key.x.value, e.sig.value.value.value, bytes) == Accepted
  }

  /** Integrity is PASS exactly for genuine receipts, and FAIL for all others. */
  lemma IntegrityExact(p: Platform, e: Envelope, key: Jwk, chain: Option<seq<Envelope>>, bytes: Bytes)
    requires ReceiptVerdict(p, e, key, chain).Returned?
    ensures var integrity := ReceiptVerdict(p, e, key, chain).verdict.integrity;
            && (Checkable(e, key, bytes) ==> (integrity == Pass <==> Genuine(p, e, key, bytes)))
            && (integrity == Pass ==>
                  Canonical.Canonicalize(Obj(e.body)).Ok? && Checkable(e, key, Canonical.Canonicalize(Obj(e.body)).value))
            && (integrity == Pass || integrity == Fail)
  {
    hide Canonical.Canonicalize, Lit, BoundedCheck, Numerals.ToHex;
  }

  /** Which errors a receipt gets before the chain is looked at: one early one that ends the checks, or those of hash and signature. */
  lemma ErrorsExact(p: Platform, e: Envelope, key: Jwk, chain: Option<seq<Envelope>>)
    requires ReceiptVerdict(p, e, key, chain).Returned?
    ensures var v := ReceiptVerdict(p, e, key, chain).verdict;
            && (e.body == [] || e.sig.None? ==> v == Verdict(Fail, Inconclusive, [MissingFields]))
            && (e.body != [] && e.sig.Some? && e.sig.value.kid != key.kid ==> v == Verdict(Fail, Inconclusive, [KidMismatch]))
            && (e.body != [] && e.sig.Some? && e.sig.value.kid == key.kid && e.sig.value.alg != Some(Lit("EdDSA")) ==>
                  v == Verdict(Fail, Inconclusive, [UnsupportedAlgorithm]))
    ensures e.body != [] && e.sig.Some? && e.sig.value.kid == key.kid && e.sig.value.alg == Some(Lit("EdDSA")) &&
            Canonical.Canonicalize(Obj(e.body)).Err? ==>
              ReceiptVerdict(p, e, key, chain) == Returned(Verdict(Fail, Inconclusive, [CanonicalizationFailed]))
    ensures forall bytes | Checkable(e, key, bytes) ::
              var errors := ReceiptVerdict(p, e, key, chain).verdict.errors;
              && (ReceiptHashMismatch in errors <==>
                    e.receiptHash.Some? && e.receiptHash.value != [] && e.receiptHash.value != Lit("sha256:") + Numerals.ToHex(p.sha(bytes)))
              && (SignatureInvalid in errors <==>
                    key.x.Some? && e.sig.value.value.Some? && p.check(key.x.value, e.sig.value.value.value, bytes) == InvalidSignature)
              && (SignatureError in errors <==>
                    key.x.None? || e.sig.value.value.None? || p.check(key.x.value, e.sig.value.value.value, bytes) == Malformed)
  {
    hide Canonical.Canonicalize, Lit, Numerals.ToHex, Lookup, FindBySeq, Genesis;
  }

  // ----- the bounded check, said of the chain itself -----

  /** The number of a receipt; a missing one reads as 0. */
  function SeqNumber(p: Platform, body: seq<Member>): Option<int> {
    match Lookup(body, Lit("seq"))
    case Some(v) => p.IntOf(v)
    case None => p.parseInt(Lit("0"))
  }

  /** The first receipt of the chain that is numbered one less. */
  predicate IsPredecessor(p: Platform, chain: seq<Envelope>, n: int, i: nat)
    requires i < |chain|
  {
    SeqNumber(p, chain[i].body) == Some(n - 1) && forall k | 0 <= k < i :: SeqNumber(p, chain[k].body) != Some(n - 1)
  }

  lemma {:induction false} FoundIsPredecessor(p: Platform, chain: seq<Envelope>, n: int)
    ensures FindBySeq(p, chain, n - 1).None? <==> forall i | 0 <= i < |chain| :: SeqNumber(p, chain[i].body) != Some(n - 1)
    ensures forall i | 0 <= i < |chain| && IsPredecessor(p, chain, n, i) :: FindBySeq(p, chain, n - 1) == Some(chain[i])
  {
    hide Lookup, Lit;
    if chain != [] {
      var later := chain[1..];
      FoundIsPredecessor(p, later, n);
      assert forall i | 0 <= i < |later| :: later[i] == chain[i + 1];
      if SeqNumber(p, chain[0].body) != Some(n - 1) {
        forall i | 0 <= i < |chain| && IsPredecessor(p, chain, n, i) ensures FindBySeq(p, chain, n - 1) == Some(chain[i]) {
          assert forall k | 0 <= k < i - 1 :: later[k] == chain[k + 1];
          assert IsPredecessor(p, later, n, i - 1);
        }
      }
    }
  }

  /**
   * The chain status of a receipt that does not claim to be the first, against a chain: PASS when the
   * predecessor states the hash that the receipt links to, FAIL when it does not, INCONCLUSIVE when there
   * is no predecessor. A link that is neither text nor list makes the error message raise instead.
   */
  lemma PredecessorDecides(p: Platform, body: seq<Member>, chain: seq<Envelope>, n: int, i: nat)
    requires Lookup(body, Lit("prev_receipt")) != Some(Str(Genesis())) && SeqNumber(p, body) == Some(n)
    requires i < |chain| && IsPredecessor(p, chain, n, i)
    ensures var link := GetOr(body, Lit("prev_receipt"), Str([]));
            var stated := match chain[i].receiptHash case Some(t) => Str(t) case None => Null;
            BoundedCheck(p, body, Some(chain)) ==
            if link == stated then Some(Link(Pass, []))
            else if link.Str? || link.Arr? then Some(Link(Fail, [PrevLinkBroken]))
            else None
  {
    hide Lookup, Lit, FindBySeq, IsPredecessor;
    FoundIsPredecessor(p, chain, n);
    GenesisNonempty();
  }

  /** All other cases: genesis passes, and without a chain, a number or a predecessor nothing is concluded. */
  lemma OtherwiseInconclusive(p: Platform, body: seq<Member>, chain: Option<seq<Envelope>>)
    ensures var first := Lookup(body, Lit("prev_receipt")) == Some(Str(Genesis()));
            && (first ==> BoundedCheck(p, body, chain) == Some(Link(Pass, [])))
            && (!first && chain.None? ==> BoundedCheck(p, body, chain) == Some(Link(Inconclusive, [])))
            && (!first && chain.Some? && SeqNumber(p, body).None? ==> BoundedCheck(p, body, chain) == Some(Link(Inconclusive, [SeqInvalid])))
            && (!first && chain.Some? && SeqNumber(p, body).Some? &&
                (forall i | 0 <= i < |chain.value| :: SeqNumber(p, chain.value[i].body) != Some(SeqNumber(p, body).value - 1)) ==>
                  BoundedCheck(p, body, chain) == Some(Link(Inconclusive, [PrevNotFound])))
  {
    hide Lookup, Lit, FindBySeq;
    GenesisNonempty();
    if chain.Some? && SeqNumber(p, body).Some? {
      FoundIsPredecessor(p, chain.value, SeqNumber(p, body).value);
    }
  }

  lemma GenesisNonempty()
    ensures Genesis() != []
  {
  }

  // ----- the verdict on a chain, said of its first bad link -----

  /** Receipt `i` is genuine under its key, states the next number, the link to the one before, and a hash. */
  predicate GoodLink(p: Platform, es: seq<Envelope>, key: Jwk, keysByKid: map<Text, Jwk>, i: nat)
    requires i < |es|
  {
    var e := es[i];
    var kid := match e.sig case None => [] case Some(sig) => match sig.kid case None => [] case Some(t) => t;
    var itsKey := if kid in keysByKid then keysByKid[kid] else key;
    && Canonical.Canonicalize(Obj(e.body)).Ok? && Genuine(p, e, itsKey, Canonical.Canonicalize(Obj(e.body)).value)
    && (match Lookup(e.body, Lit("seq")) case Some(v) => p.IntOf(v) == Some(i + 1) case None => false)
    && Lookup(e.body, Lit("prev_receipt")) ==
       Some(Str(if i == 0 then Genesis() else match es[i - 1].receiptHash case Some(t) => t case None => []))
    && e.receiptHash.Some?
  }

  lemma GoodLinkIs(p: Platform, es: seq<Envelope>, key: Jwk, keysByKid: map<Text, Jwk>, i: nat)
    requires i < |es|
    ensures GoodLink(p, es, key, keysByKid, i) <==> LinkOkAt(p, es, key, keysByKid, Genesis(), 1, i)
  {
    hide Lookup, Lit, Genesis, Canonical.Canonicalize, Numerals.ToHex;
  }

  /** `verify_chain` passes a list exactly when it is not empty and every link is good. */
  lemma ChainPassesExactly(p: Platform, es: seq<Envelope>, key: Jwk, keysByKid: map<Text, Jwk>)
    ensures ChainVerdict(p, es, key, keysByKid) == Returned(PASSED) <==>
            es != [] && forall i | 0 <= i < |es| :: GoodLink(p, es, key, keysByKid, i)
    ensures es == [] ==> ChainVerdict(p, es, key, keysByKid) == Returned(Verdict(Inconclusive, Inconclusive, [EmptyChain]))
  {
    hide ChainVerdict, LinkOkAt, GoodLink, Genesis;
    EmptyIsInconclusive(p, key, keysByKid);
    ChainPassesIff(p, es, key, keysByKid);
    forall i | 0 <= i < |es| ensures GoodLink(p, es, key, keysByKid, i) <==> LinkOkAt(p, es, key, keysByKid, Genesis(), 1, i) {
      GoodLinkIs(p, es, key, keysByKid, i);
    }
  }

  lemma EmptyIsInconclusive(p: Platform, key: Jwk, keysByKid: map<Text, Jwk>)
    ensures ChainVerdict(p, [], key, keysByKid) == Returned(Verdict(Inconclusive, Inconclusive, [EmptyChain]))
  {
  }

  lemma {:induction false} ChainStopsAt(p: Platform, es: seq<Envelope>, key: Jwk, keysByKid: map<Text, Jwk>, first: Text, n: int, i: nat)
    requires i < |es| && LinksOk(p, es[..i], key, keysByKid, first, n) && !LinkOkAt(p, es, key, keysByKid, first, n, i)
    ensures Some(ChainFrom(p, es, key, keysByKid, first, n)) ==
            LinkFailure(p, es[i], KeyFor(es[i], key, keysByKid), PrevOf(es, i, first), n + i)
    decreases i
  {
    hide LinkFailure, LinkOk, KeyFor;
    var e, later := es[0], es[1..];
    LinkFailureNone(p, es[i], KeyFor(es[i], key, keysByKid), PrevOf(es, i, first), n + i);
    if i > 0 {
      assert LinkOkAt(p, es[..i], key, keysByKid, first, n, 0);
      LinkFailureNone(p, e, KeyFor(e, key, keysByKid), first, n);
      LinkOkHash(p, e, KeyFor(e, key, keysByKid), first, n);
      assert later[..i - 1] == es[..i][1..];
      LinksOkCons(p, es[..i], key, keysByKid, first, n);
      assert PrevOf(later, i - 1, e.receiptHash.value) == PrevOf(es, i, first);
      ChainStopsAt(p, later, key, keysByKid, e.receiptHash.value, n + 1, i - 1);
    }
  }

  /**
   * Otherwise the first bad link decides: a receipt that is not genuine fails integrity with its own errors;
   * a genuine one with another number is a gap; one with another link, as text, is a break.
   */
  lemma FirstBadLinkDecides(p: Platform, es: seq<Envelope>, key: Jwk, keysByKid: map<Text, Jwk>, i: nat, n: int)
    requires i < |es| && (forall k | 0 <= k < i :: GoodLink(p, es, key, keysByKid, k)) && !GoodLink(p, es, key, keysByKid, i)
    requires ReceiptVerdict(p, es[i], KeyFor(es[i], key, keysByKid), None).Returned?
    requires Lookup(es[i].body, Lit("seq")).Some? && p.IntOf(Lookup(es[i].body, Lit("seq")).value) == Some(n)
    ensures var single := ReceiptVerdict(p, es[i], KeyFor(es[i], key, keysByKid), None).verdict;
            var link := Lookup(es[i].body, Lit("prev_receipt"));
            var due := Some(Str(if i == 0 then Genesis() else match es[i - 1].receiptHash case Some(t) => t case None => []));
            var verdict := ChainVerdict(p, es, key, keysByKid);
            && (single.integrity == Fail ==> verdict == Returned(Verdict(Fail, Inconclusive, single.errors)))
            && (single.integrity != Fail && n != i + 1 ==> verdict == Returned(Verdict(Inconclusive, Fail, [SequenceGap])))
            && (single.integrity != Fail && n == i + 1 && link != due && link.Some? && (link.value.Str? || link.value.Arr?) ==>
                  verdict == Returned(Verdict(Inconclusive, Fail, [ChainBreak])))
  {
    hide Lookup, Lit, Genesis, GoodLink, LinkOkAt, ReceiptVerdict, KeyFor, ChainFrom;
    GoodLinkIs(p, es, key, keysByKid, i);
    forall k | 0 <= k < i ensures LinkOkAt(p, es[..i], key, keysByKid, Genesis(), 1, k) {
      GoodLinkIs(p, es, key, keysByKid, k);
      PrefixLinkOk(p, es, key, keysByKid, i, k);
    }
    ChainStopsAt(p, es, key, keysByKid, Genesis(), 1, i);
  }

  lemma PrefixLinkOk(p: Platform, es: seq<Envelope>, key: Jwk, keysByKid: map<Text, Jwk>, i: nat, k: nat)
    requires k < i <= |es|
    ensures LinkOkAt(p, es[..i], key, keysByKid, Genesis(), 1, k) <==> LinkOkAt(p, es, key, keysByKid, Genesis(), 1, k)
  {
    hide LinkOk, KeyFor, Genesis;
  }

  // ----- the two verifiers agree -----

  /** Every receipt carries a number, a link and a hash, and the numbers are 1, 2, 3, ... */
  predicate Numbered(p: Platform, envelopes: seq<Envelope>) {
    forall i | 0 <= i < |envelopes| ::
      && Lookup(envelopes[i].body, Lit("seq")).Some?
      && p.IntOf(Lookup(envelopes[i].body, Lit("seq")).value) == Some(i + 1)
      && Lookup(envelopes[i].body, Lit("prev_receipt")).Some?
      && envelopes[i].receiptHash.Some?
  }

  /** The first receipt points to genesis; a later one does so only if its predecessor has that very hash. */
  predicate GenesisFirst(envelopes: seq<Envelope>) {
    forall i | 0 <= i < |envelopes| :: GenesisAt(envelopes, i)
  }

  predicate GenesisAt(envelopes: seq<Envelope>, i: nat)
    requires i < |envelopes|
  {
    var prev := Lookup(envelopes[i].body, Lit("prev_receipt"));
    if i == 0 then prev == Some(Str(Genesis()))
    else prev == Some(Str(Genesis())) ==> envelopes[i - 1].receiptHash == Some(Genesis())
  }

  /** `verify_receipt` with the list itself as the chain store passes the receipt. */
  predicate MemberPasses(p: Platform, envelopes: seq<Envelope>, key: Jwk, keysByKid: map<Text, Jwk>, i: nat)
    requires i < |envelopes|
  {
    ReceiptVerdict(p, envelopes[i], KeyFor(envelopes[i], key, keysByKid), Some(envelopes)) == Returned(PASSED)
  }

  lemma {:induction false} FindNumbered(p: Platform, envelopes: seq<Envelope>, n: int, k: nat)
    requires k < |envelopes|
    requires forall i | 0 <= i < |envelopes| ::
      && Lookup(envelopes[i].body, Lit("seq")).Some?
      && p.IntOf(Lookup(envelopes[i].body, Lit("seq")).value) == Some(n + i)
    ensures FindBySeq(p, envelopes, n + k) == Some(envelopes[k])
    decreases k
  {
    hide Lookup;
    if k > 0 {
      FindNumbered(p, envelopes[1..], n + 1, k - 1);
    }
  }

  /** In a numbered list, one member's verdict is one link of the chain's. */
  lemma MemberPassesIff(p: Platform, envelopes: seq<Envelope>, key: Jwk, keysByKid: map<Text, Jwk>, i: nat)
    requires i < |envelopes| && Numbered(p, envelopes)
    ensures var e := envelopes[i];
            var prev := Lookup(e.body, Lit("prev_receipt")).value;
            MemberPasses(p, envelopes, key, keysByKid, i) <==>
            && EarlyFailure(e, KeyFor(e, key, keysByKid)).None?
            && BodyErrors(p, e, KeyFor(e, key, keysByKid)) == []
            && (prev == Str(Genesis()) || (i > 0 && prev == Str(PrevOf(envelopes, i, Genesis()))))
  {
    hide Lookup, EarlyFailure, BodyErrors, KeyFor, FindBySeq, Genesis;
    if i > 0 {
      FindNumbered(p, envelopes, 1, i - 1);
    } else {
      FindBelow(p, envelopes, 1, 0);
    }
  }

  lemma {:induction false} FindBelow(p: Platform, envelopes: seq<Envelope>, n: int, k: int)
    requires k < n
    requires forall i | 0 <= i < |envelopes| ::
      && Lookup(envelopes[i].body, Lit("seq")).Some?
      && p.IntOf(Lookup(envelopes[i].body, Lit("seq")).value) == Some(n + i)
    ensures FindBySeq(p, envelopes, k) == None
    decreases |envelopes|
  {
    hide Lookup;
    if envelopes != [] {
      FindBelow(p, envelopes[1..], n + 1, k);
    }
  }

  /**
   * The verifiers agree: `verify_chain` passes a list exactly when the list is numbered from 1, its
   * first receipt alone counts as genesis, and `verify_receipt` passes every member against the list.
   */
  lemma VerifiersAgree(p: Platform, envelopes: seq<Envelope>, key: Jwk, keysByKid: map<Text, Jwk>)
    ensures ChainVerdict(p, envelopes, key, keysByKid) == Returned(PASSED) <==>
            && envelopes != []
            && Numbered(p, envelopes)
            && GenesisFirst(envelopes)
            && (forall i | 0 <= i < |envelopes| :: MemberPasses(p, envelopes, key, keysByKid, i))
  {
    hide ChainVerdict, LinkOkAt, GenesisAt, Genesis, MemberPasses, Numbered;
    ChainPassesIff(p, envelopes, key, keysByKid);
    forall i | 0 <= i < |envelopes|
      ensures Numbered(p, envelopes) ==>
                (LinkOkAt(p, envelopes, key, keysByKid, Genesis(), 1, i) <==>
                 MemberPasses(p, envelopes, key, keysByKid, i) && GenesisAt(envelopes, i))
    {
      if Numbered(p, envelopes) {
        MemberIsLink(p, envelopes, key, keysByKid, i);
      }
    }
    if LinksOk(p, envelopes, key, keysByKid, Genesis(), 1) {
      LinksAreNumbered(p, envelopes, key, keysByKid);
    }
  }

  lemma MemberIsLink(p: Platform, envelopes: seq<Envelope>, key: Jwk, keysByKid: map<Text, Jwk>, i: nat)
    requires i < |envelopes| && Numbered(p, envelopes)
    ensures LinkOkAt(p, envelopes, key, keysByKid, Genesis(), 1, i) <==>
            MemberPasses(p, envelopes, key, keysByKid, i) && GenesisAt(envelopes, i)
  {
    hide MemberPasses, Lookup, EarlyFailure, BodyErrors, KeyFor, Genesis;
    MemberPassesIff(p, envelopes, key, keysByKid, i);
  }

  lemma LinksAreNumbered(p: Platform, envelopes: seq<Envelope>, key: Jwk, keysByKid: map<Text, Jwk>)
    requires LinksOk(p, envelopes, key, keysByKid, Genesis(), 1)
    ensures Numbered(p, envelopes)
  {
    hide Lookup, EarlyFailure, BodyErrors, KeyFor, Genesis;
    forall i | 0 <= i < |envelopes|
      ensures Lookup(envelopes[i].body, Lit("seq")).Some?
      ensures p.IntOf(Lookup(envelopes[i].body, Lit("seq")).value) == Some(i + 1)
      ensures Lookup(envelopes[i].body, Lit("prev_receipt")).Some? && envelopes[i].receiptHash.Some?
    {
      assert LinkOkAt(p, envelopes, key, keysByKid, Genesis(), 1, i);
      assert 1 + i == i + 1;
    }
  }
}
