/** `gateway/resources.py` without a database: the registry of resources and its status cache. */
module Resources {
  import opened Basics
  import opened Json

  const CACHE_TTL: real := 60.0
  const CACHE_MAX: nat := 1000

  datatype Status = Active | Revoked

  datatype Doc = Doc(
    displayName: Text, description: Text, resourceType: Text, owner: Text, metadata: Json,
    status: Status, registeredAt: Text, registeredBy: Text, revokedAt: Option<Text>, revokedBy: Option<Text>,
    version: int, provenance: Text, verification: Option<(Text, Text)>)

  datatype Error = BadResourceId | BadDisplayName | ResourceConflict | NotActive | NotFound

  // ----- validation -----

  predicate IdChar(c: CodePoint) {
    || 0x61 <= c <= 0x7A || 0x41 <= c <= 0x5A || 0x30 <= c <= 0x39
    || c == 0x2E || c == 0x5F || c == 0x2F || c == 0x2D
  }

  predicate IdText(t: Text) {
    1 <= |t| <= 256 && forall i | 0 <= i < |t| :: IdChar(t[i])
  }

  /** What the pattern accepts: its `$` also matches before a newline that ends the text. */
  predicate ValidId(t: Text) {
    IdText(t) || (|t| > 0 && t[|t| - 1] == 0x0A && IdText(t[..|t| - 1]))
  }

  predicate ValidDisplayName(t: Text) {
    1 <= |t| <= 256
  }

  // ----- the cache -----

  /** An entry of the ordered dict, oldest first: id, status, and when it was put there. */
  datatype Entry = Entry(id: Text, active: bool, at: real)

  function Without(cache: seq<Entry>, id: Text): (r: seq<Entry>)
    ensures |r| <= |cache|
  {
    if cache == [] then []
    else if cache[|cache| - 1].id == id then Without(cache[..|cache| - 1], id)
    else Without(cache[..|cache| - 1], id) + [cache[|cache| - 1]]
  }

  function Newest(cache: seq<Entry>, max: nat): seq<Entry> {
    if |cache| > max then cache[|cache| - max..] else cache
  }

  function Put(cache: seq<Entry>, id: Text, active: bool, at: real): seq<Entry> {
    Newest(Without(cache, id) + [Entry(id, active, at)], CACHE_MAX)
  }

  predicate DistinctIds(cache: seq<Entry>) {
    forall i, j | 0 <= i < j < |cache| :: cache[i].id != cache[j].id
  }

  predicate Cached(cache: seq<Entry>, id: Text) {
    exists i | 0 <= i < |cache| :: cache[i].id == id
  }

  /** The entry of an id. */
  function Find(cache: seq<Entry>, id: Text): (r: Option<Entry>)
    ensures r.Some? <==> Cached(cache, id)
    ensures r.Some? ==> r.value.id == id && r.value in cache
  {
    if cache == [] then None
    else if cache[|cache| - 1].id == id then Some(cache[|cache| - 1])
    else
      assert forall i | 0 <= i < |cache| - 1 :: cache[..|cache| - 1][i] == cache[i];
      Find(cache[..|cache| - 1], id)
  }

  // ----- one call -----

  datatype State = State(memory: map<Text, Doc>, cache: seq<Entry>)

  /** One call with its reading of the clock for the cache (`at`) and for the document (`now`). */
  datatype Op =
    | Register(id: Text, displayName: Text, description: Text, resourceType: Text, owner: Text,
               metadata: Option<Json>, who: Text, provenance: Text, now: Text, at: real)
    | Revoke(id: Text, who: Text, now: Text, at: real)
    | Update(id: Text, newDisplayName: Option<Text>, newDescription: Option<Text>, newResourceType: Option<Text>,
             newOwner: Option<Text>, metadata: Option<Json>, at: real)

  predicate IsActive(memory: map<Text, Doc>, id: Text) {
    id in memory && memory[id].status.Active?
  }

  function Version(memory: map<Text, Doc>, id: Text): int {
    if id in memory then memory[id].version else 0
  }

  function Or<T>(change: Option<T>, current: T): T {
    if change.Some? then change.value else current
  }

  /** The document a call writes, or its error. */
  function Written(memory: map<Text, Doc>, op: Op): Result<Doc, Error> {
    match op
    case Register(id, displayName, description, resourceType, owner, metadata, who, provenance, now, _) =>
      if !ValidId(id) then Err(BadResourceId)
      else if !ValidDisplayName(displayName) then Err(BadDisplayName)
      else if IsActive(memory, id) then Err(ResourceConflict)
      else Ok(Doc(displayName, description, resourceType, owner, Or(metadata, Obj([])), Active, now, who, None, None,
                  if id in memory then memory[id].version + 1 else 1, provenance, None))
    case Revoke(id, who, now, _) =>
      if !IsActive(memory, id) then Err(NotActive)
      else Ok(memory[id].(status := Revoked, revokedAt := Some(now), revokedBy := Some(who)))
    case Update(id, newDisplayName, newDescription, newResourceType, newOwner, metadata, _) =>
      if id !in memory then Err(NotFound)
      else if !IsActive(memory, id) then Err(NotActive)
      else if newDisplayName.Some? && !ValidDisplayName(newDisplayName.value) then Err(BadDisplayName)
      else
        var doc := memory[id];
        Ok(doc.(version := doc.version + 1, displayName := Or(newDisplayName, doc.displayName),
                description := Or(newDescription, doc.description), resourceType := Or(newResourceType, doc.resourceType),
                owner := Or(newOwner, doc.owner), metadata := Or(metadata, doc.metadata)))
  }

  /** The state after a call: a call that raises changes nothing, any other writes the document and its cache entry. */
  function After(s: State, op: Op): State {
    match Written(s.memory, op)
    case Err(_) => s
    case Ok(doc) => State(s.memory[op.id := doc], Put(s.cache, op.id, !op.Revoke?, op.at))
  }

  /** The answer of `is_registered_and_active`: a cache entry counts while it is younger than a minute. */
  function Answer(s: State, id: Text, now: real): bool {
    var e := Find(s.cache, id);
    if e.Some? && now - e.value.at < CACHE_TTL then e.value.active else IsActive(s.memory, id)
  }

  /** `ResourceRegistry` */
  class ResourceRegistry {
    var memory: map<Text, Doc>
    var cache: seq<Entry>

    constructor ()
      ensures Now() == State(map[], [])
    {
      memory, cache := map[], [];
    }

    function Now(): State
      reads this
    {
      State(memory, cache)
    }

    /** `_cache_put` */
    method CachePut(id: Text, active: bool, at: real)
      requires DistinctIds(cache)
      modifies `cache
      ensures cache == Put(old(cache), id, active, at)
    {
      CacheInvalidate(id);
      cache := cache + [Entry(id, active, at)];
      ghost var full := cache;
      while |cache| > CACHE_MAX
        invariant |cache| <= |full| && cache == full[|full| - |cache|..]
        invariant |full| >= CACHE_MAX ==> |cache| >= CACHE_MAX
        invariant |full| < CACHE_MAX ==> cache == full
        decreases |cache|
      {
        cache := cache[1..];
      }
    }

    /** `_cache_invalidate` */
    method CacheInvalidate(id: Text)
      requires DistinctIds(cache)
      modifies `cache
      ensures cache == Without(old(cache), id)
    {
      var i := 0;
      while i < |cache| && cache[i].id != id
        invariant 0 <= i <= |cache|
        invariant forall k | 0 <= k < i :: cache[k].id != id
      {
        i := i + 1;
      }
      WithoutAt(cache, id, i);
      if i < |cache| {
        cache := cache[..i] + cache[i + 1..];
      }
    }

    method Register(op: Op) returns (r: Result<Doc, Error>)
      requires op.Register? && DistinctIds(cache)
      modifies this
      ensures r == Written(old(memory), op) && Now() == After(old(Now()), op)
    {
      hide Put, ValidId;
      if !ValidId(op.id) {
        return Err(BadResourceId);
      }
      if !ValidDisplayName(op.displayName) {
        return Err(BadDisplayName);
      }
      var doc := Doc(op.displayName, op.description, op.resourceType, op.owner, Or(op.metadata, Obj([])), Active,
                     op.now, op.who, None, None, 1, op.provenance, None);
      if op.id in memory && memory[op.id].status.Active? {
        return Err(ResourceConflict);
      }
      if op.id in memory {
        doc := doc.(version := memory[op.id].version + 1);
      }
      memory := memory[op.id := doc];
      CachePut(op.id, true, op.at);
      return Ok(doc);
    }

    method Revoke(op: Op) returns (r: Result<Doc, Error>)
      requires op.Revoke? && DistinctIds(cache)
      modifies this
      ensures r == Written(old(memory), op) && Now() == After(old(Now()), op)
    {
      hide Put;
      if op.id !in memory || !memory[op.id].status.Active? {
        return Err(NotActive);
      }
      memory := memory[op.id := memory[op.id].(status := Revoked)];
      memory := memory[op.id := memory[op.id].(revokedAt := Some(op.now))];
      memory := memory[op.id := memory[op.id].(revokedBy := Some(op.who))];
      CachePut(op.id, false, op.at);
      return Ok(memory[op.id]);
    }

    /** `update_metadata`. It drops the cache entry and puts it back. */
    method UpdateMetadata(op: Op) returns (r: Result<Doc, Error>)
      requires op.Update? && DistinctIds(cache)
      modifies this
      ensures r == Written(old(memory), op) && Now() == After(old(Now()), op)
    {
      hide Put;
      if op.id !in memory {
        return Err(NotFound);
      }
      var doc := memory[op.id];
      if !doc.status.Active? {
        return Err(NotActive);
      }
      doc := doc.(version := doc.version + 1);
      if op.newDisplayName.Some? {
        if !ValidDisplayName(op.newDisplayName.value) {
          return Err(BadDisplayName);
        }
        doc := doc.(displayName := op.newDisplayName.value);
      }
      doc := doc.(description := Or(op.newDescription, doc.description));
      doc := doc.(resourceType := Or(op.newResourceType, doc.resourceType));
      doc := doc.(owner := Or(op.newOwner, doc.owner));
      doc := doc.(metadata := Or(op.metadata, doc.metadata));
      memory := memory[op.id := doc];
      PutAfterWithout(cache, op.id, true, op.at);
      WithoutDistinct(cache, op.id);
      CacheInvalidate(op.id);
      CachePut(op.id, true, op.at);
      return Ok(doc);
    }

    /** `is_registered_and_active`. Without a database a lookup changes nothing. */
    method IsRegisteredAndActive(id: Text, now: real) returns (answer: bool)
      ensures answer == Answer(Now(), id, now)
    {
      var entry := Find(cache, id);
      if entry.Some? && now - entry.value.at < CACHE_TTL {
        return entry.value.active;
      }
      answer := id in memory && memory[id].status.Active?;
    }
  }

  // ----- what is written, document by document -----

  /** When each call is refused, and why: validation first, then the state of the resource. */
  lemma RefusedWhen(memory: map<Text, Doc>, op: Op)
    ensures op.Register? ==>
              && (Written(memory, op) == Err(BadResourceId) <==> !ValidId(op.id))
              && (Written(memory, op) == Err(BadDisplayName) <==> ValidId(op.id) && !(1 <= |op.displayName| <= 256))
              && (Written(memory, op) == Err(ResourceConflict) <==>
                    ValidId(op.id) && 1 <= |op.displayName| <= 256 && op.id in memory && memory[op.id].status == Active)
    ensures op.Revoke? ==> (Written(memory, op) == Err(NotActive) <==> op.id !in memory || memory[op.id].status == Revoked)
    ensures op.Update? ==>
              && (Written(memory, op) == Err(NotFound) <==> op.id !in memory)
              && (Written(memory, op) == Err(NotActive) <==> op.id in memory && memory[op.id].status == Revoked)
              && (Written(memory, op) == Err(BadDisplayName) <==>
                    && op.id in memory && memory[op.id].status == Active
                    && op.newDisplayName.Some? && !(1 <= |op.newDisplayName.value| <= 256))
  {
    hide ValidId;
  }

  /** A registration writes what it was given, active, never revoked, and unverified; nothing of an older document survives but the count. */
  lemma RegisteredDocument(memory: map<Text, Doc>, op: Op)
    requires op.Register? && Written(memory, op).Ok?
    ensures var d := Written(memory, op).value;
            && d.displayName == op.displayName && d.description == op.description && d.resourceType == op.resourceType
            && d.owner == op.owner && d.metadata == (match op.metadata case Some(m) => m case None => Obj([]))
            && d.registeredAt == op.now && d.registeredBy == op.who && d.provenance == op.provenance
            && d.status == Active && d.revokedAt == None && d.revokedBy == None && d.verification == None
            && d.version == (if op.id in memory then memory[op.id].version + 1 else 1)
  {
    hide ValidId;
  }

  /** A revocation changes the status and says when and by whom, and nothing else. */
  lemma RevokedDocument(memory: map<Text, Doc>, op: Op)
    requires op.Revoke? && Written(memory, op).Ok?
    ensures var d, before := Written(memory, op).value, memory[op.id];
            && d.status == Revoked && d.revokedAt == Some(op.now) && d.revokedBy == Some(op.who)
            && before == d.(status := before.status, revokedAt := before.revokedAt, revokedBy := before.revokedBy)
  {
  }

  /** An update replaces the fields it names, keeps all others, and counts one version. */
  lemma UpdatedDocument(memory: map<Text, Doc>, op: Op)
    requires op.Update? && Written(memory, op).Ok?
    ensures var d, before := Written(memory, op).value, memory[op.id];
            && (match op.newDisplayName case Some(t) => d.displayName == t case None => d.displayName == before.displayName)
            && (match op.newDescription case Some(t) => d.description == t case None => d.description == before.description)
            && (match op.newResourceType case Some(t) => d.resourceType == t case None => d.resourceType == before.resourceType)
            && (match op.newOwner case Some(t) => d.owner == t case None => d.owner == before.owner)
            && (match op.metadata case Some(m) => d.metadata == m case None => d.metadata == before.metadata)
            && d.version == before.version + 1 && d.status == before.status && d.verification == before.verification
            && d.registeredAt == before.registeredAt && d.registeredBy == before.registeredBy && d.provenance == before.provenance
            && d.revokedAt == before.revokedAt && d.revokedBy == before.revokedBy
  {
  }

  /** A call touches no other resource, and one that is refused touches nothing. */
  lemma OthersUntouched(s: State, op: Op)
    ensures Written(s.memory, op).Err? ==> After(s, op) == s
    ensures forall id | id in s.memory && id != op.id :: id in After(s, op).memory && After(s, op).memory[id] == s.memory[id]
    ensures Written(s.memory, op).Ok? ==> After(s, op).memory[op.id] == Written(s.memory, op).value
  {
    hide Put, ValidId, Written;
  }

  predicate Admitted(c: CodePoint) {
    || 'a' as int <= c <= 'z' as int || 'A' as int <= c <= 'Z' as int || '0' as int <= c <= '9' as int
    || c == '.' as int || c == '_' as int || c == '/' as int || c == '-' as int
  }

  predicate FirstAdmitted(t: Text, n: nat) {
    n <= |t| && forall i | 0 <= i < n :: Admitted(t[i])
  }

  /** The ids the pattern admits: 1 to 256 letters, digits or marks, and perhaps a newline behind them. */
  lemma ValidIdExactly(t: Text)
    ensures ValidId(t) <==>
            || (1 <= |t| <= 256 && FirstAdmitted(t, |t|))
            || (2 <= |t| <= 257 && t[|t| - 1] == '\n' as int && FirstAdmitted(t, |t| - 1))
  {
    if |t| > 0 {
      var front := t[..|t| - 1];
      assert forall i | 0 <= i < |front| :: front[i] == t[i];
    }
  }

  // ----- facts about the cache -----

  lemma {:induction false} WithoutAbsent(cache: seq<Entry>, id: Text)
    requires forall k | 0 <= k < |cache| :: cache[k].id != id
    ensures Without(cache, id) == cache
    decreases |cache|
  {
    if cache != [] {
      WithoutAbsent(cache[..|cache| - 1], id);
    }
  }

  /** Dropping the only entry of an id. */
  lemma {:induction false} WithoutAt(cache: seq<Entry>, id: Text, i: nat)
    requires DistinctIds(cache) && i <= |cache|
    requires forall k | 0 <= k < i :: cache[k].id != id
    requires i < |cache| ==> cache[i].id == id
    ensures Without(cache, id) == if i < |cache| then cache[..i] + cache[i + 1..] else cache
    decreases |cache|
  {
    if i == |cache| {
      WithoutAbsent(cache, id);
    } else if i == |cache| - 1 {
      WithoutAbsent(cache[..i], id);
    } else {
      var n := |cache| - 1;
      WithoutAt(cache[..n], id, i);
      assert cache[..n][i + 1..] + [cache[n]] == cache[i + 1..];
    }
  }

  /** What is left is what was there under other ids. */
  lemma {:induction false} WithoutKeeps(cache: seq<Entry>, id: Text, e: Entry)
    ensures e in Without(cache, id) <==> e in cache && e.id != id
    decreases |cache|
  {
    if cache != [] {
      var n := |cache| - 1;
      WithoutKeeps(cache[..n], id, e);
      assert cache == cache[..n] + [cache[n]];
    }
  }

  lemma {:induction false} WithoutDistinct(cache: seq<Entry>, id: Text)
    requires DistinctIds(cache)
    ensures DistinctIds(Without(cache, id))
    decreases |cache|
  {
    if cache != [] {
      var n := |cache| - 1;
      WithoutDistinct(cache[..n], id);
      var left := Without(cache[..n], id);
      forall i | 0 <= i < |left| ensures left[i].id != cache[n].id {
        WithoutKeeps(cache[..n], id, left[i]);
      }
    }
  }

  lemma PutAfterWithout(cache: seq<Entry>, id: Text, active: bool, at: real)
    ensures Put(Without(cache, id), id, active, at) == Put(cache, id, active, at)
  {
    forall k | 0 <= k < |Without(cache, id)| ensures Without(cache, id)[k].id != id {
      WithoutKeeps(cache, id, Without(cache, id)[k]);
    }
    WithoutAbsent(Without(cache, id), id);
  }

  /** After a put, every entry is the new one, or an old one of another id. */
  lemma PutEntries(cache: seq<Entry>, id: Text, active: bool, at: real, e: Entry)
    ensures e in Put(cache, id, active, at) ==> e == Entry(id, active, at) || (e in cache && e.id != id)
    ensures Entry(id, active, at) in Put(cache, id, active, at)
    ensures |Put(cache, id, active, at)| <= CACHE_MAX
  {
    WithoutKeeps(cache, id, e);
    var all := Without(cache, id) + [Entry(id, active, at)];
    assert all[|all| - 1] == Put(cache, id, active, at)[|Put(cache, id, active, at)| - 1];
  }

  lemma PutDistinct(cache: seq<Entry>, id: Text, active: bool, at: real)
    requires DistinctIds(cache)
    ensures DistinctIds(Put(cache, id, active, at))
  {
    WithoutDistinct(cache, id);
    forall k | 0 <= k < |Without(cache, id)| ensures Without(cache, id)[k].id != id {
      WithoutKeeps(cache, id, Without(cache, id)[k]);
    }
  }

  // ----- runs -----

  function Run(ops: seq<Op>): State {
    if ops == [] then State(map[], []) else After(Run(ops[..|ops| - 1]), ops[|ops| - 1])
  }

  /** Every cache entry, old or new, tells the status of a registered resource; ids are distinct; the cache is bounded. */
  predicate Coherent(s: State) {
    && DistinctIds(s.cache) && |s.cache| <= CACHE_MAX
    && forall e | e in s.cache :: e.id in s.memory && e.active == IsActive(s.memory, e.id)
  }

  lemma AfterCoherent(s: State, op: Op)
    requires Coherent(s)
    ensures Coherent(After(s, op))
  {
    hide Put, ValidId, ValidDisplayName, Or;
    if Written(s.memory, op).Ok? {
      PutDistinct(s.cache, op.id, !op.Revoke?, op.at);
      forall e ensures e in After(s, op).cache ==> e == Entry(op.id, !op.Revoke?, op.at) || (e in s.cache && e.id != op.id) {
        PutEntries(s.cache, op.id, !op.Revoke?, op.at, e);
      }
      PutEntries(s.cache, op.id, !op.Revoke?, op.at, Entry(op.id, !op.Revoke?, op.at));
    }
  }

  /** Over every run the cache is coherent, and holds no more than a thousand entries. */
  lemma {:induction false} RunCoherent(ops: seq<Op>)
    ensures Coherent(Run(ops))
    ensures |Run(ops).cache| <= 1000
    decreases |ops|
  {
    hide Coherent, After;
    CoherentIsBounded(Run(ops));
    if ops == [] {
      assert Coherent(State(map[], [])) by { EmptyCoherent(); }
    } else {
      RunCoherent(ops[..|ops| - 1]);
      AfterCoherent(Run(ops[..|ops| - 1]), ops[|ops| - 1]);
    }
  }

  lemma CoherentIsBounded(s: State)
    ensures Coherent(s) ==> |s.cache| <= 1000
  {
  }

  /** A put leaves the newest entries: the new one last, before it the others in their order, as many as fit into a thousand. */
  lemma PutKeepsNewest(cache: seq<Entry>, id: Text, active: bool, at: real)
    ensures var others := Without(cache, id);
            var kept := Put(cache, id, active, at);
            && kept[|kept| - 1] == Entry(id, active, at)
            && kept[..|kept| - 1] == others[|others| + 1 - |kept|..]
            && |kept| == if |others| < 1000 then |others| + 1 else 1000
  {
  }

  lemma EmptyCoherent()
    ensures Coherent(State(map[], []))
  {
  }

  /** The last accepted registration or revocation of an id in a run, if any: whether it was a registration. */
  function LastStatus(ops: seq<Op>, id: Text): bool {
    if ops == [] then false
    else
      var before, op := ops[..|ops| - 1], ops[|ops| - 1];
      if op.id == id && !op.Update? && Written(Run(before).memory, op).Ok? then op.Register?
      else LastStatus(before, id)
  }

  /** How many registrations and updates of an id a run accepted. */
  function Writes(ops: seq<Op>, id: Text): nat {
    if ops == [] then 0
    else
      var before, op := ops[..|ops| - 1], ops[|ops| - 1];
      Writes(before, id) + if op.id == id && !op.Revoke? && Written(Run(before).memory, op).Ok? then 1 else 0
  }

  /**
   * The cache never shows: after any run, with any readings of the clock whatever and past any number
   * of evictions, the answer is the stored status, which is what the last accepted registration or
   * revocation left.
   */
  lemma AnswerIsStatus(ops: seq<Op>, id: Text, now: real)
    ensures Answer(Run(ops), id, now) == IsActive(Run(ops).memory, id) == LastStatus(ops, id)
  {
    hide Run;
    RunCoherent(ops);
    StatusIsLast(ops, id);
  }

  lemma {:induction false} StatusIsLast(ops: seq<Op>, id: Text)
    ensures IsActive(Run(ops).memory, id) == LastStatus(ops, id)
    decreases |ops|
  {
    hide Put, ValidId, ValidDisplayName, Or;
    if ops != [] {
      StatusIsLast(ops[..|ops| - 1], id);
    }
  }

  /** The version of a resource counts its accepted registrations and updates; revoking does not reset it. */
  lemma {:induction false} VersionCountsWrites(ops: seq<Op>, id: Text)
    ensures Version(Run(ops).memory, id) == Writes(ops, id)
    decreases |ops|
  {
    hide Put, ValidId, ValidDisplayName, Or;
    if ops != [] {
      VersionCountsWrites(ops[..|ops| - 1], id);
    }
  }

  /** So it never decreases, and a resource once registered stays known. */
  lemma {:induction false} VersionsNeverDecrease(ops: seq<Op>, more: seq<Op>, id: Text)
    ensures Version(Run(ops).memory, id) <= Version(Run(ops + more).memory, id)
    ensures id in Run(ops).memory ==> id in Run(ops + more).memory
    decreases |more|
  {
    hide Put, ValidId, ValidDisplayName, Or;
    if more == [] {
      assert ops + more == ops;
    } else {
      assert (ops + more)[..|ops + more| - 1] == ops + more[..|more| - 1];
      VersionsNeverDecrease(ops, more[..|more| - 1], id);
    }
  }

  /** A registration of well-formed arguments is accepted exactly when the last accepted call on the id did not leave it active. */
  lemma RegisterAcceptedIff(ops: seq<Op>, op: Op)
    requires op.Register? && ValidId(op.id) && ValidDisplayName(op.displayName)
    ensures Written(Run(ops).memory, op).Ok? <==> !LastStatus(ops, op.id)
  {
    hide Run, LastStatus;
    StatusIsLast(ops, op.id);
  }

  /** The pattern lets through one id more than it names for each id: the same with a newline behind it. */
  lemma NewlineSlipsThrough(t: Text)
    requires IdText(t)
    ensures ValidId(t + [0x0A]) && !IdText(t + [0x0A])
  {
    assert (t + [0x0A])[..|t|] == t;
    assert !IdChar((t + [0x0A])[|t|]);
  }
}
