/** A dict from ids to expiry times, swept now and then: the shape of both replay caches. */
module ExpiringMap {
  import opened Basics

  type Entries = map<Text, real>

  /** The entries that have not expired: those whose time is not before `now`. */
  function Sweep(m: Entries, now: real): (r: Entries)
    ensures forall k :: k in r <==> k in m && m[k] >= now
    ensures forall k | k in r :: r[k] == m[k]
  {
    map k | k in m && m[k] >= now :: m[k]
  }

  /** `expired = [k for k, v in items if v < now]`, then one `del` each. */
  method DeleteExpired(m: Entries, now: real) returns (r: Entries)
    ensures r == Sweep(m, now)
  {
    var expired := set k | k in m && m[k] < now;
    r := m;
    while expired != {}
      invariant forall k :: k in expired ==> k in m && m[k] < now && k in r
      invariant forall k :: k in r <==> k in m && (m[k] >= now || k in expired)
      invariant forall k | k in r :: r[k] == m[k]
      decreases |expired|
    {
      var k :| k in expired;
      r := r - {k};
      expired := expired - {k};
    }
  }

  /**
   * What the cache still knows of an id stored with an expiry time of at least `until`: the entry is
   * there, or the clock has passed `until`.
   */
  predicate Remembers(m: Entries, id: Text, until: real, clock: real) {
    (id in m && m[id] >= until) || clock > until
  }

  lemma SweepRemembers(m: Entries, id: Text, until: real, clock: real, now: real)
    requires Remembers(m, id, until, clock) && clock <= now
    ensures Remembers(Sweep(m, now), id, until, now)
  {
  }

  lemma LaterRemembers(m: Entries, id: Text, until: real, clock: real, now: real)
    requires Remembers(m, id, until, clock) && clock <= now
    ensures Remembers(m, id, until, now)
  {
  }

  lemma StoredRemembers(m: Entries, id: Text, until: real, now: real)
    ensures Remembers(Sweep(m[id := until], now), id, until, now)
  {
  }

  lemma PutRemembers(m: Entries, id: Text, until: real, clock: real, other: Text, time: real)
    requires Remembers(m, id, until, clock) && other !in m
    ensures Remembers(m[other := time], id, until, clock)
  {
  }
}
