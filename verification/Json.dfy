/** The Python values that `canonicalize` is given. */
module Json {
  import opened Basics

  /**
   * `Obj` holds the members of a dict in insertion order. `Float` and `Other` stand for the values
   * the canonicalizer rejects: floats, and objects of any other type.
   */
  datatype Json =
    | Null
    | Bool(b: bool)
    | Int(n: int)
    | Float(finite: bool)
    | Str(s: Text)
    | Arr(items: seq<Json>)
    | Obj(members: seq<Member>)
    | Other

  datatype Member = Member(key: Text, value: Json)

  predicate DistinctKeys(ms: seq<Member>) {
    forall i, j | 0 <= i < j < |ms| :: ms[i].key != ms[j].key
  }

  /** Every dict has each key once. Python's dict type guarantees it. */
  predicate WellFormed(v: Json) {
    match v
    case Arr(items) => forall i | 0 <= i < |items| :: WellFormed(items[i])
    case Obj(ms) => DistinctKeys(ms) && forall i | 0 <= i < |ms| :: WellFormed(ms[i].value)
    case _ => true
  }

  predicate HasKey(ms: seq<Member>, k: Text) {
    exists i | 0 <= i < |ms| :: ms[i].key == k
  }

  predicate SameKeys(ms: seq<Member>, ns: seq<Member>) {
    && (forall i | 0 <= i < |ms| :: HasKey(ns, ms[i].key))
    && (forall i | 0 <= i < |ns| :: HasKey(ms, ns[i].key))
  }

  /** Equality of JSON values: the order of the members of an object does not matter. */
  predicate Same(v: Json, w: Json) {
    match (v, w)
    case (Arr(xs), Arr(ys)) =>
      |xs| == |ys| && forall i | 0 <= i < |xs| :: Same(xs[i], ys[i])
    case (Obj(ms), Obj(ns)) =>
      && SameKeys(ms, ns)
      && (forall i, j | 0 <= i < |ms| && 0 <= j < |ns| && ms[i].key == ns[j].key :: Same(ms[i].value, ns[j].value))
    case _ => v == w
  }

  /** `dict.get(k)`: the first member is the only one when keys are distinct. */
  function Lookup(ms: seq<Member>, k: Text): (r: Option<Json>)
    ensures r.Some? <==> HasKey(ms, k)
    ensures r.Some? ==> exists i | 0 <= i < |ms| :: ms[i] == Member(k, r.value)
  {
    if ms == [] then None
    else if ms[0].key == k then
      assert ms[0] == Member(k, ms[0].value);
      Some(ms[0].value)
    else
      var r := Lookup(ms[1..], k);
      assert HasKey(ms, k) <==> HasKey(ms[1..], k) by {
        if HasKey(ms, k) {
          var i :| 0 <= i < |ms| && ms[i].key == k;
          assert ms[1..][i - 1].key == k;
        }
        if HasKey(ms[1..], k) {
          var i :| 0 <= i < |ms[1..]| && ms[1..][i].key == k;
          assert ms[i + 1].key == k;
        }
      }
      assert r.Some? ==> exists i | 0 <= i < |ms| :: ms[i] == Member(k, r.value) by {
        if r.Some? {
          var i :| 0 <= i < |ms[1..]| && ms[1..][i] == Member(k, r.value);
          assert ms[i + 1] == Member(k, r.value);
        }
      }
      r
  }

  /** Dicts that are equal as JSON answer every `get` with equal values. */
  lemma SameLookup(ms: seq<Member>, ns: seq<Member>, k: Text)
    requires Same(Obj(ms), Obj(ns))
    ensures Lookup(ms, k).Some? <==> Lookup(ns, k).Some?
    ensures Lookup(ms, k).Some? ==> Same(Lookup(ms, k).value, Lookup(ns, k).value)
  {
    if HasKey(ms, k) {
      var i :| 0 <= i < |ms| && ms[i] == Member(k, Lookup(ms, k).value);
      assert HasKey(ns, ms[i].key);
      var j :| 0 <= j < |ns| && ns[j] == Member(k, Lookup(ns, k).value);
      assert ms[i].key == ns[j].key;
    }
  }
}
