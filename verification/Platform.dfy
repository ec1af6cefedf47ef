/** What the gateway takes from outside: SHA-256, Ed25519 and Python's `int(str)`. All are parameters. */
module Platform {
  import opened Basics
  import opened Json
  import opened Numerals
  import opened Sha256

  datatype PrivateKey = PrivateKey(secret: Bytes)

  /** Ed25519 verification accepts, raises InvalidSignature, or raises something else. */
  datatype SigCheck = Accepted | InvalidSignature | Malformed

  /**
   * `sign` gives the base64url text of the signature of some bytes. `publicX` is the `x` of the key's
   * JWK. `check(x, value, bytes)` decodes both texts and verifies. `parseInt` is `int` on strings.
   */
  datatype Platform = Platform(
    sha: Sha,
    sign: (PrivateKey, Bytes) -> Text,
    publicX: PrivateKey -> Text,
    check: (Text, Text, Bytes) -> SigCheck,
    parseInt: Text -> Option<int>)
  {
    /** Verification accepts what signing produced, `int(str(n)) == n`, and `int("")` raises. */
    ghost predicate Lawful() {
      && (forall k, m :: check(publicX(k), sign(k, m), m) == Accepted)
      && (forall n :: parseInt(Decimal(n)) == Some(n))
      && parseInt([]) == None
    }

    /** `int(v)` on a JSON value, `None` where it raises. */
    function IntOf(v: Json): Option<int> {
      match v
      case Str(s) => parseInt(s)
      case Int(n) => Some(n)
      case Bool(b) => Some(if b then 1 else 0)
      case _ => None
    }

    /** Values equal as JSON have the same `int`. */
    lemma IntOfSame(v: Json, w: Json)
      requires Same(v, w)
      ensures IntOf(v) == IntOf(w)
    {
    }
  }
}
