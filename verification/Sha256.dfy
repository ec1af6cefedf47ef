/**
 * SHA-256 is any function from bytes to 32 bytes. Nothing is assumed about it: where a result needs
 * two hashed strings to be the same, a collision is computed instead whenever they are not.
 */
module Sha256 {
  import opened Basics
  import opened Numerals

  type Sha = Bytes -> Digest

  /** The text the gateway writes a hash as: `"sha256:" + hexdigest`. */
  function HashText(sha: Sha, b: Bytes): Text {
    DigestText(sha(b))
  }

  function DigestText(d: Digest): Text {
    Lit("sha256:") + ToHex(d)
  }

  /** The pair is a collision: two different strings with the same digest. */
  predicate Collides(sha: Sha, c: (Bytes, Bytes)) {
    c.0 != c.1 && sha(c.0) == sha(c.1)
  }

  lemma DigestTextInjective(d: Digest, e: Digest)
    requires DigestText(d) == DigestText(e)
    ensures d == e
  {
    SplitEqual(Lit("sha256:"), ToHex(d), Lit("sha256:"), ToHex(e));
    ToHexInjective(d, e);
  }

  /** `str.removeprefix("sha256:")` */
  function RemovePrefix(t: Text): Text {
    var p := Lit("sha256:");
    if |p| <= |t| && t[..|p|] == p then t[|p|..] else t
  }

  /** A prefix is removed once when it is there; any other text stays as it is. */
  lemma RemovePrefixExactly(t: Text, rest: Text)
    ensures RemovePrefix(Lit("sha256:") + rest) == rest
    ensures RemovePrefix(t) == t || t == Lit("sha256:") + RemovePrefix(t)
  {
    var p := Lit("sha256:");
    assert (p + rest)[..|p|] == p && (p + rest)[|p|..] == rest;
    if |p| <= |t| && t[..|p|] == p {
      assert t == t[..|p|] + t[|p|..];
    }
  }

  lemma RemovePrefixOfDigest(d: Digest)
    ensures RemovePrefix(DigestText(d)) == ToHex(d)
  {
    var p := Lit("sha256:");
    assert (p + ToHex(d))[..|p|] == p && (p + ToHex(d))[|p|..] == ToHex(d);
  }
}
