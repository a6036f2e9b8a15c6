/**
 * bcrypt, idealised. The model records which plaintext a digest was computed from and
 * nothing else: no salt, no cost factor, no randomness, no collisions.
 */
module Password {

  /** A stored bcrypt digest. It is a different type from a plaintext, so a record can
      never hold a plaintext where the digest belongs. */
  datatype Digest = Digest(source: string)

  /** `bcrypt.hash(plain, 10)`. */
  function Hash(plain: string): Digest {
    Digest(plain)
  }

  /** `bcrypt.compare(entered, digest)`. */
  predicate Match(entered: string, digest: Digest) {
    digest == Hash(entered)
  }

  /** A digest matches the plaintext it was made from, and no other plaintext. */
  lemma MatchHash(plain: string, entered: string)
    ensures Match(plain, Hash(plain))
    ensures Match(entered, Hash(plain)) <==> entered == plain
  {
  }
}
