/**
 The hash and signature primitives, as parameters: every result holds for every suite. A hash into 32 bytes
 is never injective, so binding results conclude "equal, or these two inputs collide".
 */
module Crypto {
  import opened Wire

  type Hash = b: bytes | |b| == 32 witness seq(32, _ => 0)

  type Sig = b: bytes | |b| == 64 witness seq(64, _ => 0)

  datatype Suite = Suite(
    blake3: bytes -> Hash,
    sign: (bytes, bytes) -> Sig,            // secret key, message; deterministic, being a function
    verify: (Hash, bytes, Sig) -> bool,     // public key, message, signature; false for a malformed key
    publicOf: bytes -> Hash)

  /** Verification accepts what signing produced. */
  ghost predicate Sound(c: Suite) {
    forall key, message :: c.verify(c.publicOf(key), message, c.sign(key, message))
  }

  ghost predicate Collision(c: Suite, a: bytes, b: bytes) {
    a != b && c.blake3(a) == c.blake3(b)
  }

  function Zeros(n: nat): (b: bytes)
    ensures |b| == n && forall i | 0 <= i < n :: b[i] == 0
  {
    seq(n, _ => 0)
  }

  const ZERO_HASH: Hash := Zeros(32)
  const ZERO_SIG: Sig := Zeros(64)
}
