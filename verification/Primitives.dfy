/** The cryptographic library calls of core/crypto.py, as functions a model is given.
    Nothing is known about them beyond what Sound states: what is sealed opens, what is signed
    verifies, and every output has the length its standard fixes. */
module Primitives {
  import opened Bytes
  import opened Wrappers

  const NONCE_SIZE: nat := 12
  const TAG_SIZE: nat := 16
  const SIG_SIZE: nat := 64
  const MAC_SIZE: nat := 16

  datatype Crypto = Crypto(
    /** ChaCha20-Poly1305, section 2.8 of RFC 8439: key, nonce, text, additional data */
    seal: (Bytes, Bytes, Bytes, Bytes) -> Bytes,
    open: (Bytes, Bytes, Bytes, Bytes) -> Option<Bytes>,
    /** HMAC-SHA256: key, message */
    hmac: (Bytes, Bytes) -> Bytes,
    /** Ed25519: signing key, message; verify key, message, signature; signing key to verify key */
    sign: (Bytes, Bytes) -> Bytes,
    verify: (Bytes, Bytes, Bytes) -> bool,
    publicOf: Bytes -> Bytes)

  ghost predicate Sound(c: Crypto) {
    && (forall key, nonce, text, aad {:trigger c.seal(key, nonce, text, aad)} ::
          |c.seal(key, nonce, text, aad)| == |text| + TAG_SIZE
          && c.open(key, nonce, c.seal(key, nonce, text, aad), aad) == Some(text))
    && (forall key, m {:trigger c.hmac(key, m)} :: |c.hmac(key, m)| == 32)
    && (forall sk, m {:trigger c.sign(sk, m)} ::
          |c.sign(sk, m)| == SIG_SIZE && c.verify(c.publicOf(sk), m, c.sign(sk, m)))
  }

  /** The assumptions are consistent: some functions meet them. */
  lemma SoundIsSatisfiable() returns (c: Crypto)
    ensures Sound(c)
  {
    c := Crypto(
      (key, nonce, text: Bytes, aad) => text + Zeros(TAG_SIZE),
      (key, nonce, ct: Bytes, aad) => if |ct| >= TAG_SIZE then Some(ct[..|ct| - TAG_SIZE]) else None,
      (key, m) => Zeros(32),
      (sk, m) => Zeros(SIG_SIZE),
      (vk, m, sig) => true,
      sk => sk);
    forall key, nonce, text, aad
      ensures |c.seal(key, nonce, text, aad)| == |text| + TAG_SIZE
      ensures c.open(key, nonce, c.seal(key, nonce, text, aad), aad) == Some(text)
    {
      assert (text + Zeros(TAG_SIZE))[..|text|] == text;
    }
  }
}
