/**
 Everything the engine calls but does not define: the hash, the keyed hash, the key derivations,
 the AEAD and JSON. Every theorem is stated for all environments, so nothing is assumed of the
 hash or of the MAC; a result that needs them to be collision free names the colliding pair.
 */
module Environment {
  import opened Bytes

  type Dek = Digest

  type Kek = Digest

  type Nonce = b: Bytes | |b| == 24
    witness [0, 0, 0, 0, 0, 0, 0, 0, 0, 0, 0, 0, 0, 0, 0, 0, 0, 0, 0, 0, 0, 0, 0, 0]

  /** The BLAKE3 `derive_key` contexts: one key per purpose, all functions of the DEK. */
  datatype Purpose = HeaderMacKey | AuditHeadKey | BearerWireKey | BearerRowKey

  datatype Argon2Params = Argon2Params(mKib: U32, tCost: U32, pLanes: U32)

  /** A JSON value as the engine builds it; its text is left to the environment. */
  datatype Json =
    | JsonNull
    | JsonBool(truth: bool)
    | JsonNumber(number: int)
    | JsonText(text: Text)
    | JsonObject(fields: seq<(string, Json)>)

  datatype Env = Env(
    hash: Bytes -> Digest,
    derive: (Purpose, Dek) -> Digest,
    keyed: (Digest, Bytes) -> Digest,
    argon2: (Bytes, Bytes, Argon2Params) -> Kek,
    hkdf: (Bytes, Bytes) -> Kek,
    seal: (Digest, Bytes, Bytes, Bytes) -> Bytes,   // key, nonce, aad, plaintext
    open: (Digest, Bytes, Bytes, Bytes) -> Option<Bytes>, // key, nonce, aad, ct||tag
    json: Json -> Bytes,
    ownerUid: U32)

  /** A keyed hash under the key derived from `dek` for one purpose. */
  function Mac(env: Env, purpose: Purpose, dek: Dek, message: Bytes): Digest {
    env.keyed(env.derive(purpose, dek), message)
  }

  /** Two different messages with one tag under one key: what a MAC must never exhibit. */
  predicate MacCollision(env: Env, purpose: Purpose, dek: Dek, m1: Bytes, m2: Bytes) {
    m1 != m2 && Mac(env, purpose, dek, m1) == Mac(env, purpose, dek, m2)
  }

  predicate HashCollision(env: Env, m1: Bytes, m2: Bytes) {
    m1 != m2 && env.hash(m1) == env.hash(m2)
  }

  /**
   The AEAD, idealised: what was sealed opens under the same key, nonce and associated data to the
   same plaintext, and under nothing else.
   */
  ghost predicate IdealAead(env: Env) {
    forall k: Digest, n: Nonce, a: Bytes, p: Bytes, k': Digest, n': Bytes, a': Bytes ::
      env.open(k', n', a', env.seal(k, n, a, p)) ==
      if (k', n', a') == (k, n, a) then Some(p) else None
  }
}
