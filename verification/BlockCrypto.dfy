/** The byte layouts written by client/src/main/blocks/crypto.ts and server/src/blocks/crypto.rs,
    over an arbitrary hash, key derivation and authenticated cipher. */
module BlockCrypto {
  import opened Wrappers

  type Key = Bytes

  /** Content of a block. Empty blocks are outside the model. */
  type Block = d: Bytes | |d| > 0 witness [0]

  /** The text of a content address. */
  datatype Digest = Digest(hex: string)

  datatype Algorithm = AesGcm | XChaCha20

  const VERSION_AES_GCM: byte := 0x01
  const VERSION_XCHACHA20: byte := 0x02
  const AES_GCM_NONCE_SIZE: nat := 12
  const XCHACHA_NONCE_SIZE: nat := 24
  const TAG_SIZE: nat := 16

  /** The primitives the code calls but does not define: SHA-256 in hex, HKDF from a content hash,
      and the two authenticated ciphers. */
  datatype Primitives = Primitives(
    sha256: Bytes -> string,
    hkdf: Digest -> Key,
    seal: (Algorithm, Key, Bytes, Bytes) -> Bytes,
    open: (Algorithm, Key, Bytes, Bytes) -> Option<Bytes>)

  /** What the model relies on: opening undoes sealing, sealing adds a 16-byte tag, and a hash is
      64 lower-case hex digits. Nothing here says that hashes do not collide. */
  ghost predicate Lawful(p: Primitives) {
    && (forall a, k, n, d :: p.open(a, k, n, p.seal(a, k, n, d)) == Some(d))
    && (forall a, k, n, d :: |p.seal(a, k, n, d)| == |d| + TAG_SIZE)
    && (forall d :: IsHashText(p.sha256(d)))
  }

  function Hash(p: Primitives, d: Bytes): Digest { Digest(p.sha256(d)) }

  /** No two different blocks of the pool have the same hash. */
  ghost predicate CollisionFree(p: Primitives, pool: set<Block>) {
    forall a, b :: a in pool && b in pool && Hash(p, a) == Hash(p, b) ==> a == b
  }

  predicate IsLowerHex(c: char) {
    '0' <= c <= '9' || 'a' <= c <= 'f'
  }

  predicate IsHashText(h: string) {
    |h| == 64 && forall i :: 0 <= i < |h| ==> IsLowerHex(h[i])
  }

  function NonceSize(a: Algorithm): nat {
    match a
    case AesGcm => AES_GCM_NONCE_SIZE
    case XChaCha20 => XCHACHA_NONCE_SIZE
  }

  function VersionByte(a: Algorithm): byte {
    match a
    case AesGcm => VERSION_AES_GCM
    case XChaCha20 => VERSION_XCHACHA20
  }

  /** version || nonce || ciphertext and tag */
  function EncryptBlock(p: Primitives, a: Algorithm, key: Key, nonce: Bytes, data: Bytes): Bytes {
    [VersionByte(a)] + nonce + p.seal(a, key, nonce, data)
  }

  /** Reads the algorithm off the version byte; None is any of the thrown errors. */
  function DecryptBlock(p: Primitives, key: Key, encrypted: Bytes): Option<Bytes> {
    if |encrypted| < 2 then None
    else if encrypted[0] == VERSION_AES_GCM then OpenAfterVersion(p, AesGcm, key, encrypted)
    else if encrypted[0] == VERSION_XCHACHA20 then OpenAfterVersion(p, XChaCha20, key, encrypted)
    else None
  }

  function OpenAfterVersion(p: Primitives, a: Algorithm, key: Key, encrypted: Bytes): Option<Bytes> {
    var start := 1 + NonceSize(a);
    if |encrypted| < start + TAG_SIZE then None
    else p.open(a, key, encrypted[1..start], encrypted[start..])
  }

  /** A block written by either algorithm is read back by the version byte alone, whichever algorithm
      the reader itself would have chosen. */
  lemma ClientLayoutRoundTrip(p: Primitives, a: Algorithm, key: Key, nonce: Bytes, data: Bytes)
    requires Lawful(p) && |nonce| == if a == AesGcm then 12 else 24
    ensures DecryptBlock(p, key, EncryptBlock(p, a, key, nonce, data)) == Some(data)
    ensures EncryptBlock(p, a, key, nonce, data)
      == [if a == AesGcm then 1 else 2] + nonce + p.seal(a, key, nonce, data)
    ensures |EncryptBlock(p, a, key, nonce, data)| == |data| + if a == AesGcm then 29 else 41
  {
    var sealed := p.seal(a, key, nonce, data);
    var e := EncryptBlock(p, a, key, nonce, data);
    var start := 1 + NonceSize(a);
    assert e[1..start] == nonce;
    assert e[start..] == sealed;
  }

  /** nonce || ciphertext and tag, under the key derived from the content hash */
  function ServerEncrypt(p: Primitives, hash: Digest, nonce: Bytes, data: Bytes): Bytes {
    nonce + p.seal(AesGcm, p.hkdf(hash), nonce, data)
  }

  function ServerDecrypt(p: Primitives, hash: Digest, encrypted: Bytes): Result<Bytes, string> {
    if |encrypted| < AES_GCM_NONCE_SIZE then Err("Encrypted block data too short (< 12 bytes)")
    else
      match p.open(AesGcm, p.hkdf(hash), encrypted[..AES_GCM_NONCE_SIZE], encrypted[AES_GCM_NONCE_SIZE..])
      case Some(d) => Ok(d)
      case None => Err("Block decryption failed")
  }

  lemma ServerLayoutRoundTrip(p: Primitives, hash: Digest, nonce: Bytes, data: Bytes)
    requires Lawful(p) && |nonce| == 12
    ensures ServerDecrypt(p, hash, ServerEncrypt(p, hash, nonce, data)) == Ok(data)
    ensures ServerEncrypt(p, hash, nonce, data)[..12] == nonce
    ensures ServerEncrypt(p, hash, nonce, data)[12..] == p.seal(AesGcm, p.hkdf(hash), nonce, data)
  {
    var e := ServerEncrypt(p, hash, nonce, data);
    assert e[..AES_GCM_NONCE_SIZE] == nonce;
    assert e[AES_GCM_NONCE_SIZE..] == p.seal(AesGcm, p.hkdf(hash), nonce, data);
  }
}
