/** Envelope encryption (internal/crypto/crypto.go), over any lawful cipher and text encoding. */
module Crypto {
  import opened Strings

  newtype byte = b: int | 0 <= b < 256
  type Bytes = seq<byte>

  const NONCE_SIZE := 12

  type Nonce = b: Bytes | |b| == NONCE_SIZE witness seq(NONCE_SIZE, _ => 0)

  /** A key-encryption or data-encryption key, as `GetKEK` and `GenerateDEK` return them. */
  type Key = b: Bytes | |b| == 32 witness seq(32, _ => 0)

  /** The primitives the code calls: AES-GCM seal and open on (key, nonce, text), and base64. */
  datatype Primitives = Primitives(
    seal: (Bytes, Bytes, Bytes) -> Bytes,
    open: (Bytes, Bytes, Bytes) -> Result<Bytes>,
    encode: Bytes -> Bytes,
    decode: Bytes -> Result<Bytes>)

  /** Sections 7.1 and 7.2 of NIST SP 800-38D, and section 4 of RFC 4648. */
  ghost predicate Lawful(c: Primitives) {
    && (forall key, nonce, text :: c.open(key, nonce, c.seal(key, nonce, text)) == Ok(text))
    && (forall b :: c.decode(c.encode(b)) == Ok(b))
  }

  type Cipher = c: Primitives | Lawful(c) ghost witness
    Primitives((key, nonce, text) => text, (key, nonce, text) => Ok(text), b => b, b => Ok(b))

  /** `aes.NewCipher` accepts these key lengths only. */
  predicate ValidKey(key: Bytes) {
    |key| == 16 || |key| == 24 || |key| == 32
  }

  function SealGCM(c: Primitives, plaintext: Bytes, key: Bytes, nonce: Nonce): Result<Bytes> {
    if !ValidKey(key) then Err else Ok(c.encode(nonce + c.seal(key, nonce, plaintext)))
  }

  function OpenGCM(c: Primitives, encoded: Bytes, key: Bytes): Result<Bytes> {
    var data := c.decode(encoded);
    if data.Err? || !ValidKey(key) || |data.value| < NONCE_SIZE then Err
    else c.open(key, data.value[..NONCE_SIZE], data.value[NONCE_SIZE..])
  }

  /** Opening undoes sealing under the same key; the nonce travels in front of the ciphertext. */
  lemma OpenUndoesSeal(c: Cipher, plaintext: Bytes, key: Bytes, nonce: Nonce)
    requires ValidKey(key)
    ensures SealGCM(c, plaintext, key, nonce).Ok?
    ensures OpenGCM(c, SealGCM(c, plaintext, key, nonce).value, key) == Ok(plaintext)
  {
    var sealed := nonce + c.seal(key, nonce, plaintext);
    assert c.decode(c.encode(sealed)) == Ok(sealed);
    assert sealed[..NONCE_SIZE] == nonce && sealed[NONCE_SIZE..] == c.seal(key, nonce, plaintext);
  }

  /** What an encrypted PUT stores: the value under a data key, the data key under the KEK. */
  datatype Envelope = Envelope(data: Bytes, encryptedDek: Bytes)

  datatype Randomness = Randomness(dek: Key, dataNonce: Nonce, keyNonce: Nonce)

  function Encrypt(c: Primitives, value: Bytes, kek: Bytes, r: Randomness): Result<Envelope> {
    var data := SealGCM(c, value, r.dek, r.dataNonce);
    var dek := SealGCM(c, r.dek, kek, r.keyNonce);
    if data.Err? || dek.Err? then Err else Ok(Envelope(data.value, dek.value))
  }

  /** `decryptValue`: the data key is recovered with the KEK, then the data with the data key. */
  function Decrypt(c: Primitives, e: Envelope, kek: Bytes): Result<Bytes> {
    var dek := OpenGCM(c, e.encryptedDek, kek);
    if dek.Err? then Err else OpenGCM(c, e.data, dek.value)
  }

  lemma EnvelopeRoundTrip(c: Cipher, value: Bytes, kek: Bytes, r: Randomness)
    requires ValidKey(kek)
    ensures Encrypt(c, value, kek, r).Ok?
    ensures Decrypt(c, Encrypt(c, value, kek, r).value, kek) == Ok(value)
  {
    OpenUndoesSeal(c, value, r.dek, r.dataNonce);
    OpenUndoesSeal(c, r.dek, kek, r.keyNonce);
  }
}
