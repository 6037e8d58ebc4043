/** Storage envelopes over an assumed AEAD (RFC 5116, section 5.2) and Base64
    (RFC 4648, section 4). */
module Envelope {
  import opened Wrappers

  type Bytes = seq<bv8>

  /** The primitives one storage key fixes. */
  datatype Key = Key(
    lock: (Bytes, Bytes) -> Bytes,
    unlock: (Bytes, Bytes) -> Option<Bytes>,
    mac: Bytes -> Bytes,
    toBase64: Bytes -> string,
    fromBase64: string -> Option<Bytes>,
    toUtf8: string -> Bytes,
    fromUtf8: Bytes -> Option<string>)

  const ENVELOPE_MAGIC: Bytes := [0x43, 0x55, 0x42, 0x31]
  const NONCE_LEN: nat := 12
  const TAG_LEN: nat := 16
  const TEXT_PREFIX: string := "CUB1:"

  ghost predicate Lawful(key: Key) {
    && (forall n, p :: key.unlock(n, key.lock(n, p)) == Some(p) && |key.lock(n, p)| == |p| + TAG_LEN)
    && (forall b :: key.fromBase64(key.toBase64(b)) == Some(b))
    && (forall s :: key.fromUtf8(key.toUtf8(s)) == Some(s))
  }

  type Nonce = n: Bytes | |n| == NONCE_LEN witness seq(NONCE_LEN, _ => 0 as bv8)

  function Encrypt(key: Key, plaintext: Bytes, nonce: Nonce): Bytes {
    ENVELOPE_MAGIC + nonce + key.lock(nonce, plaintext)
  }

  function Decrypt(key: Key, envelope: Bytes): Option<Bytes> {
    if !(ENVELOPE_MAGIC <= envelope) || |envelope| < |ENVELOPE_MAGIC| + NONCE_LEN + TAG_LEN then None
    else key.unlock(envelope[|ENVELOPE_MAGIC|..][..NONCE_LEN], envelope[|ENVELOPE_MAGIC| + NONCE_LEN..])
  }

  predicate IsEncrypted(key: Key, value: Bytes) { Decrypt(key, value).Some? }

  function EncryptText(key: Key, plaintext: string, nonce: Nonce): string {
    TEXT_PREFIX + key.toBase64(Encrypt(key, key.toUtf8(plaintext), nonce))
  }

  function DecryptText(key: Key, value: string): Option<string> {
    if !(TEXT_PREFIX <= value) then None
    else
      match key.fromBase64(value[|TEXT_PREFIX|..])
      case None => None
      case Some(envelope) =>
        match Decrypt(key, envelope)
        case None => None
        case Some(bytes) => key.fromUtf8(bytes)
  }

  predicate IsEncryptedText(key: Key, value: string) { DecryptText(key, value).Some? }

  /** Decryption undoes encryption under every nonce, at a fixed cost in bytes. */
  lemma {:induction false} RoundTrip(key: Key, plaintext: Bytes, nonce: Nonce)
    requires Lawful(key)
    ensures Decrypt(key, Encrypt(key, plaintext, nonce)) == Some(plaintext)
    ensures |Encrypt(key, plaintext, nonce)| == |plaintext| + 32
  {
    var locked := key.lock(nonce, plaintext);
    assert key.unlock(nonce, locked) == Some(plaintext) && |locked| == |plaintext| + TAG_LEN;
    var envelope := Encrypt(key, plaintext, nonce);
    assert envelope == ENVELOPE_MAGIC + (nonce + locked);
    assert envelope[|ENVELOPE_MAGIC|..] == nonce + locked;
    assert envelope[|ENVELOPE_MAGIC|..][..NONCE_LEN] == nonce;
    assert envelope[|ENVELOPE_MAGIC| + NONCE_LEN..] == locked;
  }

  lemma {:induction false} TextRoundTrip(key: Key, plaintext: string, nonce: Nonce)
    requires Lawful(key)
    ensures DecryptText(key, EncryptText(key, plaintext, nonce)) == Some(plaintext)
  {
    RoundTrip(key, key.toUtf8(plaintext), nonce);
    hide Encrypt, Decrypt;
    var envelope := Encrypt(key, key.toUtf8(plaintext), nonce);
    var value := EncryptText(key, plaintext, nonce);
    assert value[|TEXT_PREFIX|..] == key.toBase64(envelope);
    assert key.fromBase64(key.toBase64(envelope)) == Some(envelope);
    assert key.fromUtf8(key.toUtf8(plaintext)) == Some(plaintext);
  }

  /** Seal a stored text unless it is sealed already. */
  function SealText(key: Key, value: string, nonce: Nonce): string {
    if IsEncryptedText(key, value) then value else EncryptText(key, value, nonce)
  }

  /** Sealing is settled after once, under whatever nonce it is tried again; and
      text that only looks like an envelope is sealed like any other and opens
      to itself, marker and all. */
  lemma {:induction false} SealedOnceForAll(key: Key, value: string, nonce: Nonce, again: Nonce)
    requires Lawful(key)
    ensures SealText(key, SealText(key, value, nonce), again) == SealText(key, value, nonce)
    ensures IsEncryptedText(key, SealText(key, value, nonce))
    ensures !IsEncryptedText(key, value) ==> DecryptText(key, SealText(key, value, nonce)) == Some(value)
    ensures IsEncryptedText(key, value) ==> DecryptText(key, SealText(key, value, nonce)) == DecryptText(key, value)
  {
    TextRoundTrip(key, value, nonce);
    hide DecryptText, EncryptText;
  }
}
