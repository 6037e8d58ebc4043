/** The sealed backup file: what sealing writes, reading back accepts. */
module BackupFile {
  import opened Wrappers
  import opened Envelope

  /** Key derivation and the AEAD under a derived key, with the magic as its
      associated data. */
  datatype Sealer = Sealer(
    derive: (string, Bytes) -> Bytes,
    lock: (Bytes, Bytes, Bytes) -> Bytes,
    unlock: (Bytes, Bytes, Bytes) -> Option<Bytes>)

  datatype Refusal = Oversize | NotABundle | WrongPassphraseOrDamaged

  const MAGIC: Bytes := [0x43, 0x55, 0x42, 0x42, 0x41, 0x4B, 0x30, 0x31]
  const SALT_LEN: nat := 16
  const HEADER_LEN: nat := 36

  ghost predicate LawfulSealer(c: Sealer) {
    forall key, nonce, p :: c.unlock(key, nonce, c.lock(key, nonce, p)) == Some(p)
                            && |c.lock(key, nonce, p)| == |p| + TAG_LEN
  }

  type Salt = s: Bytes | |s| == SALT_LEN witness seq(SALT_LEN, _ => 0 as bv8)

  function SealBundleLimited(c: Sealer, plaintext: Bytes, passphrase: string, salt: Salt, nonce: Nonce, maxBytes: nat)
    : Result<Bytes, Refusal>
  {
    if HEADER_LEN + |plaintext| + TAG_LEN > maxBytes then Err(Oversize)
    else Ok(MAGIC + salt + nonce + c.lock(c.derive(passphrase, salt), nonce, plaintext))
  }

  /** What reading a file of these bytes yields: never more than the cap. */
  function ReadBackupFileLimited(raw: Bytes, maxBytes: nat): Result<Bytes, Refusal> {
    if maxBytes < HEADER_LEN || |raw| > maxBytes then Err(Oversize)
    else if |raw| < HEADER_LEN || raw[..|MAGIC|] != MAGIC then Err(NotABundle)
    else Ok(raw)
  }

  function DecryptBackupFile(c: Sealer, raw: Bytes, passphrase: string): Result<Bytes, Refusal> {
    if |raw| < HEADER_LEN || raw[..|MAGIC|] != MAGIC then Err(NotABundle)
    else
      var salt := raw[|MAGIC|..|MAGIC| + SALT_LEN];
      var nonce := raw[|MAGIC| + SALT_LEN..HEADER_LEN];
      match c.unlock(c.derive(passphrase, salt), nonce, raw[HEADER_LEN..])
      case Some(plaintext) => Ok(plaintext)
      case None => Err(WrongPassphraseOrDamaged)
  }

  /** A history is exported exactly when its sealed file fits the import cap,
      and then the same passphrase reads back the same bytes. */
  lemma {:induction false} SealedBundleOpens(c: Sealer, plaintext: Bytes, passphrase: string, salt: Salt, nonce: Nonce,
                                             maxBytes: nat)
    requires LawfulSealer(c)
    ensures var file := SealBundleLimited(c, plaintext, passphrase, salt, nonce, maxBytes);
            && (file.Ok? <==> |plaintext| + 52 <= maxBytes)
            && (file.Ok? ==> ReadBackupFileLimited(file.value, maxBytes) == Ok(file.value)
                             && DecryptBackupFile(c, file.value, passphrase) == Ok(plaintext)
                             && |file.value| == |plaintext| + 52)
  {
    var key := c.derive(passphrase, salt);
    var body := c.lock(key, nonce, plaintext);
    assert c.unlock(key, nonce, body) == Some(plaintext) && |body| == |plaintext| + TAG_LEN;
    var raw := MAGIC + salt + nonce + body;
    assert raw == MAGIC + (salt + (nonce + body)) && raw[..|MAGIC|] == MAGIC;
    assert raw[|MAGIC|..|MAGIC| + SALT_LEN] == salt;
    assert raw[|MAGIC| + SALT_LEN..HEADER_LEN] == nonce;
    assert raw[HEADER_LEN..] == body;
  }

  /** Whatever opens at all was bounded, and a reader with a smaller cap only
      ever refuses more. */
  lemma {:induction false} SmallerCapRefusesMore(raw: Bytes, small: nat, large: nat)
    requires small <= large && ReadBackupFileLimited(raw, small).Ok?
    ensures ReadBackupFileLimited(raw, large) == Ok(raw) && |raw| <= small
  {
  }
}
