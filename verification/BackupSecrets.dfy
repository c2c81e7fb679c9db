/** What `config backup` and `config restore` do to one secret under the same AES key. */
module BackupSecrets {
  import opened Common
  import opened SecretCodec
  import Base64Url
  import Cfb

  /** The key sizes with which the server starts: none, or a size that AES takes. */
  predicate ServerKey(key: Text) {
    key == [] || ValidKeySize(key)
  }

  /** Both commands decrypt the secret and, unless `--decrypt` is given, encrypt it again. */
  function RecodePassword(aes: Aes, key: Text, iv: Block, decrypt: bool, stored: Text): Result<Text> {
    var plain := OpenPassword(aes, key, stored);
    if decrypt then Ok(plain) else SealPassword(aes, key, iv, plain)
  }

  function RecodeKey(aes: Aes, key: Text, iv: Block, decrypt: bool, stored: Text): Result<Text> {
    var plain := OpenKey(aes, key, stored);
    if decrypt then Ok(plain) else SealKey(aes, key, iv, plain)
  }

  /** What a command leaves of a password: with `--decrypt`, or without a key, the plain one; otherwise one that is
      sealed again, unless it is empty. */
  lemma PasswordRecoded(aes: Aes, key: Text, iv: Block, decrypt: bool, stored: Text)
    requires ServerKey(key)
    ensures var plain, r := OpenPassword(aes, key, stored), RecodePassword(aes, key, iv, decrypt, stored);
            && r.Ok?
            && if decrypt || key == [] || plain == [] then r.value == plain else Sealed(aes, key, iv, plain, r.value)
  {
    EncryptSeals(aes, key, iv, OpenPassword(aes, key, stored));
  }

  /** The same for a private key, which is sealed even if it is empty. */
  lemma KeyRecoded(aes: Aes, key: Text, iv: Block, decrypt: bool, stored: Text)
    requires ServerKey(key)
    ensures var plain, r := OpenKey(aes, key, stored), RecodeKey(aes, key, iv, decrypt, stored);
            r.Ok? && if decrypt || key == [] then r.value == plain else Sealed(aes, key, iv, plain, r.value)
  {
    EncryptSeals(aes, key, iv, OpenKey(aes, key, stored));
  }

  /** The server starts with no key or one that AES takes. */
  lemma ServerKeyIs(key: Text)
    ensures ServerKey(key) <==> |key| in {0, 16, 24, 32}
  {
  }

  /** Whether a plain secret would be taken for ciphertext. */
  predicate LooksEncrypted(plain: Text) {
    |Base64Url.Decode(plain)| >= Cfb.BLOCK_SIZE
  }

  lemma OpenSealedPassword(aes: Aes, key: Text, iv: Block, plain: Text)
    requires ServerKey(key)
    ensures SealPassword(aes, key, iv, plain).Ok?
    ensures OpenPassword(aes, key, SealPassword(aes, key, iv, plain).value) == plain
  {
    if key != [] && plain != [] {
      SafeDecryptInvertsEncrypt(aes, key, iv, plain);
    }
  }

  lemma OpenSealedKey(aes: Aes, key: Text, iv: Block, plain: Text)
    requires ServerKey(key)
    ensures SealKey(aes, key, iv, plain).Ok?
    ensures OpenKey(aes, key, SealKey(aes, key, iv, plain).value) == plain
  {
    if key != [] {
      SafeDecryptInvertsEncrypt(aes, key, iv, plain);
    }
  }

  /** A backup and a restore of a host password, each with or without `--decrypt`: the password seen at use
      survives exactly when neither flag is given, or no key is set, or it does not look encrypted. */
  lemma PasswordSurvives(aes: Aes, key: Text, iv1: Block, iv2: Block,
      backupDecrypt: bool, restoreDecrypt: bool, stored: Text)
    requires ServerKey(key)
    ensures var saved := RecodePassword(aes, key, iv1, backupDecrypt, stored);
            && saved.Ok?
            && var restored := RecodePassword(aes, key, iv2, restoreDecrypt, saved.value);
            && restored.Ok?
            && (OpenPassword(aes, key, restored.value) == OpenPassword(aes, key, stored) <==>
                  (!backupDecrypt && !restoreDecrypt) || key == [] || !LooksEncrypted(OpenPassword(aes, key, stored)))
  {
    var plain := OpenPassword(aes, key, stored);
    OpenSealedPassword(aes, key, iv1, plain);
    OpenSealedPassword(aes, key, iv2, plain);
    var again := OpenPassword(aes, key, plain);
    OpenSealedPassword(aes, key, iv2, again);
    SafeDecryptUnchanged(aes, key, plain);
    SafeDecryptUnchanged(aes, key, again);
  }

  /** The same for a private key. */
  lemma KeySurvives(aes: Aes, key: Text, iv1: Block, iv2: Block,
      backupDecrypt: bool, restoreDecrypt: bool, stored: Text)
    requires ServerKey(key)
    ensures var saved := RecodeKey(aes, key, iv1, backupDecrypt, stored);
            && saved.Ok?
            && var restored := RecodeKey(aes, key, iv2, restoreDecrypt, saved.value);
            && restored.Ok?
            && (OpenKey(aes, key, restored.value) == OpenKey(aes, key, stored) <==>
                  (!backupDecrypt && !restoreDecrypt) || key == [] || !LooksEncrypted(OpenKey(aes, key, stored)))
  {
    var plain := OpenKey(aes, key, stored);
    OpenSealedKey(aes, key, iv1, plain);
    OpenSealedKey(aes, key, iv2, plain);
    var again := OpenKey(aes, key, plain);
    OpenSealedKey(aes, key, iv2, again);
    SafeDecryptUnchanged(aes, key, plain);
    SafeDecryptUnchanged(aes, key, again);
  }

  /** A PEM private key, stored plain or encrypted, survives all four combinations of the two flags. */
  lemma PemKeySurvives(aes: Aes, key: Text, iv1: Block, iv2: Block,
      backupDecrypt: bool, restoreDecrypt: bool, stored: Text)
    requires ServerKey(key) && PEM_PREFIX <= OpenKey(aes, key, stored)
    ensures var saved := RecodeKey(aes, key, iv1, backupDecrypt, stored);
            && saved.Ok?
            && var restored := RecodeKey(aes, key, iv2, restoreDecrypt, saved.value);
            && restored.Ok?
            && OpenKey(aes, key, restored.value) == OpenKey(aes, key, stored)
  {
    KeySurvives(aes, key, iv1, iv2, backupDecrypt, restoreDecrypt, stored);
    if key != [] {
      PemUnchanged(aes, key, OpenKey(aes, key, stored));
      SafeDecryptUnchanged(aes, key, OpenKey(aes, key, stored));
    }
  }

  /** The seeded keys are stored unencrypted; a server with an AES key uses them all the same. */
  lemma SeededKeyUsable(aes: Aes, key: Text, seeded: Text)
    requires PEM_PREFIX <= seeded
    ensures OpenKey(aes, key, seeded) == seeded
  {
    PemUnchanged(aes, key, seeded);
  }
}
