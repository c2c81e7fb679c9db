/** Encryption of the secrets kept in the database: a random initialization vector followed by the text in
    cipher feedback, as padded URL-safe base64.  AES is any function from a key to a block function. */
module SecretCodec {
  import opened Common
  import Base64Url
  import Cfb

  type Text = Base64Url.Text

  type Block = Cfb.Block

  type Aes = (Text, Block) -> Block

  /** The key sizes for which `aes.NewCipher` gives no error. */
  predicate ValidKeySize(key: Text) {
    |key| == 16 || |key| == 24 || |key| == 32
  }

  function Cipher(aes: Aes, key: Text): Cfb.BlockFunction {
    b => aes(key, b)
  }

  function EncryptText(aes: Aes, key: Text, iv: Block, text: Text): Result<Text> {
    if !ValidKeySize(key) then Err
    else Ok(Base64Url.Encode(iv + Cfb.Encrypt(Cipher(aes, key), iv, text)))
  }

  /** The error of the base64 decoder is ignored: what it could decode is decrypted. */
  function DecryptText(aes: Aes, key: Text, cryptoText: Text): Result<Text> {
    var data := Base64Url.Decode(cryptoText);
    if !ValidKeySize(key) || |data| < Cfb.BLOCK_SIZE then Err
    else Ok(Cfb.Decrypt(Cipher(aes, key), data[..Cfb.BLOCK_SIZE], data[Cfb.BLOCK_SIZE..]))
  }

  function SafeDecrypt(aes: Aes, key: Text, cryptoText: Text): Text {
    if |key| == 0 then cryptoText
    else match DecryptText(aes, key, cryptoText)
         case Ok(text) => text
         case Err => cryptoText
  }

  /** AES takes keys of these sizes only. */
  predicate AesTakes(key: Text) {
    |key| in {16, 24, 32}
  }

  /** Octet `b` of block `j` of the text, in a message of a vector and ciphertext: the standard's equation, with the
      block before it in the message as the input. */
  predicate SealedAt(aes: Aes, key: Text, message: seq<bv8>, plain: Text, j: nat, b: nat)
    requires |message| == 16 + |plain| && b < 16 && 16 * j + b < |plain|
  {
    message[16 + 16 * j + b] == plain[16 * j + b] ^ aes(key, message[16 * j..16 * j + 16])[b]
  }

  /** `stored` is the padded base64 of the vector followed by the text in cipher feedback. */
  ghost predicate Sealed(aes: Aes, key: Text, iv: Block, plain: Text, stored: Text) {
    var message := Base64Url.Decode(stored);
    && stored == Base64Url.Encode(message)
    && |message| == 16 + |plain| && message[..16] == iv
    && forall j: nat, b: nat | b < 16 && 16 * j + b < |plain| :: SealedAt(aes, key, message, plain, j, b)
  }

  lemma SealedOctet(aes: Aes, key: Text, iv: Block, plain: Text, j: nat, b: nat)
    requires b < 16 && 16 * j + b < |plain|
    ensures SealedAt(aes, key, iv + Cfb.Encrypt(Cipher(aes, key), iv, plain), plain, j, b)
  {
    var c := Cfb.Encrypt(Cipher(aes, key), iv, plain);
    Cfb.EncryptMeetsStandard(Cipher(aes, key), iv, plain, j, b);
    var message := iv + c;
    assert message[16 + 16 * j + b] == c[16 * j + b];
    assert message[16 * j..16 * j + 16] == Cfb.InputBlock(iv, c, j);
  }

  /** Encryption with a key that AES takes gives a sealed text. */
  lemma EncryptSeals(aes: Aes, key: Text, iv: Block, plain: Text)
    ensures EncryptText(aes, key, iv, plain).Ok? <==> AesTakes(key)
    ensures AesTakes(key) ==> Sealed(aes, key, iv, plain, EncryptText(aes, key, iv, plain).value)
  {
    var message := iv + Cfb.Encrypt(Cipher(aes, key), iv, plain);
    Base64Url.EncodeHasNoNewline(message);
    Base64Url.RoundTrip(message, Base64Url.Encode(message));
    forall j: nat, b: nat | b < 16 && 16 * j + b < |plain|
      ensures SealedAt(aes, key, message, plain, j, b)
    {
      SealedOctet(aes, key, iv, plain, j, b);
    }
  }

  /** `encrypt`; `entropy` is what the random source yields for the initialization vector, if it does not fail. */
  method Encrypt(aes: Aes, key: Text, text: Text, entropy: Option<Block>) returns (r: Result<Text>)
    ensures r == if entropy.None? then Err else EncryptText(aes, key, entropy.value, text)
    ensures r.Ok? <==> entropy.Some? && AesTakes(key)
    ensures r.Ok? ==> Sealed(aes, key, entropy.value, text, r.value)
  {
    if entropy.Some? {
      EncryptSeals(aes, key, entropy.value, text);
    }
    if !ValidKeySize(key) || entropy.None? {
      return Err;
    }
    var iv: Block := entropy.value;
    var ciphertext := new bv8[Cfb.BLOCK_SIZE + |text|](i => 0);
    forall i | 0 <= i < Cfb.BLOCK_SIZE {
      ciphertext[i] := iv[i];
    }
    assert ciphertext[..Cfb.BLOCK_SIZE] == iv;
    Cfb.EncryptInto(Cipher(aes, key), iv, ciphertext, Cfb.BLOCK_SIZE, text);
    assert ciphertext[..] == ciphertext[..Cfb.BLOCK_SIZE] + ciphertext[Cfb.BLOCK_SIZE..];
    r := Ok(Base64Url.Encode(ciphertext[..]));
  }

  /** `decrypt`: one buffer holds the vector and the ciphertext, which is decrypted over itself. */
  method Decrypt(aes: Aes, key: Text, cryptoText: Text) returns (r: Result<Text>)
    ensures r == DecryptText(aes, key, cryptoText)
  {
    var data := Base64Url.Decode(cryptoText);
    if !ValidKeySize(key) || |data| < Cfb.BLOCK_SIZE {
      return Err;
    }
    var ciphertext := new bv8[|data|](i requires 0 <= i < |data| => data[i]);
    assert ciphertext[..] == data;
    var iv := ciphertext[..Cfb.BLOCK_SIZE];
    assert ciphertext[Cfb.BLOCK_SIZE..] == data[Cfb.BLOCK_SIZE..];
    Cfb.DecryptInPlace(Cipher(aes, key), iv, ciphertext, Cfb.BLOCK_SIZE);
    r := Ok(ciphertext[Cfb.BLOCK_SIZE..]);
  }

  /** For every key of a valid size, vector and text, also the empty one. */
  lemma SafeDecryptInvertsEncrypt(aes: Aes, key: Text, iv: Block, text: Text)
    requires ValidKeySize(key)
    ensures EncryptText(aes, key, iv, text).Ok?
    ensures SafeDecrypt(aes, key, EncryptText(aes, key, iv, text).value) == text
  {
    var c := Cfb.Encrypt(Cipher(aes, key), iv, text);
    Base64Url.EncodeHasNoNewline(iv + c);
    Base64Url.RoundTrip(iv + c, Base64Url.Encode(iv + c));
    assert (iv + c)[..Cfb.BLOCK_SIZE] == iv && (iv + c)[Cfb.BLOCK_SIZE..] == c;
    Cfb.RoundTrip(Cipher(aes, key), iv, text);
  }

  /** A text is taken for ciphertext exactly when it decodes to at least one block; what comes out is then
      shorter, so it is never the text itself. */
  lemma SafeDecryptUnchanged(aes: Aes, key: Text, text: Text)
    ensures SafeDecrypt(aes, key, text) == text <==> !ValidKeySize(key) || |Base64Url.Decode(text)| < Cfb.BLOCK_SIZE
    ensures |SafeDecrypt(aes, key, text)| <= |text|
    ensures SafeDecrypt(aes, key, text) != text ==> |SafeDecrypt(aes, key, text)| < |text|
  {
  }

  /** "-----BEGIN " */
  const PEM_PREFIX: Text := [45, 45, 45, 45, 45, 66, 69, 71, 73, 78, 32]

  /** The characters of the header. */
  lemma PemPrefixIs(i: nat)
    requires i < |PEM_PREFIX|
    ensures |PEM_PREFIX| == 11 && PEM_PREFIX[i] as int == "-----BEGIN "[i] as int
  {
  }

  lemma {:induction false} SkipKeepsClean(clean: Text, rest: Text)
    requires forall c :: c in clean ==> !Base64Url.IsNewline(c)
    ensures Base64Url.SkipNewlines(clean + rest) == clean + Base64Url.SkipNewlines(rest)
  {
    if clean == [] {
      assert clean + rest == rest;
    } else {
      assert clean + rest == [clean[0]] + (clean[1..] + rest);
      Base64Url.SkipOne(clean[0], clean[1..] + rest);
      SkipKeepsClean(clean[1..], rest);
      assert [clean[0]] + (clean[1..] + Base64Url.SkipNewlines(rest)) == clean + Base64Url.SkipNewlines(rest);
    }
  }

  /** A PEM text is never taken for ciphertext: its eleventh character is a space, which ends the decoding
      with at most six bytes. */
  lemma PemUnchanged(aes: Aes, key: Text, text: Text)
    requires PEM_PREFIX <= text
    ensures SafeDecrypt(aes, key, text) == text
  {
    var rest := text[|PEM_PREFIX|..];
    assert text == PEM_PREFIX + rest;
    SkipKeepsClean(PEM_PREFIX, rest);
    var clean := Base64Url.SkipNewlines(text);
    assert clean[10] == PEM_PREFIX[10];
    Base64Url.BadCharacterStops(clean, 10);
    SafeDecryptUnchanged(aes, key, text);
  }

  // ---- the fields that hold secrets -------------------------------------------------------------

  /** What a host's password is stored as. */
  function SealPassword(aes: Aes, key: Text, iv: Block, password: Text): Result<Text> {
    if key == [] || password == [] then Ok(password) else EncryptText(aes, key, iv, password)
  }

  /** The password seen at use. */
  function OpenPassword(aes: Aes, key: Text, stored: Text): Text {
    if key == [] || stored == [] then stored else SafeDecrypt(aes, key, stored)
  }

  /** What a private key is stored as; unlike a password it is encrypted even when empty. */
  function SealKey(aes: Aes, key: Text, iv: Block, privKey: Text): Result<Text> {
    if key == [] then Ok(privKey) else EncryptText(aes, key, iv, privKey)
  }

  function OpenKey(aes: Aes, key: Text, stored: Text): Text {
    if key == [] then stored else SafeDecrypt(aes, key, stored)
  }

  /** The field of a host that `HostEncrypt` and `HostDecrypt` overwrite. */
  class HostSecret {
    var password: Text

    constructor (stored: Text)
      ensures password == stored
    {
      password := stored;
    }

    /** On an error the password is lost: the call assigns both its results. */
    method HostEncrypt(aes: Aes, aesKey: Text, iv: Block) returns (ok: bool)
      modifies this
      ensures ok <==> SealPassword(aes, aesKey, iv, old(password)).Ok?
      ensures password == if ok then SealPassword(aes, aesKey, iv, old(password)).value else []
      ensures aesKey == [] || old(password) == [] ==> ok && password == old(password)
      ensures aesKey != [] && old(password) != [] ==>
                && (ok <==> AesTakes(aesKey))
                && (if ok then Sealed(aes, aesKey, iv, old(password), password) else password == [])
    {
      ok := true;
      if aesKey == [] {
        return;
      }
      if password != [] {
        var r := Encrypt(aes, aesKey, password, Some(iv));
        ok := r.Ok?;
        password := if r.Ok? then r.value else [];
      }
    }

    method HostDecrypt(aes: Aes, aesKey: Text)
      modifies this
      ensures password == OpenPassword(aes, aesKey, old(password))
    {
      if aesKey == [] {
        return;
      }
      if password != [] {
        var r := Decrypt(aes, aesKey, password);
        if r.Ok? {
          password := r.value;
        }
      }
    }
  }

  /** The field of a key that `SSHKeyEncrypt` and `SSHKeyDecrypt` overwrite. */
  class KeySecret {
    var privKey: Text

    constructor (stored: Text)
      ensures privKey == stored
    {
      privKey := stored;
    }

    method SSHKeyEncrypt(aes: Aes, aesKey: Text, iv: Block) returns (ok: bool)
      modifies this
      ensures ok <==> SealKey(aes, aesKey, iv, old(privKey)).Ok?
      ensures privKey == if ok then SealKey(aes, aesKey, iv, old(privKey)).value else []
      ensures aesKey == [] ==> ok && privKey == old(privKey)
      ensures aesKey != [] ==>
                && (ok <==> AesTakes(aesKey))
                && (if ok then Sealed(aes, aesKey, iv, old(privKey), privKey) else privKey == [])
    {
      ok := true;
      if aesKey == [] {
        return;
      }
      var r := Encrypt(aes, aesKey, privKey, Some(iv));
      ok := r.Ok?;
      privKey := if r.Ok? then r.value else [];
    }

    method SSHKeyDecrypt(aes: Aes, aesKey: Text)
      modifies this
      ensures privKey == OpenKey(aes, aesKey, old(privKey))
    {
      if aesKey == [] {
        return;
      }
      var r := Decrypt(aes, aesKey, privKey);
      if r.Ok? {
        privKey := r.value;
      }
    }
  }
}
