/** The secret-at-rest format of apps/api/src/user-platforms/user-platforms.repository.ts:
    a TOTP secret is sealed with AES-256-GCM (NIST SP 800-38D) under a
    12-byte nonce and stored as `hex(iv):hex(ciphertext):hex(tag)`.

    The cipher itself is not modelled: `Aead` bundles the two operations the
    repository calls, and `Authenticated` states the only property the code
    relies on, that opening what was sealed under the same key and nonce
    gives the plaintext back. Base16 and `split(":")` are modelled exactly
    (modules Hex and Strings), so the format round trip is proved, not
    assumed. */
module SecretBlob {
  import opened Wrappers
  import Hex
  import Strings

  /** The nonce length `crypto.randomBytes(12)` draws. */
  const IvLength: nat := 12
  /** The GCM tag length Node produces by default. */
  const TagLength: nat := 16
  /** The shortest `ENCRYPTION_KEY` the repository accepts, in characters. */
  const MinKeyLength: nat := 32
  const Separator: char := ':'

  datatype KeyError = KeyMissing | KeyTooShort

  /** The key initializer: a missing or empty `ENCRYPTION_KEY` and one shorter
      than 32 characters are both fatal at start-up. */
  function LoadKey(env: Option<string>): (r: Result<string, KeyError>)
    ensures r.Ok? <==> env.Some? && |env.value| >= MinKeyLength
    ensures r.Ok? ==> r.value == env.value
    ensures (env.None? || env.value == "") ==> r == Err(KeyMissing)
    ensures env.Some? && 0 < |env.value| < MinKeyLength ==> r == Err(KeyTooShort)
  {
    match env
    case None => Err(KeyMissing)
    case Some(k) =>
      if k == "" then Err(KeyMissing)
      else if |k| < MinKeyLength then Err(KeyTooShort)
      else Ok(k)
  }

  /** What sealing produces: the ciphertext and the authentication tag. */
  datatype Sealed = Sealed(ciphertext: seq<Hex.byte>, tag: seq<Hex.byte>)

  /** An authenticated cipher: `seal(key, iv, plaintext)` is
      `createCipheriv` + `update` + `final` + `getAuthTag`, and
      `open(key, iv, ciphertext, tag)` is `createDecipheriv` + `setAuthTag` +
      `update` + `final`, which yields nothing when it throws (a bad nonce
      or tag length, or a tag that does not authenticate). */
  datatype Aead = Aead(
    seal: (string, seq<Hex.byte>, string) -> Sealed,
    open: (string, seq<Hex.byte>, seq<Hex.byte>, seq<Hex.byte>) -> Option<string>)

  /** The properties of AES-256-GCM the repository relies on. */
  ghost predicate Authenticated(c: Aead)
  {
    forall key, iv, secret {:trigger c.seal(key, iv, secret)} :: |iv| == IvLength ==>
      && |c.seal(key, iv, secret).tag| == TagLength
      && c.open(key, iv, c.seal(key, iv, secret).ciphertext, c.seal(key, iv, secret).tag) == Some(secret)
  }

  /** `encryptSecret`, with the random nonce as a parameter. */
  function EncryptSecret(c: Aead, key: string, secret: string, iv: seq<Hex.byte>): (blob: string)
  {
    var sealed := c.seal(key, iv, secret);
    Hex.Encode(iv) + [Separator] + Hex.Encode(sealed.ciphertext) + [Separator] + Hex.Encode(sealed.tag)
  }

  /** The fields of a stored blob are the encodings of the nonce, the
      ciphertext and the tag. */
  lemma EncryptSecretFields(c: Aead, key: string, secret: string, iv: seq<Hex.byte>)
    ensures var sealed := c.seal(key, iv, secret);
      Strings.Split(EncryptSecret(c, key, secret, iv), Separator)
        == [Hex.Encode(iv), Hex.Encode(sealed.ciphertext), Hex.Encode(sealed.tag)]
  {
    var sealed := c.seal(key, iv, secret);
    Hex.EncodeHasNoColon(iv);
    Hex.EncodeHasNoColon(sealed.ciphertext);
    Hex.EncodeHasNoColon(sealed.tag);
    Strings.SplitThree(Hex.Encode(iv), Hex.Encode(sealed.ciphertext), Hex.Encode(sealed.tag), Separator);
  }

  /** A stored blob has exactly three fields, none holding ':'; the first has
      two hex digits per nonce byte (24 for the 12-byte nonce), and decoding
      the first and last gives the nonce and the tag back. */
  lemma EncryptSecretFormat(c: Aead, key: string, secret: string, iv: seq<Hex.byte>)
    ensures var fields := Strings.Split(EncryptSecret(c, key, secret, iv), Separator);
      && |fields| == 3
      && Separator !in fields[0] && Separator !in fields[1] && Separator !in fields[2]
      && |fields[0]| == 2 * |iv|
      && (|iv| == IvLength ==> |fields[0]| == 24)
      && Hex.Decode(fields[0]) == iv
      && Hex.Decode(fields[2]) == c.seal(key, iv, secret).tag
  {
    var sealed := c.seal(key, iv, secret);
    EncryptSecretFields(c, key, secret, iv);
    Hex.EncodeHasNoColon(iv);
    Hex.EncodeHasNoColon(sealed.ciphertext);
    Hex.EncodeHasNoColon(sealed.tag);
    Hex.DecodeEncode(iv);
    Hex.DecodeEncode(sealed.tag);
  }

  datatype DecryptError =
    | Malformed   // fewer than three fields: `Buffer.from(undefined, "hex")` throws
    | Rejected    // the decipher throws

  /** `decryptSecret`: fields past the third are ignored, and each field is
      read with Node's lenient hex decoder. */
  function DecryptSecret(c: Aead, key: string, blob: string): (r: Result<string, DecryptError>)
    ensures r == Err(Malformed) <==> multiset(blob)[Separator] < 2
  {
    var fields := Strings.Split(blob, Separator);
    Strings.SplitCount(blob, Separator);
    if |fields| < 3 then Err(Malformed)
    else
      var ct, tag := Hex.Decode(fields[1]), Hex.Decode(fields[2]);
      match c.open(key, Hex.Decode(fields[0]), ct, tag)
      case None => Err(Rejected)
      case Some(s) => Ok(s)
  }

  /** With an authenticated cipher, decrypting what was encrypted under a
      12-byte nonce gives the secret back. */
  lemma DecryptEncrypt(c: Aead, key: string, secret: string, iv: seq<Hex.byte>)
    requires Authenticated(c)
    requires |iv| == IvLength
    ensures DecryptSecret(c, key, EncryptSecret(c, key, secret, iv)) == Ok(secret)
  {
    var sealed := c.seal(key, iv, secret);
    EncryptSecretFields(c, key, secret, iv);
    Hex.DecodeEncode(iv);
    Hex.DecodeEncode(sealed.ciphertext);
    Hex.DecodeEncode(sealed.tag);
  }

  /** A blob with a fourth field decrypts as its first three. */
  lemma DecryptIgnoresExtraFields(c: Aead, key: string, blob: string, extra: string)
    requires |Strings.Split(blob, Separator)| >= 3
    ensures DecryptSecret(c, key, blob + [Separator] + extra) == DecryptSecret(c, key, blob)
  {
    Strings.SplitConcat(blob, extra, Separator);
    var f, g := Strings.Split(blob + [Separator] + extra, Separator), Strings.Split(blob, Separator);
    assert f[0] == g[0] && f[1] == g[1] && f[2] == g[2];
  }
}
