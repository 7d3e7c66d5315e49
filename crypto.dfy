/**
 * Encrypted custody of key material (src/core/crypto.ts). AES-256-GCM and
 * scrypt are oracles bundled in a `Cipher`; randomBytes results are inputs.
 * What is modelled is the framing IV(12) ‖ tag(16) ‖ ciphertext, the length
 * check, and the zeroing of key buffers.
 */
module Crypto {
  import opened Wrappers
  import opened Bytes

  const KEY_LENGTH: nat := 32
  const IV_LENGTH: nat := 12
  const AUTH_TAG_LENGTH: nat := 16
  const SALT_LENGTH: nat := 32
  const SCRYPT_N: nat := 16384
  const SCRYPT_R: nat := 8
  const SCRYPT_P: nat := 1

  type Key = s: seq<byte> | |s| == KEY_LENGTH witness seq(32, _ => 0)
  type Iv = s: seq<byte> | |s| == IV_LENGTH witness seq(12, _ => 0)
  type Tag = s: seq<byte> | |s| == AUTH_TAG_LENGTH witness seq(16, _ => 0)
  type Salt = s: seq<byte> | |s| == SALT_LENGTH witness seq(32, _ => 0)

  /** What the authenticated cipher produces: its tag and the ciphertext proper. */
  datatype Sealed = Sealed(tag: Tag, body: seq<byte>)

  /**
   * The primitives as oracles: `kdf` is scrypt(passphrase, salt, 32, N, r, p),
   * `seal` encrypts under a key and IV, `open` checks the tag and decrypts.
   */
  datatype Cipher = Cipher(
    kdf: (string, seq<byte>) -> Key,
    seal: (Key, Iv, seq<byte>) -> Sealed,
    open: (Key, Iv, Tag, seq<byte>) -> Option<seq<byte>>)

  /**
   * The authenticated-encryption axioms: opening a sealing gives the data back,
   * and `open` accepts only a tag and ciphertext that sealing that data would produce.
   */
  ghost predicate Authenticated(c: Cipher)
  {
    && (forall k, iv, d :: c.open(k, iv, c.seal(k, iv, d).tag, c.seal(k, iv, d).body) == Some(d))
    && (forall k, iv, t, b :: c.open(k, iv, t, b).Some? ==> c.seal(k, iv, c.open(k, iv, t, b).value) == Sealed(t, b))
  }

  /** GCM is a stream mode: the ciphertext is as long as the plaintext. */
  ghost predicate LengthPreserving(c: Cipher)
  {
    forall k, iv, d :: |c.seal(k, iv, d).body| == |d|
  }

  datatype CryptoError = TooShort | DecryptionFailed

  /** The stored layout: IV, then tag, then ciphertext. */
  function Frame(iv: Iv, tag: Tag, body: seq<byte>): (f: seq<byte>)
    ensures |f| == IV_LENGTH + AUTH_TAG_LENGTH + |body|
  {
    iv + tag + body
  }

  /** decrypt's split at offsets 12 and 28, after the "too short" check. */
  function Unframe(f: seq<byte>): (r: Result<(Iv, Tag, seq<byte>), CryptoError>)
    ensures r.Failure? <==> |f| < IV_LENGTH + AUTH_TAG_LENGTH
    ensures r.Failure? ==> r.error == TooShort
  {
    if |f| < IV_LENGTH + AUTH_TAG_LENGTH then Failure(TooShort)
    else Success((f[..IV_LENGTH], f[IV_LENGTH..IV_LENGTH + AUTH_TAG_LENGTH], f[IV_LENGTH + AUTH_TAG_LENGTH..]))
  }

  lemma UnframeFrame(iv: Iv, tag: Tag, body: seq<byte>)
    ensures Unframe(Frame(iv, tag, body)) == Success((iv, tag, body))
  {
    var f := Frame(iv, tag, body);
    assert f[..IV_LENGTH] == iv;
    assert f[IV_LENGTH..IV_LENGTH + AUTH_TAG_LENGTH] == tag;
    assert f[IV_LENGTH + AUTH_TAG_LENGTH..] == body;
  }

  lemma FrameUnframe(f: seq<byte>)
    requires |f| >= IV_LENGTH + AUTH_TAG_LENGTH
    ensures Unframe(f).Success?
    ensures Frame(Unframe(f).value.0, Unframe(f).value.1, Unframe(f).value.2) == f
  {
    var parts := Unframe(f).value;
    assert f == f[..IV_LENGTH] + f[IV_LENGTH..IV_LENGTH + AUTH_TAG_LENGTH] + f[IV_LENGTH + AUTH_TAG_LENGTH..];
  }

  /** What encrypt returns for data, passphrase and salt, given the IV drawn for it. */
  function Encrypted(c: Cipher, data: seq<byte>, passphrase: string, salt: seq<byte>, iv: Iv): seq<byte>
  {
    var sealed := c.seal(c.kdf(passphrase, salt), iv, data);
    Frame(iv, sealed.tag, sealed.body)
  }

  /** What decrypt returns: "too short", a failed authentication, or the plaintext. */
  function Decrypted(c: Cipher, frame: seq<byte>, passphrase: string, salt: seq<byte>): Result<seq<byte>, CryptoError>
  {
    match Unframe(frame)
    case Failure(e) => Failure(e)
    case Success((iv, tag, body)) =>
      match c.open(c.kdf(passphrase, salt), iv, tag, body)
      case None => Failure(DecryptionFailed)
      case Some(d) => Success(d)
  }

  /** The frame is 28 bytes longer than the plaintext. */
  lemma EncryptedLength(c: Cipher, data: seq<byte>, passphrase: string, salt: seq<byte>, iv: Iv)
    requires LengthPreserving(c)
    ensures |Encrypted(c, data, passphrase, salt, iv)| == |data| + IV_LENGTH + AUTH_TAG_LENGTH
    ensures |Encrypted(c, data, passphrase, salt, iv)| > |data|
  {
  }

  /** Decrypting what encrypt produced, with the same passphrase and salt, returns the data. */
  lemma DecryptEncrypt(c: Cipher, data: seq<byte>, passphrase: string, salt: seq<byte>, iv: Iv)
    requires Authenticated(c)
    ensures Decrypted(c, Encrypted(c, data, passphrase, salt, iv), passphrase, salt) == Success(data)
  {
    var sealed := c.seal(c.kdf(passphrase, salt), iv, data);
    UnframeFrame(iv, sealed.tag, sealed.body);
  }

  /**
   * decrypt fails closed: it returns data only for a frame that is exactly the
   * encryption of that data under the key derived from this passphrase and salt.
   * A wrong passphrase, a wrong salt or an altered byte therefore yields an error
   * unless the altered frame is itself a valid encryption under the derived key.
   */
  lemma DecryptFailsClosed(c: Cipher, frame: seq<byte>, passphrase: string, salt: seq<byte>)
    requires Authenticated(c)
    ensures Decrypted(c, frame, passphrase, salt).Success? ==>
      |frame| >= IV_LENGTH + AUTH_TAG_LENGTH &&
      frame == Encrypted(c, Decrypted(c, frame, passphrase, salt).value, passphrase, salt, frame[..IV_LENGTH])
  {
    if |frame| >= IV_LENGTH + AUTH_TAG_LENGTH {
      FrameUnframe(frame);
    }
  }

  /** Frames shorter than IV and tag together are rejected whatever the key. */
  lemma DecryptTooShort(c: Cipher, frame: seq<byte>, passphrase: string, salt: seq<byte>)
    requires |frame| < IV_LENGTH + AUTH_TAG_LENGTH
    ensures Decrypted(c, frame, passphrase, salt) == Failure(TooShort)
  {
  }

  /** zeroBuffer: every byte becomes 0, the length is unchanged. */
  method ZeroBuffer(buf: array<byte>)
    modifies buf
    ensures forall i :: 0 <= i < buf.Length ==> buf[i] == 0
  {
    for i := 0 to buf.Length
      invariant forall k :: 0 <= k < i ==> buf[k] == 0
    {
      buf[i] := 0;
    }
  }

  /** The derived key in a fresh buffer, as scryptSync returns it. */
  method DeriveKey(c: Cipher, passphrase: string, salt: seq<byte>) returns (key: array<byte>)
    ensures fresh(key) && key[..] == c.kdf(passphrase, salt)
  {
    var derived := c.kdf(passphrase, salt);
    key := new byte[KEY_LENGTH](i requires 0 <= i < KEY_LENGTH => derived[i]);
  }

  /**
   * The use of the derived key in encrypt: seal `data` under the key the
   * buffer holds, then fill the buffer with zeros (`key.fill(0)`).
   */
  method SealAndWipe(c: Cipher, key: array<byte>, iv: Iv, data: seq<byte>) returns (sealed: Sealed)
    requires key.Length == KEY_LENGTH
    modifies key
    ensures sealed == c.seal(old(key[..]), iv, data)
    ensures forall i :: 0 <= i < key.Length ==> key[i] == 0
  {
    sealed := c.seal(key[..], iv, data);
    ZeroBuffer(key);
  }

  /**
   * The use of the derived key in decrypt: check the tag and decrypt under the
   * key the buffer holds, then fill the buffer with zeros whether or not
   * decryption succeeded (the `finally` block).
   */
  method OpenAndWipe(c: Cipher, key: array<byte>, iv: Iv, tag: Tag, body: seq<byte>) returns (plain: Option<seq<byte>>)
    requires key.Length == KEY_LENGTH
    modifies key
    ensures plain == c.open(old(key[..]), iv, tag, body)
    ensures forall i :: 0 <= i < key.Length ==> key[i] == 0
  {
    plain := c.open(key[..], iv, tag, body);
    ZeroBuffer(key);
  }

  /**
   * encrypt: the frame for `data`. The key is derived into a fresh buffer
   * (`keyBuf`), which SealAndWipe leaves all zeros.
   */
  method Encrypt(c: Cipher, data: seq<byte>, passphrase: string, salt: seq<byte>, iv: Iv)
    returns (frame: seq<byte>, ghost keyBuf: array<byte>)
    ensures frame == Encrypted(c, data, passphrase, salt, iv)
    ensures fresh(keyBuf) && keyBuf.Length == KEY_LENGTH
    ensures forall i :: 0 <= i < keyBuf.Length ==> keyBuf[i] == 0
  {
    var key := DeriveKey(c, passphrase, salt);
    var sealed := SealAndWipe(c, key, iv, data);
    keyBuf := key;
    frame := Frame(iv, sealed.tag, sealed.body);
  }

  /**
   * decrypt: the "too short" check comes before any key is derived; otherwise
   * the key is derived into a fresh buffer (`keyBuf`), which OpenAndWipe leaves
   * all zeros on the success and the failure path alike.
   */
  method Decrypt(c: Cipher, frame: seq<byte>, passphrase: string, salt: seq<byte>)
    returns (r: Result<seq<byte>, CryptoError>, ghost keyBuf: Option<array<byte>>)
    ensures r == Decrypted(c, frame, passphrase, salt)
    ensures keyBuf.None? <==> |frame| < IV_LENGTH + AUTH_TAG_LENGTH
    ensures keyBuf.Some? ==> fresh(keyBuf.value) && keyBuf.value.Length == KEY_LENGTH
    ensures keyBuf.Some? ==> forall i :: 0 <= i < keyBuf.value.Length ==> keyBuf.value[i] == 0
  {
    if |frame| < IV_LENGTH + AUTH_TAG_LENGTH {
      return Failure(TooShort), None;
    }
    var key := DeriveKey(c, passphrase, salt);
    var iv: Iv := frame[..IV_LENGTH];
    var tag: Tag := frame[IV_LENGTH..IV_LENGTH + AUTH_TAG_LENGTH];
    var body := frame[IV_LENGTH + AUTH_TAG_LENGTH..];
    var plain := OpenAndWipe(c, key, iv, tag, body);
    keyBuf := Some(key);
    if plain.None? {
      r := Failure(DecryptionFailed);
    } else {
      r := Success(plain.value);
    }
  }
}
