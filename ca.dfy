/**
 * The certificate authority (src/core/ca.ts): custody of the encrypted CA key,
 * certificate signing, and the paths and dates handed to ssh-keygen. Every
 * ssh-keygen run is a tool call whose output or failure is an input.
 */
module Ca {
  import opened Wrappers
  import opened Bytes
  import opened Crypto
  import Time
  import Config

  datatype CaError = AlreadyInitialized | NotInitialized | InvalidPassphrase | KeygenFailed | SigningFailed

  /** What `ssh-keygen -t ed25519` leaves behind: the private key bytes and the public key line. */
  datatype KeyPair = KeyPair(privateKey: seq<byte>, publicKey: string)

  datatype SignRequest = SignRequest(
    passphrase: string, publicKeyPath: string, serial: nat, principals: seq<string>,
    ttlSeconds: nat, keyId: string, forceCommand: Option<string>)

  /** SSHCertificate; the validity bounds are instants in milliseconds. */
  datatype SshCertificate = SshCertificate(
    certPath: string, keyPath: string, pubKeyPath: string, serial: nat, principals: seq<string>,
    validAfter: int, validBefore: int, forceCommand: Option<string>)

  /** How far before "now" a certificate becomes valid, to tolerate clock skew. */
  const CLOCK_SKEW_MS: nat := 60 * 1000

  /**
   * loadCAPrivateKey on the custody files' contents: "CA not initialized" when
   * the key or the salt file is missing, "Invalid passphrase" when decryption
   * fails for any reason, otherwise the decrypted key.
   */
  function Unlock(c: Cipher, caKey: Option<seq<byte>>, caSalt: Option<seq<byte>>, passphrase: string): (r: Result<seq<byte>, CaError>)
    ensures r == Failure(NotInitialized) <==> caKey.None? || caSalt.None?
    ensures r.Failure? ==> r.error == NotInitialized || r.error == InvalidPassphrase
  {
    if caKey.None? || caSalt.None? then Failure(NotInitialized)
    else match Decrypted(c, caKey.value, passphrase, caSalt.value)
      case Failure(_) => Failure(InvalidPassphrase)
      case Success(key) => Success(key)
  }

  /** The key initCA stores can be unlocked with the passphrase it was stored under, and yields the same bytes. */
  lemma UnlockAfterInit(c: Cipher, privateKey: seq<byte>, passphrase: string, salt: Salt, iv: Iv)
    requires Authenticated(c)
    ensures Unlock(c, Some(Encrypted(c, privateKey, passphrase, salt, iv)), Some(salt), passphrase) == Success(privateKey)
  {
    DecryptEncrypt(c, privateKey, passphrase, salt, iv);
  }

  /** Unlocking succeeds only on key material that is the encryption of the returned key under this passphrase. */
  lemma UnlockFailsClosed(c: Cipher, caKey: seq<byte>, caSalt: seq<byte>, passphrase: string)
    requires Authenticated(c)
    ensures Unlock(c, Some(caKey), Some(caSalt), passphrase).Success? ==>
      |caKey| >= IV_LENGTH + AUTH_TAG_LENGTH &&
      caKey == Encrypted(c, Unlock(c, Some(caKey), Some(caSalt), passphrase).value, passphrase, caSalt, caKey[..IV_LENGTH])
  {
    DecryptFailsClosed(c, caKey, passphrase, caSalt);
  }

  /** The certificate's validity window: from one minute before `now` to `ttlSeconds` after it. */
  function ValidityWindow(now: int, ttlSeconds: nat): (w: (int, int))
    ensures w.0 < now <= w.1
    ensures w.1 - w.0 == CLOCK_SKEW_MS + ttlSeconds * 1000
    ensures now - w.0 == CLOCK_SKEW_MS
  {
    (now - CLOCK_SKEW_MS, now + ttlSeconds * 1000)
  }

  predicate EndsWithPub(path: string)
  {
    |path| >= 4 && path[|path| - 4..] == ".pub"
  }

  /** `path.replace(/\.pub$/, replacement)`. */
  function ReplacePubSuffix(path: string, replacement: string): (r: string)
    ensures EndsWithPub(path) ==>
              && |r| == |path| - 4 + |replacement|
              && r[|r| - |replacement|..] == replacement
              && r[..|r| - |replacement|] + ".pub" == path
  {
    if EndsWithPub(path) then path[..|path| - 4] + replacement else path
  }

  /** generateEphemeralKeyPair's paths: the private key in the grant directory, the public key beside it. */
  function KeyPairPaths(grantDir: string): (paths: (string, string))
    ensures Config.IsUnder(paths.0, grantDir) && paths.0 != grantDir
    ensures paths.1 == paths.0 + ".pub" && EndsWithPub(paths.1)
  {
    var keyPath := Config.Join(grantDir, "id_ed25519");
    assert keyPath[..|grantDir| + 1] == grantDir + "/";
    (keyPath, keyPath + ".pub")
  }

  /**
   * For the public key generateEphemeralKeyPair writes, signCertificate's
   * `.pub` rewriting gives back the private key path and puts the certificate
   * beside it: exactly the grant's key and certificate paths.
   */
  lemma SignedPathsOfGrant(home: string, id: string)
    ensures KeyPairPaths(Config.GrantDir(home, id)).0 == Config.GrantKey(home, id)
    ensures KeyPairPaths(Config.GrantDir(home, id)).1 == Config.GrantPub(home, id)
    ensures ReplacePubSuffix(Config.GrantPub(home, id), "") == Config.GrantKey(home, id)
    ensures ReplacePubSuffix(Config.GrantPub(home, id), "-cert.pub") == Config.GrantCert(home, id)
  {
    var k := Config.GrantKey(home, id);
    var p := Config.GrantPub(home, id);
    assert p == k + ".pub";
    assert p[|p| - 4..] == ".pub";
    assert p[..|p| - 4] == k;
  }

  /** A path without the `.pub` suffix is left as it is. */
  lemma ReplaceWithoutSuffix(path: string, replacement: string)
    requires !EndsWithPub(path)
    ensures ReplacePubSuffix(path, replacement) == path
  {
  }

  /** The UTC calendar fields of an instant, as the Date getters return them (month 1-based). */
  datatype DateTime = DateTime(year: nat, month: nat, day: nat, hour: nat, minute: nat, second: nat)

  predicate InCalendarRange(t: DateTime)
  {
    1 <= t.month <= 12 && 1 <= t.day <= 31 && t.hour < 24 && t.minute < 60 && t.second < 60
  }

  /** `String(n).padStart(2, '0')`. */
  function PadTwo(n: nat): (p: string)
    ensures |p| >= 2 && Time.AllDigits(p)
  {
    var s := Time.NatToString(n);
    if |s| < 2 then "0" + s else s
  }

  lemma PadTwoDigits(n: nat)
    requires n < 100
    ensures |PadTwo(n)| == 2 && Time.AllDigits(PadTwo(n))
    ensures Time.DigitsValue(PadTwo(n)) == n
  {
    var s := Time.NatToString(n);
    Time.DigitsValueOfNatToString(n);
    if n >= 10 {
      assert s == Time.NatToString(n / 10) + [Time.DigitChar(n % 10)];
    } else {
      var p := PadTwo(n);
      assert p[..1] == "0";
    }
  }

  /** formatSSHDate: YYYYMMDDHHMMSS, the year unpadded. */
  function FormatSshDate(t: DateTime): (r: string)
    ensures Time.AllDigits(r)
    ensures |r| >= |Time.NatToString(t.year)| + 10
    ensures r[..|Time.NatToString(t.year)|] == Time.NatToString(t.year)
  {
    Time.NatToString(t.year) + PadTwo(t.month) + PadTwo(t.day) + PadTwo(t.hour) + PadTwo(t.minute) + PadTwo(t.second)
  }

  /** Each two-character field after the year reads back as the calendar field it encodes. */
  lemma FormatSshDateFields(t: DateTime)
    requires InCalendarRange(t)
    ensures var r, y := FormatSshDate(t), |Time.NatToString(t.year)|;
      && |r| == y + 10 && Time.AllDigits(r)
      && Time.DigitsValue(r[..y]) == t.year
      && Time.DigitsValue(r[y..y + 2]) == t.month
      && Time.DigitsValue(r[y + 2..y + 4]) == t.day
      && Time.DigitsValue(r[y + 4..y + 6]) == t.hour
      && Time.DigitsValue(r[y + 6..y + 8]) == t.minute
      && Time.DigitsValue(r[y + 8..y + 10]) == t.second
  {
    var ys := Time.NatToString(t.year);
    var y := |ys|;
    PadTwoDigits(t.month);
    PadTwoDigits(t.day);
    PadTwoDigits(t.hour);
    PadTwoDigits(t.minute);
    PadTwoDigits(t.second);
    Time.DigitsValueOfNatToString(t.year);
    var r := FormatSshDate(t);
    assert r[..y] == ys;
    assert r[y..y + 2] == PadTwo(t.month);
    assert r[y + 2..y + 4] == PadTwo(t.day);
    assert r[y + 4..y + 6] == PadTwo(t.hour);
    assert r[y + 6..y + 8] == PadTwo(t.minute);
    assert r[y + 8..y + 10] == PadTwo(t.second);
  }

  /**
   * initCA's handling of the generated private key: encrypt the bytes the
   * buffer holds, then fill the buffer with zeros (`zeroBuffer(privateKey)`).
   */
  method SealPrivateKeyAndWipe(c: Crypto.Cipher, privateKey: array<byte>, passphrase: string, salt: Crypto.Salt, iv: Crypto.Iv)
    returns (encryptedKey: seq<byte>)
    modifies privateKey
    ensures encryptedKey == Crypto.Encrypted(c, old(privateKey[..]), passphrase, salt, iv)
    ensures forall i :: 0 <= i < privateKey.Length ==> privateKey[i] == 0
  {
    var frame, _ := Crypto.Encrypt(c, privateKey[..], passphrase, salt, iv);
    Crypto.ZeroBuffer(privateKey);
    encryptedKey := frame;
  }

  /**
   * signCertificate's handling of the decrypted CA key: write the bytes the
   * buffer holds to the temporary key file, then fill the buffer with zeros
   * before ssh-keygen runs.
   */
  method WriteTempKeyAndWipe(caPrivateKey: array<byte>) returns (tmpKeyFile: seq<byte>)
    modifies caPrivateKey
    ensures tmpKeyFile == old(caPrivateKey[..])
    ensures forall i :: 0 <= i < caPrivateKey.Length ==> caPrivateKey[i] == 0
  {
    tmpKeyFile := caPrivateKey[..];
    Crypto.ZeroBuffer(caPrivateKey);
  }

  /** The CA custody files: encrypted private key, public key, salt (None: the file does not exist). */
  class Authority {
    const cipher: Cipher
    var caKey: Option<seq<byte>>
    var caPub: Option<string>
    var caSalt: Option<seq<byte>>

    constructor (cipher: Cipher, caKey: Option<seq<byte>>, caPub: Option<string>, caSalt: Option<seq<byte>>)
      ensures this.cipher == cipher && this.caKey == caKey && this.caPub == caPub && this.caSalt == caSalt
    {
      this.cipher := cipher;
      this.caKey := caKey;
      this.caPub := caPub;
      this.caSalt := caSalt;
    }

    /**
     * initCA: refuses when the encrypted key already exists, before generating
     * anything; otherwise stores the freshly generated key encrypted under the
     * passphrase, with its salt and public key. `keygen` is the ssh-keygen
     * result (None when it fails). `keyBuf` is the buffer that held the private
     * key: it is all zeros on return.
     */
    method InitCa(passphrase: string, keyId: string, keygen: Option<KeyPair>, salt: Salt, iv: Iv)
      returns (r: Result<string, CaError>, ghost keyBuf: Option<array<byte>>)
      modifies this
      ensures old(caKey).Some? ==> r == Failure(AlreadyInitialized) && unchanged(this) && keyBuf.None?
      ensures old(caKey).None? && keygen.None? ==> r == Failure(KeygenFailed) && unchanged(this) && keyBuf.None?
      ensures old(caKey).None? && keygen.Some? ==>
                && r == Success(keygen.value.publicKey)
                && caKey == Some(Encrypted(cipher, keygen.value.privateKey, passphrase, salt, iv))
                && caPub == Some(keygen.value.publicKey)
                && caSalt == Some(salt)
                && keyBuf.Some? && fresh(keyBuf.value)
                && keyBuf.value.Length == |keygen.value.privateKey|
                && forall i :: 0 <= i < keyBuf.value.Length ==> keyBuf.value[i] == 0
    {
      if caKey.Some? {
        return Failure(AlreadyInitialized), None;
      }
      if keygen.None? {
        return Failure(KeygenFailed), None;
      }
      var pair := keygen.value;
      var privateKey := new byte[|pair.privateKey|](i requires 0 <= i < |pair.privateKey| => pair.privateKey[i]);
      assert privateKey[..] == pair.privateKey;
      var encryptedKey := SealPrivateKeyAndWipe(cipher, privateKey, passphrase, salt, iv);
      caKey := Some(encryptedKey);
      caPub := Some(pair.publicKey);
      caSalt := Some(salt);
      keyBuf := Some(privateKey);
      r := Success(pair.publicKey);
    }

    /** loadCAPrivateKey: the decrypted key in a fresh buffer, or the error Unlock names. */
    method LoadCaPrivateKey(passphrase: string) returns (r: Result<array<byte>, CaError>)
      ensures Unlock(cipher, caKey, caSalt, passphrase).Failure? ==>
                r == Failure(Unlock(cipher, caKey, caSalt, passphrase).error)
      ensures Unlock(cipher, caKey, caSalt, passphrase).Success? ==>
                r.Success? && fresh(r.value) && r.value[..] == Unlock(cipher, caKey, caSalt, passphrase).value
    {
      if caKey.None? || caSalt.None? {
        return Failure(NotInitialized);
      }
      var decrypted, _ := Decrypt(cipher, caKey.value, passphrase, caSalt.value);
      if decrypted.Failure? {
        return Failure(InvalidPassphrase);
      }
      var key := decrypted.value;
      var buf := new byte[|key|](i requires 0 <= i < |key| => key[i]);
      r := Success(buf);
    }

    /** getCAPublicKey: "CA not initialized" when the public key file is missing. */
    function CaPublicKey(): (r: Result<string, CaError>)
      reads this
      ensures r.Success? <==> caPub.Some?
      ensures r.Success? ==> r.value == caPub.value
      ensures r.Failure? ==> r.error == NotInitialized
    {
      if caPub.None? then Failure(NotInitialized) else Success(caPub.value)
    }

    /**
     * signCertificate: unlock the CA key (its errors pass through), hand a copy
     * to ssh-keygen and zero the buffer (`keyBuf`), then sign with the
     * validity window around `now`; `toolOk` is ssh-keygen's outcome. The
     * certificate path and key path come from the public key path.
     */
    method SignCertificate(req: SignRequest, now: int, toolOk: bool)
      returns (r: Result<SshCertificate, CaError>, ghost keyBuf: Option<array<byte>>)
      ensures Unlock(cipher, caKey, caSalt, req.passphrase).Failure? ==>
                r == Failure(Unlock(cipher, caKey, caSalt, req.passphrase).error) && keyBuf.None?
      ensures Unlock(cipher, caKey, caSalt, req.passphrase).Success? ==>
                && keyBuf.Some? && fresh(keyBuf.value)
                && forall i :: 0 <= i < keyBuf.value.Length ==> keyBuf.value[i] == 0
      ensures Unlock(cipher, caKey, caSalt, req.passphrase).Success? && !toolOk ==> r == Failure(SigningFailed)
      ensures Unlock(cipher, caKey, caSalt, req.passphrase).Success? && toolOk ==>
                r == Success(SshCertificate(
                  ReplacePubSuffix(req.publicKeyPath, "-cert.pub"), ReplacePubSuffix(req.publicKeyPath, ""),
                  req.publicKeyPath, req.serial, req.principals,
                  ValidityWindow(now, req.ttlSeconds).0, ValidityWindow(now, req.ttlSeconds).1, req.forceCommand))
    {
      var loaded := LoadCaPrivateKey(req.passphrase);
      if loaded.Failure? {
        return Failure(loaded.error), None;
      }
      var caPrivateKey := loaded.value;
      var tmpKeyFile := WriteTempKeyAndWipe(caPrivateKey);
      keyBuf := Some(caPrivateKey);
      var window := ValidityWindow(now, req.ttlSeconds);
      if !toolOk {
        return Failure(SigningFailed), keyBuf;
      }
      r := Success(SshCertificate(
        ReplacePubSuffix(req.publicKeyPath, "-cert.pub"), ReplacePubSuffix(req.publicKeyPath, ""),
        req.publicKeyPath, req.serial, req.principals, window.0, window.1, req.forceCommand));
    }
  }
}
