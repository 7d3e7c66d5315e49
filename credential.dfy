/**
 * The credential lifecycle (src/core/credential.ts): granting SSH certificates,
 * issuing ephemeral passwords, revoking, and the expiry sweep that runs before
 * every grant. The clock, the 8-character random ids, the random bytes behind a
 * password and the outcome of every ssh-keygen run are inputs; the files under
 * ~/.vaultmark/grants are the set `files` of paths that exist.
 */
module Credentials {
  import opened Wrappers
  import opened Bytes
  import opened CredentialTypes
  import opened Database
  import opened Seqs
  import Time
  import Config
  import Krl
  import Ca
  import PasswordGenerator

  /** GrantOptions; an absent option is None (`output` only concerns the command line). */
  datatype GrantOptions = GrantOptions(
    host: string, user: string, ttl: string, forceCommand: Option<string>, identity: Option<string>)

  /** PasswordOptions (`copy` only concerns the command line). */
  datatype PasswordOptions = PasswordOptions(labelText: string, ttl: string, length: nat, charset: string)

  datatype Granted = Granted(credential: Credential, sshCommand: string)

  datatype Issued = Issued(credential: Credential, password: string)

  /** Every way a lifecycle operation throws. */
  datatype LifecycleError =
    | TtlInvalid(cause: Time.TtlError)
    | TtlExceedsMax(ttl: string, maxTtl: string)
    | CaFailure(caError: Ca.CaError)
    | DbFailure(dbError: DbError)
    | NotFound(id: string)
    | AlreadyRevoked(id: string)
    | KrlFailure(krlError: Krl.KrlError)

  /**
   * The TTL checks both issuing operations start with: the requested TTL and
   * the configured maximum must parse, and the first may not exceed the second.
   */
  function CheckTtl(ttl: string, maxTtl: string): (r: Result<nat, LifecycleError>)
    ensures r.Success? <==> Time.IsTtl(ttl) && Time.IsTtl(maxTtl)
                            && Time.ParseTtl(ttl).value <= Time.ParseTtl(maxTtl).value
    ensures r.Success? ==> r.value == Time.ParseTtl(ttl).value
    ensures !Time.IsTtl(ttl) ==> r == Failure(TtlInvalid(Time.InvalidTtlFormat(ttl)))
    ensures Time.IsTtl(ttl) && !Time.IsTtl(maxTtl) ==> r == Failure(TtlInvalid(Time.InvalidTtlFormat(maxTtl)))
    ensures Time.IsTtl(ttl) && Time.IsTtl(maxTtl) && Time.ParseTtl(ttl).value > Time.ParseTtl(maxTtl).value ==>
              r == Failure(TtlExceedsMax(ttl, maxTtl))
  {
    match Time.ParseTtl(ttl)
    case Failure(e) => Failure(TtlInvalid(e))
    case Success(seconds) =>
      match Time.ParseTtl(maxTtl)
      case Failure(e) => Failure(TtlInvalid(e))
      case Success(maxSeconds) =>
        if seconds > maxSeconds then Failure(TtlExceedsMax(ttl, maxTtl)) else Success(seconds)
  }

  /* ---------- the rows the lifecycle keeps ---------- */

  /**
   * The shape every row has: revoked_at is set exactly on revoked rows, the
   * expiry is the creation instant plus the TTL, certificates carry a positive
   * serial and their paths, passwords serial 0 and a hash.
   */
  predicate RowShape(c: Credential)
  {
    && (c.revokedAt.Some? <==> c.status == Revoked)
    && c.expiresAt == c.createdAt + c.ttlSeconds * 1000
    && (c.kind == SshCert ==> c.serial >= 1 && c.certPath.Some? && c.keyPath.Some? && c.passwordHash.None?)
    && (c.kind == Password ==> c.serial == 0 && c.certPath.None? && c.keyPath.None? && c.passwordHash.Some?)
  }

  /** Every row is well shaped, and each certificate's serial exceeds every earlier row's. */
  ghost predicate WellFormed(rows: seq<Credential>)
  {
    && (forall i :: 0 <= i < |rows| ==> RowShape(rows[i]))
    && (forall i, j :: 0 <= i < j < |rows| && rows[j].kind == SshCert ==> rows[i].serial < rows[j].serial)
  }

  /** Two certificates in the table never share a serial, so a KRL entry names one of them. */
  lemma CertSerialsDistinct(rows: seq<Credential>, i: nat, j: nat)
    requires WellFormed(rows) && i < |rows| && j < |rows| && i != j
    requires rows[i].kind == SshCert && rows[j].kind == SshCert
    ensures rows[i].serial != rows[j].serial
  {
    if i > j {
      assert rows[j].serial < rows[i].serial;
    }
  }

  /** A row getExpiredCredentials reports, as cleanupExpired leaves it: expired, revoked_at cleared. */
  function Expire(c: Credential): (e: Credential)
    ensures e.status == Expired && e.revokedAt.None?
    ensures e.(status := c.status, revokedAt := c.revokedAt) == c
  {
    c.(status := Expired, revokedAt := None)
  }

  /** The table after cleanupExpired at `now`: the due rows expired, every other row as it was. */
  function Sweep(rows: seq<Credential>, now: int): (r: seq<Credential>)
    ensures |r| == |rows|
    ensures forall i :: 0 <= i < |rows| ==> r[i] == if Due(now, rows[i]) then Expire(rows[i]) else rows[i]
  {
    seq(|rows|, i requires 0 <= i < |rows| => if Due(now, rows[i]) then Expire(rows[i]) else rows[i])
  }

  /** The sweep only moves rows from active to expired, and keeps ids and serials. */
  lemma SweepTransitions(rows: seq<Credential>, now: int, i: nat)
    requires i < |rows|
    ensures Sweep(rows, now)[i].id == rows[i].id && Sweep(rows, now)[i].serial == rows[i].serial
    ensures Sweep(rows, now)[i] == rows[i] || (rows[i].status == Active && Sweep(rows, now)[i].status == Expired)
    ensures rows[i].status != Active ==> Sweep(rows, now)[i] == rows[i]
  {
  }

  /** A second sweep at the same instant finds nothing: the sweep is idempotent. */
  lemma SweepIdempotent(rows: seq<Credential>, now: int)
    ensures Filter(Sweep(rows, now), DueAt(now)) == []
    ensures Sweep(Sweep(rows, now), now) == Sweep(rows, now)
  {
    var swept := Sweep(rows, now);
    FilterMembers(swept, DueAt(now));
    assert forall c :: c in swept ==> !Due(now, c);
  }

  /** The sweep does not change the next serial handed out. */
  lemma SweepKeepsMaxSerial(rows: seq<Credential>, now: int)
    ensures MaxSerial(Sweep(rows, now)) == MaxSerial(rows)
  {
    var swept := Sweep(rows, now);
    var m, n := MaxSerial(rows), MaxSerial(swept);
    if m != 0 {
      var i :| 0 <= i < |rows| && rows[i].serial == m;
      assert swept[i].serial == m;
    }
    if n != 0 {
      var i :| 0 <= i < |swept| && swept[i].serial == n;
      assert rows[i].serial == n;
    }
  }

  lemma SweepWellFormed(rows: seq<Credential>, now: int)
    requires WellFormed(rows)
    ensures WellFormed(Sweep(rows, now))
  {
    var swept := Sweep(rows, now);
    forall i | 0 <= i < |swept|
      ensures RowShape(swept[i])
    {
      assert RowShape(rows[i]);
    }
    forall i, j | 0 <= i < j < |swept| && swept[j].kind == SshCert
      ensures swept[i].serial < swept[j].serial
    {
      assert rows[j].kind == SshCert;
    }
  }

  /** Appending a certificate numbered one past the largest serial keeps the table well formed. */
  lemma AppendWellFormed(rows: seq<Credential>, c: Credential)
    requires WellFormed(rows) && RowShape(c)
    requires c.kind == SshCert ==> c.serial == MaxSerial(rows) + 1
    ensures WellFormed(rows + [c])
  {
    var next := rows + [c];
    forall i, j | 0 <= i < j < |next| && next[j].kind == SshCert
      ensures next[i].serial < next[j].serial
    {
      if j == |rows| {
        assert next[i] == rows[i];
      } else {
        assert next[i] == rows[i] && next[j] == rows[j];
      }
    }
  }

  lemma RevokeWellFormed(rows: seq<Credential>, id: string, now: int)
    requires WellFormed(rows)
    ensures WellFormed(SetStatus(rows, id, Revoked, Some(now)))
  {
    var next := SetStatus(rows, id, Revoked, Some(now));
    forall i | 0 <= i < |next|
      ensures RowShape(next[i])
    {
      assert RowShape(rows[i]);
    }
    forall i, j | 0 <= i < j < |next| && next[j].kind == SshCert
      ensures next[i].serial < next[j].serial
    {
      assert rows[j].kind == SshCert;
    }
  }

  /* ---------- the grant files ---------- */

  /** What `rmSync(dir, { recursive: true, force: true })` leaves of the existing paths. */
  function RemoveTree(files: set<string>, dir: string): (r: set<string>)
    ensures forall p :: p in r <==> p in files && !Config.IsUnder(p, dir)
  {
    set p | p in files && !Config.IsUnder(p, dir)
  }

  /** The paths left after removing the grant directory of each row in turn. */
  function RemoveGrantDirs(files: set<string>, home: string, rows: seq<Credential>): (r: set<string>)
    ensures r <= files
    ensures forall c :: c in rows ==> Config.GrantDir(home, c.id) !in r
  {
    if rows == [] then files
    else RemoveTree(RemoveGrantDirs(files, home, rows[..|rows| - 1]), Config.GrantDir(home, rows[|rows| - 1].id))
  }

  /** What is left is exactly the paths outside every listed row's grant directory. */
  lemma {:induction false} RemoveGrantDirsLeaves(files: set<string>, home: string, rows: seq<Credential>)
    ensures forall p :: p in RemoveGrantDirs(files, home, rows) <==>
      p in files && forall c :: c in rows ==> !Config.IsUnder(p, Config.GrantDir(home, c.id))
  {
    if rows != [] {
      var init := rows[..|rows| - 1];
      RemoveGrantDirsLeaves(files, home, init);
      assert rows == init + [rows[|rows| - 1]];
    }
  }

  /** Removing one grant's directory leaves every other grant's files in place. */
  lemma RemoveTreeKeepsOtherGrants(files: set<string>, home: string, id: string, other: string)
    requires Config.IsSegment(id) && Config.IsSegment(other) && id != other
    ensures Config.GrantKey(home, other) in files ==>
              Config.GrantKey(home, other) in RemoveTree(files, Config.GrantDir(home, id))
    ensures Config.GrantCert(home, other) in files ==>
              Config.GrantCert(home, other) in RemoveTree(files, Config.GrantDir(home, id))
  {
    Config.GrantDirsDisjoint(home, id, other, "id_ed25519");
    Config.GrantDirsDisjoint(home, id, other, "id_ed25519-cert.pub");
  }

  /* ---------- audit entries ---------- */

  const CLEANUP_DETAILS: string := "Credential expired and cleaned up"
  const REVOKE_DETAILS: string := "Credential revoked"

  /** The entry logged for one swept row. */
  function CleanupEntry(id: string, entryId: nat, now: int): AuditEntry
  {
    AuditEntry(entryId, "cleanup", Some(id), CLEANUP_DETAILS, now)
  }

  /** One "cleanup" entry per swept row, with consecutive ids from `firstId`. */
  function CleanupEntries(rows: seq<Credential>, firstId: nat, now: int): (r: seq<AuditEntry>)
    ensures |r| == |rows|
  {
    seq(|rows|, k requires 0 <= k < |rows| =>
      CleanupEntry(rows[k].id, firstId + k, now))
  }

  /**
   * What grantSSHAccess and createEphemeralPassword append to the audit log:
   * one "cleanup" entry per swept row, then the entry for the new credential,
   * all with consecutive ids from `firstId`.
   */
  function SweepThenIssue(expired: seq<Credential>, firstId: nat, now: int, action: string, id: string, details: string)
    : (r: seq<AuditEntry>)
    ensures |r| == |expired| + 1
    ensures r[|expired|].action == action && r[|expired|].credentialId == Some(id)
  {
    CleanupEntries(expired, firstId, now) + [AuditEntry(firstId + |expired|, action, Some(id), details, now)]
  }

  /** The issuing entry is numbered right after the sweep's entries. */
  lemma SweepThenIssueSplit(log: seq<AuditEntry>, expired: seq<Credential>, firstId: nat, entryId: nat, now: int,
                            action: string, id: string, details: string)
    requires entryId == firstId + |expired|
    ensures log + SweepThenIssue(expired, firstId, now, action, id, details)
            == log + CleanupEntries(expired, firstId, now) + [AuditEntry(entryId, action, Some(id), details, now)]
  {
  }

  function GrantDetails(opts: GrantOptions): string
  {
    "SSH cert for " + opts.user + "@" + opts.host + " (TTL: " + opts.ttl + ")"
  }

  function PasswordDetails(opts: PasswordOptions): string
  {
    "Password \"" + opts.labelText + "\" (TTL: " + opts.ttl + ")"
  }

  /** The command a user runs to log in with the granted certificate. */
  function SshCommand(keyPath: string, certPath: string, user: string, host: string): string
  {
    "ssh -i \"" + keyPath + "\" -o CertificateFile=\"" + certPath + "\" " + user + "@" + host
  }

  /** `options.identity || 'vaultmark-' + id`: an absent or empty identity falls back to the id. */
  function Identity(opts: GrantOptions, id: string): (name: string)
    ensures opts.identity.Some? && opts.identity.value != "" ==> name == opts.identity.value
    ensures opts.identity.None? || opts.identity.value == "" ==> name == "vaultmark-" + id
  {
    if opts.identity.Some? && opts.identity.value != "" then opts.identity.value else "vaultmark-" + id
  }

  /** `options.forceCommand || null`. */
  function StoredForceCommand(given: Option<string>): (r: Option<string>)
    ensures r.Some? <==> given.Some? && given.value != ""
    ensures r.Some? ==> r == given
  {
    if given.Some? && given.value != "" then given else None
  }

  /** The row grantSSHAccess stores for a certificate. */
  function CertRow(home: string, id: string, opts: GrantOptions, serial: nat, ttl: nat, now: int): (c: Credential)
    requires serial >= 1
    ensures RowShape(c) && c.kind == SshCert && c.status == Active && c.id == id
  {
    Credential(id, SshCert, opts.host, opts.user, Identity(opts, id), serial, Active, now, now + ttl * 1000,
      None, ttl, StoredForceCommand(opts.forceCommand), Some(Config.GrantCert(home, id)),
      Some(Config.GrantKey(home, id)), None)
  }

  /** The row createEphemeralPassword stores: no host, user, paths or force-command, serial 0. */
  function PasswordRow(id: string, opts: PasswordOptions, hash: string, ttl: nat, now: int): (c: Credential)
    ensures RowShape(c) && c.kind == Password && c.status == Active && c.id == id
  {
    Credential(id, Password, "", "", opts.labelText, 0, Active, now, now + ttl * 1000,
      None, ttl, None, None, None, Some(hash))
  }

  /** Whether revokeCredential updates the KRL: an SSH certificate whose certificate file exists. */
  predicate KrlApplies(c: Credential, files: set<string>)
  {
    c.kind == SshCert && c.certPath.Some? && c.certPath.value != "" && c.certPath.value in files
  }

  class Vault {
    const home: string
    const store: Store
    const krl: Krl.RevocationList
    const ca: Ca.Authority
    const sha256: string -> PasswordGenerator.Digest
    /** The paths that exist under the grants directory. */
    var files: set<string>

    ghost predicate Valid()
      reads this, store
    {
      store.Valid() && WellFormed(store.creds)
    }

    constructor (home: string, store: Store, krl: Krl.RevocationList, ca: Ca.Authority,
                 sha256: string -> PasswordGenerator.Digest, files: set<string>)
      requires store.Valid() && WellFormed(store.creds)
      ensures Valid()
      ensures this.home == home && this.store == store && this.krl == krl && this.ca == ca
      ensures this.sha256 == sha256 && this.files == files
    {
      this.home := home;
      this.store := store;
      this.krl := krl;
      this.ca := ca;
      this.sha256 := sha256;
      this.files := files;
    }

    /** The loop body of cleanupExpired for one row. */
    method SweepOne(id: string, now: int)
      requires store.Valid()
      modifies this, store
      ensures store.Valid()
      ensures files == RemoveTree(old(files), Config.GrantDir(home, id))
      ensures store.creds == SetStatus(old(store.creds), id, Expired, None)
      ensures store.audit == old(store.audit) + [CleanupEntry(id, old(store.nextAuditId), now)]
      ensures store.nextAuditId == old(store.nextAuditId) + 1
    {
      files := RemoveTree(files, Config.GrantDir(home, id));
      store.UpdateCredentialStatus(id, Expired, None);
      store.InsertAudit("cleanup", Some(id), CLEANUP_DETAILS, now);
    }

    /**
     * cleanupExpired: for each active row due at `now`, in table order, remove
     * its grant directory, mark it expired and log a "cleanup" entry; returns
     * how many rows it swept.
     */
    method CleanupExpired(now: int) returns (count: nat)
      requires Valid()
      modifies this, store
      ensures Valid()
      ensures count == |Filter(old(store.creds), DueAt(now))|
      ensures store.creds == Sweep(old(store.creds), now)
      ensures store.audit == old(store.audit) + CleanupEntries(Filter(old(store.creds), DueAt(now)), old(store.nextAuditId), now)
      ensures store.nextAuditId == old(store.nextAuditId) + count
      ensures files == RemoveGrantDirs(old(files), home, Filter(old(store.creds), DueAt(now)))
    {
      var expired := store.ExpiredAsOf(now);
      ghost var rows, log, nextId, paths := store.creds, store.audit, store.nextAuditId, files;
      count := 0;
      assert IdSet(expired[..0]) == {};
      assert MarkExpired(rows, {}) == rows;
      for i := 0 to |expired|
        invariant store.Valid()
        invariant count == i
        invariant store.creds == MarkExpired(rows, IdSet(expired[..i]))
        invariant store.audit == log + CleanupEntries(expired[..i], nextId, now)
        invariant store.nextAuditId == nextId + i
        invariant files == RemoveGrantDirs(paths, home, expired[..i])
      {
        var cred := expired[i];
        ghost var creds0, audit0, files0, entryId := store.creds, store.audit, files, store.nextAuditId;
        SweepOne(cred.id, now);
        CredsStep(rows, expired, i, creds0, store.creds);
        AuditStep(log, expired, i, nextId, entryId, now, audit0, store.audit);
        FilesStep(paths, home, expired, i, files0, files);
        count := count + 1;
      }
      assert expired[..|expired|] == expired;
      MarkDueIsSweep(rows, now);
      SweepWellFormed(rows, now);
    }

    /**
     * generateEphemeralKeyPair and signCertificate for one grant: the grant's
     * directory, then its key pair, then its certificate appear among the
     * files; the result is the row to store.
     */
    method SignGrant(passphrase: string, opts: GrantOptions, id: string, serial: nat, ttlSeconds: nat,
                     keygenOk: bool, signOk: bool, now: int) returns (r: Result<Credential, LifecycleError>)
      requires serial >= 1
      modifies this
      ensures r.Success? <==> keygenOk && Ca.Unlock(ca.cipher, ca.caKey, ca.caSalt, passphrase).Success? && signOk
      ensures !keygenOk ==> r == Failure(CaFailure(Ca.KeygenFailed))
      ensures keygenOk && Ca.Unlock(ca.cipher, ca.caKey, ca.caSalt, passphrase).Failure? ==>
                r == Failure(CaFailure(Ca.Unlock(ca.cipher, ca.caKey, ca.caSalt, passphrase).error))
      ensures keygenOk && Ca.Unlock(ca.cipher, ca.caKey, ca.caSalt, passphrase).Success? && !signOk ==>
                r == Failure(CaFailure(Ca.SigningFailed))
      ensures old(files) <= files
      ensures files <= old(files) + {Config.GrantDir(home, id), Config.GrantKey(home, id), Config.GrantPub(home, id), Config.GrantCert(home, id)}
      ensures r.Success? ==>
                && r.value == CertRow(home, id, opts, serial, ttlSeconds, now)
                && files == old(files) + {Config.GrantDir(home, id), Config.GrantKey(home, id), Config.GrantPub(home, id), Config.GrantCert(home, id)}
    {
      var grantDir := Config.GrantDir(home, id);
      var identity := Identity(opts, id);
      files := files + {grantDir};
      if !keygenOk {
        return Failure(CaFailure(Ca.KeygenFailed));
      }
      var (keyPath, pubKeyPath) := Ca.KeyPairPaths(grantDir);
      Ca.SignedPathsOfGrant(home, id);
      files := files + {keyPath, pubKeyPath};
      var signed;
      ghost var keyBuf;
      signed, keyBuf := ca.SignCertificate(
        Ca.SignRequest(passphrase, pubKeyPath, serial, [opts.user], ttlSeconds, identity, opts.forceCommand), now, signOk);
      if signed.Failure? {
        return Failure(CaFailure(signed.error));
      }
      var certPath := signed.value.certPath;
      files := files + {certPath};
      var credential := Credential(id, SshCert, opts.host, opts.user, identity, serial, Active, now,
        now + ttlSeconds * 1000, None, ttlSeconds, StoredForceCommand(opts.forceCommand), Some(certPath),
        Some(keyPath), None);
      r := Success(credential);
    }

    /**
     * The part of grantSSHAccess after the sweep: create a key pair in the
     * grant's directory, have the CA sign it with the next serial, store the
     * row and log a "grant" entry.
     */
    method IssueCertificate(passphrase: string, opts: GrantOptions, id: string, serial: nat, ttlSeconds: nat,
                            keygenOk: bool, signOk: bool, now: int) returns (r: Result<Granted, LifecycleError>)
      requires Valid()
      requires serial == store.NextSerial()
      modifies this, store
      ensures Valid()
      ensures r.Success? <==>
                keygenOk && Ca.Unlock(ca.cipher, ca.caKey, ca.caSalt, passphrase).Success? && signOk && !HasId(old(store.creds), id)
      ensures !keygenOk ==> r == Failure(CaFailure(Ca.KeygenFailed))
      ensures keygenOk && Ca.Unlock(ca.cipher, ca.caKey, ca.caSalt, passphrase).Failure? ==>
                r == Failure(CaFailure(Ca.Unlock(ca.cipher, ca.caKey, ca.caSalt, passphrase).error))
      ensures keygenOk && Ca.Unlock(ca.cipher, ca.caKey, ca.caSalt, passphrase).Success? && !signOk ==>
                r == Failure(CaFailure(Ca.SigningFailed))
      ensures keygenOk && Ca.Unlock(ca.cipher, ca.caKey, ca.caSalt, passphrase).Success? && signOk && HasId(old(store.creds), id) ==>
                r == Failure(DbFailure(DuplicateId(id)))
      ensures r.Failure? ==> store.creds == old(store.creds) && store.audit == old(store.audit)
      ensures old(files) <= files
      ensures files <= old(files) + {Config.GrantDir(home, id), Config.GrantKey(home, id), Config.GrantPub(home, id), Config.GrantCert(home, id)}
      ensures r.Success? ==>
                && r.value.credential == CertRow(home, id, opts, serial, ttlSeconds, now)
                && store.creds == old(store.creds) + [r.value.credential]
                && store.GetCredential(id) == Some(r.value.credential)
                && r.value.sshCommand == SshCommand(Config.GrantKey(home, id), Config.GrantCert(home, id), opts.user, opts.host)
                && store.audit == old(store.audit) + [AuditEntry(old(store.nextAuditId), "grant", Some(id), GrantDetails(opts), now)]
                && files == old(files) + {Config.GrantDir(home, id), Config.GrantKey(home, id), Config.GrantPub(home, id), Config.GrantCert(home, id)}
    {
      var signed := SignGrant(passphrase, opts, id, serial, ttlSeconds, keygenOk, signOk, now);
      if signed.Failure? {
        return Failure(signed.error);
      }
      var credential := signed.value;
      ghost var rows := store.creds;
      var inserted := store.InsertCredential(credential);
      if inserted.Fail? {
        return Failure(DbFailure(inserted.error));
      }
      AppendWellFormed(rows, credential);
      store.InsertAudit("grant", Some(id), GrantDetails(opts), now);
      r := Success(Granted(credential, SshCommand(Config.GrantKey(home, id), Config.GrantCert(home, id), opts.user, opts.host)));
    }

    /**
     * grantSSHAccess: check the TTL against the configured maximum, sweep
     * expired rows, then issue the certificate. `keygenOk` and `signOk` are the
     * outcomes of the two ssh-keygen runs.
     */
    method Grant(passphrase: string, opts: GrantOptions, config: Config.Settings, id: string,
                 keygenOk: bool, signOk: bool, now: int) returns (r: Result<Granted, LifecycleError>)
      requires Valid()
      modifies this, store
      ensures Valid()
      ensures CheckTtl(opts.ttl, config.maxTtl).Failure? ==>
                r == Failure(CheckTtl(opts.ttl, config.maxTtl).error) && unchanged(this, store)
      ensures r.Success? <==>
                && CheckTtl(opts.ttl, config.maxTtl).Success? && keygenOk
                && Ca.Unlock(ca.cipher, ca.caKey, ca.caSalt, passphrase).Success? && signOk
                && !HasId(Sweep(old(store.creds), now), id)
      ensures CheckTtl(opts.ttl, config.maxTtl).Success? && !keygenOk ==> r == Failure(CaFailure(Ca.KeygenFailed))
      ensures CheckTtl(opts.ttl, config.maxTtl).Success? && keygenOk && Ca.Unlock(ca.cipher, ca.caKey, ca.caSalt, passphrase).Failure? ==>
                r == Failure(CaFailure(Ca.Unlock(ca.cipher, ca.caKey, ca.caSalt, passphrase).error))
      ensures CheckTtl(opts.ttl, config.maxTtl).Success? && keygenOk && Ca.Unlock(ca.cipher, ca.caKey, ca.caSalt, passphrase).Success? && !signOk ==>
                r == Failure(CaFailure(Ca.SigningFailed))
      ensures && CheckTtl(opts.ttl, config.maxTtl).Success? && keygenOk && Ca.Unlock(ca.cipher, ca.caKey, ca.caSalt, passphrase).Success?
              && signOk && HasId(Sweep(old(store.creds), now), id) ==>
                r == Failure(DbFailure(DuplicateId(id)))
      ensures CheckTtl(opts.ttl, config.maxTtl).Success? && r.Failure? ==>
                && store.creds == Sweep(old(store.creds), now)
                && store.audit == old(store.audit) + CleanupEntries(Filter(old(store.creds), DueAt(now)), old(store.nextAuditId), now)
      ensures CheckTtl(opts.ttl, config.maxTtl).Success? ==>
                && RemoveGrantDirs(old(files), home, Filter(old(store.creds), DueAt(now))) <= files
                && files <= RemoveGrantDirs(old(files), home, Filter(old(store.creds), DueAt(now)))
                            + {Config.GrantDir(home, id), Config.GrantKey(home, id), Config.GrantPub(home, id), Config.GrantCert(home, id)}
      ensures r.Success? ==>
                && r.value.credential == CertRow(home, id, opts, old(store.NextSerial()), CheckTtl(opts.ttl, config.maxTtl).value, now)
                && store.creds == Sweep(old(store.creds), now) + [r.value.credential]
                && store.GetCredential(id) == Some(r.value.credential)
                && store.audit == old(store.audit) + SweepThenIssue(Filter(old(store.creds), DueAt(now)), old(store.nextAuditId), now,
                                                                    "grant", id, GrantDetails(opts))
                && files == RemoveGrantDirs(old(files), home, Filter(old(store.creds), DueAt(now)))
                            + {Config.GrantDir(home, id), Config.GrantKey(home, id), Config.GrantPub(home, id), Config.GrantCert(home, id)}
    {
      var checked := CheckTtl(opts.ttl, config.maxTtl);
      if checked.Failure? {
        return Failure(checked.error);
      }
      ghost var rows, entryId, expired := store.creds, store.nextAuditId, store.ExpiredAsOf(now);
      var swept := CleanupExpired(now);
      SweepKeepsMaxSerial(rows, now);
      ghost var grantId := store.nextAuditId;
      assert expired == Filter(rows, DueAt(now));
      assert grantId == entryId + |Filter(rows, DueAt(now))|;
      var serial := store.NextSerial();
      assert serial == MaxSerial(rows) + 1;
      ghost var log := store.audit;
      assert log == old(store.audit) + CleanupEntries(Filter(rows, DueAt(now)), entryId, now);
      r := IssueCertificate(passphrase, opts, id, serial, checked.value, keygenOk, signOk, now);
      SweepThenIssueSplit(old(store.audit), Filter(rows, DueAt(now)), entryId, grantId, now, "grant", id, GrantDetails(opts));
    }

    /**
     * The part of createEphemeralPassword after the sweep: draw the password
     * from `bytes`, store a row holding only its SHA-256 digest and log a
     * "password" entry; the password itself is returned once.
     */
    method IssuePassword(opts: PasswordOptions, id: string, ttlSeconds: nat, bytes: seq<byte>, now: int)
      returns (r: Result<Issued, LifecycleError>)
      requires Valid() && |bytes| == opts.length
      modifies store
      ensures Valid()
      ensures r.Success? <==> !HasId(old(store.creds), id)
      ensures r.Failure? ==> r == Failure(DbFailure(DuplicateId(id))) && store.creds == old(store.creds) && store.audit == old(store.audit)
      ensures r.Success? ==>
                && |r.value.password| == opts.length
                && (forall i :: 0 <= i < opts.length ==>
                      r.value.password[i] == PasswordGenerator.Alphabet(opts.charset)[bytes[i] % |PasswordGenerator.Alphabet(opts.charset)|])
                && r.value.credential == PasswordRow(id, opts, sha256(r.value.password), ttlSeconds, now)
                && store.creds == old(store.creds) + [r.value.credential]
                && store.GetCredential(id) == Some(r.value.credential)
                && store.audit == old(store.audit) + [AuditEntry(old(store.nextAuditId), "password", Some(id), PasswordDetails(opts), now)]
    {
      var password := PasswordGenerator.GeneratePassword(opts.length, opts.charset, bytes);
      var credential := Credential(id, Password, "", "", opts.labelText, 0, Active, now,
        now + ttlSeconds * 1000, None, ttlSeconds, None, None, None,
        Some(PasswordGenerator.HashPassword(sha256, password)));
      ghost var rows := store.creds;
      var inserted := store.InsertCredential(credential);
      if inserted.Fail? {
        return Failure(DbFailure(inserted.error));
      }
      AppendWellFormed(rows, credential);
      store.InsertAudit("password", Some(id), PasswordDetails(opts), now);
      r := Success(Issued(credential, password));
    }

    /** createEphemeralPassword: check the TTL against the configured maximum, sweep expired rows, then issue the password. */
    method CreatePassword(opts: PasswordOptions, config: Config.Settings, id: string, bytes: seq<byte>, now: int)
      returns (r: Result<Issued, LifecycleError>)
      requires Valid() && |bytes| == opts.length
      modifies this, store
      ensures Valid()
      ensures CheckTtl(opts.ttl, config.maxTtl).Failure? ==>
                r == Failure(CheckTtl(opts.ttl, config.maxTtl).error) && unchanged(this, store)
      ensures r.Success? <==> CheckTtl(opts.ttl, config.maxTtl).Success? && !HasId(Sweep(old(store.creds), now), id)
      ensures CheckTtl(opts.ttl, config.maxTtl).Success? ==>
                files == RemoveGrantDirs(old(files), home, Filter(old(store.creds), DueAt(now)))
      ensures CheckTtl(opts.ttl, config.maxTtl).Success? && r.Failure? ==>
                && r == Failure(DbFailure(DuplicateId(id)))
                && store.creds == Sweep(old(store.creds), now)
                && store.audit == old(store.audit) + CleanupEntries(Filter(old(store.creds), DueAt(now)), old(store.nextAuditId), now)
      ensures r.Success? ==>
                && |r.value.password| == opts.length
                && (forall i :: 0 <= i < opts.length ==>
                      r.value.password[i] == PasswordGenerator.Alphabet(opts.charset)[bytes[i] % |PasswordGenerator.Alphabet(opts.charset)|])
                && r.value.credential == PasswordRow(id, opts, sha256(r.value.password), CheckTtl(opts.ttl, config.maxTtl).value, now)
                && store.creds == Sweep(old(store.creds), now) + [r.value.credential]
                && store.GetCredential(id) == Some(r.value.credential)
                && store.audit == old(store.audit) + SweepThenIssue(Filter(old(store.creds), DueAt(now)), old(store.nextAuditId), now,
                                                                    "password", id, PasswordDetails(opts))
    {
      var checked := CheckTtl(opts.ttl, config.maxTtl);
      if checked.Failure? {
        return Failure(checked.error);
      }
      ghost var rows, entryId, expired := store.creds, store.nextAuditId, store.ExpiredAsOf(now);
      var _ := CleanupExpired(now);
      ghost var passwordId, log := store.nextAuditId, store.audit;
      assert expired == Filter(rows, DueAt(now));
      assert passwordId == entryId + |Filter(rows, DueAt(now))|;
      assert log == old(store.audit) + CleanupEntries(Filter(rows, DueAt(now)), entryId, now);
      r := IssuePassword(opts, id, checked.value, bytes, now);
      SweepThenIssueSplit(old(store.audit), Filter(rows, DueAt(now)), entryId, passwordId, now, "password", id, PasswordDetails(opts));
    }

    /**
     * revokeCredential: refuses an unknown id and an already revoked row (an
     * expired one may still be revoked); for a certificate whose file exists it
     * first adds the certificate's serial to the KRL, and a KRL failure aborts
     * with nothing changed; then it removes the grant directory, marks the row
     * revoked at `now` and logs a "revoke" entry.
     */
    method Revoke(id: string, now: int, krlFirstOk: bool, krlRetryOk: bool) returns (r: Result<Credential, LifecycleError>)
      requires Valid()
      modifies this, store, krl
      ensures Valid()
      ensures old(store.GetCredential(id)).None? ==> r == Failure(NotFound(id))
      ensures old(store.GetCredential(id)).Some? && old(store.GetCredential(id)).value.status == Revoked ==>
                r == Failure(AlreadyRevoked(id))
      ensures r.Success? <==>
                && old(store.GetCredential(id)).Some? && old(store.GetCredential(id)).value.status != Revoked
                && (!KrlApplies(old(store.GetCredential(id)).value, old(files)) || krlFirstOk || krlRetryOk)
      ensures r.Failure? ==>
                store.creds == old(store.creds) && store.audit == old(store.audit) && files == old(files) && krl.file == old(krl.file)
      ensures r.Success? ==>
                && r.value == old(store.GetCredential(id)).value.(status := Revoked, revokedAt := Some(now))
                && store.creds == SetStatus(old(store.creds), id, Revoked, Some(now))
                && store.GetCredential(id) == Some(r.value)
                && store.audit == old(store.audit) + [AuditEntry(old(store.nextAuditId), "revoke", Some(id), REVOKE_DETAILS, now)]
                && files == RemoveTree(old(files), Config.GrantDir(home, id))
      ensures r.Success? && KrlApplies(old(store.GetCredential(id)).value, old(files)) ==> Krl.IsRevoked(krl.file, r.value.serial)
      ensures r.Success? && !KrlApplies(old(store.GetCredential(id)).value, old(files)) ==> krl.file == old(krl.file)
    {
      var found := store.GetCredential(id);
      if found.None? {
        return Failure(NotFound(id));
      }
      var cred := found.value;
      if cred.status == Revoked {
        return Failure(AlreadyRevoked(id));
      }
      if KrlApplies(cred, files) {
        var outcome := krl.RevokeInKrl(Some(cred.serial), krlFirstOk, krlRetryOk);
        if outcome.Fail? {
          return Failure(KrlFailure(outcome.error));
        }
      }
      ghost var rows := store.creds;
      files := RemoveTree(files, Config.GrantDir(home, id));
      store.UpdateCredentialStatus(id, Revoked, Some(now));
      RevokedRowFound(rows, id, now);
      RevokeWellFormed(rows, id, now);
      store.InsertAudit("revoke", Some(id), REVOKE_DETAILS, now);
      r := Success(cred.(status := Revoked, revokedAt := Some(now)));
    }
  }

  /** The audit log of cleanupExpired after one more row. */
  lemma AuditStep(log: seq<AuditEntry>, expired: seq<Credential>, i: nat, nextId: nat, entryId: nat, now: int,
                  before: seq<AuditEntry>, after: seq<AuditEntry>)
    requires i < |expired| && entryId == nextId + i
    requires before == log + CleanupEntries(expired[..i], nextId, now)
    requires after == before + [CleanupEntry(expired[i].id, entryId, now)]
    ensures after == log + CleanupEntries(expired[..i + 1], nextId, now)
  {
    assert expired[..i + 1][..i] == expired[..i];
    assert CleanupEntries(expired[..i + 1], nextId, now)
        == CleanupEntries(expired[..i], nextId, now) + [CleanupEntry(expired[i].id, nextId + i, now)];
  }

  /** The table of cleanupExpired after one more row. */
  lemma CredsStep(rows: seq<Credential>, expired: seq<Credential>, i: nat, before: seq<Credential>, after: seq<Credential>)
    requires i < |expired|
    requires before == MarkExpired(rows, IdSet(expired[..i]))
    requires after == SetStatus(before, expired[i].id, Expired, None)
    ensures after == MarkExpired(rows, IdSet(expired[..i + 1]))
  {
    assert expired[..i + 1] == expired[..i] + [expired[i]];
    assert IdSet(expired[..i + 1]) == IdSet(expired[..i]) + {expired[i].id};
    MarkOneMore(rows, IdSet(expired[..i]), expired[i].id);
  }

  /** The grant files cleanupExpired leaves after one more row. */
  lemma FilesStep(paths: set<string>, home: string, expired: seq<Credential>, i: nat, before: set<string>, after: set<string>)
    requires i < |expired|
    requires before == RemoveGrantDirs(paths, home, expired[..i])
    requires after == RemoveTree(before, Config.GrantDir(home, expired[i].id))
    ensures after == RemoveGrantDirs(paths, home, expired[..i + 1])
  {
    assert expired[..i + 1][..i] == expired[..i];
  }

  /** After revoking a row, looking its id up finds that row, revoked. */
  lemma RevokedRowFound(rows: seq<Credential>, id: string, now: int)
    requires UniqueIds(rows) && HasId(rows, id)
    ensures Find(SetStatus(rows, id, Revoked, Some(now)), id)
         == Some(Find(rows, id).value.(status := Revoked, revokedAt := Some(now)))
  {
    var k :| 0 <= k < |rows| && rows[k].id == id;
    FindUnique(rows, k);
    var next := SetStatus(rows, id, Revoked, Some(now));
    assert forall i :: 0 <= i < |next| ==> next[i].id == rows[i].id;
    FindUnique(next, k);
  }

  /** The ids of a sequence of rows. */
  function IdSet(rows: seq<Credential>): (ids: set<string>)
    ensures forall c :: c in rows ==> c.id in ids
    ensures forall id :: id in ids ==> exists c :: c in rows && c.id == id
  {
    set c | c in rows :: c.id
  }

  /** The rows whose id is in `ids` marked expired with revoked_at cleared. */
  function MarkExpired(rows: seq<Credential>, ids: set<string>): (r: seq<Credential>)
    ensures |r| == |rows|
    ensures forall i :: 0 <= i < |rows| ==> r[i] == if rows[i].id in ids then Expire(rows[i]) else rows[i]
  {
    seq(|rows|, i requires 0 <= i < |rows| => if rows[i].id in ids then Expire(rows[i]) else rows[i])
  }

  /** updateCredentialStatus(id, 'expired') on a partly marked table marks one id more. */
  lemma MarkOneMore(rows: seq<Credential>, ids: set<string>, id: string)
    ensures SetStatus(MarkExpired(rows, ids), id, Expired, None) == MarkExpired(rows, ids + {id})
  {
  }

  /** With unique ids, marking the ids of the due rows is the sweep. */
  lemma MarkDueIsSweep(rows: seq<Credential>, now: int)
    requires UniqueIds(rows)
    ensures MarkExpired(rows, IdSet(Filter(rows, DueAt(now)))) == Sweep(rows, now)
  {
    var due := Filter(rows, DueAt(now));
    FilterMembers(rows, DueAt(now));
    forall i | 0 <= i < |rows|
      ensures rows[i].id in IdSet(due) <==> Due(now, rows[i])
    {
      if rows[i].id in IdSet(due) {
        var c :| c in due && c.id == rows[i].id;
        var k :| 0 <= k < |rows| && rows[k] == c;
        assert k == i;
      }
      if Due(now, rows[i]) {
        assert rows[i] in due;
      }
    }
  }
}
