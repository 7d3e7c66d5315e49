# vaultmark — a Dafny model of the credential lifecycle

vaultmark issues short-lived credentials from a local SSH certificate
authority. A credential is either an SSH certificate signed by the CA or a
one-time password. The project models the core of vaultmark in Dafny and
proves properties of that model:

- **Custody of the CA key** (`crypto.dfy`, `ca.dfy`). The private key is
  stored AES-256-GCM encrypted under a scrypt key as IV(12) ‖ tag(16) ‖
  ciphertext. Unlocking needs the passphrase. Every key buffer is zeroed after
  use. The cipher is a datatype of oracle functions. Its authenticated-encryption
  behaviour is a predicate that lemmas take as a precondition.
- **Certificate signing** (`ca.dfy`). This covers the validity window (one
  minute before "now" up to the TTL after it), the `.pub` → `-cert.pub` path
  rewriting and the `YYYYMMDDHHMMSS` date format. ssh-keygen's success or
  failure is an input.
- **The key revocation list** (`krl.dfy`). The file is abstracted to the set of
  serials it revokes. The model covers the incremental update, the
  recreate-on-failure fallback and the zero-length placeholder.
- **The credential store and audit log** (`database.dfy`). This is a class
  `Store` whose two SQLite tables are sequences in insertion order. Queries are
  functions. Inserts and updates are methods.
- **The lifecycle** (`credential.dfy`). This is a class `Vault` holding the store, the
  KRL, the CA and the set of paths that exist under `~/.vaultmark/grants`. It
  covers granting a certificate, issuing a password, revoking, and the expiry
  sweep that runs before every issue. The invariant `Vault.Valid` is kept by
  every operation. It says the ids are unique, the audit ids increase, every
  row has the shape its kind requires, and each certificate's serial exceeds
  every earlier row's serial.
- **TTL parsing and duration formatting** (`time.dfy`), **password generation**
  (`password_generator.dfy`), and **configuration and the on-disk layout**
  (`config.dfy`).

Every instant is an integer count of milliseconds. The clock, the random ids,
the random bytes and each external tool outcome are parameters of the
operation that uses them.

Two behaviours of the code are worth stating because they are easy to miss:

- revokeCredential refuses only a row that is already revoked
  (src/core/credential.ts:134). An expired row can still be revoked, so
  Expired is not a terminal status. `Vault.Revoke` models this.
- The sweep writes `revoked_at = NULL`, because updateCredentialStatus stores
  `revokedAt || null` (src/core/database.ts:123) and the sweep passes no
  instant. So an expired row never carries a revocation instant.

## Model

| member | source | states |
|---|---|---|
| Time.ParseTtl | src/utils/time.ts:1-19 | succeeds exactly on digits followed by one of s, m, h, d; otherwise fails with "invalid TTL format" naming the input |
| Time.ParseTtlOfRendered | src/utils/time.ts:3-18 | a decimal number followed by a unit parses to that number times the unit's multiplier (1, 60, 3600, 86400) |
| Time.ParseTtlRejects | src/utils/time.ts:10-14 | "", "10", "abc", "10x", "s" and "-5m" are rejected |
| Time.DigitsValueOfNatToString | src/utils/time.ts:16 | parseInt in base 10 reads back the decimal rendering of any natural number |
| Time.ComponentsRecompose | src/utils/time.ts:24-26 | hours·3600 + minutes·60 + seconds gives back the count, with minutes and seconds below 60 |
| Time.FormatDurationRoundTrip | src/utils/time.ts:21-34 | a duration with a single non-zero component is printed as a TTL that parses back to the same number of seconds |
| Time.FormatDuration | src/utils/time.ts:21-34 | "expired" for a negative count; otherwise at least two characters, starting with a digit and ending with a unit letter |
| Time.FormatDurationSpecialCases | src/utils/time.ts:21-34 | the output is "expired" exactly for a negative count and "0s" exactly for zero |
| Time.IsExpired | src/utils/time.ts:36-38 | an expired instant has no whole second remaining |
| Time.RemainingSeconds | src/utils/time.ts:40-42 | 0 when less than a second is left; otherwise the whole seconds left, rounded down |
| Time.FormatRelative | src/utils/time.ts:48-52 | the output is "expired" exactly when less than 1000 ms remain |
| Time.FormatRelativeExpired | src/utils/time.ts:36-52 | every expired instant reads "expired" |
| PasswordGenerator.Alphabet | src/core/password-generator.ts:3-13 | a known charset name selects its alphabet; any other name falls back to alphanumeric; the alphabet is never empty |
| PasswordGenerator.GeneratePassword | src/core/password-generator.ts:12-22 | exactly `length` characters, character i being the alphabet entry at byte i modulo the alphabet size, all from the alphabet |
| PasswordGenerator.HashPassword | src/core/password-generator.ts:24-26 | the digest is 64 lower-case hexadecimal characters, whatever the password |
| PasswordGenerator.HashDiffersFromPassword | src/core/password-generator.ts:24-26 | for a password whose length is not 64, the stored digest differs from the password |
| PasswordGenerator.AvailableCharsets | src/core/password-generator.ts:28-30 | exactly the five charset names, each once |
| Crypto.Unframe | src/core/crypto.ts:39-47 | fails with "too short" exactly below 28 bytes; otherwise splits at offsets 12 and 28 |
| Crypto.UnframeFrame | src/core/crypto.ts:35-47 | splitting a frame gives back the IV, tag and ciphertext it was built from |
| Crypto.FrameUnframe | src/core/crypto.ts:39-47 | every input of at least 28 bytes is the frame of its own three parts |
| Crypto.EncryptedLength | src/core/crypto.ts:24-37 | the stored frame is the plaintext length plus 28 |
| Crypto.DecryptEncrypt | src/core/crypto.ts:24-63 | decrypting what encrypt produced, with the same passphrase and salt, returns the data |
| Crypto.DecryptFailsClosed | src/core/crypto.ts:39-63 | decrypt returns data only for a frame that is exactly the encryption of that data under the key derived from this passphrase and salt |
| Crypto.DecryptTooShort | src/core/crypto.ts:40-42 | a frame under 28 bytes is rejected whatever the key |
| Crypto.ZeroBuffer | src/core/crypto.ts:65-67 | every byte of the buffer becomes 0 |
| Crypto.DeriveKey | src/core/crypto.ts:16-22 | a fresh 32-byte buffer holding the scrypt key |
| Crypto.SealAndWipe | src/core/crypto.ts:28-33 | the data is sealed under the key the buffer held, and the buffer is all zeros afterwards |
| Crypto.OpenAndWipe | src/core/crypto.ts:49-60 | the frame is opened under the key the buffer held, and the buffer is all zeros afterwards, whether or not opening succeeded |
| Crypto.Encrypt | src/core/crypto.ts:24-37 | returns the frame for the data; the derived key buffer goes through SealAndWipe and is all zeros afterwards |
| Crypto.Decrypt | src/core/crypto.ts:39-63 | returns what the frame decrypts to or the error; no key is derived for a short frame; otherwise the key buffer goes through OpenAndWipe and is zeroed on success and on failure |
| Ca.Unlock | src/core/ca.ts:54-69 | "not initialized" exactly when the key or salt file is missing; every other failure is "invalid passphrase" |
| Ca.UnlockAfterInit | src/core/ca.ts:54-69 | the key initCA stored unlocks with its passphrase and yields the same bytes |
| Ca.UnlockFailsClosed | src/core/ca.ts:62-68 | unlocking succeeds only on key material that is the encryption of the returned key under this passphrase |
| Ca.ValidityWindow | src/core/ca.ts:98-100 | the window starts one minute before now and ends ttlSeconds after it |
| Ca.SignedPathsOfGrant | src/core/ca.ts:137-154 | the key pair lands on the grant's key and .pub paths, and the .pub rewriting gives back the key path and the grant's certificate path |
| Ca.ReplacePubSuffix | src/core/ca.ts:115-116 | for a path ending in .pub, the result ends in the replacement, and putting .pub back in its place gives the path |
| Ca.KeyPairPaths | src/core/ca.ts:145-153 | the private key lies inside the grant directory and the public key is its path plus .pub |
| Ca.ReplaceWithoutSuffix | src/core/ca.ts:115-116 | a path not ending in .pub is left unchanged |
| Ca.PadTwoDigits | src/core/ca.ts:158-162 | padStart(2, '0') of a number below 100 is two digits reading back that number |
| Ca.FormatSshDate | src/core/ca.ts:156-164 | all digits, the unpadded year first, then at least ten more digits |
| Ca.FormatSshDateFields | src/core/ca.ts:156-164 | each field of the YYYYMMDDHHMMSS string reads back as the calendar field it encodes |
| Ca.SealPrivateKeyAndWipe | src/core/ca.ts:33-41 | the stored key is the encryption of the bytes the buffer held, and the buffer is all zeros afterwards |
| Ca.WriteTempKeyAndWipe | src/core/ca.ts:95-96 | the temporary key file receives the bytes the buffer held, and the buffer is all zeros before ssh-keygen runs |
| Ca.Authority.InitCa | src/core/ca.ts:11-52 | refuses when the encrypted key exists; a keygen failure changes nothing; otherwise stores the key encrypted under the passphrase, plus the salt and public key, and the private key buffer goes through SealPrivateKeyAndWipe |
| Ca.Authority.LoadCaPrivateKey | src/core/ca.ts:54-69 | a fresh buffer with the unlocked key, or the error Unlock names |
| Ca.Authority.CaPublicKey | src/core/ca.ts:71-76 | the public key when its file exists, otherwise "not initialized" |
| Ca.Authority.SignCertificate | src/core/ca.ts:78-135 | unlock errors pass through; the unlocked key buffer goes through WriteTempKeyAndWipe; a tool failure is "signing failed"; otherwise the certificate carries the serial, principals, window and force-command, with paths rewritten from the public key path |
| Krl.FirstMode | src/core/krl.ts:17-24 | the in-place update is tried exactly when the file exists with a non-zero size |
| Krl.AfterRun | src/core/krl.ts:19-24 | after a successful run the serial is revoked; an update keeps the earlier serials, a creation lists only the new one |
| Krl.RevocationList.InitKrl | src/core/krl.ts:5-10 | writes the empty placeholder only when no file exists |
| Krl.RevocationList.RevokeInKrl | src/core/krl.ts:12-29 | a missing certificate file changes nothing; a first run or a rebuild that succeeds leaves the serial revoked; when both fail, the file is unchanged and the error surfaces |
| Krl.RebuildDropsEarlierSerials | src/core/krl.ts:25-28 | whatever the file held, the rebuild after a failed update revokes exactly the current serial, so every serial revoked earlier is no longer listed |
| Config.GrantDir | src/core/config.ts:27-29 | a grant's directory lies strictly inside the grants directory |
| Config.GrantKey | src/core/config.ts:31-33 | the private key lies directly inside the grant's directory |
| Config.GrantPub | src/core/config.ts:35-37 | the public key is the private key path plus .pub, inside the grant's directory |
| Config.GrantCert | src/core/config.ts:39-41 | the certificate is the private key path plus -cert.pub, inside the grant's directory |
| Config.GrantDirsDisjoint | src/core/config.ts:27-29 | for single-segment ids, removing one grant's directory never touches another grant's directory or its files |
| Config.IsInitialized | src/core/config.ts:52-54 | true exactly when the config file, the encrypted CA key and the CA public key all exist |
| Config.InitializedWithoutSalt | src/core/config.ts:52-54 | the salt file is not among the files checked: a home without it still counts as initialized |
| Config.EnsureInitialized | src/core/config.ts:52-60 | fails with "not initialized" exactly when the config file, the encrypted CA key or the CA public key is missing |
| Config.LoadConfigAsWritten | src/core/config.ts:62-78 | a missing file gives the defaults; an empty YAML document makes the function throw |
| Config.LoadConfig | src/core/config.ts:62-78 | a missing or empty file gives the defaults; otherwise the result agrees with the code wherever the code returns |
| Config.Merge | src/core/config.ts:70-77 | an empty mapping gives the defaults, and each top-level key the mapping gives wins over its default |
| Config.LoadConfigFieldwise | src/types/config.ts:14-23 | each key the file gives overrides its default and every absent key keeps its default, including inside `defaults` |
| Config.LoadWritten | src/core/config.ts:62-84 | loading a file that holds every key gives back exactly that configuration |
| Database.Find | src/core/database.ts:76-80 | a row is found exactly when one carries the id, and the row found carries it |
| Database.FindUnique | src/core/database.ts:76-80 | with unique ids, the row found is the one row carrying the id |
| Database.MaxSerial | src/core/database.ts:126-131 | at least every row's serial, and either 0 or the serial of some row |
| Database.SetStatus | src/core/database.ts:116-124 | only the row with the id changes, and only in status and revoked_at |
| Database.CountsPartition | src/core/database.ts:192-204 | the per-status counts add up to the number of rows |
| Database.Store.constructor | src/core/database.ts:17-49 | both tables start empty and the first audit id is 1 |
| Database.Store.InsertCredential | src/core/database.ts:51-74 | fails with a duplicate id exactly when the id is taken; otherwise appends the row, which getCredential then returns; the audit log is untouched |
| Database.Store.GetCredential | src/core/database.ts:76-80 | a row exactly when one carries the id, and that row carries it |
| Database.Store.ListCredentials | src/core/database.ts:82-114 | exactly the rows passing every filter (only active ones by default), as a permutation of the matching rows, newest creation first |
| Database.Store.UpdateCredentialStatus | src/core/database.ts:116-124 | the table becomes SetStatus of the old table; the audit log is untouched |
| Database.Store.NextSerial | src/core/database.ts:126-131 | at least 1; above every row's serial; one more than the largest serial, or 1 for an empty table |
| Database.Store.ExpiredAsOf | src/core/database.ts:133-139 | exactly the active rows whose expiry is at or before now, in table order |
| Database.Store.InsertAudit | src/core/database.ts:141-147 | appends one entry stamped now, under an id larger than every earlier one; the next id advances by one |
| Database.Store.ListAudit | src/core/database.ts:149-190 | matching entries only, newest first; all of them without a positive limit, otherwise the limit; the entries kept are never older than the entries cut |
| Database.Store.CredentialCounts | src/core/database.ts:192-204 | the number of rows per status, the three adding up to the table size |
| Seqs.TopByKey | src/core/database.ts:173-178 | `ORDER BY … DESC LIMIT n`: a sorted sub-multiset of length min(n, size) that dominates every element left out |
| Credentials.CheckTtl | src/core/credential.ts:23-31 | succeeds with the TTL in seconds exactly when both TTLs parse and the requested one is not larger; otherwise it names the parse error or "exceeds maximum" |
| Credentials.Identity | src/core/credential.ts:39 | a non-empty identity option is used, otherwise "vaultmark-" followed by the id |
| Credentials.StoredForceCommand | src/core/credential.ts:70 | an empty or absent force-command is stored as null |
| Credentials.CertRow | src/core/credential.ts:58-74 | the certificate row is well shaped, active and carries the id |
| Credentials.PasswordRow | src/core/credential.ts:103-119 | the password row is well shaped (serial 0, no paths, a hash), active and carries the id |
| Credentials.CertSerialsDistinct | src/core/credential.ts:36-37 | in a well-formed table, two certificates never share a serial |
| Credentials.Expire | src/core/credential.ts:168 | the row becomes expired with revoked_at cleared, and nothing else changes |
| Credentials.Sweep | src/core/credential.ts:157-174 | the table after the sweep: due rows expired, every other row as it was, same length |
| Credentials.SweepTransitions | src/core/credential.ts:157-174 | the sweep only moves rows from active to expired and keeps ids and serials |
| Credentials.SweepIdempotent | src/core/credential.ts:157-174 | nothing is due after a sweep, so a second sweep at the same instant changes nothing |
| Credentials.SweepKeepsMaxSerial | src/core/credential.ts:34-37 | the sweep before a grant does not change the serial getNextSerial returns |
| Credentials.SweepWellFormed | src/core/credential.ts:157-174 | the sweep keeps the table well formed |
| Credentials.AppendWellFormed | src/core/credential.ts:37-76 | appending a well-shaped row, numbered one past the largest serial if it is a certificate, keeps the table well formed |
| Credentials.RevokeWellFormed | src/core/credential.ts:151 | revoking a row keeps the table well formed |
| Credentials.RemoveTree | src/core/credential.ts:146-149 | a recursive removal leaves exactly the paths outside the directory |
| Credentials.RemoveGrantDirs | src/core/credential.ts:161-166 | the sweep's removals only remove paths, and every swept row's grant directory is gone |
| Credentials.RemoveGrantDirsLeaves | src/core/credential.ts:161-166 | after the sweep's removals, exactly the paths outside every swept row's grant directory remain |
| Credentials.RemoveTreeKeepsOtherGrants | src/core/credential.ts:146-149 | removing one grant's directory keeps every other grant's key and certificate |
| Credentials.SweepThenIssue | src/core/credential.ts:34-77 | the issuing operation logs one cleanup entry per swept row, then its own entry, which names the new credential |
| Credentials.Vault.SweepOne | src/core/credential.ts:162-170 | one loop step: the grant directory is removed, the row marked expired with revoked_at cleared, and a cleanup entry logged |
| Credentials.Vault.CleanupExpired | src/core/credential.ts:157-174 | returns the number of due rows; the table becomes the sweep of the old one; one cleanup entry per due row with consecutive ids; their grant directories are removed; the invariant holds |
| Credentials.Vault.SignGrant | src/core/credential.ts:38-74 | succeeds exactly when key generation, unlocking and signing succeed, and each failure names its cause; the grant directory, key pair and certificate appear among the files; the result is the certificate row |
| Credentials.Vault.IssueCertificate | src/core/credential.ts:36-81 | succeeds exactly when the tools and unlocking succeed and the id is new; each failure names its cause, a taken id being a duplicate; on success the row with the next serial is appended and returned by getCredential, a grant entry is logged and the ssh command names the grant's key and certificate; on failure neither table changes |
| Credentials.Vault.Grant | src/core/credential.ts:19-82 | a TTL error changes nothing; otherwise the sweep runs first, and success happens exactly when the tools, unlocking and a fresh id allow it; each failure names its cause (keygen, the unlock error, signing, a duplicate id) and leaves the swept table with only the cleanup entries logged; on success the row carries the serial getNextSerial gave before the sweep and is appended to the swept table, cleanup and grant entries are logged, and the grant's files are added to what the sweep left |
| Credentials.Vault.IssuePassword | src/core/credential.ts:98-124 | succeeds exactly when the id is new; the password is drawn from the bytes; only its digest is stored; a password entry is logged; on failure neither table changes |
| Credentials.Vault.CreatePassword | src/core/credential.ts:84-125 | a TTL error changes nothing; otherwise the sweep runs first; a taken id fails as a duplicate, leaving the swept table with only the cleanup entries logged; on success the password has the requested length, character i drawn from the alphabet by byte i, and its digest row is appended to the swept table with cleanup and password entries logged |
| Credentials.Vault.Revoke | src/core/credential.ts:127-155 | an unknown id is not found and a revoked row is refused (an expired one is revoked); a certificate whose file exists first goes into the KRL, and a KRL failure changes nothing; on success the row is revoked at now, its grant directory removed, a revoke entry logged, and, when the KRL was updated, the serial listed in it |
| Credentials.RevokedRowFound | src/core/credential.ts:151-154 | after the update, getCredential returns the old row, revoked at now |
| Credentials.MarkDueIsSweep | src/core/credential.ts:158-171 | with unique ids, marking the rows getExpiredCredentials returned, one id at a time, is the sweep |

## Left out

- SQLite itself is not modelled: the WAL pragma, the indexes, the connection cache and closeDb. `mapRow` is not modelled either. Each table is a sequence in insertion order.
- Timestamps are integers of milliseconds, not ISO-8601 strings. String order on ISO timestamps is taken to be time order.
- `ORDER BY` breaks ties in an unspecified order. `Database.Store.ListCredentials` and `Database.Store.ListAudit` fix the set and the order of keys, but not the order among equal keys.
- Database.Store.ExpiredAsOf: the query has no `ORDER BY`, so SQLite may return the rows in any order. The model returns them in table order. The order of the cleanup entries the sweep logs follows that choice.
- PasswordGenerator.HashDiffersFromPassword: covers only passwords whose length is not 64. For a 64-character password, whether it equals its own digest depends on SHA-256 and is not modelled.
- Crypto.Encrypt, Crypto.Decrypt, Ca.Authority.InitCa, Ca.Authority.SignCertificate: each returns the wiped key buffer as a ghost result. Its own contract cannot name its local key, so the link between the key used and the buffer zeroed is stated by the wipe step it calls (SealAndWipe, OpenAndWipe, SealPrivateKeyAndWipe, WriteTempKeyAndWipe).
- Database.Store.CredentialCounts: the `GROUP BY` query and the loop that copies its rows into the result are modelled as one count per status.
- Concurrency between separate processes is not modelled, so there are no locks on the store or the KRL. Each operation runs alone.
- AES-256-GCM, scrypt, SHA-256 and Ed25519 are oracles. Their security is not modelled.
- generateSalt's random bytes are an input. Its 32-byte length is the `Salt` type.
- ssh-keygen runs are booleans or optional results supplied by the caller. This covers key generation, signing and the KRL runs. The exact command lines, the temporary directories and their `rm -rf` cleanup are not modelled.
- Reading the public key trims it. This is not modelled: the public key is the string the key pair gives.
- Krl.HasContent: getKRLSize is modelled as zero or non-zero only, so a non-empty file that is not a valid KRL is not distinguished.
- Paths are plain concatenation with "/". path.join normalisation and `homedir()` are not modelled: the home directory is a parameter.
- ensureDirs and the permission modes (0o600, 0o700) are not modelled.
- saveConfig's YAML serialisation is not modelled. `Config.Written` stands for the mapping it writes.
- The calendar decomposition of an instant (the Date UTC getters) is an input to `Ca.FormatSshDate`.
- The 8-character random id is a parameter of each issuing operation. So is "now": grantSSHAccess's separate `new Date()` after signing is merged with the instant the sweep uses. formatTimestamp is the identity on these integers.
- Credentials.Vault.Revoke: the certificate's serial is taken from the row. The serial written inside the certificate file is not read.
- JavaScript number precision is not modelled: integers are unbounded.
- `CHARSETS[charset]` on inherited keys such as "constructor" is not modelled: only the five own keys select an alphabet.
- The command-line layer and src/core/ssh.ts are not part of this model. This covers the commands, the colours, the logger and host setup.

## Findings

| source | as written | input that shows it | evidently intended | confidence | as-written member | corrected member |
|---|---|---|---|---|---|---|
| src/core/config.ts:67-76 | an existing config file whose YAML is empty parses to `null`; spreading `null` is harmless, but reading `parsed.defaults` throws a TypeError, so every command that loads the config fails | an empty `~/.vaultmark/config.yml` (`Config.EmptyConfigFileThrows`: the document `NullDocument` gives a failure, while a missing file gives the defaults) | an empty file behaves like a missing one and yields the default configuration | medium, not executed | Config.LoadConfigAsWritten | Config.LoadConfig |
