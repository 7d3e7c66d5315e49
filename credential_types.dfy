/** The stored records (src/types/credential.ts). Instants are milliseconds since the epoch. */
module CredentialTypes {
  import opened Wrappers

  datatype CredentialType = SshCert | Password

  /** Active is the only state a credential leaves. */
  datatype CredentialStatus = Active | Expired | Revoked

  /** One row of the credentials table; `kind` is the source's `type` column and `labelText` its `label`. */
  datatype Credential = Credential(
    id: string,
    kind: CredentialType,
    host: string,
    user: string,
    labelText: string,
    serial: nat,
    status: CredentialStatus,
    createdAt: int,
    expiresAt: int,
    revokedAt: Option<int>,
    ttlSeconds: nat,
    forceCommand: Option<string>,
    certPath: Option<string>,
    keyPath: Option<string>,
    passwordHash: Option<string>)

  /** One row of the audit_log table. */
  datatype AuditEntry = AuditEntry(id: nat, action: string, credentialId: Option<string>, details: string, timestamp: int)
}
