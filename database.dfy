/**
 * The credential store and audit log (src/core/database.ts). The SQLite
 * tables are the sequences `creds` and `audit`, in insertion order; the audit
 * table's AUTOINCREMENT key is `nextAuditId`; "now" is a parameter.
 */
module Database {
  import opened Wrappers
  import opened CredentialTypes
  import opened Seqs

  /** `id TEXT PRIMARY KEY`. */
  ghost predicate UniqueIds(rows: seq<Credential>)
  {
    forall i, j :: 0 <= i < j < |rows| ==> rows[i].id != rows[j].id
  }

  predicate HasId(rows: seq<Credential>, id: string)
  {
    exists i :: 0 <= i < |rows| && rows[i].id == id
  }

  /** `SELECT * FROM credentials WHERE id = ?`. */
  function Find(rows: seq<Credential>, id: string): (r: Option<Credential>)
    ensures r.Some? <==> HasId(rows, id)
    ensures r.Some? ==> r.value in rows && r.value.id == id
  {
    if rows == [] then None
    else if rows[|rows| - 1].id == id then Some(rows[|rows| - 1])
    else
      var r := Find(rows[..|rows| - 1], id);
      assert forall i :: 0 <= i < |rows| - 1 ==> rows[..|rows| - 1][i] == rows[i];
      r
  }

  /** With unique ids, the row found is the one row carrying the id. */
  lemma {:induction false} FindUnique(rows: seq<Credential>, k: nat)
    requires UniqueIds(rows) && k < |rows|
    ensures Find(rows, rows[k].id) == Some(rows[k])
  {
    if k < |rows| - 1 {
      FindUnique(rows[..|rows| - 1], k);
    }
  }

  /** listCredentials' filters; a missing or empty `host` does not filter. */
  datatype CredentialFilter = CredentialFilter(
    kind: Option<CredentialType>, status: Option<CredentialStatus>, host: Option<string>, includeAll: bool)

  /**
   * A row passes when it has the requested type, the requested status (only
   * active ones when no status is given, unless includeAll), and the requested host.
   */
  predicate MatchesFilter(f: CredentialFilter, c: Credential)
  {
    && (f.kind.None? || c.kind == f.kind.value)
    && (if f.status.Some? then c.status == f.status.value else f.includeAll || c.status == Active)
    && (f.host.None? || f.host.value == "" || c.host == f.host.value)
  }

  function Matcher(f: CredentialFilter): Credential -> bool
  {
    (c: Credential) => MatchesFilter(f, c)
  }

  function CreatedAt(c: Credential): int { c.createdAt }

  /** `MAX(serial)`, with 0 standing for COALESCE on an empty table. */
  function MaxSerial(rows: seq<Credential>): (m: nat)
    ensures forall i :: 0 <= i < |rows| ==> rows[i].serial <= m
    ensures m == 0 || exists i :: 0 <= i < |rows| && rows[i].serial == m
  {
    if rows == [] then 0
    else
      var rest := MaxSerial(rows[..|rows| - 1]);
      assert forall i :: 0 <= i < |rows| - 1 ==> rows[..|rows| - 1][i] == rows[i];
      if rows[|rows| - 1].serial > rest then rows[|rows| - 1].serial else rest
  }

  /** An active row whose expiry instant has been reached. */
  predicate Due(now: int, c: Credential)
  {
    c.status == Active && c.expiresAt <= now
  }

  function DueAt(now: int): Credential -> bool
  {
    (c: Credential) => Due(now, c)
  }

  /** `UPDATE credentials SET status = ?, revoked_at = ? WHERE id = ?`. */
  function SetStatus(rows: seq<Credential>, id: string, status: CredentialStatus, revokedAt: Option<int>): (r: seq<Credential>)
    ensures |r| == |rows|
    ensures forall i :: 0 <= i < |rows| ==>
      r[i] == if rows[i].id == id then rows[i].(status := status, revokedAt := revokedAt) else rows[i]
  {
    seq(|rows|, i requires 0 <= i < |rows| =>
      if rows[i].id == id then rows[i].(status := status, revokedAt := revokedAt) else rows[i])
  }

  function HasStatus(status: CredentialStatus): Credential -> bool
  {
    (c: Credential) => c.status == status
  }

  /** `COUNT(*)` of the rows with a status. */
  function CountStatus(rows: seq<Credential>, status: CredentialStatus): nat
  {
    |Filter(rows, HasStatus(status))|
  }

  /** Every row has exactly one of the three statuses, so the per-status counts add up to the table size. */
  lemma {:induction false} CountsPartition(rows: seq<Credential>)
    ensures CountStatus(rows, Active) + CountStatus(rows, Expired) + CountStatus(rows, Revoked) == |rows|
  {
    if rows != [] {
      var init := rows[..|rows| - 1];
      assert rows == init + [rows[|rows| - 1]];
      FilterAppend(init, rows[|rows| - 1], HasStatus(Active));
      FilterAppend(init, rows[|rows| - 1], HasStatus(Expired));
      FilterAppend(init, rows[|rows| - 1], HasStatus(Revoked));
      CountsPartition(init);
    }
  }

  datatype Counts = Counts(active: nat, expired: nat, revoked: nat)

  /** listAudit's filters; an absent or empty action or credential id does not filter. */
  datatype AuditFilter = AuditFilter(limit: Option<int>, action: Option<string>, credentialId: Option<string>, since: Option<int>)

  predicate AuditMatches(f: AuditFilter, e: AuditEntry)
  {
    && (f.action.None? || f.action.value == "" || e.action == f.action.value)
    && (f.credentialId.None? || f.credentialId.value == "" || e.credentialId == Some(f.credentialId.value))
    && (f.since.None? || e.timestamp >= f.since.value)
  }

  function AuditMatcher(f: AuditFilter): AuditEntry -> bool
  {
    (e: AuditEntry) => AuditMatches(f, e)
  }

  function Timestamp(e: AuditEntry): int { e.timestamp }

  /**
   * The LIMIT clause: added only for a truthy limit, and SQLite reads a
   * negative LIMIT as no limit; so only a positive limit truncates.
   */
  function RowLimit(f: AuditFilter): Option<nat>
  {
    if f.limit.Some? && f.limit.value > 0 then Some(f.limit.value) else None
  }

  /** The audit ids increase along the log and stay below the next id to hand out. */
  ghost predicate AuditIdsIncreasing(audit: seq<AuditEntry>, nextId: nat)
  {
    && (forall i, j :: 0 <= i < j < |audit| ==> audit[i].id < audit[j].id)
    && (forall i :: 0 <= i < |audit| ==> 1 <= audit[i].id < nextId)
  }

  datatype DbError = DuplicateId(id: string)

  class Store {
    var creds: seq<Credential>
    var audit: seq<AuditEntry>
    var nextAuditId: nat

    ghost predicate Valid()
      reads this
    {
      UniqueIds(creds) && nextAuditId >= 1 && AuditIdsIncreasing(audit, nextAuditId)
    }

    /** A freshly created database: both tables empty. */
    constructor ()
      ensures Valid() && creds == [] && audit == [] && nextAuditId == 1
    {
      creds := [];
      audit := [];
      nextAuditId := 1;
    }

    /**
     * insertCredential: appends the row, or fails on the primary key when a row
     * with that id exists. Afterwards getCredential(c.id) returns exactly `c`.
     */
    method InsertCredential(c: Credential) returns (r: Outcome<DbError>)
      requires Valid()
      modifies this
      ensures Valid()
      ensures r.Fail? <==> HasId(old(creds), c.id)
      ensures r.Fail? ==> r.error == DuplicateId(c.id) && creds == old(creds)
      ensures r.Pass? ==> creds == old(creds) + [c] && GetCredential(c.id) == Some(c)
      ensures audit == old(audit) && nextAuditId == old(nextAuditId)
    {
      if Find(creds, c.id).Some? {
        return Fail(DuplicateId(c.id));
      }
      creds := creds + [c];
      assert creds[..|creds| - 1] == old(creds);
      r := Pass;
    }

    /** getCredential: the row with this id, or null. */
    function GetCredential(id: string): (r: Option<Credential>)
      reads this
      ensures r.Some? <==> HasId(creds, id)
      ensures r.Some? ==> r.value in creds && r.value.id == id
    {
      Find(creds, id)
    }

    /**
     * listCredentials: exactly the rows passing every filter, newest
     * creation first.
     */
    function ListCredentials(f: CredentialFilter): (r: seq<Credential>)
      reads this
      ensures forall c :: c in r <==> c in creds && MatchesFilter(f, c)
      ensures multiset(r) == multiset(Filter(creds, Matcher(f)))
      ensures SortedDesc(r, CreatedAt)
    {
      var filtered := Filter(creds, Matcher(f));
      FilterMembers(creds, Matcher(f));
      var r := SortDesc(filtered, CreatedAt);
      forall c
        ensures c in r <==> c in creds && MatchesFilter(f, c)
      {
        assert c in r <==> c in multiset(r);
        assert c in filtered <==> c in multiset(filtered);
        assert Matcher(f)(c) == MatchesFilter(f, c);
      }
      r
    }

    /**
     * updateCredentialStatus: sets status and revoked_at on the row with this
     * id; every other row, and every other field, is unchanged.
     */
    method UpdateCredentialStatus(id: string, status: CredentialStatus, revokedAt: Option<int>)
      requires Valid()
      modifies this
      ensures Valid()
      ensures creds == SetStatus(old(creds), id, status, revokedAt)
      ensures audit == old(audit) && nextAuditId == old(nextAuditId)
    {
      creds := SetStatus(creds, id, status, revokedAt);
    }

    /** getNextSerial: one more than the largest serial of any row, whatever its status; 1 on an empty table. */
    function NextSerial(): (s: nat)
      reads this
      ensures s >= 1
      ensures forall i :: 0 <= i < |creds| ==> creds[i].serial < s
      ensures s == 1 || exists i :: 0 <= i < |creds| && creds[i].serial == s - 1
    {
      MaxSerial(creds) + 1
    }

    /** getExpiredCredentials: the active rows whose expiry is at or before `now`, in table order. */
    function ExpiredAsOf(now: int): (r: seq<Credential>)
      reads this
      ensures forall c :: c in r <==> c in creds && c.status == Active && c.expiresAt <= now
      ensures r == Filter(creds, DueAt(now))
    {
      FilterMembers(creds, DueAt(now));
      Filter(creds, DueAt(now))
    }

    /** insertAudit: appends one entry stamped `now`, under a fresh id larger than every earlier one. */
    method InsertAudit(action: string, credentialId: Option<string>, details: string, now: int)
      requires Valid()
      modifies this
      ensures Valid()
      ensures audit == old(audit) + [AuditEntry(old(nextAuditId), action, credentialId, details, now)]
      ensures forall i :: 0 <= i < |old(audit)| ==> old(audit)[i].id < audit[|audit| - 1].id
      ensures nextAuditId == old(nextAuditId) + 1
      ensures creds == old(creds)
    {
      audit := audit + [AuditEntry(nextAuditId, action, credentialId, details, now)];
      nextAuditId := nextAuditId + 1;
    }

    /**
     * listAudit: entries passing all filters, newest timestamp first, cut to a
     * positive limit; the entries kept are never older than the ones cut.
     */
    function ListAudit(f: AuditFilter): (r: seq<AuditEntry>)
      reads this
      ensures forall e :: e in r ==> e in audit && AuditMatches(f, e)
      ensures multiset(r) <= multiset(Filter(audit, AuditMatcher(f)))
      ensures RowLimit(f).None? ==> multiset(r) == multiset(Filter(audit, AuditMatcher(f)))
      ensures |r| == if RowLimit(f).Some? && RowLimit(f).value < |Filter(audit, AuditMatcher(f))|
                     then RowLimit(f).value else |Filter(audit, AuditMatcher(f))|
      ensures SortedDesc(r, Timestamp)
      ensures forall x, y :: x in r && y in Filter(audit, AuditMatcher(f)) && y !in r ==> Timestamp(x) >= Timestamp(y)
    {
      FilterMembers(audit, AuditMatcher(f));
      TopByKey(Filter(audit, AuditMatcher(f)), Timestamp, RowLimit(f))
    }

    /** getCredentialCounts: the number of rows per status, zero for a status with no rows. */
    function CredentialCounts(): (counts: Counts)
      reads this
      ensures counts.active == |Filter(creds, HasStatus(Active))|
      ensures counts.expired == |Filter(creds, HasStatus(Expired))|
      ensures counts.revoked == |Filter(creds, HasStatus(Revoked))|
      ensures counts.active + counts.expired + counts.revoked == |creds|
    {
      CountsPartition(creds);
      Counts(CountStatus(creds, Active), CountStatus(creds, Expired), CountStatus(creds, Revoked))
    }
  }
}
