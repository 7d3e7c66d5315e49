/**
 * The OpenSSH key revocation list kept at ~/.vaultmark/krl (src/core/krl.ts).
 * The file is abstracted to the set of serials it revokes; each ssh-keygen run
 * is a tool call whose success or failure is an input.
 */
module Krl {
  import opened Wrappers

  /** The file's content: the zero-length placeholder initKRL writes, or a KRL listing serials. */
  datatype Artifact = Placeholder | Listing(serials: set<nat>)

  /** getKRLSize() > 0: the file exists and holds a KRL (a statSync failure reads as size 0). */
  predicate HasContent(file: Option<Artifact>)
  {
    file.Some? && file.value.Listing?
  }

  /** Whether a verifier consulting the file treats `serial` as revoked. */
  predicate IsRevoked(file: Option<Artifact>, serial: nat)
  {
    HasContent(file) && serial in file.value.serials
  }

  /** The two ssh-keygen invocations: `-k -u` updates the file in place, `-k` writes a fresh one. */
  datatype Mode = Update | Create

  /** The invocation tried first: update when the file exists with a non-zero size, create otherwise. */
  function FirstMode(file: Option<Artifact>): (m: Mode)
    ensures m == Update <==> HasContent(file)
  {
    if HasContent(file) then Update else Create
  }

  /** The file after a successful run of `mode` for a certificate with this serial. */
  function AfterRun(file: Option<Artifact>, mode: Mode, serial: nat): (r: Artifact)
    requires mode == Update ==> HasContent(file)
    ensures IsRevoked(Some(r), serial)
    ensures mode == Update ==> r.serials == file.value.serials + {serial}
    ensures mode == Create ==> r.serials == {serial}
  {
    match mode
    case Update => Listing(file.value.serials + {serial})
    case Create => Listing({serial})
  }

  datatype KrlError = KrlToolFailed

  class RevocationList {
    /** None when the file does not exist. */
    var file: Option<Artifact>

    constructor (initial: Option<Artifact>)
      ensures file == initial
    {
      file := initial;
    }

    /** initKRL: writes an empty file only when none exists, so a second call changes nothing. */
    method InitKrl()
      modifies this
      ensures old(file).None? ==> file == Some(Placeholder)
      ensures old(file).Some? ==> file == old(file)
    {
      if file.None? {
        file := Some(Placeholder);
      }
    }

    /**
     * revokeInKRL for a certificate file, given as the serial it carries (None
     * when the file does not exist). `firstOk` is the outcome of the first
     * ssh-keygen run; `retryOk` that of the rebuild the catch block runs.
     */
    method RevokeInKrl(certificate: Option<nat>, firstOk: bool, retryOk: bool) returns (r: Outcome<KrlError>)
      modifies this
      ensures certificate.None? ==> r.Pass? && file == old(file)
      ensures certificate.Some? && firstOk ==>
                r.Pass? && file == Some(AfterRun(old(file), FirstMode(old(file)), certificate.value))
      ensures certificate.Some? && !firstOk && retryOk ==>
                r.Pass? && file == Some(Listing({certificate.value}))
      ensures certificate.Some? && !firstOk && !retryOk ==> r.Fail? && file == old(file)
      ensures r.Pass? && certificate.Some? ==> IsRevoked(file, certificate.value)
      ensures r.Pass? && certificate.Some? && HasContent(old(file)) && firstOk ==>
                old(file).value.serials <= file.value.serials
    {
      if certificate.None? {
        return Pass;
      }
      var serial := certificate.value;
      var mode := FirstMode(file);
      if firstOk {
        file := Some(AfterRun(file, mode, serial));
        r := Pass;
      } else if retryOk {
        file := Some(AfterRun(file, Create, serial));
        r := Pass;
      } else {
        r := Fail(KrlToolFailed);
      }
    }
  }

  /**
   * The rebuild after a failed update keeps only the certificate being revoked:
   * whatever the file listed before, every serial revoked earlier is no longer
   * listed.
   */
  lemma RebuildDropsEarlierSerials(file: Option<Artifact>, serial: nat)
    ensures forall s :: IsRevoked(Some(AfterRun(file, Create, serial)), s) <==> s == serial
    ensures HasContent(file) ==>
              forall s :: s in file.value.serials && s != serial ==> !IsRevoked(Some(AfterRun(file, Create, serial)), s)
  {
  }
}
