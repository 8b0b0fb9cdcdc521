/** Records of the create-only import: what a contributor submits and what the master keeps.

  Signatures and encryption are opaque: an authentic submission carries its payload, and the
  hash of a submission is the submission itself. */
module ImportTypes {
  import opened Wrappers

  datatype Ref = Ref(role: string, name: string)

  datatype EntryKind = ApiKey | SshKey | Server | Domain | Note

  /** The request a project contributor's entry came from. */
  datatype RequestKey = RequestKey(scopeId: string, deviceId: string, grantId: string, requestId: string)

  /** The sealed part; `valid` says whether it makes a valid entry. */
  datatype Payload = Payload(
    valid: bool, name: string, kind: EntryKind, fields: map<string, string>, tags: seq<string>, note: string,
    refs: seq<Ref>, secret: Option<string>, passphrase: Option<string>)

  datatype Submission = Submission(key: RequestKey, vaultId: string, authentic: bool, payload: Payload)

  datatype ImportStatus = Accepted | Conflict | Rejected | Quarantined

  /** A signed receipt binds a submission to an outcome. */
  datatype Receipt = Receipt(submission: Submission, status: ImportStatus, canonicalId: Option<string>, revision: nat)

  /** One line of the deduplication ledger. */
  datatype ImportRecord = ImportRecord(
    key: RequestKey, submission: Submission, status: ImportStatus,
    canonicalId: Option<string>, revision: nat, receipt: Receipt)
}
