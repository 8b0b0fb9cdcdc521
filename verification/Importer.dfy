/** The crash-recoverable, create-only import of contributor submissions. */
module Importer {
  import opened Wrappers
  import opened Faults
  import opened JournalDisk
  import opened Journal
  import opened ImportTypes
  import opened Metadata
  import opened Mutation
  import opened Names
  import opened SecretBackend
  import opened Store
  import opened RefGraph
  import opened ImportPlan
  import opened ImportMeaning

  const IMPORT_KIND := "project_import"

  /** No account of the import is in use with another value. */
  predicate Available(accounts: Accounts, writes: Images) {
    forall account :: account in writes ==> At(accounts, account) == None || At(accounts, account) == writes[account]
  }

  /** Nothing but an obstruction stands in the way of a plan's metadata step. */
  predicate Committable(d: Document, p: Plan)
    requires d.catalog.Some?
  {
    || HasRecord(d.catalog.value.imports, p.submission.key)
    || (ScopeConfigured(d.catalog.value, p.submission.key, p.submission.vaultId) && GetById(d.entries, p.entry.id).None?)
  }

  /** Nothing stands in the way of completing a plan under a policy. */
  predicate Completable(d: Document, accounts: Accounts, p: Plan, policy: Policy)
    requires d.catalog.Some?
  {
    var s := p.submission;
    || HasRecord(d.catalog.value.imports, s.key)
    || (ScopeConfigured(d.catalog.value, s.key, s.vaultId)
        && (s.key.grantId in policy.revoked
            || (policy.trusted(s)
                && (policy.verdict(s).Authorized? ==>
                      Committable(d, p) && Available(accounts, SecretWrites(p.entry.id, s.payload))))))
  }

  /** The identifiers derived from a request are not in use yet. */
  predicate Plannable(d: Document, accounts: Accounts, ids: Identities, s: Submission)
    requires d.catalog.Some?
  {
    var id := ids.entryId(s.key);
    && ScopeConfigured(d.catalog.value, s.key, s.vaultId) && GetById(d.entries, id).None?
    && id !in accounts && Passphrase(id) !in accounts
  }

  /** Nothing stands in the way of a request that was never seen before. */
  predicate Welcome(disk: Disk<Plan>, d: Document, accounts: Accounts, ids: Identities, s: Submission, policy: Policy)
    requires d.catalog.Some?
  {
    && s.authentic && Plannable(d, accounts, ids, s) && HasRoom(disk, ids.operationId(s.key))
    && (s.key.grantId in policy.revoked || policy.trusted(s))
    && !(exists e :: e in d.entries && e.catalogAttributes.origin == Some(s.key))
  }

  /** The receipts of imports are small enough for the ledger. */
  ghost predicate Concise(encode: Receipt -> string) {
    forall r :: |encode(r)| <= MAX_IMPORT_RECEIPT
  }

  const MAX_IMPORT_RECEIPT := 16 * 1024

  lemma ImportReceiptFits(r: Record<Plan>, text: string, now: nat)
    requires r.kind == IMPORT_KIND && |text| <= MAX_IMPORT_RECEIPT
    ensures Fits([Terminal(r, Completed, Some(text), None, now).Receipt()])
  {
    var done := Terminal(r, Completed, Some(text), None, now).Receipt();
    assert SizeSum([done]) == done.ReceiptSize();
  }

  /** The secret steps of one import. */
  method WriteNewAccounts(backend: Backend, writes: Images, calm: bool) returns (o: Outcome)
    requires forall account :: account in writes ==> writes[account].Some?
    modifies backend
    ensures OnlyReserved(old(backend.accounts), backend.accounts, writes)
    ensures forall account :: account in old(backend.accounts) ==> At(backend.accounts, account) == At(old(backend.accounts), account)
    ensures o == Done ==> Holds(backend.accounts, writes)
    ensures calm && Available(old(backend.accounts), writes) ==> o == Done
  {
    var present;
    o, present := backend.ListIds(calm);
    if o != Done { return; }
    var todo := writes.Keys;
    while todo != {}
      invariant todo <= writes.Keys && o == Done && present == backend.accounts.Keys
      invariant OnlyReserved(old(backend.accounts), backend.accounts, writes)
      invariant forall account :: account in old(backend.accounts) ==> At(backend.accounts, account) == At(old(backend.accounts), account)
      invariant forall account :: account in writes && account !in todo ==> At(backend.accounts, account) == writes[account]
      invariant forall account :: account in todo ==> At(backend.accounts, account) == At(old(backend.accounts), account)
    {
      var account :| account in todo;
      todo := todo - {account};
      var value := writes[account].value;
      if account in present {
        var current;
        o, current := backend.Get(account, calm);
        if o != Done { return; }
        if current != value { return Raised; }
      } else {
        o := backend.Set(account, value, calm);
        if o != Done { return; }
        present := present + {account};
      }
    }
  }

  method RemoveOwnedSecrets(backend: Backend, writes: Images, calm: bool) returns (o: Outcome)
    requires forall account :: account in writes ==> writes[account].Some?
    modifies backend
    ensures OnlyReserved(old(backend.accounts), backend.accounts, writes)
    ensures o == Done ==> Withdrawn(backend.accounts, writes)
    ensures calm ==> o == Done
  {
    var present;
    o, present := backend.ListIds(calm);
    if o != Done { return; }
    var todo := writes.Keys;
    while todo != {}
      invariant todo <= writes.Keys && o == Done
      invariant present == old(backend.accounts).Keys
      invariant OnlyReserved(old(backend.accounts), backend.accounts, writes)
      invariant forall account :: account in todo ==> At(backend.accounts, account) == At(old(backend.accounts), account)
      invariant forall account :: account in writes && account !in todo ==> At(backend.accounts, account) != writes[account]
    {
      var account :| account in todo;
      todo := todo - {account};
      if account in present {
        var current;
        o, current := backend.Get(account, calm);
        if o != Done { return; }
        if current == writes[account].value {
          o := backend.Delete(account, calm);
          if o != Done { return; }
        }
      }
    }
  }

  /** No account of the import holds its planned value. */
  ghost predicate Withdrawn(accounts: Accounts, writes: Images) {
    forall account :: account in writes ==> At(accounts, account) != writes[account]
  }

  /** Taking back what was staged in accounts that were absent restores all of them. */
  lemma WithdrawnIsRestored(before: Accounts, after: Accounts, writes: Images)
    requires OnlyReserved(before, after, writes) && Withdrawn(after, writes)
    requires forall account :: account in writes ==> account !in before
    ensures after == before
  {
    forall account ensures At(after, account) == At(before, account) {
      if account in writes {
        assert At(before, account) == None;
      }
    }
    SameAccounts(after, before);
  }

  class ProjectImporter {
    const journal: OperationJournal<Plan>
    const store: MetadataStore
    const backend: Backend
    const ids: Identities
    const personal: bool
    const encode: Receipt -> string
    /** The requests whose entry this importer added to the catalog, in order. */
    ghost var added: seq<RequestKey>

    constructor (journal: OperationJournal<Plan>, store: MetadataStore, backend: Backend, ids: Identities, personal: bool,
                 encode: Receipt -> string)
      requires journal.Valid() && ids.Collisionless()
               && ImporterSound(journal.disk, journal.history, store.document, ids, [])
      ensures Valid() && added == []
      ensures this.journal == journal && this.store == store && this.backend == backend && this.ids == ids && this.personal == personal
    {
      this.journal, this.store, this.backend := journal, store, backend;
      this.ids, this.personal, this.encode := ids, personal, encode;
      added := [];
    }

    ghost predicate Valid()
      reads this, journal, store
    {
      && journal.Valid() && ids.Collisionless()
      && ImporterSound(journal.disk, journal.history, store.document, ids, added)
    }

    /** Every pending import record holds the plan of the request its identity comes from. */
    ghost predicate Pending(id: Id, p: Plan)
      reads journal
    {
      id in journal.disk.records && !journal.disk.records[id].Finished()
      && journal.disk.records[id].state == Some(p) && journal.disk.records[id].kind == IMPORT_KIND
    }

    /** What a request that already has a ledger line gets. */
    method DedupRetry(r: ImportRecord, s: Submission) returns (o: Outcome, receipt: Receipt)
      requires r.receipt.submission == r.submission && r.receipt.status == r.status
               && r.receipt.canonicalId == r.canonicalId && r.receipt.revision == r.revision
      ensures o == Done && receipt == RetryReceipt(r, s)
    {
      receipt := SignedOutcome(s, Conflict);
      if r.submission != s { return Done, receipt; }
      if r.receipt.submission != s { return Raised, receipt; }
      if r.receipt.status != r.status || r.receipt.canonicalId != r.canonicalId || r.receipt.revision != r.revision {
        return Raised, receipt;
      }
      return Done, r.receipt;
    }

    /** Reads the ledger line of a request; a repeated key would be refused. */
    method LookupDedup(key: RequestKey, calm: bool) returns (o: Outcome, found: Option<ImportRecord>)
      requires DocumentSound(store.document)
      ensures o == Done ==> (found.Some? <==> HasRecord(store.document.catalog.value.imports, key))
      ensures found.Some? ==> FindRecords(store.document.catalog.value.imports, key) == [found.value]
      ensures found.Some? ==> found.value in store.document.catalog.value.imports && found.value.key == key
      ensures calm ==> o == Done
    {
      found := None;
      o := Attempt(calm);
      if o != Done { return; }
      var records := FindRecords(store.document.catalog.value.imports, key);
      FoundExactly(store.document.catalog.value.imports, key);
      FoundOnce(store.document.catalog.value.imports, key);
      if |records| > 1 { return Raised, None; }
      if |records| == 1 {
        assert records[0] in records;
        found := Some(records[0]);
      }
    }

    /** Records a refusal as the request's outcome, unless it already has one. */
    method PersistTerminal(s: Submission, status: ImportStatus, calm: bool) returns (o: Outcome, receipt: Receipt)
      requires DocumentSound(store.document) && status != Accepted
      modifies store
      ensures DocumentSound(store.document)
      ensures store.document == old(store.document)
              || (!HasRecord(old(store.document).catalog.value.imports, s.key) && store.document == WithOutcome(old(store.document), s, status))
      ensures store.document != old(store.document) ==> ScopeConfigured(old(store.document).catalog.value, s.key, s.vaultId)
      ensures o == Done ==> Answered(store.document, s, receipt)
      ensures o == Done && !HasRecord(old(store.document).catalog.value.imports, s.key) ==> store.document == WithOutcome(old(store.document), s, status)
      ensures calm && ScopeConfigured(old(store.document).catalog.value, s.key, s.vaultId) ==> o == Done
    {
      receipt := SignedOutcome(s, status);
      var d := store.document;
      if !ScopeConfigured(d.catalog.value, s.key, s.vaultId) { return Raised, receipt; }
      var found;
      o, found := LookupDedup(s.key, calm);
      if o != Done { return; }
      if found.Some? {
        o, receipt := DedupRetry(found.value, s);
        return;
      }
      WithOutcomeSound(d, s, status);
      assert Answered(WithOutcome(d, s, status), s, receipt) by { assert TerminalRecord(s, status) in WithOutcome(d, s, status).catalog.value.imports; }
      o := store.Commit(WithOutcome(d, s, status), calm);
    }

    /** The metadata transaction of an import.  `refused` tells a name or reference conflict,
      which is an outcome, from a failure, which leaves the plan pending. */
    method TryCommit(p: Plan, calm: bool) returns (o: Outcome, refused: bool, receipt: Receipt)
      requires DocumentSound(store.document) && PlanSound(p, ids)
      modifies store
      ensures DocumentSound(store.document)
      ensures refused ==> o == Raised && store.document == old(store.document) && Obstructed(old(store.document), p, personal)
                          && !HasRecord(old(store.document).catalog.value.imports, p.submission.key)
      ensures store.document == old(store.document)
              || (!HasRecord(old(store.document).catalog.value.imports, p.submission.key) && store.document == WithImport(old(store.document), p))
      ensures Joined(old(store.document), store.document, p, personal)
      ensures o == Done ==> Answered(store.document, p.submission, receipt)
      ensures o == Done && !HasRecord(old(store.document).catalog.value.imports, p.submission.key) ==>
                store.document == WithImport(old(store.document), p) && !Obstructed(old(store.document), p, personal)
      ensures calm && Committable(old(store.document), p) ==> o == Done || refused
    {
      receipt, refused := p.record.receipt, false;
      var d, s := store.document, p.submission;
      ImportIsNew(d, p);
      ResolvedAreMeant(s.payload.refs, d, s.key.scopeId, personal, p.entry.refs, p.targets);
      var found;
      o, found := LookupDedup(s.key, calm);
      if o != Done { return; }
      if found.Some? {
        o, receipt := DedupRetry(found.value, s);
        return;
      }
      if !ScopeConfigured(d.catalog.value, s.key, s.vaultId) { return Raised, false, receipt; }
      if GetById(d.entries, p.entry.id).Some? { return Raised, false, receipt; }
      if GetByName(d.entries, p.entry.name).Some? { return Raised, true, receipt; }
      var resolved := ResolveRefs(s.payload.refs, d, s.key.scopeId, personal, Some(p.targets));
      ReferencesResolve(s.payload.refs, d, s.key.scopeId, personal, Some(p.targets));
      if resolved.Err? { return Raised, resolved.error == Colliding, receipt; }
      if Canonical(s.payload.refs, resolved.value) != p.entry.refs { return Raised, true, receipt; }
      if !personal {
        var cyclic := DetectCycles(d.entries + [p.entry]);
        if cyclic { return Raised, true, receipt; }
      }
      WithImportSound(d, p, ids);
      assert Answered(WithImport(d, p), s, receipt) by { assert p.record in WithImport(d, p).catalog.value.imports; }
      o := store.Commit(WithImport(d, p), calm);
    }

    /** A request that must not be imported: its staged secrets go before its refusal is
      recorded. */
    method Refuse(p: Plan, status: ImportStatus, calm: bool) returns (o: Outcome, receipt: Receipt)
      requires DocumentSound(store.document) && status != Accepted
      modifies store, backend
      ensures DocumentSound(store.document)
      ensures OnlyReserved(old(backend.accounts), backend.accounts, SecretWrites(p.entry.id, p.submission.payload))
      ensures store.document == old(store.document)
              || (!HasRecord(old(store.document).catalog.value.imports, p.submission.key)
                  && store.document == WithOutcome(old(store.document), p.submission, status))
      ensures Joined(old(store.document), store.document, p, personal)
      ensures store.document != old(store.document) || o == Done ==>
                Withdrawn(backend.accounts, SecretWrites(p.entry.id, p.submission.payload))
      ensures o == Done ==> Answered(store.document, p.submission, receipt)
      ensures o == Done && !HasRecord(old(store.document).catalog.value.imports, p.submission.key) ==>
                store.document == WithOutcome(old(store.document), p.submission, status)
      ensures calm && ScopeConfigured(old(store.document).catalog.value, p.submission.key, p.submission.vaultId) ==> o == Done
    {
      receipt := SignedOutcome(p.submission, status);
      ImportIsNew(store.document, p);
      o := RemoveOwnedSecrets(backend, SecretWrites(p.entry.id, p.submission.payload), calm);
      if o != Done { return; }
      o, receipt := PersistTerminal(p.submission, status, calm);
    }

    /** Secrets, then metadata, of an authorized request; a conflict found under the metadata
      lock takes the secrets back and becomes the outcome. */
    method ImportNow(p: Plan, id: Id, now: nat, calm: bool) returns (o: Outcome, receipt: Receipt)
      requires journal.Valid() && DocumentSound(store.document) && PlanSound(p, ids) && Pending(id, p)
      modifies journal, store, backend
      ensures journal.Valid() && DocumentSound(store.document) && OnlyTouches(old(journal.disk), journal.disk, id)
      ensures Pending(id, p) && journal.history == old(journal.history)
      ensures ResumeEffect(old(store.document), store.document, old(backend.accounts), backend.accounts, p, personal)
      ensures o == Done ==> Answered(store.document, p.submission, receipt)
      ensures o == Done && !HasRecord(old(store.document).catalog.value.imports, p.submission.key) ==>
                if Obstructed(old(store.document), p, personal) then store.document == WithOutcome(old(store.document), p.submission, Conflict)
                else store.document == WithImport(old(store.document), p)
      ensures calm ==> Committable(old(store.document), p) && Available(old(backend.accounts), SecretWrites(p.entry.id, p.submission.payload))
                       ==> o == Done
    {
      ImportIsNew(store.document, p);
      hide SecretWrites, Obstructed, DocumentSound, Answered, Sound, FindReceipt, Available, WithImport, WithOutcome;
      var writes := SecretWrites(p.entry.id, p.submission.payload);
      WritesHaveValues(p.entry.id, p.submission.payload);
      receipt := p.record.receipt;
      o := WriteNewAccounts(backend, writes, calm);
      if o != Done { return; }
      o := journal.Stage(id, "backend_written", None, now, calm);
      if o != Done { return; }
      ghost var staged := backend.accounts;
      var refused;
      o, refused, receipt := TryCommit(p, calm);
      if refused {
        o, receipt := Refuse(p, Conflict, calm);
        OnlyReservedComposes(old(backend.accounts), staged, backend.accounts, writes);
      }
      if o != Done { return; }
      o := journal.Stage(id, "metadata_committed", None, now, calm);
    }

    /** What the policy of the moment makes of a planned import that has no ledger line yet. */
    method Decided(p: Plan, id: Id, policy: Policy, now: nat, calm: bool) returns (o: Outcome, receipt: Receipt)
      requires journal.Valid() && DocumentSound(store.document) && PlanSound(p, ids) && Pending(id, p)
      requires !HasRecord(store.document.catalog.value.imports, p.submission.key)
      modifies journal, store, backend
      ensures journal.Valid() && DocumentSound(store.document) && OnlyTouches(old(journal.disk), journal.disk, id)
      ensures Pending(id, p) && journal.history == old(journal.history)
      ensures ResumeEffect(old(store.document), store.document, old(backend.accounts), backend.accounts, p, personal)
      ensures o == Done ==> Answered(store.document, p.submission, receipt)
      ensures o == Done ==> Follows(old(store.document), store.document, p, Decide(old(store.document), p, policy, personal))
      ensures calm && Completable(old(store.document), old(backend.accounts), p, policy) ==> o == Done
    {
      var s := p.submission;
      receipt := p.record.receipt;
      if s.key.grantId in policy.revoked {
        o, receipt := Refuse(p, Quarantined, calm);
      } else if !policy.trusted(s) {
        o := Raised;
      } else {
        match policy.verdict(s)
        case Unauthorized => o, receipt := Refuse(p, Quarantined, calm);
        case Malformed => o, receipt := Refuse(p, Rejected, calm);
        case Authorized => o, receipt := ImportNow(p, id, now, calm);
      }
    }

    /** The request has its outcome, so its operation can be closed. */
    method CloseImport(p: Plan, id: Id, receipt: Receipt, now: nat, calm: bool) returns (o: Outcome)
      requires journal.Valid() && Pending(id, p)
      modifies journal
      ensures journal.Valid() && OnlyTouches(old(journal.disk), journal.disk, id)
      ensures Pending(id, p) || id in journal.history.closed
      ensures old(journal.history.closed.Keys) <= journal.history.closed.Keys <= old(journal.history.closed.Keys) + {id}
      ensures o == Done ==> id in journal.history.closed
      ensures calm && Concise(encode) ==> o == Done
    {
      if Concise(encode) {
        ImportReceiptFits(journal.disk.records[id], encode(receipt), now);
      }
      o := journal.Close(id, Completed, Some(encode(receipt)), None, now, calm);
    }

    /** Completes a planned import under the policy of the moment. */
    method Resume(p: Plan, id: Id, policy: Policy, now: nat, calm: bool) returns (o: Outcome, receipt: Receipt)
      requires journal.Valid() && DocumentSound(store.document) && PlanSound(p, ids) && Pending(id, p)
      modifies journal, store, backend
      ensures journal.Valid() && DocumentSound(store.document) && OnlyTouches(old(journal.disk), journal.disk, id)
      ensures Pending(id, p) || id in journal.history.closed
      ensures old(journal.history.closed.Keys) <= journal.history.closed.Keys <= old(journal.history.closed.Keys) + {id}
      ensures id in journal.history.closed ==> HasRecord(store.document.catalog.value.imports, p.submission.key)
      ensures ResumeEffect(old(store.document), store.document, old(backend.accounts), backend.accounts, p, personal)
      ensures o == Done ==> Answered(store.document, p.submission, receipt) && id in journal.history.closed
      ensures o == Done && !HasRecord(old(store.document).catalog.value.imports, p.submission.key) ==>
                Follows(old(store.document), store.document, p, Decide(old(store.document), p, policy, personal))
      ensures calm && Concise(encode) && Completable(old(store.document), old(backend.accounts), p, policy) ==> o == Done
    {
      hide Decide, Follows, Completable, ResumeEffect, WithImport, SecretWrites, Without, HasMarker, ClosedSound, LedgerSound, Concise;
      receipt := p.record.receipt;
      NoEffect(store.document, backend.accounts, p, personal);
      var found;
      o, found := LookupDedup(p.submission.key, calm);
      if o != Done { return; }
      if found.Some? {
        o, receipt := DedupRetry(found.value, p.submission);
      } else {
        o, receipt := Decided(p, id, policy, now, calm);
      }
      if o != Done { return; }
      FoundExactly(store.document.catalog.value.imports, p.submission.key);
      o := CloseImport(p, id, receipt, now, calm);
    }

    /** Prepares a new request: nothing durable happens here. */
    method PlanImport(s: Submission, times: string, calm: bool) returns (planned: Planned)
      requires DocumentSound(store.document) && s.authentic
      ensures planned.Ready? ==>
                && PlanSound(planned.plan, ids) && planned.plan.submission == s && !Obstructed(store.document, planned.plan, personal)
                && (forall account :: account in SecretWrites(planned.plan.entry.id, s.payload) ==> account !in backend.accounts)
                && s.payload.valid && !Unjoinable(store.document, s, ids, personal, times)
                && planned.plan.entry.times == times && NextRevision(store.document.catalog.value, planned.plan.record.revision)
      ensures planned.Invalid? ==> !s.payload.valid
      ensures planned.Collides? ==> s.payload.valid && Unjoinable(store.document, s, ids, personal, times)
      ensures calm && Plannable(store.document, backend.accounts, ids, s) ==> !planned.Broken?
    {
      var d := store.document;
      var id := ids.entryId(s.key);
      if !ScopeConfigured(d.catalog.value, s.key, s.vaultId) { return Broken; }
      if GetById(d.entries, id).Some? { return Broken; }
      if !s.payload.valid { return Invalid; }
      if GetByName(d.entries, s.payload.name).Some? { return Collides; }
      var o, present := backend.ListIds(calm);
      if o != Done || id in present || Passphrase(id) in present { return Broken; }
      var resolved := ResolveRefs(s.payload.refs, d, s.key.scopeId, personal, None);
      ReferencesResolve(s.payload.refs, d, s.key.scopeId, personal, None);
      if resolved.Err? { return if resolved.error == Colliding then Collides else Broken; }
      var plan := MakePlan(s, d, ids, resolved.value, times);
      if !personal {
        var cyclic := DetectCycles(d.entries + [plan.entry]);
        if cyclic { return Collides; }
      }
      FreshPlanJoins(d, s, ids, personal, times);
      PlannedRevisionIsNext(d.catalog.value);
      return Ready(plan);
    }

    /** Resumes one pending import and keeps the importer's invariant. */
    method ResumeValid(p: Plan, id: Id, policy: Policy, now: nat, calm: bool) returns (o: Outcome, receipt: Receipt)
      requires Valid() && Pending(id, p) && PlanSound(p, ids) && ids.operationId(p.submission.key) == id
      modifies this, journal, store, backend
      ensures Valid()
      ensures ResumeEffect(old(store.document), store.document, old(backend.accounts), backend.accounts, p, personal)
      ensures added == AddedBy(old(added), old(store.document), store.document, p)
      ensures OnlyTouches(old(journal.disk), journal.disk, id) && old(journal.history).closed.Keys <= journal.history.closed.Keys
      ensures o == Done ==> Answered(store.document, p.submission, receipt) && id in journal.history.closed
      ensures o == Done && !HasRecord(old(store.document).catalog.value.imports, p.submission.key) ==>
                Follows(old(store.document), store.document, p, Decide(old(store.document), p, policy, personal))
      ensures calm && Concise(encode) && Completable(old(store.document), old(backend.accounts), p, policy) ==> o == Done
    {
      o, receipt := Resume(p, id, policy, now, calm);
      ResumeKeepsSound(old(journal.disk), old(journal.history), old(store.document), journal.disk, journal.history,
                       store.document, ids, added, id, p);
      added := AddedBy(added, old(store.document), store.document, p);
    }

    /** The request has a journal record: resume it if it is the same submission. */
    method AcceptPending(record: Record<Plan>, s: Submission, policy: Policy, now: nat, calm: bool)
      returns (o: Outcome, receipt: Receipt, ghost plan: Option<Plan>)
      requires Valid() && !HasRecord(store.document.catalog.value.imports, s.key)
      requires Read(journal.disk, ids.operationId(s.key)) == Some(record)
      modifies this, journal, store, backend
      ensures Valid()
      ensures plan.Some? ==> PlanSound(plan.value, ids) && plan.value.submission == s
      ensures if plan.Some?
              then ResumeEffect(old(store.document), store.document, old(backend.accounts), backend.accounts, plan.value, personal)
                   && added == AddedBy(old(added), old(store.document), store.document, plan.value)
              else unchanged(this, journal, store, backend)
      ensures plan.Some? ==> !Rival(old(journal.disk), ids, s)
      ensures o == Done ==> if Rival(old(journal.disk), ids, s) then receipt == SignedOutcome(s, Conflict) else Answered(store.document, s, receipt)
    {
      receipt, plan := SignedOutcome(s, Conflict), None;
      var id := ids.operationId(s.key);
      FindReceiptFinds(journal.disk.receipts, id);
      if record.Finished() { return Raised, receipt, plan; }
      if record.kind != IMPORT_KIND || record.state.None? || record.state.value.submission != s { return Done, receipt, plan; }
      plan := Some(record.state.value);
      o, receipt := ResumeValid(record.state.value, id, policy, now, calm);
    }

    /** Nobody knows the request yet. */
    method AcceptFresh(s: Submission, policy: Policy, times: string, now: nat, calm: bool)
      returns (o: Outcome, receipt: Receipt, ghost plan: Option<Plan>)
      requires Valid() && s.authentic && Unseen(journal.disk, store.document, ids, s)
      modifies this, journal, store, backend
      ensures Valid()
      ensures plan.Some? ==> PlanSound(plan.value, ids) && plan.value.submission == s
      ensures if plan.Some?
              then ResumeEffect(old(store.document), store.document, old(backend.accounts), backend.accounts, plan.value, personal)
                   && added == AddedBy(old(added), old(store.document), store.document, plan.value)
              else Effect(old(store.document), store.document, s, None) && backend.accounts == old(backend.accounts) && added == old(added)
                   && (store.document != old(store.document) ==> ScopeConfigured(old(store.document).catalog.value, s.key, s.vaultId))
      ensures forall account :: account in old(backend.accounts) ==> At(backend.accounts, account) == At(old(backend.accounts), account)
      ensures o == Done ==> Answered(store.document, s, receipt)
      ensures o == Done ==> Deserved(old(store.document), store.document, s, ids, policy, personal, times, plan)
      ensures plan.Some? ==> plan.value.entry.times == times && NextRevision(old(store.document).catalog.value, plan.value.record.revision)
      ensures o == Done && FreshStatus(old(store.document), s, ids, policy, personal, times) != Accepted ==>
                backend.accounts == old(backend.accounts)
      ensures calm && Concise(encode) && Welcome(old(journal.disk), old(store.document), old(backend.accounts), ids, s, policy) ==> o == Done
    {
      hide Answered, DocumentSound, ResumeEffect, SecretWrites, Cyclic, ResolveRefs, GetByName, Without, FindReceipt;
      receipt, plan := SignedOutcome(s, Conflict), None;
      if s.key.grantId in policy.revoked {
        o, receipt := RefuseFresh(s, Quarantined, calm);
        return;
      }
      if !policy.trusted(s) { return Raised, receipt, plan; }
      match policy.verdict(s) {
        case Unauthorized =>
          o, receipt := RefuseFresh(s, Quarantined, calm);
          return;
        case Malformed =>
          o, receipt := RefuseFresh(s, Rejected, calm);
          return;
        case Authorized =>
      }
      var planned := PlanImport(s, times, calm);
      match planned
      case Broken => return Raised, receipt, plan;
      case Invalid => o, receipt := RefuseFresh(s, Rejected, calm);
      case Collides => o, receipt := RefuseFresh(s, Conflict, calm);
      case Ready(p) =>
        plan := Some(p);
        o, receipt := BeginAndResume(p, policy, now, calm);
    }

    method RefuseFresh(s: Submission, status: ImportStatus, calm: bool) returns (o: Outcome, receipt: Receipt)
      requires Valid() && status != Accepted && !HasRecord(store.document.catalog.value.imports, s.key)
      modifies store
      ensures Valid()
      ensures Effect(old(store.document), store.document, s, None)
      ensures store.document != old(store.document) ==> ScopeConfigured(old(store.document).catalog.value, s.key, s.vaultId)
      ensures o == Done ==> Answered(store.document, s, receipt) && store.document == WithOutcome(old(store.document), s, status)
      ensures calm && ScopeConfigured(old(store.document).catalog.value, s.key, s.vaultId) ==> o == Done
    {
      o, receipt := PersistTerminal(s, status, calm);
      OutcomeKeepsSound(journal.disk, journal.history, old(store.document), store.document, ids, added, s);
    }

    method BeginAndResume(p: Plan, policy: Policy, now: nat, calm: bool) returns (o: Outcome, receipt: Receipt)
      requires Valid() && PlanSound(p, ids) && Unseen(journal.disk, store.document, ids, p.submission)
      requires forall account :: account in SecretWrites(p.entry.id, p.submission.payload) ==> account !in backend.accounts
      modifies this, journal, store, backend
      ensures Valid()
      ensures ResumeEffect(old(store.document), store.document, old(backend.accounts), backend.accounts, p, personal)
      ensures added == AddedBy(old(added), old(store.document), store.document, p)
      ensures forall account :: account in old(backend.accounts) ==> At(backend.accounts, account) == At(old(backend.accounts), account)
      ensures store.document != old(store.document) && store.document != WithImport(old(store.document), p) ==>
                backend.accounts == old(backend.accounts)
      ensures o == Done ==> Answered(store.document, p.submission, receipt)
      ensures o == Done ==> Follows(old(store.document), store.document, p, Decide(old(store.document), p, policy, personal))
      ensures calm && Concise(encode) && HasRoom(old(journal.disk), ids.operationId(p.submission.key)) ==>
                Completable(old(store.document), old(backend.accounts), p, policy) ==> o == Done
    {
      var id := ids.operationId(p.submission.key);
      receipt := p.record.receipt;
      o := journal.Begin(id, IMPORT_KIND, Some(p), now, calm);
      BeginKeepsSound(old(journal.disk), journal.disk, journal.history, store.document, ids, added, id, p);
      if o != Done { return; }
      o, receipt := ResumeValid(p, id, policy, now, calm);
      if store.document != old(store.document) && store.document != WithImport(old(store.document), p) {
        WithdrawnIsRestored(old(backend.accounts), backend.accounts, SecretWrites(p.entry.id, p.submission.payload));
      }
    }

    /** Accepts one submission.  `plan` is the plan this call made or found pending. */
    method Accept(s: Submission, policy: Policy, times: string, now: nat, calm: bool)
      returns (o: Outcome, receipt: Receipt, ghost plan: Option<Plan>)
      requires Valid()
      modifies this, journal, store, backend
      ensures Valid()
      ensures plan.Some? ==> PlanSound(plan.value, ids) && plan.value.submission == s
      ensures if plan.Some?
              then ResumeEffect(old(store.document), store.document, old(backend.accounts), backend.accounts, plan.value, personal)
                   && added == AddedBy(old(added), old(store.document), store.document, plan.value)
              else Effect(old(store.document), store.document, s, None) && backend.accounts == old(backend.accounts) && added == old(added)
                   && (store.document != old(store.document) ==> ScopeConfigured(old(store.document).catalog.value, s.key, s.vaultId))
      // whatever the ending, the vault only changes by a whole import or by a refusal
      ensures ImportEffect(old(store.document), store.document, old(backend.accounts), backend.accounts, s, ids, personal)
      // a request with a ledger line changes nothing and gets what the line says
      ensures HasRecord(old(store.document).catalog.value.imports, s.key) ==>
                store.document == old(store.document) && backend.accounts == old(backend.accounts)
                && journal.disk == old(journal.disk) && added == old(added)
      // a request whose entry is there without a ledger line is not imported again
      ensures LostLine(old(store.document), s.key) ==>
                store.document == old(store.document) && backend.accounts == old(backend.accounts) && o != Done
      // another submission under a pending request changes nothing and is told so
      ensures Rival(old(journal.disk), ids, s) ==>
                store.document == old(store.document) && backend.accounts == old(backend.accounts)
                && journal.disk == old(journal.disk) && (o == Done ==> Answered(store.document, s, receipt) || receipt == SignedOutcome(s, Conflict))
      ensures o == Done && !Rival(old(journal.disk), ids, s) ==> Answered(store.document, s, receipt)
      // a request never seen before gets exactly the status it deserves and touches no account that was there
      ensures Unseen(old(journal.disk), old(store.document), ids, s) ==>
                && (forall account :: account in old(backend.accounts) ==> At(backend.accounts, account) == At(old(backend.accounts), account))
                && (o == Done ==> Receives(old(store.document), store.document, s, ids, personal, times,
                                           FreshStatus(old(store.document), s, ids, policy, personal, times)))
                && RevisionIsNew(old(store.document), store.document)
                && (o == Done && FreshStatus(old(store.document), s, ids, policy, personal, times) != Accepted ==>
                      backend.accounts == old(backend.accounts))
      // without failures a repeated request is answered, and so is a new one that nothing stands in the way of
      ensures calm && s.authentic && HasRecord(old(store.document).catalog.value.imports, s.key) ==> o == Done
      ensures calm && Concise(encode) && Unseen(old(journal.disk), old(store.document), ids, s) ==>
                Welcome(old(journal.disk), old(store.document), old(backend.accounts), ids, s, policy) ==> o == Done
    {
      hide ImportEffect, Receives, RevisionIsNew, Deserved, ResumeEffect, PlanSound, Plannable, FreshStatus, AddedBy,
        Concise, WithImport, WithOutcome, PlansSound, ClosedAnswered, AddedOnce;
      receipt, plan := SignedOutcome(s, Conflict), None;
      NothingHappened(store.document, backend.accounts, s, ids, personal);
      if !s.authentic { return Raised, receipt, plan; }
      var found;
      o, found := LookupDedup(s.key, calm);
      if o != Done { return; }
      if found.Some? {
        o, receipt := DedupRetry(found.value, s);
        return;
      }
      if exists e :: e in store.document.entries && e.catalogAttributes.origin == Some(s.key) { return Raised, receipt, plan; }
      o := Attempt(calm);
      if o != Done { return; }
      var id := ids.operationId(s.key);
      var pending := Read(journal.disk, id);
      if pending.Some? {
        o, receipt, plan := AcceptPending(pending.value, s, policy, now, calm);
      } else {
        o, receipt, plan := AcceptFresh(s, policy, times, now, calm);
        FreshMeans(old(store.document), store.document, s, ids, policy, personal, times, plan, old(backend.accounts), backend.accounts, o == Done);
      }
      EffectMeans(old(store.document), store.document, old(backend.accounts), backend.accounts, s, ids, personal, plan);
    }

    /** Replays every pending import of one scope under a freshly trusted policy.  Success means
      that each of them has its ledger line and is closed, and nothing but an obstruction to
      one of them or a failure can prevent it. */
    method Recover(scopeId: string, policy: Policy, now: nat, calm: bool) returns (o: Outcome)
      requires Valid()
      modifies this, journal, store, backend
      ensures Valid()
      ensures old(added) <= added
      ensures CameFrom(old(store.document), old(backend.accounts), store.document, backend.accounts,
                       PendingIn(old(journal.disk).records, scopeId), ids, personal)
      ensures o == Done ==> forall s :: s in PendingIn(old(journal.disk).records, scopeId) ==>
                ids.operationId(s.key) in journal.history.closed && HasRecord(store.document.catalog.value.imports, s.key)
      ensures calm && Concise(encode) && Listable(old(journal.disk).index, old(journal.disk).records) ==>
                AllCompletable(old(journal.disk).records, scopeId, old(store.document), old(backend.accounts), policy) ==> o == Done
    {
      var active;
      ghost var terminal;
      o, active, terminal := journal.ListUnfinished(calm);
      SweepKeepsSound(old(journal.disk), journal.disk, old(journal.history), journal.history, store.document, ids, added);
      GrownRefl(store.document);
      if o != Done { return; }
      ActiveIsListed(old(journal.disk), journal.disk, old(journal.history), journal.history, active);
      o := ReplayAll(active, scopeId, policy, now, calm);
    }

    /** Replays the listed imports of one scope one after the other. */
    method ReplayAll(active: seq<Record<Plan>>, scopeId: string, policy: Policy, now: nat, calm: bool) returns (o: Outcome)
      requires Valid() && DistinctRecords(active) && Waiting(journal.disk.records, active)
      modifies this, journal, store, backend
      ensures Valid()
      ensures old(added) <= added
      ensures CameFrom(old(store.document), old(backend.accounts), store.document, backend.accounts, Submissions(active, scopeId), ids, personal)
      ensures o == Done ==> AllReplayed(active, scopeId, journal.history, store.document)
      ensures calm && Concise(encode) && EachCompletable(active, scopeId, old(store.document), old(backend.accounts), policy) ==> o == Done
    {
      hide Waiting, AllReplayed, EachCompletable, Completable, CameFrom, Submissions, Keyed, ImportEffect, ResumeEffect,
        GrownTogether, PlansSound, ClosedAnswered, AddedOnce, WellFormed, UniqueKeys, ReceiptsAgree, Sound, Replayed, Mine, Concise,
        DistinctRecords;
      o := Done;
      assert active[0..] == active;
      NothingReplayed(journal.disk.records, active, scopeId, journal.history, store.document, backend.accounts, ids, personal);
      for i := 0 to |active|
        invariant Valid() && o == Done && Waiting(journal.disk.records, active[i..]) && old(added) <= added
        invariant CameFrom(old(store.document), old(backend.accounts), store.document, backend.accounts,
                           Submissions(active[..i], scopeId), ids, personal)
        invariant AllReplayed(active[..i], scopeId, journal.history, store.document)
        invariant calm && Concise(encode) && EachCompletable(active, scopeId, old(store.document), old(backend.accounts), policy) ==>
                    EachCompletable(active[i..], scopeId, store.document, backend.accounts, policy)
      {
        ghost var h, d, accounts := journal.history, store.document, backend.accounts;
        o := ReplayNext(active, i, scopeId, policy, now, calm);
        OneMoreCame(old(store.document), old(backend.accounts), d, accounts, store.document, backend.accounts, active, i, scopeId, ids, personal);
        if o != Done { return; }
        MoreReplayed(active, i, scopeId, h, d, journal.history, store.document);
      }
      assert active[..|active|] == active;
    }

    /** Replays one of the listed imports if it is of this scope. */
    method ReplayNext(active: seq<Record<Plan>>, i: nat, scopeId: string, policy: Policy, now: nat, calm: bool) returns (o: Outcome)
      requires Valid() && i < |active| && DistinctRecords(active) && Waiting(journal.disk.records, active[i..])
      modifies this, journal, store, backend
      ensures Valid() && old(added) <= added && old(journal.history).closed.Keys <= journal.history.closed.Keys
      ensures if Mine(active[i], scopeId)
              then GrownTogether(old(store.document), store.document)
                   && ImportEffect(old(store.document), store.document, old(backend.accounts), backend.accounts,
                                   active[i].state.value.submission, ids, personal)
              else store.document == old(store.document) && backend.accounts == old(backend.accounts)
      ensures o == Done ==> Waiting(journal.disk.records, active[i + 1..])
      ensures o == Done && Mine(active[i], scopeId) ==> Replayed(active[i].id, active[i].state.value, journal.history, store.document)
      ensures EachCompletable(active[i..], scopeId, old(store.document), old(backend.accounts), policy) ==>
                EachCompletable(active[i + 1..], scopeId, store.document, backend.accounts, policy)
      ensures calm && Concise(encode) && EachCompletable(active[i..], scopeId, old(store.document), old(backend.accounts), policy) ==>
                o == Done
    {
      hide Waiting, EachCompletable, Completable, ImportEffect, ResumeEffect, GrownTogether, OnlyTouches, ClosedAnswered, AddedOnce,
        Sound, Replayed, WellFormed;
      o := Done;
      ghost var disk, d, accounts := journal.disk, store.document, backend.accounts;
      NextWaiting(disk.records, active, i, scopeId, d, accounts, policy, ids);
      if Mine(active[i], scopeId) {
        o := ReplayOne(active[i].state.value, active[i].id, policy, now, calm);
      }
      StillWaiting(disk, journal.disk, active, i);
      StillCompletable(disk.records, active, i, scopeId, d, accounts, store.document, backend.accounts, personal, policy, ids);
    }

    method ReplayOne(p: Plan, id: Id, policy: Policy, now: nat, calm: bool) returns (o: Outcome)
      requires Valid() && Pending(id, p) && PlanSound(p, ids) && ids.operationId(p.submission.key) == id
      modifies this, journal, store, backend
      ensures Valid()
      ensures ResumeEffect(old(store.document), store.document, old(backend.accounts), backend.accounts, p, personal)
      ensures ImportEffect(old(store.document), store.document, old(backend.accounts), backend.accounts, p.submission, ids, personal)
      ensures GrownTogether(old(store.document), store.document) && old(added) <= added
      ensures OnlyTouches(old(journal.disk), journal.disk, id) && old(journal.history).closed.Keys <= journal.history.closed.Keys
      ensures o == Done ==> Replayed(id, p, journal.history, store.document)
      ensures calm && Concise(encode) && Completable(old(store.document), old(backend.accounts), p, policy) ==> o == Done
    {
      hide Decide, Follows, Completable;
      ghost var d := store.document;
      var receipt;
      o, receipt := ResumeValid(p, id, policy, now, calm);
      EffectGrowsTogether(d, store.document, p, ids);
      EffectMeans(d, store.document, old(backend.accounts), backend.accounts, p.submission, ids, personal, Some(p));
      FoundExactly(store.document.catalog.value.imports, p.submission.key);
    }
  }

  /** An open import of this scope. */
  predicate Mine(r: Record<Plan>, scopeId: string) {
    !r.Finished() && r.kind == IMPORT_KIND && r.state.Some? && r.state.value.submission.key.scopeId == scopeId
  }

  /** The request has its ledger line and its operation is closed. */
  ghost predicate Replayed(id: Id, p: Plan, h: History, d: Document) {
    d.catalog.Some? && HasRecord(d.catalog.value.imports, p.submission.key) && id in h.closed
  }

  ghost predicate AllReplayed(active: seq<Record<Plan>>, scopeId: string, h: History, d: Document) {
    forall r :: r in active && Mine(r, scopeId) ==> Replayed(r.id, r.state.value, h, d)
  }

  /** Nothing stands in the way of any open import of this scope. */
  ghost predicate AllCompletable(records: map<Id, Record<Plan>>, scopeId: string, d: Document, accounts: Accounts, policy: Policy)
    requires d.catalog.Some?
  {
    forall id :: id in records && Mine(records[id], scopeId) ==> Completable(d, accounts, records[id].state.value, policy)
  }

  ghost predicate EachCompletable(active: seq<Record<Plan>>, scopeId: string, d: Document, accounts: Accounts, policy: Policy)
    requires d.catalog.Some?
  {
    forall r :: r in active && Mine(r, scopeId) ==> Completable(d, accounts, r.state.value, policy)
  }

  /** The submissions to this scope whose import was planned and has no receipt yet. */
  ghost function PendingIn(records: map<Id, Record<Plan>>, scopeId: string): set<Submission> {
    set id | id in records && records[id].status == Pending && records[id].kind == IMPORT_KIND && records[id].state.Some?
             && records[id].state.value.submission.key.scopeId == scopeId :: records[id].state.value.submission
  }

  ghost function Submissions(active: seq<Record<Plan>>, scopeId: string): set<Submission> {
    set r | r in active && Mine(r, scopeId) :: r.state.value.submission
  }

  /** The account belongs to one of these submissions. */
  ghost predicate Reserved(submissions: set<Submission>, ids: Identities, account: string) {
    exists s :: s in submissions && Brought(s, ids, account).Some?
  }

  /** The entry at this place came with the whole import of one of these submissions, added when
    the document had grown as far as that, and its secrets are in place. */
  ghost predicate Arrived(d: Document, d': Document, accounts': Accounts, submissions: set<Submission>, ids: Identities, personal: bool, k: nat) {
    exists s, d0, d1 :: s in submissions && ArrivedFrom(d, d0, d1, d', s, ids, personal, k) && Stored(s, ids, accounts')
  }

  ghost predicate ArrivedFrom(d: Document, d0: Document, d1: Document, d': Document, s: Submission, ids: Identities, personal: bool, k: nat) {
    GrownTogether(d, d0) && |d0.entries| == k && Imported(d0, d1, s, ids, personal) && GrownTogether(d1, d')
  }

  /** Every new entry came with one of these submissions. */
  ghost predicate AllArrived(d: Document, d': Document, accounts': Accounts, submissions: set<Submission>, ids: Identities, personal: bool) {
    forall k :: |d.entries| <= k < |d'.entries| ==> Arrived(d, d', accounts', submissions, ids, personal, k)
  }

  /** The document only grew, each new entry came with the whole import of one of these
    submissions, and only their accounts changed. */
  ghost predicate CameFrom(d: Document, accounts: Accounts, d': Document, accounts': Accounts, submissions: set<Submission>, ids: Identities,
                           personal: bool)
  {
    && GrownTogether(d, d') && AllArrived(d, d', accounts', submissions, ids, personal)
    && forall account :: At(accounts', account) == At(accounts, account) || Reserved(submissions, ids, account)
  }

  lemma NothingCame(d: Document, accounts: Accounts, submissions: set<Submission>, ids: Identities, personal: bool)
    requires d.catalog.Some?
    ensures CameFrom(d, accounts, d, accounts, submissions, ids, personal)
  {
    GrownRefl(d);
  }

  lemma NothingReplayed(records: map<Id, Record<Plan>>, active: seq<Record<Plan>>, scopeId: string, h: History, d: Document,
                        accounts: Accounts, ids: Identities, personal: bool)
    requires PlansSound(records, ids) && Waiting(records, active) && d.catalog.Some?
    ensures Keyed(active, scopeId, ids) && AllReplayed(active[..0], scopeId, h, d)
    ensures CameFrom(d, accounts, d, accounts, Submissions(active[..0], scopeId), ids, personal)
  {
    NothingCame(d, accounts, Submissions(active[..0], scopeId), ids, personal);
  }

  /** One step of a replay: the imports so far, also when seen among all of them. */
  lemma OneMoreCame(first: Document, firstAccounts: Accounts, d: Document, accounts: Accounts, d': Document, accounts': Accounts,
                    active: seq<Record<Plan>>, i: nat, scopeId: string, ids: Identities, personal: bool)
    requires i < |active| && DistinctRecords(active) && Keyed(active, scopeId, ids) && ids.Collisionless()
    requires CameFrom(first, firstAccounts, d, accounts, Submissions(active[..i], scopeId), ids, personal)
    requires if Mine(active[i], scopeId)
             then GrownTogether(d, d') && ImportEffect(d, d', accounts, accounts', active[i].state.value.submission, ids, personal)
             else d' == d && accounts' == accounts
    ensures CameFrom(first, firstAccounts, d', accounts', Submissions(active[..i + 1], scopeId), ids, personal)
    ensures CameFrom(first, firstAccounts, d', accounts', Submissions(active, scopeId), ids, personal)
    ensures d.catalog.Some? && d'.catalog.Some? && d.catalog.value.imports <= d'.catalog.value.imports
  {
    var before, so, all := Submissions(active[..i], scopeId), Submissions(active[..i + 1], scopeId), Submissions(active, scopeId);
    NextSubmissions(active, i, scopeId);
    CameIsLonger(first, firstAccounts, d, accounts, before, ids, personal);
    if Mine(active[i], scopeId) {
      var s := active[i].state.value.submission;
      KeysDiffer(active, i, scopeId, ids);
      GrownIsLonger(d, d');
      OneCame(first, firstAccounts, d, accounts, d', accounts', before, s, ids, personal);
    }
    hide CameFrom, Submissions, ImportEffect, GrownTogether, Keyed;
    MoreCame(first, firstAccounts, d', accounts', so, all, ids, personal);
  }

  lemma CameIsLonger(first: Document, firstAccounts: Accounts, d: Document, accounts: Accounts, submissions: set<Submission>,
                     ids: Identities, personal: bool)
    requires CameFrom(first, firstAccounts, d, accounts, submissions, ids, personal)
    ensures d.catalog.Some?
  {
  }

  lemma OneCame(first: Document, firstAccounts: Accounts, d: Document, accounts: Accounts, d': Document, accounts': Accounts,
                submissions: set<Submission>, s: Submission, ids: Identities, personal: bool)
    requires CameFrom(first, firstAccounts, d, accounts, submissions, ids, personal) && ids.Collisionless()
    requires forall x :: x in submissions ==> x.key != s.key
    requires GrownTogether(d, d') && ImportEffect(d, d', accounts, accounts', s, ids, personal)
    ensures CameFrom(first, firstAccounts, d', accounts', submissions + {s}, ids, personal)
  {
    assert OnlyBrought(s, ids, accounts, accounts');
    hide GrownTogether, ImportEffect, AllArrived, Reserved, OnlyBrought;
    GrownTransitive(first, d, d');
    ArrivedGrows(first, d, d', accounts, accounts', submissions, s, ids, personal);
    forall account | Reserved(submissions, ids, account) ensures Reserved(submissions + {s}, ids, account) {
      MoreReserved(submissions, submissions + {s}, ids, account);
    }
    ReservedGrows(firstAccounts, accounts, accounts', submissions + {s}, s, ids);
  }

  lemma MoreReserved(some: set<Submission>, more: set<Submission>, ids: Identities, account: string)
    requires some <= more && Reserved(some, ids, account)
    ensures Reserved(more, ids, account)
  {
    var s :| s in some && Brought(s, ids, account).Some?;
    assert s in more;
  }

  lemma MoreCame(d: Document, accounts: Accounts, d': Document, accounts': Accounts, some: set<Submission>, more: set<Submission>,
                 ids: Identities, personal: bool)
    requires some <= more && CameFrom(d, accounts, d', accounts', some, ids, personal)
    ensures CameFrom(d, accounts, d', accounts', more, ids, personal)
  {
    hide GrownTogether, AllArrived, Reserved;
    MoreArrived(d, d', accounts', some, more, ids, personal);
    forall account | Reserved(some, ids, account) ensures Reserved(more, ids, account) {
      MoreReserved(some, more, ids, account);
    }
  }

  lemma MoreArrived(d: Document, d': Document, accounts': Accounts, some: set<Submission>, more: set<Submission>, ids: Identities, personal: bool)
    requires some <= more && AllArrived(d, d', accounts', some, ids, personal)
    ensures AllArrived(d, d', accounts', more, ids, personal)
  {
    hide ArrivedFrom, Stored;
    forall k | |d.entries| <= k < |d'.entries| ensures Arrived(d, d', accounts', more, ids, personal, k) {
      assert Arrived(d, d', accounts', some, ids, personal, k);
      var s, d0, d1 :| s in some && ArrivedFrom(d, d0, d1, d', s, ids, personal, k) && Stored(s, ids, accounts');
      assert s in more;
    }
  }

  /** The secrets of one submission stay where they are while another one is imported. */
  lemma StaysStored(s: Submission, other: Submission, ids: Identities, accounts: Accounts, accounts': Accounts)
    requires ids.Collisionless() && s.key != other.key
    requires Stored(s, ids, accounts) && OnlyBrought(other, ids, accounts, accounts')
    ensures Stored(s, ids, accounts')
  {
    var a, b := ids.entryId(s.key), ids.entryId(other.key);
    assert |Passphrase(a)| != |b| && |Passphrase(b)| != |a|;
    assert Passphrase(a)[..|a|] == a && Passphrase(b)[..|b|] == b;
    assert forall account :: Brought(s, ids, account).Some? ==> Brought(other, ids, account).None?;
  }

  /** One more import, or none. */
  lemma ArrivedGrows(first: Document, d: Document, d': Document, accounts: Accounts, accounts': Accounts, submissions: set<Submission>,
                     s: Submission, ids: Identities, personal: bool)
    requires GrownTogether(first, d) && GrownTogether(d, d') && ids.Collisionless()
    requires forall x :: x in submissions ==> x.key != s.key
    requires AllArrived(first, d, accounts, submissions, ids, personal) && ImportEffect(d, d', accounts, accounts', s, ids, personal)
    ensures AllArrived(first, d', accounts', submissions + {s}, ids, personal)
  {
    EntriesGrow(d, d', accounts, accounts', s, ids, personal);
    hide GrownTogether, Stored, OnlyBrought, Imported, ImportEffect;
    forall k | |first.entries| <= k < |d'.entries| ensures Arrived(first, d', accounts', submissions + {s}, ids, personal, k) {
      if k < |d.entries| {
        assert Arrived(first, d, accounts, submissions, ids, personal, k);
        var x, d0, d1 :| x in submissions && ArrivedFrom(first, d0, d1, d, x, ids, personal, k) && Stored(x, ids, accounts);
        GrownTransitive(d1, d, d');
        StaysStored(x, s, ids, accounts, accounts');
        assert ArrivedFrom(first, d0, d1, d', x, ids, personal, k);
      } else {
        assert ArrivedFrom(first, d, d', d', s, ids, personal, k);
      }
    }
  }

  lemma EntriesGrow(d: Document, d': Document, accounts: Accounts, accounts': Accounts, s: Submission, ids: Identities, personal: bool)
    requires GrownTogether(d, d') && ImportEffect(d, d', accounts, accounts', s, ids, personal)
    ensures OnlyBrought(s, ids, accounts, accounts')
    ensures |d'.entries| == |d.entries|
            || (|d'.entries| == |d.entries| + 1 && Imported(d, d', s, ids, personal) && Stored(s, ids, accounts') && GrownTogether(d', d'))
  {
    GrownRefl(d');
    hide GrownTogether, OnlyBrought, Stored, NothingLeft, Carries, Meant, Cyclic;
  }

  lemma ReservedGrows(first: Accounts, before: Accounts, after: Accounts, submissions: set<Submission>, s: Submission, ids: Identities)
    requires s in submissions && OnlyBrought(s, ids, before, after)
    requires forall account :: At(before, account) == At(first, account) || Reserved(submissions, ids, account)
    ensures forall account :: At(after, account) == At(first, account) || Reserved(submissions, ids, account)
  {
    hide Brought;
  }

  /** The open imports of a scope are filed under the identities of their requests. */
  ghost predicate Keyed(active: seq<Record<Plan>>, scopeId: string, ids: Identities) {
    forall r :: r in active && Mine(r, scopeId) ==> ids.operationId(r.state.value.submission.key) == r.id
  }

  lemma KeysDiffer(active: seq<Record<Plan>>, i: nat, scopeId: string, ids: Identities)
    requires i < |active| && DistinctRecords(active) && Keyed(active, scopeId, ids) && Mine(active[i], scopeId)
    ensures forall x :: x in Submissions(active[..i], scopeId) ==> x.key != active[i].state.value.submission.key
  {
    forall x | x in Submissions(active[..i], scopeId) ensures x.key != active[i].state.value.submission.key {
      var r :| r in active[..i] && Mine(r, scopeId) && x == r.state.value.submission;
      var j :| 0 <= j < i && active[j] == r;
      assert active[j].id != active[i].id;
      assert r in active && active[i] in active;
    }
  }

  lemma NextSubmissions(active: seq<Record<Plan>>, i: nat, scopeId: string)
    requires i < |active|
    ensures Submissions(active[..i + 1], scopeId) <= Submissions(active, scopeId)
    ensures Submissions(active[..i + 1], scopeId) ==
            if Mine(active[i], scopeId) then Submissions(active[..i], scopeId) + {active[i].state.value.submission}
            else Submissions(active[..i], scopeId)
    ensures Mine(active[i], scopeId) ==> active[i].state.value.submission in Submissions(active, scopeId)
  {
    assert active[..i + 1] == active[..i] + [active[i]];
    assert active == active[..i + 1] + active[i + 1..];
  }

  /** The listing hands over exactly the open operations that were there before. */
  lemma ActiveIsListed(d: Disk<Plan>, d': Disk<Plan>, h: History, h': History, active: seq<Record<Plan>>)
    requires Sound(d, h) && ExactlyOpen(d'.records, active) && OpenUntouched(d, d', h') && OnlyShrinks(d, d') && h'.closed == h.closed
    ensures Waiting(d'.records, active)
    ensures forall r :: r in active <==> r.id in d.records && !r.Finished() && d.records[r.id] == r
    ensures forall scopeId :: Submissions(active, scopeId) == PendingIn(d.records, scopeId)
  {
    forall scopeId ensures Submissions(active, scopeId) == PendingIn(d.records, scopeId) {
      forall s | s in PendingIn(d.records, scopeId) ensures s in Submissions(active, scopeId) {
        var id :| id in d.records && d.records[id].status == Pending && d.records[id].kind == IMPORT_KIND && d.records[id].state.Some?
                  && d.records[id].state.value.submission.key.scopeId == scopeId && s == d.records[id].state.value.submission;
        assert d.records[id] in active;
      }
    }
  }

  lemma NextWaiting(records: map<Id, Record<Plan>>, active: seq<Record<Plan>>, i: nat, scopeId: string, d: Document, accounts: Accounts,
                    policy: Policy, ids: Identities)
    requires i < |active| && Waiting(records, active[i..]) && PlansSound(records, ids) && d.catalog.Some?
    ensures Mine(active[i], scopeId) ==>
              && active[i].id in records && records[active[i].id] == active[i]
              && PlanSound(active[i].state.value, ids) && ids.operationId(active[i].state.value.submission.key) == active[i].id
    ensures EachCompletable(active[i..], scopeId, d, accounts, policy) && Mine(active[i], scopeId) ==>
              Completable(d, accounts, active[i].state.value, policy)
  {
    hide PlanSound, Completable;
    assert active[i..][0] == active[i];
    assert active[i] in active[i..];
  }

  lemma MoreReplayed(active: seq<Record<Plan>>, i: nat, scopeId: string, h: History, d: Document, h': History, d': Document)
    requires i < |active| && AllReplayed(active[..i], scopeId, h, d) && d.catalog.Some? && d'.catalog.Some?
    requires h.closed.Keys <= h'.closed.Keys && d.catalog.value.imports <= d'.catalog.value.imports
    requires Mine(active[i], scopeId) ==> Replayed(active[i].id, active[i].state.value, h', d')
    ensures AllReplayed(active[..i + 1], scopeId, h', d')
  {
    hide HasRecord;
    GrownKeepsRecords(d.catalog.value.imports, d'.catalog.value.imports);
    assert active[..i + 1] == active[..i] + [active[i]];
  }

  /** Completing one import leaves every other one as completable as it was. */
  lemma StillCompletable(records: map<Id, Record<Plan>>, active: seq<Record<Plan>>, i: nat, scopeId: string, d: Document,
                         accounts: Accounts, d': Document, accounts': Accounts, personal: bool, policy: Policy, ids: Identities)
    requires i < |active| && DistinctRecords(active) && Waiting(records, active[i..]) && PlansSound(records, ids) && ids.Collisionless()
    requires d.catalog.Some? && d'.catalog.Some?
    requires if Mine(active[i], scopeId) then ResumeEffect(d, d', accounts, accounts', active[i].state.value, personal)
             else d' == d && accounts' == accounts
    ensures EachCompletable(active[i..], scopeId, d, accounts, policy) ==> EachCompletable(active[i + 1..], scopeId, d', accounts', policy)
  {
    hide Completable, ResumeEffect, PlanSound;
    if EachCompletable(active[i..], scopeId, d, accounts, policy) {
      forall r | r in active[i + 1..] && Mine(r, scopeId) ensures Completable(d', accounts', r.state.value, policy) {
        var j :| 0 <= j < |active[i + 1..]| && active[i + 1..][j] == r;
        assert active[i..][j + 1] == r && active[i..][0] == active[i];
        assert active[i].id != active[i + 1 + j].id;
        assert r in active[i..] && active[i] in active[i..];
        if Mine(active[i], scopeId) {
          CompletableStays(d, d', accounts, accounts', active[i].state.value, r.state.value, personal, policy, ids);
        }
      }
    }
  }

  lemma CompletableStays(d: Document, d': Document, accounts: Accounts, accounts': Accounts, p: Plan, q: Plan, personal: bool,
                         policy: Policy, ids: Identities)
    requires d.catalog.Some? && PlanSound(p, ids) && PlanSound(q, ids) && ids.Collisionless() && p.submission.key != q.submission.key
    requires ResumeEffect(d, d', accounts, accounts', p, personal) && Completable(d, accounts, q, policy)
    ensures d'.catalog.Some? && Completable(d', accounts', q, policy)
  {
    EffectGrowsLedger(d, d', p.submission, Some(p));
    GrownKeepsRecords(d.catalog.value.imports, d'.catalog.value.imports);
    AccountsApart(p, q, ids);
    LookupApart(d.entries, p.entry, q.entry.id);
    hide SecretWrites, HasRecord;
    assert d'.catalog.value.scopes == d.catalog.value.scopes;
    assert d'.entries == d.entries || d'.entries == d.entries + [p.entry];
    assert Available(accounts, SecretWrites(q.entry.id, q.submission.payload)) ==>
        Available(accounts', SecretWrites(q.entry.id, q.submission.payload));
  }

  /** Different requests use different accounts. */
  lemma AccountsApart(p: Plan, q: Plan, ids: Identities)
    requires PlanSound(p, ids) && PlanSound(q, ids) && ids.Collisionless() && p.submission.key != q.submission.key
    ensures p.entry.id != q.entry.id
    ensures SecretWrites(p.entry.id, p.submission.payload).Keys !! SecretWrites(q.entry.id, q.submission.payload).Keys
  {
    var a, b := p.entry.id, q.entry.id;
    assert |Passphrase(a)| != |b| && |Passphrase(b)| != |a|;
    assert Passphrase(a)[..|a|] == a && Passphrase(b)[..|b|] == b;
  }

  lemma {:induction false} LookupApart(entries: seq<Entry>, e: Entry, id: string)
    requires e.id != id
    ensures GetById(entries + [e], id) == GetById(entries, id)
  {
    if entries != [] {
      assert (entries + [e])[1..] == entries[1..] + [e];
      LookupApart(entries[1..], e, id);
    }
  }

  ghost predicate Waiting(records: map<Id, Record<Plan>>, active: seq<Record<Plan>>) {
    forall r :: r in active ==> r.id in records && !r.Finished() && records[r.id] == r
  }

  lemma GrownIsLonger(d: Document, d': Document)
    requires GrownTogether(d, d')
    ensures d.catalog.Some? && d'.catalog.Some? && d.catalog.value.imports <= d'.catalog.value.imports
  {
  }

  lemma StillWaiting(d: Disk<Plan>, d': Disk<Plan>, active: seq<Record<Plan>>, i: nat)
    requires i < |active| && DistinctRecords(active) && Waiting(d.records, active[i..])
    requires d' == d || OnlyTouches(d, d', active[i].id)
    ensures Waiting(d'.records, active[i + 1..])
  {
    var records: map<Id, Record<Plan>>, records': map<Id, Record<Plan>> := d.records, d'.records;
    assert records - {active[i].id} == records' - {active[i].id};
    forall r | r in active[i + 1..] ensures r.id in records' && records'[r.id] == r {
      var j :| 0 <= j < |active[i + 1..]| && active[i + 1..][j] == r;
      assert active[i].id != active[i + 1 + j].id;
      assert r in active[i..] by { assert active[i..][j + 1] == r; }
      assert r.id in records - {active[i].id};
    }
  }

  lemma EffectGrowsTogether(d: Document, d': Document, p: Plan, ids: Identities)
    requires d.catalog.Some? && PlanSound(p, ids) && Effect(d, d', p.submission, Some(p))
    ensures GrownTogether(d, d')
  {
    if d' == d {
      GrownRefl(d);
    } else if d' == WithImport(d, p) {
      GrownByImport(d, p, ids);
    } else {
      var status :| status != Accepted && d' == WithOutcome(d, p.submission, status);
      GrownByOutcome(d, p.submission, status);
    }
  }

  lemma SweepKeepsSound(disk: Disk<Plan>, disk': Disk<Plan>, h: History, h': History, d: Document, ids: Identities, added: seq<RequestKey>)
    requires ImporterSound(disk, h, d, ids, added) && OnlyShrinks(disk, disk') && h'.closed == h.closed
    ensures ImporterSound(disk', h', d, ids, added)
  {
  }

  lemma OutcomeKeepsSound(disk: Disk<Plan>, h: History, d: Document, d': Document, ids: Identities, added: seq<RequestKey>, s: Submission)
    requires ImporterSound(disk, h, d, ids, added) && DocumentSound(d') && Effect(d, d', s, None)
    ensures ImporterSound(disk, h, d', ids, added)
  {
    EffectGrowsLedger(d, d', s, None);
    GrownKeepsRecords(d.catalog.value.imports, d'.catalog.value.imports);
  }

  lemma BeginKeepsSound(disk: Disk<Plan>, disk': Disk<Plan>, h: History, d: Document, ids: Identities, added: seq<RequestKey>,
                        id: Id, p: Plan)
    requires ImporterSound(disk, h, d, ids, added) && PlanSound(p, ids) && ids.operationId(p.submission.key) == id
    requires OnlyTouches(disk, disk', id)
    requires id in disk'.records ==> disk'.records[id].state == Some(p)
    ensures ImporterSound(disk', h, d, ids, added)
  {
    forall k | k in disk'.records && k != id ensures k in disk.records && disk'.records[k] == disk.records[k] {
      assert k in disk'.records - {id};
    }
  }

  /** A pending import of the same request holds another submission. */
  predicate Rival(disk: Disk<Plan>, ids: Identities, s: Submission) {
    var id := ids.operationId(s.key);
    id in disk.records && !disk.records[id].Finished()
    && (disk.records[id].kind != IMPORT_KIND || disk.records[id].state.None? || disk.records[id].state.value.submission != s)
  }

  /** Neither ledger nor journal know the request. */
  predicate Unseen(disk: Disk<Plan>, d: Document, ids: Identities, s: Submission)
    requires d.catalog.Some?
  {
    !HasRecord(d.catalog.value.imports, s.key) && Read(disk, ids.operationId(s.key)).None?
  }

  ghost predicate Deserved(d: Document, d': Document, s: Submission, ids: Identities, policy: Policy, personal: bool, times: string,
                           plan: Option<Plan>)
    requires d.catalog.Some?
  {
    var status := FreshStatus(d, s, ids, policy, personal, times);
    if status == Accepted then plan.Some? && d' == WithImport(d, plan.value) else d' == WithOutcome(d, s, status)
  }

  /** The vault holds the entry of a request that the ledger does not know. */
  ghost predicate LostLine(d: Document, key: RequestKey)
    requires d.catalog.Some?
  {
    !HasRecord(d.catalog.value.imports, key) && exists e :: e in d.entries && e.catalogAttributes.origin == Some(key)
  }

  /** The document got exactly what this status calls for; an import with the given times and
    under the next revision. */
  ghost predicate Receives(d: Document, d': Document, s: Submission, ids: Identities, personal: bool, times: string, status: ImportStatus)
    requires d.catalog.Some?
  {
    if status == Accepted then
      exists e, revision :: ImportedAs(d, d', s, ids, personal, e, revision) && e.times == times && NextRevision(d.catalog.value, revision)
    else RefusedAs(d, d', s, status)
  }

  /** An import that was added has the next revision. */
  ghost predicate RevisionIsNew(d: Document, d': Document) {
    && d.catalog.Some? && d'.catalog.Some?
    && forall k :: |d.catalog.value.imports| <= k < |d'.catalog.value.imports| && d'.catalog.value.imports[k].status == Accepted ==>
         NextRevision(d.catalog.value, d'.catalog.value.imports[k].revision)
  }

  lemma NothingHappened(d: Document, accounts: Accounts, s: Submission, ids: Identities, personal: bool)
    requires d.catalog.Some?
    ensures ImportEffect(d, d, accounts, accounts, s, ids, personal) && RevisionIsNew(d, d)
  {
  }

  lemma ImportMeans(d: Document, p: Plan, ids: Identities, personal: bool)
    requires d.catalog.Some? && PlanSound(p, ids) && Joined(d, WithImport(d, p), p, personal)
    requires !HasRecord(d.catalog.value.imports, p.submission.key)
    ensures ImportedAs(d, WithImport(d, p), p.submission, ids, personal, p.entry, p.record.revision)
  {
    ImportIsNew(d, p);
    GetByIdFinds(d.entries, p.entry.id);
    GetByNameFinds(d.entries, p.entry.name);
    forall x | x in d.entries ensures x.id != p.entry.id && x.name != p.entry.name {
      assert x.id in Ids(d.entries);
    }
    hide Meant, Cyclic, GetById, GetByName;
  }

  /** What completing a plan does is what an import or a refusal does. */
  lemma EffectMeans(d: Document, d': Document, accounts: Accounts, accounts': Accounts, s: Submission, ids: Identities, personal: bool,
                    plan: Option<Plan>)
    requires d.catalog.Some? && (plan.Some? ==> PlanSound(plan.value, ids) && plan.value.submission == s)
    requires if plan.Some? then ResumeEffect(d, d', accounts, accounts', plan.value, personal)
             else Effect(d, d', s, None) && accounts' == accounts
                  && (d' != d ==> ScopeConfigured(d.catalog.value, s.key, s.vaultId))
    ensures ImportEffect(d, d', accounts, accounts', s, ids, personal)
  {
    if plan.Some? {
      WritesAreBrought(plan.value, ids);
      if d' == WithImport(d, plan.value) && d' != d {
        ImportMeans(d, plan.value, ids, personal);
      }
    }
    hide SecretWrites, PlanSound, Joined, ImportedAs, Passphrase, HasRecord;
    if d' != d && (plan.None? || d' != WithImport(d, plan.value)) {
      RefusalMeans(d, d', s);
    }
  }

  lemma RefusalMeans(d: Document, d': Document, s: Submission)
    requires d.catalog.Some? && !HasRecord(d.catalog.value.imports, s.key) && ScopeConfigured(d.catalog.value, s.key, s.vaultId)
    requires exists status :: status != Accepted && d' == WithOutcome(d, s, status)
    ensures Refused(d, d', s)
  {
    var status :| status != Accepted && d' == WithOutcome(d, s, status);
    assert RefusedAs(d, d', s, status);
  }

  lemma FreshMeans(d: Document, d': Document, s: Submission, ids: Identities, policy: Policy, personal: bool, times: string,
                   plan: Option<Plan>, accounts: Accounts, accounts': Accounts, done: bool)
    requires d.catalog.Some? && !HasRecord(d.catalog.value.imports, s.key)
    requires plan.Some? ==>
               && PlanSound(plan.value, ids) && plan.value.submission == s && plan.value.entry.times == times
               && NextRevision(d.catalog.value, plan.value.record.revision)
    requires if plan.Some? then ResumeEffect(d, d', accounts, accounts', plan.value, personal) else Effect(d, d', s, None)
    requires done ==> Deserved(d, d', s, ids, policy, personal, times, plan)
    ensures done ==> Receives(d, d', s, ids, personal, times, FreshStatus(d, s, ids, policy, personal, times))
    ensures RevisionIsNew(d, d')
  {
    hide FreshStatus, NextRevision, HasRecord, Joined, SecretWrites, OnlyReserved;
    if plan.Some? && d' == WithImport(d, plan.value) {
      ImportMeans(d, plan.value, ids, personal);
    }
    hide ImportedAs;
  }

  ghost function AddedBy(added: seq<RequestKey>, d: Document, d': Document, p: Plan): seq<RequestKey>
    requires d.catalog.Some?
  {
    if d' == WithImport(d, p) then added + [p.submission.key] else added
  }

  /** A closed import operation has its ledger line. */
  ghost predicate ClosedAnswered(h: History, imports: seq<ImportRecord>, ids: Identities) {
    forall key :: ids.operationId(key) in h.closed ==> HasRecord(imports, key)
  }

  ghost predicate ImporterSound(disk: Disk<Plan>, h: History, d: Document, ids: Identities, added: seq<RequestKey>) {
    && DocumentSound(d) && PlansSound(disk.records, ids)
    && ClosedAnswered(h, d.catalog.value.imports, ids) && AddedOnce(added, d.catalog.value.imports)
  }

  lemma EffectGrowsLedger(d: Document, d': Document, s: Submission, p: Option<Plan>)
    requires d.catalog.Some? && Effect(d, d', s, p)
    ensures d'.catalog.Some? && d.catalog.value.imports <= d'.catalog.value.imports
  {
  }

  lemma GrownKeepsRecords(imports: seq<ImportRecord>, imports': seq<ImportRecord>)
    requires imports <= imports'
    ensures forall r :: r in imports ==> r in imports'
    ensures forall key :: HasRecord(imports, key) ==> HasRecord(imports', key)
  {
    forall r | r in imports ensures r in imports' {
      var i :| 0 <= i < |imports| && imports[i] == r;
      assert imports'[i] == r;
    }
  }

  lemma AddedStaysOnce(added: seq<RequestKey>, d: Document, d': Document, p: Plan)
    requires d.catalog.Some? && AddedOnce(added, d.catalog.value.imports) && Effect(d, d', p.submission, Some(p))
    requires p.record.key == p.submission.key && p.record.status == Accepted
    ensures d'.catalog.Some? && AddedOnce(AddedBy(added, d, d', p), d'.catalog.value.imports)
  {
    EffectGrowsLedger(d, d', p.submission, Some(p));
    GrownKeepsRecords(d.catalog.value.imports, d'.catalog.value.imports);
    if d' == WithImport(d, p) {
      assert d' != d by {
        assert |d'.entries| == |d.entries| + 1;
      }
      assert d'.catalog.value.imports[|d.catalog.value.imports|] == p.record;
      assert !HasRecord(d.catalog.value.imports, p.submission.key);
      forall i | 0 <= i < |added| ensures added[i] != p.submission.key {
        assert added[i] in added;
        var r :| r in d.catalog.value.imports && r.key == added[i];
      }
    }
  }

  lemma ResumeKeepsSound(disk: Disk<Plan>, h: History, d: Document, disk': Disk<Plan>, h': History, d': Document,
                         ids: Identities, added: seq<RequestKey>, id: Id, p: Plan)
    requires ImporterSound(disk, h, d, ids, added) && ids.Collisionless() && DocumentSound(d')
    requires PlanSound(p, ids) && ids.operationId(p.submission.key) == id
    requires Effect(d, d', p.submission, Some(p)) && OnlyTouches(disk, disk', id)
    requires id in disk'.records && !disk'.records[id].Finished() && disk'.records[id].kind == IMPORT_KIND ==> disk'.records[id].state == Some(p)
    requires h'.closed.Keys <= h.closed.Keys + {id}
    requires id in h'.closed ==> HasRecord(d'.catalog.value.imports, p.submission.key)
    ensures ImporterSound(disk', h', d', ids, AddedBy(added, d, d', p))
  {
    EffectGrowsLedger(d, d', p.submission, Some(p));
    GrownKeepsRecords(d.catalog.value.imports, d'.catalog.value.imports);
    AddedStaysOnce(added, d, d', p);
    forall k | k in disk'.records && k != id ensures k in disk.records && disk'.records[k] == disk.records[k] {
      assert k in disk'.records - {id};
    }
  }

  datatype Planned = Ready(plan: Plan) | Invalid | Collides | Broken

  /** The document got exactly what this status calls for. */
  ghost predicate Follows(d: Document, d': Document, p: Plan, status: ImportStatus)
    requires d.catalog.Some?
  {
    d' == if status == Accepted then WithImport(d, p) else WithOutcome(d, p.submission, status)
  }

  /** What completing a plan may do to document and accounts, whatever its ending: the entry
    never appears without its secrets, and no refusal is recorded while one of them is left. */
  ghost predicate ResumeEffect(d: Document, d': Document, accounts: Accounts, accounts': Accounts, p: Plan, personal: bool)
    requires d.catalog.Some?
  {
    var writes := SecretWrites(p.entry.id, p.submission.payload);
    && Effect(d, d', p.submission, Some(p)) && Joined(d, d', p, personal) && OnlyReserved(accounts, accounts', writes)
    && (d' == WithImport(d, p) ==> Holds(accounts', writes))
    && (d' != d && d' != WithImport(d, p) ==> Withdrawn(accounts', writes))
  }

  lemma NoEffect(d: Document, accounts: Accounts, p: Plan, personal: bool)
    requires d.catalog.Some?
    ensures ResumeEffect(d, d, accounts, accounts, p, personal)
  {
    ImportIsNew(d, p);
  }

  lemma ImportIsNew(d: Document, p: Plan)
    requires d.catalog.Some?
    ensures WithImport(d, p) != d
    ensures forall status :: WithOutcome(d, p.submission, status) != WithImport(d, p)
  {
    assert |WithImport(d, p).entries| != |d.entries|;
  }

  lemma WritesHaveValues(entryId: string, payload: Payload)
    ensures forall account :: account in SecretWrites(entryId, payload) ==> SecretWrites(entryId, payload)[account].Some?
  {
  }

  /** The receipt is that of the request's ledger line, or tells a different submission of the
    conflict. */
  ghost predicate Answered(d: Document, s: Submission, receipt: Receipt)
    requires d.catalog.Some?
  {
    exists r :: r in d.catalog.value.imports && r.key == s.key
      && receipt == if r.submission == s then r.receipt else Receipt(s, Conflict, None, 0)
  }

  ghost predicate PlansSound(records: map<Id, Record<Plan>>, ids: Identities) {
    forall id :: id in records && !records[id].Finished() && records[id].kind == IMPORT_KIND ==>
      && records[id].state.Some? && PlanSound(records[id].state.value, ids)
      && ids.operationId(records[id].state.value.submission.key) == id
  }

  /** No request's entry was added twice, and each addition left its accepted ledger line. */
  ghost predicate AddedOnce(added: seq<RequestKey>, imports: seq<ImportRecord>) {
    && (forall i, j :: 0 <= i < j < |added| ==> added[i] != added[j])
    && (forall k :: k in added ==> exists r :: r in imports && r.key == k && r.status == Accepted)
  }

  // ---------- any run ----------

  /** A submission arrives, pending imports are replayed, or somebody else changes the vault. */
  datatype Step =
    | Submit(submission: Submission, policy: Policy, times: string, now: nat)
    | Replay(scopeId: string, policy: Policy, now: nat)
    | Interfere(document: Document, accounts: Accounts)

  /** Other mutations may do anything to entries, bindings, intents and secrets; all of them
    copy the import ledger unchanged. */
  function Interfered(current: Document, foreign: Document): Document
    requires current.catalog.Some? && foreign.catalog.Some?
  {
    foreign.(catalog := Some(foreign.catalog.value.(imports := current.catalog.value.imports)))
  }

  /** Any run of submissions, replays and foreign changes, each import cut short anywhere: the
    ledger only grows and keeps one line per request, and no request's entry is added twice. */
  method AnyRun(importer: ProjectImporter, script: seq<Step>)
    requires importer.Valid()
    requires forall step :: step in script && step.Interfere? ==> WellFormed(step.document) && step.document.catalog.Some?
    modifies importer, importer.journal, importer.store, importer.backend
    ensures importer.Valid()
    ensures importer.store.document.catalog.Some? && old(importer.store.document).catalog.Some?
    ensures UniqueKeys(importer.store.document.catalog.value.imports)
    ensures old(importer.store.document).catalog.value.imports <= importer.store.document.catalog.value.imports
    ensures old(importer.added) <= importer.added
    ensures forall i, j :: 0 <= i < j < |importer.added| ==> importer.added[i] != importer.added[j]
  {
    for i := 0 to |script|
      invariant importer.Valid()
      invariant old(importer.store.document).catalog.value.imports <= importer.store.document.catalog.value.imports
      invariant old(importer.added) <= importer.added
    {
      match script[i]
      case Submit(submission, policy, times, now) =>
        ghost var d := importer.store.document;
        var o, receipt;
        ghost var plan;
        o, receipt, plan := importer.Accept(submission, policy, times, now, false);
        EffectGrowsLedger(d, importer.store.document, submission, plan);
      case Replay(scopeId, policy, now) =>
        var o := importer.Recover(scopeId, policy, now, false);
      case Interfere(document, accounts) =>
        importer.store.document := Interfered(importer.store.document, document);
        importer.backend.accounts := accounts;
    }
  }
}
