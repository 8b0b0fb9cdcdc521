/** The durable mutation pipeline over journal, metadata store and secret backend. */
module MasterMutation {
  import opened Wrappers
  import opened Faults
  import opened JournalDisk
  import Ledger
  import opened Journal
  import opened Metadata
  import opened Store
  import opened Mutation
  import opened MutationTheory
  import opened MutationMeaning
  import opened SecretBackend
  import opened MutationProtocol

  const APPLIED := "{\"status\":\"applied\"}"

  /** The receipt of a master mutation is small enough for the ledger. */
  lemma MutationReceiptFits(r: Record<State>, now: nat)
    requires r.kind == KIND
    ensures Fits([Terminal(r, Completed, Some(APPLIED), None, now).Receipt()])
    ensures Fits([Terminal(r, Failed, None, Some("operation_failed"), now).Receipt()])
  {
    var done := Terminal(r, Completed, Some(APPLIED), None, now).Receipt();
    var failed := Terminal(r, Failed, None, Some("operation_failed"), now).Receipt();
    assert SizeSum([done]) == done.ReceiptSize() && SizeSum([failed]) == failed.ReceiptSize();
  }

  class MasterMutationManager {
    const journal: OperationJournal<State>
    const store: MetadataStore
    const backend: Backend
    ghost var origin: (Document, Accounts)
    ghost var txns: seq<Txn>

    constructor (journal: OperationJournal<State>, store: MetadataStore, backend: Backend)
      requires journal.Valid() && !GuardRefuses(journal.disk.index) && WellFormed(store.document)
      ensures Valid() && this.journal == journal && this.store == store && this.backend == backend
      ensures txns == [] && origin == (store.document, backend.accounts)
    {
      this.journal, this.store, this.backend := journal, store, backend;
      origin := (store.document, backend.accounts);
      txns := [];
    }

    ghost predicate Valid()
      reads this, journal, store, backend
    {
      && journal.Valid() && AllRequested(txns)
      && PipelineInvariant(origin, txns, journal.disk, journal.history, store.document, backend.accounts)
    }

    ghost predicate Fresh(id: Id)
      reads this, journal
    {
      FreshIn(journal.disk, journal.history, txns, id)
    }

    /** The journal is sound and this mutation can be recovered from what is on disk. */
    ghost predicate Held(t: Txn)
      reads journal, store, backend
    {
      && journal.Valid() && WellStarted(t)
      && Recoverable(t, journal.disk, journal.history, store.document, backend.accounts)
    }

    /** The mutation is still open and its record holds this state. */
    ghost predicate OpenWith(t: Txn, s: State)
      reads journal, store, backend
    {
      && Held(t) && t.id !in journal.history.closed
      && t.id in journal.disk.records && journal.disk.records[t.id].state == Some(s)
    }

    method StageOpen(ghost t: Txn, s: State, id: Id, stage: string, state: Option<State>, now: nat, calm: bool) returns (o: Outcome)
      requires OpenWith(t, s) && id == t.id
      requires state.Some? ==> SameMutation(state.value, t.state) && state.value.after.Some? && AppliedTo(t, state.value.after.value)
      requires state.Some? ==> store.document == t.document
                               || (store.document == state.value.after.value
                                   && backend.accounts == Imposed(t.accounts, t.state.accountsAfter))
      modifies journal
      ensures OpenWith(t, s) || (state.Some? && OpenWith(t, state.value))
      ensures Confined(old(journal.disk), old(journal.history), journal.disk, journal.history, id)
      ensures o == Done ==> OpenWith(t, if state.Some? then state.value else s)
      ensures calm ==> o == Done
    {
      o := journal.Stage(id, stage, state, now, calm);
    }

    /** Brings the accounts of an open mutation to one side.  The metadata is still at its
      source, or the accounts are already complete. */
    method ImposeAfter(ghost t: Txn, s: State, calm: bool) returns (o: Outcome)
      requires OpenWith(t, s)
      modifies backend
      ensures OpenWith(t, s)
      ensures o == Done ==> backend.accounts == Imposed(t.accounts, t.state.accountsAfter)
      ensures calm ==> o == Done
    {
      assert s.accountsAfter == t.state.accountsAfter;
      ghost var prior := backend.accounts;
      o := ApplyAccounts(backend, s.accountsAfter, calm);
      BetweenComposes(t.accounts, t.state.accountsAfter, prior, backend.accounts);
      MixturesSettle(t.accounts, t.state.accountsAfter, prior);
      if prior == Imposed(t.accounts, t.state.accountsAfter) {
        ImposedIsStable(t.accounts, t.state.accountsAfter, backend.accounts);
      }
    }

    /** Accounts, then the durable announcement of the metadata step. */
    method Announce(ghost t: Txn, s: State, next: State, id: Id, now: nat, calm: bool) returns (o: Outcome)
      requires OpenWith(t, s) && id == t.id && store.document == t.document
      requires SameMutation(next, t.state) && next.after.Some? && AppliedTo(t, next.after.value)
      modifies journal, backend
      ensures Held(t) && Confined(old(journal.disk), old(journal.history), journal.disk, journal.history, id)
      ensures OpenWith(t, s) || OpenWith(t, next)
      ensures o == Done ==> OpenWith(t, next) && backend.accounts == Imposed(t.accounts, t.state.accountsAfter)
      ensures calm ==> o == Done
    {
      o := ImposeAfter(t, s, calm);
      if o != Done { return; }
      o := StageOpen(t, s, id, "backend_applied", None, now, calm);
      if o != Done { return; }
      o := StageOpen(t, s, id, "metadata_prepared", Some(next), now, calm);
    }

    /** Compensation of a failed mutation whose metadata never moved: restores the accounts
      and closes the operation, or leaves it open for recovery. */
    method Compensate(ghost t: Txn, s: State, id: Id, now: nat, calm: bool) returns (o: Outcome, complete: bool)
      requires OpenWith(t, s) && id == t.id && store.document == t.document
      modifies journal, backend
      ensures Held(t) && Confined(old(journal.disk), old(journal.history), journal.disk, journal.history, id)
      ensures o != Done
      ensures id !in journal.history.closed ==> OpenWith(t, s)
      ensures id in journal.history.closed ==> BeforeSide(t, store.document, backend.accounts)
      ensures !complete ==> id !in journal.history.closed
      ensures calm ==> complete && id in journal.history.closed && o == Raised
    {
      assert s.accountsAfter == t.state.accountsAfter && s.accountsBefore == t.state.accountsBefore;
      ghost var prior := backend.accounts;
      var failures;
      o, failures := RestoreAccounts(backend, s.accountsBefore, calm);
      BetweenComposes(t.accounts, t.state.accountsAfter, prior, backend.accounts);
      MixturesSettle(t.accounts, t.state.accountsAfter, prior);
      complete := failures == 0;
      if o == Crashed { return o, false; }
      if failures > 0 { return Raised, false; }
      MutationReceiptFits(journal.disk.records[id], now);
      o := journal.Close(id, Failed, None, Some("operation_failed"), now, calm);
      if o == Done { o := Raised; }
    }

    /** Inside the metadata transaction: accounts, then the durable announcement of the
      metadata step.  Any failure is compensated before the transaction is abandoned. */
    method ExecuteInside(ghost t: Txn, s: State, id: Id, now: nat, calm: bool) returns (o: Outcome)
      requires OpenWith(t, s) && id == t.id && store.document == t.document
      modifies journal, backend
      ensures Held(t) && Confined(old(journal.disk), old(journal.history), journal.disk, journal.history, id)
      ensures id !in journal.history.closed ==> OpenWith(t, s)
      ensures o == Done ==> OpenWith(t, s) && backend.accounts == Imposed(t.accounts, t.state.accountsAfter)
      ensures calm ==> o == Done
    {
      o := Announce(t, s, s, id, now, calm);
      if o == Raised {
        var complete;
        o, complete := Compensate(t, s, id, now, false);
        if o == Raised && !complete {
          o := StageOpen(t, s, id, "rollback_required", Some(s), now, false);
          if o == Done { o := Raised; }
        }
      }
    }

    /** Proves that metadata and accounts are on the after side, then closes the operation. */
    method CommitRecord(ghost t: Txn, ghost s0: State, id: Id, now: nat, calm: bool) returns (o: Outcome)
      requires OpenWith(t, s0) && id == t.id
      requires backend.accounts == Imposed(t.accounts, t.state.accountsAfter)
      modifies journal
      ensures Held(t) && Confined(old(journal.disk), old(journal.history), journal.disk, journal.history, id)
      ensures o == Done ==>
                && id in journal.history.closed && journal.history.closed[id] == Completed
                && !HasMarker(journal.disk.index, id) && id !in journal.disk.records
                && AfterSide(t, store.document, backend.accounts)
      ensures calm && s0.after == Some(store.document) && MatchesAfter(store.document, t.state) ==> o == Done
    {
      o := Attempt(calm);
      if o != Done { return; }
      var record := Read(journal.disk, id);
      if record.None? || record.value.state.None? { return Raised; }
      var s := record.value.state.value;
      RevisionIsInert(s, t.state, store.document, now);
      hide Apply, Imposed, Between, Without, LedgerSound, RecordsSound, ClosedSound;
      o := Attempt(calm);
      if o != Done { return; }
      if !MatchesAfter(store.document, s) || (s.after.Some? && store.document != s.after.value) { return Raised; }
      o := StageOpen(t, s, id, "metadata_committed", Some(s.(after := Some(store.document))), now, calm);
      if o != Done { return; }
      MutationReceiptFits(journal.disk.records[id], now);
      assert AfterSide(t, store.document, backend.accounts);
      o := journal.Close(id, Completed, Some(APPLIED), None, now, calm);
    }

    /** The metadata is still at its source: prepares the change again, brings the accounts to
      the after side, announces the new result and commits it. */
    method Reapply(ghost t: Txn, s: State, id: Id, now: nat, calm: bool) returns (o: Outcome, ghost reached: State)
      requires OpenWith(t, s) && id == t.id && store.document == t.document
      modifies journal, backend, store
      ensures Held(t) && Confined(old(journal.disk), old(journal.history), journal.disk, journal.history, id)
      ensures WellFormed(store.document)
      ensures o == Done ==> OpenWith(t, reached) && reached.after == Some(store.document)
                            && backend.accounts == Imposed(t.accounts, t.state.accountsAfter)
      ensures calm ==> o == Done
    {
      reached := s;
      RevisionIsInert(s, t.state, store.document, now);
      ApplyAgain(t, now);
      var applied := Apply(store.document, s, now);
      if applied.Err? { return Raised, reached; }
      var next := s.(after := Some(applied.value));
      o := Announce(t, s, next, id, now, calm);
      if o != Done { return; }
      reached := next;
      ApplyKeepsWellFormed(t.document, t.state, now);
      o := store.Commit(applied.value, calm);
    }

    /** Completes one open mutation forward from wherever it was interrupted. */
    method RecoverRecord(ghost t: Txn, record: Record<State>, now: nat, calm: bool) returns (o: Outcome)
      requires record.state.Some? && OpenWith(t, record.state.value) && record.id == t.id
      requires WellFormed(store.document)
      modifies journal, backend, store
      ensures Held(t) && Confined(old(journal.disk), old(journal.history), journal.disk, journal.history, t.id)
      ensures WellFormed(store.document)
      ensures o == Done ==>
                && t.id in journal.history.closed && journal.history.closed[t.id] == Completed
                && !HasMarker(journal.disk.index, t.id) && t.id !in journal.disk.records
                && AfterSide(t, store.document, backend.accounts)
      ensures o == Done ==> !SelfReferring(t.state)
      ensures calm && !SelfReferring(t.state) ==> o == Done
    {
      var s := record.state.value;
      ghost var reached := s;
      o := Attempt(calm);
      if o != Done { return; }
      RevisionIsInert(s, t.state, store.document, now);
      RequiredSecretsStay(t, s, backend.accounts);
      if !RequiredSecretsPresent(s, backend.accounts) { return Raised; }
      if s.after == Some(store.document) || MatchesAfter(store.document, s) {
        MatchIsResult(t, s, store.document);
        o := ImposeAfter(t, s, calm);
      } else if store.document == s.before {
        o, reached := Reapply(t, s, record.id, now, calm);
      } else {
        return Raised;
      }
      if o != Done { return; }
      ResultMatches(t, store.document);
      o := CommitRecord(t, reached, record.id, now, calm);
    }

    /** The handler around the whole transaction: compensates only while the old revision is
      still proven to be the stored one. */
    method HandleFailure(ghost t: Txn, id: Id, now: nat, calm: bool) returns (o: Outcome)
      requires Held(t) && id == t.id
      requires id !in journal.history.closed ==> id in journal.disk.records
      modifies journal, backend
      ensures Held(t) && Confined(old(journal.disk), old(journal.history), journal.disk, journal.history, id)
      ensures o != Done
      ensures store.document != t.document || id in old(journal.history).closed ==>
                journal.disk == old(journal.disk) && backend.accounts == old(backend.accounts)
      ensures id in journal.history.closed && id !in old(journal.history).closed ==> BeforeSide(t, store.document, backend.accounts)
      ensures calm && store.document == t.document && id !in old(journal.history).closed ==>
                id in journal.history.closed && BeforeSide(t, store.document, backend.accounts)
    {
      o := Attempt(calm);
      if o == Done { o := Raised; } else { return; }
      var latest := Read(journal.disk, id);
      FindReceiptFinds(journal.disk.receipts, id);
      if latest.None? || latest.value.Finished() || latest.value.state.None? { return; }
      var s := latest.value.state.value;
      if store.document == s.before {
        var complete;
        o, complete := Compensate(t, s, id, now, calm);
      }
    }

    /** Nothing has happened yet: the marker, then the record with both images. */
    method BeginRecord(ghost t: Txn, s: State, id: Id, now: nat, calm: bool) returns (o: Outcome)
      requires journal.Valid() && WellStarted(t) && id == t.id
      requires id !in journal.history.closed && id !in journal.disk.records
      requires BeforeSide(t, store.document, backend.accounts)
      requires SameMutation(s, t.state) && s.after.Some? && AppliedTo(t, s.after.value)
      modifies journal
      ensures Held(t) && Confined(old(journal.disk), old(journal.history), journal.disk, journal.history, id)
      ensures o == Done ==> OpenWith(t, s)
      ensures calm && Unseen(old(journal.disk), id) ==> o == Done
    {
      hide Apply, MatchesAfter, Imposed, SnapshotAccounts, Sound, Without, WellStarted, Read, HasRoom;
      BetweenStart(t.accounts, t.state.accountsAfter);
      o := journal.Begin(id, KIND, Some(s), now, calm);
    }

    /** The body of the metadata transaction and its commit. */
    method ExecuteAndCommit(ghost t: Txn, s: State, next: Document, id: Id, now: nat, calm: bool) returns (o: Outcome)
      requires OpenWith(t, s) && id == t.id && store.document == t.document && s.after == Some(next) && WellFormed(next)
      modifies journal, store, backend
      ensures Held(t) && Confined(old(journal.disk), old(journal.history), journal.disk, journal.history, id) && WellFormed(store.document)
      ensures id !in journal.history.closed ==> OpenWith(t, s)
      ensures o == Done ==> OpenWith(t, s) && store.document == next
                            && backend.accounts == Imposed(t.accounts, t.state.accountsAfter)
      ensures calm ==> o == Done
    {
      o := ExecuteInside(t, s, id, now, calm);
      if o == Done {
        o := store.Commit(next, calm);
      }
    }

    /** The mutation from the journal's marker to its receipt, given what was prepared. */
    method RunPrepared(ghost t: Txn, s: State, next: Document, id: Id, now: nat, calm: bool) returns (o: Outcome)
      requires journal.Valid() && WellStarted(t) && id == t.id
      requires id !in journal.history.closed && id !in journal.disk.records
      requires BeforeSide(t, store.document, backend.accounts)
      requires SameMutation(s, t.state) && s.after == Some(next) && Apply(t.document, t.state, now) == Ok(next)
      modifies journal, store, backend
      ensures Held(t) && Confined(old(journal.disk), old(journal.history), journal.disk, journal.history, id) && WellFormed(store.document)
      ensures o == Done ==>
                && id in journal.history.closed && journal.history.closed[id] == Completed
                && !HasMarker(journal.disk.index, id) && AfterSide(t, store.document, backend.accounts)
      ensures o == Done ==> store.document == next
      ensures calm && Unseen(old(journal.disk), id) && !SelfReferring(t.state) ==> o == Done
    {
      hide MatchesAfter, Imposed, SnapshotAccounts, Between, Recoverable, Sound, Without, PreparedFor;
      ApplyKeepsWellFormed(t.document, t.state, now);
      o := BeginRecord(t, s, id, now, calm);
      if o != Done { return; }
      o := ExecuteAndCommit(t, s, next, id, now, calm);
      if o == Crashed { return; }
      if o == Raised {
        o := HandleFailure(t, id, now, false);
        return;
      }
      ResultMatches(t, next);
      o := CommitRecord(t, s, id, now, calm);
    }

    /** The mutation joins the chain and runs. */
    method Launch(ghost t: Txn, s: State, next: Document, id: Id, now: nat, calm: bool) returns (o: Outcome)
      requires Valid() && !GuardRefuses(journal.disk.index) && Fresh(id) && id == t.id && WellStarted(t)
      requires BeforeSide(t, store.document, backend.accounts)
      requires SameMutation(s, t.state) && s.after == Some(next) && Apply(t.document, t.state, now) == Ok(next)
      requires Prepare(t.document, t.accounts, t.request) == Ok(t.state)
      modifies this, journal, store, backend
      ensures Valid() && origin == old(origin) && txns == old(txns) + [t]
      ensures ConsumesOnly(old(journal.disk), old(journal.history), old(txns), journal.disk, journal.history, txns, id)
      ensures o == Done ==> !GuardRefuses(journal.disk.index) && AfterSide(t, store.document, backend.accounts) && store.document == next
      ensures calm && Unseen(old(journal.disk), id) && !SelfReferring(t.state) ==> o == Done
    {
      assert id !in journal.history.closed && id !in journal.disk.records;
      NextMutation(origin, txns, t, journal.disk, journal.history);
      hide Recoverable, Without, Sound, WellStarted, Prepare, Apply, AfterSide, FreshIn, Chain, HasRoom;
      txns := txns + [t];
      o := RunPrepared(t, s, next, id, now, calm);
      ConfinedKeepsFresh(old(journal.disk), old(journal.history), journal.disk, journal.history, old(txns), txns, id);
      InvariantAfter(origin, txns, t, old(journal.disk), journal.disk, journal.history, store.document, backend.accounts);
      if o == Done {
        NoMarkerLeft(old(journal.disk), journal.disk, id);
      }
    }

    /** One ordinary mutation.  Everything that can be refused is refused before the journal
      knows of it; from then on the pipeline invariant holds at every ending.  A success did all
      that was asked for, and without faults every request that the vault admits succeeds, but
      the deletion of an entry that refers to itself. */
    method Transact(r: Request, id: Id, now: nat, calm: bool) returns (o: Outcome)
      requires Valid() && !GuardRefuses(journal.disk.index)
      requires Fresh(id)
      modifies this, journal, store, backend
      ensures Valid() && origin == old(origin)
      ensures ConsumesOnly(old(journal.disk), old(journal.history), old(txns), journal.disk, journal.history, txns, id)
      ensures txns == old(txns) ==>
                store.document == old(store.document) && backend.accounts == old(backend.accounts) && journal.disk == old(journal.disk)
      ensures txns != old(txns) ==>
                && Prepare(old(store.document), old(backend.accounts), r).Ok?
                && txns == old(txns) + [Txn(id, old(store.document), old(backend.accounts), r,
                                            Prepare(old(store.document), old(backend.accounts), r).value)]
      ensures o == Done ==>
                && txns != old(txns) && !GuardRefuses(journal.disk.index)
                && AfterSide(txns[|txns| - 1], store.document, backend.accounts)
      ensures o == Done ==>
                Fulfilled(r, old(store.document), old(backend.accounts), store.document, backend.accounts, now)
      ensures o == Done || txns != old(txns) ==> Grantable(r, old(store.document), old(backend.accounts))
      ensures o == Done ==> !DeletesItself(r, old(store.document))
      ensures calm && Unseen(old(journal.disk), id) && Grantable(r, old(store.document), old(backend.accounts)) ==>
                (o == Done <==> !DeletesItself(r, old(store.document)))
    {
      hide Recoverable, Without, Sound, MatchesAfter, Imposed, FreshIn, HasRoom, GuardRefuses, Prepare, Apply, Grantable, Fulfilled,
        RequiredSecretsPresent, DeletesItself, SelfReferring, AllRequested, WellStarted, Chain, WellFormed, PipelineInvariant, Read;
      o := Attempt(calm);
      if o != Done { return; }
      assert WellFormed(store.document) by { InvariantKeepsDocument(origin, txns, journal.disk, journal.history, store.document, backend.accounts); }
      GrantedIff(store.document, backend.accounts, r, now);
      var prepared := Prepare(store.document, backend.accounts, r);
      if prepared.Err? { return Raised; }
      var s := prepared.value;
      if !RequiredSecretsPresent(s, backend.accounts) { return Raised; }
      var applied := Apply(store.document, s, now);
      if applied.Err? { return Raised; }
      ghost var t := Txn(id, store.document, backend.accounts, r, s);
      StartsWell(t, applied.value, now);
      o := Launch(t, s.(after := Some(applied.value)), applied.value, id, now, calm);
    }

    /** Settles one recorded mutation: completes an open one forward, finishes the close of a
      closed one. */
    method Settle(ghost t: Txn, id: Id, now: nat, calm: bool) returns (o: Outcome)
      requires Held(t) && id == t.id && WellFormed(store.document)
      modifies journal, store, backend
      ensures Held(t) && Confined(old(journal.disk), old(journal.history), journal.disk, journal.history, id) && WellFormed(store.document)
      ensures o == Done ==> !HasMarker(journal.disk.index, id) && id !in journal.disk.records
      ensures o == Done && HasMarker(old(journal.disk).index, id) ==> Settleable(t, old(journal.disk))
      ensures calm && Settleable(t, old(journal.disk)) ==> o == Done
    {
      o := Attempt(calm);
      if o != Done { return; }
      var record := Read(journal.disk, id);
      FindReceiptFinds(journal.disk.receipts, id);
      if record.None? || record.value.kind != KIND { return Raised; }
      if record.value.Finished() {
        o := journal.Close(id, record.value.status, None, Some("operation_failed"), now, calm);
      } else {
        o := RecoverRecord(t, record.value, now, calm);
      }
    }

    method RecoverIndexed(id: Id, now: nat, calm: bool) returns (o: Outcome)
      requires Valid() && txns != [] && id == txns[|txns| - 1].id
      modifies journal, store, backend
      ensures Valid()
      ensures KeepsFresh(old(journal.disk), old(journal.history), journal.disk, journal.history, txns)
      ensures o == Done ==> !GuardRefuses(journal.disk.index)
      ensures o == Done ==> Cleared(old(journal.disk), journal.disk, id)
      ensures o == Done && HasMarker(old(journal.disk).index, id) ==> Settleable(txns[|txns| - 1], old(journal.disk))
      ensures calm && Settleable(txns[|txns| - 1], old(journal.disk)) ==> o == Done
    {
      hide Apply, MatchesAfter, Imposed, SnapshotAccounts, Between, Recoverable, Sound, WellStarted, Without, Settleable, Cleared, FreshIn;
      ghost var t := txns[|txns| - 1];
      o := Settle(t, id, now, calm);
      ConfinedKeepsFresh(old(journal.disk), old(journal.history), journal.disk, journal.history, old(txns), txns, id);
      UsedAlready(old(journal.disk), old(journal.history), journal.disk, journal.history, txns, t);
      InvariantAfter(origin, txns, t, old(journal.disk), journal.disk, journal.history, store.document, backend.accounts);
      if o == Done {
        NoMarkerLeft(old(journal.disk), journal.disk, id);
        FinishedIsGone(old(journal.disk), journal.disk, id);
      }
    }

    /** Authenticates what is left and refuses an open master mutation without a marker. */
    method Sweep(refs: seq<Marker>, calm: bool) returns (o: Outcome)
      requires Valid()
      modifies journal
      ensures Valid()
      ensures KeepsFresh(old(journal.disk), old(journal.history), journal.disk, journal.history, txns)
      ensures o == Done ==> !GuardRefuses(journal.disk.index)
      ensures o == Done ==> Listable(old(journal.disk).index, old(journal.disk).records)
      ensures calm && Listable(old(journal.disk).index, old(journal.disk).records) && !GuardRefuses(old(journal.disk).index) ==> o == Done
    {
      var active;
      ghost var terminal;
      o, active, terminal := journal.ListUnfinished(calm);
      SweepKeepsInvariant(origin, txns, old(journal.disk), journal.disk, old(journal.history), journal.history,
                          store.document, backend.accounts);
      if o != Done { return; }
      if Unindexed(active, refs) {
        UnindexedIsMarked(journal.disk, journal.history, active, refs);
        return Raised;
      }
      if GuardRefuses(journal.disk.index) { return Raised; }
    }

    /** Goes through the markers that were indexed when recovery began. */
    method RecoverAll(refs: seq<Marker>, now: nat, calm: bool) returns (o: Outcome)
      requires Valid() && refs == OfKind(journal.disk.index)
      modifies journal, store, backend
      ensures Valid()
      ensures KeepsFresh(old(journal.disk), old(journal.history), journal.disk, journal.history, txns)
      ensures o == Done ==> !GuardRefuses(journal.disk.index)
      ensures o == Done && GuardRefuses(old(journal.disk).index) ==>
                Settleable(txns[|txns| - 1], old(journal.disk)) && Cleared(old(journal.disk), journal.disk, txns[|txns| - 1].id)
      ensures !GuardRefuses(old(journal.disk).index) ==> o == Done && journal.disk == old(journal.disk)
      ensures calm && GuardRefuses(old(journal.disk).index) && Settleable(txns[|txns| - 1], old(journal.disk)) ==> o == Done
    {
      hide PipelineInvariant, AllRequested, OfKind, Settleable, Sound, GuardRefuses, Cleared, FreshIn;
      o := Done;
      ghost var first, memory := journal.disk, journal.history;
      RefsAreLatest(origin, txns, journal.disk, journal.history, store.document, backend.accounts, refs);
      if refs == [] { return; }
      ghost var t := txns[|txns| - 1];
      hide KeepsFresh;
      for i := 0 to |refs|
        invariant Valid() && o == Done
        invariant if i == 0 then journal.disk == first && journal.history == memory
                  else
                    && KeepsFresh(first, memory, journal.disk, journal.history, txns)
                    && !GuardRefuses(journal.disk.index) && Settleable(t, first) && Cleared(first, journal.disk, t.id)
      {
        assert i == 0;
        o := RecoverIndexed(refs[i].id, now, calm);
        if o != Done { return; }
      }
    }

    /** Recovers every indexed master mutation, then refuses to go on while any is left. */
    method Recover(now: nat, calm: bool) returns (o: Outcome)
      requires Valid()
      modifies journal, store, backend
      ensures Valid()
      ensures KeepsFresh(old(journal.disk), old(journal.history), journal.disk, journal.history, txns)
      ensures o == Done ==> !GuardRefuses(journal.disk.index)
      ensures o == Done && txns != [] ==> Settled(txns[|txns| - 1], store.document, backend.accounts)
      ensures o == Done ==> CanRecover(txns, old(journal.disk))
      ensures calm && CanRecover(txns, old(journal.disk)) ==> o == Done
    {
      hide PipelineInvariant, AllRequested, Settleable, Sound, Settled, FreshIn, CanRecover, Listable, GuardRefuses, KeepsFresh, OfKind;
      KeepsFreshRefl(journal.disk, journal.history, txns);
      o := Attempt(calm);
      if o != Done { return; }
      InvariantKeepsDocument(origin, txns, journal.disk, journal.history, store.document, backend.accounts);
      if GuardRefuses(journal.disk.index) && CanRecover(txns, journal.disk) {
        NeedsSettleable(txns, journal.disk);
      }
      var refs := OfKind(journal.disk.index);
      o := RecoverAll(refs, now, calm);
      if o != Done { return; }
      CanRecoverIff(txns, old(journal.disk), journal.disk);
      ghost var disk, h := journal.disk, journal.history;
      o := Sweep(refs, calm);
      KeepsFreshTransitively(old(journal.disk), old(journal.history), disk, h, journal.disk, journal.history, txns);
      if o == Done && txns != [] {
        LatestSettled(origin, txns, journal.disk, journal.history, store.document, backend.accounts);
      }
    }
  }

  lemma LatestSettled(origin: (Document, Accounts), txns: seq<Txn>, disk: Disk<State>, h: History, d: Document, accounts: Accounts)
    requires Sound(disk, h) && PipelineInvariant(origin, txns, disk, h, d, accounts) && !GuardRefuses(disk.index) && txns != []
    ensures Settled(txns[|txns| - 1], d, accounts)
  {
    hide Recoverable, Sound, BeforeSide, AfterSide, Chain;
    AdmittedIsConsistent(txns[|txns| - 1], disk, h, d, accounts);
  }

  /** Recovery goes through the marker of the latest mutation, or through none. */
  lemma RefsAreLatest(origin: (Document, Accounts), txns: seq<Txn>, disk: Disk<State>, h: History, d: Document, accounts: Accounts,
                      refs: seq<Marker>)
    requires Sound(disk, h) && PipelineInvariant(origin, txns, disk, h, d, accounts) && refs == OfKind(disk.index)
    ensures refs == [] <==> !GuardRefuses(disk.index)
    ensures refs != [] ==> txns != [] && |refs| == 1 && refs[0].id == txns[|txns| - 1].id && HasMarker(disk.index, refs[0].id)
  {
    OfKindExactly(disk.index);
    if refs != [] {
      assert refs[0] in refs;
      MarkersAreOne(disk.index, refs, txns[|txns| - 1].id);
      MarkerMembership(disk.index, refs[0].id);
    }
  }

  /** An open master mutation that recovery did not see through the index. */
  predicate Unindexed(active: seq<Record<State>>, refs: seq<Marker>) {
    exists r :: r in active && r.kind == KIND && forall m :: m in refs ==> m.id != r.id
  }

  lemma UnindexedIsMarked(d: Disk<State>, h: History, active: seq<Record<State>>, refs: seq<Marker>)
    requires Sound(d, h) && ExactlyOpen(d.records, active) && Unindexed(active, refs)
    ensures GuardRefuses(d.index)
  {
    var r :| r in active && r.kind == KIND;
    assert Marker(r.id, r.kind) in d.index;
  }

  /** A mutation that was prepared and applied is ready to be recorded, and its result is what
    was asked for. */
  lemma StartsWell(t: Txn, next: Document, now: nat)
    requires WellFormed(t.document) && Prepare(t.document, t.accounts, t.request) == Ok(t.state)
    requires RequiredSecretsPresent(t.state, t.accounts) && Apply(t.document, t.state, now) == Ok(next)
    ensures WellStarted(t) && SameMutation(t.state.(after := Some(next)), t.state)
    ensures Fulfilled(t.request, t.document, t.accounts, next, Imposed(t.accounts, t.state.accountsAfter), now)
    ensures SelfReferring(t.state) <==> DeletesItself(t.request, t.document)
    ensures MatchesAfter(next, t.state) ==> !SelfReferring(t.state)
  {
    hide Prepare, Apply, RequiredSecretsPresent, Fulfilled, DeletesItself, SelfReferring, MatchesAfter, Imposed, SnapshotAccounts,
      WellFormed, PreparedFor;
    PreparedImages(t.document, t.accounts, t.request);
    PrepareIsPrepared(t.document, t.accounts, t.request);
    SelfReferringIff(t.document, t.accounts, t.request);
    AppliedIsFulfilled(t.document, t.accounts, t.request, now);
    AfterRecognizedIff(t.document, t.state, now);
  }

  lemma InvariantKeepsDocument(origin: (Document, Accounts), txns: seq<Txn>, disk: Disk<State>, h: History, d: Document, accounts: Accounts)
    requires PipelineInvariant(origin, txns, disk, h, d, accounts)
    ensures WellFormed(d) && (GuardRefuses(disk.index) ==> txns != [])
  {
    hide GuardRefuses, Chain, Recoverable, WellFormed;
  }

  predicate Unseen(d: Disk<State>, id: Id) {
    HasRoom(d, id) && Read(d, id).None?
  }

  /** What may happen to a profile: an ordinary mutation, or a start of the program, which
    begins with recovery.  Either may be cut short anywhere. */
  datatype Step = Mutate(request: Request, id: Id, now: nat) | Restart(now: nat)

  /** A step of the script asked for this mutation. */
  ghost predicate Scripted(script: seq<Step>, t: Txn) {
    exists step :: step in script && AsksFor(step, t)
  }

  ghost predicate AsksFor(step: Step, t: Txn) {
    step.Mutate? && step.id == t.id && step.request == t.request
  }

  /** One step; a mutation only starts when none is pending. */
  method Perform(manager: MasterMutationManager, step: Step)
    requires manager.Valid() && (step.Mutate? ==> manager.Fresh(step.id))
    modifies manager, manager.journal, manager.store, manager.backend
    ensures manager.Valid() && manager.origin == old(manager.origin)
    ensures manager.txns == old(manager.txns) || exists t :: AsksFor(step, t) && manager.txns == old(manager.txns) + [t]
    ensures step.Mutate? ==> ConsumesOnly(old(manager.journal.disk), old(manager.journal.history), old(manager.txns),
                                          manager.journal.disk, manager.journal.history, manager.txns, step.id)
    ensures step.Restart? ==> manager.txns == old(manager.txns)
                              && KeepsFresh(old(manager.journal.disk), old(manager.journal.history),
                                            manager.journal.disk, manager.journal.history, manager.txns)
  {
    hide Prepare, Fulfilled, Grantable, DeletesItself, PipelineInvariant, FreshIn, Sound, HasRoom, AfterSide;
    match step
    case Mutate(request, id, now) =>
      if !GuardRefuses(manager.journal.disk.index) {
        var o := manager.Transact(request, id, now, false);
      }
    case Restart(now) =>
      var o := manager.Recover(now, false);
  }

  /** Any run of mutations and interrupted recoveries, a mutation starting only when none is
    pending and under a fresh identity.  Every mutation but the last did what its request asks
    for, as a whole, or nothing at all, before the next one started from there.  Whenever the
    guard admits a projection, so did the last one. */
  method AnyRun(manager: MasterMutationManager, script: seq<Step>)
    requires manager.Valid() && FreshScript(manager, script)
    modifies manager, manager.journal, manager.store, manager.backend
    ensures manager.Valid() && manager.origin == old(manager.origin)
    ensures old(manager.txns) <= manager.txns
    ensures forall i :: |old(manager.txns)| <= i < |manager.txns| ==> Scripted(script, manager.txns[i])
    ensures AllHappened(manager.origin, manager.txns, manager.journal.disk, manager.store.document, manager.backend.accounts)
  {
    hide AllHappened, AsksFor;
    for i := 0 to |script|
      invariant manager.Valid() && manager.origin == old(manager.origin)
      invariant old(manager.txns) <= manager.txns
      invariant forall k :: |old(manager.txns)| <= k < |manager.txns| ==> Scripted(script, manager.txns[k])
      invariant FreshScript(manager, script[i..])
    {
      hide PipelineInvariant, AllRequested, FreshIn, FreshFor, HasRoom, WellFormed, KeepsFresh, ConsumesOnly, Sound, Scripted;
      ghost var disk, h, txns := manager.journal.disk, manager.journal.history, manager.txns;
      assert script[i..][0] == script[i] && script[i + 1..] == script[i..][1..];
      NextIsFresh(disk, h, txns, script[i..]);
      Perform(manager, script[i]);
      StaysFresh(disk, h, txns, manager.journal.disk, manager.journal.history, manager.txns, script[i..]);
      if t :| AsksFor(script[i], t) && manager.txns == txns + [t] {
        IsScripted(script, script[i], t);
      }
    }
    WhatHappened(manager.origin, manager.txns, manager.journal.disk, manager.journal.history, manager.store.document,
                 manager.backend.accounts);
  }

  /** The mutations of a profile, from where it began to what is on disk. */
  ghost predicate AllHappened(origin: (Document, Accounts), txns: seq<Txn>, disk: Disk<State>, d: Document, accounts: Accounts) {
    && Chain(origin, txns)
    && (forall i :: 0 < i < |txns| ==> Happened(txns[i - 1], txns[i].document, txns[i].accounts))
    && (txns == [] ==> (d, accounts) == origin)
    && (txns != [] && !GuardRefuses(disk.index) ==>
          Settled(txns[|txns| - 1], d, accounts) && Happened(txns[|txns| - 1], d, accounts))
  }

  lemma WhatHappened(origin: (Document, Accounts), txns: seq<Txn>, disk: Disk<State>, h: History, d: Document, accounts: Accounts)
    requires Sound(disk, h) && PipelineInvariant(origin, txns, disk, h, d, accounts) && AllRequested(txns)
    ensures AllHappened(origin, txns, disk, d, accounts)
  {
    hide Prepare, Happened, Recoverable, Sound, WellStarted, Settled;
    ChainHappened(origin, txns);
    if txns != [] && !GuardRefuses(disk.index) {
      LatestSettled(origin, txns, disk, h, d, accounts);
      assert txns[|txns| - 1] in txns;
      SettledHappened(txns[|txns| - 1], d, accounts);
    }
  }

  lemma IsScripted(script: seq<Step>, step: Step, t: Txn)
    requires step in script && AsksFor(step, t)
    ensures Scripted(script, t)
  {
  }

  /** The mutations of a script carry distinct identities, all unused so far. */
  ghost predicate FreshScript(manager: MasterMutationManager, script: seq<Step>)
    reads manager, manager.journal
  {
    FreshFor(manager.journal.disk, manager.journal.history, manager.txns, script)
  }

  ghost predicate FreshFor(disk: Disk<State>, h: History, txns: seq<Txn>, script: seq<Step>) {
    && (forall i :: 0 <= i < |script| && script[i].Mutate? ==> FreshIn(disk, h, txns, script[i].id))
    && (forall i, j :: 0 <= i < j < |script| && script[i].Mutate? && script[j].Mutate? ==> script[i].id != script[j].id)
  }

  lemma NextIsFresh(disk: Disk<State>, h: History, txns: seq<Txn>, script: seq<Step>)
    requires FreshFor(disk, h, txns, script) && script != []
    ensures script[0].Mutate? ==> FreshIn(disk, h, txns, script[0].id)
  {
  }

  lemma StaysFresh(disk: Disk<State>, h: History, txns: seq<Txn>, disk': Disk<State>, h': History, txns': seq<Txn>, script: seq<Step>)
    requires FreshFor(disk, h, txns, script) && script != []
    requires script[0].Mutate? ==> ConsumesOnly(disk, h, txns, disk', h', txns', script[0].id)
    requires script[0].Restart? ==> txns' == txns && KeepsFresh(disk, h, disk', h', txns)
    ensures FreshFor(disk', h', txns', script[1..])
  {
    hide FreshIn;
  }
}
