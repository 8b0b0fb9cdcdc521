/** The durable states a master mutation can leave behind, and why they are safe. */
module MutationProtocol {
  import opened Wrappers
  import opened JournalDisk
  import opened Journal
  import opened Metadata
  import opened Mutation
  import opened MutationTheory
  import opened MutationMeaning
  import opened SecretBackend

  const KIND := "master_mutation"

  /** One mutation that reached the journal: where it started, what was asked for and what it
    recorded. */
  datatype Txn = Txn(id: Id, document: Document, accounts: Accounts, request: Request, state: State)

  /** What each mutation recorded was prepared from its request. */
  ghost predicate AllRequested(txns: seq<Txn>) {
    forall t :: t in txns ==> Prepare(t.document, t.accounts, t.request) == Ok(t.state)
  }

  /** What was asked for happened as a whole, or nothing at all did. */
  ghost predicate Happened(t: Txn, d: Document, accounts: Accounts) {
    BeforeSide(t, d, accounts) || exists now :: Fulfilled(t.request, t.document, t.accounts, d, accounts, now)
  }

  /** A mutation that is settled happened as asked for or not at all. */
  lemma SettledHappened(t: Txn, d: Document, accounts: Accounts)
    requires WellStarted(t) && Settled(t, d, accounts) && Prepare(t.document, t.accounts, t.request) == Ok(t.state)
    ensures Happened(t, d, accounts)
  {
    hide Prepare, Apply, MatchesAfter, Imposed, Fulfilled;
    if AfterSide(t, d, accounts) {
      var now :| Apply(t.document, t.state, now) == Ok(d);
      AppliedIsFulfilled(t.document, t.accounts, t.request, now);
    }
  }

  /** In a chain every mutation but the last happened, as asked for, or did not, before the
    next one started. */
  lemma ChainHappened(origin: (Document, Accounts), txns: seq<Txn>)
    requires Chain(origin, txns) && AllRequested(txns)
    ensures forall i :: 0 < i < |txns| ==> Happened(txns[i - 1], txns[i].document, txns[i].accounts)
  {
    hide Prepare, WellStarted, Settled, Happened;
    forall i | 0 < i < |txns| ensures Happened(txns[i - 1], txns[i].document, txns[i].accounts) {
      assert txns[i - 1] in txns;
      SettledHappened(txns[i - 1], txns[i].document, txns[i].accounts);
    }
  }

  predicate SameMutation(s: State, s': State) {
    s.(after := None) == s'.(after := None)
  }

  /** The recorded revision plays no part in what a mutation does. */
  lemma RevisionIsInert(s: State, s': State, d: Document, now: nat)
    requires SameMutation(s, s')
    ensures Apply(d, s, now) == Apply(d, s', now)
    ensures MatchesAfter(d, s) == MatchesAfter(d, s')
    ensures SelfReferring(s) == SelfReferring(s')
    ensures s.accountsBefore == s'.accountsBefore && s.accountsAfter == s'.accountsAfter && s.before == s'.before
  {
  }

  ghost predicate WellStarted(t: Txn) {
    && WellFormed(t.document) && PreparedFor(t.state, t.document)
    && t.state.accountsBefore == SnapshotAccounts(t.accounts, t.state.accountsAfter)
    && RequiredSecretsPresent(t.state, t.accounts)
  }

  ghost predicate BeforeSide(t: Txn, d: Document, accounts: Accounts) {
    d == t.document && accounts == t.accounts
  }

  /** The result of the mutation, which only leaves open the time of a tombstone. */
  ghost predicate AppliedTo(t: Txn, d: Document) {
    exists now :: Apply(t.document, t.state, now) == Ok(d)
  }

  ghost predicate AfterSide(t: Txn, d: Document, accounts: Accounts) {
    AppliedTo(t, d) && MatchesAfter(d, t.state) && accounts == Imposed(t.accounts, t.state.accountsAfter)
  }

  /** While the record is open, metadata is at the source or at the recorded result, the
    touched accounts are mixed, and the result is only in place over finished accounts. */
  ghost predicate InFlight(t: Txn, r: Record<State>, d: Document, accounts: Accounts) {
    && r.kind == KIND && r.state.Some? && SameMutation(r.state.value, t.state)
    && r.state.value.after.Some? && AppliedTo(t, r.state.value.after.value)
    && Between(t.accounts, t.state.accountsAfter, accounts)
    && (d == t.document
        || (d == r.state.value.after.value && accounts == Imposed(t.accounts, t.state.accountsAfter)))
  }

  /** The invariant of every durable state from a mutation's start to its end. */
  ghost predicate Recoverable(t: Txn, disk: Disk<State>, h: History, d: Document, accounts: Accounts) {
    && (t.id in disk.records ==> disk.records[t.id].kind == KIND)
    && if t.id in h.closed then
      (h.closed[t.id] == Completed ==> AfterSide(t, d, accounts)) && (h.closed[t.id] == Failed ==> BeforeSide(t, d, accounts))
    else if t.id in disk.records then InFlight(t, disk.records[t.id], d, accounts)
    else BeforeSide(t, d, accounts)
  }

  /** Recovery still finds the required secrets that were there at the start. */
  lemma RequiredSecretsStay(t: Txn, s: State, accounts: Accounts)
    requires WellStarted(t) && SameMutation(s, t.state) && Between(t.accounts, t.state.accountsAfter, accounts)
    ensures RequiredSecretsPresent(s, accounts)
  {
    var entries := if s.ReplaceAll? then s.documentAfter.entries
                   else if s.entryAfter.Some? then [s.entryAfter.value] else [];
    forall e | e in entries && e.NeedsSecret() && e.id !in s.accountsAfter ensures e.id in accounts {
      assert At(accounts, e.id) == At(t.accounts, e.id);
    }
  }

  /** A change that applied once applies again, whatever the time. */
  lemma ApplyAgain(t: Txn, now: nat)
    requires exists d :: AppliedTo(t, d)
    ensures Apply(t.document, t.state, now).Ok?
  {
  }

  /** A source that already passes the after test is its own result. */
  lemma MatchIsResult(t: Txn, s: State, d: Document)
    requires SameMutation(s, t.state) && s.after.Some? && AppliedTo(t, s.after.value)
    requires d == t.document || d == s.after.value
    requires d == s.after.value || MatchesAfter(d, s)
    ensures s.after == Some(d)
  {
    if d == t.document {
      var now :| Apply(t.document, t.state, now) == Ok(s.after.value);
      RevisionIsInert(s, t.state, d, now);
      if MatchesAfter(d, s) {
        MatchingApplyIsIdentity(t.document, t.state, now);
      }
    }
  }

  lemma ResultMatches(t: Txn, d: Document)
    requires WellStarted(t) && AppliedTo(t, d)
    ensures MatchesAfter(d, t.state) <==> !SelfReferring(t.state)
  {
    var now :| Apply(t.document, t.state, now) == Ok(d);
    AfterRecognizedIff(t.document, t.state, now);
  }

  predicate GuardRefuses(index: seq<Marker>) {
    exists m :: m in index && m.kind == KIND
  }

  /** Whenever metadata and accounts are on different sides of a mutation, its marker is
    present under its kind, so the projection guard refuses. */
  lemma TornStateIsRefused(t: Txn, disk: Disk<State>, h: History, d: Document, accounts: Accounts)
    requires Sound(disk, h) && Recoverable(t, disk, h, d, accounts)
    requires !BeforeSide(t, d, accounts) && !AfterSide(t, d, accounts)
    ensures Marker(t.id, KIND) in disk.index && GuardRefuses(disk.index)
  {
  }

  /** Consequently an admitted projection sees one side, and no other account ever differs. */
  lemma AdmittedIsConsistent(t: Txn, disk: Disk<State>, h: History, d: Document, accounts: Accounts)
    requires Sound(disk, h) && Recoverable(t, disk, h, d, accounts) && !GuardRefuses(disk.index)
    ensures BeforeSide(t, d, accounts) || AfterSide(t, d, accounts)
    ensures forall account :: account !in t.state.accountsAfter ==> At(accounts, account) == At(t.accounts, account)
  {
    if !BeforeSide(t, d, accounts) && !AfterSide(t, d, accounts) {
      TornStateIsRefused(t, disk, h, d, accounts);
    }
    forall account | account !in t.state.accountsAfter ensures At(accounts, account) == At(t.accounts, account) {
      ImposedAt(t.accounts, t.state.accountsAfter, account);
    }
  }

  /** What is on disk now that nothing stands between the mutations: each of them, in order,
    happened as a whole or not at all. */
  ghost predicate Settled(t: Txn, d: Document, accounts: Accounts) {
    BeforeSide(t, d, accounts) || AfterSide(t, d, accounts)
  }

  ghost predicate Chain(origin: (Document, Accounts), txns: seq<Txn>) {
    && (txns != [] ==> (txns[0].document, txns[0].accounts) == origin)
    && (forall i :: 0 <= i < |txns| ==> WellStarted(txns[i]))
    && (forall i :: 0 < i < |txns| ==> Settled(txns[i - 1], txns[i].document, txns[i].accounts))
  }

  /** Only the latest mutation can have a marker, a record or be open. */
  ghost predicate OnlyLatestMarked(index: seq<Marker>, id: Id) {
    forall m :: m in index && m.kind == KIND ==> m.id == id
  }

  ghost predicate PipelineInvariant(origin: (Document, Accounts), txns: seq<Txn>, disk: Disk<State>, h: History, d: Document, accounts: Accounts) {
    && Chain(origin, txns) && WellFormed(d)
    && if txns == [] then !GuardRefuses(disk.index) && (d, accounts) == origin
       else
         var t := txns[|txns| - 1];
         OnlyLatestMarked(disk.index, t.id) && Recoverable(t, disk, h, d, accounts)
  }

  /** Steps on one operation leave every other operation's files and status alone. */
  ghost predicate Confined(d: Disk<State>, h: History, d': Disk<State>, h': History, id: Id) {
    OnlyTouches(d, d', id) && h'.closed.Keys <= h.closed.Keys + {id}
  }

  /** An identity that no mutation of this profile has used. */
  ghost predicate FreshIn(d: Disk<State>, h: History, txns: seq<Txn>, id: Id) {
    id !in h.closed && id !in d.records && forall t :: t in txns ==> t.id != id
  }

  /** No identity is used up. */
  ghost predicate KeepsFresh(d: Disk<State>, h: History, d': Disk<State>, h': History, txns: seq<Txn>) {
    forall k :: FreshIn(d, h, txns, k) ==> FreshIn(d', h', txns, k)
  }

  /** No identity but this one is used up. */
  ghost predicate ConsumesOnly(d: Disk<State>, h: History, txns: seq<Txn>, d': Disk<State>, h': History, txns': seq<Txn>, id: Id) {
    forall k :: FreshIn(d, h, txns, k) && k != id ==> FreshIn(d', h', txns', k)
  }

  lemma UsedAlready(d: Disk<State>, h: History, d': Disk<State>, h': History, txns: seq<Txn>, t: Txn)
    requires ConsumesOnly(d, h, txns, d', h', txns, t.id) && t in txns
    ensures KeepsFresh(d, h, d', h', txns)
  {
  }

  lemma ConfinedKeepsFresh(d: Disk<State>, h: History, d': Disk<State>, h': History, txns: seq<Txn>, txns': seq<Txn>, id: Id)
    requires Confined(d, h, d', h', id)
    requires forall t :: t in txns' ==> t in txns || t.id == id
    ensures ConsumesOnly(d, h, txns, d', h', txns', id)
  {
    forall k | FreshIn(d, h, txns, k) && k != id ensures FreshIn(d', h', txns', k) {
      assert k !in d.records - {id};
    }
  }

  /** Journal steps on one operation leave the markers of all others, kind included. */
  lemma OtherMarkersStay(d: Disk<State>, d': Disk<State>, id: Id)
    requires OnlyTouches(d, d', id)
    ensures forall m: Marker :: m.id != id ==> (m in d'.index <==> m in d.index)
  {
    WithoutMembers(d.index, {id});
    WithoutMembers(d'.index, {id});
  }

  /** Starting the next mutation from an admitted state extends the chain. */
  lemma NextMutation(origin: (Document, Accounts), txns: seq<Txn>, t: Txn, disk: Disk<State>, h: History)
    requires Sound(disk, h) && PipelineInvariant(origin, txns, disk, h, t.document, t.accounts)
    requires !GuardRefuses(disk.index) && WellStarted(t)
    ensures Chain(origin, txns + [t])
  {
    if txns != [] {
      AdmittedIsConsistent(txns[|txns| - 1], disk, h, t.document, t.accounts);
    }
  }

  /** The invariant after the steps of one mutation. */
  lemma InvariantAfter(origin: (Document, Accounts), txns: seq<Txn>, t: Txn, before: Disk<State>, disk: Disk<State>, h: History,
                       d: Document, accounts: Accounts)
    requires Chain(origin, txns) && txns != [] && txns[|txns| - 1] == t
    requires OnlyLatestMarked(before.index, t.id) && OnlyTouches(before, disk, t.id)
    requires Recoverable(t, disk, h, d, accounts) && WellFormed(d)
    ensures PipelineInvariant(origin, txns, disk, h, d, accounts)
  {
    OtherMarkersStay(before, disk, t.id);
  }

  lemma NoMarkerLeft(before: Disk<State>, disk: Disk<State>, id: Id)
    requires OnlyLatestMarked(before.index, id) && OnlyTouches(before, disk, id) && !HasMarker(disk.index, id)
    ensures !GuardRefuses(disk.index)
  {
    OtherMarkersStay(before, disk, id);
    MarkerMembership(disk.index, id);
  }

  lemma SweepKeepsInvariant(origin: (Document, Accounts), txns: seq<Txn>, d: Disk<State>, d': Disk<State>, h0: History, h: History,
                            doc: Document, accounts: Accounts)
    requires OpenUntouched(d, d', h) && OnlyShrinks(d, d') && h.closed == h0.closed
    requires PipelineInvariant(origin, txns, d, h0, doc, accounts)
    ensures PipelineInvariant(origin, txns, d', h, doc, accounts)
    ensures !GuardRefuses(d.index) ==> !GuardRefuses(d'.index)
  {
  }

  function OfKind(index: seq<Marker>): seq<Marker> {
    if index == [] then []
    else (if index[0].kind == KIND then [index[0]] else []) + OfKind(index[1..])
  }

  lemma {:induction false} OfKindExactly(index: seq<Marker>)
    ensures forall m :: m in OfKind(index) <==> m in index && m.kind == KIND
    ensures DistinctMarkers(index) ==> DistinctMarkers(OfKind(index))
  {
    if index != [] {
      var rest := OfKind(index[1..]);
      OfKindExactly(index[1..]);
      assert index == [index[0]] + index[1..];
      if DistinctMarkers(index) {
        forall k | 0 <= k < |rest| ensures rest[k].id != index[0].id {
          assert rest[k] in index[1..];
          var j :| 0 <= j < |index[1..]| && index[1..][j] == rest[k];
          assert index[0].id != index[j + 1].id;
        }
      }
    }
  }

  /** With one mutation at a time recovery has at most one marker to go through. */
  lemma MarkersAreOne(index: seq<Marker>, refs: seq<Marker>, id: Id)
    requires DistinctMarkers(index) && refs == OfKind(index) && OnlyLatestMarked(index, id)
    ensures |refs| <= 1 && forall m :: m in refs ==> m.id == id
  {
    OfKindExactly(index);
    if refs != [] {
      var last := |refs| - 1;
      assert last == 0 || refs[0].id != refs[last].id;
      assert refs[0] in refs && refs[last] in refs;
    }
  }

  /** One operation is gone from index and records, and nothing else is. */
  ghost predicate Cleared(d: Disk<State>, d': Disk<State>, id: Id) {
    d'.index == Without(d.index, {id}) && d'.records == d.records - {id}
  }

  /** What finishing one operation leaves behind is what was there without it. */
  lemma FinishedIsGone(d: Disk<State>, d': Disk<State>, id: Id)
    requires OnlyTouches(d, d', id) && !HasMarker(d'.index, id) && id !in d'.records
    ensures Cleared(d, d', id)
  {
    forall m | m in d'.index ensures m.id != id {
      MarkerMembership(d'.index, id);
    }
    WithoutAbsent(d'.index, {id});
  }

  /** A marked mutation can be brought to its end: it is closed already, or it is open and its
    result can be recognized. */
  predicate Settleable(t: Txn, d: Disk<State>) {
    t.id in d.records && (d.records[t.id].Finished() || !SelfReferring(t.state))
  }

  /** A recovery that meets no failure succeeds: every marker has its record, and the mutation
    that is still marked is closed already or can be recognized once it is applied.  A marker
    whose record a crash prevented from being written stands in the way for good. */
  predicate CanRecover(txns: seq<Txn>, d: Disk<State>) {
    if !GuardRefuses(d.index) then Listable(d.index, d.records)
    else
      txns != [] &&
      var t := txns[|txns| - 1];
      Settleable(t, d) && Listable(Without(d.index, {t.id}), d.records - {t.id})
  }

  lemma NeedsSettleable(txns: seq<Txn>, d: Disk<State>)
    requires CanRecover(txns, d) && GuardRefuses(d.index)
    ensures txns != [] && Settleable(txns[|txns| - 1], d)
  {
    hide Settleable, Listable;
  }

  /** Once the marked mutation is settled it only matters what else is left. */
  lemma CanRecoverIff(txns: seq<Txn>, d: Disk<State>, d': Disk<State>)
    requires if GuardRefuses(d.index) then txns != [] && Settleable(txns[|txns| - 1], d) && Cleared(d, d', txns[|txns| - 1].id)
             else d' == d
    ensures CanRecover(txns, d) <==> Listable(d'.index, d'.records)
  {
    hide Settleable, Listable;
  }

  lemma KeepsFreshTransitively(a: Disk<State>, h: History, b: Disk<State>, h': History, c: Disk<State>, h'': History, txns: seq<Txn>)
    requires KeepsFresh(a, h, b, h', txns) && KeepsFresh(b, h', c, h'', txns)
    ensures KeepsFresh(a, h, c, h'', txns)
  {
    hide FreshIn;
  }

  lemma KeepsFreshRefl(d: Disk<State>, h: History, txns: seq<Txn>)
    ensures KeepsFresh(d, h, d, h, txns)
  {
  }

  /** The state after a mutation died between its marker and its record: nothing has changed,
    the guard refuses, and no recovery can succeed. */
  lemma OrphanMarkerBlocks(t: Txn) returns (disk: Disk<State>, h: History)
    requires WellStarted(t)
    ensures disk.index == [Marker(t.id, KIND)] && t.id !in disk.records
    ensures Sound(disk, h) && PipelineInvariant((t.document, t.accounts), [t], disk, h, t.document, t.accounts)
    ensures GuardRefuses(disk.index) && !CanRecover([t], disk)
  {
    disk, h := Disk([Marker(t.id, KIND)], map[], []), History(map[], {}, {});
    assert disk.index[0].kind == KIND && disk.index[0] in disk.index;
  }
}
