/** Master mutations as values: the before and after images a mutation records, how they
  are prepared from a request, and how they change a metadata document. */
module Mutation {
  import opened Wrappers
  import opened Names
  import opened ImportTypes
  import opened Metadata

  /** A secret account holds a value or is absent. */
  type Accounts = map<string, string>
  type Images = map<string, Option<string>>

  datatype Action = Create | Update | Delete

  /** `before` and `after` are the revisions of the document around the mutation. */
  datatype State =
    | Edit(action: Action, before: Document, after: Option<Document>,
           entryBefore: Option<Entry>, entryAfter: Option<Entry>,
           dependentsBefore: seq<Entry>, dependentsAfter: seq<Entry>,
           catalogAfter: Option<Catalog>,
           accountsBefore: Images, accountsAfter: Images)
    | ReplaceAll(before: Document, after: Option<Document>, documentAfter: Document,
                 accountsBefore: Images, accountsAfter: Images)

  datatype MutationError =
    | Store(error: StoreError) | AlreadyExists | Missing | HasDependents | ConcurrentMutation
    | InvalidSnapshot | LegacyDisabled | SecretRequired | SourceChanged

  /** A patch leaves an account without a value untouched; a replacement removes it. */
  datatype SecretInput = SecretInput(value: Option<string>, passphrase: Option<string>, overwrite: bool)

  datatype Request =
    | CreateEntry(entry: Entry, secrets: Option<SecretInput>, overwrite: bool, stamp: string -> string)
    | UpdateEntry(entry: Entry, secrets: Option<SecretInput>, stamp: string -> string)
    | DeleteEntry(nameOrId: string, cascade: bool, stamp: string -> string)
    | BulkCreate(items: seq<(Entry, Option<SecretInput>)>, stamp: string -> string)
    | ApplySnapshot(entries: seq<Entry>, tombstones: seq<Tombstone>, writes: Accounts, deletes: set<string>,
                    expected: Document, expectedAccounts: Images)

  // ---------- accounts ----------

  function At(accounts: Accounts, account: string): Option<string> {
    if account in accounts then Some(accounts[account]) else None
  }

  /** The preimages of exactly the accounts a mutation touches. */
  function SnapshotAccounts(accounts: Accounts, targets: Images): Images {
    map account | account in targets :: At(accounts, account)
  }

  /** The accounts after every image is in place; every other account is as it was. */
  function Imposed(accounts: Accounts, images: Images): Accounts {
    map account | account in accounts.Keys + images.Keys
                  && (if account in images then images[account].Some? else account in accounts)
      :: if account in images then images[account].value else accounts[account]
  }

  function WritesFor(id: string, secrets: Option<SecretInput>): Images {
    if secrets.None? then map[]
    else
      var input := secrets.value;
      (if input.value.Some? || input.overwrite then map[id := input.value] else map[])
      + (if input.passphrase.Some? || input.overwrite then map[Passphrase(id) := input.passphrase] else map[])
  }

  lemma ImposedAt(accounts: Accounts, images: Images, account: string)
    ensures At(Imposed(accounts, images), account) ==
            if account in images then images[account] else At(accounts, account)
  {
  }

  /** Accounts are the same when every account holds the same. */
  lemma SameAccounts(a: Accounts, b: Accounts)
    requires forall account :: At(a, account) == At(b, account)
    ensures a == b
  {
    forall account ensures account in a <==> account in b {
      assert At(a, account) == At(b, account);
    }
    forall account | account in a ensures a[account] == b[account] {
      assert At(a, account) == At(b, account);
    }
  }

  /** An entry that requires a secret has one after the mutation. */
  predicate RequiredSecretsPresent(s: State, accounts: Accounts) {
    var entries := if s.ReplaceAll? then s.documentAfter.entries
                   else if s.entryAfter.Some? then [s.entryAfter.value] else [];
    forall e :: e in entries && e.NeedsSecret() ==>
      if e.id in s.accountsAfter then s.accountsAfter[e.id].Some? else e.id in accounts
  }

  // ---------- preparation ----------

  function DependentsOf(entries: seq<Entry>, name: string): seq<Entry> {
    if entries == [] then []
    else (if RefersTo(entries[0], name) then [entries[0]] else []) + DependentsOf(entries[1..], name)
  }

  function WithoutRefs(refs: seq<Ref>, name: string): seq<Ref> {
    if refs == [] then []
    else (if refs[0].name == name then [] else [refs[0]]) + WithoutRefs(refs[1..], name)
  }

  function Detached(e: Entry, name: string, schema3: bool, stamp: string -> string): Entry {
    var kept := e.(refs := WithoutRefs(e.refs, name));
    if schema3 then kept.(contentRevision := stamp(e.id)) else kept
  }

  function DetachedAll(dependents: seq<Entry>, name: string, schema3: bool, stamp: string -> string): seq<Entry> {
    seq(|dependents|, i requires 0 <= i < |dependents| => Detached(dependents[i], name, schema3, stamp))
  }

  /** One more scope in an ascending list without repetitions. */
  function WithScope(scope: string, scopes: seq<string>): seq<string> {
    if scopes == [] then [scope]
    else if scope == scopes[0] then scopes
    else if Less(scope, scopes[0]) then [scope] + scopes
    else [scopes[0]] + WithScope(scope, scopes[1..])
  }

  /** The scopes that bind an entry, each once and in ascending order. */
  function ScopesOf(bindings: seq<Binding>, id: string): seq<string> {
    if bindings == [] then []
    else
      var rest := ScopesOf(bindings[1..], id);
      if bindings[0].entryId == id then WithScope(bindings[0].scopeId, rest) else rest
  }

  function IntentsFor(bindings: seq<Binding>, e: Entry, reason: string): seq<Intent> {
    var scopes := ScopesOf(bindings, e.id);
    seq(|scopes|, i requires 0 <= i < |scopes| => ContentIntent(scopes[i], e.id, reason, e.contentRevision))
  }

  function CatalogWithIntents(catalog: Option<Catalog>, e: Entry, reason: string): Option<Catalog> {
    if catalog.None? then None
    else Some(catalog.value.(intents := catalog.value.intents + IntentsFor(catalog.value.bindings, e, reason)))
  }

  function CatalogWithAllIntents(catalog: Option<Catalog>, entries: seq<Entry>, reason: string): Option<Catalog>
    decreases |entries|
  {
    if entries == [] then catalog
    else CatalogWithAllIntents(CatalogWithIntents(catalog, entries[0], reason), entries[1..], reason)
  }

  function BindingsWithout(bindings: seq<Binding>, id: string): seq<Binding> {
    if bindings == [] then []
    else (if bindings[0].entryId == id then [] else [bindings[0]]) + BindingsWithout(bindings[1..], id)
  }

  function CatalogAfterDelete(catalog: Option<Catalog>, e: Entry): Option<Catalog> {
    if catalog.None? then None
    else
      var c := catalog.value;
      Some(c.(bindings := BindingsWithout(c.bindings, e.id),
              intents := c.intents + IntentsFor(c.bindings, e, "entry_deleted"),
              deletions := if e.id in c.deletions then c.deletions else c.deletions + [e.id]))
  }

  function EditState(action: Action, d: Document, accounts: Accounts, entryBefore: Option<Entry>, entryAfter: Option<Entry>,
                     dependentsBefore: seq<Entry>, dependentsAfter: seq<Entry>, catalogAfter: Option<Catalog>, writes: Images): State
  {
    Edit(action, d, None, entryBefore, entryAfter, dependentsBefore, dependentsAfter, catalogAfter,
         SnapshotAccounts(accounts, writes), writes)
  }

  function AddAll(d: Document, items: seq<(Entry, Option<SecretInput>)>, stamp: string -> string): Result<Document, StoreError>
    decreases |items|
  {
    if items == [] then Ok(d)
    else
      var e := items[0].0;
      var next :- TxAdd(d, if d.catalog.Some? then e.(contentRevision := stamp(e.id)) else e);
      AddAll(next, items[1..], stamp)
  }

  function AllWrites(items: seq<(Entry, Option<SecretInput>)>): Images {
    if items == [] then map[] else WritesFor(items[0].0.id, items[0].1) + AllWrites(items[1..])
  }

  function SnapshotWrites(writes: Accounts, deletes: set<string>): Images {
    (map account | account in writes :: Some(writes[account])) + (map account | account in deletes :: None)
  }

  /** A replacement may only touch accounts of entries and tombstones on either side. */
  predicate AccountsBelong(before: Document, after: Document, targets: Images) {
    var ids := Ids(before.entries) + Ids(after.entries)
               + (set t | t in before.tombstones :: t.id) + (set t | t in after.tombstones :: t.id);
    targets.Keys <= ids + (set id | id in ids :: Passphrase(id))
  }

  function Replacement(d: Document, accounts: Accounts, after: Document, targets: Images): Result<State, MutationError> {
    if !AccountsBelong(d, after, targets) then Err(InvalidSnapshot)
    else Ok(ReplaceAll(d, None, after, SnapshotAccounts(accounts, targets), targets))
  }

  /** What each kind of mutation records before anything durable happens. */
  function Prepare(d: Document, accounts: Accounts, r: Request): Result<State, MutationError> {
    match r
    case CreateEntry(entry, secrets, overwrite, stamp) =>
      var existing := GetByName(d.entries, entry.name);
      if existing.Some? && !overwrite then Err(AlreadyExists)
      else if existing.None? && GetById(d.entries, entry.id).Some? then Err(AlreadyExists)
      else
        var kept := if existing.Some?
                    then entry.(id := existing.value.id, catalogAttributes := existing.value.catalogAttributes,
                                contentRevision := existing.value.contentRevision)
                    else entry;
        var e := if d.catalog.Some? then kept.(contentRevision := stamp(kept.id)) else kept;
        Ok(EditState(Create, d, accounts, existing, Some(e), [], [],
                     if existing.Some? then CatalogWithIntents(d.catalog, e, "entry_replaced") else d.catalog,
                     WritesFor(e.id, secrets)))
    case UpdateEntry(entry, secrets, stamp) =>
      var existing := GetById(d.entries, entry.id);
      if existing.None? then Err(Missing)
      else if existing.value.name != entry.name && Referenced(d.entries, existing.value.name) then Err(Store(UnsafeRename))
      else
        var kept := entry.(catalogAttributes := existing.value.catalogAttributes, contentRevision := existing.value.contentRevision);
        var e := if d.catalog.Some? then kept.(contentRevision := stamp(kept.id)) else kept;
        Ok(EditState(Update, d, accounts, existing, Some(e), [], [],
                     CatalogWithIntents(d.catalog, e, "entry_updated"), WritesFor(e.id, secrets)))
    case DeleteEntry(nameOrId, cascade, stamp) =>
      var found := if GetById(d.entries, nameOrId).Some? then GetById(d.entries, nameOrId) else GetByName(d.entries, nameOrId);
      if found.None? then Err(Missing)
      else
        var e := found.value;
        var dependents := DependentsOf(d.entries, e.name);
        if dependents != [] && !cascade then Err(HasDependents)
        else
          var detached := DetachedAll(dependents, e.name, d.catalog.Some?, stamp);
          Ok(EditState(Delete, d, accounts, Some(e), None, dependents, detached,
                       CatalogWithAllIntents(CatalogAfterDelete(d.catalog, e), detached, "entry_updated"),
                       map[e.id := None, Passphrase(e.id) := None]))
    case BulkCreate(items, stamp) =>
      var staged := AddAll(d, items, stamp);
      if staged.Err? then Err(Store(staged.error))
      else Replacement(d, accounts, staged.value, AllWrites(items))
    case ApplySnapshot(entries, tombstones, writes, deletes, expected, expectedAccounts) =>
      var targets := SnapshotWrites(writes, deletes);
      if d.catalog.Some? then Err(LegacyDisabled)
      else if d != expected then Err(ConcurrentMutation)
      else if deletes * writes.Keys != {} || expectedAccounts.Keys != targets.Keys then Err(InvalidSnapshot)
      else if SnapshotAccounts(accounts, targets) != expectedAccounts then Err(ConcurrentMutation)
      else Replacement(d, accounts, Document(entries, tombstones, None), targets)
  }

  // ---------- application ----------

  /** Puts each prepared dependent image over exactly the image it was prepared from. */
  function ApplyDependents(d: Document, before: seq<Entry>, after: seq<Entry>): Result<Document, MutationError>
    requires |before| == |after|
    decreases |before|
  {
    if before == [] then Ok(d)
    else if GetById(d.entries, before[0].id) != Some(before[0]) then Err(SourceChanged)
    else
      var next := TxUpdate(d, after[0]);
      if next.Err? then Err(Store(next.error)) else ApplyDependents(next.value, before[1..], after[1..])
  }

  function ApplyEntry(d: Document, s: State, now: nat): Result<Document, MutationError>
    requires s.Edit?
  {
    match s.action
    case Create =>
      if s.entryAfter.None? then Err(SourceChanged)
      else if s.entryBefore.None? then
        var next := TxAdd(d, s.entryAfter.value);
        if next.Err? then Err(SourceChanged) else Ok(next.value)
      else if GetById(d.entries, s.entryBefore.value.id) != s.entryBefore then Err(SourceChanged)
      else
        var next := TxUpdate(d, s.entryAfter.value);
        if next.Err? then Err(Store(next.error)) else Ok(next.value)
    case Update =>
      if s.entryAfter.None? || s.entryBefore.None? || GetById(d.entries, s.entryBefore.value.id) != s.entryBefore
      then Err(SourceChanged)
      else
        var next := TxUpdate(d, s.entryAfter.value);
        if next.Err? then Err(Store(next.error)) else Ok(next.value)
    case Delete =>
      if s.entryBefore.None? || GetById(d.entries, s.entryBefore.value.id) != s.entryBefore
         || |s.dependentsBefore| != |s.dependentsAfter|
      then Err(SourceChanged)
      else
        var detached := ApplyDependents(d, s.dependentsBefore, s.dependentsAfter);
        if detached.Err? then detached
        else
          var next := TxDelete(detached.value, s.entryBefore.value.name, now);
          if next.Err? then Err(Store(next.error)) else Ok(next.value)
  }

  /** Applies a mutation to a document; `now` is the time a deletion's tombstone gets. */
  function Apply(d: Document, s: State, now: nat): Result<Document, MutationError> {
    if s.ReplaceAll? then
      if d != s.before then Err(SourceChanged)
      else if !UniqueEntries(s.documentAfter.entries) || s.documentAfter.catalog.Some? != d.catalog.Some?
              || (s.documentAfter.catalog.Some? && !BindingsResolve(s.documentAfter.catalog.value, Ids(s.documentAfter.entries)))
      then Err(Store(InvalidCatalog))
      else Ok(s.documentAfter)
    else
      var next := ApplyEntry(d, s, now);
      if next.Err? || s.catalogAfter.None? then next
      else
        var done := TxSetCatalog(next.value, s.catalogAfter.value);
        if done.Err? then Err(Store(done.error)) else Ok(done.value)
  }

  /** The test by which the program recognizes that a document is on the after side. */
  predicate MatchesAfter(d: Document, s: State) {
    if s.ReplaceAll? then d == s.documentAfter
    else
      && (match s.action
          case Delete =>
            && s.entryBefore.Some? && GetById(d.entries, s.entryBefore.value.id).None?
            && forall e :: e in s.dependentsAfter ==> GetById(d.entries, e.id) == Some(e)
          case _ => s.entryAfter.Some? && GetById(d.entries, s.entryAfter.value.id) == s.entryAfter)
      && d.catalog == s.catalogAfter
  }

  /** A deletion whose entry is among its own dependents because it refers to itself. */
  predicate SelfReferring(s: State) {
    s.Edit? && s.action == Delete && s.entryBefore.Some? && RefersTo(s.entryBefore.value, s.entryBefore.value.name)
  }
}
