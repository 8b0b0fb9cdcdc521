/** What an accepted request does to the vault, and which requests are accepted, in terms of the
  request, the document and the accounts alone. */
module MutationMeaning {
  import opened Wrappers
  import opened ImportTypes
  import opened Metadata
  import opened Mutation
  import opened Names
  import opened MutationTheory

  // ---------- accounts ----------

  /** A given value is stored.  Without one a patch leaves the account as it was, and a
    replacement removes it. */
  function Followed(input: Option<string>, overwrite: bool, before: Option<string>): Option<string> {
    if input.Some? then input else if overwrite then None else before
  }

  /** What an account holds after the secrets of one entry were given. */
  function AccountAfter(id: string, secrets: Option<SecretInput>, account: string, before: Option<string>): Option<string> {
    if secrets.None? then before
    else if account == id then Followed(secrets.value.value, secrets.value.overwrite, before)
    else if account == Passphrase(id) then Followed(secrets.value.passphrase, secrets.value.overwrite, before)
    else before
  }

  /** What an account holds after the secrets of several entries were given one after the other. */
  function AccountAfterAll(items: seq<(Entry, Option<SecretInput>)>, account: string, before: Option<string>): Option<string> {
    if items == [] then before
    else AccountAfterAll(items[1..], account, AccountAfter(items[0].0.id, items[0].1, account, before))
  }

  /** The account and the passphrase account of an entry are gone, all others are as they were. */
  ghost predicate AccountsGone(id: string, accounts: Accounts, accounts': Accounts) {
    forall account :: At(accounts', account) == if account == id || account == Passphrase(id) then None else At(accounts, account)
  }

  lemma WritesMean(accounts: Accounts, id: string, secrets: Option<SecretInput>, account: string)
    ensures At(Imposed(accounts, WritesFor(id, secrets)), account) == AccountAfter(id, secrets, account, At(accounts, account))
  {
    assert |Passphrase(id)| != |id|;
    ImposedAt(accounts, WritesFor(id, secrets), account);
  }

  lemma {:induction false} AllWritesMean(accounts: Accounts, items: seq<(Entry, Option<SecretInput>)>, account: string)
    ensures At(Imposed(accounts, AllWrites(items)), account) == AccountAfterAll(items, account, At(accounts, account))
    decreases |items|
  {
    ImposedAt(accounts, AllWrites(items), account);
    if items != [] {
      var first := WritesFor(items[0].0.id, items[0].1);
      var next := Imposed(accounts, first);
      WritesMean(accounts, items[0].0.id, items[0].1, account);
      AllWritesMean(next, items[1..], account);
      ImposedAt(next, AllWrites(items[1..]), account);
      ImposedAt(accounts, first, account);
    }
  }

  // ---------- documents ----------

  /** All that a caller says of an entry. */
  ghost predicate SameContent(e: Entry, asked: Entry) {
    && e.name == asked.name && e.kind == asked.kind && e.fields == asked.fields && e.tags == asked.tags
    && e.note == asked.note && e.refs == asked.refs && e.times == asked.times
  }

  /** With a catalog a changed entry gets a new content revision. */
  function RevisionAfter(d: Document, id: string, before: string, stamp: string -> string): string {
    if d.catalog.Some? then stamp(id) else before
  }

  /** The entry `e` stands where `old` stood, and every other entry and tombstone is as it was. */
  ghost predicate Exchanged(d: Document, d': Document, prior: Entry, e: Entry) {
    && |d'.entries| == |d.entries| && d'.tombstones == d.tombstones
    && forall i :: 0 <= i < |d.entries| ==> d'.entries[i] == if d.entries[i] == prior then e else d.entries[i]
  }

  /** The stored entry is what the caller asked for, under the identity and with the catalog
    attributes of the entry that it replaces. */
  ghost predicate Rewritten(d: Document, d': Document, prior: Entry, asked: Entry, reason: string, stamp: string -> string) {
    exists e ::
      && Exchanged(d, d', prior, e) && SameContent(e, asked) && e.id == prior.id && e.catalogAttributes == prior.catalogAttributes
      && e.contentRevision == RevisionAfter(d, prior.id, prior.contentRevision, stamp)
      && AnnouncedOnly(d.catalog, d'.catalog, e, reason)
  }

  /** Of the catalog only the intents grew, by the announcements of this entry. */
  ghost predicate AnnouncedOnly(c: Option<Catalog>, c': Option<Catalog>, e: Entry, reason: string) {
    && c.Some? == c'.Some?
    && (c.Some? ==>
          && c'.value == c.value.(intents := c'.value.intents)
          && c.value.intents <= c'.value.intents
          && Announces(c'.value.intents[|c.value.intents|..], c.value.bindings, e, reason))
  }

  /** The stored entry is the caller's own. */
  ghost predicate StoredAs(d: Document, e: Entry, asked: Entry, stamp: string -> string) {
    && SameContent(e, asked) && e.id == asked.id && e.catalogAttributes == asked.catalogAttributes
    && e.contentRevision == RevisionAfter(d, asked.id, asked.contentRevision, stamp)
  }

  /** The named entry, by its id if there is one with this id, else by its name. */
  ghost predicate Designates(d: Document, nameOrId: string, e: Entry) {
    e in d.entries && (e.id == nameOrId || (e.name == nameOrId && forall x :: x in d.entries ==> x.id != nameOrId))
  }

  /** What is left of an entry after the entry `gone` was deleted. */
  ghost predicate LeftBehind(d: Document, e: Entry, e': Entry, gone: Entry, stamp: string -> string) {
    if RefersTo(e, gone.name) then
      OnlyDetached(e, e', gone.name, d.catalog.Some?) && e'.contentRevision == RevisionAfter(d, e.id, e.contentRevision, stamp)
    else e' == e
  }

  ghost predicate Deleted(d: Document, d': Document, gone: Entry, stamp: string -> string, now: nat) {
    && Ids(d'.entries) == Ids(d.entries) - {gone.id}
    && (forall e :: e in d.entries && e.id != gone.id ==> exists e' :: e' in d'.entries && LeftBehind(d, e, e', gone, stamp))
    && d'.tombstones == d.tombstones + [Tombstone(gone.id, gone.name, now)]
    && d.catalog.Some? == d'.catalog.Some?
    && (d.catalog.Some? ==> CatalogDeleted(d, d.catalog.value, d'.catalog.value, gone, stamp))
  }

  /** Its bindings are gone, its deletion is marked, and its scopes and those of the entries
    that referred to it are told. */
  ghost predicate CatalogDeleted(d: Document, c: Catalog, c': Catalog, gone: Entry, stamp: string -> string) {
    && c'.scopes == c.scopes && c'.imports == c.imports && c'.rest == c.rest
    && (forall b :: b in c'.bindings <==> b in c.bindings && b.entryId != gone.id)
    && c'.deletions == (if gone.id in c.deletions then c.deletions else c.deletions + [gone.id])
    && c.intents <= c'.intents
    && forall i :: i in c'.intents[|c.intents|..] <==> ToldOfDeletion(d, c, gone, stamp, i)
  }

  ghost predicate ToldOfDeletion(d: Document, c: Catalog, gone: Entry, stamp: string -> string, i: Intent) {
    || (BoundIn(c.bindings, gone.id, i.scopeId) && i == ContentIntent(i.scopeId, gone.id, "entry_deleted", gone.contentRevision))
    || (i.entryId != gone.id && BoundIn(c.bindings, i.entryId, i.scopeId)
        && (exists e :: e in d.entries && e.id == i.entryId && RefersTo(e, gone.name))
        && i == ContentIntent(i.scopeId, i.entryId, "entry_updated", stamp(i.entryId)))
  }

  /** The whole effect of an accepted request. */
  ghost predicate Fulfilled(r: Request, d: Document, accounts: Accounts, d': Document, accounts': Accounts, now: nat) {
    match r
    case CreateEntry(entry, secrets, overwrite, stamp) =>
      if exists prior :: prior in d.entries && prior.name == entry.name then
        exists prior :: prior in d.entries && prior.name == entry.name && overwrite
          && Rewritten(d, d', prior, entry, "entry_replaced", stamp)
          && forall account :: At(accounts', account) == AccountAfter(prior.id, secrets, account, At(accounts, account))
      else
        && (exists e :: StoredAs(d, e, entry, stamp) && d' == d.(entries := d.entries + [e]))
        && forall account :: At(accounts', account) == AccountAfter(entry.id, secrets, account, At(accounts, account))
    case UpdateEntry(entry, secrets, stamp) =>
      && (exists prior :: prior in d.entries && prior.id == entry.id && Rewritten(d, d', prior, entry, "entry_updated", stamp))
      && forall account :: At(accounts', account) == AccountAfter(entry.id, secrets, account, At(accounts, account))
    case DeleteEntry(nameOrId, cascade, stamp) =>
      exists gone :: Designates(d, nameOrId, gone) && Deleted(d, d', gone, stamp, now) && AccountsGone(gone.id, accounts, accounts')
    case BulkCreate(items, stamp) =>
      && (exists added: seq<Entry> :: |added| == |items| && d' == d.(entries := d.entries + added)
            && forall i :: 0 <= i < |items| ==> StoredAs(d, added[i], items[i].0, stamp))
      && forall account :: At(accounts', account) == AccountAfterAll(items, account, At(accounts, account))
    case ApplySnapshot(entries, tombstones, writes, deletes, expected, expectedAccounts) =>
      && d == expected && d' == Document(entries, tombstones, None)
      && forall account :: At(accounts', account) ==
           if account in writes then Some(writes[account]) else if account in deletes then None else At(accounts, account)
  }

  // ---------- one entry ----------

  lemma ReplaceExchanges(d: Document, d': Document, prior: Entry, e: Entry)
    requires UniqueEntries(d.entries) && prior in d.entries && e.id == prior.id
    requires d'.entries == Replace(d.entries, e) && d'.tombstones == d.tombstones
    ensures Exchanged(d, d', prior, e)
  {
    hide Replace, UniqueEntries;
    ReplacedIsThere(d.entries, prior, e);
    OnlyItsPlaceChanged(d.entries, d'.entries, prior, e);
  }

  /** Ids are unique, so that only the place of the entry with this id can have changed. */
  lemma OnlyItsPlaceChanged(entries: seq<Entry>, r: seq<Entry>, prior: Entry, e: Entry)
    requires UniqueEntries(entries) && prior in entries && prior.id == e.id && |r| == |entries| && e in r
    requires forall i :: 0 <= i < |r| ==> r[i] == entries[i] || (entries[i].id == e.id && r[i] == e)
    ensures forall i :: 0 <= i < |entries| ==> r[i] == if entries[i] == prior then e else entries[i]
  {
    var k :| 0 <= k < |entries| && entries[k] == prior;
    var j :| 0 <= j < |r| && r[j] == e;
    assert entries[j].id == e.id;
    assert j == k;
    forall i | 0 <= i < |entries| && i != k ensures r[i] == entries[i] && entries[i] != prior {
      assert entries[i].id != entries[k].id;
    }
  }

  lemma ReplacedIsThere(entries: seq<Entry>, prior: Entry, e: Entry)
    requires prior in entries && e.id == prior.id
    ensures e in Replace(entries, e)
  {
    hide Replace, GetById;
    GetByIdFinds(entries, e.id);
    GetAfterReplace(entries, e, e.id);
    GetByIdFinds(Replace(entries, e), e.id);
    assert prior.id in Ids(entries);
  }

  lemma ChangedEntryRewritten(d: Document, d': Document, prior: Entry, asked: Entry, e: Entry, reason: string, stamp: string -> string)
    requires UniqueEntries(d.entries) && prior in d.entries && d'.entries == Replace(d.entries, e) && d'.tombstones == d.tombstones
    requires SameContent(e, asked) && e.id == prior.id && e.catalogAttributes == prior.catalogAttributes
    requires e.contentRevision == RevisionAfter(d, prior.id, prior.contentRevision, stamp)
    requires d'.catalog == CatalogWithIntents(d.catalog, e, reason)
    ensures Rewritten(d, d', prior, asked, reason, stamp)
  {
    ReplaceExchanges(d, d', prior, e);
    IntentsAreAnnounced(d.catalog, e, reason);
  }

  lemma IntentsAreAnnounced(c: Option<Catalog>, e: Entry, reason: string)
    ensures AnnouncedOnly(c, CatalogWithIntents(c, e, reason), e, reason)
  {
    if c.Some? {
      var intents := IntentsFor(c.value.bindings, e, reason);
      IntentsAnnounceScopes(c.value.bindings, e, reason);
      assert (c.value.intents + intents)[|c.value.intents|..] == intents;
    }
  }

  lemma CreateFulfilled(d: Document, accounts: Accounts, r: Request, now: nat)
    requires WellFormed(d) && r.CreateEntry? && Prepare(d, accounts, r).Ok? && Apply(d, Prepare(d, accounts, r).value, now).Ok?
    ensures var s := Prepare(d, accounts, r).value;
            Fulfilled(r, d, accounts, Apply(d, s, now).value, Imposed(accounts, s.accountsAfter), now)
  {
    var s := Prepare(d, accounts, r).value;
    var d', existing := Apply(d, s, now).value, GetByName(d.entries, r.entry.name);
    GetByNameFinds(d.entries, r.entry.name);
    var e := s.entryAfter.value;
    forall account ensures At(Imposed(accounts, s.accountsAfter), account) == AccountAfter(e.id, r.secrets, account, At(accounts, account)) {
      WritesMean(accounts, e.id, r.secrets, account);
    }
    if existing.Some? {
      assert d'.catalog == CatalogWithIntents(d.catalog, e, "entry_replaced");
      ChangedEntryRewritten(d, d', existing.value, r.entry, e, "entry_replaced", r.stamp);
    } else {
      assert StoredAs(d, e, r.entry, r.stamp) && d' == d.(entries := d.entries + [e]);
    }
  }

  lemma UpdateFulfilled(d: Document, accounts: Accounts, r: Request, now: nat)
    requires WellFormed(d) && r.UpdateEntry? && Prepare(d, accounts, r).Ok? && Apply(d, Prepare(d, accounts, r).value, now).Ok?
    ensures var s := Prepare(d, accounts, r).value;
            Fulfilled(r, d, accounts, Apply(d, s, now).value, Imposed(accounts, s.accountsAfter), now)
  {
    var s := Prepare(d, accounts, r).value;
    var d', existing := Apply(d, s, now).value, GetById(d.entries, r.entry.id).value;
    GetByIdFinds(d.entries, r.entry.id);
    var e := s.entryAfter.value;
    forall account ensures At(Imposed(accounts, s.accountsAfter), account) == AccountAfter(r.entry.id, r.secrets, account, At(accounts, account)) {
      WritesMean(accounts, e.id, r.secrets, account);
    }
    assert d'.catalog == CatalogWithIntents(d.catalog, e, "entry_updated");
    ChangedEntryRewritten(d, d', existing, r.entry, e, "entry_updated", r.stamp);
  }

  // ---------- deletion ----------

  lemma {:induction false} BindingsWithoutExactly(bindings: seq<Binding>, id: string)
    ensures forall b :: b in BindingsWithout(bindings, id) <==> b in bindings && b.entryId != id
  {
    if bindings != [] {
      BindingsWithoutExactly(bindings[1..], id);
      assert bindings == [bindings[0]] + bindings[1..];
    }
  }

  /** The intent tells one of the entry's scopes about it. */
  ghost predicate TellsOf(bindings: seq<Binding>, e: Entry, reason: string, i: Intent) {
    BoundIn(bindings, e.id, i.scopeId) && i == ContentIntent(i.scopeId, e.id, reason, e.contentRevision)
  }

  lemma IntentsTell(bindings: seq<Binding>, e: Entry, reason: string)
    ensures forall i :: i in IntentsFor(bindings, e, reason) <==> TellsOf(bindings, e, reason, i)
  {
    IntentsAnnounceScopes(bindings, e, reason);
    var intents := IntentsFor(bindings, e, reason);
    forall i ensures i in intents <==> TellsOf(bindings, e, reason, i) {
      if BoundIn(bindings, e.id, i.scopeId) {
        assert Announced(intents, i.scopeId);
      } else if i in intents {
        assert Announced(intents, i.scopeId);
      }
    }
  }

  ghost predicate TellsOfAny(bindings: seq<Binding>, entries: seq<Entry>, reason: string, i: Intent) {
    exists e :: e in entries && TellsOf(bindings, e, reason, i)
  }

  lemma {:induction false} AllIntentsTell(c: Catalog, entries: seq<Entry>, reason: string)
    ensures var c' := CatalogWithAllIntents(Some(c), entries, reason);
            && c'.Some? && c'.value == c.(intents := c'.value.intents) && c.intents <= c'.value.intents
            && forall i :: i in c'.value.intents[|c.intents|..] <==> TellsOfAny(c.bindings, entries, reason, i)
    decreases |entries|
  {
    if entries != [] {
      var told := IntentsFor(c.bindings, entries[0], reason);
      var next := c.(intents := c.intents + told);
      IntentsTell(c.bindings, entries[0], reason);
      AllIntentsTell(next, entries[1..], reason);
      hide TellsOf, IntentsFor;
      var last := CatalogWithAllIntents(Some(next), entries[1..], reason).value;
      assert last.intents[|c.intents|..] == told + last.intents[|next.intents|..];
      assert entries == [entries[0]] + entries[1..];
    }
  }

  lemma DetachedMeans(d: Document, e: Entry, gone: Entry, stamp: string -> string)
    requires RefersTo(e, gone.name)
    ensures LeftBehind(d, e, Detached(e, gone.name, d.catalog.Some?, stamp), gone, stamp)
  {
    WithoutRefsExactly(e.refs, gone.name);
  }

  /** What a prepared deletion records, spelled out. */
  ghost predicate PreparedDelete(d: Document, s: State, gone: Entry, stamp: string -> string) {
    && DeletionOf(s, d) && s.entryBefore == Some(gone) && s.entryAfter == None
    && s.dependentsAfter == DetachedAll(s.dependentsBefore, gone.name, d.catalog.Some?, stamp)
    && s.catalogAfter == CatalogWithAllIntents(CatalogAfterDelete(d.catalog, gone), s.dependentsAfter, "entry_updated")
    && s.accountsAfter == map[gone.id := None, Passphrase(gone.id) := None]
  }

  lemma DeletionPrepared(d: Document, accounts: Accounts, r: Request) returns (gone: Entry)
    requires WellFormed(d) && r.DeleteEntry? && Prepare(d, accounts, r).Ok?
    ensures Designates(d, r.nameOrId, gone) && PreparedDelete(d, Prepare(d, accounts, r).value, gone, r.stamp)
  {
    GetByIdFinds(d.entries, r.nameOrId);
    GetByNameFinds(d.entries, r.nameOrId);
    PreparedDeletion(d, accounts, r);
    gone := Prepare(d, accounts, r).value.entryBefore.value;
    forall x | x in d.entries ensures x.id in Ids(d.entries) {
    }
  }

  lemma EntriesLeft(d: Document, s: State, gone: Entry, stamp: string -> string, d': Document, e: Entry)
    requires WellFormed(d) && PreparedDelete(d, s, gone, stamp) && e in d.entries && e.id != gone.id
    requires forall x :: x in s.dependentsAfter && x.id != gone.id ==> GetById(d'.entries, x.id) == Some(x)
    requires (forall x :: x in s.dependentsAfter ==> x.id != e.id) ==> GetById(d'.entries, e.id) == GetById(d.entries, e.id)
    ensures exists e' :: e' in d'.entries && LeftBehind(d, e, e', gone, stamp)
  {
    LookupUnique(d.entries, e);
    GetByIdFinds(d'.entries, e.id);
    if RefersTo(e, gone.name) {
      var i :| 0 <= i < |s.dependentsBefore| && s.dependentsBefore[i] == e;
      DetachedMeans(d, e, gone, stamp);
      assert s.dependentsAfter[i] in s.dependentsAfter && s.dependentsAfter[i].id == e.id;
    } else {
      forall x | x in s.dependentsAfter ensures x.id != e.id {
        var i :| 0 <= i < |s.dependentsAfter| && s.dependentsAfter[i] == x;
        assert s.dependentsBefore[i] in d.entries;
        LookupUnique(d.entries, s.dependentsBefore[i]);
      }
    }
  }

  lemma CatalogOfDeletion(d: Document, s: State, gone: Entry, stamp: string -> string)
    requires WellFormed(d) && PreparedDelete(d, s, gone, stamp) && d.catalog.Some?
    ensures s.catalogAfter.Some? && CatalogDeleted(d, d.catalog.value, s.catalogAfter.value, gone, stamp)
  {
    var c := d.catalog.value;
    var told := IntentsFor(c.bindings, gone, "entry_deleted");
    var first := CatalogAfterDelete(d.catalog, gone).value;
    BindingsWithoutExactly(c.bindings, gone.id);
    IntentsTell(c.bindings, gone, "entry_deleted");
    AllIntentsTell(first, s.dependentsAfter, "entry_updated");
    hide IntentsFor, TellsOf;
    var c' := s.catalogAfter.value;
    assert c'.intents[|c.intents|..] == told + c'.intents[|first.intents|..];
    forall i ensures i in c'.intents[|c.intents|..] <==> ToldOfDeletion(d, c, gone, stamp, i) {
      ToldByDependents(d, s, gone, stamp, first.bindings, i);
      TellsOfGone(c, gone, i);
    }
  }

  lemma TellsOfGone(c: Catalog, gone: Entry, i: Intent)
    ensures TellsOf(c.bindings, gone, "entry_deleted", i) <==>
              BoundIn(c.bindings, gone.id, i.scopeId) && i == ContentIntent(i.scopeId, gone.id, "entry_deleted", gone.contentRevision)
  {
  }

  lemma ToldByDependents(d: Document, s: State, gone: Entry, stamp: string -> string, left: seq<Binding>, i: Intent)
    requires WellFormed(d) && PreparedDelete(d, s, gone, stamp) && d.catalog.Some?
    requires forall b :: b in left <==> b in d.catalog.value.bindings && b.entryId != gone.id
    ensures TellsOfAny(left, s.dependentsAfter, "entry_updated", i) <==>
              && i.entryId != gone.id && BoundIn(d.catalog.value.bindings, i.entryId, i.scopeId)
              && (exists e :: e in d.entries && e.id == i.entryId && RefersTo(e, gone.name))
              && i == ContentIntent(i.scopeId, i.entryId, "entry_updated", stamp(i.entryId))
  {
    assert forall k :: 0 <= k < |s.dependentsBefore| ==>
        s.dependentsAfter[k].id == s.dependentsBefore[k].id
        && s.dependentsAfter[k].contentRevision == stamp(s.dependentsBefore[k].id);
    assert forall e :: e in s.dependentsBefore <==> e in d.entries && RefersTo(e, gone.name);
    hide PreparedDelete, RefersTo, DetachedAll, WellFormed, BoundIn;
    assert BoundIn(left, i.entryId, i.scopeId) <==> i.entryId != gone.id && BoundIn(d.catalog.value.bindings, i.entryId, i.scopeId) by {
      BoundApart(d.catalog.value.bindings, left, gone.id, i.entryId, i.scopeId);
    }
    ToldByStamped(s.dependentsBefore, s.dependentsAfter, stamp, left, i);
  }

  lemma BoundApart(bindings: seq<Binding>, left: seq<Binding>, gone: string, id: string, scope: string)
    requires forall b :: b in left <==> b in bindings && b.entryId != gone
    ensures BoundIn(left, id, scope) <==> id != gone && BoundIn(bindings, id, scope)
  {
    if BoundIn(bindings, id, scope) && id != gone {
      var b :| b in bindings && b.entryId == id && b.scopeId == scope;
      assert b in left;
    }
  }

  /** Images under their old ids and with stamped revisions are told as such. */
  lemma ToldByStamped(before: seq<Entry>, after: seq<Entry>, stamp: string -> string, left: seq<Binding>, i: Intent)
    requires |after| == |before|
    requires forall k :: 0 <= k < |before| ==> after[k].id == before[k].id && after[k].contentRevision == stamp(before[k].id)
    ensures TellsOfAny(left, after, "entry_updated", i) <==>
              && BoundIn(left, i.entryId, i.scopeId) && (exists e :: e in before && e.id == i.entryId)
              && i == ContentIntent(i.scopeId, i.entryId, "entry_updated", stamp(i.entryId))
  {
    hide BoundIn;
    if TellsOfAny(left, after, "entry_updated", i) {
      var x :| x in after && TellsOf(left, x, "entry_updated", i);
      var k :| 0 <= k < |after| && after[k] == x;
      assert before[k] in before;
    }
    if e :| e in before && e.id == i.entryId {
      var k :| 0 <= k < |before| && before[k] == e;
      assert after[k] in after;
    }
  }

  lemma DeleteFulfilled(d: Document, accounts: Accounts, r: Request, now: nat)
    requires WellFormed(d) && r.DeleteEntry? && Prepare(d, accounts, r).Ok? && Apply(d, Prepare(d, accounts, r).value, now).Ok?
    ensures var s := Prepare(d, accounts, r).value;
            Fulfilled(r, d, accounts, Apply(d, s, now).value, Imposed(accounts, s.accountsAfter), now)
  {
    var s := Prepare(d, accounts, r).value;
    var d' := Apply(d, s, now).value;
    var gone := DeletionPrepared(d, accounts, r);
    DeleteApplied(d, s, now);
    PreparedImages(d, accounts, r);
    hide Prepare, Apply, CatalogWithAllIntents, DetachedAll;
    forall e | e in d.entries && e.id != gone.id ensures exists e' :: e' in d'.entries && LeftBehind(d, e, e', gone, r.stamp) {
      EntriesLeft(d, s, gone, r.stamp, d', e);
    }
    if d.catalog.Some? {
      CatalogOfDeletion(d, s, gone, r.stamp);
    }
    forall account
      ensures At(Imposed(accounts, s.accountsAfter), account) ==
              if account == gone.id || account == Passphrase(gone.id) then None else At(accounts, account)
    {
      ImposedAt(accounts, s.accountsAfter, account);
    }
    hide LeftBehind, CatalogDeleted;
    assert Deleted(d, d', gone, r.stamp, now);
  }

  // ---------- whole documents ----------

  lemma {:induction false} AddAllMeans(d: Document, items: seq<(Entry, Option<SecretInput>)>, stamp: string -> string)
    returns (added: seq<Entry>)
    requires AddAll(d, items, stamp).Ok?
    ensures |added| == |items| && AddAll(d, items, stamp).value == d.(entries := d.entries + added)
    ensures forall i :: 0 <= i < |items| ==> StoredAs(d, added[i], items[i].0, stamp)
    decreases |items|
  {
    if items == [] {
      added := [];
      assert d.entries + [] == d.entries;
    } else {
      var first, next := FirstAdded(d, items, stamp);
      hide AddAll, StoredAs;
      var rest := AddAllMeans(next, items[1..], stamp);
      added := [first] + rest;
      assert d.entries + [first] + rest == d.entries + added;
      forall i | 0 <= i < |items| ensures StoredAs(d, added[i], items[i].0, stamp) {
        if i > 0 {
          assert StoredAs(next, rest[i - 1], items[1..][i - 1].0, stamp);
          StoredAlike(next, d, rest[i - 1], items[i].0, stamp);
        }
      }
    }
  }

  lemma FirstAdded(d: Document, items: seq<(Entry, Option<SecretInput>)>, stamp: string -> string) returns (first: Entry, next: Document)
    requires items != [] && AddAll(d, items, stamp).Ok?
    ensures next == d.(entries := d.entries + [first]) && StoredAs(d, first, items[0].0, stamp)
    ensures AddAll(d, items, stamp) == AddAll(next, items[1..], stamp)
  {
    var e := items[0].0;
    first := if d.catalog.Some? then e.(contentRevision := stamp(e.id)) else e;
    next := d.(entries := d.entries + [first]);
  }

  lemma StoredAlike(d: Document, d': Document, e: Entry, asked: Entry, stamp: string -> string)
    requires d.catalog == d'.catalog && StoredAs(d, e, asked, stamp)
    ensures StoredAs(d', e, asked, stamp)
  {
  }

  lemma BulkFulfilled(d: Document, accounts: Accounts, r: Request, now: nat)
    requires WellFormed(d) && r.BulkCreate? && Prepare(d, accounts, r).Ok? && Apply(d, Prepare(d, accounts, r).value, now).Ok?
    ensures var s := Prepare(d, accounts, r).value;
            Fulfilled(r, d, accounts, Apply(d, s, now).value, Imposed(accounts, s.accountsAfter), now)
  {
    var s := Prepare(d, accounts, r).value;
    var added := AddAllMeans(d, r.items, r.stamp);
    forall account ensures At(Imposed(accounts, s.accountsAfter), account) == AccountAfterAll(r.items, account, At(accounts, account)) {
      AllWritesMean(accounts, r.items, account);
    }
  }

  lemma SnapshotFulfilled(d: Document, accounts: Accounts, r: Request, now: nat)
    requires WellFormed(d) && r.ApplySnapshot? && Prepare(d, accounts, r).Ok? && Apply(d, Prepare(d, accounts, r).value, now).Ok?
    ensures var s := Prepare(d, accounts, r).value;
            Fulfilled(r, d, accounts, Apply(d, s, now).value, Imposed(accounts, s.accountsAfter), now)
  {
    var s := Prepare(d, accounts, r).value;
    forall account
      ensures At(Imposed(accounts, s.accountsAfter), account) ==
              if account in r.writes then Some(r.writes[account]) else if account in r.deletes then None else At(accounts, account)
    {
      ImposedAt(accounts, s.accountsAfter, account);
      NoneInBoth(r.deletes, r.writes.Keys);
    }
  }

  lemma NoneInBoth(a: set<string>, b: set<string>)
    requires a * b == {}
    ensures forall x :: x in a ==> x !in b
  {
    forall x | x in a ensures x !in b {
      assert x in a * b <==> x in b;
    }
  }

  /** A prepared and applied request does what it asks for, and nothing else. */
  lemma AppliedIsFulfilled(d: Document, accounts: Accounts, r: Request, now: nat)
    requires WellFormed(d) && Prepare(d, accounts, r).Ok? && Apply(d, Prepare(d, accounts, r).value, now).Ok?
    ensures var s := Prepare(d, accounts, r).value;
            Fulfilled(r, d, accounts, Apply(d, s, now).value, Imposed(accounts, s.accountsAfter), now)
  {
    match r
    case CreateEntry(_, _, _, _) => CreateFulfilled(d, accounts, r, now);
    case UpdateEntry(_, _, _) => UpdateFulfilled(d, accounts, r, now);
    case DeleteEntry(_, _, _) => DeleteFulfilled(d, accounts, r, now);
    case BulkCreate(_, _) => BulkFulfilled(d, accounts, r, now);
    case ApplySnapshot(_, _, _, _, _, _) => SnapshotFulfilled(d, accounts, r, now);
  }

  /** The request deletes an entry that refers to itself. */
  ghost predicate DeletesItself(r: Request, d: Document) {
    r.DeleteEntry? && exists gone :: Designates(d, r.nameOrId, gone) && RefersTo(gone, gone.name)
  }

  lemma SelfReferringIff(d: Document, accounts: Accounts, r: Request)
    requires WellFormed(d) && Prepare(d, accounts, r).Ok?
    ensures SelfReferring(Prepare(d, accounts, r).value) <==> DeletesItself(r, d)
  {
    if r.DeleteEntry? {
      FoundByName(d.entries, r.nameOrId);
      FoundById(d.entries, r.nameOrId);
      var found := if GetById(d.entries, r.nameOrId).Some? then GetById(d.entries, r.nameOrId) else GetByName(d.entries, r.nameOrId);
      assert forall gone :: Designates(d, r.nameOrId, gone) <==> found == Some(gone);
    }
    hide Designates, GetById, GetByName, RefersTo, WellFormed, DependentsOf, DetachedAll, CatalogWithAllIntents, CatalogAfterDelete,
      AddAll, AllWrites, WritesFor, CatalogWithIntents;
  }

  // ---------- which requests are accepted ----------

  /** An entry that needs a secret has one once the request is carried out. */
  ghost predicate Supplied(asked: Entry, id: string, secrets: Option<SecretInput>, accounts: Accounts) {
    asked.NeedsSecret() ==> AccountAfter(id, secrets, id, At(accounts, id)).Some?
  }

  function ItemEntries(items: seq<(Entry, Option<SecretInput>)>): seq<Entry> {
    seq(|items|, i requires 0 <= i < |items| => items[i].0)
  }

  /** The account belongs to an entry or a tombstone of this document. */
  ghost predicate Owned(d: Document, account: string) {
    || (exists e :: e in d.entries && (account == e.id || account == Passphrase(e.id)))
    || (exists t :: t in d.tombstones && (account == t.id || account == Passphrase(t.id)))
  }

  /** A request that the vault as it is admits. */
  ghost predicate Grantable(r: Request, d: Document, accounts: Accounts) {
    match r
    case CreateEntry(entry, secrets, overwrite, stamp) =>
      if exists prior :: prior in d.entries && prior.name == entry.name then
        overwrite && exists prior :: prior in d.entries && prior.name == entry.name && Supplied(entry, prior.id, secrets, accounts)
      else (forall e :: e in d.entries ==> e.id != entry.id) && Supplied(entry, entry.id, secrets, accounts)
    case UpdateEntry(entry, secrets, stamp) =>
      && (exists prior :: prior in d.entries && prior.id == entry.id
            && (prior.name == entry.name || (forall e :: e in d.entries ==> e.name != entry.name && !RefersTo(e, prior.name))))
      && Supplied(entry, entry.id, secrets, accounts)
    case DeleteEntry(nameOrId, cascade, stamp) =>
      exists gone :: Designates(d, nameOrId, gone) && (cascade || forall e :: e in d.entries ==> !RefersTo(e, gone.name))
    case BulkCreate(items, stamp) =>
      && UniqueEntries(d.entries + ItemEntries(items))
      && forall e :: e in d.entries + ItemEntries(items) && e.NeedsSecret() ==> AccountAfterAll(items, e.id, At(accounts, e.id)).Some?
    case ApplySnapshot(entries, tombstones, writes, deletes, expected, expectedAccounts) =>
      && d == expected && d.catalog.None? && UniqueEntries(entries) && (forall account :: account in deletes ==> account !in writes)
      && expectedAccounts.Keys == writes.Keys + deletes
      && (forall account :: account in expectedAccounts ==>
            && expectedAccounts[account] == At(accounts, account)
            && (Owned(d, account) || Owned(Document(entries, tombstones, None), account)))
      && forall e :: e in entries && e.NeedsSecret() ==> e.id in writes || (e.id in accounts && e.id !in deletes)
  }

  /** The request passes every check that is made before anything durable happens. */
  predicate Granted(r: Request, d: Document, accounts: Accounts, now: nat) {
    var prepared := Prepare(d, accounts, r);
    prepared.Ok? && RequiredSecretsPresent(prepared.value, accounts) && Apply(d, prepared.value, now).Ok?
  }

  lemma PresentAfter(accounts: Accounts, images: Images, account: string)
    ensures (if account in images then images[account].Some? else account in accounts) <==> At(Imposed(accounts, images), account).Some?
  {
    ImposedAt(accounts, images, account);
  }

  lemma FoundByName(entries: seq<Entry>, name: string)
    requires UniqueEntries(entries)
    ensures forall e :: e in entries && e.name == name ==> GetByName(entries, name) == Some(e)
    ensures GetByName(entries, name).Some? <==> exists e :: e in entries && e.name == name
  {
    GetByNameFinds(entries, name);
    forall e | e in entries && e.name == name ensures GetByName(entries, name) == Some(e) {
      LookupUnique(entries, e);
    }
  }

  lemma FoundById(entries: seq<Entry>, id: string)
    requires UniqueEntries(entries)
    ensures forall e :: e in entries && e.id == id ==> GetById(entries, id) == Some(e)
    ensures GetById(entries, id).Some? <==> exists e :: e in entries && e.id == id
  {
    GetByIdFinds(entries, id);
    forall e | e in entries && e.id == id ensures GetById(entries, id) == Some(e) {
      LookupUnique(entries, e);
    }
  }

  lemma StillResolved(c: Catalog, ids: set<string>, more: set<string>)
    requires BindingsResolve(c, ids) && ids <= more
    ensures BindingsResolve(c, more)
  {
  }

  /** The one entry that a creation or an update writes, and its secrets. */
  ghost predicate Writes(s: State, asked: Entry, id: string, secrets: Option<SecretInput>) {
    && s.Edit? && s.entryAfter.Some? && s.accountsAfter == WritesFor(id, secrets)
    && var e := s.entryAfter.value; e.id == id && e.name == asked.name && e.kind == asked.kind && e.fields == asked.fields
  }

  lemma SuppliedIff(s: State, asked: Entry, id: string, secrets: Option<SecretInput>, accounts: Accounts)
    requires Writes(s, asked, id, secrets)
    ensures RequiredSecretsPresent(s, accounts) <==> Supplied(asked, id, secrets, accounts)
  {
    WritesMean(accounts, id, secrets, id);
    PresentAfter(accounts, s.accountsAfter, id);
    hide WritesFor, AccountAfter;
    var e := s.entryAfter.value;
    assert e.NeedsSecret() <==> asked.NeedsSecret();
    assert e in [e];
  }

  lemma CreateApplies(d: Document, accounts: Accounts, r: Request, now: nat)
    requires WellFormed(d) && r.CreateEntry? && Prepare(d, accounts, r).Ok?
    ensures var existing, s := GetByName(d.entries, r.entry.name), Prepare(d, accounts, r).value;
            && Writes(s, r.entry, if existing.Some? then existing.value.id else r.entry.id, r.secrets)
            && Apply(d, s, now).Ok?
  {
    var existing, s := GetByName(d.entries, r.entry.name), Prepare(d, accounts, r).value;
    var e := s.entryAfter.value;
    GetByNameFinds(d.entries, r.entry.name);
    if existing.Some? {
      LookupUnique(d.entries, existing.value);
      GetAfterReplace(d.entries, e, e.id);
    } else {
      assert Ids(d.entries) <= Ids(d.entries + [e]);
    }
  }

  lemma CreateGrantedIff(d: Document, accounts: Accounts, r: Request, now: nat)
    requires WellFormed(d) && r.CreateEntry?
    ensures Granted(r, d, accounts, now) <==> Grantable(r, d, accounts)
  {
    FoundByName(d.entries, r.entry.name);
    FoundById(d.entries, r.entry.id);
    if Prepare(d, accounts, r).Ok? {
      CreateApplies(d, accounts, r, now);
      var existing := GetByName(d.entries, r.entry.name);
      var id := if existing.Some? then existing.value.id else r.entry.id;
      SuppliedIff(Prepare(d, accounts, r).value, r.entry, id, r.secrets, accounts);
    }
    hide Apply, Writes, Supplied, RequiredSecretsPresent, GetByName, GetById, UniqueEntries, WritesFor;
  }

  lemma UpdateApplies(d: Document, accounts: Accounts, r: Request, now: nat)
    requires WellFormed(d) && r.UpdateEntry? && Prepare(d, accounts, r).Ok?
    ensures var s := Prepare(d, accounts, r).value;
            && Writes(s, r.entry, r.entry.id, r.secrets)
            && (Apply(d, s, now).Ok? <==> GetByName(d.entries, r.entry.name).None? || GetByName(d.entries, r.entry.name).value.id == r.entry.id)
  {
    hide CatalogWithIntents, Referenced, GetById, GetByName, WritesFor, SnapshotAccounts, WellFormed, Apply;
    GetByIdFinds(d.entries, r.entry.id);
    UpdatedEntryApplies(d, Prepare(d, accounts, r).value, now);
  }

  lemma UpdatedEntryApplies(d: Document, s: State, now: nat)
    requires WellFormed(d) && s.Edit? && s.action == Update && s.entryBefore.Some? && s.entryAfter.Some?
    requires var prior, e := s.entryBefore.value, s.entryAfter.value;
             && GetById(d.entries, e.id) == Some(prior) && prior.id == e.id
             && (prior.name != e.name ==> !Referenced(d.entries, prior.name))
             && s.catalogAfter == CatalogWithIntents(d.catalog, e, "entry_updated")
    ensures var e := s.entryAfter.value;
            Apply(d, s, now).Ok? <==> GetByName(d.entries, e.name).None? || GetByName(d.entries, e.name).value.id == e.id
  {
    hide Referenced, GetById, GetByName, Replace, UniqueEntries, Ids, IntentsFor;
    var e := s.entryAfter.value;
    GetAfterReplace(d.entries, e, e.id);
    if d.catalog.Some? {
      assert BindingsResolve(s.catalogAfter.value, Ids(Replace(d.entries, e)));
    }
    hide CatalogWithIntents, BindingsResolve;
  }

  lemma UpdateGrantedIff(d: Document, accounts: Accounts, r: Request, now: nat)
    requires WellFormed(d) && r.UpdateEntry?
    ensures Granted(r, d, accounts, now) <==> Grantable(r, d, accounts)
  {
    FoundByName(d.entries, r.entry.name);
    FoundById(d.entries, r.entry.id);
    if Prepare(d, accounts, r).Ok? {
      UpdateApplies(d, accounts, r, now);
      SuppliedIff(Prepare(d, accounts, r).value, r.entry, r.entry.id, r.secrets, accounts);
    }
    hide Apply, Writes, Supplied, RequiredSecretsPresent, GetByName, GetById, UniqueEntries, WritesFor, RefersTo;
    var prior := GetById(d.entries, r.entry.id);
    if prior.Some? && prior.value.name != r.entry.name {
      assert GetByName(d.entries, r.entry.name).Some? ==> GetByName(d.entries, r.entry.name).value != prior.value;
    }
  }

  lemma {:induction false} DependentsApplyAgain(d: Document, before: seq<Entry>, after: seq<Entry>)
    requires UniqueEntries(d.entries) && UniqueEntries(before) && SameIdentities(before, after)
    requires forall e :: e in before ==> GetById(d.entries, e.id) == Some(e)
    ensures ApplyDependents(d, before, after).Ok?
    decreases |before|
  {
    if before != [] {
      var prior, first := before[0], after[0];
      GetByIdFinds(d.entries, prior.id);
      LookupUnique(d.entries, prior);
      UpdateApplied(d, first);
      OthersDiffer(before, after);
      var next := TxUpdate(d, first).value;
      hide UniqueEntries, TxUpdate, GetById;
      forall e | e in before[1..] ensures GetById(next.entries, e.id) == Some(e) {
        var j :| 0 <= j < |before[1..]| && before[1..][j] == e;
        assert after[1..][j].id == e.id && after[1..][j] in after[1..];
      }
      DependentsApplyAgain(next, before[1..], after[1..]);
    }
  }

  lemma DeleteGrantedIff(d: Document, accounts: Accounts, r: Request, now: nat)
    requires WellFormed(d) && r.DeleteEntry?
    ensures Granted(r, d, accounts, now) <==> Grantable(r, d, accounts)
  {
    FoundByName(d.entries, r.nameOrId);
    FoundById(d.entries, r.nameOrId);
    var found := if GetById(d.entries, r.nameOrId).Some? then GetById(d.entries, r.nameOrId) else GetByName(d.entries, r.nameOrId);
    assert forall gone :: Designates(d, r.nameOrId, gone) <==> found == Some(gone);
    if found.Some? {
      var dependents := DependentsOf(d.entries, found.value.name);
      DependentsExactly(d.entries, found.value.name);
      assert dependents == [] <==> forall e :: e in d.entries ==> !RefersTo(e, found.value.name) by {
        assert dependents != [] ==> dependents[0] in dependents;
      }
      if Prepare(d, accounts, r).Ok? {
        DeletionApplies(d, accounts, r, now);
      }
    }
    hide Apply, Designates, DependentsOf, DetachedAll, RefersTo, GetById, GetByName, WellFormed, CatalogWithAllIntents,
      CatalogAfterDelete, SnapshotAccounts;
  }

  lemma DeletionApplies(d: Document, accounts: Accounts, r: Request, now: nat)
    requires WellFormed(d) && r.DeleteEntry? && Prepare(d, accounts, r).Ok?
    ensures Apply(d, Prepare(d, accounts, r).value, now).Ok?
  {
    var s := Prepare(d, accounts, r).value;
    var gone := DeletionPrepared(d, accounts, r);
    DeletedEntryApplies(d, s, gone, r.stamp, now);
    if d.catalog.Some? {
      CatalogOfDeletion(d, s, gone, r.stamp);
    } else {
      AllIntentsKeepPresence(CatalogAfterDelete(d.catalog, gone), s.dependentsAfter, "entry_updated");
    }
    hide Prepare, ApplyEntry, CatalogWithAllIntents, PreparedDelete;
  }

  lemma DeletedEntryApplies(d: Document, s: State, gone: Entry, stamp: string -> string, now: nat)
    requires WellFormed(d) && PreparedDelete(d, s, gone, stamp)
    ensures ApplyEntry(d, s, now).Ok? && Ids(ApplyEntry(d, s, now).value.entries) == Ids(d.entries) - {gone.id}
    ensures ApplyEntry(d, s, now).value.catalog == d.catalog
  {
    LookupUnique(d.entries, gone);
    forall e | e in s.dependentsBefore ensures GetById(d.entries, e.id) == Some(e) {
      LookupUnique(d.entries, e);
    }
    DependentsApplyAgain(d, s.dependentsBefore, s.dependentsAfter);
    var detached := ApplyDependents(d, s.dependentsBefore, s.dependentsAfter).value;
    DependentsApplied(d, s.dependentsBefore, s.dependentsAfter);
    StillNamed(d, s, detached);
    GetByNameFinds(detached.entries, gone.name);
    var current :| current in detached.entries && current.id == gone.id && current.name == gone.name;
    LookupUnique(detached.entries, current);
    RemovedExactly(detached.entries, current);
  }

  lemma UniqueFront(a: seq<Entry>, b: seq<Entry>)
    requires UniqueEntries(a + b)
    ensures UniqueEntries(a)
  {
    forall i, j | 0 <= i < j < |a| ensures a[i].id != a[j].id && a[i].name != a[j].name {
      assert (a + b)[i] == a[i] && (a + b)[j] == a[j];
    }
  }

  lemma AppendUniqueIff(entries: seq<Entry>, e: Entry)
    requires UniqueEntries(entries)
    ensures UniqueEntries(entries + [e]) <==> GetById(entries, e.id).None? && GetByName(entries, e.name).None?
  {
    FoundById(entries, e.id);
    FoundByName(entries, e.name);
    if UniqueEntries(entries + [e]) {
      forall x | x in entries ensures x.id != e.id && x.name != e.name {
        var i :| 0 <= i < |entries| && entries[i] == x;
        assert (entries + [e])[i] == x && (entries + [e])[|entries|] == e;
      }
    }
  }

  ghost predicate SameNames(a: seq<Entry>, b: seq<Entry>) {
    |a| == |b| && forall i :: 0 <= i < |a| ==> a[i].id == b[i].id && a[i].name == b[i].name
  }

  lemma UniqueByNames(a: seq<Entry>, b: seq<Entry>)
    requires SameNames(a, b)
    ensures UniqueEntries(a) <==> UniqueEntries(b)
  {
  }

  lemma {:induction false} AddAllOkIff(d: Document, items: seq<(Entry, Option<SecretInput>)>, stamp: string -> string)
    requires UniqueEntries(d.entries)
    ensures AddAll(d, items, stamp).Ok? <==> UniqueEntries(d.entries + ItemEntries(items))
    decreases |items|
  {
    if items == [] {
      assert d.entries + ItemEntries(items) == d.entries;
    } else {
      var e := items[0].0;
      var first := if d.catalog.Some? then e.(contentRevision := stamp(e.id)) else e;
      var next := d.(entries := d.entries + [first]);
      AppendUniqueIff(d.entries, first);
      assert SameNames(d.entries + ItemEntries(items), d.entries + [first] + ItemEntries(items[1..]));
      UniqueByNames(d.entries + ItemEntries(items), d.entries + [first] + ItemEntries(items[1..]));
      if UniqueEntries(next.entries) {
        AddAllOkIff(next, items[1..], stamp);
      } else if UniqueEntries(d.entries + ItemEntries(items)) {
        UniqueFront(d.entries + [first], ItemEntries(items[1..]));
      }
    }
  }

  lemma {:induction false} AllWritesBelong(items: seq<(Entry, Option<SecretInput>)>, account: string)
    requires account in AllWrites(items)
    ensures exists i :: 0 <= i < |items| && (account == items[i].0.id || account == Passphrase(items[i].0.id))
  {
    if account in AllWrites(items[1..]) {
      AllWritesBelong(items[1..], account);
      var i :| 0 <= i < |items[1..]| && (account == items[1..][i].0.id || account == Passphrase(items[1..][i].0.id));
      assert items[i + 1] == items[1..][i];
    } else {
      assert account in WritesFor(items[0].0.id, items[0].1);
    }
  }

  lemma BulkBelongs(d: Document, items: seq<(Entry, Option<SecretInput>)>, stamp: string -> string)
    requires AddAll(d, items, stamp).Ok?
    ensures AccountsBelong(d, AddAll(d, items, stamp).value, AllWrites(items))
  {
    var added := AddAllMeans(d, items, stamp);
    var after := AddAll(d, items, stamp).value;
    forall account | account in AllWrites(items)
      ensures exists id :: id in Ids(after.entries) && (account == id || account == Passphrase(id))
    {
      AllWritesBelong(items, account);
      var i :| 0 <= i < |items| && (account == items[i].0.id || account == Passphrase(items[i].0.id));
      assert after.entries[|d.entries| + i] == added[i] && added[i] in after.entries;
      assert StoredAs(d, added[i], items[i].0, stamp) && added[i].id in Ids(after.entries);
    }
  }

  lemma BulkResult(d: Document, items: seq<(Entry, Option<SecretInput>)>, stamp: string -> string)
    requires WellFormed(d) && AddAll(d, items, stamp).Ok?
    ensures var after := AddAll(d, items, stamp).value;
            && WellFormed(after) && after.catalog == d.catalog
            && |after.entries| == |d.entries + ItemEntries(items)|
            && forall i :: 0 <= i < |after.entries| ==> AlikeInNeeds(after.entries[i], (d.entries + ItemEntries(items))[i])
  {
    AddAllOkIff(d, items, stamp);
    var added := AddAllMeans(d, items, stamp);
    hide AddAll, UniqueEntries;
    var before, after := d.entries + ItemEntries(items), d.entries + added;
    forall i | 0 <= i < |after| ensures AlikeInNeeds(after[i], before[i]) && after[i].name == before[i].name {
      if i >= |d.entries| {
        assert StoredAs(d, added[i - |d.entries|], items[i - |d.entries|].0, stamp);
      }
    }
    UniqueByNames(after, before);
    assert Ids(d.entries) <= Ids(after);
  }

  predicate AlikeInNeeds(e: Entry, e': Entry) {
    e.id == e'.id && (e.NeedsSecret() <==> e'.NeedsSecret())
  }

  lemma BulkApplies(d: Document, accounts: Accounts, r: Request, now: nat)
    requires WellFormed(d) && r.BulkCreate? && AddAll(d, r.items, r.stamp).Ok?
    ensures Prepare(d, accounts, r).Ok? && Apply(d, Prepare(d, accounts, r).value, now).Ok?
  {
    hide AddAll, AllWrites, AccountsBelong, UniqueEntries, BindingsResolve, SnapshotAccounts, AlikeInNeeds;
    BulkBelongs(d, r.items, r.stamp);
    BulkResult(d, r.items, r.stamp);
  }

  lemma BulkSupplied(d: Document, accounts: Accounts, r: Request, s: State)
    requires WellFormed(d) && r.BulkCreate? && AddAll(d, r.items, r.stamp).Ok?
    requires s.ReplaceAll? && s.documentAfter == AddAll(d, r.items, r.stamp).value && s.accountsAfter == AllWrites(r.items)
    ensures RequiredSecretsPresent(s, accounts) <==>
              forall e :: e in d.entries + ItemEntries(r.items) && e.NeedsSecret() ==> AccountAfterAll(r.items, e.id, At(accounts, e.id)).Some?
  {
    hide AddAll, AllWrites, AccountAfterAll, WellFormed, Entry.NeedsSecret, At, Imposed;
    BulkResult(d, r.items, r.stamp);
    forall account
      ensures (if account in s.accountsAfter then s.accountsAfter[account].Some? else account in accounts)
              <==> AccountAfterAll(r.items, account, At(accounts, account)).Some?
    {
      AllWritesMean(accounts, r.items, account);
      PresentAfter(accounts, s.accountsAfter, account);
    }
    NeedsAgree(d.entries + ItemEntries(r.items), s.documentAfter.entries,
               account => AccountAfterAll(r.items, account, At(accounts, account)).Some?);
  }

  /** Whether all needs are met depends on the ids and needs of the entries alone. */
  lemma NeedsAgree(before: seq<Entry>, after: seq<Entry>, met: string -> bool)
    requires |before| == |after|
    requires forall i :: 0 <= i < |after| ==> AlikeInNeeds(after[i], before[i])
    ensures (forall e :: e in before && e.NeedsSecret() ==> met(e.id)) <==> (forall e :: e in after && e.NeedsSecret() ==> met(e.id))
  {
    hide Entry.NeedsSecret;
    if forall e :: e in after && e.NeedsSecret() ==> met(e.id) {
      forall e | e in before && e.NeedsSecret() ensures met(e.id) {
        var i :| 0 <= i < |before| && before[i] == e;
        assert after[i] in after;
      }
    }
    if forall e :: e in before && e.NeedsSecret() ==> met(e.id) {
      forall e | e in after && e.NeedsSecret() ensures met(e.id) {
        var i :| 0 <= i < |after| && after[i] == e;
        assert before[i] in before;
      }
    }
  }

  lemma BulkGrantedIff(d: Document, accounts: Accounts, r: Request, now: nat)
    requires WellFormed(d) && r.BulkCreate?
    ensures Granted(r, d, accounts, now) <==> Grantable(r, d, accounts)
  {
    AddAllOkIff(d, r.items, r.stamp);
    if AddAll(d, r.items, r.stamp).Ok? {
      BulkApplies(d, accounts, r, now);
      BulkSupplied(d, accounts, r, Prepare(d, accounts, r).value);
    }
  }

  lemma BelongIff(d: Document, after: Document, targets: Images)
    ensures AccountsBelong(d, after, targets) <==> forall account :: account in targets ==> Owned(d, account) || Owned(after, account)
  {
    var ids := Ids(d.entries) + Ids(after.entries)
               + (set t | t in d.tombstones :: t.id) + (set t | t in after.tombstones :: t.id);
    var passphrases := set id | id in ids :: Passphrase(id);
    forall account ensures account in ids + passphrases <==> Owned(d, account) || Owned(after, account) {
      if account in passphrases {
        var id :| id in ids && account == Passphrase(id);
      }
      if e :| e in d.entries && (account == e.id || account == Passphrase(e.id)) {
        assert e.id in ids;
      }
      if e :| e in after.entries && (account == e.id || account == Passphrase(e.id)) {
        assert e.id in ids;
      }
      if t :| t in d.tombstones && (account == t.id || account == Passphrase(t.id)) {
        assert t.id in ids;
      }
      if t :| t in after.tombstones && (account == t.id || account == Passphrase(t.id)) {
        assert t.id in ids;
      }
    }
  }

  lemma SnapshotTargets(writes: Accounts, deletes: set<string>)
    ensures SnapshotWrites(writes, deletes).Keys == writes.Keys + deletes
    ensures writes.Keys * deletes == {} <==> forall account :: account in deletes ==> account !in writes
    ensures forall account :: account in SnapshotWrites(writes, deletes) ==>
        (SnapshotWrites(writes, deletes)[account].Some? <==> account !in deletes)
  {
    assert (forall account :: account in deletes ==> account !in writes) ==> writes.Keys * deletes == {};
    forall account | account in deletes && account in writes ensures writes.Keys * deletes != {} {
      assert account in writes.Keys * deletes;
    }
  }

  lemma SnapshotGrantedIff(d: Document, accounts: Accounts, r: Request, now: nat)
    requires WellFormed(d) && r.ApplySnapshot?
    ensures Granted(r, d, accounts, now) <==> Grantable(r, d, accounts)
  {
    hide SnapshotWrites, UniqueEntries, Entry.NeedsSecret, AccountsBelong, Owned, WellFormed, BindingsResolve;
    var targets, after := SnapshotWrites(r.writes, r.deletes), Document(r.entries, r.tombstones, None);
    BelongIff(d, after, targets);
    SnapshotTargets(r.writes, r.deletes);
    assert r.deletes * r.writes.Keys == r.writes.Keys * r.deletes;
    assert r.expectedAccounts.Keys == targets.Keys ==>
        (SnapshotAccounts(accounts, targets) == r.expectedAccounts
         <==> forall account :: account in r.expectedAccounts ==> r.expectedAccounts[account] == At(accounts, account));
    hide SnapshotAccounts, At;
  }

  /** Exactly the requests that the vault admits pass the checks. */
  lemma GrantedIff(d: Document, accounts: Accounts, r: Request, now: nat)
    requires WellFormed(d)
    ensures Granted(r, d, accounts, now) <==> Grantable(r, d, accounts)
  {
    match r
    case CreateEntry(_, _, _, _) => CreateGrantedIff(d, accounts, r, now);
    case UpdateEntry(_, _, _) => UpdateGrantedIff(d, accounts, r, now);
    case DeleteEntry(_, _, _) => DeleteGrantedIff(d, accounts, r, now);
    case BulkCreate(_, _) => BulkGrantedIff(d, accounts, r, now);
    case ApplySnapshot(_, _, _, _, _, _) => SnapshotGrantedIff(d, accounts, r, now);
  }
}
