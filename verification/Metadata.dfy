/** The metadata document: entries, tombstones and, from schema 3 on, the project catalog.

  A metadata transaction is a value that replaces the stored document when its block
  ends without an error.  The revision of a document is a collision-free hash of all of
  it, so the model compares documents where the program compares revisions. */
module Metadata {
  import opened Wrappers
  import opened ImportTypes

  /** Folder, distribution and provenance: what an ordinary update never changes. */
  datatype CatalogAttributes = CatalogAttributes(folder: string, projectAllowed: bool, origin: Option<RequestKey>)

  datatype Entry = Entry(
    id: string, name: string, kind: EntryKind, fields: map<string, string>, tags: seq<string>, note: string,
    refs: seq<Ref>, times: string, catalogAttributes: CatalogAttributes, contentRevision: string)
  {
    /** The entry kinds that cannot exist without a primary credential. */
    predicate NeedsSecret() {
      || kind == ApiKey || kind == SshKey
      || (kind == Note && "secret_body" in fields && fields["secret_body"] == "true")
      || (kind == Server && "auth" in fields && fields["auth"] == "password")
    }
  }

  /** Keys of any kind, notes whose text is secret and servers with a password cannot do without
    a credential; domains, plain notes and other servers can. */
  lemma NeedsSecretIff(e: Entry)
    ensures e.NeedsSecret() <==>
              match e.kind
              case ApiKey | SshKey => true
              case Server => ("auth", "password") in e.fields.Items
              case Note => ("secret_body", "true") in e.fields.Items
              case Domain => false
  {
  }

  datatype Tombstone = Tombstone(id: string, name: string, deletedAt: nat)

  datatype Export = Export(fields: set<string>, note: bool, refs: bool, tags: bool)

  /** The SHA-256 hash that approved a binding: of a local decision or of a submission. */
  datatype Approval = LocalApproval(hash: string) | SubmissionApproval(submission: Submission)

  datatype Binding = Binding(scopeId: string, entryId: string, localName: string, exported: Export, approval: Approval)

  datatype Intent =
    | ContentIntent(scopeId: string, entryId: string, reason: string, desiredContentRevision: string)
    | ImportIntent(scopeId: string, entryId: string, desiredRevision: nat)

  datatype Scope = Scope(id: string, vaultId: string)

  /** `deletions` and `imports` are the two kinds of mark in the catalog's deduplication
    ledger, `rest` the folders and projects. */
  datatype Catalog = Catalog(
    scopes: seq<Scope>, bindings: seq<Binding>, deletions: seq<string>, imports: seq<ImportRecord>,
    intents: seq<Intent>, rest: string)

  /** Schema 2 has no catalog, schema 3 has one. */
  datatype Document = Document(entries: seq<Entry>, tombstones: seq<Tombstone>, catalog: Option<Catalog>)

  datatype StoreError = NameConflict | NotFound | UnsafeRename | InvalidCatalog

  predicate UniqueEntries(entries: seq<Entry>) {
    forall i, j :: 0 <= i < j < |entries| ==> entries[i].id != entries[j].id && entries[i].name != entries[j].name
  }

  function Ids(entries: seq<Entry>): set<string> {
    set e | e in entries :: e.id
  }

  predicate BindingsResolve(catalog: Catalog, ids: set<string>) {
    forall b :: b in catalog.bindings ==> b.entryId in ids
  }

  ghost predicate WellFormed(d: Document) {
    UniqueEntries(d.entries) && (d.catalog.Some? ==> BindingsResolve(d.catalog.value, Ids(d.entries)))
  }

  // ---------- lookups ----------

  function GetById(entries: seq<Entry>, id: string): Option<Entry> {
    if entries == [] then None
    else if entries[0].id == id then Some(entries[0])
    else GetById(entries[1..], id)
  }

  function GetByName(entries: seq<Entry>, name: string): Option<Entry> {
    if entries == [] then None
    else if entries[0].name == name then Some(entries[0])
    else GetByName(entries[1..], name)
  }

  lemma {:induction false} GetByIdFinds(entries: seq<Entry>, id: string)
    ensures GetById(entries, id).Some? ==> GetById(entries, id).value in entries && GetById(entries, id).value.id == id
    ensures GetById(entries, id).None? <==> id !in Ids(entries)
  {
    if entries != [] {
      assert entries == [entries[0]] + entries[1..];
      GetByIdFinds(entries[1..], id);
      assert Ids(entries) == {entries[0].id} + Ids(entries[1..]);
    }
  }

  lemma {:induction false} GetByNameFinds(entries: seq<Entry>, name: string)
    ensures GetByName(entries, name).Some? ==> GetByName(entries, name).value in entries && GetByName(entries, name).value.name == name
    ensures GetByName(entries, name).None? ==> forall e :: e in entries ==> e.name != name
  {
    if entries != [] {
      assert entries == [entries[0]] + entries[1..];
      GetByNameFinds(entries[1..], name);
    }
  }

  /** With unique identities a lookup returns the entry that is there. */
  lemma LookupUnique(entries: seq<Entry>, e: Entry)
    requires UniqueEntries(entries) && e in entries
    ensures GetById(entries, e.id) == Some(e) && GetByName(entries, e.name) == Some(e)
  {
    GetByIdFinds(entries, e.id);
    GetByNameFinds(entries, e.name);
    assert e.id in Ids(entries);
    var i :| 0 <= i < |entries| && entries[i] == e;
    var found := GetById(entries, e.id).value;
    var j :| 0 <= j < |entries| && entries[j] == found;
    assert i == j;
    var named := GetByName(entries, e.name).value;
    var k :| 0 <= k < |entries| && entries[k] == named;
    assert i == k;
  }

  // ---------- in-memory transaction steps ----------

  function Replace(entries: seq<Entry>, e: Entry): (r: seq<Entry>)
    ensures |r| == |entries|
    ensures forall i :: 0 <= i < |r| ==> r[i] == entries[i] || (entries[i].id == e.id && r[i] == e)
  {
    if entries == [] then []
    else if entries[0].id == e.id then [e] + entries[1..]
    else [entries[0]] + Replace(entries[1..], e)
  }

  function Remove(entries: seq<Entry>, name: string): seq<Entry> {
    if entries == [] then []
    else if entries[0].name == name then entries[1..]
    else [entries[0]] + Remove(entries[1..], name)
  }

  lemma {:induction false} GetAfterReplace(entries: seq<Entry>, e: Entry, id: string)
    ensures GetById(Replace(entries, e), id) ==
            if id == e.id && GetById(entries, id).Some? then Some(e) else GetById(entries, id)
    ensures Ids(Replace(entries, e)) == Ids(entries)
  {
    if entries != [] {
      GetAfterReplace(entries[1..], e, id);
      assert entries == [entries[0]] + entries[1..];
      assert Ids(entries) == {entries[0].id} + Ids(entries[1..]);
      if entries[0].id == e.id {
        assert Ids([e] + entries[1..]) == {e.id} + Ids(entries[1..]);
      } else {
        var rest := Replace(entries[1..], e);
        assert Ids([entries[0]] + rest) == {entries[0].id} + Ids(rest);
      }
    }
  }

  lemma {:induction false} ReplaceSame(entries: seq<Entry>, e: Entry)
    requires GetById(entries, e.id) == Some(e)
    ensures Replace(entries, e) == entries
  {
    if entries[0].id != e.id {
      ReplaceSame(entries[1..], e);
    }
  }

  lemma {:induction false} GetAfterRemove(entries: seq<Entry>, gone: Entry, id: string)
    requires UniqueEntries(entries) && gone in entries
    ensures GetById(Remove(entries, gone.name), id) == if id == gone.id then None else GetById(entries, id)
  {
    assert entries == [entries[0]] + entries[1..];
    if entries[0].name == gone.name {
      assert entries[0] == gone by {
        var i :| 0 <= i < |entries| && entries[i] == gone;
        assert i == 0;
      }
      GetByIdFinds(entries[1..], id);
      forall e | e in entries[1..] ensures e.id != gone.id {
        var j :| 0 <= j < |entries[1..]| && entries[1..][j] == e;
        assert entries[0].id != entries[j + 1].id;
      }
    } else {
      assert gone in entries[1..];
      GetAfterRemove(entries[1..], gone, id);
      if id == entries[0].id {
        var j :| 0 <= j < |entries[1..]| && entries[1..][j] == gone;
        assert entries[0].id != entries[j + 1].id;
      }
    }
  }

  predicate Referenced(entries: seq<Entry>, name: string) {
    exists e :: e in entries && RefersTo(e, name)
  }

  predicate RefersTo(e: Entry, name: string) {
    exists i :: 0 <= i < |e.refs| && e.refs[i].name == name
  }

  function TxAdd(d: Document, e: Entry): Result<Document, StoreError> {
    if GetByName(d.entries, e.name).Some? || GetById(d.entries, e.id).Some? then Err(NameConflict)
    else Ok(d.(entries := d.entries + [e]))
  }

  /** An update keeps the entry's place; a name in use by references cannot change. */
  function TxUpdate(d: Document, e: Entry): Result<Document, StoreError> {
    var current := GetById(d.entries, e.id);
    var named := GetByName(d.entries, e.name);
    if current.None? then Err(NotFound)
    else if named.Some? && named.value.id != e.id then Err(NameConflict)
    else if current.value.name != e.name && Referenced(d.entries, current.value.name) then Err(UnsafeRename)
    else Ok(d.(entries := Replace(d.entries, e)))
  }

  function TxDelete(d: Document, name: string, now: nat): Result<Document, StoreError> {
    var gone := GetByName(d.entries, name);
    if gone.None? then Err(NotFound)
    else Ok(d.(entries := Remove(d.entries, name),
               tombstones := d.tombstones + [Tombstone(gone.value.id, name, now)]))
  }

  function TxSetCatalog(d: Document, catalog: Catalog): Result<Document, StoreError> {
    if d.catalog.None? || !BindingsResolve(catalog, Ids(d.entries)) then Err(InvalidCatalog)
    else Ok(d.(catalog := Some(catalog)))
  }

  /** A name-preserving update of unique entries leaves them unique. */
  lemma UpdateKeepsUnique(d: Document, e: Entry)
    requires UniqueEntries(d.entries) && TxUpdate(d, e).Ok?
    ensures UniqueEntries(TxUpdate(d, e).value.entries)
  {
    var entries := Replace(d.entries, e);
    GetByNameFinds(d.entries, e.name);
    forall i, j | 0 <= i < j < |entries| ensures entries[i].id != entries[j].id && entries[i].name != entries[j].name {
      assert d.entries[i].id != d.entries[j].id && d.entries[i].name != d.entries[j].name;
      assert d.entries[i] in d.entries && d.entries[j] in d.entries;
      if d.entries[i].id == e.id {
        NoOtherHolder(d.entries, e, j);
      } else if d.entries[j].id == e.id {
        NoOtherHolder(d.entries, e, i);
      }
    }
  }

  lemma NoOtherHolder(entries: seq<Entry>, e: Entry, k: nat)
    requires UniqueEntries(entries) && k < |entries| && entries[k].id != e.id
    requires GetByName(entries, e.name).Some? ==> GetByName(entries, e.name).value.id == e.id
    ensures entries[k].name != e.name
  {
    LookupUnique(entries, entries[k]);
  }
}
