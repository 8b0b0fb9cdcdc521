/** The least-privilege snapshot of one project scope. */
module Projection {
  import opened Wrappers
  import opened Names
  import opened ImportTypes
  import opened Metadata
  import opened RefGraph

  datatype Refusal =
    | UnknownScope | AmbiguousAliases | LocalOnlyEntry | MissingReference | NotAnSshKey | NotOneSshKey
    | InvalidRecord | ReferenceCycle | StalePreview | SecretUnavailable | SecretAccessFailed

  datatype Record = Record(
    id: string, name: string, kind: EntryKind, fields: map<string, string>, tags: seq<string>, note: string,
    refs: seq<Ref>, times: string)

  datatype Item = Item(entry: Entry, record: Record)

  /** One line of the hashed source; the hash is taken as injective, so the lines stand for it. */
  datatype SourceLine = SourceLine(id: string, contentRevision: string, record: Record, binding: Binding)

  type Revision = seq<SourceLine>

  datatype Snapshot = Snapshot(items: seq<Item>, revision: Revision)

  datatype PayloadEntry = PayloadEntry(record: Record, secret: Option<string>, passphrase: Option<string>)

  datatype ProjectPayload = ProjectPayload(personal: bool, scopeId: string, revision: Revision, entries: seq<PayloadEntry>)

  /** The secret backend: its accounts, and those whose reading fails. */
  datatype Vault = Vault(accounts: map<string, string>, broken: set<string>)

  /** Whether a projected record is a valid entry. */
  type Validator = Record -> bool

  // ---------- order of entry ids ----------

  ghost predicate Ascending(s: seq<Binding>) {
    forall i, j :: 0 <= i < j < |s| ==> Less(s[i].entryId, s[j].entryId)
  }

  function InsertBinding(s: seq<Binding>, b: Binding): (r: seq<Binding>)
    ensures multiset(r) == multiset(s) + multiset{b}
  {
    if s == [] then [b]
    else if Less(b.entryId, s[0].entryId) then [b] + s
    else
      assert s == [s[0]] + s[1..];
      [s[0]] + InsertBinding(s[1..], b)
  }

  function Sorted(s: seq<Binding>): (r: seq<Binding>)
    ensures multiset(r) == multiset(s)
  {
    if s == [] then []
    else
      assert s == s[..|s| - 1] + [s[|s| - 1]];
      InsertBinding(Sorted(s[..|s| - 1]), s[|s| - 1])
  }

  predicate DistinctIds(s: seq<Binding>) {
    forall i, j :: 0 <= i < j < |s| ==> s[i].entryId != s[j].entryId
  }

  lemma {:induction false} InsertAscends(s: seq<Binding>, b: Binding)
    requires Ascending(s) && forall x :: x in s ==> x.entryId != b.entryId
    ensures Ascending(InsertBinding(s, b))
  {
    if s != [] {
      LessIsTotal(b.entryId, s[0].entryId);
      var r := InsertBinding(s, b);
      if Less(b.entryId, s[0].entryId) {
        forall i, j | 0 <= i < j < |r| ensures Less(r[i].entryId, r[j].entryId) {
          if i == 0 && j > 1 {
            LessIsTransitive(b.entryId, s[0].entryId, s[j - 1].entryId);
          }
        }
      } else {
        InsertAscends(s[1..], b);
        forall i, j | 0 <= i < j < |r| ensures Less(r[i].entryId, r[j].entryId) {
          if i == 0 {
            assert r[j] in multiset(InsertBinding(s[1..], b));
            assert r[j] in multiset(s[1..]) + multiset{b};
          }
        }
      }
    }
  }

  lemma {:induction false} SortedAscends(s: seq<Binding>)
    requires DistinctIds(s)
    ensures Ascending(Sorted(s))
  {
    if s != [] {
      var front := s[..|s| - 1];
      SortedAscends(front);
      forall x | x in Sorted(front) ensures x.entryId != s[|s| - 1].entryId {
        assert x in multiset(front);
      }
      InsertAscends(Sorted(front), s[|s| - 1]);
    }
  }

  lemma HeadsAgree(a: seq<Binding>, b: seq<Binding>)
    requires Ascending(a) && Ascending(b) && a != [] && b != [] && b[0] in a && a[0] in b
    ensures a[0] == b[0]
  {
    var i :| 0 <= i < |a| && a[i] == b[0];
    var j :| 0 <= j < |b| && b[j] == a[0];
    LessIsTotal(a[0].entryId, b[0].entryId);
  }

  lemma TailsAgree(a: seq<Binding>, b: seq<Binding>)
    requires a != [] && b != [] && a[0] == b[0] && multiset(a) == multiset(b)
    ensures multiset(a[1..]) == multiset(b[1..])
  {
    assert a == [a[0]] + a[1..] && b == [b[0]] + b[1..];
    assert multiset(a) == multiset{a[0]} + multiset(a[1..]);
    assert multiset(b) == multiset{b[0]} + multiset(b[1..]);
    forall x: Binding ensures multiset(a[1..])[x] == multiset(b[1..])[x] {
      assert multiset(a)[x] == multiset(b)[x];
    }
  }

  /** An ascending sequence is determined by its elements. */
  lemma {:induction false} AscendingIsCanonical(a: seq<Binding>, b: seq<Binding>)
    requires Ascending(a) && Ascending(b) && multiset(a) == multiset(b)
    ensures a == b
  {
    assert |a| == |multiset(a)| == |multiset(b)| == |b|;
    if a != [] {
      assert a[0] in multiset(b) && b[0] in multiset(a);
      HeadsAgree(a, b);
      TailsAgree(a, b);
      AscendingIsCanonical(a[1..], b[1..]);
    }
  }

  /** The stored order of bindings does not matter. */
  lemma SortingIsCanonical(a: seq<Binding>, b: seq<Binding>)
    requires multiset(a) == multiset(b) && DistinctIds(a) && DistinctIds(b)
    ensures Sorted(a) == Sorted(b)
  {
    SortedAscends(a);
    SortedAscends(b);
    AscendingIsCanonical(Sorted(a), Sorted(b));
  }

  // ---------- specification ----------

  function EssentialFields(kind: EntryKind): set<string> {
    match kind
    case ApiKey => {}
    case SshKey => {"public_key"}
    case Server => {"host", "user", "auth", "port"}
    case Domain => {"host"}
    case Note => {"secret_body"}
  }

  function ScopeBindings(bindings: seq<Binding>, scopeId: string): (r: seq<Binding>)
    ensures forall b :: b in r <==> b in bindings && b.scopeId == scopeId
  {
    if bindings == [] then []
    else (if bindings[0].scopeId == scopeId then [bindings[0]] else []) + ScopeBindings(bindings[1..], scopeId)
  }

  function PersonalBindings(entries: seq<Entry>, scopeId: string): (r: seq<Binding>)
    ensures |r| == |entries|
    ensures forall i :: 0 <= i < |r| ==> r[i].entryId == entries[i].id && r[i].localName == entries[i].name
  {
    seq(|entries|, i requires 0 <= i < |entries| =>
      var e := entries[i];
      Binding(scopeId, e.id, e.name, Export(e.fields.Keys, true, true, true), LocalApproval(e.id)))
  }

  type Aliases = map<string, string>

  function AliasesOf(bindings: seq<Binding>): (r: Aliases)
    ensures forall b :: b in bindings ==> b.entryId in r
    ensures forall id :: id in r ==> exists b :: b in bindings && b.entryId == id && b.localName == r[id]
  {
    if bindings == [] then map[]
    else AliasesOf(bindings[..|bindings| - 1])[bindings[|bindings| - 1].entryId := bindings[|bindings| - 1].localName]
  }

  /** What one reference contributes: itself under the target's alias, nothing, or a refusal. */
  function ProjectRef(entries: seq<Entry>, aliases: Aliases, ref: Ref, required: bool, wanted: bool): Result<seq<Ref>, Refusal> {
    if !required && !wanted then Ok([])
    else
      var target := GetByName(entries, ref.name);
      if target.None? || target.value.id !in aliases then
        if required then Err(MissingReference) else Ok([])
      else if required && target.value.kind != SshKey then Err(NotAnSshKey)
      else Ok([Ref(ref.role, aliases[target.value.id])])
  }

  function Appended<T>(front: seq<T>, rest: Result<seq<T>, Refusal>): Result<seq<T>, Refusal> {
    match rest
    case Ok(r) => Ok(front + r)
    case Err(e) => Err(e)
  }

  function ProjectRefs(entries: seq<Entry>, aliases: Aliases, refs: seq<Ref>, sshServer: bool, wanted: bool): Result<seq<Ref>, Refusal> {
    if refs == [] then Ok([])
    else
      var first :- ProjectRef(entries, aliases, refs[0], sshServer && refs[0].role == "ssh_key", wanted);
      Appended(first, ProjectRefs(entries, aliases, refs[1..], sshServer, wanted))
  }

  predicate SshServer(e: Entry) {
    e.kind == Server && "auth" in e.fields && e.fields["auth"] == "ssh_key"
  }

  function SshKeyRefs(refs: seq<Ref>): nat {
    if refs == [] then 0 else (if refs[0].role == "ssh_key" then 1 else 0) + SshKeyRefs(refs[1..])
  }

  function KeptFields(e: Entry, exported: set<string>): map<string, string> {
    map k | k in e.fields && (k in exported || k in EssentialFields(e.kind)) :: e.fields[k]
  }

  function ProjectEntry(entries: seq<Entry>, aliases: Aliases, e: Entry, b: Binding, personal: bool, valid: Validator)
    : Result<Record, Refusal>
  {
    if !personal && !e.catalogAttributes.projectAllowed then Err(LocalOnlyEntry)
    else
      var refs :- ProjectRefs(entries, aliases, e.refs, SshServer(e), b.exported.refs);
      if SshServer(e) && SshKeyRefs(refs) != 1 then Err(NotOneSshKey)
      else
        var record := Record(e.id, b.localName, e.kind, KeptFields(e, b.exported.fields),
                             if b.exported.tags then e.tags else [], if b.exported.note then e.note else "", refs, e.times);
        if valid(record) then Ok(record) else Err(InvalidRecord)
  }

  ghost predicate Resolved(entries: seq<Entry>, bindings: seq<Binding>) {
    forall b :: b in bindings ==> GetById(entries, b.entryId).Some?
  }

  function ProjectAll(entries: seq<Entry>, aliases: Aliases, bindings: seq<Binding>, personal: bool, valid: Validator)
    : Result<seq<Item>, Refusal>
    requires Resolved(entries, bindings)
  {
    if bindings == [] then Ok([])
    else
      var e := GetById(entries, bindings[0].entryId).value;
      var record :- ProjectEntry(entries, aliases, e, bindings[0], personal, valid);
      Appended([Item(e, record)], ProjectAll(entries, aliases, bindings[1..], personal, valid))
  }

  function SourceOf(items: seq<Item>, bindings: seq<Binding>): Revision
    requires |items| == |bindings|
  {
    seq(|items|, i requires 0 <= i < |items| =>
      SourceLine(items[i].entry.id, items[i].entry.contentRevision, items[i].record, bindings[i]))
  }

  /** A record as the entry that the cycle check sees. */
  function AsEntry(r: Record): Entry {
    Entry(r.id, r.name, r.kind, r.fields, r.tags, r.note, r.refs, r.times, CatalogAttributes("", false, None), "")
  }

  function AsEntries(items: seq<Item>): (r: seq<Entry>)
    ensures |r| == |items|
  {
    seq(|items|, i requires 0 <= i < |items| => AsEntry(items[i].record))
  }

  predicate DistinctAliases(bindings: seq<Binding>) {
    forall i, j :: 0 <= i < j < |bindings| ==> bindings[i].localName != bindings[j].localName
  }

  /** The bindings a snapshot of the scope is made of, in its order. */
  function Selection(d: Document, scopeId: string, personal: bool): seq<Binding>
    requires d.catalog.Some?
  {
    Sorted(if personal then PersonalBindings(d.entries, scopeId) else ScopeBindings(d.catalog.value.bindings, scopeId))
  }

  predicate KnownScope(d: Document, scopeId: string)
    requires d.catalog.Some?
  {
    exists s :: s in d.catalog.value.scopes && s.id == scopeId
  }

  /** What the catalog's own validation guarantees. */
  ghost predicate Valid(d: Document) {
    && UniqueEntries(d.entries) && d.catalog.Some? && BindingsResolve(d.catalog.value, Ids(d.entries))
    && forall i, j :: 0 <= i < j < |d.catalog.value.bindings| ==>
         !(d.catalog.value.bindings[i].scopeId == d.catalog.value.bindings[j].scopeId
           && d.catalog.value.bindings[i].entryId == d.catalog.value.bindings[j].entryId)
  }

  lemma {:induction false} ScopeBindingsDistinct(bindings: seq<Binding>, scopeId: string)
    requires forall i, j :: 0 <= i < j < |bindings| ==>
               !(bindings[i].scopeId == bindings[j].scopeId && bindings[i].entryId == bindings[j].entryId)
    ensures DistinctIds(ScopeBindings(bindings, scopeId))
  {
    if bindings != [] {
      ScopeBindingsDistinct(bindings[1..], scopeId);
    }
  }

  lemma SortedHasTheSame(s: seq<Binding>)
    ensures forall b :: b in Sorted(s) <==> b in s
  {
    forall b ensures b in Sorted(s) <==> b in s {
      assert b in multiset(Sorted(s)) <==> b in multiset(s);
    }
  }

  lemma SelectionFacts(d: Document, scopeId: string, personal: bool)
    requires Valid(d)
    ensures Resolved(d.entries, Selection(d, scopeId, personal))
    ensures Ascending(Selection(d, scopeId, personal))
    ensures forall b :: b in Selection(d, scopeId, personal) <==>
              b in if personal then PersonalBindings(d.entries, scopeId) else ScopeBindings(d.catalog.value.bindings, scopeId)
  {
    var raw := if personal then PersonalBindings(d.entries, scopeId) else ScopeBindings(d.catalog.value.bindings, scopeId);
    SortedHasTheSame(raw);
    if !personal {
      ScopeBindingsDistinct(d.catalog.value.bindings, scopeId);
    }
    SortedAscends(raw);
    hide Sorted, Ascending, DistinctIds, GetById, Less;
    forall b | b in raw ensures GetById(d.entries, b.entryId).Some? {
      GetByIdFinds(d.entries, b.entryId);
      if personal {
        var i :| 0 <= i < |raw| && raw[i] == b;
        assert d.entries[i].id in Ids(d.entries);
      }
    }
  }

  /** The snapshot that given bindings make. */
  ghost function Assembled(entries: seq<Entry>, bindings: seq<Binding>, personal: bool, valid: Validator): Result<Snapshot, Refusal>
    requires Resolved(entries, bindings)
  {
    if !DistinctAliases(bindings) then Err(AmbiguousAliases)
    else
      var items :- ProjectAll(entries, AliasesOf(bindings), bindings, personal, valid);
      ProjectAllAligned(entries, AliasesOf(bindings), bindings, personal, valid);
      if !personal && Cyclic(GraphOf(AsEntries(items))) then Err(ReferenceCycle)
      else Ok(Snapshot(items, SourceOf(items, bindings)))
  }

  /** The metadata part of a snapshot. */
  ghost function Prepared(d: Document, scopeId: string, personal: bool, valid: Validator): Result<Snapshot, Refusal>
    requires Valid(d)
  {
    SelectionFacts(d, scopeId, personal);
    if KnownScope(d, scopeId) then Assembled(d.entries, Selection(d, scopeId, personal), personal, valid) else Err(UnknownScope)
  }

  /** Items and bindings correspond one to one. */
  ghost predicate Aligned(entries: seq<Entry>, aliases: Aliases, bindings: seq<Binding>, items: seq<Item>, personal: bool, valid: Validator) {
    |items| == |bindings| && forall i :: 0 <= i < |items| ==> Projects(entries, aliases, bindings[i], items[i], personal, valid)
  }

  ghost predicate Projects(entries: seq<Entry>, aliases: Aliases, b: Binding, item: Item, personal: bool, valid: Validator) {
    && item.entry in entries && item.entry.id == b.entryId
    && Some(item.entry) == GetById(entries, b.entryId)
    && ProjectEntry(entries, aliases, item.entry, b, personal, valid) == Ok(item.record)
  }

  lemma {:induction false} ProjectAllAligned(entries: seq<Entry>, aliases: Aliases, bindings: seq<Binding>, personal: bool, valid: Validator)
    requires Resolved(entries, bindings) && ProjectAll(entries, aliases, bindings, personal, valid).Ok?
    ensures Aligned(entries, aliases, bindings, ProjectAll(entries, aliases, bindings, personal, valid).value, personal, valid)
  {
    if bindings != [] {
      assert bindings[0] in bindings;
      GetByIdFinds(entries, bindings[0].entryId);
      ProjectAllAligned(entries, aliases, bindings[1..], personal, valid);
    }
  }

  /** What a successful preparation rests on. */
  lemma PreparedFacts(d: Document, scopeId: string, personal: bool, valid: Validator) returns (bindings: seq<Binding>, items: seq<Item>)
    requires Valid(d) && Prepared(d, scopeId, personal, valid).Ok?
    ensures bindings == Selection(d, scopeId, personal) && items == Prepared(d, scopeId, personal, valid).value.items
    ensures Aligned(d.entries, AliasesOf(bindings), bindings, items, personal, valid)
    ensures !personal ==> !Cyclic(GraphOf(AsEntries(items)))
  {
    SelectionFacts(d, scopeId, personal);
    bindings := Selection(d, scopeId, personal);
    items := AssembledFacts(d.entries, bindings, personal, valid);
  }

  lemma AssembledFacts(entries: seq<Entry>, bindings: seq<Binding>, personal: bool, valid: Validator) returns (items: seq<Item>)
    requires Resolved(entries, bindings) && Assembled(entries, bindings, personal, valid).Ok?
    ensures items == Assembled(entries, bindings, personal, valid).value.items
    ensures Aligned(entries, AliasesOf(bindings), bindings, items, personal, valid)
    ensures !personal ==> !Cyclic(GraphOf(AsEntries(items)))
  {
    ProjectAllAligned(entries, AliasesOf(bindings), bindings, personal, valid);
    items := ProjectAll(entries, AliasesOf(bindings), bindings, personal, valid).value;
  }

  /** One account: absent, readable or failing. */
  function ReadAccount(vault: Vault, id: string): Result<Option<string>, Refusal> {
    if id !in vault.accounts then Ok(None)
    else if id in vault.broken then Err(SecretAccessFailed)
    else Ok(Some(vault.accounts[id]))
  }

  function ReadEntry(vault: Vault, item: Item): Result<PayloadEntry, Refusal> {
    var secret :- ReadAccount(vault, item.entry.id);
    var passphrase :- if item.entry.kind == SshKey then ReadAccount(vault, Passphrase(item.entry.id)) else Ok(None);
    Ok(PayloadEntry(item.record, secret, passphrase))
  }

  function ReadAll(vault: Vault, items: seq<Item>): Result<seq<PayloadEntry>, Refusal> {
    if items == [] then Ok([])
    else
      var first :- ReadEntry(vault, items[0]);
      Appended([first], ReadAll(vault, items[1..]))
  }

  predicate SecretsPresent(vault: Vault, items: seq<Item>) {
    forall i :: 0 <= i < |items| && items[i].entry.NeedsSecret() ==> items[i].entry.id in vault.accounts
  }

  /** The payload that the scope gets, or why it is refused. */
  ghost function PayloadOf(d: Document, vault: Vault, scopeId: string, expected: Option<Revision>, personal: bool, valid: Validator)
    : Result<ProjectPayload, Refusal>
    requires Valid(d)
  {
    var snapshot :- Prepared(d, scopeId, personal, valid);
    Filled(snapshot, vault, scopeId, expected, personal)
  }

  /** A snapshot with its secrets. */
  function Filled(snapshot: Snapshot, vault: Vault, scopeId: string, expected: Option<Revision>, personal: bool)
    : Result<ProjectPayload, Refusal>
  {
    if expected.Some? && expected.value != snapshot.revision then Err(StalePreview)
    else if !SecretsPresent(vault, snapshot.items) then Err(SecretUnavailable)
    else
      var entries :- ReadAll(vault, snapshot.items);
      Ok(ProjectPayload(personal, scopeId, snapshot.revision, entries))
  }

  // ---------- the program ----------

  method PrepareRefs(entries: seq<Entry>, aliases: Aliases, e: Entry, wanted: bool) returns (r: Result<seq<Ref>, Refusal>)
    ensures r == ProjectRefs(entries, aliases, e.refs, SshServer(e), wanted)
  {
    var sshServer := SshServer(e);
    var refs: seq<Ref> := [];
    assert e.refs[0..] == e.refs;
    AppendedTwice([], [], ProjectRefs(entries, aliases, e.refs, sshServer, wanted));
    for i := 0 to |e.refs|
      invariant ProjectRefs(entries, aliases, e.refs, sshServer, wanted) ==
                Appended(refs, ProjectRefs(entries, aliases, e.refs[i..], sshServer, wanted))
    {
      var ref := e.refs[i];
      assert e.refs[i..][1..] == e.refs[i + 1..];
      var required := sshServer && ref.role == "ssh_key";
      if !required && !wanted {
        AppendedTwice(refs, [], ProjectRefs(entries, aliases, e.refs[i + 1..], sshServer, wanted));
        continue;
      }
      var target := GetByName(entries, ref.name);
      if target.None? || target.value.id !in aliases {
        if required {
          return Err(MissingReference);
        }
        AppendedTwice(refs, [], ProjectRefs(entries, aliases, e.refs[i + 1..], sshServer, wanted));
        continue;
      }
      if required && target.value.kind != SshKey {
        return Err(NotAnSshKey);
      }
      var projected := Ref(ref.role, aliases[target.value.id]);
      AppendedTwice(refs, [projected], ProjectRefs(entries, aliases, e.refs[i + 1..], sshServer, wanted));
      refs := refs + [projected];
    }
    AppendedTwice(refs, [], Ok([]));
    r := Ok(refs);
  }

  lemma AppendedTwice<T>(a: seq<T>, b: seq<T>, rest: Result<seq<T>, Refusal>)
    ensures Appended(a, Appended(b, rest)) == Appended(a + b, rest)
    ensures b == [] ==> a + b == a
    ensures Appended([], rest) == rest && Appended(a, Ok([])) == Ok(a)
  {
    assert a + [] == a;
    if rest.Ok? {
      assert [] + rest.value == rest.value;
      assert a + (b + rest.value) == a + b + rest.value;
    }
  }

  method PrepareEntry(entries: seq<Entry>, aliases: Aliases, e: Entry, b: Binding, personal: bool, valid: Validator)
    returns (r: Result<Record, Refusal>)
    ensures r == ProjectEntry(entries, aliases, e, b, personal, valid)
  {
    if !personal && !e.catalogAttributes.projectAllowed {
      return Err(LocalOnlyEntry);
    }
    var refs := PrepareRefs(entries, aliases, e, b.exported.refs);
    if refs.Err? {
      return Err(refs.error);
    }
    if SshServer(e) && SshKeyRefs(refs.value) != 1 {
      return Err(NotOneSshKey);
    }
    var record := Record(e.id, b.localName, e.kind, KeptFields(e, b.exported.fields),
                         if b.exported.tags then e.tags else [], if b.exported.note then e.note else "", refs.value, e.times);
    r := if valid(record) then Ok(record) else Err(InvalidRecord);
  }

  method PrepareItems(entries: seq<Entry>, aliases: Aliases, bindings: seq<Binding>, personal: bool, valid: Validator)
    returns (r: Result<seq<Item>, Refusal>)
    requires Resolved(entries, bindings)
    ensures r == ProjectAll(entries, aliases, bindings, personal, valid)
  {
    var items: seq<Item> := [];
    assert bindings[0..] == bindings;
    AppendedTwice([], [], ProjectAll(entries, aliases, bindings, personal, valid));
    for i := 0 to |bindings|
      invariant ProjectAll(entries, aliases, bindings, personal, valid) ==
                Appended(items, ProjectAll(entries, aliases, bindings[i..], personal, valid))
    {
      assert bindings[i..][1..] == bindings[i + 1..] && bindings[i] in bindings;
      var e := GetById(entries, bindings[i].entryId).value;
      var record := PrepareEntry(entries, aliases, e, bindings[i], personal, valid);
      if record.Err? {
        return Err(record.error);
      }
      AppendedTwice(items, [Item(e, record.value)], ProjectAll(entries, aliases, bindings[i + 1..], personal, valid));
      items := items + [Item(e, record.value)];
    }
    AppendedTwice(items, [], Ok([]));
    r := Ok(items);
  }

  method Prepare(d: Document, scopeId: string, personal: bool, valid: Validator) returns (r: Result<Snapshot, Refusal>)
    requires Valid(d)
    ensures r == Prepared(d, scopeId, personal, valid)
  {
    SelectionFacts(d, scopeId, personal);
    if !KnownScope(d, scopeId) {
      return Err(UnknownScope);
    }
    var bindings := Selection(d, scopeId, personal);
    if !DistinctAliases(bindings) {
      return Err(AmbiguousAliases);
    }
    var items := PrepareItems(d.entries, AliasesOf(bindings), bindings, personal, valid);
    if items.Err? {
      return Err(items.error);
    }
    ProjectAllAligned(d.entries, AliasesOf(bindings), bindings, personal, valid);
    if !personal {
      var cyclic := DetectCycles(AsEntries(items.value));
      if cyclic {
        return Err(ReferenceCycle);
      }
    }
    r := Ok(Snapshot(items.value, SourceOf(items.value, bindings)));
  }

  /** The secret backend with the accounts that were read so far. */
  class SecretReader {
    const vault: Vault
    ghost var touched: set<string>

    constructor (vault: Vault)
      ensures this.vault == vault && touched == {}
    {
      this.vault, touched := vault, {};
    }

    method Get(id: string) returns (r: Result<Option<string>, Refusal>)
      requires id in vault.accounts
      modifies this
      ensures r == ReadAccount(vault, id) && touched == old(touched) + {id}
    {
      touched := touched + {id};
      r := if id in vault.broken then Err(SecretAccessFailed) else Ok(Some(vault.accounts[id]));
    }

    method GetEntry(item: Item) returns (r: Result<PayloadEntry, Refusal>)
      modifies this
      ensures r == ReadEntry(vault, item)
      ensures touched <= old(touched) + {item.entry.id, Passphrase(item.entry.id)}
    {
      var secret, passphrase := Ok(None), Ok(None);
      if item.entry.id in vault.accounts {
        secret := Get(item.entry.id);
        if secret.Err? {
          return Err(secret.error);
        }
      }
      if item.entry.kind == SshKey && Passphrase(item.entry.id) in vault.accounts {
        passphrase := Get(Passphrase(item.entry.id));
        if passphrase.Err? {
          return Err(passphrase.error);
        }
      }
      r := Ok(PayloadEntry(item.record, secret.value, passphrase.value));
    }
  }

  /** The accounts of the entries that are bound to a scope. */
  ghost predicate BoundAccount(d: Document, scopeId: string, personal: bool, account: string)
    requires d.catalog.Some?
  {
    exists b :: b in Selection(d, scopeId, personal) && (account == b.entryId || account == Passphrase(b.entryId))
  }

  method ReadSecrets(backend: SecretReader, items: seq<Item>) returns (r: Result<seq<PayloadEntry>, Refusal>)
    modifies backend
    ensures r == ReadAll(backend.vault, items)
    ensures forall a :: a in backend.touched ==>
              a in old(backend.touched) || exists i :: 0 <= i < |items| && (a == items[i].entry.id || a == Passphrase(items[i].entry.id))
  {
    var entries: seq<PayloadEntry> := [];
    assert items[0..] == items;
    AppendedTwice([], [], ReadAll(backend.vault, items));
    for i := 0 to |items|
      invariant ReadAll(backend.vault, items) == Appended(entries, ReadAll(backend.vault, items[i..]))
      invariant forall a :: a in backend.touched ==>
                  a in old(backend.touched) || exists j :: 0 <= j < i && (a == items[j].entry.id || a == Passphrase(items[j].entry.id))
    {
      assert items[i..][1..] == items[i + 1..];
      var entry := backend.GetEntry(items[i]);
      if entry.Err? {
        return Err(entry.error);
      }
      AppendedTwice(entries, [entry.value], ReadAll(backend.vault, items[i + 1..]));
      entries := entries + [entry.value];
    }
    AppendedTwice(entries, [], Ok([]));
    r := Ok(entries);
  }

  /** Builds the payload, reading no account outside the scope. */
  method BuildProjectPayload(d: Document, backend: SecretReader, scopeId: string, expected: Option<Revision>, personal: bool, valid: Validator)
    returns (r: Result<ProjectPayload, Refusal>)
    requires Valid(d)
    modifies backend
    ensures r == PayloadOf(d, backend.vault, scopeId, expected, personal, valid)
    ensures forall a :: a in backend.touched ==> a in old(backend.touched) || BoundAccount(d, scopeId, personal, a)
  {
    hide Prepared, Selection, ReadAll, GetById;
    var snapshot := Prepare(d, scopeId, personal, valid);
    if snapshot.Err? {
      return Err(snapshot.error);
    }
    if expected.Some? && expected.value != snapshot.value.revision {
      return Err(StalePreview);
    }
    if !SecretsPresent(backend.vault, snapshot.value.items) {
      return Err(SecretUnavailable);
    }
    var entries := ReadSecrets(backend, snapshot.value.items);
    ItemsAreBound(d, scopeId, personal, valid);
    if entries.Err? {
      return Err(entries.error);
    }
    r := Ok(ProjectPayload(personal, scopeId, snapshot.value.revision, entries.value));
  }

  lemma ItemsAreBound(d: Document, scopeId: string, personal: bool, valid: Validator)
    requires Valid(d) && Prepared(d, scopeId, personal, valid).Ok?
    ensures var items := Prepared(d, scopeId, personal, valid).value.items;
            forall i :: 0 <= i < |items| ==> exists b :: b in Selection(d, scopeId, personal) && b.entryId == items[i].entry.id
  {
    var bindings, items := PreparedFacts(d, scopeId, personal, valid);
    forall i | 0 <= i < |items| ensures bindings[i] in bindings && bindings[i].entryId == items[i].entry.id {
      assert Projects(d.entries, AliasesOf(bindings), bindings[i], items[i], personal, valid);
    }
  }

  // ---------- what lies outside the scope has no influence ----------

  /** Two catalogs agree on the ids that aliases exist for. */
  ghost predicate AgreeOn(e1: seq<Entry>, e2: seq<Entry>, ids: set<string>) {
    forall id :: id in ids ==> GetById(e1, id) == GetById(e2, id)
  }

  /** The entry that a reference leads to, if it is bound. */
  function BoundTarget(entries: seq<Entry>, aliases: Aliases, name: string): Option<Entry> {
    var target := GetByName(entries, name);
    if target.Some? && target.value.id in aliases then target else None
  }

  lemma BoundTargetMoves(e1: seq<Entry>, e2: seq<Entry>, aliases: Aliases, name: string)
    requires UniqueEntries(e1) && UniqueEntries(e2) && AgreeOn(e1, e2, aliases.Keys)
    requires BoundTarget(e1, aliases, name).Some?
    ensures BoundTarget(e2, aliases, name) == BoundTarget(e1, aliases, name)
  {
    var t := BoundTarget(e1, aliases, name).value;
    GetByNameFinds(e1, name);
    LookupUnique(e1, t);
    GetByIdFinds(e2, t.id);
    LookupUnique(e2, t);
  }

  lemma BoundTargetAgrees(e1: seq<Entry>, e2: seq<Entry>, aliases: Aliases, name: string)
    requires UniqueEntries(e1) && UniqueEntries(e2) && AgreeOn(e1, e2, aliases.Keys)
    ensures BoundTarget(e1, aliases, name) == BoundTarget(e2, aliases, name)
  {
    if BoundTarget(e1, aliases, name).Some? {
      BoundTargetMoves(e1, e2, aliases, name);
    } else if BoundTarget(e2, aliases, name).Some? {
      BoundTargetMoves(e2, e1, aliases, name);
    }
  }

  lemma {:induction false} ProjectRefsAgree(e1: seq<Entry>, e2: seq<Entry>, aliases: Aliases, refs: seq<Ref>, sshServer: bool, wanted: bool)
    requires UniqueEntries(e1) && UniqueEntries(e2) && AgreeOn(e1, e2, aliases.Keys)
    ensures ProjectRefs(e1, aliases, refs, sshServer, wanted) == ProjectRefs(e2, aliases, refs, sshServer, wanted)
  {
    if refs != [] {
      BoundTargetAgrees(e1, e2, aliases, refs[0].name);
      ProjectRefsAgree(e1, e2, aliases, refs[1..], sshServer, wanted);
    }
  }

  lemma {:induction false} ProjectAllAgrees(e1: seq<Entry>, e2: seq<Entry>, aliases: Aliases, bindings: seq<Binding>, personal: bool,
                                            valid: Validator)
    requires UniqueEntries(e1) && UniqueEntries(e2) && AgreeOn(e1, e2, aliases.Keys)
    requires Resolved(e1, bindings) && Resolved(e2, bindings) && forall b :: b in bindings ==> b.entryId in aliases
    ensures ProjectAll(e1, aliases, bindings, personal, valid) == ProjectAll(e2, aliases, bindings, personal, valid)
  {
    if bindings != [] {
      assert bindings[0] in bindings;
      var e := GetById(e1, bindings[0].entryId).value;
      ProjectRefsAgree(e1, e2, aliases, e.refs, SshServer(e), bindings[0].exported.refs);
      ProjectAllAgrees(e1, e2, aliases, bindings[1..], personal, valid);
    }
  }

  ghost predicate SameAccount(v1: Vault, v2: Vault, id: string) {
    && (id in v1.accounts <==> id in v2.accounts)
    && (id in v1.accounts ==> v1.accounts[id] == v2.accounts[id])
    && (id in v1.broken <==> id in v2.broken)
  }

  /** The scope looks the same in both: its bindings in any stored order, its bound entries and
    their accounts.  Nothing is said about any other entry, binding or account. */
  ghost predicate AgreeOnScope(d1: Document, d2: Document, v1: Vault, v2: Vault, scopeId: string)
    requires d1.catalog.Some? && d2.catalog.Some?
  {
    var b1, b2 := ScopeBindings(d1.catalog.value.bindings, scopeId), ScopeBindings(d2.catalog.value.bindings, scopeId);
    && (KnownScope(d1, scopeId) <==> KnownScope(d2, scopeId))
    && multiset(b1) == multiset(b2)
    && forall b :: b in b1 ==>
         && GetById(d1.entries, b.entryId) == GetById(d2.entries, b.entryId)
         && SameAccount(v1, v2, b.entryId) && SameAccount(v1, v2, Passphrase(b.entryId))
  }

  lemma SelectionAgrees(d1: Document, d2: Document, v1: Vault, v2: Vault, scopeId: string)
    requires Valid(d1) && Valid(d2) && AgreeOnScope(d1, d2, v1, v2, scopeId)
    ensures Selection(d1, scopeId, false) == Selection(d2, scopeId, false)
  {
    ScopeBindingsDistinct(d1.catalog.value.bindings, scopeId);
    ScopeBindingsDistinct(d2.catalog.value.bindings, scopeId);
    SortingIsCanonical(ScopeBindings(d1.catalog.value.bindings, scopeId), ScopeBindings(d2.catalog.value.bindings, scopeId));
  }

  lemma PreparedAgrees(d1: Document, d2: Document, v1: Vault, v2: Vault, scopeId: string, valid: Validator)
    requires Valid(d1) && Valid(d2) && AgreeOnScope(d1, d2, v1, v2, scopeId)
    ensures Prepared(d1, scopeId, false, valid) == Prepared(d2, scopeId, false, valid)
  {
    SelectionAgrees(d1, d2, v1, v2, scopeId);
    SelectionFacts(d1, scopeId, false);
    SelectionFacts(d2, scopeId, false);
    AssembledAgrees(d1.entries, d2.entries, Selection(d1, scopeId, false), valid);
  }

  lemma AssembledAgrees(e1: seq<Entry>, e2: seq<Entry>, bindings: seq<Binding>, valid: Validator)
    requires UniqueEntries(e1) && UniqueEntries(e2) && Resolved(e1, bindings) && Resolved(e2, bindings)
    requires forall b :: b in bindings ==> GetById(e1, b.entryId) == GetById(e2, b.entryId)
    ensures Assembled(e1, bindings, false, valid) == Assembled(e2, bindings, false, valid)
  {
    ProjectAllAgrees(e1, e2, AliasesOf(bindings), bindings, false, valid);
  }

  lemma {:induction false} ReadAllAgrees(v1: Vault, v2: Vault, items: seq<Item>)
    requires forall i :: 0 <= i < |items| ==>
               SameAccount(v1, v2, items[i].entry.id) && SameAccount(v1, v2, Passphrase(items[i].entry.id))
    ensures ReadAll(v1, items) == ReadAll(v2, items)
  {
    if items != [] {
      ReadAllAgrees(v1, v2, items[1..]);
    }
  }

  /** Two catalogs and backends that agree on a scope give it the same payload or the same
    refusal, whatever else they hold. */
  lemma PayloadDependsOnScopeOnly(d1: Document, d2: Document, v1: Vault, v2: Vault, scopeId: string, expected: Option<Revision>,
                                  valid: Validator)
    requires Valid(d1) && Valid(d2) && AgreeOnScope(d1, d2, v1, v2, scopeId)
    ensures PayloadOf(d1, v1, scopeId, expected, false, valid) == PayloadOf(d2, v2, scopeId, expected, false, valid)
  {
    PreparedAgrees(d1, d2, v1, v2, scopeId, valid);
    if Prepared(d1, scopeId, false, valid).Ok? {
      var bindings, items := PreparedFacts(d1, scopeId, false, valid);
      SelectionFacts(d1, scopeId, false);
      forall i | 0 <= i < |items|
        ensures SameAccount(v1, v2, items[i].entry.id) && SameAccount(v1, v2, Passphrase(items[i].entry.id))
      {
        assert Projects(d1.entries, AliasesOf(bindings), bindings[i], items[i], false, valid);
        assert bindings[i] in bindings;
      }
      VaultsAgree(v1, v2, Prepared(d1, scopeId, false, valid).value, expected, scopeId);
    }
  }

  lemma VaultsAgree(v1: Vault, v2: Vault, snapshot: Snapshot, expected: Option<Revision>, scopeId: string)
    requires forall i :: 0 <= i < |snapshot.items| ==>
               SameAccount(v1, v2, snapshot.items[i].entry.id) && SameAccount(v1, v2, Passphrase(snapshot.items[i].entry.id))
    ensures Filled(snapshot, v1, scopeId, expected, false) == Filled(snapshot, v2, scopeId, expected, false)
  {
    ReadAllAgrees(v1, v2, snapshot.items);
  }

  // ---------- what a payload contains ----------

  lemma {:induction false} ReadAllAligned(vault: Vault, items: seq<Item>)
    requires ReadAll(vault, items).Ok?
    ensures var entries := ReadAll(vault, items).value;
            |entries| == |items| && forall i :: 0 <= i < |items| ==> ReadEntry(vault, items[i]) == Ok(entries[i])
  {
    if items != [] {
      ReadAllAligned(vault, items[1..]);
    }
  }

  /** Every projected reference carries the alias of a bound entry; the required ones that of
    an SSH key. */
  lemma {:induction false} ProjectedRefsResolve(entries: seq<Entry>, aliases: Aliases, refs: seq<Ref>, sshServer: bool, wanted: bool)
    requires ProjectRefs(entries, aliases, refs, sshServer, wanted).Ok?
    ensures forall r :: r in ProjectRefs(entries, aliases, refs, sshServer, wanted).value ==>
              exists t :: t in entries && t.id in aliases && aliases[t.id] == r.name && (sshServer && r.role == "ssh_key" ==> t.kind == SshKey)
  {
    if refs != [] {
      GetByNameFinds(entries, refs[0].name);
      ProjectedRefsResolve(entries, aliases, refs[1..], sshServer, wanted);
    }
  }

  predicate Carries(items: seq<Item>, name: string, e: Entry) {
    exists i :: 0 <= i < |items| && items[i].record.name == name && items[i].entry == e
  }

  /** Every alias is the local name of a binding of that entry. */
  ghost predicate Sourced(aliases: Aliases, bindings: seq<Binding>) {
    forall id :: id in aliases ==> NamedBy(bindings, id, aliases[id])
  }

  ghost predicate NamedBy(bindings: seq<Binding>, id: string, name: string) {
    exists i :: 0 <= i < |bindings| && bindings[i].entryId == id && bindings[i].localName == name
  }

  lemma AliasesAreSourced(bindings: seq<Binding>)
    ensures Sourced(AliasesOf(bindings), bindings)
  {
    var aliases := AliasesOf(bindings);
    forall id | id in aliases ensures NamedBy(bindings, id, aliases[id]) {
      var b :| b in bindings && b.entryId == id && b.localName == aliases[id];
      var i :| 0 <= i < |bindings| && bindings[i] == b;
    }
  }

  /** The names in a snapshot are those of its bindings. */
  lemma SnapshotNames(entries: seq<Entry>, aliases: Aliases, bindings: seq<Binding>, items: seq<Item>, personal: bool, valid: Validator,
                      t: Entry)
    requires UniqueEntries(entries) && Aligned(entries, aliases, bindings, items, personal, valid) && Sourced(aliases, bindings)
    requires t in entries && t.id in aliases
    ensures Carries(items, aliases[t.id], t)
  {
    hide UniqueEntries, Carries, Projects;
    assert NamedBy(bindings, t.id, aliases[t.id]);
    var i :| 0 <= i < |bindings| && bindings[i].entryId == t.id && bindings[i].localName == aliases[t.id];
    BoundIsCarried(entries, aliases, bindings, items, personal, valid, i, t);
  }

  /** The item of a bound entry carries the entry under its alias. */
  lemma BoundIsCarried(entries: seq<Entry>, aliases: Aliases, bindings: seq<Binding>, items: seq<Item>, personal: bool, valid: Validator,
                       i: nat, t: Entry)
    requires UniqueEntries(entries) && Aligned(entries, aliases, bindings, items, personal, valid) && t in entries
    requires i < |bindings| && bindings[i].entryId == t.id
    ensures Carries(items, bindings[i].localName, t)
  {
    LookupUnique(entries, t);
    hide UniqueEntries;
    assert Projects(entries, aliases, bindings[i], items[i], personal, valid);
    assert items[i].record.name == bindings[i].localName;
  }

  predicate SshServerRecord(r: Record) {
    r.kind == Server && "auth" in r.fields && r.fields["auth"] == "ssh_key"
  }

  /** A reference of a record leads to a record of the same payload; the key reference of a
    server leads to an SSH key. */
  ghost predicate LeadsInside(entries: seq<PayloadEntry>, r: Record, ref: Ref) {
    exists t :: t in entries && t.record.name == ref.name && (SshServerRecord(r) && ref.role == "ssh_key" ==> t.record.kind == SshKey)
  }

  /** Nothing in a payload points outside, SSH servers have their one key, and no required
    secret is missing. */
  ghost predicate Closed(entries: seq<PayloadEntry>, r: PayloadEntry) {
    && (forall ref :: ref in r.record.refs ==> LeadsInside(entries, r.record, ref))
    && (SshServerRecord(r.record) ==> SshKeyRefs(r.record.refs) == 1)
    && (AsEntry(r.record).NeedsSecret() ==> r.secret.Some?)
  }

  lemma RecordMirrorsEntry(entries: seq<Entry>, aliases: Aliases, item: Item, b: Binding, personal: bool, valid: Validator)
    requires ProjectEntry(entries, aliases, item.entry, b, personal, valid) == Ok(item.record)
    ensures SshServer(item.entry) <==> SshServerRecord(item.record)
    ensures AsEntry(item.record).NeedsSecret() <==> item.entry.NeedsSecret()
    ensures SshServer(item.entry) ==> SshKeyRefs(item.record.refs) == 1
    ensures ProjectRefs(entries, aliases, item.entry.refs, SshServer(item.entry), b.exported.refs) == Ok(item.record.refs)
    ensures item.record.kind == item.entry.kind && item.record.id == item.entry.id
  {
  }

  lemma RefLeadsInside(entries: seq<Entry>, aliases: Aliases, bindings: seq<Binding>, items: seq<Item>, filled: seq<PayloadEntry>, personal: bool,
                       valid: Validator, i: nat, ref: Ref)
    requires UniqueEntries(entries) && Aligned(entries, aliases, bindings, items, personal, valid) && Sourced(aliases, bindings)
    requires |filled| == |items| && forall k :: 0 <= k < |items| ==> filled[k].record == items[k].record
    requires i < |items| && ref in items[i].record.refs
    ensures LeadsInside(filled, items[i].record, ref)
  {
    hide UniqueEntries, Sourced;
    var e := items[i].entry;
    assert Projects(entries, aliases, bindings[i], items[i], personal, valid);
    RecordMirrorsEntry(entries, aliases, items[i], bindings[i], personal, valid);
    ProjectedRefsResolve(entries, aliases, e.refs, SshServer(e), bindings[i].exported.refs);
    var t :| t in entries && t.id in aliases && aliases[t.id] == ref.name && (SshServer(e) && ref.role == "ssh_key" ==> t.kind == SshKey);
    SnapshotNames(entries, aliases, bindings, items, personal, valid, t);
    assert Carries(items, aliases[t.id], t);
    var k :| 0 <= k < |items| && items[k].record.name == aliases[t.id] && items[k].entry == t;
    assert Projects(entries, aliases, bindings[k], items[k], personal, valid);
    RecordMirrorsEntry(entries, aliases, items[k], bindings[k], personal, valid);
    assert filled[k] in filled;
  }

  lemma FilledMirrors(vault: Vault, items: seq<Item>)
    requires SecretsPresent(vault, items) && ReadAll(vault, items).Ok?
    ensures var filled := ReadAll(vault, items).value;
            |filled| == |items| && forall k :: 0 <= k < |items| ==>
              filled[k].record == items[k].record && (items[k].entry.NeedsSecret() ==> filled[k].secret.Some?)
  {
    ReadAllAligned(vault, items);
    var filled := ReadAll(vault, items).value;
    forall k | 0 <= k < |items|
      ensures filled[k].record == items[k].record && (items[k].entry.NeedsSecret() ==> filled[k].secret.Some?)
    {
      assert ReadEntry(vault, items[k]) == Ok(filled[k]);
    }
  }

  lemma FilledIsClosed(entries: seq<Entry>, bindings: seq<Binding>, items: seq<Item>, filled: seq<PayloadEntry>, personal: bool,
                       valid: Validator, i: nat)
    requires UniqueEntries(entries) && Aligned(entries, AliasesOf(bindings), bindings, items, personal, valid)
    requires |filled| == |items| && i < |items| && (items[i].entry.NeedsSecret() ==> filled[i].secret.Some?)
    requires forall k :: 0 <= k < |items| ==> filled[k].record == items[k].record
    ensures Closed(filled, filled[i])
  {
    assert Projects(entries, AliasesOf(bindings), bindings[i], items[i], personal, valid);
    RecordMirrorsEntry(entries, AliasesOf(bindings), items[i], bindings[i], personal, valid);
    AliasesAreSourced(bindings);
    forall ref | ref in filled[i].record.refs ensures LeadsInside(filled, filled[i].record, ref) {
      RefLeadsInside(entries, AliasesOf(bindings), bindings, items, filled, personal, valid, i, ref);
    }
  }

  /** A granted payload has one record for each binding, and is closed. */
  lemma PayloadIsClosed(d: Document, vault: Vault, scopeId: string, expected: Option<Revision>, personal: bool, valid: Validator)
    requires Valid(d) && PayloadOf(d, vault, scopeId, expected, personal, valid).Ok?
    ensures var entries := PayloadOf(d, vault, scopeId, expected, personal, valid).value.entries;
            |entries| == |Selection(d, scopeId, personal)| && forall r :: r in entries ==> Closed(entries, r)
  {
    hide Prepared, Selection, ReadAll, GetById, GraphOf, AliasesOf, ProjectEntry, Closed;
    var bindings, items := PreparedFacts(d, scopeId, personal, valid);
    FilledMirrors(vault, items);
    var filled := ReadAll(vault, items).value;
    forall i | 0 <= i < |items| ensures Closed(filled, filled[i]) {
      FilledIsClosed(d.entries, bindings, items, filled, personal, valid, i);
    }
  }

  /** The record is that of an entry released for projects and bound to the scope. */
  ghost predicate Released(d: Document, scopeId: string, id: string)
    requires d.catalog.Some?
  {
    && (exists e :: e in d.entries && e.id == id && e.catalogAttributes.projectAllowed)
    && (exists b :: b in d.catalog.value.bindings && b.scopeId == scopeId && b.entryId == id)
  }

  /** A project payload only holds released entries, and its references have no cycle. */
  lemma PayloadIsReleased(d: Document, vault: Vault, scopeId: string, expected: Option<Revision>, valid: Validator)
    requires Valid(d) && PayloadOf(d, vault, scopeId, expected, false, valid).Ok?
    ensures forall r :: r in PayloadOf(d, vault, scopeId, expected, false, valid).value.entries ==> Released(d, scopeId, r.record.id)
    ensures !Cyclic(GraphOf(AsEntries(Prepared(d, scopeId, false, valid).value.items)))
  {
    hide Prepared, Selection, ReadAll, GetById, GraphOf, AliasesOf, ProjectEntry, BindingsResolve;
    var bindings, items := PreparedFacts(d, scopeId, false, valid);
    SelectionFacts(d, scopeId, false);
    ReadAllAligned(vault, items);
    var filled := ReadAll(vault, items).value;
    forall i | 0 <= i < |items| ensures Released(d, scopeId, filled[i].record.id) {
      assert bindings[i] in bindings;
      assert ReadEntry(vault, items[i]) == Ok(filled[i]);
      BoundIsReleased(d, scopeId, AliasesOf(bindings), bindings[i], items[i], valid);
    }
  }

  lemma BoundIsReleased(d: Document, scopeId: string, aliases: Aliases, b: Binding, item: Item, valid: Validator)
    requires d.catalog.Some? && b in d.catalog.value.bindings && b.scopeId == scopeId
    requires Projects(d.entries, aliases, b, item, false, valid)
    ensures Released(d, scopeId, item.record.id)
  {
    RecordMirrorsEntry(d.entries, aliases, item, b, false, valid);
  }
}
