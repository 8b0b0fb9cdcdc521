/** Which payload a scope gets, in terms of the document and the secret backend alone. */
module ProjectionMeaning {
  import opened Wrappers
  import opened Names
  import opened ImportTypes
  import opened Metadata
  import opened RefGraph
  import opened Projection

  // ---------- bindings ----------

  /** The bindings that a scope consists of; a personal copy has one for each entry, which
    exports everything under its own name. */
  ghost predicate Belongs(d: Document, scopeId: string, personal: bool, b: Binding) {
    if personal then exists e :: e in d.entries && b == Binding(scopeId, e.id, e.name, Export(e.fields.Keys, true, true, true), LocalApproval(e.id))
    else d.catalog.Some? && b in d.catalog.value.bindings && b.scopeId == scopeId
  }

  /** All of them, in the order of their entries. */
  ghost predicate InOrder(d: Document, scopeId: string, personal: bool, bindings: seq<Binding>) {
    (forall b :: b in bindings <==> Belongs(d, scopeId, personal, b)) && Ascending(bindings)
  }

  lemma {:induction false} AscendingIsUnique(a: seq<Binding>, b: seq<Binding>)
    requires Ascending(a) && Ascending(b) && forall x :: x in a <==> x in b
    ensures a == b
  {
    if a == [] {
      SomethingIn(b);
    } else {
      assert a[0] in b;
      HeadsAgree(a, b);
      NotInTail(a);
      NotInTail(b);
      hide Ascending;
      assert a == [a[0]] + a[1..] && b == [b[0]] + b[1..];
      forall x ensures x in a[1..] <==> x in b[1..] {
        assert x in a[1..] <==> x in a && x != a[0];
        assert x in b[1..] <==> x in b && x != b[0];
      }
      AscendingIsUnique(a[1..], b[1..]);
    }
  }

  lemma SomethingIn(s: seq<Binding>)
    ensures s == [] || exists b :: b in s
  {
    assert s == [] || s[0] in s;
  }

  lemma NotInTail(a: seq<Binding>)
    requires Ascending(a) && a != []
    ensures Ascending(a[1..]) && a[0] !in a[1..]
  {
    if a[0] in a[1..] {
      var i :| 0 <= i < |a[1..]| && a[1..][i] == a[0];
      LessIsTotal(a[0].entryId, a[i + 1].entryId);
    }
  }

  lemma SelectionIsInOrder(d: Document, scopeId: string, personal: bool)
    requires Valid(d)
    ensures forall bindings :: InOrder(d, scopeId, personal, bindings) <==> bindings == Selection(d, scopeId, personal)
  {
    SelectionFacts(d, scopeId, personal);
    var selected := Selection(d, scopeId, personal);
    forall b ensures b in selected <==> Belongs(d, scopeId, personal, b) {
      if personal {
        var all := PersonalBindings(d.entries, scopeId);
        forall i | 0 <= i < |all| ensures d.entries[i] in d.entries {
        }
        if e :| e in d.entries && b == Binding(scopeId, e.id, e.name, Export(e.fields.Keys, true, true, true), LocalApproval(e.id)) {
          var i :| 0 <= i < |d.entries| && d.entries[i] == e;
          assert all[i] == b;
        }
      }
    }
    hide Belongs, Selection, Ascending;
    forall bindings | InOrder(d, scopeId, personal, bindings) ensures bindings == selected {
      AscendingIsUnique(bindings, selected);
    }
  }

  // ---------- references ----------

  /** The entry is part of the payload under this name. */
  ghost predicate Included(bindings: seq<Binding>, t: Entry, alias: string) {
    exists b :: b in bindings && b.entryId == t.id && b.localName == alias
  }

  /** A name in the vault stands for this name in the payload. */
  ghost predicate Translates(entries: seq<Entry>, bindings: seq<Binding>, name: string, alias: string) {
    exists t :: t in entries && t.name == name && Included(bindings, t, alias)
  }

  ghost predicate Translatable(entries: seq<Entry>, bindings: seq<Binding>, name: string) {
    exists alias :: Translates(entries, bindings, name, alias)
  }

  /** The key reference of a server that is reached with a key. */
  predicate KeyReference(e: Entry, ref: Ref) {
    ReachedWithKey(e) && ref.role == "ssh_key"
  }

  predicate ReachedWithKey(e: Entry) {
    e.kind == Server && "auth" in e.fields && e.fields["auth"] == "ssh_key"
  }

  /** The references in order, each with its role and under the payload's name, without those
    that lead out of the payload and, unless references are exported, without all but the key
    reference. */
  ghost predicate Links(entries: seq<Entry>, bindings: seq<Binding>, e: Entry, exported: bool, refs: seq<Ref>, links: seq<Ref>)
    decreases |refs|
  {
    if refs == [] then links == []
    else if (exported || KeyReference(e, refs[0])) && Translatable(entries, bindings, refs[0].name) then
      && links != [] && links[0].role == refs[0].role && Translates(entries, bindings, refs[0].name, links[0].name)
      && Links(entries, bindings, e, exported, refs[1..], links[1..])
    else Links(entries, bindings, e, exported, refs[1..], links)
  }

  /** A key reference leads to an SSH key of the payload. */
  ghost predicate LeadsToKey(entries: seq<Entry>, bindings: seq<Binding>, name: string) {
    exists t, alias :: t in entries && t.name == name && Included(bindings, t, alias) && t.kind == SshKey
  }

  /** A server that is reached with a key has one key reference, which leads to a key. */
  ghost predicate KeysIncluded(entries: seq<Entry>, bindings: seq<Binding>, e: Entry) {
    && (forall ref :: ref in e.refs && KeyReference(e, ref) ==> LeadsToKey(entries, bindings, ref.name))
    && (ReachedWithKey(e) ==> exists i :: OnlyKey(e.refs, i))
  }

  ghost predicate OnlyKey(refs: seq<Ref>, i: int) {
    0 <= i < |refs| && forall j :: 0 <= j < |refs| ==> (refs[j].role == "ssh_key" <==> j == i)
  }

  // ---------- records ----------

  /** What a recipient cannot do without. */
  predicate Essential(kind: EntryKind, field: string) {
    || (kind == SshKey && field == "public_key")
    || (kind == Server && (field == "host" || field == "user" || field == "auth" || field == "port"))
    || (kind == Domain && field == "host")
    || (kind == Note && field == "secret_body")
  }

  /** A record shows of an entry exactly what its binding exports, and the essential fields. */
  ghost predicate ShowsOf(e: Entry, b: Binding, r: Record) {
    && r.id == e.id && r.name == b.localName && r.kind == e.kind && r.times == e.times
    && (forall k :: k in r.fields <==> k in e.fields && (k in b.exported.fields || Essential(e.kind, k)))
    && (forall k :: k in r.fields ==> r.fields[k] == e.fields[k])
    && (if b.exported.tags then r.tags == e.tags else r.tags == [])
    && (if b.exported.note then r.note == e.note else r.note == "")
  }

  ghost predicate RecordOf(entries: seq<Entry>, bindings: seq<Binding>, e: Entry, b: Binding, personal: bool, valid: Validator, r: Record) {
    && (personal || e.catalogAttributes.projectAllowed) && valid(r) && ShowsOf(e, b, r)
    && Links(entries, bindings, e, b.exported.refs, e.refs, r.refs) && KeysIncluded(entries, bindings, e)
  }

  /** An account is absent, or it is read without a failure. */
  predicate Reads(vault: Vault, account: string, value: Option<string>) {
    if account in vault.accounts then account !in vault.broken && value == Some(vault.accounts[account]) else value == None
  }

  /** Its own secret, which an entry that needs one has, and the passphrase of a key. */
  ghost predicate SecretsOf(vault: Vault, e: Entry, x: PayloadEntry) {
    && (e.NeedsSecret() ==> e.id in vault.accounts) && Reads(vault, e.id, x.secret)
    && (if e.kind == SshKey then Reads(vault, Passphrase(e.id), x.passphrase) else x.passphrase == None)
  }

  // ---------- the payload ----------

  /** One entry of the payload and its line of the hashed source. */
  ghost predicate Releases(d: Document, vault: Vault, bindings: seq<Binding>, b: Binding, personal: bool, valid: Validator, x: PayloadEntry,
                           line: SourceLine)
  {
    exists e :: e in d.entries && e.id == b.entryId && RecordOf(d.entries, bindings, e, b, personal, valid, x.record)
      && SecretsOf(vault, e, x) && line == SourceLine(e.id, e.contentRevision, x.record, b)
  }

  /** The payload that the scope is due: an entry for each binding, in order and under distinct
    names, of the expected revision and, for a project, without reference cycles. */
  ghost predicate Due(d: Document, vault: Vault, scopeId: string, expected: Option<Revision>, personal: bool, valid: Validator, p: ProjectPayload) {
    && p.personal == personal && p.scopeId == scopeId && (expected.Some? ==> expected.value == p.revision)
    && d.catalog.Some? && (exists s :: s in d.catalog.value.scopes && s.id == scopeId)
    && exists bindings :: InOrder(d, scopeId, personal, bindings) && DueFor(d, vault, bindings, personal, valid, p.entries, p.revision)
  }

  ghost predicate DueFor(d: Document, vault: Vault, bindings: seq<Binding>, personal: bool, valid: Validator, entries: seq<PayloadEntry>,
                         revision: Revision)
  {
    && (forall i, j :: 0 <= i < j < |bindings| ==> bindings[i].localName != bindings[j].localName)
    && |entries| == |revision| == |bindings|
    && (forall i :: 0 <= i < |bindings| ==> Releases(d, vault, bindings, bindings[i], personal, valid, entries[i], revision[i]))
    && (!personal ==> forall p :: !Circle(entries, p))
  }

  /** Records that link one to the next and the last one to the first. */
  ghost predicate Circle(entries: seq<PayloadEntry>, p: seq<int>) {
    |p| >= 2 && p[0] == p[|p| - 1] && forall k :: 0 <= k < |p| - 1 ==> LinkedTo(entries, p[k], p[k + 1])
  }

  ghost predicate LinkedTo(entries: seq<PayloadEntry>, i: int, j: int) {
    0 <= i < |entries| && 0 <= j < |entries| && exists ref :: ref in entries[i].record.refs && ref.name == entries[j].record.name
  }

  /** What the cycle check sees. */
  ghost function SeenByCheck(entries: seq<PayloadEntry>): seq<Entry> {
    seq(|entries|, i requires 0 <= i < |entries| => AsEntry(entries[i].record))
  }

  // ---------- references, computed and meant ----------

  lemma AliasIff(bindings: seq<Binding>, id: string, alias: string)
    requires Ascending(bindings)
    ensures id in AliasesOf(bindings) && AliasesOf(bindings)[id] == alias <==>
              exists b :: b in bindings && b.entryId == id && b.localName == alias
  {
    if b :| b in bindings && b.entryId == id && b.localName == alias {
      var b' :| b' in bindings && b'.entryId == id && b'.localName == AliasesOf(bindings)[id];
      var i :| 0 <= i < |bindings| && bindings[i] == b;
      var j :| 0 <= j < |bindings| && bindings[j] == b';
      LessIsTotal(bindings[i].entryId, bindings[j].entryId);
    }
  }

  lemma TranslatesIff(entries: seq<Entry>, bindings: seq<Binding>, name: string, alias: string)
    requires UniqueEntries(entries) && Ascending(bindings)
    ensures var target := BoundTarget(entries, AliasesOf(bindings), name);
            && (Translates(entries, bindings, name, alias) <==> target.Some? && AliasesOf(bindings)[target.value.id] == alias)
            && (target.Some? ==> (LeadsToKey(entries, bindings, name) <==> target.value.kind == SshKey))
            && (LeadsToKey(entries, bindings, name) ==> target.Some?)
  {
    GetByNameFinds(entries, name);
    var target := BoundTarget(entries, AliasesOf(bindings), name);
    forall t | t in entries && t.name == name ensures GetByName(entries, name) == Some(t) {
      LookupUnique(entries, t);
    }
    hide UniqueEntries, GetByName, Ascending, AliasesOf;
    forall t, a | t in entries && t.name == name && Included(bindings, t, a)
      ensures target == Some(t) && AliasesOf(bindings)[t.id] == a
    {
      AliasIff(bindings, t.id, a);
    }
    if target.Some? {
      AliasIff(bindings, target.value.id, AliasesOf(bindings)[target.value.id]);
      assert Included(bindings, target.value, AliasesOf(bindings)[target.value.id]);
    }
  }

  lemma RefsStep(entries: seq<Entry>, aliases: Aliases, refs: seq<Ref>, sshServer: bool, wanted: bool, links: seq<Ref>)
    requires refs != []
    ensures var first := ProjectRef(entries, aliases, refs[0], sshServer && refs[0].role == "ssh_key", wanted);
            var rest := ProjectRefs(entries, aliases, refs[1..], sshServer, wanted);
            ProjectRefs(entries, aliases, refs, sshServer, wanted) == Ok(links) <==> first.Ok? && rest.Ok? && links == first.value + rest.value
  {
    hide ProjectRef;
  }

  lemma LinksStep(entries: seq<Entry>, bindings: seq<Binding>, e: Entry, exported: bool, refs: seq<Ref>, links: seq<Ref>)
    requires refs != []
    ensures Links(entries, bindings, e, exported, refs, links) <==>
              if (exported || KeyReference(e, refs[0])) && Translatable(entries, bindings, refs[0].name) then
                && links != [] && links[0].role == refs[0].role && Translates(entries, bindings, refs[0].name, links[0].name)
                && Links(entries, bindings, e, exported, refs[1..], links[1..])
              else Links(entries, bindings, e, exported, refs[1..], links)
  {
    hide KeyReference, Translatable, Translates;
  }

  lemma Prepended(links: seq<Ref>, first: seq<Ref>, rest: seq<Ref>)
    requires |first| <= 1
    ensures links == first + rest <==> if first == [] then links == rest else links != [] && links[0] == first[0] && links[1..] == rest
  {
    assert links == [] || links == [links[0]] + links[1..];
    assert first == [] || first == [first[0]];
    assert [] + rest == rest;
  }

  /** The projected references are those that link, if every key reference leads to a key. */
  lemma {:induction false} RefsIff(entries: seq<Entry>, bindings: seq<Binding>, e: Entry, exported: bool, refs: seq<Ref>, links: seq<Ref>)
    requires UniqueEntries(entries) && Ascending(bindings)
    ensures ProjectRefs(entries, AliasesOf(bindings), refs, SshServer(e), exported) == Ok(links) <==>
              && Links(entries, bindings, e, exported, refs, links)
              && forall ref :: ref in refs && KeyReference(e, ref) ==> LeadsToKey(entries, bindings, ref.name)
    decreases |refs|
  {
    if refs != [] {
      var aliases, ref := AliasesOf(bindings), refs[0];
      hide UniqueEntries, Ascending, AliasesOf, ProjectRef, ProjectRefs, Links, Translates, Translatable, LeadsToKey, KeyReference, SshServer;
      var rest := ProjectRefs(entries, aliases, refs[1..], SshServer(e), exported);
      var first := ProjectRef(entries, aliases, ref, SshServer(e) && ref.role == "ssh_key", exported);
      FirstRefIff(entries, bindings, e, exported, ref);
      RefsIff(entries, bindings, e, exported, refs[1..], links);
      if links != [] {
        RefsIff(entries, bindings, e, exported, refs[1..], links[1..]);
      }
      RefsStep(entries, aliases, refs, SshServer(e), exported, links);
      LinksStep(entries, bindings, e, exported, refs, links);
      if first.Ok? && rest.Ok? {
        Prepended(links, first.value, rest.value);
      }
      assert forall x :: x in refs <==> x == ref || x in refs[1..];
    }
  }

  lemma FirstRefIff(entries: seq<Entry>, bindings: seq<Binding>, e: Entry, exported: bool, ref: Ref)
    requires UniqueEntries(entries) && Ascending(bindings)
    ensures var first := ProjectRef(entries, AliasesOf(bindings), ref, SshServer(e) && ref.role == "ssh_key", exported);
            && (first.Ok? <==> (KeyReference(e, ref) ==> LeadsToKey(entries, bindings, ref.name)))
            && (first.Ok? ==> |first.value| <= 1)
            && (first.Ok? ==> (first.value != [] <==> (exported || KeyReference(e, ref)) && Translatable(entries, bindings, ref.name)))
            && (first.Ok? && first.value != [] ==>
                  forall link: Ref :: link.role == ref.role && Translates(entries, bindings, ref.name, link.name) <==> link == first.value[0])
  {
    var aliases := AliasesOf(bindings);
    var target := BoundTarget(entries, aliases, ref.name);
    forall alias
      ensures Translates(entries, bindings, ref.name, alias) <==> target.Some? && aliases[target.value.id] == alias
    {
      TranslatesIff(entries, bindings, ref.name, alias);
    }
    TranslatesIff(entries, bindings, ref.name, ref.name);
    hide UniqueEntries, Ascending, AliasesOf, LeadsToKey, GetByName, Translates;
    assert Translatable(entries, bindings, ref.name) <==> target.Some? by {
      if target.Some? {
        assert Translates(entries, bindings, ref.name, aliases[target.value.id]);
      }
    }
  }

  lemma {:induction false} KeyRefsNone(refs: seq<Ref>)
    ensures SshKeyRefs(refs) == 0 <==> forall i :: 0 <= i < |refs| ==> refs[i].role != "ssh_key"
  {
    if refs != [] {
      KeyRefsNone(refs[1..]);
      assert refs == [refs[0]] + refs[1..];
    }
  }

  lemma {:induction false} KeyRefsOne(refs: seq<Ref>)
    ensures SshKeyRefs(refs) == 1 <==> exists i :: OnlyKey(refs, i)
  {
    if refs != [] {
      var rest := refs[1..];
      KeyRefsNone(rest);
      KeyRefsOne(rest);
      assert refs == [refs[0]] + rest;
      if refs[0].role == "ssh_key" {
        forall i | OnlyKey(refs, i) ensures i == 0 {
        }
        assert SshKeyRefs(rest) == 0 ==> OnlyKey(refs, 0);
        assert OnlyKey(refs, 0) ==> forall j :: 0 <= j < |rest| ==> rest[j] == refs[j + 1];
      } else {
        forall i | OnlyKey(refs, i) ensures OnlyKey(rest, i - 1) {
          assert forall j :: 0 <= j < |rest| ==> rest[j] == refs[j + 1];
        }
        forall i | OnlyKey(rest, i) ensures OnlyKey(refs, i + 1) {
        }
      }
    }
  }

  /** All key references of a server are projected and no other reference becomes one. */
  lemma {:induction false} KeyRefsKept(entries: seq<Entry>, bindings: seq<Binding>, e: Entry, exported: bool, refs: seq<Ref>, links: seq<Ref>)
    requires SshServer(e) && Links(entries, bindings, e, exported, refs, links)
    requires forall ref :: ref in refs && KeyReference(e, ref) ==> Translatable(entries, bindings, ref.name)
    ensures SshKeyRefs(links) == SshKeyRefs(refs)
    decreases |refs|
  {
    if refs != [] {
      var ref := refs[0];
      assert refs == [ref] + refs[1..];
      if (exported || KeyReference(e, ref)) && Translatable(entries, bindings, ref.name) {
        KeyRefsKept(entries, bindings, e, exported, refs[1..], links[1..]);
      } else {
        KeyRefsKept(entries, bindings, e, exported, refs[1..], links);
      }
    }
  }

  lemma KeyIsTranslatable(entries: seq<Entry>, bindings: seq<Binding>, name: string)
    requires LeadsToKey(entries, bindings, name)
    ensures Translatable(entries, bindings, name)
  {
    var t, alias :| t in entries && t.name == name && Included(bindings, t, alias) && t.kind == SshKey;
    assert Translates(entries, bindings, name, alias);
  }

  // ---------- records, computed and meant ----------

  lemma EssentialIff(kind: EntryKind, field: string)
    ensures field in EssentialFields(kind) <==> Essential(kind, field)
  {
  }

  lemma ShowsIff(e: Entry, b: Binding, r: Record)
    ensures ShowsOf(e, b, r) <==>
              r == Record(e.id, b.localName, e.kind, KeptFields(e, b.exported.fields), if b.exported.tags then e.tags else [],
                          if b.exported.note then e.note else "", r.refs, e.times)
  {
    var kept := KeptFields(e, b.exported.fields);
    forall k ensures k in kept <==> k in e.fields && (k in b.exported.fields || Essential(e.kind, k)) {
      EssentialIff(e.kind, k);
    }
    assert (forall k :: k in r.fields <==> k in kept) && (forall k :: k in r.fields ==> r.fields[k] == e.fields[k]) ==> r.fields == kept;
    hide Essential, EssentialFields;
  }

  /** An entry is projected to exactly the record it is due. */
  lemma RecordIff(entries: seq<Entry>, bindings: seq<Binding>, e: Entry, b: Binding, personal: bool, valid: Validator, r: Record)
    requires UniqueEntries(entries) && Ascending(bindings)
    ensures ProjectEntry(entries, AliasesOf(bindings), e, b, personal, valid) == Ok(r) <==> RecordOf(entries, bindings, e, b, personal, valid, r)
  {
    var refs := ProjectRefs(entries, AliasesOf(bindings), e.refs, SshServer(e), b.exported.refs);
    RefsIff(entries, bindings, e, b.exported.refs, e.refs, r.refs);
    ShowsIff(e, b, r);
    KeyRefsOne(e.refs);
    hide UniqueEntries, Ascending, AliasesOf, ProjectRefs, LeadsToKey, OnlyKey;
    if SshServer(e) && refs == Ok(r.refs) {
      forall ref | ref in e.refs && KeyReference(e, ref) ensures Translatable(entries, bindings, ref.name) {
        KeyIsTranslatable(entries, bindings, ref.name);
      }
      KeyRefsKept(entries, bindings, e, b.exported.refs, e.refs, r.refs);
    }
    hide Links, KeyReference, KeptFields, ShowsOf, SshServer, SshKeyRefs;
  }

  lemma SecretsIff(vault: Vault, item: Item, x: PayloadEntry)
    ensures (item.entry.NeedsSecret() ==> item.entry.id in vault.accounts) && ReadEntry(vault, item) == Ok(x) <==>
              x.record == item.record && SecretsOf(vault, item.entry, x)
  {
    hide Entry.NeedsSecret;
  }

  // ---------- payloads, computed and meant ----------

  /** Items that are aligned with the bindings are what is projected. */
  lemma {:induction false} AlignedIsProjected(entries: seq<Entry>, aliases: Aliases, bindings: seq<Binding>, personal: bool, valid: Validator,
                                              items: seq<Item>)
    requires Resolved(entries, bindings) && Aligned(entries, aliases, bindings, items, personal, valid)
    ensures ProjectAll(entries, aliases, bindings, personal, valid) == Ok(items)
  {
    if bindings != [] {
      assert bindings[0] in bindings && Projects(entries, aliases, bindings[0], items[0], personal, valid);
      hide ProjectEntry, GetById;
      AlignedIsProjected(entries, aliases, bindings[1..], personal, valid, items[1..]);
      assert items == [items[0]] + items[1..];
    }
  }

  lemma ProjectAllIff(entries: seq<Entry>, aliases: Aliases, bindings: seq<Binding>, personal: bool, valid: Validator, items: seq<Item>)
    requires Resolved(entries, bindings)
    ensures ProjectAll(entries, aliases, bindings, personal, valid) == Ok(items) <==> Aligned(entries, aliases, bindings, items, personal, valid)
  {
    hide ProjectAll, Aligned, Resolved;
    if ProjectAll(entries, aliases, bindings, personal, valid).Ok? {
      ProjectAllAligned(entries, aliases, bindings, personal, valid);
    }
    if Aligned(entries, aliases, bindings, items, personal, valid) {
      AlignedIsProjected(entries, aliases, bindings, personal, valid, items);
    }
  }

  lemma {:induction false} ReadAllIff(vault: Vault, items: seq<Item>, filled: seq<PayloadEntry>)
    ensures ReadAll(vault, items) == Ok(filled) <==>
              |filled| == |items| && forall i :: 0 <= i < |items| ==> ReadEntry(vault, items[i]) == Ok(filled[i])
  {
    if ReadAll(vault, items).Ok? {
      ReadAllAligned(vault, items);
    }
    if items != [] && filled != [] {
      ReadAllIff(vault, items[1..], filled[1..]);
      assert filled == [filled[0]] + filled[1..];
    }
  }

  /** A bound entry, computed: its record and its secrets. */
  ghost predicate Computed(entries: seq<Entry>, vault: Vault, bindings: seq<Binding>, b: Binding, personal: bool, valid: Validator, item: Item,
                           x: PayloadEntry, line: SourceLine)
  {
    && Projects(entries, AliasesOf(bindings), b, item, personal, valid)
    && (item.entry.NeedsSecret() ==> item.entry.id in vault.accounts) && ReadEntry(vault, item) == Ok(x)
    && line == SourceLine(item.entry.id, item.entry.contentRevision, item.record, b)
  }

  lemma ReleasesIff(d: Document, vault: Vault, bindings: seq<Binding>, b: Binding, personal: bool, valid: Validator, x: PayloadEntry,
                    line: SourceLine)
    requires UniqueEntries(d.entries) && Ascending(bindings) && GetById(d.entries, b.entryId).Some?
    ensures Releases(d, vault, bindings, b, personal, valid, x, line) <==>
              Computed(d.entries, vault, bindings, b, personal, valid, Item(GetById(d.entries, b.entryId).value, x.record), x, line)
  {
    var e := GetById(d.entries, b.entryId).value;
    GetByIdFinds(d.entries, b.entryId);
    forall e' | e' in d.entries && e'.id == b.entryId ensures e' == e {
      LookupUnique(d.entries, e');
    }
    RecordIff(d.entries, bindings, e, b, personal, valid, x.record);
    SecretsIff(vault, Item(e, x.record), x);
    hide UniqueEntries, Ascending, RecordOf, SecretsOf, GetById, ReadEntry, ProjectEntry, Entry.NeedsSecret;
  }

  lemma ComputedItem(entries: seq<Entry>, vault: Vault, bindings: seq<Binding>, b: Binding, personal: bool, valid: Validator, item: Item,
                     x: PayloadEntry, line: SourceLine)
    requires Computed(entries, vault, bindings, b, personal, valid, item, x, line)
    ensures Some(item.entry) == GetById(entries, b.entryId) && item.record == x.record
  {
  }

  /** All bound entries, computed. */
  ghost predicate AllComputed(entries: seq<Entry>, vault: Vault, bindings: seq<Binding>, personal: bool, valid: Validator, items: seq<Item>,
                              filled: seq<PayloadEntry>, revision: Revision)
  {
    && |items| == |filled| == |revision| == |bindings|
    && forall i :: 0 <= i < |bindings| ==> Computed(entries, vault, bindings, bindings[i], personal, valid, items[i], filled[i], revision[i])
  }

  lemma SourceIff(items: seq<Item>, bindings: seq<Binding>, revision: Revision)
    requires |items| == |bindings|
    ensures revision == SourceOf(items, bindings) <==>
              |revision| == |items| && forall i :: 0 <= i < |items| ==>
                revision[i] == SourceLine(items[i].entry.id, items[i].entry.contentRevision, items[i].record, bindings[i])
  {
  }

  lemma AllComputedIff(entries: seq<Entry>, vault: Vault, bindings: seq<Binding>, personal: bool, valid: Validator, items: seq<Item>,
                       filled: seq<PayloadEntry>, revision: Revision)
    requires Resolved(entries, bindings)
    ensures AllComputed(entries, vault, bindings, personal, valid, items, filled, revision) <==>
              && ProjectAll(entries, AliasesOf(bindings), bindings, personal, valid) == Ok(items)
              && SecretsPresent(vault, items) && ReadAll(vault, items) == Ok(filled)
              && |items| == |bindings| && revision == SourceOf(items, bindings)
  {
    hide Projects, ReadEntry, ProjectAll, ReadAll, AliasesOf, Resolved, Entry.NeedsSecret, SourceOf;
    ProjectAllIff(entries, AliasesOf(bindings), bindings, personal, valid, items);
    ReadAllIff(vault, items, filled);
    if |items| == |bindings| {
      SourceIff(items, bindings, revision);
    }
  }

  /** The item of a bound entry of a given payload. */
  ghost function ItemsOf(entries: seq<Entry>, bindings: seq<Binding>, filled: seq<PayloadEntry>): seq<Item>
    requires Resolved(entries, bindings) && |filled| == |bindings|
  {
    seq(|bindings|, i requires 0 <= i < |bindings| =>
      assert bindings[i] in bindings; Item(GetById(entries, bindings[i].entryId).value, filled[i].record))
  }

  lemma ReleasesAllIff(d: Document, vault: Vault, bindings: seq<Binding>, personal: bool, valid: Validator, filled: seq<PayloadEntry>,
                       revision: Revision)
    requires UniqueEntries(d.entries) && Ascending(bindings) && Resolved(d.entries, bindings) && |filled| == |revision| == |bindings|
    ensures (forall i :: 0 <= i < |bindings| ==> Releases(d, vault, bindings, bindings[i], personal, valid, filled[i], revision[i])) <==>
              AllComputed(d.entries, vault, bindings, personal, valid, ItemsOf(d.entries, bindings, filled), filled, revision)
  {
    hide UniqueEntries, Ascending, Releases, Computed, GetById;
    var items := ItemsOf(d.entries, bindings, filled);
    forall i | 0 <= i < |bindings|
      ensures Releases(d, vault, bindings, bindings[i], personal, valid, filled[i], revision[i]) <==>
                Computed(d.entries, vault, bindings, bindings[i], personal, valid, items[i], filled[i], revision[i])
    {
      assert bindings[i] in bindings;
      ReleasesIff(d, vault, bindings, bindings[i], personal, valid, filled[i], revision[i]);
    }
  }

  lemma OnlyItsItems(entries: seq<Entry>, vault: Vault, bindings: seq<Binding>, personal: bool, valid: Validator, items: seq<Item>,
                     filled: seq<PayloadEntry>, revision: Revision)
    requires Resolved(entries, bindings) && AllComputed(entries, vault, bindings, personal, valid, items, filled, revision)
    ensures items == ItemsOf(entries, bindings, filled)
  {
    hide Computed, GetById;
    var those := ItemsOf(entries, bindings, filled);
    forall i | 0 <= i < |bindings| ensures items[i] == those[i] {
      assert bindings[i] in bindings;
      ComputedItem(entries, vault, bindings, bindings[i], personal, valid, items[i], filled[i], revision[i]);
    }
  }

  lemma SameForCheck(entries: seq<Entry>, bindings: seq<Binding>, filled: seq<PayloadEntry>)
    requires Resolved(entries, bindings) && |filled| == |bindings|
    ensures AsEntries(ItemsOf(entries, bindings, filled)) == SeenByCheck(filled)
  {
    hide GetById, AsEntry;
  }

  /** Under distinct names the cycle check finds exactly the circles of the payload. */
  lemma CircleIff(filled: seq<PayloadEntry>)
    requires forall i, j :: 0 <= i < j < |filled| ==> filled[i].record.name != filled[j].record.name
    ensures Cyclic(GraphOf(SeenByCheck(filled))) <==> exists p :: Circle(filled, p)
  {
    var seen := SeenByCheck(filled);
    CyclicIff(seen);
    hide Cyclic, GraphOf;
    forall i, j ensures LinkedTo(filled, i, j) <==> Refers(seen, i, j) {
    }
    hide LinkedTo, Refers, SeenByCheck;
    if p :| Circle(filled, p) {
      assert Loop(seen, p);
    }
    if p :| Loop(seen, p) {
      assert Circle(filled, p);
    }
  }

  lemma NamedAfterBindings(d: Document, vault: Vault, bindings: seq<Binding>, personal: bool, valid: Validator, filled: seq<PayloadEntry>,
                           revision: Revision)
    requires |filled| == |revision| == |bindings| && DistinctAliases(bindings)
    requires forall i :: 0 <= i < |bindings| ==> Releases(d, vault, bindings, bindings[i], personal, valid, filled[i], revision[i])
    ensures forall i, j :: 0 <= i < j < |filled| ==> filled[i].record.name != filled[j].record.name
  {
    forall i | 0 <= i < |bindings| ensures filled[i].record.name == bindings[i].localName {
      assert Releases(d, vault, bindings, bindings[i], personal, valid, filled[i], revision[i]);
    }
  }

  /** The entries for the bindings of a scope are those that were computed. */
  lemma DueForIff(d: Document, vault: Vault, bindings: seq<Binding>, personal: bool, valid: Validator, filled: seq<PayloadEntry>,
                  revision: Revision, items: seq<Item>)
    requires UniqueEntries(d.entries) && Ascending(bindings) && Resolved(d.entries, bindings)
    requires |filled| == |bindings| ==> items == ItemsOf(d.entries, bindings, filled)
    ensures DueFor(d, vault, bindings, personal, valid, filled, revision) <==>
              && DistinctAliases(bindings) && AllComputed(d.entries, vault, bindings, personal, valid, items, filled, revision)
              && (personal || !Cyclic(GraphOf(AsEntries(items))))
  {
    hide Releases, Computed, Cyclic, GraphOf, UniqueEntries, Ascending, Resolved, ItemsOf, SeenByCheck, AsEntries, Circle;
    if |filled| == |revision| == |bindings| {
      ReleasesAllIff(d, vault, bindings, personal, valid, filled, revision);
      SameForCheck(d.entries, bindings, filled);
      if DistinctAliases(bindings) && AllComputed(d.entries, vault, bindings, personal, valid, items, filled, revision) {
        NamedAfterBindings(d, vault, bindings, personal, valid, filled, revision);
        CircleIff(filled);
      }
    }
  }

  lemma ComputedAlone(entries: seq<Entry>, vault: Vault, bindings: seq<Binding>, personal: bool, valid: Validator, items: seq<Item>,
                      due: seq<Item>, filled: seq<PayloadEntry>, revision: Revision)
    requires Resolved(entries, bindings) && (|filled| == |bindings| ==> due == ItemsOf(entries, bindings, filled))
    ensures AllComputed(entries, vault, bindings, personal, valid, items, filled, revision) ==> items == due
  {
    if AllComputed(entries, vault, bindings, personal, valid, items, filled, revision) {
      OnlyItsItems(entries, vault, bindings, personal, valid, items, filled, revision);
    }
  }

  lemma FilledIff(snapshot: Snapshot, vault: Vault, scopeId: string, expected: Option<Revision>, personal: bool, p: ProjectPayload)
    ensures Filled(snapshot, vault, scopeId, expected, personal) == Ok(p) <==>
              && p.personal == personal && p.scopeId == scopeId && (expected.Some? ==> expected.value == p.revision)
              && p.revision == snapshot.revision && SecretsPresent(vault, snapshot.items) && ReadAll(vault, snapshot.items) == Ok(p.entries)
  {
    hide SecretsPresent, ReadAll;
  }

  lemma AssembledMeans(entries: seq<Entry>, bindings: seq<Binding>, personal: bool, valid: Validator)
    requires Resolved(entries, bindings)
    ensures var projected := ProjectAll(entries, AliasesOf(bindings), bindings, personal, valid);
            && (Assembled(entries, bindings, personal, valid).Ok? <==>
                  && DistinctAliases(bindings) && projected.Ok? && (personal || !Cyclic(GraphOf(AsEntries(projected.value)))))
            && (projected.Ok? ==> |projected.value| == |bindings|)
            && (Assembled(entries, bindings, personal, valid).Ok? ==>
                  Assembled(entries, bindings, personal, valid).value == Snapshot(projected.value, SourceOf(projected.value, bindings)))
  {
    var projected := ProjectAll(entries, AliasesOf(bindings), bindings, personal, valid);
    if projected.Ok? {
      ProjectAllAligned(entries, AliasesOf(bindings), bindings, personal, valid);
    }
    hide ProjectAll, AliasesOf, Cyclic, GraphOf, DistinctAliases, AsEntries, SourceOf, Projects;
  }

  /** What the program assembles for given bindings is what is due for them. */
  lemma AssembledIff(d: Document, vault: Vault, bindings: seq<Binding>, scopeId: string, expected: Option<Revision>, personal: bool,
                     valid: Validator, p: ProjectPayload)
    requires UniqueEntries(d.entries) && Ascending(bindings) && Resolved(d.entries, bindings)
    ensures var snapshot := Assembled(d.entries, bindings, personal, valid);
            snapshot.Ok? && Filled(snapshot.value, vault, scopeId, expected, personal) == Ok(p) <==>
              && p.personal == personal && p.scopeId == scopeId && (expected.Some? ==> expected.value == p.revision)
              && DueFor(d, vault, bindings, personal, valid, p.entries, p.revision)
  {
    hide ProjectAll, AliasesOf, Cyclic, GraphOf, UniqueEntries, Ascending, DistinctAliases, ReadAll, SecretsPresent, DueFor, ItemsOf, AllComputed,
      AsEntries, SourceOf, Resolved, Assembled, Filled;
    var projected := ProjectAll(d.entries, AliasesOf(bindings), bindings, personal, valid);
    var due := if |p.entries| == |bindings| then ItemsOf(d.entries, bindings, p.entries) else [];
    AssembledMeans(d.entries, bindings, personal, valid);
    DueForIff(d, vault, bindings, personal, valid, p.entries, p.revision, due);
    AllComputedIff(d.entries, vault, bindings, personal, valid, due, p.entries, p.revision);
    if projected.Ok? {
      AllComputedIff(d.entries, vault, bindings, personal, valid, projected.value, p.entries, p.revision);
      ComputedAlone(d.entries, vault, bindings, personal, valid, projected.value, due, p.entries, p.revision);
      FilledIff(Snapshot(projected.value, SourceOf(projected.value, bindings)), vault, scopeId, expected, personal, p);
    }
  }

  /** A scope gets a payload exactly when one is due to it, and exactly that one: no refusal is
    given without reason, and nothing more and nothing less leaves the vault. */
  lemma PayloadIff(d: Document, vault: Vault, scopeId: string, expected: Option<Revision>, personal: bool, valid: Validator, p: ProjectPayload)
    requires Valid(d)
    ensures PayloadOf(d, vault, scopeId, expected, personal, valid) == Ok(p) <==> Due(d, vault, scopeId, expected, personal, valid, p)
  {
    var bindings := Selection(d, scopeId, personal);
    SelectionFacts(d, scopeId, personal);
    SelectionIsInOrder(d, scopeId, personal);
    hide Selection, InOrder, DueFor, Ascending, Resolved, Assembled, Filled, UniqueEntries;
    assert InOrder(d, scopeId, personal, bindings);
    AssembledIff(d, vault, bindings, scopeId, expected, personal, valid, p);
  }
}
