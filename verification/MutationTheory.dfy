/** What applying a prepared mutation means. */
module MutationTheory {
  import opened Wrappers
  import opened ImportTypes
  import opened Metadata
  import opened Mutation
  import opened Names

  /** A mutation prepared from a document records that document, the preimages of exactly
    the accounts it touches, and a catalog image exactly when there is a catalog.  The image
    of a dependent only loses its references to the deleted entry and, with a catalog, gets a
    new content revision. */
  lemma PreparedImages(d: Document, accounts: Accounts, r: Request)
    requires Prepare(d, accounts, r).Ok?
    ensures var s := Prepare(d, accounts, r).value;
            && s.before == d && s.after == None
            && s.accountsBefore == SnapshotAccounts(accounts, s.accountsAfter)
            && (s.Edit? ==> s.catalogAfter.Some? == d.catalog.Some? && |s.dependentsBefore| == |s.dependentsAfter|)
            && (s.Edit? ==> forall i :: 0 <= i < |s.dependentsBefore| ==>
                  s.entryBefore.Some? && OnlyDetached(s.dependentsBefore[i], s.dependentsAfter[i], s.entryBefore.value.name, d.catalog.Some?))
  {
    if r.DeleteEntry? {
      var s := Prepare(d, accounts, r).value;
      AllIntentsKeepPresence(CatalogAfterDelete(d.catalog, s.entryBefore.value), s.dependentsAfter, "entry_updated");
      forall i | 0 <= i < |s.dependentsBefore|
        ensures OnlyDetached(s.dependentsBefore[i], s.dependentsAfter[i], s.entryBefore.value.name, d.catalog.Some?)
      {
        WithoutRefsExactly(s.dependentsBefore[i].refs, s.entryBefore.value.name);
      }
    }
  }

  /** All references but those to this name are left, and nothing else differs. */
  ghost predicate OnlyDetached(e: Entry, e': Entry, name: string, schema3: bool) {
    && (forall r :: r in e'.refs <==> r in e.refs && r.name != name)
    && e' == e.(refs := e'.refs, contentRevision := e'.contentRevision)
    && (!schema3 ==> e'.contentRevision == e.contentRevision)
  }

  ghost predicate Announced(intents: seq<Intent>, scope: string) {
    exists i :: i in intents && i.scopeId == scope
  }

  ghost predicate BoundIn(bindings: seq<Binding>, id: string, scope: string) {
    exists b :: b in bindings && b.entryId == id && b.scopeId == scope
  }

  ghost predicate Announces(intents: seq<Intent>, bindings: seq<Binding>, e: Entry, reason: string) {
    && (forall i, j :: 0 <= i < j < |intents| ==> Less(intents[i].scopeId, intents[j].scopeId))
    && (forall i :: i in intents ==> i == ContentIntent(i.scopeId, e.id, reason, e.contentRevision))
    && forall scope :: Announced(intents, scope) <==> BoundIn(bindings, e.id, scope)
  }

  /** A mutated entry is announced once to each scope that binds it, in ascending order. */
  lemma IntentsAnnounceScopes(bindings: seq<Binding>, e: Entry, reason: string)
    ensures Announces(IntentsFor(bindings, e, reason), bindings, e, reason)
  {
    var scopes, intents := ScopesOf(bindings, e.id), IntentsFor(bindings, e, reason);
    ScopesAscend(bindings, e.id);
    forall scope ensures Announced(intents, scope) <==> scope in scopes {
      if scope in scopes {
        var k :| 0 <= k < |scopes| && scopes[k] == scope;
        assert intents[k] in intents;
      }
    }
  }

  ghost predicate AscendingScopes(scopes: seq<string>) {
    forall i, j :: 0 <= i < j < |scopes| ==> Less(scopes[i], scopes[j])
  }

  lemma {:induction false} ScopesAscend(bindings: seq<Binding>, id: string)
    ensures AscendingScopes(ScopesOf(bindings, id))
    ensures forall scope :: scope in ScopesOf(bindings, id) <==> BoundIn(bindings, id, scope)
  {
    if bindings != [] {
      ScopesAscend(bindings[1..], id);
      assert bindings == [bindings[0]] + bindings[1..];
      WithScopeAscends(bindings[0].scopeId, ScopesOf(bindings[1..], id));
    }
  }

  lemma {:induction false} WithScopeAscends(scope: string, scopes: seq<string>)
    requires AscendingScopes(scopes)
    ensures AscendingScopes(WithScope(scope, scopes))
    ensures forall x :: x in WithScope(scope, scopes) <==> x == scope || x in scopes
  {
    if scopes != [] && scope != scopes[0] {
      LessIsTotal(scope, scopes[0]);
      if Less(scope, scopes[0]) {
        forall j | 0 < j < |scopes| ensures Less(scope, scopes[j]) {
          LessIsTransitive(scope, scopes[0], scopes[j]);
        }
      } else {
        WithScopeAscends(scope, scopes[1..]);
        var r := WithScope(scope, scopes[1..]);
        assert scopes == [scopes[0]] + scopes[1..];
        forall j | 0 <= j < |r| ensures Less(scopes[0], r[j]) {
          assert r[j] in r;
        }
      }
    }
  }

  lemma {:induction false} AllIntentsKeepPresence(catalog: Option<Catalog>, entries: seq<Entry>, reason: string)
    ensures CatalogWithAllIntents(catalog, entries, reason).Some? == catalog.Some?
    ensures catalog.Some? ==> CatalogWithAllIntents(catalog, entries, reason).value.bindings == catalog.value.bindings
    decreases |entries|
  {
    if entries != [] {
      AllIntentsKeepPresence(CatalogWithIntents(catalog, entries[0], reason), entries[1..], reason);
    }
  }

  // ---------- dependents ----------

  lemma {:induction false} DependentsExactly(entries: seq<Entry>, name: string)
    ensures forall e :: e in DependentsOf(entries, name) <==> e in entries && RefersTo(e, name)
  {
    if entries != [] {
      DependentsExactly(entries[1..], name);
      assert entries == [entries[0]] + entries[1..];
    }
  }

  lemma {:induction false} DependentsUnique(entries: seq<Entry>, name: string)
    requires UniqueEntries(entries)
    ensures UniqueEntries(DependentsOf(entries, name))
  {
    if entries != [] {
      var rest := DependentsOf(entries[1..], name);
      DependentsUnique(entries[1..], name);
      DependentsExactly(entries[1..], name);
      forall k | 0 <= k < |rest| ensures rest[k].id != entries[0].id && rest[k].name != entries[0].name {
        assert rest[k] in entries[1..];
        var j :| 0 <= j < |entries[1..]| && entries[1..][j] == rest[k];
        assert entries[0].id != entries[j + 1].id && entries[0].name != entries[j + 1].name;
      }
    }
  }

  lemma {:induction false} WithoutRefsExactly(refs: seq<Ref>, name: string)
    ensures forall r :: r in WithoutRefs(refs, name) <==> r in refs && r.name != name
  {
    if refs != [] {
      WithoutRefsExactly(refs[1..], name);
      assert refs == [refs[0]] + refs[1..];
    }
  }

  ghost predicate SameIdentities(before: seq<Entry>, after: seq<Entry>) {
    && |before| == |after|
    && forall i :: 0 <= i < |before| ==> before[i].id == after[i].id && before[i].name == after[i].name
  }

  /** Applying prepared images to distinct dependents leaves each of them current, leaves
    every other entry alone and keeps all identities. */
  lemma {:induction false} DependentsApplied(d: Document, before: seq<Entry>, after: seq<Entry>)
    requires UniqueEntries(d.entries) && UniqueEntries(before) && SameIdentities(before, after)
    requires ApplyDependents(d, before, after).Ok?
    ensures var d' := ApplyDependents(d, before, after).value;
            && UniqueEntries(d'.entries) && Ids(d'.entries) == Ids(d.entries)
            && d'.tombstones == d.tombstones && d'.catalog == d.catalog
            && (forall e :: e in after ==> GetById(d'.entries, e.id) == Some(e))
            && forall id :: (forall e :: e in after ==> e.id != id) ==> GetById(d'.entries, id) == GetById(d.entries, id)
    decreases |before|
  {
    hide TxUpdate, GetById, UniqueEntries, Ids;
    if before != [] {
      var first := after[0];
      var next := TxUpdate(d, first).value;
      UpdateApplied(d, first);
      OthersDiffer(before, after);
      DependentsApplied(next, before[1..], after[1..]);
    }
  }

  lemma UpdateApplied(d: Document, e: Entry)
    requires UniqueEntries(d.entries) && TxUpdate(d, e).Ok?
    ensures var next := TxUpdate(d, e).value;
            && UniqueEntries(next.entries) && Ids(next.entries) == Ids(d.entries)
            && next.tombstones == d.tombstones && next.catalog == d.catalog
            && forall id :: GetById(next.entries, id) == if id == e.id then Some(e) else GetById(d.entries, id)
  {
    UpdateKeepsUnique(d, e);
    GetAfterReplace(d.entries, e, e.id);
    hide UniqueEntries, Ids, GetById, Replace;
    var next := TxUpdate(d, e).value;
    forall id ensures GetById(next.entries, id) == if id == e.id then Some(e) else GetById(d.entries, id) {
      GetAfterReplace(d.entries, e, id);
    }
  }

  lemma OthersDiffer(before: seq<Entry>, after: seq<Entry>)
    requires before != [] && UniqueEntries(before) && SameIdentities(before, after)
    ensures UniqueEntries(before[1..]) && SameIdentities(before[1..], after[1..])
    ensures forall e :: e in after <==> e == after[0] || e in after[1..]
    ensures forall e :: e in after[1..] ==> e.id != after[0].id
  {
    assert after == [after[0]] + after[1..];
    forall e | e in after[1..] ensures e.id != after[0].id {
      var j :| 0 <= j < |after[1..]| && after[1..][j] == e;
      assert before[0].id != before[j + 1].id;
    }
  }

  // ---------- recognition of the after side ----------

  /** What a prepared deletion records: a present entry and its distinct dependents. */
  ghost predicate DeletionOf(s: State, d: Document) {
    && s.Edit? && s.action == Delete && s.entryBefore.Some? && s.entryBefore.value in d.entries
    && UniqueEntries(s.dependentsBefore) && SameIdentities(s.dependentsBefore, s.dependentsAfter)
    && (forall e :: e in s.dependentsBefore <==> e in d.entries && RefersTo(e, s.entryBefore.value.name))
  }

  /** A change is only applied to what it was prepared from: the whole source document, the
    entry that it replaces or removes, and each dependent. */
  lemma SourceIsChecked(d: Document, s: State, now: nat)
    requires Apply(d, s, now).Ok?
    ensures s.ReplaceAll? ==> d == s.before
    ensures s.Edit? && s.entryBefore.Some? ==> GetById(d.entries, s.entryBefore.value.id) == s.entryBefore
    ensures s.Edit? && s.entryBefore.None? && s.entryAfter.Some? ==>
              s.entryAfter.value.id !in Ids(d.entries) && forall e :: e in d.entries ==> e.name != s.entryAfter.value.name
    ensures s.Edit? && s.action == Delete && UniqueEntries(s.dependentsBefore) && SameIdentities(s.dependentsBefore, s.dependentsAfter) ==>
              forall e :: e in s.dependentsBefore ==> GetById(d.entries, e.id) == Some(e)
  {
    if s.Edit? {
      if s.entryAfter.Some? {
        GetByIdFinds(d.entries, s.entryAfter.value.id);
        GetByNameFinds(d.entries, s.entryAfter.value.name);
      }
      if s.action == Delete && UniqueEntries(s.dependentsBefore) && SameIdentities(s.dependentsBefore, s.dependentsAfter) {
        DependentsAreChecked(d, s.dependentsBefore, s.dependentsAfter);
      }
    }
  }

  lemma {:induction false} DependentsAreChecked(d: Document, before: seq<Entry>, after: seq<Entry>)
    requires UniqueEntries(before) && SameIdentities(before, after) && ApplyDependents(d, before, after).Ok?
    ensures forall e :: e in before ==> GetById(d.entries, e.id) == Some(e)
    decreases |before|
  {
    if before != [] {
      var next := TxUpdate(d, after[0]).value;
      OthersDiffer(before, after);
      DependentsAreChecked(next, before[1..], after[1..]);
      hide UniqueEntries, GetById, ApplyDependents;
      forall e | e in before[1..] ensures GetById(d.entries, e.id) == Some(e) {
        GetAfterReplace(d.entries, after[0], e.id);
        var j :| 0 <= j < |before[1..]| && before[1..][j] == e;
        assert after[1..][j].id == e.id && after[1..][j] in after[1..];
      }
      assert before == [before[0]] + before[1..];
    }
  }

  lemma PreparedDeletion(d: Document, accounts: Accounts, r: Request)
    requires UniqueEntries(d.entries) && r.DeleteEntry? && Prepare(d, accounts, r).Ok?
    ensures DeletionOf(Prepare(d, accounts, r).value, d)
  {
    GetByIdFinds(d.entries, r.nameOrId);
    GetByNameFinds(d.entries, r.nameOrId);
    var gone := Prepare(d, accounts, r).value.entryBefore.value;
    DependentsUnique(d.entries, gone.name);
    DependentsExactly(d.entries, gone.name);
  }

  /** After the dependents are rewritten the entry still goes by its name. */
  lemma StillNamed(d: Document, s: State, detached: Document)
    requires UniqueEntries(d.entries) && DeletionOf(s, d)
    requires ApplyDependents(d, s.dependentsBefore, s.dependentsAfter) == Ok(detached)
    ensures var gone := s.entryBefore.value;
            exists e :: e in detached.entries && e.id == gone.id && e.name == gone.name
  {
    var gone := s.entryBefore.value;
    DependentsApplied(d, s.dependentsBefore, s.dependentsAfter);
    LookupUnique(d.entries, gone);
    GetByIdFinds(detached.entries, gone.id);
    if e :| e in s.dependentsAfter && e.id == gone.id {
      var i :| 0 <= i < |s.dependentsAfter| && s.dependentsAfter[i] == e;
      assert s.dependentsBefore[i] in d.entries;
      LookupUnique(d.entries, s.dependentsBefore[i]);
    } else {
      assert GetById(detached.entries, gone.id) == Some(gone);
    }
  }

  lemma RemovedExactly(entries: seq<Entry>, gone: Entry)
    requires UniqueEntries(entries) && gone in entries
    ensures forall id :: GetById(Remove(entries, gone.name), id) == if id == gone.id then None else GetById(entries, id)
    ensures Ids(Remove(entries, gone.name)) == Ids(entries) - {gone.id}
  {
    var left := Remove(entries, gone.name);
    forall id ensures GetById(left, id) == if id == gone.id then None else GetById(entries, id) {
      GetAfterRemove(entries, gone, id);
    }
    forall id ensures id in Ids(left) <==> id in Ids(entries) && id != gone.id {
      GetByIdFinds(left, id);
      GetByIdFinds(entries, id);
    }
  }

  /** Applying a prepared deletion: the entry is gone under a tombstone, exactly its
    dependents changed, and they are as prepared. */
  lemma DeleteApplied(d: Document, s: State, now: nat)
    requires UniqueEntries(d.entries) && DeletionOf(s, d) && Apply(d, s, now).Ok?
    ensures var d' := Apply(d, s, now).value;
            var gone := s.entryBefore.value;
            && GetById(d'.entries, gone.id).None?
            && (forall e :: e in s.dependentsAfter && e.id != gone.id ==> GetById(d'.entries, e.id) == Some(e))
            && (forall id :: id != gone.id && (forall e :: e in s.dependentsAfter ==> e.id != id) ==>
                  GetById(d'.entries, id) == GetById(d.entries, id))
            && d'.tombstones == d.tombstones + [Tombstone(gone.id, gone.name, now)]
            && d'.catalog == (if s.catalogAfter.Some? then s.catalogAfter else d.catalog)
            && Ids(d'.entries) == Ids(d.entries) - {gone.id}
  {
    var gone := s.entryBefore.value;
    var detached := ApplyDependents(d, s.dependentsBefore, s.dependentsAfter).value;
    DependentsApplied(d, s.dependentsBefore, s.dependentsAfter);
    StillNamed(d, s, detached);
    var current :| current in detached.entries && current.id == gone.id && current.name == gone.name;
    LookupUnique(detached.entries, current);
    RemovedExactly(detached.entries, current);
  }

  lemma {:induction false} RemoveKeepsUnique(entries: seq<Entry>, name: string)
    requires UniqueEntries(entries)
    ensures UniqueEntries(Remove(entries, name))
    ensures forall e :: e in Remove(entries, name) ==> e in entries
  {
    if entries != [] && entries[0].name != name {
      var rest := Remove(entries[1..], name);
      RemoveKeepsUnique(entries[1..], name);
      assert entries == [entries[0]] + entries[1..];
      forall k | 0 <= k < |rest| ensures rest[k].id != entries[0].id && rest[k].name != entries[0].name {
        assert rest[k] in entries[1..];
        var j :| 0 <= j < |entries[1..]| && entries[1..][j] == rest[k];
        assert entries[0].id != entries[j + 1].id && entries[0].name != entries[j + 1].name;
      }
    }
  }

  /** A state as a preparation makes it for this document. */
  ghost predicate PreparedFor(s: State, d: Document) {
    && s.before == d
    && (s.Edit? ==> s.catalogAfter.Some? == d.catalog.Some?)
    && (s.Edit? && s.action == Delete ==> DeletionOf(s, d))
  }

  lemma PrepareIsPrepared(d: Document, accounts: Accounts, r: Request)
    requires WellFormed(d) && Prepare(d, accounts, r).Ok?
    ensures PreparedFor(Prepare(d, accounts, r).value, d)
  {
    PreparedImages(d, accounts, r);
    if r.DeleteEntry? {
      PreparedDeletion(d, accounts, r);
    }
  }

  lemma EntryEditKeepsUnique(d: Document, s: State, now: nat)
    requires UniqueEntries(d.entries) && PreparedFor(s, d) && s.Edit? && ApplyEntry(d, s, now).Ok?
    ensures UniqueEntries(ApplyEntry(d, s, now).value.entries)
    ensures ApplyEntry(d, s, now).value.catalog == d.catalog
  {
    match s.action
    case Create =>
      if s.entryBefore.None? {
        var e := s.entryAfter.value;
        GetByIdFinds(d.entries, e.id);
        GetByNameFinds(d.entries, e.name);
        forall i | 0 <= i < |d.entries| ensures d.entries[i].id != e.id && d.entries[i].name != e.name {
          assert d.entries[i] in d.entries;
        }
      } else {
        UpdateKeepsUnique(d, s.entryAfter.value);
      }
    case Update =>
      UpdateKeepsUnique(d, s.entryAfter.value);
    case Delete =>
      DependentsApplied(d, s.dependentsBefore, s.dependentsAfter);
      var detached := ApplyDependents(d, s.dependentsBefore, s.dependentsAfter).value;
      RemoveKeepsUnique(detached.entries, s.entryBefore.value.name);
  }

  /** A mutation keeps identities unique and every binding resolved. */
  lemma ApplyKeepsWellFormed(d: Document, s: State, now: nat)
    requires WellFormed(d) && PreparedFor(s, d) && Apply(d, s, now).Ok?
    ensures WellFormed(Apply(d, s, now).value)
  {
    if s.Edit? {
      EntryEditKeepsUnique(d, s, now);
    }
  }

  /** The after test recognizes every applied mutation except the cascading deletion of an
    entry that refers to itself, and that one it never recognizes. */
  lemma AfterRecognizedIff(d: Document, s: State, now: nat)
    requires WellFormed(d) && PreparedFor(s, d) && Apply(d, s, now).Ok?
    ensures MatchesAfter(Apply(d, s, now).value, s) <==> !SelfReferring(s)
  {
    if s.Edit? {
      EntryEditKeepsUnique(d, s, now);
      match s.action
      case Create =>
        var e := s.entryAfter.value;
        if s.entryBefore.None? {
          AddedIsCurrent(d.entries, e);
        } else {
          GetAfterReplace(d.entries, e, e.id);
        }
      case Update =>
        GetAfterReplace(d.entries, s.entryAfter.value, s.entryAfter.value.id);
      case Delete =>
        DeleteRecognizedIff(d, s, now);
    }
  }

  /** Such a deletion can be prepared and applied: of an entry that refers to its own name. */
  lemma SelfReferenceIsStuck(now: nat) returns (d: Document, r: Request)
    ensures WellFormed(d) && Prepare(d, map[], r).Ok? && RequiredSecretsPresent(Prepare(d, map[], r).value, map[])
    ensures var s := Prepare(d, map[], r).value;
            Apply(d, s, now).Ok? && SelfReferring(s) && !MatchesAfter(Apply(d, s, now).value, s)
  {
    var e := Entry("i", "n", Domain, map[], [], "", [Ref("uses", "n")], "", CatalogAttributes("", false, None), "");
    d, r := Document([e], [], None), DeleteEntry("n", true, id => id);
    assert e.refs[0].name == "n";
    SelfReferencePrepared(d, e, r);
    var s := Prepare(d, map[], r).value;
    PrepareIsPrepared(d, map[], r);
    var detached := s.dependentsAfter[0];
    assert GetById(d.entries, "i") == Some(e) && GetByName(d.entries, "n") == Some(e);
    assert Replace(d.entries, detached) == [detached];
    assert TxUpdate(d, detached) == Ok(Document([detached], [], None));
    assert ApplyDependents(d, s.dependentsBefore, s.dependentsAfter) == Ok(Document([detached], [], None));
    AfterRecognizedIff(d, s, now);
  }

  lemma SelfReferencePrepared(d: Document, e: Entry, r: Request)
    requires d.entries == [e] && RefersTo(e, e.name) && r.DeleteEntry? && r.cascade && r.nameOrId == e.name
    ensures Prepare(d, map[], r).Ok?
    ensures var s := Prepare(d, map[], r).value;
            && s.Edit? && s.action == Delete && s.entryBefore == Some(e) && s.entryAfter == None
            && s.dependentsBefore == [e] && |s.dependentsAfter| == 1
            && s.dependentsAfter[0].id == e.id && s.dependentsAfter[0].name == e.name
  {
    assert d.entries[1..] == [];
    assert GetByName(d.entries, e.name) == Some(e);
    assert GetById(d.entries, e.name) == if e.id == e.name then Some(e) else GetById([], e.name);
    assert DependentsOf(d.entries, e.name) == [e] + DependentsOf([], e.name);
  }

  lemma {:induction false} AddedIsCurrent(entries: seq<Entry>, e: Entry)
    requires GetById(entries, e.id).None?
    ensures GetById(entries + [e], e.id) == Some(e)
  {
    if entries != [] {
      assert (entries + [e])[1..] == entries[1..] + [e];
      AddedIsCurrent(entries[1..], e);
    }
  }

  lemma DeleteRecognizedIff(d: Document, s: State, now: nat)
    requires WellFormed(d) && PreparedFor(s, d) && s.Edit? && s.action == Delete && Apply(d, s, now).Ok?
    ensures MatchesAfter(Apply(d, s, now).value, s) <==> !SelfReferring(s)
  {
    DeleteApplied(d, s, now);
    var gone := s.entryBefore.value;
    if SelfReferring(s) {
      var i :| 0 <= i < |s.dependentsBefore| && s.dependentsBefore[i] == gone;
      assert s.dependentsAfter[i] in s.dependentsAfter;
    } else {
      forall e | e in s.dependentsAfter ensures e.id != gone.id {
        var i :| 0 <= i < |s.dependentsAfter| && s.dependentsAfter[i] == e;
        assert s.dependentsBefore[i] in d.entries;
        LookupUnique(d.entries, s.dependentsBefore[i]);
        LookupUnique(d.entries, gone);
      }
    }
  }

  /** A mutation whose source already looks like its result changes nothing. */
  lemma MatchingApplyIsIdentity(d: Document, s: State, now: nat)
    requires Apply(d, s, now).Ok? && MatchesAfter(d, s)
    ensures Apply(d, s, now).value == d
  {
    if s.Edit? && s.action != Delete {
      var e := s.entryAfter.value;
      if s.action == Update || s.entryBefore.Some? {
        ReplaceSame(d.entries, e);
      }
    }
  }

  /** After a cascading deletion no remaining entry refers to the deleted name. */
  lemma CascadeLeavesNoReference(d: Document, accounts: Accounts, r: Request, now: nat)
    requires WellFormed(d) && r.DeleteEntry? && Prepare(d, accounts, r).Ok?
    requires Apply(d, Prepare(d, accounts, r).value, now).Ok?
    ensures var s := Prepare(d, accounts, r).value;
            !Referenced(Apply(d, s, now).value.entries, s.entryBefore.value.name)
  {
    var s := Prepare(d, accounts, r).value;
    var gone := s.entryBefore.value;
    PrepareIsPrepared(d, accounts, r);
    DeleteApplied(d, s, now);
    ApplyKeepsWellFormed(d, s, now);
    PreparedImages(d, accounts, r);
    var d' := Apply(d, s, now).value;
    hide Prepare, Apply, WellFormed, PreparedFor, RefersTo, GetById, OnlyDetached;
    assert UniqueEntries(d'.entries) by { UniqueOf(d'); }
    forall e | e in d'.entries ensures !RefersTo(e, gone.name) {
      if x :| x in s.dependentsAfter && x.id == e.id {
        DependentIsDetached(d, s, d', e, x);
      } else {
        UntouchedIsClean(d, s, d', e);
      }
    }
  }

  lemma UniqueOf(d: Document)
    requires WellFormed(d)
    ensures UniqueEntries(d.entries)
  {
  }

  lemma DependentIsDetached(d: Document, s: State, d': Document, e: Entry, x: Entry)
    requires DeletionOf(s, d) && UniqueEntries(d'.entries) && e in d'.entries && x in s.dependentsAfter && x.id == e.id
    requires x.id != s.entryBefore.value.id ==> GetById(d'.entries, x.id) == Some(x)
    requires GetById(d'.entries, s.entryBefore.value.id).None?
    requires forall i :: 0 <= i < |s.dependentsBefore| ==>
               OnlyDetached(s.dependentsBefore[i], s.dependentsAfter[i], s.entryBefore.value.name, d.catalog.Some?)
    ensures !RefersTo(e, s.entryBefore.value.name)
  {
    LookupUnique(d'.entries, e);
    var i :| 0 <= i < |s.dependentsAfter| && s.dependentsAfter[i] == x;
    assert OnlyDetached(s.dependentsBefore[i], s.dependentsAfter[i], s.entryBefore.value.name, d.catalog.Some?);
    forall k | 0 <= k < |e.refs| ensures e.refs[k].name != s.entryBefore.value.name {
      assert e.refs[k] in e.refs;
    }
  }

  lemma UntouchedIsClean(d: Document, s: State, d': Document, e: Entry)
    requires DeletionOf(s, d) && UniqueEntries(d'.entries) && e in d'.entries && forall x :: x in s.dependentsAfter ==> x.id != e.id
    requires GetById(d'.entries, s.entryBefore.value.id).None?
    requires e.id != s.entryBefore.value.id ==> GetById(d'.entries, e.id) == GetById(d.entries, e.id)
    ensures !RefersTo(e, s.entryBefore.value.name)
  {
    LookupUnique(d'.entries, e);
    GetByIdFinds(d.entries, e.id);
    NotADependent(d, s, e);
  }

  lemma NotADependent(d: Document, s: State, e: Entry)
    requires DeletionOf(s, d) && e in d.entries && forall x :: x in s.dependentsAfter ==> x.id != e.id
    ensures !RefersTo(e, s.entryBefore.value.name)
  {
    forall i | 0 <= i < |s.dependentsBefore| ensures s.dependentsBefore[i] != e {
      assert s.dependentsAfter[i] in s.dependentsAfter;
    }
  }
}
