/** What an import adds to the vault, in terms of the submission, the document and the accounts
  alone. */
module ImportMeaning {
  import opened Wrappers
  import opened ImportTypes
  import opened Metadata
  import opened Mutation
  import opened Names
  import opened RefGraph
  import opened ImportPlan

  // ---------- accounts ----------

  /** What the submission brings for this account. */
  function Brought(s: Submission, ids: Identities, account: string): Option<string> {
    if account == ids.entryId(s.key) then s.payload.secret
    else if account == Passphrase(ids.entryId(s.key)) then s.payload.passphrase
    else None
  }

  /** Secret and passphrase, where there are any, are in the entry's own accounts. */
  ghost predicate Stored(s: Submission, ids: Identities, accounts: Accounts) {
    forall account :: Brought(s, ids, account).Some? ==> At(accounts, account) == Brought(s, ids, account)
  }

  /** Neither secret nor passphrase is left. */
  ghost predicate NothingLeft(s: Submission, ids: Identities, accounts: Accounts) {
    forall account :: Brought(s, ids, account).Some? ==> At(accounts, account) != Brought(s, ids, account)
  }

  /** Accounts only came to hold or ceased to hold what the submission brings for them. */
  ghost predicate OnlyBrought(s: Submission, ids: Identities, accounts: Accounts, accounts': Accounts) {
    forall account :: At(accounts', account) != At(accounts, account) ==>
      && Brought(s, ids, account).Some?
      && At(accounts, account) in {None, Brought(s, ids, account)} && At(accounts', account) in {None, Brought(s, ids, account)}
  }

  lemma WritesAreBrought(p: Plan, ids: Identities)
    requires PlanSound(p, ids)
    ensures forall account :: account in SecretWrites(p.entry.id, p.submission.payload) <==> Brought(p.submission, ids, account).Some?
    ensures forall account :: account in SecretWrites(p.entry.id, p.submission.payload) ==>
              SecretWrites(p.entry.id, p.submission.payload)[account] == Brought(p.submission, ids, account)
  {
    assert |Passphrase(p.entry.id)| != |p.entry.id|;
  }

  // ---------- references ----------

  /** The entry that a name means to the submitter: the one bound under it as the only one of
    the scope and still shared, or, on the owner's own devices, the one so named. */
  ghost predicate Leads(d: Document, scopeId: string, personal: bool, name: string, e: Entry) {
    && e in d.entries && d.catalog.Some?
    && if personal then e.name == name
       else
         && e.catalogAttributes.projectAllowed
         && exists i :: SolelyBound(d.catalog.value.bindings, scopeId, name, i) && d.catalog.value.bindings[i].entryId == e.id
  }

  /** Of all bindings this one alone stands for the name in the scope. */
  ghost predicate SolelyBound(bindings: seq<Binding>, scopeId: string, name: string, i: int) {
    0 <= i < |bindings| && forall j :: 0 <= j < |bindings| ==> (bindings[j].scopeId == scopeId && bindings[j].localName == name <==> j == i)
  }

  /** References are the submitted ones, each with its role, by the names of the entries that
    they mean; `targets` are those entries. */
  ghost predicate Meant(d: Document, scopeId: string, personal: bool, asked: seq<Ref>, refs: seq<Ref>, targets: seq<string>) {
    && |refs| == |targets| == |asked|
    && forall i :: 0 <= i < |refs| ==> MeantAt(d, scopeId, personal, asked[i], refs[i], targets[i])
  }

  ghost predicate MeantAt(d: Document, scopeId: string, personal: bool, asked: Ref, ref: Ref, target: string) {
    exists e :: Leads(d, scopeId, personal, asked.name, e) && ref == Ref(asked.role, e.name) && target == e.id
  }

  lemma {:induction false} BoundAsAppend(bindings: seq<Binding>, b: Binding, scopeId: string, name: string)
    ensures BoundAs([b] + bindings, scopeId, name) ==
            (if b.scopeId == scopeId && b.localName == name then [b] else []) + BoundAs(bindings, scopeId, name)
  {
    assert ([b] + bindings)[1..] == bindings;
  }

  lemma {:induction false} BoundAsNone(bindings: seq<Binding>, scopeId: string, name: string)
    ensures BoundAs(bindings, scopeId, name) == [] <==>
              forall j :: 0 <= j < |bindings| ==> !(bindings[j].scopeId == scopeId && bindings[j].localName == name)
  {
    if bindings != [] {
      BoundAsNone(bindings[1..], scopeId, name);
      assert bindings == [bindings[0]] + bindings[1..];
    }
  }

  lemma {:induction false} BoundAsOne(bindings: seq<Binding>, scopeId: string, name: string)
    ensures |BoundAs(bindings, scopeId, name)| == 1 <==> exists i :: SolelyBound(bindings, scopeId, name, i)
    ensures forall i :: SolelyBound(bindings, scopeId, name, i) ==> BoundAs(bindings, scopeId, name) == [bindings[i]]
  {
    if bindings != [] {
      var rest := bindings[1..];
      BoundAsNone(rest, scopeId, name);
      BoundAsOne(rest, scopeId, name);
      hide BoundAs;
      assert bindings == [bindings[0]] + rest;
      BoundAsAppend(rest, bindings[0], scopeId, name);
      if bindings[0].scopeId == scopeId && bindings[0].localName == name {
        forall i | SolelyBound(bindings, scopeId, name, i) ensures i == 0 {
        }
        if |BoundAs(bindings, scopeId, name)| == 1 {
          assert BoundAs(rest, scopeId, name) == [];
          assert SolelyBound(bindings, scopeId, name, 0);
        }
      } else {
        forall i | SolelyBound(bindings, scopeId, name, i) ensures i > 0 && SolelyBound(rest, scopeId, name, i - 1) {
          assert forall j :: 0 <= j < |rest| ==> rest[j] == bindings[j + 1];
        }
        if i :| SolelyBound(rest, scopeId, name, i) {
          assert SolelyBound(bindings, scopeId, name, i + 1);
        }
      }
    }
  }

  /** Resolving a reference finds the entry that it means, if it means one. */
  lemma ResolvedIsMeant(ref: Ref, d: Document, scopeId: string, personal: bool)
    requires WellFormed(d) && d.catalog.Some?
    ensures forall e :: Leads(d, scopeId, personal, ref.name, e) <==> ResolveRef(ref, d, scopeId, personal) == Ok(e)
  {
    if personal {
      GetByNameFinds(d.entries, ref.name);
      forall e | Leads(d, scopeId, personal, ref.name, e) ensures ResolveRef(ref, d, scopeId, personal) == Ok(e) {
        LookupUnique(d.entries, e);
      }
    } else {
      var bindings := d.catalog.value.bindings;
      BoundAsOne(bindings, scopeId, ref.name);
      hide BoundAs;
      if i :| SolelyBound(bindings, scopeId, ref.name, i) {
        GetByIdFinds(d.entries, bindings[i].entryId);
        forall e | e in d.entries && e.id == bindings[i].entryId ensures GetById(d.entries, bindings[i].entryId) == Some(e) {
          LookupUnique(d.entries, e);
        }
        forall j | SolelyBound(bindings, scopeId, ref.name, j) ensures j == i {
        }
      }
    }
  }

  /** In a sound document every binding leads to an entry, so no reference is unsafe. */
  lemma {:induction false} ReferencesResolve(refs: seq<Ref>, d: Document, scopeId: string, personal: bool, expected: Option<seq<string>>)
    requires DocumentSound(d) && (expected.Some? ==> |expected.value| == |refs|)
    ensures ResolveRefs(refs, d, scopeId, personal, expected).Ok? || ResolveRefs(refs, d, scopeId, personal, expected) == Err(Colliding)
  {
    if refs != [] {
      ReferenceResolves(refs[0], d, scopeId, personal);
      ReferencesResolve(refs[1..], d, scopeId, personal, if expected.None? then None else Some(expected.value[1..]));
    }
  }

  lemma ReferenceResolves(ref: Ref, d: Document, scopeId: string, personal: bool)
    requires DocumentSound(d)
    ensures ResolveRef(ref, d, scopeId, personal).Ok? || ResolveRef(ref, d, scopeId, personal) == Err(Colliding)
  {
    var bindings := d.catalog.value.bindings;
    BoundAsIsBound(bindings, scopeId, ref.name);
    if !personal && |BoundAs(bindings, scopeId, ref.name)| == 1 {
      var b := BoundAs(bindings, scopeId, ref.name)[0];
      assert b in bindings;
      GetByIdFinds(d.entries, b.entryId);
    }
  }

  lemma {:induction false} BoundAsIsBound(bindings: seq<Binding>, scopeId: string, name: string)
    ensures forall b :: b in BoundAs(bindings, scopeId, name) ==> b in bindings
  {
    if bindings != [] {
      BoundAsIsBound(bindings[1..], scopeId, name);
    }
  }

  /** Resolving all references against their recorded targets finds what they mean. */
  lemma {:induction false} ResolvedAreMeant(asked: seq<Ref>, d: Document, scopeId: string, personal: bool, refs: seq<Ref>, targets: seq<string>)
    requires WellFormed(d) && d.catalog.Some? && |refs| == |targets| == |asked|
    ensures Meant(d, scopeId, personal, asked, refs, targets) <==>
              var resolved := ResolveRefs(asked, d, scopeId, personal, Some(targets));
              resolved.Ok? && Canonical(asked, resolved.value) == refs
  {
    if asked != [] {
      ResolvedIsMeant(asked[0], d, scopeId, personal);
      ResolvedAreMeant(asked[1..], d, scopeId, personal, refs[1..], targets[1..]);
      hide Leads, WellFormed, ResolveRef;
      MeantFirst(d, scopeId, personal, asked, refs, targets);
      hide Meant;
      var resolved := ResolveRefs(asked, d, scopeId, personal, Some(targets));
      if resolved.Ok? {
        CanonicalFirst(asked, resolved.value, refs);
      }
    }
  }

  lemma MeantFirst(d: Document, scopeId: string, personal: bool, asked: seq<Ref>, refs: seq<Ref>, targets: seq<string>)
    requires |refs| == |targets| == |asked| > 0
    ensures Meant(d, scopeId, personal, asked, refs, targets) <==>
              MeantAt(d, scopeId, personal, asked[0], refs[0], targets[0]) && Meant(d, scopeId, personal, asked[1..], refs[1..], targets[1..])
  {
    hide MeantAt;
    if Meant(d, scopeId, personal, asked[1..], refs[1..], targets[1..]) {
      forall i | 0 < i < |refs| ensures MeantAt(d, scopeId, personal, asked[i], refs[i], targets[i]) {
        assert MeantAt(d, scopeId, personal, asked[1..][i - 1], refs[1..][i - 1], targets[1..][i - 1]);
      }
    }
  }

  lemma CanonicalFirst(asked: seq<Ref>, found: seq<Entry>, refs: seq<Ref>)
    requires |found| == |asked| == |refs| > 0
    ensures Canonical(asked, found) == refs <==>
              refs[0] == Ref(asked[0].role, found[0].name) && Canonical(asked[1..], found[1..]) == refs[1..]
  {
    assert Canonical(asked, found) == [Ref(asked[0].role, found[0].name)] + Canonical(asked[1..], found[1..]);
    assert refs == [refs[0]] + refs[1..];
  }

  lemma {:induction false} ResolvesWithout(refs: seq<Ref>, d: Document, scopeId: string, personal: bool, targets: seq<string>)
    requires d.catalog.Some? && |targets| == |refs| && ResolveRefs(refs, d, scopeId, personal, Some(targets)).Ok?
    ensures ResolveRefs(refs, d, scopeId, personal, None) == ResolveRefs(refs, d, scopeId, personal, Some(targets))
  {
    if refs != [] {
      ResolvesWithout(refs[1..], d, scopeId, personal, targets[1..]);
    }
  }

  // ---------- which imports join ----------

  /** Completing a plan is obstructed exactly when its name is taken, a reference does not mean
    the recorded entry by the recorded name any more, or, for a project, the entry would close
    a reference cycle. */
  lemma ObstructedIff(d: Document, p: Plan, ids: Identities, personal: bool)
    requires DocumentSound(d) && PlanSound(p, ids)
    ensures Obstructed(d, p, personal) <==>
              || (exists e :: e in d.entries && e.name == p.submission.payload.name)
              || !Meant(d, p.submission.key.scopeId, personal, p.submission.payload.refs, p.entry.refs, p.targets)
              || (!personal && Cyclic(GraphOf(d.entries + [p.entry])))
  {
    var s := p.submission;
    GetByNameFinds(d.entries, p.entry.name);
    ReferencesResolve(s.payload.refs, d, s.key.scopeId, personal, Some(p.targets));
    ResolvedAreMeant(s.payload.refs, d, s.key.scopeId, personal, p.entry.refs, p.targets);
    hide Meant, ResolveRefs, Cyclic, GraphOf, GetByName, DocumentSound, Canonical;
  }

  /** A new request must be refused exactly when its name is taken, a reference means nothing to
    the scope, or, for a project, its entry would close a reference cycle. */
  lemma UnjoinableIff(d: Document, s: Submission, ids: Identities, personal: bool, times: string)
    requires DocumentSound(d)
    ensures Unjoinable(d, s, ids, personal, times) <==>
              || (exists e :: e in d.entries && e.name == s.payload.name)
              || (forall refs, targets :: !Meant(d, s.key.scopeId, personal, s.payload.refs, refs, targets))
              || (!personal && exists e :: Cyclic(GraphOf(d.entries + [e])) && Prospective(e, d, s, ids, personal, times))
  {
    var asked, scopeId := s.payload.refs, s.key.scopeId;
    var resolved := ResolveRefs(asked, d, scopeId, personal, None);
    GetByNameFinds(d.entries, s.payload.name);
    ReferencesResolve(asked, d, scopeId, personal, None);
    forall refs, targets | Meant(d, scopeId, personal, asked, refs, targets)
      ensures resolved.Ok? && Canonical(asked, resolved.value) == refs
    {
      ResolvedAreMeant(asked, d, scopeId, personal, refs, targets);
      ResolvesWithout(asked, d, scopeId, personal, targets);
    }
    if resolved.Ok? {
      var refs, targets := Canonical(asked, resolved.value), TargetIds(resolved.value);
      ResolvesAgain(asked, d, scopeId, personal);
      ResolvedAreMeant(asked, d, scopeId, personal, refs, targets);
      assert Prospective(BuildEntry(s.payload, s.key, ids, refs, times), d, s, ids, personal, times);
    }
    hide Meant, ResolveRefs, Cyclic, GraphOf, GetByName, DocumentSound, Canonical;
  }

  /** The entry that the request would become. */
  ghost predicate Prospective(e: Entry, d: Document, s: Submission, ids: Identities, personal: bool, times: string) {
    && Carries(e, s, ids) && e.times == times
    && exists targets :: Meant(d, s.key.scopeId, personal, s.payload.refs, e.refs, targets)
  }

  // ---------- what an import adds ----------

  /** Exactly one import was added: entry, binding, ledger line and intent of one submission,
    under one identity and one revision. */
  ghost predicate ImportedAs(d: Document, d': Document, s: Submission, ids: Identities, personal: bool, e: Entry, revision: nat) {
    && d.catalog.Some? && Scope(s.key.scopeId, s.vaultId) in d.catalog.value.scopes
    && (forall x :: x in d.entries ==> x.id != e.id && x.name != e.name) && (forall r :: r in d.catalog.value.imports ==> r.key != s.key)
    && Carries(e, s, ids) && (exists targets :: Meant(d, s.key.scopeId, personal, s.payload.refs, e.refs, targets))
    && (!personal ==> !Cyclic(GraphOf(d.entries + [e])))
    && var c, id := d.catalog.value, ids.entryId(s.key);
    && d' == Document(d.entries + [e], d.tombstones, Some(c.(
         bindings := c.bindings + [Binding(s.key.scopeId, id, s.payload.name, Export(s.payload.fields.Keys, true, true, true),
                                           SubmissionApproval(s))],
         imports := c.imports + [ImportRecord(s.key, s, Accepted, Some(id), revision, Receipt(s, Accepted, Some(id), revision))],
         intents := c.intents + [ImportIntent(s.key.scopeId, id, revision)])))
  }

  ghost predicate Imported(d: Document, d': Document, s: Submission, ids: Identities, personal: bool) {
    exists e, revision :: ImportedAs(d, d', s, ids, personal, e, revision)
  }

  /** Exactly one ledger line was added, which says that the request was refused. */
  ghost predicate Refused(d: Document, d': Document, s: Submission) {
    && d.catalog.Some? && Scope(s.key.scopeId, s.vaultId) in d.catalog.value.scopes
    && (forall r :: r in d.catalog.value.imports ==> r.key != s.key)
    && exists status :: status != Accepted && RefusedAs(d, d', s, status)
  }

  ghost predicate RefusedAs(d: Document, d': Document, s: Submission, status: ImportStatus)
    requires d.catalog.Some?
  {
    d' == d.(catalog := Some(d.catalog.value.(
      imports := d.catalog.value.imports + [ImportRecord(s.key, s, status, None, 0, Receipt(s, status, None, 0))])))
  }

  /** All that one submission may do to the vault, at any ending: the import appears whole and
    over its secrets, a refusal is recorded over accounts that were not touched or are cleaned
    up, and no account but its own changes. */
  ghost predicate ImportEffect(d: Document, d': Document, accounts: Accounts, accounts': Accounts, s: Submission, ids: Identities,
                               personal: bool)
  {
    && OnlyBrought(s, ids, accounts, accounts')
    && (|| d' == d
        || (Imported(d, d', s, ids, personal) && Stored(s, ids, accounts'))
        || (Refused(d, d', s) && (accounts' == accounts || NothingLeft(s, ids, accounts'))))
  }

  /** What the document must have been like for a plan to be added to it, or a refusal. */
  ghost predicate Joined(d: Document, d': Document, p: Plan, personal: bool) {
    && d.catalog.Some?
    && (d' != d ==> ScopeConfigured(d.catalog.value, p.submission.key, p.submission.vaultId))
    && (d' == WithImport(d, p) ==>
          && GetById(d.entries, p.entry.id).None? && GetByName(d.entries, p.entry.name).None?
          && Meant(d, p.submission.key.scopeId, personal, p.submission.payload.refs, p.entry.refs, p.targets)
          && (!personal ==> !Cyclic(GraphOf(d.entries + [p.entry]))))
  }

  // ---------- revisions ----------

  /** One more refusal, or one more import that was planned where it was added. */
  ghost predicate Since(d: Document, d': Document, ids: Identities) {
    d.catalog.Some?
    && ((exists s, status :: status != Accepted && d' == WithOutcome(d, s, status))
        || exists q :: PlanSound(q, ids) && NextRevision(d.catalog.value, q.record.revision) && d' == WithImport(d, q))
  }

  ghost predicate Meanwhile(run: seq<Document>, ids: Identities) {
    run != [] && run[0].catalog.Some? && forall i :: 0 < i < |run| ==> Since(run[i - 1], run[i], ids)
  }

  /** A plan that waits keeps a new revision exactly as long as no import is added meanwhile: a
    revision is only taken when its import is recorded, so the next plan gets the same one. */
  lemma RevisionStaysNewIff(run: seq<Document>, p: Plan, ids: Identities)
    requires Meanwhile(run, ids) && NextRevision(run[0].catalog.value, p.record.revision)
    ensures run[|run| - 1].catalog.Some?
    ensures AboveAll(run[|run| - 1].catalog.value, p.record.revision) <==> run[|run| - 1].entries == run[0].entries
  {
    RevisionAfter(run, p.record.revision, ids, |run| - 1);
  }

  lemma {:induction false} RevisionAfter(run: seq<Document>, revision: nat, ids: Identities, i: nat)
    requires Meanwhile(run, ids) && i < |run| && NextRevision(run[0].catalog.value, revision)
    ensures run[i].catalog.Some?
    ensures if |run[i].entries| == |run[0].entries|
            then run[i].entries == run[0].entries && NextRevision(run[i].catalog.value, revision)
            else |run[i].entries| > |run[0].entries| && !AboveAll(run[i].catalog.value, revision)
  {
    if i > 0 {
      RevisionAfter(run, revision, ids, i - 1);
      assert Since(run[i - 1], run[i], ids);
      RevisionStep(run[i - 1], run[i], revision, ids);
    }
  }

  lemma RevisionStep(d: Document, d': Document, revision: nat, ids: Identities)
    requires Since(d, d', ids) && revision > 0
    ensures d'.catalog.Some? && !AboveAll(d.catalog.value, revision) ==> !AboveAll(d'.catalog.value, revision)
    ensures if |d'.entries| == |d.entries|
            then d'.entries == d.entries && (NextRevision(d.catalog.value, revision) ==> NextRevision(d'.catalog.value, revision))
            else |d'.entries| > |d.entries| && (NextRevision(d.catalog.value, revision) ==> !AboveAll(d'.catalog.value, revision))
  {
    var c, c' := d.catalog.value, d'.catalog.value;
    if s, status :| status != Accepted && d' == WithOutcome(d, s, status) {
      forall r: nat | r > 0 ensures AboveAll(c', r) <==> AboveAll(c, r) {
        MoreLines(c, c', [TerminalRecord(s, status)], [], r);
      }
    } else {
      var q :| PlanSound(q, ids) && NextRevision(c, q.record.revision) && d' == WithImport(d, q);
      MoreLines(c, c', [q.record], [q.intent], revision);
      hide PlanSound;
      if NextRevision(c, revision) {
        assert q.record.revision == revision;
        assert q.record in [q.record];
      }
    }
  }

  lemma MoreLines(c: Catalog, c': Catalog, imports: seq<ImportRecord>, intents: seq<Intent>, revision: nat)
    requires c'.imports == c.imports + imports && c'.intents == c.intents + intents
    ensures AboveAll(c', revision) <==> AboveAll(c, revision) && AboveAll(c.(imports := imports, intents := intents), revision)
  {
    assert forall r :: r in c'.imports <==> r in c.imports || r in imports;
    assert forall i :: i in c'.intents <==> i in c.intents || i in intents;
  }

  /** A plan for a note without references. */
  lemma PlainPlan(d: Document, key: RequestKey, name: string, ids: Identities) returns (p: Plan)
    requires d.catalog.Some?
    ensures PlanSound(p, ids) && p.submission.key == key && p.entry.name == name && Plain(p) && NextRevision(d.catalog.value, p.record.revision)
  {
    var s := Submission(key, "v", true, Payload(true, name, Note, map[], [], "", [], None, None));
    PlannedRevisionIsNext(d.catalog.value);
    p := MakePlan(s, d, ids, [], "t");
  }

  ghost predicate Plain(p: Plan) {
    p.submission.payload.refs == [] && p.entry.refs == [] && p.targets == []
  }

  lemma PlainJoins(d: Document, p: Plan)
    requires d.catalog.Some? && Plain(p) && forall e :: e in d.entries ==> e.name != p.entry.name
    ensures |p.targets| == |p.submission.payload.refs| && !Obstructed(d, p, true)
  {
    GetByNameFinds(d.entries, p.entry.name);
  }

  /** Two imports under the same revision: both are planned on a vault without imports, the first
    one is interrupted, the second one is added and then the first one is completed. */
  lemma RevisionRepeats(ids: Identities) returns (d: Document, p: Plan, q: Plan)
    requires ids.Collisionless()
    ensures DocumentSound(d) && PlanSound(p, ids) && PlanSound(q, ids) && p.submission.key != q.submission.key
    ensures NextRevision(d.catalog.value, p.record.revision) && NextRevision(d.catalog.value, q.record.revision)
    ensures !Obstructed(d, q, true) && !Obstructed(WithImport(d, q), p, true)
    ensures p.record.revision == q.record.revision && !AboveAll(WithImport(d, q).catalog.value, p.record.revision)
  {
    d := Document([], [], Some(Catalog([Scope("s", "v")], [], [], [], [], "")));
    var key, other := RequestKey("s", "d", "g", "1"), RequestKey("s", "d", "g", "2");
    assert key.requestId != other.requestId;
    p := PlainPlan(d, key, "a", ids);
    q := PlainPlan(d, other, "b", ids);
    hide Obstructed;
    PlainJoins(d, q);
    assert WithImport(d, q).entries == [q.entry];
    PlainJoins(WithImport(d, q), p);
    hide PlanSound, NextRevision;
    RevisionStaysNewIff([d, WithImport(d, q)], p, ids);
  }
}
