/** What an import decides and what it may change, as values. */
module ImportPlan {
  import opened Wrappers
  import opened ImportTypes
  import opened Metadata
  import opened Mutation
  import opened Names
  import opened RefGraph

  /** Everything an import needs to be completed later, kept encrypted in the journal. */
  datatype Plan = Plan(
    submission: Submission, entry: Entry, targets: seq<string>,
    binding: Binding, record: ImportRecord, intent: Intent)

  /** The identifiers derived from a request: collision-free hashes of fixed length. */
  datatype Identities = Identities(
    entryId: RequestKey -> string, operationId: RequestKey -> nat, contentId: RequestKey -> string)
  {
    ghost predicate Collisionless() {
      && (forall a, b :: entryId(a) == entryId(b) ==> a == b)
      && (forall a, b :: operationId(a) == operationId(b) ==> a == b)
      && (forall a :: |entryId(a)| == 39)
    }
  }

  /** What opening a submission under the current policy gives. */
  datatype Verdict = Authorized | Unauthorized | Malformed

  /** The current policy as this importer sees it: `trusted` says that it descends from the
    submission's policy for the same scope, with the master's own inbox. */
  datatype Policy = Policy(trusted: Submission -> bool, verdict: Submission -> Verdict, revoked: set<string>)

  datatype RefusalKind = Colliding | Unsafe

  // ---------- deduplication ledger ----------

  function FindRecords(imports: seq<ImportRecord>, key: RequestKey): seq<ImportRecord> {
    if imports == [] then []
    else (if imports[0].key == key then [imports[0]] else []) + FindRecords(imports[1..], key)
  }

  ghost predicate UniqueKeys(imports: seq<ImportRecord>) {
    forall i, j :: 0 <= i < j < |imports| ==> imports[i].key != imports[j].key
  }

  predicate HasRecord(imports: seq<ImportRecord>, key: RequestKey) {
    exists r :: r in imports && r.key == key
  }

  lemma {:induction false} FoundExactly(imports: seq<ImportRecord>, key: RequestKey)
    ensures forall r :: r in FindRecords(imports, key) <==> r in imports && r.key == key
    ensures FindRecords(imports, key) == [] <==> !HasRecord(imports, key)
  {
    if imports != [] {
      FoundExactly(imports[1..], key);
      assert imports == [imports[0]] + imports[1..];
    }
  }

  /** A ledger without repeated keys holds at most one record of a request. */
  lemma {:induction false} FoundOnce(imports: seq<ImportRecord>, key: RequestKey)
    requires UniqueKeys(imports)
    ensures |FindRecords(imports, key)| <= 1
  {
    if imports != [] {
      FoundOnce(imports[1..], key);
      FoundExactly(imports[1..], key);
      if imports[0].key == key {
        forall r | r in imports[1..] ensures r.key != key {
          var j :| 0 <= j < |imports[1..]| && imports[1..][j] == r;
          assert imports[0].key != imports[j + 1].key;
        }
      }
    }
  }

  /** Every stored receipt says what its ledger line says. */
  ghost predicate ReceiptsAgree(imports: seq<ImportRecord>) {
    forall r :: r in imports ==>
      && r.receipt.submission == r.submission && r.submission.key == r.key
      && r.receipt.status == r.status && r.receipt.canonicalId == r.canonicalId && r.receipt.revision == r.revision
  }

  function SignedOutcome(submission: Submission, status: ImportStatus): Receipt {
    Receipt(submission, status, None, 0)
  }

  function TerminalRecord(submission: Submission, status: ImportStatus): ImportRecord {
    ImportRecord(submission.key, submission, status, None, 0, SignedOutcome(submission, status))
  }

  /** What a repeated request gets: the stored receipt for the same submission, a fresh
    conflict for a different one. */
  function RetryReceipt(r: ImportRecord, submission: Submission): Receipt {
    if r.submission == submission then r.receipt else SignedOutcome(submission, Conflict)
  }

  // ---------- planning ----------

  function MaxRevision(catalog: Catalog): nat {
    var fromImports := MaxOf(seq(|catalog.imports|, i requires 0 <= i < |catalog.imports| => catalog.imports[i].revision));
    var fromIntents := MaxOf(seq(|catalog.intents|, i requires 0 <= i < |catalog.intents| =>
      if catalog.intents[i].ImportIntent? then catalog.intents[i].desiredRevision else 0));
    if fromImports < fromIntents then fromIntents else fromImports
  }

  function MaxOf(values: seq<nat>): (m: nat)
    ensures forall v :: v in values ==> v <= m
    ensures values == [] ==> m == 0
    ensures values != [] ==> m in values
  {
    if values == [] then 0
    else
      var m := MaxOf(values[1..]);
      assert values == [values[0]] + values[1..];
      if m < values[0] then values[0] else m
  }

  /** The revision lies above every import recorded or announced so far. */
  ghost predicate AboveAll(catalog: Catalog, revision: nat) {
    && (forall r :: r in catalog.imports ==> r.revision < revision)
    && forall i :: i in catalog.intents && i.ImportIntent? ==> i.desiredRevision < revision
  }

  /** The least positive revision above all. */
  ghost predicate NextRevision(catalog: Catalog, revision: nat) {
    revision > 0 && AboveAll(catalog, revision) && forall r: nat :: 0 < r < revision ==> !AboveAll(catalog, r)
  }

  lemma PlannedRevisionIsNext(catalog: Catalog)
    ensures NextRevision(catalog, MaxRevision(catalog) + 1)
  {
    var imports := seq(|catalog.imports|, i requires 0 <= i < |catalog.imports| => catalog.imports[i].revision);
    var intents := seq(|catalog.intents|, i requires 0 <= i < |catalog.intents| =>
      if catalog.intents[i].ImportIntent? then catalog.intents[i].desiredRevision else 0);
    forall r | r in catalog.imports ensures r.revision <= MaxRevision(catalog) {
      var k :| 0 <= k < |catalog.imports| && catalog.imports[k] == r;
      assert imports[k] in imports;
    }
    forall i | i in catalog.intents && i.ImportIntent? ensures i.desiredRevision <= MaxRevision(catalog) {
      var k :| 0 <= k < |catalog.intents| && catalog.intents[k] == i;
      assert intents[k] in intents;
    }
    if MaxRevision(catalog) in imports {
      var k :| 0 <= k < |imports| && imports[k] == MaxRevision(catalog);
      assert catalog.imports[k] in catalog.imports;
    } else if MaxRevision(catalog) > 0 {
      var k :| 0 <= k < |intents| && intents[k] == MaxRevision(catalog);
      assert catalog.intents[k] in catalog.intents;
    }
  }

  function BuildEntry(p: Payload, key: RequestKey, ids: Identities, refs: seq<Ref>, times: string): Entry {
    Entry(ids.entryId(key), p.name, p.kind, p.fields, p.tags, p.note, refs, times,
          CatalogAttributes("", true, Some(key)), ids.contentId(key))
  }

  function BoundAs(bindings: seq<Binding>, scopeId: string, localName: string): seq<Binding> {
    if bindings == [] then []
    else (if bindings[0].scopeId == scopeId && bindings[0].localName == localName then [bindings[0]] else [])
         + BoundAs(bindings[1..], scopeId, localName)
  }

  /** The entry a submitted reference means: by its alias in the scope, or, for the owner's own
    devices, by its canonical name. */
  function ResolveRef(ref: Ref, d: Document, scopeId: string, personal: bool): Result<Entry, RefusalKind>
    requires d.catalog.Some?
  {
    if personal then
      var target := GetByName(d.entries, ref.name);
      if target.None? then Err(Colliding) else Ok(target.value)
    else
      var matches := BoundAs(d.catalog.value.bindings, scopeId, ref.name);
      if |matches| != 1 then Err(Colliding)
      else
        var target := GetById(d.entries, matches[0].entryId);
        if target.None? then Err(Unsafe)
        else if !target.value.catalogAttributes.projectAllowed then Err(Colliding)
        else Ok(target.value)
  }

  /** All targets in order; when targets were recorded before they must still be the same. */
  function ResolveRefs(refs: seq<Ref>, d: Document, scopeId: string, personal: bool, expected: Option<seq<string>>):
      (r: Result<seq<Entry>, RefusalKind>)
    requires d.catalog.Some?
    requires expected.Some? ==> |expected.value| == |refs|
    ensures r.Ok? ==> |r.value| == |refs|
    ensures r.Ok? ==> forall i :: 0 <= i < |refs| ==> ResolveRef(refs[i], d, scopeId, personal) == Ok(r.value[i])
  {
    if refs == [] then Ok([])
    else
      var first :- ResolveRef(refs[0], d, scopeId, personal);
      if expected.Some? && first.id != expected.value[0] then Err(Colliding)
      else
        var rest :- ResolveRefs(refs[1..], d, scopeId, personal, if expected.None? then None else Some(expected.value[1..]));
        Ok([first] + rest)
  }

  function Canonical(refs: seq<Ref>, targets: seq<Entry>): seq<Ref>
    requires |refs| == |targets|
  {
    seq(|refs|, i requires 0 <= i < |refs| => Ref(refs[i].role, targets[i].name))
  }

  function TargetIds(targets: seq<Entry>): seq<string> {
    seq(|targets|, i requires 0 <= i < |targets| => targets[i].id)
  }

  /** Resolving again on the same document against the recorded targets changes nothing. */
  lemma {:induction false} ResolvesAgain(refs: seq<Ref>, d: Document, scopeId: string, personal: bool)
    requires d.catalog.Some? && ResolveRefs(refs, d, scopeId, personal, None).Ok?
    ensures var targets := ResolveRefs(refs, d, scopeId, personal, None).value;
            ResolveRefs(refs, d, scopeId, personal, Some(TargetIds(targets))) == Ok(targets)
  {
    if refs != [] {
      ResolvesAgain(refs[1..], d, scopeId, personal);
      var targets := ResolveRefs(refs, d, scopeId, personal, None).value;
      assert TargetIds(targets)[1..] == TargetIds(targets[1..]);
      assert targets[1..] == ResolveRefs(refs[1..], d, scopeId, personal, None).value;
    }
  }

  predicate ScopeConfigured(catalog: Catalog, key: RequestKey, vaultId: string) {
    Scope(key.scopeId, vaultId) in catalog.scopes
  }

  function SecretWrites(entryId: string, p: Payload): Images {
    (if p.secret.Some? then map[entryId := p.secret] else map[])
    + (if p.passphrase.Some? then map[Passphrase(entryId) := p.passphrase] else map[])
  }

  function MakePlan(s: Submission, d: Document, ids: Identities, targets: seq<Entry>, times: string): Plan
    requires d.catalog.Some? && |targets| == |s.payload.refs|
  {
    var e := BuildEntry(s.payload, s.key, ids, Canonical(s.payload.refs, targets), times);
    var revision := MaxRevision(d.catalog.value) + 1;
    Plan(s, e, TargetIds(targets),
         Binding(s.key.scopeId, e.id, e.name, Export(s.payload.fields.Keys, true, true, true), SubmissionApproval(s)),
         ImportRecord(s.key, s, Accepted, Some(e.id), revision, Receipt(s, Accepted, Some(e.id), revision)),
         ImportIntent(s.key.scopeId, e.id, revision))
  }

  /** The entry is the submitted one under the request's own identity, shared with projects and
    marked with its origin.  What its references lead to is said elsewhere. */
  ghost predicate Carries(e: Entry, s: Submission, ids: Identities) {
    var p := s.payload;
    && e.id == ids.entryId(s.key) && e.name == p.name && e.kind == p.kind && e.fields == p.fields && e.tags == p.tags
    && e.note == p.note && e.catalogAttributes == CatalogAttributes("", true, Some(s.key)) && e.contentRevision == ids.contentId(s.key)
  }

  /** A plan binds one request to one new entry throughout. */
  ghost predicate PlanSound(p: Plan, ids: Identities) {
    var key := p.submission.key;
    && p.submission.authentic && p.submission.payload.valid && Carries(p.entry, p.submission, ids)
    && |p.targets| == |p.entry.refs| == |p.submission.payload.refs|
    && p.binding == Binding(key.scopeId, p.entry.id, p.entry.name, Export(p.submission.payload.fields.Keys, true, true, true),
                            SubmissionApproval(p.submission))
    && p.intent == ImportIntent(key.scopeId, p.entry.id, p.record.revision)
    && p.record == ImportRecord(key, p.submission, Accepted, Some(p.entry.id), p.record.revision,
                                Receipt(p.submission, Accepted, Some(p.entry.id), p.record.revision))
  }

  // ---------- what an import may change ----------

  /** Entry, binding, ledger line and intent are added in one step. */
  function WithImport(d: Document, p: Plan): Document
    requires d.catalog.Some?
  {
    var c := d.catalog.value;
    d.(entries := d.entries + [p.entry],
       catalog := Some(c.(bindings := c.bindings + [p.binding], imports := c.imports + [p.record], intents := c.intents + [p.intent])))
  }

  /** A refused request only gets its ledger line. */
  function WithOutcome(d: Document, s: Submission, status: ImportStatus): Document
    requires d.catalog.Some?
  {
    var c := d.catalog.value;
    d.(catalog := Some(c.(imports := c.imports + [TerminalRecord(s, status)])))
  }

  function AcceptedIds(imports: seq<ImportRecord>): seq<string> {
    if imports == [] then []
    else
      var rest := AcceptedIds(imports[..|imports| - 1]);
      var last := imports[|imports| - 1];
      if last.status == Accepted && last.canonicalId.Some? then rest + [last.canonicalId.value] else rest
  }

  function EntryIds(entries: seq<Entry>): seq<string> {
    seq(|entries|, i requires 0 <= i < |entries| => entries[i].id)
  }

  function BindingIds(bindings: seq<Binding>): seq<string> {
    seq(|bindings|, i requires 0 <= i < |bindings| => bindings[i].entryId)
  }

  function IntentIds(intents: seq<Intent>): seq<string> {
    seq(|intents|, i requires 0 <= i < |intents| => intents[i].entryId)
  }

  /** The document only grew at its ends, and what it grew by belongs together: one new entry,
    one new binding and one new intent for each new accepted ledger line, in the same order. */
  ghost predicate GrownTogether(d: Document, d': Document) {
    && d.catalog.Some? && d'.catalog.Some? && d'.tombstones == d.tombstones
    && var c, c' := d.catalog.value, d'.catalog.value;
    && d.entries <= d'.entries && c.bindings <= c'.bindings && c.imports <= c'.imports && c.intents <= c'.intents
    && c'.scopes == c.scopes && c'.deletions == c.deletions && c'.rest == c.rest
    && var accepted := AcceptedIds(c'.imports[|c.imports|..]);
    && EntryIds(d'.entries[|d.entries|..]) == accepted
    && BindingIds(c'.bindings[|c.bindings|..]) == accepted
    && IntentIds(c'.intents[|c.intents|..]) == accepted
  }

  lemma {:induction false} AcceptedIdsConcat(a: seq<ImportRecord>, b: seq<ImportRecord>)
    ensures AcceptedIds(a + b) == AcceptedIds(a) + AcceptedIds(b)
  {
    if b == [] {
      assert a + b == a;
    } else {
      assert (a + b)[..|a + b| - 1] == a + b[..|b| - 1];
      AcceptedIdsConcat(a, b[..|b| - 1]);
    }
  }

  lemma GrownRefl(d: Document)
    requires d.catalog.Some?
    ensures GrownTogether(d, d)
  {
  }

  lemma GrownByImport(d: Document, p: Plan, ids: Identities)
    requires d.catalog.Some? && PlanSound(p, ids)
    ensures GrownTogether(d, WithImport(d, p))
  {
    var c := d.catalog.value;
    var d' := WithImport(d, p);
    var c' := d'.catalog.value;
    assert c'.imports[|c.imports|..] == [p.record];
    assert AcceptedIds([p.record]) == AcceptedIds([]) + [p.entry.id];
    assert d'.entries[|d.entries|..] == [p.entry];
    assert c'.bindings[|c.bindings|..] == [p.binding];
    assert c'.intents[|c.intents|..] == [p.intent];
  }

  lemma GrownByOutcome(d: Document, s: Submission, status: ImportStatus)
    requires d.catalog.Some? && status != Accepted
    ensures GrownTogether(d, WithOutcome(d, s, status))
  {
    var c := d.catalog.value;
    var d' := WithOutcome(d, s, status);
    assert d'.catalog.value.imports[|c.imports|..] == [TerminalRecord(s, status)];
    assert AcceptedIds([TerminalRecord(s, status)]) == AcceptedIds([]);
  }

  lemma GrownTransitive(a: Document, b: Document, c: Document)
    requires GrownTogether(a, b) && GrownTogether(b, c)
    ensures GrownTogether(a, c)
  {
    hide AcceptedIds, EntryIds, BindingIds, IntentIds;
    var ca, cb, cc := a.catalog.value, b.catalog.value, c.catalog.value;
    Grows(ca.imports, cb.imports, cc.imports);
    Grows(a.entries, b.entries, c.entries);
    Grows(ca.bindings, cb.bindings, cc.bindings);
    Grows(ca.intents, cb.intents, cc.intents);
    AcceptedIdsConcat(cb.imports[|ca.imports|..], cc.imports[|cb.imports|..]);
    IdsConcat(b.entries[|a.entries|..], c.entries[|b.entries|..], cb.bindings[|ca.bindings|..], cc.bindings[|cb.bindings|..],
              cb.intents[|ca.intents|..], cc.intents[|cb.intents|..]);
  }

  lemma Grows<T>(a: seq<T>, b: seq<T>, c: seq<T>)
    requires a <= b <= c
    ensures a <= c && c[|a|..] == b[|a|..] + c[|b|..]
  {
  }

  lemma IdsConcat(entries: seq<Entry>, entries': seq<Entry>, bindings: seq<Binding>, bindings': seq<Binding>,
                  intents: seq<Intent>, intents': seq<Intent>)
    ensures EntryIds(entries + entries') == EntryIds(entries) + EntryIds(entries')
    ensures BindingIds(bindings + bindings') == BindingIds(bindings) + BindingIds(bindings')
    ensures IntentIds(intents + intents') == IntentIds(intents) + IntentIds(intents')
  {
  }

  // ---------- decisions ----------

  /** The new entry cannot join: its name is taken, a reference does not lead to the recorded
    shared entry any more, or it would close a reference cycle. */
  ghost predicate Obstructed(d: Document, p: Plan, personal: bool)
    requires d.catalog.Some? && |p.targets| == |p.submission.payload.refs|
  {
    var refs := p.submission.payload.refs;
    var resolved := ResolveRefs(refs, d, p.submission.key.scopeId, personal, Some(p.targets));
    || GetByName(d.entries, p.entry.name).Some?
    || resolved == Err(Colliding)
    || (resolved.Ok? && Canonical(refs, resolved.value) != p.entry.refs)
    || (!personal && Cyclic(GraphOf(d.entries + [p.entry])))
  }

  /** The status that completing a plan must give on this document under this policy. */
  ghost function Decide(d: Document, p: Plan, policy: Policy, personal: bool): ImportStatus
    requires d.catalog.Some? && |p.targets| == |p.submission.payload.refs|
  {
    if p.submission.key.grantId in policy.revoked then Quarantined
    else match policy.verdict(p.submission)
         case Unauthorized => Quarantined
         case Malformed => Rejected
         case Authorized => if Obstructed(d, p, personal) then Conflict else Accepted
  }

  /** The accounts of one request only go between absent and their planned value. */
  ghost predicate OnlyReserved(before: Accounts, after: Accounts, writes: Images) {
    forall account ::
      || At(after, account) == At(before, account)
      || (account in writes && At(before, account) == None && At(after, account) == writes[account])
      || (account in writes && At(before, account) == writes[account] && At(after, account) == None)
  }

  lemma OnlyReservedComposes(a: Accounts, b: Accounts, c: Accounts, writes: Images)
    requires OnlyReserved(a, b, writes) && OnlyReserved(b, c, writes)
    ensures OnlyReserved(a, c, writes)
  {
  }

  ghost predicate Holds(accounts: Accounts, writes: Images) {
    forall account :: account in writes ==> At(accounts, account) == writes[account]
  }

  /** What one request may do to the document: nothing, its outcome, or its whole import, and
    only if it had no ledger line. */
  ghost predicate Effect(d: Document, d': Document, s: Submission, p: Option<Plan>)
    requires d.catalog.Some?
  {
    || d' == d
    || (!HasRecord(d.catalog.value.imports, s.key)
        && ((p.Some? && p.value.submission == s && d' == WithImport(d, p.value))
            || exists status :: status != Accepted && d' == WithOutcome(d, s, status)))
  }

  ghost predicate DocumentSound(d: Document) {
    && WellFormed(d) && d.catalog.Some?
    && UniqueKeys(d.catalog.value.imports) && ReceiptsAgree(d.catalog.value.imports)
  }

  lemma AppendRecordSound(imports: seq<ImportRecord>, r: ImportRecord)
    requires UniqueKeys(imports) && ReceiptsAgree(imports) && ReceiptsAgree([r]) && !HasRecord(imports, r.key)
    ensures UniqueKeys(imports + [r]) && ReceiptsAgree(imports + [r])
    ensures HasRecord(imports + [r], r.key) && FindRecords(imports + [r], r.key) == [r]
  {
    forall i | 0 <= i < |imports| ensures imports[i].key != r.key {
      assert imports[i] in imports;
    }
    assert r in imports + [r];
    FoundExactly(imports + [r], r.key);
    FoundOnce(imports + [r], r.key);
    var found := FindRecords(imports + [r], r.key);
    assert r in found && |found| == 1;
  }

  lemma WithOutcomeSound(d: Document, s: Submission, status: ImportStatus)
    requires DocumentSound(d) && !HasRecord(d.catalog.value.imports, s.key) && status != Accepted
    ensures DocumentSound(WithOutcome(d, s, status))
    ensures FindRecords(WithOutcome(d, s, status).catalog.value.imports, s.key) == [TerminalRecord(s, status)]
  {
    AppendRecordSound(d.catalog.value.imports, TerminalRecord(s, status));
  }

  lemma WithImportSound(d: Document, p: Plan, ids: Identities)
    requires DocumentSound(d) && PlanSound(p, ids) && !HasRecord(d.catalog.value.imports, p.submission.key)
    requires GetById(d.entries, p.entry.id).None? && GetByName(d.entries, p.entry.name).None?
    ensures DocumentSound(WithImport(d, p))
    ensures FindRecords(WithImport(d, p).catalog.value.imports, p.submission.key) == [p.record]
  {
    AppendRecordSound(d.catalog.value.imports, p.record);
    GetByIdFinds(d.entries, p.entry.id);
    GetByNameFinds(d.entries, p.entry.name);
    forall i | 0 <= i < |d.entries| ensures d.entries[i].id != p.entry.id && d.entries[i].name != p.entry.name {
      assert d.entries[i] in d.entries;
    }
    assert p.entry in WithImport(d, p).entries;
    forall b | b in WithImport(d, p).catalog.value.bindings ensures b.entryId in Ids(WithImport(d, p).entries) {
      if b in d.catalog.value.bindings {
        var e :| e in d.entries && e.id == b.entryId;
        assert e in WithImport(d, p).entries;
      }
    }
  }

  /** A new request cannot be imported: its name is taken, a reference is not shared with the
    scope, or it would close a reference cycle. */
  ghost predicate Unjoinable(d: Document, s: Submission, ids: Identities, personal: bool, times: string)
    requires d.catalog.Some?
  {
    var resolved := ResolveRefs(s.payload.refs, d, s.key.scopeId, personal, None);
    || GetByName(d.entries, s.payload.name).Some?
    || resolved == Err(Colliding)
    || (resolved.Ok? && !personal
        && Cyclic(GraphOf(d.entries + [BuildEntry(s.payload, s.key, ids, Canonical(s.payload.refs, resolved.value), times)])))
  }

  /** The status a request that was never seen before must get. */
  ghost function FreshStatus(d: Document, s: Submission, ids: Identities, policy: Policy, personal: bool, times: string): ImportStatus
    requires d.catalog.Some?
  {
    if s.key.grantId in policy.revoked then Quarantined
    else match policy.verdict(s)
         case Unauthorized => Quarantined
         case Malformed => Rejected
         case Authorized =>
           if !s.payload.valid then Rejected else if Unjoinable(d, s, ids, personal, times) then Conflict else Accepted
  }

  /** A plan made on a document is not obstructed on that document. */
  lemma FreshPlanJoins(d: Document, s: Submission, ids: Identities, personal: bool, times: string)
    requires d.catalog.Some? && s.authentic && s.payload.valid
    requires ResolveRefs(s.payload.refs, d, s.key.scopeId, personal, None).Ok?
    requires !Unjoinable(d, s, ids, personal, times)
    ensures var p := MakePlan(s, d, ids, ResolveRefs(s.payload.refs, d, s.key.scopeId, personal, None).value, times);
            PlanSound(p, ids) && p.submission == s && !Obstructed(d, p, personal)
  {
    ResolvesAgain(s.payload.refs, d, s.key.scopeId, personal);
  }
}
