/** Signed scope policies, the chain they form, and what they authorize.

  A signature names the key it was made with, and the hash of a record is the record: both
  are taken as unforgeable and collision-free. */
module PolicyChain {
  import opened Wrappers

  const MAX_GRANTS := 512
  const MAX_EPOCH_PUBLICATIONS := 65536
  const LIMIT := 0x8000_0000_0000_0000

  datatype Role = Reader | Contributor

  datatype Grant = Grant(
    grantId: string, generation: int, deviceId: string, role: Role, signingKey: string, agreementKey: string, tokenHash: string)

  datatype Policy = Policy(
    scopeId: string, vaultId: string, version: int, epoch: int, masterKey: string, inboxKey: string,
    masterDevice: string, masterToken: string, grants: seq<Grant>,
    checkpoint: int, checkpointHash: Option<string>, parent: Option<Digest>)

  datatype PolicyRecord = PolicyRecord(payload: Policy, signer: string)

  datatype Digest = OfPolicy(record: PolicyRecord) | OtherDigest(text: string)

  datatype ProtocolError = Validation | Authentication | Authorization | Replay

  predicate Uint(x: int, minimum: int) {
    minimum <= x < LIMIT
  }

  // ---------- the form of a policy ----------

  /** No authority of the master is delegated by the grant. */
  predicate GrantSound(p: Policy, g: Grant) {
    && Uint(g.generation, 1)
    && g.deviceId != p.masterDevice && g.tokenHash != p.masterToken
    && g.signingKey != p.masterKey && g.agreementKey != p.inboxKey
  }

  /** Two grants share no device, identity, key or token. */
  predicate Apart(a: Grant, b: Grant) {
    && a.deviceId != b.deviceId && a.grantId != b.grantId && a.signingKey != b.signingKey
    && a.agreementKey != b.agreementKey && a.tokenHash != b.tokenHash
  }

  /** The fields that no two grants may share. */
  datatype Field = DeviceId | GrantId | SigningKey | AgreementKey | TokenHash

  function FieldOf(f: Field, g: Grant): string {
    match f
    case DeviceId => g.deviceId
    case GrantId => g.grantId
    case SigningKey => g.signingKey
    case AgreementKey => g.agreementKey
    case TokenHash => g.tokenHash
  }

  lemma ApartIff(a: Grant, b: Grant)
    ensures Apart(a, b) <==> forall f :: FieldOf(f, a) != FieldOf(f, b)
  {
    if forall f :: FieldOf(f, a) != FieldOf(f, b) {
      assert FieldOf(DeviceId, a) != FieldOf(DeviceId, b) && FieldOf(GrantId, a) != FieldOf(GrantId, b);
      assert FieldOf(SigningKey, a) != FieldOf(SigningKey, b) && FieldOf(AgreementKey, a) != FieldOf(AgreementKey, b);
      assert FieldOf(TokenHash, a) != FieldOf(TokenHash, b);
    }
  }

  predicate HeaderSound(p: Policy) {
    && Uint(p.version, 1) && Uint(p.epoch, 1) && Uint(p.checkpoint, 0)
    && (p.checkpoint == 0 <==> p.checkpointHash.None?)
    && (p.version == 1 <==> p.parent.None?)
    && |p.grants| <= MAX_GRANTS
  }

  predicate WellFormed(p: Policy) {
    && HeaderSound(p)
    && (forall i :: 0 <= i < |p.grants| ==> GrantSound(p, p.grants[i]))
    && (forall i, j :: 0 <= i < j < |p.grants| ==> Apart(p.grants[i], p.grants[j]))
  }

  /** The values of one field in the first `i` grants. */
  function Collected(f: Field, grants: seq<Grant>, i: nat): set<string>
    requires i <= |grants|
  {
    if i == 0 then {} else Collected(f, grants, i - 1) + {FieldOf(f, grants[i - 1])}
  }

  lemma {:induction false} CollectedIff(f: Field, grants: seq<Grant>, i: nat, x: string)
    requires i <= |grants|
    ensures x in Collected(f, grants, i) <==> exists k :: 0 <= k < i && FieldOf(f, grants[k]) == x
  {
    if i > 0 {
      CollectedIff(f, grants, i - 1, x);
    }
  }

  type Seen = map<Field, set<string>>

  predicate Clashes(seen: Seen, g: Grant) {
    exists f :: f in seen && FieldOf(f, g) in seen[f]
  }

  ghost predicate SeenExactly(seen: Seen, grants: seq<Grant>, i: nat)
    requires i <= |grants|
  {
    forall f :: f in seen && seen[f] == Collected(f, grants, i)
  }

  /** The sets of what was seen stand for the comparison with every grant before. */
  lemma ClashesIff(grants: seq<Grant>, i: nat, seen: Seen)
    requires i < |grants| && SeenExactly(seen, grants, i)
    ensures Clashes(seen, grants[i]) <==> exists k :: 0 <= k < i && !Apart(grants[k], grants[i])
  {
    var g := grants[i];
    if Clashes(seen, g) {
      var f :| f in seen && FieldOf(f, g) in seen[f];
      CollectedIff(f, grants, i, FieldOf(f, g));
      var k :| 0 <= k < i && FieldOf(f, grants[k]) == FieldOf(f, g);
      ApartIff(grants[k], g);
    }
    if k :| 0 <= k < i && !Apart(grants[k], g) {
      ApartIff(grants[k], g);
      var f :| FieldOf(f, grants[k]) == FieldOf(f, g);
      CollectedIff(f, grants, i, FieldOf(f, g));
      assert f in seen;
    }
  }

  method ValidatePolicy(p: Policy) returns (ok: bool)
    ensures ok <==> WellFormed(p)
  {
    hide Apart;
    if p.version < 1 || LIMIT <= p.version || p.epoch < 1 || LIMIT <= p.epoch || p.checkpoint < 0 || LIMIT <= p.checkpoint {
      return false;
    }
    if (p.checkpoint == 0) != p.checkpointHash.None? || (p.version == 1) != p.parent.None? || |p.grants| > MAX_GRANTS {
      return false;
    }
    var seen: Seen := map[DeviceId := {}, GrantId := {}, SigningKey := {}, AgreementKey := {}, TokenHash := {}];
    forall f: Field ensures f in seen && seen[f] == {} {
      match f
      case DeviceId => case GrantId => case SigningKey => case AgreementKey => case TokenHash =>
    }
    for i := 0 to |p.grants|
      invariant forall k :: 0 <= k < i ==> GrantSound(p, p.grants[k])
      invariant forall j, k :: 0 <= j < k < i ==> Apart(p.grants[j], p.grants[k])
      invariant SeenExactly(seen, p.grants, i)
    {
      var g := p.grants[i];
      if !Uint(g.generation, 1) || g.deviceId == p.masterDevice || g.tokenHash == p.masterToken {
        assert !GrantSound(p, p.grants[i]);
        return false;
      }
      ClashesIff(p.grants, i, seen);
      if Clashes(seen, g) {
        return false;
      }
      seen := map f | f in seen :: seen[f] + {FieldOf(f, g)};
      if g.signingKey == p.masterKey || g.agreementKey == p.inboxKey {
        assert !GrantSound(p, p.grants[i]);
        return false;
      }
    }
    ok := true;
  }

  // ---------- one policy, one transition ----------

  function VerifyPolicy(r: PolicyRecord, pinned: string, scope: Option<string>, vault: Option<string>, minVersion: int, minEpoch: int)
    : Result<Policy, ProtocolError>
  {
    var p := r.payload;
    if r.signer != pinned then Err(Authentication)
    else if !WellFormed(p) then Err(Validation)
    else if p.masterKey != pinned then Err(Authorization)
    else if (scope.Some? && p.scopeId != scope.value) || (vault.Some? && p.vaultId != vault.value) then Err(Authorization)
    else if !Uint(minVersion, 0) || !Uint(minEpoch, 0) then Err(Validation)
    else if p.version < minVersion || p.epoch < minEpoch then Err(Replay)
    else Ok(p)
  }

  function Trusted(r: PolicyRecord, pinned: string): Result<Policy, ProtocolError> {
    VerifyPolicy(r, pinned, None, None, 0, 0)
  }

  /** A record is trusted exactly when the pinned key made it and it delegates from that key. */
  lemma TrustedIff(r: PolicyRecord, pinned: string)
    ensures Trusted(r, pinned).Ok? <==> r.signer == pinned && r.payload.masterKey == pinned && WellFormed(r.payload)
    ensures Trusted(r, pinned).Ok? ==> Trusted(r, pinned).value == r.payload
  {
    hide GrantSound, Apart;
  }

  type Grants = map<string, Grant>

  /** The grants by device; a later grant replaces an earlier one of the same device. */
  function GrantsByDevice(grants: seq<Grant>): Grants {
    if grants == [] then map[]
    else GrantsByDevice(grants[..|grants| - 1])[grants[|grants| - 1].deviceId := grants[|grants| - 1]]
  }

  /** The device that an identity was granted to. */
  function Owners(grants: seq<Grant>): map<string, string> {
    if grants == [] then map[]
    else Owners(grants[..|grants| - 1])[grants[|grants| - 1].grantId := grants[|grants| - 1].deviceId]
  }

  predicate IdentityMoved(owners: map<string, string>, g: Grant) {
    g.grantId in owners && owners[g.grantId] != g.deviceId
  }

  predicate StaleChange(prior: Grants, g: Grant) {
    g.deviceId in prior && g != prior[g.deviceId]
    && (g.grantId == prior[g.deviceId].grantId || g.generation <= prior[g.deviceId].generation)
  }

  predicate GrantsFollow(o: Policy, n: Policy) {
    var before, after := GrantsByDevice(o.grants), GrantsByDevice(n.grants);
    forall d :: d in after ==> !IdentityMoved(Owners(o.grants), after[d]) && !StaleChange(before, after[d])
  }

  function ValidateTransition(prior: PolicyRecord, next: PolicyRecord, pinned: string): Result<Policy, ProtocolError> {
    var o :- Trusted(prior, pinned);
    var n :- VerifyPolicy(next, pinned, Some(o.scopeId), Some(o.vaultId), o.version + 1, o.epoch);
    var before, after := GrantsByDevice(o.grants), GrantsByDevice(n.grants);
    if n.version != o.version + 1 || n.parent != Some(OfPolicy(prior)) then Err(Replay)
    else if n.epoch != o.epoch && n.epoch != o.epoch + 1 then Err(Replay)
    else if n.checkpoint < o.checkpoint || (n.checkpoint == o.checkpoint && n.checkpointHash != o.checkpointHash) then Err(Replay)
    else if before != after && n.epoch != o.epoch + 1 then Err(Authorization)
    else if n.epoch == o.epoch && (n.checkpoint != o.checkpoint || n.checkpointHash != o.checkpointHash) then Err(Replay)
    else if !GrantsFollow(o, n) then Err(Authorization)
    else if n.masterDevice != o.masterDevice then Err(Authorization)
    else if n.inboxKey != o.inboxKey then Err(Authorization)
    else Ok(n)
  }

  lemma {:induction false} GrantsByDeviceFinds(grants: seq<Grant>, d: string)
    ensures d in GrantsByDevice(grants) ==> GrantsByDevice(grants)[d] in grants && GrantsByDevice(grants)[d].deviceId == d
    ensures d in GrantsByDevice(grants) <==> exists g :: g in grants && g.deviceId == d
  {
    if grants != [] {
      var front, last := grants[..|grants| - 1], grants[|grants| - 1];
      assert grants == front + [last];
      GrantsByDeviceFinds(front, d);
    }
  }

  /** In a well-formed policy a device has the one grant that names it. */
  lemma GrantIsUnique(p: Policy, g: Grant)
    requires WellFormed(p) && g in p.grants
    ensures g.deviceId in GrantsByDevice(p.grants) && GrantsByDevice(p.grants)[g.deviceId] == g
  {
    GrantsByDeviceFinds(p.grants, g.deviceId);
    var h := GrantsByDevice(p.grants)[g.deviceId];
    var i :| 0 <= i < |p.grants| && p.grants[i] == g;
    var j :| 0 <= j < |p.grants| && p.grants[j] == h;
    assert i == j;
  }

  /** No grant identity moves to another device, and a changed grant has a new identity and a
    higher generation. */
  ghost predicate GrantsEvolve(o: Policy, n: Policy) {
    forall a, b :: a in o.grants && b in n.grants ==>
      && (a.grantId == b.grantId ==> a.deviceId == b.deviceId)
      && (a.deviceId == b.deviceId && a != b ==> a.grantId != b.grantId && a.generation < b.generation)
  }

  lemma GrantsFollowIff(o: Policy, n: Policy)
    requires WellFormed(o) && WellFormed(n)
    ensures GrantsFollow(o, n) <==> GrantsEvolve(o, n)
  {
    var before, after := GrantsByDevice(o.grants), GrantsByDevice(n.grants);
    if GrantsFollow(o, n) {
      forall a, b | a in o.grants && b in n.grants
        ensures a.grantId == b.grantId ==> a.deviceId == b.deviceId
        ensures a.deviceId == b.deviceId && a != b ==> a.grantId != b.grantId && a.generation < b.generation
      {
        GrantIsUnique(o, a);
        GrantIsUnique(n, b);
        OwnerFound(o, a);
        assert !IdentityMoved(Owners(o.grants), after[b.deviceId]) && !StaleChange(before, after[b.deviceId]);
      }
    }
    if GrantsEvolve(o, n) {
      forall d | d in after ensures !IdentityMoved(Owners(o.grants), after[d]) && !StaleChange(before, after[d]) {
        GrantsByDeviceFinds(n.grants, d);
        GrantsByDeviceFinds(o.grants, d);
        OwnerIsGrant(o.grants, after[d].grantId);
      }
    }
  }

  lemma {:induction false} OwnerIsGrant(grants: seq<Grant>, id: string)
    ensures id in Owners(grants) ==> exists g :: g in grants && g.grantId == id && g.deviceId == Owners(grants)[id]
  {
    if grants != [] {
      var front, last := grants[..|grants| - 1], grants[|grants| - 1];
      assert grants == front + [last];
      OwnerIsGrant(front, id);
    }
  }

  // ---------- chains ----------

  /** A trusted first policy and accepted transitions after it. */
  ghost predicate Chain(records: seq<PolicyRecord>, pinned: string) {
    && records != [] && Trusted(records[0], pinned).Ok?
    && forall i :: 0 <= i < |records| - 1 ==> ValidateTransition(records[i], records[i + 1], pinned).Ok?
  }

  lemma ChainFront(records: seq<PolicyRecord>, pinned: string)
    requires Chain(records, pinned) && |records| > 1
    ensures Chain(records[..|records| - 1], pinned)
  {
    var front := records[..|records| - 1];
    forall i | 0 <= i < |front| - 1 ensures ValidateTransition(front[i], front[i + 1], pinned).Ok? {
      assert ValidateTransition(records[i], records[i + 1], pinned).Ok?;
    }
  }

  /** Everything in a chain is well formed and signed by the pinned key. */
  lemma ChainTrusted(records: seq<PolicyRecord>, pinned: string, i: nat)
    requires Chain(records, pinned) && i < |records|
    ensures WellFormed(records[i].payload) && records[i].signer == pinned && Trusted(records[i], pinned) == Ok(records[i].payload)
  {
    if i > 0 {
      assert ValidateTransition(records[i - 1], records[i], pinned).Ok?;
    }
  }

  /** What may be different between an earlier and a later policy of one chain. */
  ghost predicate Follows(o: Policy, n: Policy, steps: nat) {
    && n.scopeId == o.scopeId && n.vaultId == o.vaultId
    && n.masterKey == o.masterKey && n.masterDevice == o.masterDevice && n.inboxKey == o.inboxKey
    && n.version == o.version + steps
    && o.epoch <= n.epoch <= o.epoch + steps
    && o.checkpoint <= n.checkpoint
    && (n.checkpoint == o.checkpoint ==> n.checkpointHash == o.checkpointHash)
    && (n.epoch == o.epoch ==> n.checkpoint == o.checkpoint && GrantsByDevice(n.grants) == GrantsByDevice(o.grants))
  }

  lemma StepFollows(prior: PolicyRecord, next: PolicyRecord, pinned: string)
    requires ValidateTransition(prior, next, pinned).Ok?
    ensures Follows(prior.payload, next.payload, 1)
  {
  }

  /** A transition is accepted exactly when both records are trusted, the new one names the old
    one as its parent, and everything follows. */
  lemma AcceptedIff(prior: PolicyRecord, next: PolicyRecord, pinned: string)
    ensures ValidateTransition(prior, next, pinned).Ok? <==>
            && Trusted(prior, pinned).Ok? && Trusted(next, pinned).Ok?
            && next.payload.parent == Some(OfPolicy(prior))
            && Follows(prior.payload, next.payload, 1) && GrantsEvolve(prior.payload, next.payload)
  {
    if Trusted(prior, pinned).Ok? && Trusted(next, pinned).Ok? {
      GrantsFollowIff(prior.payload, next.payload);
    }
  }

  lemma FollowsTransitively(a: Policy, b: Policy, c: Policy, m: nat, n: nat)
    requires Follows(a, b, m) && Follows(b, c, n)
    ensures Follows(a, c, m + n)
  {
  }

  /** The invariant of chains, between any two of their policies. */
  lemma {:induction false} ChainInvariant(records: seq<PolicyRecord>, pinned: string, i: nat, j: nat)
    requires Chain(records, pinned) && i <= j < |records|
    ensures Follows(records[i].payload, records[j].payload, j - i)
    decreases j
  {
    if i < j {
      ChainInvariant(records, pinned, i, j - 1);
      assert ValidateTransition(records[j - 1], records[j], pinned).Ok?;
      StepFollows(records[j - 1], records[j], pinned);
      FollowsTransitively(records[i].payload, records[j - 1].payload, records[j].payload, j - 1 - i, 1);
    }
  }

  ghost predicate GrantedThroughout(records: seq<PolicyRecord>, d: string, i: nat, j: nat) {
    forall k :: i <= k <= j && k < |records| ==> d in GrantsByDevice(records[k].payload.grants)
  }

  /** While a device stays granted, every change of its grant raises the generation. */
  lemma {:induction false} GenerationsRise(records: seq<PolicyRecord>, pinned: string, d: string, i: nat, j: nat)
    requires Chain(records, pinned) && i <= j < |records| && GrantedThroughout(records, d, i, j)
    ensures var a, b := GrantsByDevice(records[i].payload.grants)[d], GrantsByDevice(records[j].payload.grants)[d];
            a == b || a.generation < b.generation
    decreases j
  {
    if i < j {
      hide WellFormed, GrantsByDevice, Owners;
      GenerationsRise(records, pinned, d, i, j - 1);
      assert ValidateTransition(records[j - 1], records[j], pinned).Ok?;
      GenerationRises(records[j - 1], records[j], pinned, d);
    }
  }

  lemma GenerationRises(prior: PolicyRecord, next: PolicyRecord, pinned: string, d: string)
    requires ValidateTransition(prior, next, pinned).Ok?
    requires d in GrantsByDevice(prior.payload.grants) && d in GrantsByDevice(next.payload.grants)
    ensures var a, b := GrantsByDevice(prior.payload.grants)[d], GrantsByDevice(next.payload.grants)[d];
            a == b || (a.generation < b.generation && a.grantId != b.grantId)
  {
    var before, after := GrantsByDevice(prior.payload.grants), GrantsByDevice(next.payload.grants);
    GrantsByDeviceFinds(next.payload.grants, d);
    assert d in before && d in after && after[d].deviceId == d;
    assert GrantsFollow(prior.payload, next.payload);
    assert d in after && !StaleChange(before, after[d]);
  }

  /** An unchanged grant of a continuously granted device was the same all the time. */
  lemma GrantWasConstant(records: seq<PolicyRecord>, pinned: string, d: string, i: nat, k: nat, j: nat)
    requires Chain(records, pinned) && i <= k <= j < |records| && GrantedThroughout(records, d, i, j)
    requires GrantsByDevice(records[i].payload.grants)[d] == GrantsByDevice(records[j].payload.grants)[d]
    ensures GrantsByDevice(records[k].payload.grants)[d] == GrantsByDevice(records[i].payload.grants)[d]
  {
    GenerationsRise(records, pinned, d, i, k);
    GenerationsRise(records, pinned, d, k, j);
  }

  /** One step hands no grant identity to another device. */
  lemma IdentitiesStay(prior: PolicyRecord, next: PolicyRecord, pinned: string, a: Grant, b: Grant)
    requires ValidateTransition(prior, next, pinned).Ok? && a in prior.payload.grants && b in next.payload.grants
    requires a.grantId == b.grantId
    ensures a.deviceId == b.deviceId
  {
    GrantIsUnique(next.payload, b);
    var after := GrantsByDevice(next.payload.grants);
    assert !IdentityMoved(Owners(prior.payload.grants), after[b.deviceId]);
    OwnerFound(prior.payload, a);
  }

  /** Some grant of the policy has this identity. */
  ghost predicate Carries(p: Policy, id: string) {
    exists g :: g in p.grants && g.grantId == id
  }

  /** While every policy in between carries it, an identity stays on its device. */
  lemma {:induction false} IdentityKeepsDevice(records: seq<PolicyRecord>, pinned: string, i: nat, j: nat, a: Grant, b: Grant)
    requires Chain(records, pinned) && i <= j < |records| && a in records[i].payload.grants && b in records[j].payload.grants
    requires a.grantId == b.grantId && forall k :: i <= k <= j ==> Carries(records[k].payload, a.grantId)
    ensures a.deviceId == b.deviceId
    decreases j
  {
    if i == j {
      ChainTrusted(records, pinned, i);
      var grants := records[i].payload.grants;
      var k :| 0 <= k < |grants| && grants[k] == a;
      var l :| 0 <= l < |grants| && grants[l] == b;
      assert k == l;
    } else {
      hide WellFormed, GrantsByDevice, Owners;
      assert Carries(records[j - 1].payload, a.grantId);
      var c :| c in records[j - 1].payload.grants && c.grantId == a.grantId;
      IdentityKeepsDevice(records, pinned, i, j - 1, a, c);
      assert ValidateTransition(records[j - 1], records[j], pinned).Ok?;
      IdentitiesStay(records[j - 1], records[j], pinned, c, b);
    }
  }

  /** After a policy without it an identity can return on another device: three policies that
    form a chain. */
  lemma IdentityMovesAfterGap() returns (records: seq<PolicyRecord>, pinned: string, a: Grant, b: Grant)
    ensures |records| == 3 && Chain(records, pinned)
    ensures a in records[0].payload.grants && b in records[2].payload.grants && !Carries(records[1].payload, a.grantId)
    ensures a.grantId == b.grantId && a.deviceId != b.deviceId
  {
    pinned := "m";
    a := Grant("g", 1, "d", Reader, "s", "k", "t");
    b := a.(deviceId := "e");
    var p := Policy("p", "v", 1, 1, pinned, "i", "x", "y", [a], 0, None, None);
    var first := PolicyRecord(p, pinned);
    var second := PolicyRecord(p.(version := 2, epoch := 2, grants := [], parent := Some(OfPolicy(first))), pinned);
    var third := PolicyRecord(p.(version := 3, epoch := 3, grants := [b], parent := Some(OfPolicy(second))), pinned);
    AcceptedIff(first, second, pinned);
    AcceptedIff(second, third, pinned);
    records := [first, second, third];
  }

  lemma OwnerFound(p: Policy, g: Grant)
    requires WellFormed(p) && g in p.grants
    ensures g.grantId in Owners(p.grants) && Owners(p.grants)[g.grantId] == g.deviceId
  {
    OwnersOf(p.grants, g);
  }

  lemma {:induction false} OwnersOf(grants: seq<Grant>, g: Grant)
    requires g in grants && forall i, j :: 0 <= i < j < |grants| ==> Apart(grants[i], grants[j])
    ensures g.grantId in Owners(grants) && Owners(grants)[g.grantId] == g.deviceId
  {
    var front, last := grants[..|grants| - 1], grants[|grants| - 1];
    if g != last {
      var k :| 0 <= k < |grants| && grants[k] == g;
      assert front[k] == g && Apart(grants[k], grants[|grants| - 1]);
      OwnersOf(front, g);
    }
  }

  lemma ParentIsHash(prior: PolicyRecord, next: PolicyRecord, pinned: string)
    requires ValidateTransition(prior, next, pinned).Ok?
    ensures next.payload.parent == Some(OfPolicy(prior))
  {
  }

  /** The newest record determines the history before it: chains that end alike agree as far
    as both go back. */
  lemma {:induction false} HistoryIsDetermined(a: seq<PolicyRecord>, b: seq<PolicyRecord>, pinned: string)
    requires Chain(a, pinned) && Chain(b, pinned) && |a| <= |b| && a[|a| - 1] == b[|b| - 1]
    ensures a == b[|b| - |a|..]
    decreases |a|
  {
    if |a| > 1 {
      hide ValidateTransition, Trusted;
      var front, back := a[..|a| - 1], b[..|b| - 1];
      ParentIsHash(a[|a| - 2], a[|a| - 1], pinned);
      ParentIsHash(b[|b| - 2], b[|b| - 1], pinned);
      ChainFront(a, pinned);
      ChainFront(b, pinned);
      HistoryIsDetermined(front, back, pinned);
      assert a == front + [a[|a| - 1]] && b == back + [b[|b| - 1]];
    }
  }

  // ---------- snapshots ----------

  /** Where a signed record says it belongs. */
  datatype Context = Context(scopeId: string, vaultId: string, epoch: int, version: int, policyHash: Digest)

  function ContextOf(r: PolicyRecord): Context {
    Context(r.payload.scopeId, r.payload.vaultId, r.payload.epoch, r.payload.version, OfPolicy(r))
  }

  datatype SnapshotRecord = SnapshotRecord(context: Context, sequence: int, parentHash: Option<string>, signer: string, wellSealed: bool)

  function Max(a: int, b: int): int {
    if a < b then b else a
  }

  function VerifySnapshot(s: SnapshotRecord, policy: PolicyRecord, pinned: string, minimum: int, expectedParent: Option<string>)
    : Result<SnapshotRecord, ProtocolError>
  {
    var p :- Trusted(policy, pinned);
    if s.signer != pinned then Err(Authentication)
    else if s.context != ContextOf(policy) then Err(Authorization)
    else if !Uint(s.sequence, 1) || !Uint(minimum, 0) then Err(Validation)
    else if (s.sequence == 1) != s.parentHash.None? then Err(Validation)
    else if s.sequence <= Max(minimum, p.checkpoint) then Err(Replay)
    else if s.sequence - p.checkpoint > MAX_EPOCH_PUBLICATIONS then Err(Replay)
    else if expectedParent.Some? && s.parentHash != expectedParent then Err(Replay)
    else if s.sequence == p.checkpoint + 1 && s.parentHash != p.checkpointHash then Err(Replay)
    else if !s.wellSealed then Err(Validation)
    else Ok(s)
  }

  /** The record says of itself what is true of this policy: its scope, vault, epoch and version
    and, by its hash, the record itself. */
  ghost predicate MadeUnder(c: Context, policy: PolicyRecord) {
    var p := policy.payload;
    && c.scopeId == p.scopeId && c.vaultId == p.vaultId && c.epoch == p.epoch && c.version == p.version && c.policyHash == OfPolicy(policy)
  }

  lemma ContextIff(c: Context, policy: PolicyRecord)
    ensures c == ContextOf(policy) <==> MadeUnder(c, policy)
  {
  }

  /** The snapshot continues what the reader trusts and what the policy pins: the first one has
    no parent, the one after the checkpoint has the checkpoint as its parent, and a reader who
    knows the parent finds it there. */
  ghost predicate Continues(s: SnapshotRecord, p: Policy, minimum: int, expectedParent: Option<string>) {
    && s.sequence > minimum && p.checkpoint < s.sequence <= p.checkpoint + MAX_EPOCH_PUBLICATIONS
    && (s.parentHash == None <==> s.sequence == 1)
    && (s.sequence == p.checkpoint + 1 ==> s.parentHash == p.checkpointHash)
    && (expectedParent != None ==> s.parentHash == expectedParent)
  }

  /** A snapshot is accepted exactly when the pinned key signed it and its policy, it was made
    under this very policy and continues from there. */
  lemma SnapshotIff(s: SnapshotRecord, policy: PolicyRecord, pinned: string, minimum: int, expectedParent: Option<string>)
    ensures VerifySnapshot(s, policy, pinned, minimum, expectedParent).Ok? <==>
              && s.signer == pinned && policy.signer == pinned && policy.payload.masterKey == pinned && WellFormed(policy.payload)
              && MadeUnder(s.context, policy) && Continues(s, policy.payload, minimum, expectedParent)
              && s.sequence < LIMIT && 0 <= minimum < LIMIT && s.wellSealed
  {
    TrustedIff(policy, pinned);
    ContextIff(s.context, policy);
    hide WellFormed, Trusted, ContextOf, MadeUnder;
  }

  /** A snapshot is accepted under one policy only, so nobody can bring back one that was made
    before a change of the grants; and who follows it from one snapshot to the next finds the
    numbers rising. */
  lemma SnapshotHasOnePolicy(s: SnapshotRecord, s': SnapshotRecord, a: PolicyRecord, b: PolicyRecord, pinned: string, m: int, m': int,
                             e: Option<string>, e': Option<string>)
    requires VerifySnapshot(s, a, pinned, m, e).Ok? && VerifySnapshot(s', b, pinned, m', e').Ok?
    ensures s == s' ==> a == b
    ensures m' == s.sequence ==> s.sequence < s'.sequence
  {
    SnapshotIff(s, a, pinned, m, e);
    SnapshotIff(s', b, pinned, m', e');
    hide WellFormed, VerifySnapshot;
  }

  /** The sequence number is that of a snapshot that some policy of the epoch accepts. */
  ghost predicate AcceptedIn(records: seq<PolicyRecord>, pinned: string, epoch: int, sequence: int) {
    exists i: int, s: SnapshotRecord, minimum: int, expected: Option<string> ::
      0 <= i < |records| && records[i].payload.epoch == epoch && s.sequence == sequence
      && VerifySnapshot(s, records[i], pinned, minimum, expected).Ok?
  }

  /** All snapshots of one epoch lie in the same window above its checkpoint. */
  lemma EpochWindow(records: seq<PolicyRecord>, pinned: string, k: nat, sequence: int)
    requires Chain(records, pinned) && k < |records| && AcceptedIn(records, pinned, records[k].payload.epoch, sequence)
    ensures records[k].payload.checkpoint < sequence <= records[k].payload.checkpoint + MAX_EPOCH_PUBLICATIONS
  {
    var i: int, s: SnapshotRecord, minimum: int, expected: Option<string> :|
      0 <= i < |records| && records[i].payload.epoch == records[k].payload.epoch && s.sequence == sequence
      && VerifySnapshot(s, records[i], pinned, minimum, expected).Ok?;
    if i <= k {
      ChainInvariant(records, pinned, i, k);
    } else {
      ChainInvariant(records, pinned, k, i);
    }
  }

  /** At most 65536 sequence numbers can be accepted under one epoch of a chain. */
  lemma EpochBudget(records: seq<PolicyRecord>, pinned: string, epoch: int, sequences: set<int>)
    requires Chain(records, pinned) && forall x :: x in sequences ==> AcceptedIn(records, pinned, epoch, x)
    ensures |sequences| <= MAX_EPOCH_PUBLICATIONS
  {
    if exists x :: x in sequences {
      var x :| x in sequences;
      var k: int, s: SnapshotRecord, minimum: int, expected: Option<string> :|
        0 <= k < |records| && records[k].payload.epoch == epoch && s.sequence == x
        && VerifySnapshot(s, records[k], pinned, minimum, expected).Ok?;
      var c := records[k].payload.checkpoint;
      forall y | y in sequences ensures c < y <= c + MAX_EPOCH_PUBLICATIONS {
        EpochWindow(records, pinned, k, y);
      }
      IntervalSize(sequences, c, MAX_EPOCH_PUBLICATIONS);
    } else {
      assert sequences == {};
    }
  }

  /** The bound is met: under every trusted policy each number of the window is accepted for
    some snapshot, as long as it is a valid sequence number. */
  lemma WindowIsFull(policy: PolicyRecord, pinned: string, sequence: int, link: string)
    requires Trusted(policy, pinned).Ok?
    requires policy.payload.checkpoint < sequence <= policy.payload.checkpoint + MAX_EPOCH_PUBLICATIONS && sequence < LIMIT
    ensures exists s: SnapshotRecord :: s.sequence == sequence && VerifySnapshot(s, policy, pinned, 0, None).Ok?
  {
    var p := policy.payload;
    var parent := if sequence == 1 then None else if sequence == p.checkpoint + 1 then p.checkpointHash else Some(link);
    var s := SnapshotRecord(ContextOf(policy), sequence, parent, pinned, true);
    assert VerifySnapshot(s, policy, pinned, 0, None).Ok?;
  }

  lemma {:induction false} IntervalSize(s: set<int>, low: int, n: nat)
    requires forall x :: x in s ==> low < x <= low + n
    ensures |s| <= n
    decreases n
  {
    if n == 0 {
      forall x: int ensures x !in s {
      }
      assert s == {};
    } else {
      var rest := s - {low + n};
      IntervalSize(rest, low, n - 1);
      assert s <= rest + {low + n};
      if low + n in s {
        assert s == rest + {low + n};
      } else {
        assert s == rest;
      }
    }
  }

  // ---------- grants in use ----------

  datatype Operation = Read | Create | OtherOperation

  predicate Suits(g: Grant, operation: Operation, grantId: Option<string>, generation: Option<int>) {
    && (grantId.Some? ==> g.grantId == grantId.value)
    && (generation.Some? ==> g.generation == generation.value)
    && (operation == Create ==> g.role == Contributor)
  }

  /** The first grant that names the device decides. */
  function FirstGrant(grants: seq<Grant>, d: string, operation: Operation, grantId: Option<string>, generation: Option<int>)
    : Result<Grant, ProtocolError>
  {
    if grants == [] then Err(Authorization)
    else if grants[0].deviceId == d then
      if Suits(grants[0], operation, grantId, generation) then Ok(grants[0]) else Err(Authorization)
    else FirstGrant(grants[1..], d, operation, grantId, generation)
  }

  function AuthorizeGrant(p: Policy, d: string, operation: Operation, grantId: Option<string>, generation: Option<int>)
    : Result<Grant, ProtocolError>
  {
    if !WellFormed(p) || (generation.Some? && !Uint(generation.value, 1)) then Err(Validation)
    else if operation == OtherOperation then Err(Authorization)
    else FirstGrant(p.grants, d, operation, grantId, generation)
  }

  lemma {:induction false} FirstGrantFinds(grants: seq<Grant>, d: string, operation: Operation, grantId: Option<string>, generation: Option<int>)
    requires forall i, j :: 0 <= i < j < |grants| ==> Apart(grants[i], grants[j])
    ensures FirstGrant(grants, d, operation, grantId, generation).Ok? <==>
            exists g :: g in grants && g.deviceId == d && Suits(g, operation, grantId, generation)
    ensures FirstGrant(grants, d, operation, grantId, generation).Ok? ==>
              var g := FirstGrant(grants, d, operation, grantId, generation).value;
              g in grants && g.deviceId == d && Suits(g, operation, grantId, generation)
  {
    if grants != [] {
      FirstGrantFinds(grants[1..], d, operation, grantId, generation);
      if grants[0].deviceId == d {
        forall g | g in grants && g.deviceId == d ensures g == grants[0] {
          var k :| 0 <= k < |grants| && grants[k] == g;
          assert k == 0;
        }
      } else {
        forall g | g in grants && g.deviceId == d ensures g in grants[1..] {
          assert grants == [grants[0]] + grants[1..];
        }
      }
    }
  }

  /** A device is authorized exactly by a grant of the policy that suits the operation. */
  lemma AuthorizedIff(p: Policy, d: string, operation: Operation, grantId: Option<string>, generation: Option<int>, g: Grant)
    requires WellFormed(p) && operation != OtherOperation && (generation.Some? ==> Uint(generation.value, 1))
    ensures AuthorizeGrant(p, d, operation, grantId, generation) == Ok(g) <==>
            && g in p.grants && g.deviceId == d && (grantId.Some? ==> g.grantId == grantId.value)
            && (generation.Some? ==> g.generation == generation.value) && (operation == Create ==> g.role == Contributor)
  {
    FirstGrantFinds(p.grants, d, operation, grantId, generation);
    if g in p.grants && g.deviceId == d && Suits(g, operation, grantId, generation) {
      GrantIsUnique(p, g);
      GrantIsUnique(p, FirstGrant(p.grants, d, operation, grantId, generation).value);
    }
  }

  datatype CreateRecord = CreateRecord(
    context: Context, deviceId: string, grantId: string, generation: int, createOperation: bool, inboxKey: string,
    signer: string, wellSealed: bool)

  function VerifyCreate(c: CreateRecord, policy: PolicyRecord, pinned: string, current: Option<PolicyRecord>)
    : Result<CreateRecord, ProtocolError>
  {
    var p :- Trusted(policy, pinned);
    if !Uint(c.generation, 1) then Err(Validation)
    else
      var grant :- AuthorizeGrant(p, c.deviceId, Create, Some(c.grantId), Some(c.generation));
      if c.signer != grant.signingKey then Err(Authentication)
      else if c.context != ContextOf(policy) then Err(Authorization)
      else if !c.createOperation || c.inboxKey != p.inboxKey then Err(Authorization)
      else
        var active :- if current.None? then Ok(grant)
                      else StillActive(c, p, current.value, pinned);
        if active != grant then Err(Authorization)
        else if !c.wellSealed then Err(Validation)
        else Ok(c)
  }

  function StillActive(c: CreateRecord, p: Policy, current: PolicyRecord, pinned: string): Result<Grant, ProtocolError> {
    var now :- VerifyPolicy(current, pinned, Some(p.scopeId), Some(p.vaultId), p.version, p.epoch);
    var active :- AuthorizeGrant(now, c.deviceId, Create, Some(c.grantId), Some(c.generation));
    if now.inboxKey != c.inboxKey then Err(Authorization) else Ok(active)
  }

  /** The grant lets this device submit. */
  ghost predicate Entitles(p: Policy, g: Grant, c: CreateRecord) {
    g in p.grants && g.deviceId == c.deviceId && g.grantId == c.grantId && g.generation == c.generation && g.role == Contributor
  }

  /** A submission is accepted exactly when one grant entitles its device in the policy it was
    made under and in the current one, this grant's key signed it, and it is sealed for the
    inbox of both. */
  lemma CreateIff(c: CreateRecord, policy: PolicyRecord, pinned: string, current: PolicyRecord)
    ensures VerifyCreate(c, policy, pinned, Some(current)).Ok? <==>
              var p, now := policy.payload, current.payload;
              && Trusted(policy, pinned).Ok? && Trusted(current, pinned).Ok?
              && now.scopeId == p.scopeId && now.vaultId == p.vaultId && now.version >= p.version && now.epoch >= p.epoch
              && MadeUnder(c.context, policy) && c.createOperation && c.wellSealed && c.inboxKey == p.inboxKey == now.inboxKey
              && Uint(c.generation, 1) && exists g :: Entitles(p, g, c) && Entitles(now, g, c) && c.signer == g.signingKey
  {
    var p, now := policy.payload, current.payload;
    TrustedIff(policy, pinned);
    TrustedIff(current, pinned);
    ContextIff(c.context, policy);
    if Trusted(policy, pinned).Ok? && Trusted(current, pinned).Ok? && Uint(c.generation, 1) {
      forall g ensures AuthorizeGrant(p, c.deviceId, Create, Some(c.grantId), Some(c.generation)) == Ok(g) <==> Entitles(p, g, c) {
        AuthorizedIff(p, c.deviceId, Create, Some(c.grantId), Some(c.generation), g);
      }
      forall g ensures AuthorizeGrant(now, c.deviceId, Create, Some(c.grantId), Some(c.generation)) == Ok(g) <==> Entitles(now, g, c) {
        AuthorizedIff(now, c.deviceId, Create, Some(c.grantId), Some(c.generation), g);
      }
    }
    hide WellFormed, AuthorizeGrant, ContextOf, MadeUnder, Entitles;
  }

  /** A submission made under one policy and accepted under a later one: its grant is a
    contributor's, it made the signature, it is in force in both, and if the device was never
    dropped in between it was in force all the time. */
  lemma AcceptedCreate(c: CreateRecord, records: seq<PolicyRecord>, pinned: string, i: nat, j: nat)
    requires Chain(records, pinned) && i <= j < |records| && VerifyCreate(c, records[i], pinned, Some(records[j])).Ok?
    ensures c.deviceId in GrantsByDevice(records[i].payload.grants) && c.deviceId in GrantsByDevice(records[j].payload.grants)
    ensures var g := GrantsByDevice(records[i].payload.grants)[c.deviceId];
            && g == GrantsByDevice(records[j].payload.grants)[c.deviceId]
            && g.role == Contributor && g.grantId == c.grantId && g.generation == c.generation && c.signer == g.signingKey
    ensures GrantedThroughout(records, c.deviceId, i, j) ==>
              forall k :: i <= k <= j ==>
                GrantsByDevice(records[k].payload.grants)[c.deviceId] == GrantsByDevice(records[i].payload.grants)[c.deviceId]
  {
    ChainTrusted(records, pinned, i);
    ChainTrusted(records, pinned, j);
    var p, now := records[i].payload, records[j].payload;
    var grant := AuthorizeGrant(p, c.deviceId, Create, Some(c.grantId), Some(c.generation)).value;
    AuthorizedIff(p, c.deviceId, Create, Some(c.grantId), Some(c.generation), grant);
    AuthorizedIff(now, c.deviceId, Create, Some(c.grantId), Some(c.generation), grant);
    GrantIsUnique(p, grant);
    GrantIsUnique(now, grant);
    if GrantedThroughout(records, c.deviceId, i, j) {
      forall k | i <= k <= j
        ensures GrantsByDevice(records[k].payload.grants)[c.deviceId] == GrantsByDevice(records[i].payload.grants)[c.deviceId]
      {
        GrantWasConstant(records, pinned, c.deviceId, i, k, j);
      }
    }
  }
}
