/** Expiring mailboxes for device enrollment: one row per pairing, written in one transaction. */
module Mailbox {
  import opened Wrappers
  import opened RelayUsage

  const SCOPE_ROWS := 8
  const ALL_ROWS := 128
  const SCOPE_PACKETS := 64 * 1024 * 1024
  const ALL_PACKETS := 256 * 1024 * 1024
  const SMALL_PACKET := 1024 * 1024
  const MAX_PACKET := 24 * 1024 * 1024
  const LIFETIME := 900

  datatype Slot = RequestSlot | ResponseSlot

  datatype Pairing = Pairing(
    id: string, scope: string, tokenHash: string, expires: int, invitation: string,
    request: Option<string>, response: Option<string>)
  {
    function Packet(slot: Slot): Option<string> {
      if slot == RequestSlot then request else response
    }

    function With(slot: Slot, packet: string): Pairing {
      if slot == RequestSlot then this.(request := Some(packet)) else this.(response := Some(packet))
    }

    /** A later version of a row that has not expired: nothing that was written has changed. */
    predicate Extends(earlier: Pairing) {
      && id == earlier.id && scope == earlier.scope && tokenHash == earlier.tokenHash && expires == earlier.expires
      && invitation == earlier.invitation
      && (earlier.request.Some? ==> request == earlier.request)
      && (earlier.response.Some? ==> response == earlier.response)
    }
  }

  /** A publishing device, which the relay knows or not, or the bearer of a token. */
  datatype Caller = Device(authorized: bool) | Bearer(tokenHash: string)

  datatype Payload =
    | NewPairing(pairId: string, tokenHash: string, expiresAt: int, invitation: string)
    | PacketOnly(packet: string)
    | OtherPayload

  /** A request to the pairing routes; `pairId` and `slot` are parsed from its path. */
  datatype Call = Call(post: bool, scope: string, pairId: Option<string>, slot: Option<Slot>, caller: Caller, payload: Payload)

  datatype Reply =
    | Refused(status: int)
    | Created(status: int)
    | Contents(pairing: Pairing)

  predicate TokenText(s: string) {
    |s| == 64 && forall i :: 0 <= i < |s| ==> '0' <= s[i] <= '9' || 'a' <= s[i] <= 'f'
  }

  predicate PacketText(s: string, maximum: nat) {
    38 <= |s| <= maximum &&
    forall i :: 0 <= i < |s| ==> 'A' <= s[i] <= 'Z' || 'a' <= s[i] <= 'z' || '0' <= s[i] <= '9' || s[i] == '_' || s[i] == '-'
  }

  // ---------- the table ----------

  function Length(packet: Option<string>): nat {
    if packet.Some? then |packet.value| else 0
  }

  function PacketBytes(p: Pairing): nat {
    |p.invitation| + Length(p.request) + Length(p.response)
  }

  function RowOf(p: Pairing): Row {
    Row(0, p.scope, PacketBytes(p))
  }

  function RowsOf(pairings: seq<Pairing>): (rows: seq<Row>)
    ensures |rows| == |pairings|
  {
    seq(|pairings|, i requires 0 <= i < |pairings| => RowOf(pairings[i]))
  }

  predicate InScope(p: Pairing, scope: Option<string>) {
    scope.None? || p.scope == scope.value
  }

  /** Rows of one scope, or all of them. */
  function Count(pairings: seq<Pairing>, scope: Option<string>): nat {
    if pairings == [] then 0 else (if InScope(pairings[0], scope) then 1 else 0) + Count(pairings[1..], scope)
  }

  function Packets(pairings: seq<Pairing>, scope: Option<string>): nat {
    if pairings == [] then 0
    else (if InScope(pairings[0], scope) then PacketBytes(pairings[0]) else 0) + Packets(pairings[1..], scope)
  }

  function RowLimit(scope: Option<string>): nat {
    if scope.None? then ALL_ROWS else SCOPE_ROWS
  }

  function PacketLimit(scope: Option<string>): nat {
    if scope.None? then ALL_PACKETS else SCOPE_PACKETS
  }

  predicate DistinctIds(pairings: seq<Pairing>) {
    forall i, j :: 0 <= i < j < |pairings| ==> pairings[i].id != pairings[j].id
  }

  predicate WellFormed(p: Pairing) {
    p.scope != TOTAL && (p.response.Some? ==> p.request.Some?)
  }

  /** What holds of the table in every reachable state. */
  ghost predicate Bounded(pairings: seq<Pairing>) {
    && DistinctIds(pairings)
    && (forall i :: 0 <= i < |pairings| ==> WellFormed(pairings[i]))
    && (forall s :: Count(pairings, s) <= RowLimit(s) && Packets(pairings, s) <= PacketLimit(s))
  }

  /** Rows disappear only when they have expired, and change only by filling an empty slot. */
  ghost predicate Preserves(before: seq<Pairing>, after: seq<Pairing>, now: int) {
    forall p :: p in before && p.expires > now ==> exists q :: q in after && q.Extends(p)
  }

  // ---------- the usage rows say what the packets are ----------

  lemma {:induction false} UsageIsPackets(pairings: seq<Pairing>, scope: string)
    ensures ScopeSum(Bytes, RowsOf(pairings), scope) == Packets(pairings, Some(scope)) + ROW_OVERHEAD * Count(pairings, Some(scope))
    ensures ScopeSum(Records, RowsOf(pairings), scope) == Count(pairings, Some(scope))
    ensures FullSum(Bytes, RowsOf(pairings)) == Packets(pairings, None) + ROW_OVERHEAD * Count(pairings, None)
    ensures FullSum(Records, RowsOf(pairings)) == Count(pairings, None)
  {
    if pairings != [] {
      assert RowsOf(pairings)[1..] == RowsOf(pairings[1..]);
      UsageIsPackets(pairings[1..], scope);
    }
  }

  lemma {:induction false} TablesConcat(a: seq<Pairing>, b: seq<Pairing>, scope: Option<string>)
    ensures Count(a + b, scope) == Count(a, scope) + Count(b, scope)
    ensures Packets(a + b, scope) == Packets(a, scope) + Packets(b, scope)
  {
    if a == [] {
      assert a + b == b;
    } else {
      assert (a + b)[1..] == a[1..] + b;
      TablesConcat(a[1..], b, scope);
    }
  }

  function Without(pairings: seq<Pairing>, i: nat): seq<Pairing>
    requires i < |pairings|
  {
    pairings[..i] + pairings[i + 1..]
  }

  lemma TablesSplit(pairings: seq<Pairing>, i: nat, scope: Option<string>)
    requires i < |pairings|
    ensures Count(pairings, scope) == Count(Without(pairings, i), scope) + (if InScope(pairings[i], scope) then 1 else 0)
    ensures Packets(pairings, scope) == Packets(Without(pairings, i), scope) + (if InScope(pairings[i], scope) then PacketBytes(pairings[i]) else 0)
  {
    assert pairings == pairings[..i] + ([pairings[i]] + pairings[i + 1..]);
    TablesConcat(pairings[..i], [pairings[i]] + pairings[i + 1..], scope);
    TablesConcat([pairings[i]], pairings[i + 1..], scope);
    TablesConcat(pairings[..i], pairings[i + 1..], scope);
  }

  lemma WithoutStaysBounded(pairings: seq<Pairing>, i: nat)
    requires Bounded(pairings) && i < |pairings|
    ensures Bounded(Without(pairings, i))
  {
    forall s ensures Count(Without(pairings, i), s) <= RowLimit(s) && Packets(Without(pairings, i), s) <= PacketLimit(s) {
      TablesSplit(pairings, i, s);
    }
  }

  lemma InsertStaysBounded(pairings: seq<Pairing>, p: Pairing)
    requires Bounded(pairings) && WellFormed(p) && p.request.None? && p.response.None?
    requires forall q :: q in pairings ==> q.id != p.id
    requires Count(pairings, None) < ALL_ROWS && Count(pairings, Some(p.scope)) < SCOPE_ROWS
    requires Packets(pairings, None) + |p.invitation| <= ALL_PACKETS && Packets(pairings, Some(p.scope)) + |p.invitation| <= SCOPE_PACKETS
    ensures Bounded(pairings + [p])
  {
    forall s ensures Count(pairings + [p], s) <= RowLimit(s) && Packets(pairings + [p], s) <= PacketLimit(s) {
      TablesConcat(pairings, [p], s);
      assert Count(pairings, s) <= RowLimit(s);
      assert s.Some? && s.value == p.scope ==> s == Some(p.scope);
    }
  }

  /** The bytes of a row are those of its invitation and of the packets put into its slots. */
  lemma FilledBytes(p: Pairing, slot: Slot, packet: string)
    ensures p.request.None? && p.response.None? ==> PacketBytes(p) == |p.invitation|
    ensures p.Packet(slot).None? ==> PacketBytes(p.With(slot, packet)) == PacketBytes(p) + |packet|
    ensures p.With(slot, packet).Packet(slot) == Some(packet)
    ensures forall other :: other != slot ==> p.With(slot, packet).Packet(other) == p.Packet(other)
  {
  }

  lemma FillStaysBounded(pairings: seq<Pairing>, i: nat, slot: Slot, packet: string)
    requires Bounded(pairings) && i < |pairings| && pairings[i].Packet(slot).None?
    requires slot == ResponseSlot ==> pairings[i].request.Some?
    requires Packets(pairings, None) + |packet| <= ALL_PACKETS && Packets(pairings, Some(pairings[i].scope)) + |packet| <= SCOPE_PACKETS
    ensures Bounded(pairings[i := pairings[i].With(slot, packet)])
  {
    var p, q := pairings[i], pairings[i].With(slot, packet);
    var filled := pairings[i := q];
    assert Without(filled, i) == Without(pairings, i);
    forall s ensures Count(filled, s) <= RowLimit(s) && Packets(filled, s) <= PacketLimit(s) {
      TablesSplit(pairings, i, s);
      TablesSplit(filled, i, s);
      assert Count(pairings, s) <= RowLimit(s);
      assert s.Some? && s.value == p.scope ==> s == Some(p.scope);
    }
  }

  function Live(pairings: seq<Pairing>, now: int): (r: seq<Pairing>)
    ensures forall p :: p in r <==> p in pairings && p.expires > now
  {
    if pairings == [] then []
    else if pairings[0].expires > now then [pairings[0]] + Live(pairings[1..], now)
    else Live(pairings[1..], now)
  }

  // ---------- who may do what ----------

  function Find(pairings: seq<Pairing>, id: string, scope: string): (r: Option<nat>)
    ensures r.Some? ==> r.value < |pairings| && pairings[r.value].id == id && pairings[r.value].scope == scope
    ensures r.None? ==> forall i :: 0 <= i < |pairings| ==> !(pairings[i].id == id && pairings[i].scope == scope)
  {
    if pairings == [] then None
    else if pairings[0].id == id && pairings[0].scope == scope then Some(0)
    else
      var rest := Find(pairings[1..], id, scope);
      if rest.None? then None else Some(rest.value + 1)
  }

  /** The row a request is about (none for a new pairing), or the status it is refused with. */
  function Authorize(pairings: seq<Pairing>, call: Call, now: int): (r: Result<Option<nat>, int>)
    ensures r.Ok? && r.value.Some? ==> r.value.value < |pairings| && (call.post <==> call.slot.Some?)
  {
    var denied := call.caller.Bearer? || !call.caller.authorized;
    if call.pairId.None? then
      if !call.post || call.slot.Some? then Err(404)
      else if denied then Err(403)
      else Ok(None)
    else
      var row := Find(pairings, call.pairId.value, call.scope);
      if row.None? then Err(404)
      else if call.caller.Device? && (denied || call.slot == Some(RequestSlot)) then Err(403)
      else if call.caller.Bearer? && (call.caller.tokenHash != pairings[row.value].tokenHash || call.slot == Some(ResponseSlot)) then Err(403)
      else if pairings[row.value].expires <= now then Err(410)
      else if call.post != call.slot.Some? then Err(404)
      else Ok(row)
  }

  /** The row that a request is about. */
  ghost predicate Meant(pairings: seq<Pairing>, call: Call, p: Pairing) {
    p in pairings && call.pairId == Some(p.id) && p.scope == call.scope
  }

  /** The bearer of the pairing's token fills the request, a publishing device the response, and
    both may read. */
  predicate RightParty(call: Call, p: Pairing) {
    match call.slot
    case Some(RequestSlot) => call.caller == Bearer(p.tokenHash)
    case Some(ResponseSlot) => call.caller == Device(true)
    case None => call.caller == Device(true) || call.caller == Bearer(p.tokenHash)
  }

  /** Who must not be turned away: the right party, before the row expires, on an existing
    route. */
  ghost predicate Admitted(pairings: seq<Pairing>, call: Call, now: int, p: Pairing) {
    Meant(pairings, call, p) && RightParty(call, p) && p.expires > now && call.post == call.slot.Some?
  }

  /** A publishing device asks for a new pairing. */
  predicate AsksForNew(call: Call) {
    call.pairId.None? && call.post && call.slot.None? && call.caller == Device(true)
  }

  /** Row and caller alone decide who passes, who is turned away and how. */
  lemma AuthorizeIff(pairings: seq<Pairing>, call: Call, now: int)
    requires DistinctIds(pairings)
    ensures Authorize(pairings, call, now) == Ok(None) <==> AsksForNew(call)
    ensures forall i: nat :: Authorize(pairings, call, now) == Ok(Some(i)) <==> i < |pairings| && Admitted(pairings, call, now, pairings[i])
    ensures Authorize(pairings, call, now) == Err(403) <==>
              || (call.pairId.None? && call.post && call.slot.None? && call.caller != Device(true))
              || exists p :: Meant(pairings, call, p) && !RightParty(call, p)
    ensures Authorize(pairings, call, now) == Err(410) <==> exists p :: Meant(pairings, call, p) && RightParty(call, p) && p.expires <= now
    ensures Authorize(pairings, call, now).Err? ==> Authorize(pairings, call, now).error in {403, 404, 410}
  {
    if call.pairId.Some? {
      var row := Find(pairings, call.pairId.value, call.scope);
      forall p | Meant(pairings, call, p) ensures row.Some? && pairings[row.value] == p {
        var k :| 0 <= k < |pairings| && pairings[k] == p;
        assert k == row.value;
      }
      hide Find;
      if row.Some? {
        assert Meant(pairings, call, pairings[row.value]);
      }
      forall i: nat | i < |pairings| && Meant(pairings, call, pairings[i]) ensures row == Some(i) {
      }
    }
  }

  predicate RoomFor(pairings: seq<Pairing>, scope: string, extra: nat) {
    Packets(pairings, None) + extra <= ALL_PACKETS && Packets(pairings, Some(scope)) + extra <= SCOPE_PACKETS
  }

  function NewRow(call: Call): Pairing
    requires call.payload.NewPairing?
  {
    Pairing(call.payload.pairId, call.scope, call.payload.tokenHash, call.payload.expiresAt, call.payload.invitation, None, None)
  }

  predicate Acceptable(call: Call, now: int) {
    && call.payload.NewPairing? && TokenText(call.payload.tokenHash)
    && now < call.payload.expiresAt <= now + LIFETIME && PacketText(call.payload.invitation, SMALL_PACKET)
  }

  predicate SameOffer(p: Pairing, q: Pairing) {
    p.id == q.id && p.scope == q.scope && p.tokenHash == q.tokenHash && p.expires == q.expires && p.invitation == q.invitation
  }

  /** A packet is base64 of at least 38 characters. */
  ghost predicate Encoded(s: string, maximum: nat) {
    38 <= |s| <= maximum && forall c :: c in s ==> 'A' <= c <= 'Z' || 'a' <= c <= 'z' || '0' <= c <= '9' || c == '_' || c == '-'
  }

  /** The offer of a pairing: a token hash in hexadecimal digits, an expiry within a quarter of an
    hour and an invitation. */
  ghost predicate Offered(call: Call, now: int) {
    match call.payload
    case NewPairing(pairId, tokenHash, expiresAt, invitation) =>
      && |tokenHash| == 64 && (forall c :: c in tokenHash ==> '0' <= c <= '9' || 'a' <= c <= 'f')
      && 0 < expiresAt - now <= 900 && Encoded(invitation, SMALL_PACKET)
    case _ => false
  }

  lemma AcceptableIff(call: Call, now: int)
    ensures Acceptable(call, now) <==> Offered(call, now)
  {
    if call.payload.NewPairing? {
      CharsIff(call.payload.invitation, SMALL_PACKET);
      hide PacketText, Encoded;
      var t := call.payload.tokenHash;
      assert (forall c :: c in t ==> '0' <= c <= '9' || 'a' <= c <= 'f') ==> forall i :: 0 <= i < |t| ==> t[i] in t;
    }
  }

  lemma CharsIff(s: string, maximum: nat)
    ensures PacketText(s, maximum) <==> Encoded(s, maximum)
  {
    assert forall i :: 0 <= i < |s| ==> s[i] in s;
  }

  /** A new pairing: expired rows go, and a row without packets is added for what was offered, or
    the very offer was there already. */
  ghost predicate Opened(before: seq<Pairing>, call: Call, now: int, reply: Reply, after: seq<Pairing>) {
    && call.caller == Device(true) && Offered(call, now)
    && var offer := call.payload;
    && if reply == Created(201) then
         after == Live(before, now) + [Pairing(offer.pairId, call.scope, offer.tokenHash, offer.expiresAt, offer.invitation, None, None)]
       else
         && reply == Created(200) && after == Live(before, now)
         && exists q :: q in after && q.id == offer.pairId && q.scope == call.scope && q.tokenHash == offer.tokenHash
                        && q.expires == offer.expiresAt && q.invitation == offer.invitation
  }

  /** A filled slot: empty before, or filled with the same packet.  Only the bearer of the
    pairing's token fills the request, only a publishing device the response. */
  ghost predicate Filled(before: seq<Pairing>, call: Call, now: int, reply: Reply, after: seq<Pairing>, i: nat) {
    && call.slot.Some? && call.payload.PacketOnly? && i < |before|
    && Encoded(call.payload.packet, if call.slot.value == RequestSlot then SMALL_PACKET else MAX_PACKET)
    && Some(before[i].id) == call.pairId && before[i].scope == call.scope && before[i].expires > now
    && (call.slot.value == RequestSlot ==> call.caller == Bearer(before[i].tokenHash))
    && (call.slot.value == ResponseSlot ==> call.caller == Device(true) && before[i].request.Some?)
    && if reply == Created(201) then
         before[i].Packet(call.slot.value).None? && after == before[i := before[i].With(call.slot.value, call.payload.packet)]
       else reply == Created(200) && after == before && before[i].Packet(call.slot.value) == Some(call.payload.packet)
  }

  /** What one request may do to the table and answer. */
  ghost predicate Handled(before: seq<Pairing>, call: Call, now: int, reply: Reply, after: seq<Pairing>) {
    match reply
    case Refused(_) => after == before
    case Contents(p) =>
      after == before && p in before && Some(p.id) == call.pairId && p.scope == call.scope && p.expires > now
      && (call.caller == Device(true) || call.caller == Bearer(p.tokenHash))
    case Created(_) =>
      if call.pairId.None? then Opened(before, call, now, reply, after)
      else exists i :: Filled(before, call, now, reply, after, i)
  }

  lemma {:induction false} AllLive(pairings: seq<Pairing>, now: int)
    requires forall i :: 0 <= i < |pairings| ==> pairings[i].expires > now
    ensures Live(pairings, now) == pairings
  {
    if pairings != [] {
      AllLive(pairings[1..], now);
    }
  }

  lemma {:induction false} LiveWithout(pairings: seq<Pairing>, i: nat, now: int)
    requires i < |pairings| && pairings[i].expires <= now
    ensures Live(Without(pairings, i), now) == Live(pairings, now)
  {
    if i > 0 {
      LiveWithout(pairings[1..], i - 1, now);
      assert Without(pairings, i)[1..] == Without(pairings[1..], i - 1);
    } else {
      assert Without(pairings, 0) == pairings[1..];
    }
  }

  lemma RowsWithout(pairings: seq<Pairing>, i: nat)
    requires i < |pairings|
    ensures WithoutRow(RowsOf(pairings), i) == RowsOf(Without(pairings, i))
  {
  }

  // ---------- the relay ----------

  class PairingRelay {
    var pairings: seq<Pairing>
    const storage: RelayStorage

    ghost predicate Valid()
      reads this, storage
    {
      storage.Valid() && storage.rows == RowsOf(pairings) && Bounded(pairings)
    }

    constructor ()
      ensures Valid() && fresh(storage) && pairings == []
    {
      var s := new RelayStorage([], 1);
      pairings, storage := [], s;
    }

    /** The packet budget, computed from the accounted bytes less the row overhead. */
    method Budget(scope: string, extra: nat) returns (ok: bool)
      requires Valid() && scope != TOTAL
      ensures ok <==> RoomFor(pairings, scope, extra)
    {
      var total := storage.Read(None);
      var local := storage.Read(Some(scope));
      UsageIsPackets(pairings, scope);
      assert total.Of(Bytes) == FullSum(Bytes, storage.rows) && total.Of(Records) == FullSum(Records, storage.rows);
      assert local.Of(Bytes) == ScopeSum(Bytes, storage.rows, scope) && local.Of(Records) == ScopeSum(Records, storage.rows, scope);
      ok := total.bytes - ROW_OVERHEAD * total.records + extra <= ALL_PACKETS
            && local.bytes - ROW_OVERHEAD * local.records + extra <= SCOPE_PACKETS;
    }

    /** Deletes expired rows, each through the delete trigger. */
    method DeleteExpired(now: int)
      requires Valid()
      modifies this, storage
      ensures Valid() && pairings == Live(old(pairings), now)
    {
      hide Live, Bounded, Agrees;
      var i := 0;
      while i < |pairings|
        invariant 0 <= i <= |pairings| && Valid()
        invariant Live(pairings, now) == Live(old(pairings), now)
        invariant forall k :: 0 <= k < i ==> pairings[k].expires > now
        decreases |pairings| - i
      {
        if pairings[i].expires <= now {
          LiveWithout(pairings, i, now);
          WithoutStaysBounded(pairings, i);
          RowsWithout(pairings, i);
          var violated := storage.Execute(Delete(i));
          pairings := Without(pairings, i);
        } else {
          i := i + 1;
        }
      }
      AllLive(pairings, now);
    }

    /** Opens a pairing.  A refusal undoes the deletion of expired rows as well. */
    method Open(call: Call, now: int) returns (reply: Reply)
      requires Valid() && call.scope != TOTAL && call.caller == Device(true)
      modifies this, storage
      ensures Valid()
      ensures reply.Refused? ==> pairings == old(pairings)
      ensures !reply.Refused? ==> Opened(old(pairings), call, now, reply, pairings)
      ensures reply.Refused? ==> reply.status in {409, 422, 429}
      ensures reply == if !Acceptable(call, now) then Refused(422) else OfferReply(Live(old(pairings), now), NewRow(call))
    {
      AcceptableIff(call, now);
      hide Offered;
      if !Acceptable(call, now) {
        return Refused(422);
      }
      var savedPairings, savedRows, savedUsage := pairings, storage.rows, storage.usage;
      DeleteExpired(now);
      reply := Offer(NewRow(call));
      if reply.Refused? {
        storage.Rollback(savedRows, savedUsage);
        pairings := savedPairings;
      }
    }

    /** Adds a row under the limits on rows and packets, unless it is there already. */
    method Offer(p: Pairing) returns (reply: Reply)
      requires Valid() && WellFormed(p) && p.request.None? && p.response.None?
      modifies this, storage
      ensures Valid()
      ensures reply == Created(201) || reply == Created(200) || (reply.Refused? && reply.status in {409, 422, 429})
      ensures pairings == if reply == Created(201) then old(pairings) + [p] else old(pairings)
      ensures reply == Created(200) ==> exists q :: q in pairings && SameOffer(q, p)
      ensures reply == OfferReply(old(pairings), p)
    {
      var previous := Previous(pairings, p.id);
      if previous.Some? {
        return if SameOffer(pairings[previous.value], p) then Created(200) else Refused(409);
      }
      var room := Budget(p.scope, |p.invitation|);
      if Count(pairings, Some(p.scope)) >= SCOPE_ROWS || Count(pairings, None) >= ALL_ROWS || !room {
        return Refused(429);
      }
      InsertStaysBounded(pairings, p);
      var violated := storage.Execute(Insert(RowOf(p)));
      assert RowsOf(pairings + [p]) == RowsOf(pairings) + [RowOf(p)];
      pairings := pairings + [p];
      reply := Created(201);
    }

    /** Fills a slot that is empty; the same packet again is accepted without effect. */
    method Fill(call: Call, i: nat, now: int) returns (reply: Reply)
      requires Valid() && call.scope != TOTAL && Authorize(pairings, call, now) == Ok(Some(i)) && call.slot.Some?
      modifies this, storage
      ensures Valid()
      ensures reply.Refused? ==> pairings == old(pairings)
      ensures !reply.Refused? ==> Filled(old(pairings), call, now, reply, pairings, i)
      ensures reply.Created? || (reply.Refused? && reply.status in {409, 422, 429})
      ensures reply == FillReply(old(pairings), call, i)
    {
      var slot := call.slot.value;
      if !call.payload.PacketOnly? || !PacketText(call.payload.packet, if slot == RequestSlot then SMALL_PACKET else MAX_PACKET) {
        return Refused(422);
      }
      CharsIff(call.payload.packet, if slot == RequestSlot then SMALL_PACKET else MAX_PACKET);
      hide PacketText, Encoded;
      var p, packet := pairings[i], call.payload.packet;
      if p.Packet(slot).Some? {
        assert WellFormed(p);
        return if p.Packet(slot).value == packet then Created(200) else Refused(409);
      }
      if slot == ResponseSlot && p.request.None? {
        return Refused(409);
      }
      var room := Budget(call.scope, |packet|);
      if !room {
        return Refused(429);
      }
      var filled := p.With(slot, packet);
      FillStaysBounded(pairings, i, slot, packet);
      var violated := storage.Execute(Update(i, RowOf(filled)));
      assert RowsOf(pairings[i := filled]) == RowsOf(pairings)[i := RowOf(filled)];
      pairings := pairings[i := filled];
      reply := Created(201);
    }

    /** One request, in one transaction. */
    method Handle(call: Call, now: int) returns (reply: Reply)
      requires Valid() && call.scope != TOTAL
      modifies this, storage
      ensures Valid() && Handled(old(pairings), call, now, reply, pairings)
      ensures Preserves(old(pairings), pairings, now)
      ensures reply == Owed(old(pairings), call, now)
      ensures forall p :: Admitted(old(pairings), call, now, p) ==> Serves(call, p, reply)
      ensures AsksForNew(call) && reply.Refused? ==> reply.status in {409, 422, 429}
      ensures forall p :: Meant(old(pairings), call, p) && !RightParty(call, p) ==> reply == Refused(403)
      ensures forall p :: Meant(old(pairings), call, p) && RightParty(call, p) && p.expires <= now ==> reply == Refused(410)
    {
      AuthorizeIff(pairings, call, now);
      hide Authorize, Meant, RightParty, AsksForNew;
      IndexOfAdmitted(pairings, call, now);
      var row := Authorize(pairings, call, now);
      if row.Err? {
        reply := Refused(row.error);
      } else if row.value.None? {
        reply := Open(call, now);
      } else if !call.post {
        reply := Contents(pairings[row.value.value]);
      } else {
        reply := Fill(call, row.value.value, now);
      }
      HandledPreserves(old(pairings), call, now, reply, pairings);
    }
  }

  /** Whatever one request does, a row that has not expired is still there, and what was
    written in it has not changed. */
  lemma HandledPreserves(before: seq<Pairing>, call: Call, now: int, reply: Reply, after: seq<Pairing>)
    requires Handled(before, call, now, reply, after)
    ensures Preserves(before, after, now)
  {
    forall p | p in before && p.expires > now ensures exists q :: q in after && q.Extends(p) {
      assert p in Live(before, now) && p.Extends(p);
      if p !in after {
        var i :| Filled(before, call, now, reply, after, i);
        var k :| 0 <= k < |before| && before[k] == p;
        assert after[k] in after && after[k].Extends(p);
      }
    }
  }

  function Previous(pairings: seq<Pairing>, id: string): (r: Option<nat>)
    ensures r.Some? ==> r.value < |pairings| && pairings[r.value].id == id
    ensures r.None? ==> forall i :: 0 <= i < |pairings| ==> pairings[i].id != id
  {
    if pairings == [] then None
    else if pairings[0].id == id then Some(0)
    else
      var rest := Previous(pairings[1..], id);
      if rest.None? then None else Some(rest.value + 1)
  }

  /** Somebody admitted reads the row; a packet from somebody admitted is accepted, or refused
    for its own form, for what is in the slot or for want of room. */
  predicate Serves(call: Call, p: Pairing, reply: Reply) {
    if !call.post then reply == Contents(p) else reply.Created? || (reply.Refused? && reply.status in {409, 422, 429})
  }

  lemma IndexOfAdmitted(pairings: seq<Pairing>, call: Call, now: int)
    ensures forall p :: Admitted(pairings, call, now, p) ==> exists i: nat :: i < |pairings| && pairings[i] == p
  {
    forall p | Admitted(pairings, call, now, p) ensures exists i: nat :: i < |pairings| && pairings[i] == p {
      var i: int :| 0 <= i < |pairings| && pairings[i] == p;
    }
  }

  /** A request together with the time it is served at. */
  datatype Timed = Timed(call: Call, now: int)

  /** The clock does not go back between the requests. */
  predicate Orderly(requests: seq<Timed>) {
    forall i, j :: 0 <= i < j < |requests| ==> requests[i].now <= requests[j].now
  }

  /** After any run of requests the mailboxes are bounded and their usage is exact.  With a
    clock that does not go back, a row found at any time is still there at any later time up
    to its expiry, with all that was written in it. */
  method AnyRun(requests: seq<Timed>) returns (relay: PairingRelay, replies: seq<Reply>, ghost tables: seq<seq<Pairing>>)
    requires forall r :: r in requests ==> r.call.scope != TOTAL
    ensures relay.Valid()
    ensures IsRun(requests, replies, tables) && tables[0] == [] && tables[|requests|] == relay.pairings
    ensures Orderly(requests) ==>
              forall i, j :: 0 <= i < j <= |requests| ==> Preserves(tables[i], tables[j], requests[j - 1].now)
  {
    hide Handled, Owed, Preserves;
    relay := new PairingRelay();
    replies, tables := [], [relay.pairings];
    for i := 0 to |requests|
      invariant relay.Valid() && fresh(relay) && fresh(relay.storage)
      invariant IsRun(requests[..i], replies, tables) && tables[0] == [] && tables[i] == relay.pairings
    {
      assert requests[i] in requests;
      var reply := relay.Handle(requests[i].call, requests[i].now);
      Extended(requests, i, replies, tables, reply, relay.pairings);
      replies, tables := replies + [reply], tables + [relay.pairings];
    }
    assert requests[..|requests|] == requests;
    if Orderly(requests) {
      forall i, j | 0 <= i < j <= |requests| ensures Preserves(tables[i], tables[j], requests[j - 1].now) {
        RunPreserves(requests, replies, tables, i, j);
      }
    }
  }

  /** What each request found, what it left, and that it got the reply it was owed. */
  ghost predicate IsRun(requests: seq<Timed>, replies: seq<Reply>, tables: seq<seq<Pairing>>) {
    && |replies| == |requests| && |tables| == |requests| + 1
    && forall i :: 0 <= i < |requests| ==> Served(tables[i], requests[i], replies[i], tables[i + 1])
  }

  ghost predicate Served(before: seq<Pairing>, request: Timed, reply: Reply, after: seq<Pairing>) {
    && Handled(before, request.call, request.now, reply, after)
    && reply == Owed(before, request.call, request.now)
  }

  lemma Extended(requests: seq<Timed>, i: nat, replies: seq<Reply>, tables: seq<seq<Pairing>>, reply: Reply, table: seq<Pairing>)
    requires i < |requests| && IsRun(requests[..i], replies, tables) && Served(tables[i], requests[i], reply, table)
    ensures IsRun(requests[..i + 1], replies + [reply], tables + [table])
  {
    hide Served;
  }

  /** Until its expiry a row survives any number of requests with all it holds. */
  lemma {:induction false} RunPreserves(requests: seq<Timed>, replies: seq<Reply>, tables: seq<seq<Pairing>>, i: nat, j: nat)
    requires IsRun(requests, replies, tables) && Orderly(requests) && i < j <= |requests|
    ensures Preserves(tables[i], tables[j], requests[j - 1].now)
    decreases j - i
  {
    hide Handled, Owed, Preserves;
    var last := requests[j - 1];
    assert Served(tables[j - 1], last, replies[j - 1], tables[j]);
    HandledPreserves(tables[j - 1], last.call, last.now, replies[j - 1], tables[j]);
    if i < j - 1 {
      RunPreserves(requests, replies, tables, i, j - 1);
      PreservesTransitively(tables[i], tables[j - 1], tables[j], requests[j - 2].now, last.now);
    }
  }

  lemma ExtendsTransitively(a: Pairing, b: Pairing, c: Pairing)
    requires b.Extends(a) && c.Extends(b)
    ensures c.Extends(a)
  {
  }

  lemma PreservesTransitively(a: seq<Pairing>, b: seq<Pairing>, c: seq<Pairing>, earlier: int, later: int)
    requires Preserves(a, b, earlier) && Preserves(b, c, later) && earlier <= later
    ensures Preserves(a, c, later)
  {
    forall p | p in a && p.expires > later ensures exists q :: q in c && q.Extends(p) {
      var q :| q in b && q.Extends(p);
      var r :| r in c && r.Extends(q);
      ExtendsTransitively(p, q, r);
    }
  }

  /** The answer that a request is owed: its refusal and why, the contents it may read, or the
    acceptance that the limits allow. */
  function Owed(before: seq<Pairing>, call: Call, now: int): Reply {
    match Authorize(before, call, now)
    case Err(status) => Refused(status)
    case Ok(None) => if !Acceptable(call, now) then Refused(422) else OfferReply(Live(before, now), NewRow(call))
    case Ok(Some(i)) => if !call.post then Contents(before[i]) else FillReply(before, call, i)
  }

  /** A new pairing: the same one again is accepted without effect, another one under its id is
    a conflict, and a new one needs room. */
  function OfferReply(pairings: seq<Pairing>, p: Pairing): Reply {
    var previous := Previous(pairings, p.id);
    if previous.Some? then if SameOffer(pairings[previous.value], p) then Created(200) else Refused(409)
    else if Count(pairings, Some(p.scope)) < SCOPE_ROWS && Count(pairings, None) < ALL_ROWS && RoomFor(pairings, p.scope, |p.invitation|)
    then Created(201)
    else Refused(429)
  }

  /** A packet: the same one again is accepted without effect, another one in its slot is a
    conflict, a response needs a request before it, and a new packet needs room. */
  function FillReply(before: seq<Pairing>, call: Call, i: nat): Reply
    requires i < |before| && call.slot.Some?
  {
    if !call.payload.PacketOnly? || !PacketText(call.payload.packet, if call.slot.value == RequestSlot then SMALL_PACKET else MAX_PACKET)
    then Refused(422)
    else if before[i].Packet(call.slot.value).Some? then
      if before[i].Packet(call.slot.value).value == call.payload.packet then Created(200) else Refused(409)
    else if call.slot.value == ResponseSlot && before[i].request.None? then Refused(409)
    else if RoomFor(before, call.scope, |call.payload.packet|) then Created(201)
    else Refused(429)
  }
}
