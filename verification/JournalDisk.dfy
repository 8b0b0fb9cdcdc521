/** The durable state of one profile's operation journal, as values.

  Three kinds of file make up the journal: a plaintext index of pending markers,
  one encrypted record per operation, and one encrypted ledger of receipts for
  closed operations.  Encryption is authenticated, so a readable file holds what
  was written; identifiers are 128-bit UUIDs read as numbers, whose order is the
  order of their canonical text. */
module JournalDisk {
  import opened Wrappers

  type Id = nat

  const MAX_RECOVERY_RECORDS := 10_000
  const MAX_RECEIPTS := 64
  const MAX_RECEIPTS_BYTES := 1024 * 1024
  /** Salt, nonce, header and tag around an encrypted payload. */
  const SEAL_BYTES := 48

  datatype Status = Pending | Completed | Failed

  datatype Record<S> = Record(
    id: Id, kind: string, stage: string, status: Status, updatedAt: nat,
    state: Option<S>, result: Option<string>, error: Option<string>)
  {
    predicate Finished() {
      status != Pending
    }

    /** A receipt keeps the outcome and drops the before and after images. */
    function Receipt(): Record<S> {
      this.(state := None)
    }

    /** Bytes of the receipt as one JSON object with sorted keys and no spaces. */
    function ReceiptSize(): nat {
      230 + |kind| + |stage|
      + (match status case Pending => 7 case Completed => 9 case Failed => 6)
      + (match result case None => 4 case Some(text) => |text|)
      + (match error case None => 4 case Some(text) => |text| + 2)
    }
  }

  datatype Marker = Marker(id: Id, kind: string)

  datatype Disk<S> = Disk(index: seq<Marker>, records: map<Id, Record<S>>, receipts: seq<Record<S>>)

  /** What the history of the journal remembers beside the files: the terminal status of
    every operation whose terminal record was once durable, the operations whose receipt
    was once durable, and those that a compaction found closed on disk when it wrote a
    ledger without their receipt. */
  datatype History = History(closed: map<Id, Status>, archived: set<Id>, compacted: set<Id>)

  // ---------- pending index ----------

  function Without(index: seq<Marker>, ids: set<Id>): seq<Marker> {
    if index == [] then []
    else
      var rest := Without(index[..|index| - 1], ids);
      var last := index[|index| - 1];
      if last.id in ids then rest else rest + [last]
  }

  predicate HasMarker(index: seq<Marker>, id: Id) {
    exists i :: 0 <= i < |index| && index[i].id == id
  }

  predicate DistinctMarkers(index: seq<Marker>) {
    forall i, j :: 0 <= i < j < |index| ==> index[i].id != index[j].id
  }

  lemma MarkerMembership(index: seq<Marker>, id: Id)
    ensures HasMarker(index, id) <==> exists m :: m in index && m.id == id
  {
    if HasMarker(index, id) {
      var i :| 0 <= i < |index| && index[i].id == id;
      assert index[i] in index;
    }
  }

  /** Removing markers removes exactly the named operations. */
  lemma {:induction false} WithoutMembers(index: seq<Marker>, ids: set<Id>)
    ensures forall m :: m in Without(index, ids) <==> m in index && m.id !in ids
    ensures |Without(index, ids)| <= |index|
    ensures |Without(index, ids)| == |index| ==> Without(index, ids) == index
  {
    if index != [] {
      var front, last := index[..|index| - 1], index[|index| - 1];
      WithoutMembers(front, ids);
      assert index == front + [last];
      assert forall m :: m in index <==> m in front || m == last;
    }
  }

  lemma {:induction false} WithoutDistinct(index: seq<Marker>, ids: set<Id>)
    requires DistinctMarkers(index)
    ensures DistinctMarkers(Without(index, ids))
  {
    if index != [] {
      var front, last := index[..|index| - 1], index[|index| - 1];
      WithoutDistinct(front, ids);
      WithoutMembers(front, ids);
      forall m | m in Without(front, ids) ensures m.id != last.id {
        var i :| 0 <= i < |front| && front[i] == m;
        assert index[i].id != index[|index| - 1].id;
      }
    }
  }

  lemma {:induction false} WithoutAbsent(index: seq<Marker>, ids: set<Id>)
    requires forall m :: m in index ==> m.id !in ids
    ensures Without(index, ids) == index
  {
    if index != [] {
      var front, last := index[..|index| - 1], index[|index| - 1];
      assert index == front + [last];
      WithoutAbsent(front, ids);
    }
  }

  lemma {:induction false} WithoutTwice(index: seq<Marker>, a: set<Id>, b: set<Id>)
    requires a <= b
    ensures Without(Without(index, a), b) == Without(index, b)
  {
    if index != [] {
      var front, last := index[..|index| - 1], index[|index| - 1];
      WithoutTwice(front, a, b);
      if last.id !in a {
        var kept := Without(front, a);
        assert (kept + [last])[..|kept|] == kept;
      }
    }
  }

  /** Appending a marker does not show once that operation is left out. */
  lemma WithoutAppended(index: seq<Marker>, m: Marker)
    ensures Without(index + [m], {m.id}) == Without(index, {m.id})
  {
    assert (index + [m])[..|index|] == index;
  }

  // ---------- receipt ledger ----------

  function FindReceipt<S>(receipts: seq<Record<S>>, id: Id): Option<Record<S>> {
    if receipts == [] then None
    else if receipts[0].id == id then Some(receipts[0])
    else FindReceipt(receipts[1..], id)
  }

  predicate DistinctRecords<S>(records: seq<Record<S>>) {
    forall i, j :: 0 <= i < j < |records| ==> records[i].id != records[j].id
  }

  function SizeSum<S>(records: seq<Record<S>>): nat {
    if records == [] then 0 else records[0].ReceiptSize() + SizeSum(records[1..])
  }

  /** Bytes of the encrypted ledger: wrapper object, records, separating commas and seal. */
  function LedgerBytes<S>(records: seq<Record<S>>): nat {
    52 + SizeSum(records) + (if records == [] then 0 else |records| - 1) + SEAL_BYTES
  }

  predicate Fits<S>(records: seq<Record<S>>) {
    LedgerBytes(records) <= MAX_RECEIPTS_BYTES
  }

  lemma {:induction false} FindReceiptFinds<S(!new)>(receipts: seq<Record<S>>, id: Id)
    ensures FindReceipt(receipts, id).Some? ==>
              FindReceipt(receipts, id).value in receipts && FindReceipt(receipts, id).value.id == id
    ensures FindReceipt(receipts, id).None? ==> forall r :: r in receipts ==> r.id != id
  {
    if receipts != [] && receipts[0].id != id {
      FindReceiptFinds(receipts[1..], id);
      assert receipts == [receipts[0]] + receipts[1..];
    }
  }

  /** In a ledger without repeated identities the lookup returns the receipt that is there. */
  lemma FindReceiptUnique<S(!new)>(receipts: seq<Record<S>>, r: Record<S>)
    requires DistinctRecords(receipts) && r in receipts
    ensures FindReceipt(receipts, r.id) == Some(r)
  {
    FindReceiptFinds(receipts, r.id);
    var found := FindReceipt(receipts, r.id);
    var i :| 0 <= i < |receipts| && receipts[i] == r;
    if found.Some? {
      var j :| 0 <= j < |receipts| && receipts[j] == found.value;
      assert i == j;
    }
  }

  // ---------- reading and the journal invariant ----------

  /** What a read of an operation returns: its record file first, then the ledger. */
  function Read<S>(d: Disk<S>, id: Id): Option<Record<S>> {
    if id in d.records then Some(d.records[id]) else FindReceipt(d.receipts, id)
  }

  ghost predicate LedgerSound<S>(receipts: seq<Record<S>>, h: History) {
    && |receipts| <= MAX_RECEIPTS
    && Fits(receipts)
    && DistinctRecords(receipts)
    && forall r :: r in receipts ==>
         r.Finished() && r.state == None && r.id in h.closed && h.closed[r.id] == r.status && r.id in h.archived
  }

  ghost predicate RecordsSound<S>(d: Disk<S>, h: History) {
    forall id :: id in d.records ==>
      && d.records[id].id == id
      && (d.records[id].Finished() <==> id in h.closed)
      && (d.records[id].Finished() ==> h.closed[id] == d.records[id].status)
      && (!d.records[id].Finished() ==> Marker(id, d.records[id].kind) in d.index)
  }

  ghost predicate ClosedSound<S>(d: Disk<S>, h: History) {
    forall id :: id in h.closed ==>
      && h.closed[id] != Pending
      && (HasMarker(d.index, id) ==> id in d.records)
      && (!HasMarker(d.index, id) ==> id in h.archived || id in h.compacted)
      && (id in d.records ==> Fits([d.records[id].Receipt()]))
  }

  ghost predicate Sound<S>(d: Disk<S>, h: History) {
    && DistinctMarkers(d.index)
    && RecordsSound(d, h)
    && LedgerSound(d.receipts, h)
    && ClosedSound(d, h)
  }

  /** A durably closed operation never reads as pending and never with the opposite status,
    and until its marker is gone it can still be read. */
  lemma ClosedReadsBack<S(!new)>(d: Disk<S>, h: History, id: Id)
    requires Sound(d, h) && id in h.closed
    ensures Read(d, id).Some? ==> Read(d, id).value.id == id && Read(d, id).value.status == h.closed[id] != Pending
    ensures HasMarker(d.index, id) ==> Read(d, id).Some?
  {
    FindReceiptFinds(d.receipts, id);
  }

  /** Every operation that reads as pending is in the index under its kind. */
  lemma PendingIsIndexed<S(!new)>(d: Disk<S>, h: History, id: Id)
    requires Sound(d, h) && Read(d, id).Some? && !Read(d, id).value.Finished()
    ensures id in d.records && Marker(id, Read(d, id).value.kind) in d.index && id !in h.closed
  {
    FindReceiptFinds(d.receipts, id);
  }

  /** A closed operation that lost its marker had a durable receipt first, unless a compaction
    found it closed on disk and had no room for its receipt. */
  lemma MarkerOutlivesReceipt<S(!new)>(d: Disk<S>, h: History, id: Id)
    requires Sound(d, h) && id in h.closed && !HasMarker(d.index, id) && id !in h.compacted
    ensures id in h.archived
  {
  }

  /** Nothing outside one operation changed: other records and other markers are as before. */
  ghost predicate OnlyTouches<S>(d: Disk<S>, d': Disk<S>, id: Id) {
    && d.records - {id} == d'.records - {id}
    && Without(d.index, {id}) == Without(d'.index, {id})
  }

  // ---------- single durable steps ----------

  lemma AddMarkerSound<S(!new)>(d: Disk<S>, h: History, m: Marker)
    requires Sound(d, h) && !HasMarker(d.index, m.id) && m.id !in h.closed
    ensures Sound(d.(index := d.index + [m]), h)
    ensures OnlyTouches(d, d.(index := d.index + [m]), m.id)
  {
    WithoutAppended(d.index, m);
    var d' := d.(index := d.index + [m]);
    forall id | id in h.closed ensures HasMarker(d'.index, id) <==> HasMarker(d.index, id) {
      if HasMarker(d.index, id) {
        var i :| 0 <= i < |d.index| && d.index[i].id == id;
        assert d'.index[i].id == id;
      }
    }
  }

  /** Operations whose marker may go: open ones without a record, and closed ones whose
    receipt was written or left out by a compaction. */
  ghost predicate Droppable<S>(d: Disk<S>, h: History, ids: set<Id>) {
    forall id :: id in ids ==> if id in h.closed then id in h.archived || id in h.compacted else id !in d.records
  }

  /** Dropping markers keeps the journal sound exactly for such operations. */
  lemma DropMarkersSound<S(!new)>(d: Disk<S>, h: History, ids: set<Id>)
    requires Sound(d, h)
    ensures Sound(d.(index := Without(d.index, ids)), h) <==> Droppable(d, h, ids)
    ensures forall id :: HasMarker(Without(d.index, ids), id) <==> HasMarker(d.index, id) && id !in ids
  {
    var index := Without(d.index, ids);
    WithoutMembers(d.index, ids);
    WithoutDistinct(d.index, ids);
    forall id ensures HasMarker(index, id) <==> HasMarker(d.index, id) && id !in ids {
      MarkerMembership(d.index, id);
      MarkerMembership(index, id);
    }
    if id :| id in ids && id !in h.closed && id in d.records {
      assert !HasMarker(index, id);
      assert Marker(id, d.records[id].kind) !in index;
    }
  }

  /** Writing a pending record under its marker. */
  lemma PutPendingSound<S(!new)>(d: Disk<S>, h: History, r: Record<S>)
    requires Sound(d, h) && !r.Finished() && r.id !in h.closed && Marker(r.id, r.kind) in d.index
    ensures Sound(d.(records := d.records[r.id := r]), h)
    ensures OnlyTouches(d, d.(records := d.records[r.id := r]), r.id)
  {
  }

  ghost function Closing(h: History, r: Record): History {
    h.(closed := h.closed[r.id := r.status])
  }

  /** Writing a terminal record over the pending one closes the operation durably. */
  lemma PutTerminalSound<S(!new)>(d: Disk<S>, h: History, r: Record<S>)
    requires Sound(d, h) && r.Finished() && Fits([r.Receipt()])
    requires r.id in d.records && !d.records[r.id].Finished() && d.records[r.id].kind == r.kind
    ensures Sound(d.(records := d.records[r.id := r]), Closing(h, r))
    ensures OnlyTouches(d, d.(records := d.records[r.id := r]), r.id)
  {
    MarkerMembership(d.index, r.id);
    assert Marker(r.id, r.kind) in d.index;
  }

  ghost function IdsOf(records: seq<Record>): set<Id> {
    set r | r in records :: r.id
  }

  /** A ledger becomes durable; `swept` are the operations that a compaction found closed. */
  ghost function Archiving(h: History, receipts: seq<Record>, swept: set<Id>): History {
    h.(archived := h.archived + IdsOf(receipts), compacted := h.compacted + (swept - IdsOf(receipts)))
  }

  /** Replacing the ledger by receipts of closed operations. */
  lemma PutReceiptsSound<S(!new)>(d: Disk<S>, h: History, receipts: seq<Record<S>>, swept: set<Id>)
    requires Sound(d, h)
    requires |receipts| <= MAX_RECEIPTS && Fits(receipts) && DistinctRecords(receipts)
    requires forall r :: r in receipts ==>
               r.Finished() && r.state == None && r.id in h.closed && h.closed[r.id] == r.status
    ensures Sound(d.(receipts := receipts), Archiving(h, receipts, swept))
  {
  }

  /** Removing the file of a closed operation whose marker is gone. */
  lemma UnlinkSound<S(!new)>(d: Disk<S>, h: History, id: Id)
    requires Sound(d, h) && id in h.closed && !HasMarker(d.index, id)
    ensures Sound(d.(records := d.records - {id}), h)
    ensures OnlyTouches(d, d.(records := d.records - {id}), id)
  {
  }
}
