/** The operation journal: ordered durable steps over the files of one profile. */
module Journal {
  import opened Wrappers
  import opened Faults
  import opened JournalDisk
  import opened Ledger

  function Prepared<S>(id: Id, kind: string, state: Option<S>, now: nat): Record<S> {
    Record(id, kind, "prepared", Pending, now, state, None, None)
  }

  function Staged<S>(r: Record<S>, stage: string, state: Option<S>, now: nat): Record<S> {
    r.(stage := stage, updatedAt := now, state := if state.None? then r.state else state)
  }

  function Terminal<S>(r: Record<S>, status: Status, result: Option<string>, error: Option<string>, now: nat): Record<S> {
    r.(stage := if status == Completed then "finished" else "failed",
       status := status, updatedAt := now, result := result, error := error)
  }

  /** A staged record: stage, time and, if one was given, state are new, all else is kept. */
  ghost predicate Advanced<S>(before: Record<S>, after: Record<S>, stage: string, state: Option<S>, now: nat) {
    && after.stage == stage && after.updatedAt == now && after.state == (if state.Some? then state else before.state)
    && after.id == before.id && after.kind == before.kind && after.status == before.status
    && after.result == before.result && after.error == before.error
  }

  /** What a read returns of an operation that was closed like this: its own identity and kind,
    what the caller gave, and none of its images. */
  ghost predicate ClosedAs<S>(before: Record<S>, after: Record<S>, status: Status, result: Option<string>, error: Option<string>, now: nat) {
    && after.id == before.id && after.kind == before.kind && after.state == None
    && after.status == status && after.stage == (match status case Completed => "finished" case _ => "failed")
    && after.updatedAt == now && after.result == result && after.error == error
  }

  predicate Pends<S>(d: Disk<S>, id: Id) {
    id in d.records && !d.records[id].Finished()
  }

  /** A close that meets no failure succeeds: the operation can be read, was not closed the
    other way, and its receipt fits the ledger by itself. */
  predicate Closable<S>(d: Disk<S>, id: Id, status: Status, result: Option<string>, error: Option<string>, now: nat) {
    var current := Read(d, id);
    && current.Some?
    && (current.value.Finished() ==> current.value.status == status)
    && (!current.value.Finished() ==> Fits([Terminal(current.value, status, result, error, now).Receipt()]))
  }

  ghost predicate ExactlyOpen<S(!new)>(records: map<Id, Record<S>>, active: seq<Record<S>>) {
    DistinctRecords(active) && forall r :: r in active <==> r.id in records && !r.Finished() && records[r.id] == r
  }

  ghost predicate ExactlyTerminal<S(!new)>(records: map<Id, Record<S>>, terminal: seq<Record<S>>) {
    && DistinctRecords(terminal)
    && forall r :: r in terminal <==> r.id in records && records[r.id].Finished() && records[r.id].Receipt() == r
  }

  lemma ScanStep<S(!new)>(seen: map<Id, Record<S>>, r: Record<S>, active: seq<Record<S>>, terminal: seq<Record<S>>)
    requires ExactlyOpen(seen, active) && ExactlyTerminal(seen, terminal) && r.id !in seen
    ensures ExactlyOpen(seen[r.id := r], if r.Finished() then active else active + [r])
    ensures ExactlyTerminal(seen[r.id := r], if r.Finished() then terminal + [r.Receipt()] else terminal)
  {
    forall i | 0 <= i < |active| ensures active[i].id != r.id {
      assert active[i] in active;
    }
    forall i | 0 <= i < |terminal| ensures terminal[i].id != r.id {
      assert terminal[i] in terminal;
    }
  }

  /** Reads every record file: pending ones are returned, terminal ones become receipts. */
  method ScanRecords<S(!new)>(records: map<Id, Record<S>>) returns (active: seq<Record<S>>, terminal: seq<Record<S>>)
    requires forall id :: id in records ==> records[id].id == id
    ensures ExactlyOpen(records, active) && ExactlyTerminal(records, terminal)
  {
    active, terminal := [], [];
    var todo := records.Keys;
    ghost var seen: map<Id, Record<S>> := map[];
    while todo != {}
      invariant todo !! seen.Keys && todo + seen.Keys == records.Keys
      invariant forall id :: id in seen ==> seen[id] == records[id]
      invariant ExactlyOpen(seen, active) && ExactlyTerminal(seen, terminal)
    {
      var id :| id in todo;
      var record := records[id];
      ScanStep(seen, record, active, terminal);
      if record.Finished() {
        terminal := terminal + [record.Receipt()];
      } else {
        active := active + [record];
      }
      seen := seen[id := record];
      todo := todo - {id};
    }
    assert seen == records;
  }

  /** Distinct identities from a finite set are no more than the set. */
  lemma {:induction false} DistinctAreFew<S(!new)>(records: seq<Record<S>>, ids: set<Id>)
    requires DistinctRecords(records) && forall r :: r in records ==> r.id in ids
    ensures |records| <= |ids|
  {
    if records != [] {
      var last := records[|records| - 1];
      forall r | r in records[..|records| - 1] ensures r.id in ids - {last.id} {
        var i :| 0 <= i < |records| - 1 && records[i] == r;
        assert records[i].id != records[|records| - 1].id;
      }
      DistinctAreFew(records[..|records| - 1], ids - {last.id});
    }
  }

  /** No operation that is still open lost or changed its record or lost its marker. */
  ghost predicate OpenUntouched<S>(d: Disk<S>, d': Disk<S>, h: History) {
    forall id :: id !in h.closed ==>
      && (id in d'.records <==> id in d.records)
      && (id in d.records ==> d'.records[id] == d.records[id])
      && (HasMarker(d'.index, id) <==> HasMarker(d.index, id))
  }

  /** Markers and records only go, they do not change. */
  ghost predicate OnlyShrinks<S>(d: Disk<S>, d': Disk<S>) {
    && (forall m :: m in d'.index ==> m in d.index)
    && (forall id :: id in d'.records ==> id in d.records && d'.records[id] == d.records[id])
  }

  lemma OpenStaysListed<S(!new)>(d: Disk<S>, d': Disk<S>, h: History, active: seq<Record<S>>)
    requires Sound(d, h) && ExactlyOpen(d.records, active) && OpenUntouched(d, d', h)
    requires forall id :: id in h.closed ==> id !in d'.records
    ensures ExactlyOpen(d'.records, active)
  {
  }

  /** Every marker leads to a record or a receipt of its own kind. */
  predicate IndexReadable<S>(d: Disk<S>) {
    forall m :: m in d.index ==> Read(d, m.id).Some? && Read(d, m.id).value.kind == m.kind
  }

  function OpenIds<S>(records: map<Id, Record<S>>): set<Id> {
    set id | id in records && !records[id].Finished()
  }

  /** Every marker has a record of its kind on file. */
  predicate OnFile<S>(index: seq<Marker>, records: map<Id, Record<S>>) {
    forall m :: m in index ==> m.id in records && records[m.id].kind == m.kind
  }

  /** A listing can authenticate everything: no marker without its record, and within limits. */
  predicate Listable<S>(index: seq<Marker>, records: map<Id, Record<S>>) {
    OnFile(index, records) && |records| <= MAX_RECOVERY_RECORDS + MAX_RECEIPTS && |OpenIds(records)| <= MAX_RECOVERY_RECORDS
  }

  /** A marker never leads to a receipt alone. */
  lemma ReadableIsOnFile<S(!new)>(d: Disk<S>, h: History)
    requires Sound(d, h)
    ensures IndexReadable(d) <==> OnFile(d.index, d.records)
  {
    forall m | m in d.index ensures Read(d, m.id).Some? <==> m.id in d.records {
      FindReceiptFinds(d.receipts, m.id);
      MarkerMembership(d.index, m.id);
    }
  }

  lemma OpenIsCounted<S(!new)>(records: map<Id, Record<S>>, active: seq<Record<S>>)
    requires ExactlyOpen(records, active) && forall id :: id in records ==> records[id].id == id
    ensures |active| == |OpenIds(records)|
  {
    DistinctAreFew(active, OpenIds(records));
    ManyAsSet(active);
    forall id | id in OpenIds(records) ensures id in IdsOf(active) {
      assert records[id] in active;
    }
    assert OpenIds(records) == IdsOf(active);
  }

  lemma {:induction false} ManyAsSet<S(!new)>(records: seq<Record<S>>)
    ensures |IdsOf(records)| <= |records|
  {
    if records != [] {
      var front, last := records[..|records| - 1], records[|records| - 1];
      ManyAsSet(front);
      assert records == front + [last];
      assert IdsOf(records) == IdsOf(front) + {last.id};
    }
  }

  function FinishedMarkers<S>(d: Disk<S>): set<Id>
    requires IndexReadable(d)
  {
    set m | m in d.index && Read(d, m.id).value.Finished() :: m.id
  }

  lemma FinishedMarkersAreClosed<S(!new)>(d: Disk<S>, h: History)
    requires Sound(d, h) && IndexReadable(d)
    ensures forall id :: id in FinishedMarkers(d) <==> HasMarker(d.index, id) && id in h.closed
  {
    forall id ensures id in FinishedMarkers(d) <==> HasMarker(d.index, id) && id in h.closed {
      MarkerMembership(d.index, id);
      FindReceiptFinds(d.receipts, id);
    }
  }

  /** Distinct receipts of closed operations, the newest of which fits the ledger. */
  ghost predicate Receipts<S>(records: seq<Record<S>>, h: History) {
    && records != [] && DistinctRecords(records) && Fits([records[|records| - 1]])
    && forall r :: r in records ==> r.Finished() && r.state == None && r.id in h.closed && h.closed[r.id] == r.status
  }

  lemma KeptReceipts<S(!new)>(records: seq<Record<S>>, h: History)
    requires Receipts(records, h)
    ensures Admissible(Kept(records)) && DistinctRecords(Kept(records)) && records[|records| - 1] in Kept(records)
    ensures forall r :: r in Kept(records) ==> r in records
  {
    hide Fits;
    var dropped := KeptIsLongestSuffix(records);
    assert forall i :: 0 <= i < |Kept(records)| ==> Kept(records)[i] == records[dropped + i];
  }

  /** A new ledger became durable and nothing else changed. */
  ghost predicate Wrote<S>(d: Disk<S>, h: History, records: seq<Record<S>>, swept: set<Id>, d': Disk<S>, h': History) {
    d' == d.(receipts := Kept(records)) && h' == Archiving(h, Kept(records), swept)
  }

  /** The ledger that a compaction writes. */
  function Ledgered<S(==)>(receipts: seq<Record<S>>, terminal: seq<Record<S>>): seq<Record<S>> {
    Kept(ByTime(Merged(receipts, terminal)))
  }

  /** The closed operations for whose receipts that ledger has no room. */
  ghost function LeftOut<S>(receipts: seq<Record<S>>, terminal: seq<Record<S>>): set<Id> {
    IdsOf(terminal) - IdsOf(Ledgered(receipts, terminal))
  }

  /** The receipts of the terminal records are durable, but for those left out. */
  ghost predicate Compacted<S(!new)>(d: Disk<S>, h: History, terminal: seq<Record<S>>, d': Disk<S>, h': History) {
    && terminal != [] && ExactlyTerminal(d.records, terminal)
    && d'.receipts == Ledgered(d.receipts, terminal)
    && h'.archived == h.archived + IdsOf(d'.receipts)
    && h'.compacted == h.compacted + LeftOut(d.receipts, terminal)
  }

  /** The pending index can take one more marker for this operation. */
  predicate HasRoom<S>(d: Disk<S>, id: Id) {
    !HasMarker(d.index, id) && |d.index| < MAX_RECOVERY_RECORDS
  }

  class OperationJournal<S(==,!new)> {
    var disk: Disk<S>
    ghost var history: History

    ghost predicate Valid()
      reads this
    {
      Sound(disk, history)
    }

    constructor ()
      ensures Valid()
      ensures disk == Disk([], map[], []) && history == History(map[], {}, {})
    {
      disk := Disk([], map[], []);
      history := History(map[], {}, {});
    }

    // ---------- single durable writes ----------

    /** Atomic replacement of one record file. */
    method WriteRecord(r: Record<S>, calm: bool) returns (o: Outcome)
      requires Valid()
      requires !r.Finished() ==> r.id !in history.closed && Marker(r.id, r.kind) in disk.index
      requires r.Finished() ==> r.id in disk.records && !disk.records[r.id].Finished()
                                && disk.records[r.id].kind == r.kind && Fits([r.Receipt()])
      modifies this
      ensures Valid()
      ensures OnlyTouches(old(disk), disk, r.id)
      ensures disk == old(disk) || disk == old(disk).(records := old(disk).records[r.id := r])
      ensures o == Done ==> disk == old(disk).(records := old(disk).records[r.id := r])
      ensures history == if disk.records == old(disk).records || !r.Finished() then old(history) else Closing(old(history), r)
      ensures calm ==> o == Done
    {
      var f := Draw(calm);
      if f.Published() {
        if r.Finished() {
          PutTerminalSound(disk, history, r);
          history := Closing(history, r);
        } else {
          PutPendingSound(disk, history, r);
        }
        disk := disk.(records := disk.records[r.id := r]);
      }
      return f.Ending();
    }

    /** Adds the metadata-only marker that is published before any recovery image. */
    method AddPending(id: Id, kind: string, calm: bool) returns (o: Outcome)
      requires Valid() && id !in history.closed
      modifies this
      ensures Valid() && history == old(history)
      ensures OnlyTouches(old(disk), disk, id)
      ensures disk == old(disk) || (!HasMarker(old(disk).index, id) && disk == old(disk).(index := old(disk).index + [Marker(id, kind)]))
      ensures o == Done ==> disk != old(disk)
      ensures calm && HasRoom(old(disk), id) ==> o == Done
    {
      o := Attempt(calm);
      if o != Done { return; }
      if |disk.index| >= MAX_RECOVERY_RECORDS { return Raised; }
      if HasMarker(disk.index, id) { return Raised; }
      var f := Draw(calm);
      if f.Published() {
        AddMarkerSound(disk, history, Marker(id, kind));
        disk := disk.(index := disk.index + [Marker(id, kind)]);
      }
      return f.Ending();
    }

    /** Removes an operation's marker; without one the index file is left alone. */
    method RemovePending(id: Id, calm: bool) returns (o: Outcome)
      requires Valid() && Droppable(disk, history, {id})
      modifies this
      ensures Valid() && history == old(history)
      ensures OnlyTouches(old(disk), disk, id)
      ensures disk == old(disk) || disk == old(disk).(index := Without(old(disk).index, {id}))
      ensures o == Done ==> disk == old(disk).(index := Without(old(disk).index, {id})) && !HasMarker(disk.index, id)
      ensures calm ==> o == Done
    {
      o := Attempt(calm);
      if o != Done { return; }
      var kept := Without(disk.index, {id});
      DropMarkersSound(disk, history, {id});
      WithoutMembers(disk.index, {id});
      WithoutTwice(disk.index, {id}, {id});
      if |kept| != |disk.index| {
        var f := Draw(calm);
        if f.Published() {
          disk := disk.(index := kept);
        }
        o := f.Ending();
      }
    }

    method Unlink(id: Id, calm: bool) returns (o: Outcome)
      requires Valid() && id in history.closed && !HasMarker(disk.index, id)
      modifies this
      ensures Valid() && history == old(history)
      ensures OnlyTouches(old(disk), disk, id)
      ensures disk == old(disk) || disk == Unlinked(old(disk), {id})
      ensures o == Done ==> disk == Unlinked(old(disk), {id})
      ensures calm ==> o == Done
    {
      var f := Draw(calm);
      if f.Published() {
        UnlinkSound(disk, history, id);
        disk := Unlinked(disk, {id});
      }
      return f.Ending();
    }

    /** Writes the newest receipts that the ledger can hold. */
    method WriteReceipts(records: seq<Record<S>>, ghost swept: set<Id>, calm: bool) returns (o: Outcome)
      requires Valid() && Receipts(records, history)
      modifies this
      ensures Valid()
      ensures (disk == old(disk) && history == old(history)) || Wrote(old(disk), old(history), records, swept, disk, history)
      ensures o == Done ==> Wrote(old(disk), old(history), records, swept, disk, history)
      ensures calm ==> o == Done
    {
      hide Kept, Fits, DistinctRecords;
      var kept := Trim(records);
      KeptReceipts(records, history);
      o := Attempt(calm);
      if o != Done { return; }
      var f := Draw(calm);
      if f.Published() {
        PutReceiptsSound(disk, history, kept.value, swept);
        disk := disk.(receipts := kept.value);
        history := Archiving(history, kept.value, swept);
      }
      return f.Ending();
    }

    // ---------- operations ----------

    /** Publishes the marker, then the recovery image.  If the image is certainly absent the
      marker is taken back; a process death in between leaves the marker alone. */
    method Begin(id: Id, kind: string, state: Option<S>, now: nat, calm: bool) returns (o: Outcome)
      requires Valid() && id !in history.closed
      modifies this
      ensures Valid() && history == old(history)
      ensures OnlyTouches(old(disk), disk, id) && disk.receipts == old(disk).receipts
      ensures o == Done ==>
                && disk.index == old(disk).index + [Marker(id, kind)]
                && disk.records == old(disk).records[id := Prepared(id, kind, state, now)]
                && disk.records[id] == Record(id, kind, "prepared", Pending, now, state, None, None)
                && id !in old(disk).records
      ensures disk.records == old(disk).records
              || disk.records == old(disk).records[id := Prepared(id, kind, state, now)]
      ensures disk.records != old(disk).records ==> Marker(id, kind) in disk.index
      ensures calm && Read(old(disk), id).None? && HasRoom(old(disk), id) ==> o == Done
    {
      hide Sound, Without, FindReceipt;
      o := Attempt(calm);
      if o != Done { return; }
      if Read(disk, id).Some? { return Raised; }
      o := Attempt(calm);  // key creation and authorization
      if o != Done { return; }
      o := AddPending(id, kind, calm);
      if o != Done { return; }
      o := WriteRecord(Prepared(id, kind, state, now), calm);
      if o == Raised && id !in disk.records {
        o := RemovePending(id, false);
        if o == Done { o := Raised; }
      }
    }

    method Stage(id: Id, stage: string, state: Option<S>, now: nat, calm: bool) returns (o: Outcome)
      requires Valid()
      modifies this
      ensures Valid() && history == old(history)
      ensures disk.index == old(disk).index && disk.receipts == old(disk).receipts && disk.records.Keys == old(disk).records.Keys
      ensures disk.records - {id} == old(disk).records - {id}
      ensures disk == old(disk)
              || (id in old(disk).records && !old(disk).records[id].Finished()
                  && disk.records[id] == Staged(old(disk).records[id], stage, state, now))
      ensures o == Done ==>
                && id in old(disk).records && !old(disk).records[id].Finished()
                && disk.records[id] == Staged(old(disk).records[id], stage, state, now)
      ensures o == Done ==> Advanced(old(disk).records[id], disk.records[id], stage, state, now)
      ensures calm && id in old(disk).records && !old(disk).records[id].Finished() ==> o == Done
    {
      o := Attempt(calm);
      if o != Done { return; }
      FindReceiptFinds(disk.receipts, id);
      var current := Read(disk, id);
      if current.None? || current.value.Finished() { return Raised; }
      o := WriteRecord(Staged(current.value, stage, state, now), calm);
    }

    /** The old ledger without an earlier receipt of the operation, and the new receipt. */
    method AddReceipt(record: Record<S>, calm: bool) returns (o: Outcome)
      requires Valid() && record.Finished() && record.id in disk.records && disk.records[record.id] == record
      modifies this
      ensures Valid() && disk.index == old(disk).index && disk.records == old(disk).records
      ensures history.closed == old(history).closed && history.compacted == old(history).compacted
      ensures o == Done ==> record.Receipt() in disk.receipts && record.id in history.archived
      ensures calm ==> o == Done
    {
      o := Attempt(calm);
      if o != Done { return; }
      var all := Others(disk.receipts, {record.id}) + [record.Receipt()];
      WithReceipt(disk, history, record);
      KeptReceipts(all, history);
      hide Kept, Fits, DistinctRecords, Others, Receipts, Sound;
      o := WriteReceipts(all, {}, calm);
    }

    /** Receipt first, then the marker, then the record file. */
    method ArchiveFinished(record: Record<S>, calm: bool) returns (o: Outcome)
      requires Valid() && record.Finished() && record.id in disk.records && disk.records[record.id] == record
      modifies this
      ensures Valid()
      ensures OnlyTouches(old(disk), disk, record.id)
      ensures history.closed == old(history).closed && history.compacted == old(history).compacted
      ensures record.id in disk.records ==> disk.records[record.id] == record
      ensures o == Done ==>
                && record.id !in disk.records
                && !HasMarker(disk.index, record.id)
                && record.Receipt() in disk.receipts
      ensures calm ==> o == Done
    {
      hide Fits, FindReceipt, DistinctRecords, HasMarker;
      o := AddReceipt(record, calm);
      if o != Done { return; }
      o := RemovePending(record.id, calm);
      if o != Done { return; }
      o := Unlink(record.id, calm);
      if o != Done { return; }
      o := Attempt(calm);  // directory synchronization
    }

    /** Closes an operation as completed or failed, or finishes an earlier interrupted close
      with the same status.  The operation is closed from the moment its terminal record is
      durable, and only then can its marker and its images go. */
    method Close(id: Id, status: Status, result: Option<string>, error: Option<string>, now: nat, calm: bool)
      returns (o: Outcome)
      requires Valid() && status != Pending
      modifies this
      ensures Valid()
      ensures OnlyTouches(old(disk), disk, id)
      ensures history.compacted == old(history).compacted
      ensures id in disk.records ==> id in old(disk).records && disk.records[id].kind == old(disk).records[id].kind
      ensures id !in history.closed ==> disk == old(disk)
      ensures history.closed == old(history).closed
              || (Pends(old(disk), id) && history.closed == old(history).closed[id := status])
      ensures o == Done ==>
                && id in history.closed && history.closed[id] == status
                && id !in disk.records && !HasMarker(disk.index, id)
                && Read(disk, id).Some? && Read(disk, id).value.status == status
      ensures o == Done && Pends(old(disk), id) ==>
                ClosedAs(old(disk).records[id], Read(disk, id).value, status, result, error, now)
      ensures o == Done && !Pends(old(disk), id) ==>
                Read(old(disk), id).Some? && Read(disk, id) == Some(Read(old(disk), id).value.(state := None))
      ensures calm && Closable(old(disk), id, status, result, error, now) ==> o == Done
    {
      hide Fits, Without, HasMarker, DistinctRecords, DistinctMarkers, FindReceipt;
      o := Attempt(calm);
      if o != Done { return; }
      FindReceiptFinds(disk.receipts, id);
      var current := Read(disk, id);
      if current.None? { return Raised; }
      if current.value.Finished() {
        if current.value.status != status { return Raised; }
        if id in disk.records {
          o := ArchiveFinished(current.value, calm);
        } else {
          o := RemovePending(id, calm);
        }
      } else {
        var updated := Terminal(current.value, status, result, error, now);
        if !Fits([updated.Receipt()]) { return Raised; }
        o := Attempt(calm);  // the ledger is authenticated before anything changes
        if o != Done { return; }
        o := WriteRecord(updated, calm);
        if o != Done { return; }
        o := ArchiveFinished(updated, calm);
        if o == Done {
          FindReceiptUnique(disk.receipts, updated.Receipt());
        }
        FindReceiptFinds(disk.receipts, id);
        return;
      }
      if o == Done && current.value.Receipt() in disk.receipts {
        FindReceiptUnique(disk.receipts, current.value.Receipt());
      }
      FindReceiptFinds(disk.receipts, id);
    }

    /** Lists the operations that still need recovery and compacts the terminal records that
      crashes left behind: receipts first, then the markers, then the files.  Whatever the
      ending, no open operation loses its record or its marker, and no closed one is touched
      before the ledger with the receipts is durable. */
    method ListUnfinished(calm: bool) returns (o: Outcome, active: seq<Record<S>>, ghost terminal: seq<Record<S>>)
      requires Valid()
      modifies this
      ensures Valid() && history.closed == old(history).closed
      ensures OpenUntouched(old(disk), disk, history)
      ensures OnlyShrinks(old(disk), disk)
      ensures o == Done ==> ExactlyOpen(disk.records, active)
      ensures o == Done ==> forall id :: id in history.closed ==> id !in disk.records && !HasMarker(disk.index, id)
      ensures o == Done ==> ExactlyTerminal(old(disk).records, terminal)
      ensures (disk == old(disk) && history == old(history)) || Compacted(old(disk), old(history), terminal, disk, history)
      ensures o == Done && terminal != [] ==> Compacted(old(disk), old(history), terminal, disk, history)
      ensures o == Done ==> Listable(old(disk).index, old(disk).records)
      ensures calm && Listable(old(disk).index, old(disk).records) ==> o == Done
    {
      active, terminal := [], [];
      o := Attempt(calm);
      if o != Done { return; }
      if |disk.records| > MAX_RECOVERY_RECORDS + MAX_RECEIPTS { return Raised, active, terminal; }
      var finished;
      active, finished := ScanRecords(disk.records);
      terminal := finished;
      OpenIsCounted(disk.records, active);
      ReadableIsOnFile(disk, history);
      if |active| > MAX_RECOVERY_RECORDS || !IndexReadable(disk) { return Raised, active, terminal; }
      o := Compact(finished, calm);
      if o == Done {
        OpenStaysListed(old(disk), disk, old(history), active);
      }
    }

    /** Receipts of the terminal records, then their markers, then their files. */
    method Compact(terminal: seq<Record<S>>, calm: bool) returns (o: Outcome)
      requires Valid() && IndexReadable(disk) && ExactlyTerminal(disk.records, terminal)
      modifies this
      ensures Valid() && history.closed == old(history).closed
      ensures OpenUntouched(old(disk), disk, history)
      ensures OnlyShrinks(old(disk), disk)
      ensures o == Done ==> forall id :: id in history.closed ==> id !in disk.records && !HasMarker(disk.index, id)
      ensures (disk == old(disk) && history == old(history)) || Compacted(old(disk), old(history), terminal, disk, history)
      ensures o == Done && terminal != [] ==> Compacted(old(disk), old(history), terminal, disk, history)
      ensures calm ==> o == Done
    {
      hide Kept, ByTime, Merged, ExactlyTerminal, HasMarker, Receipts, LedgerSound, RecordsSound;
      var finished := FinishedMarkers(disk);
      FinishedMarkersAreClosed(disk, history);
      FinishedAreTerminal(disk, history, terminal, finished);
      if terminal != [] {
        MergedSound(disk, history, terminal);
        o := WriteReceipts(ByTime(Merged(disk.receipts, terminal)), IdsOf(terminal), calm);
        if o != Done { return; }
      }
      o := ClearFinished(terminal, finished, calm);
    }

    /** Drops the markers of the closed operations, then removes their files. */
    method ClearFinished(terminal: seq<Record<S>>, finished: set<Id>, calm: bool) returns (o: Outcome)
      requires Valid() && ExactlyTerminal(disk.records, terminal) && Droppable(disk, history, finished)
      requires forall id :: id in finished <==> HasMarker(disk.index, id) && id in history.closed
      modifies this
      ensures Valid() && history == old(history) && disk.receipts == old(disk).receipts
      ensures OpenUntouched(old(disk), disk, history) && OnlyShrinks(old(disk), disk)
      ensures o == Done ==> forall id :: id in history.closed ==> id !in disk.records && !HasMarker(disk.index, id)
      ensures terminal == [] ==> disk == old(disk)
      ensures calm ==> o == Done
    {
      hide HasMarker, Fits, FindReceipt, LedgerSound, RecordsSound, ClosedSound, ExactlyTerminal;
      FinishedAreTerminal(disk, history, terminal, finished);
      o := DropFinished(finished, calm);
      if o != Done { return; }
      ghost var swept := disk;
      ghost var gone;
      o, gone := UnlinkAll(terminal, calm);
      UnlinkedIsTerminal(swept, history, gone);
      if o == Done {
        AllUnlinked(swept, history, terminal, gone);
      }
    }

    /** Rewrites the index without the markers of closed operations, whose receipts are
      durable or had no room. */
    method DropFinished(finished: set<Id>, calm: bool) returns (o: Outcome)
      requires Valid() && Droppable(disk, history, finished)
      requires forall id :: id in finished <==> HasMarker(disk.index, id) && id in history.closed
      modifies this
      ensures Valid() && history == old(history)
      ensures OpenUntouched(old(disk), disk, history)
      ensures disk.records == old(disk).records && disk.receipts == old(disk).receipts
      ensures finished == {} ==> disk == old(disk)
      ensures OnlyShrinks(old(disk), disk)
      ensures o == Done ==> forall id :: id in history.closed ==> !HasMarker(disk.index, id)
      ensures calm ==> o == Done
    {
      o := Done;
      var kept := Without(disk.index, finished);
      WithoutMembers(disk.index, finished);
      if finished == {} {
        WithoutAbsent(disk.index, finished);
      }
      DropMarkersSound(disk, history, finished);
      if kept != disk.index {
        var f := Draw(calm);
        if f.Published() {
          disk := disk.(index := kept);
        }
        o := f.Ending();
      }
    }

    /** Removes the files of closed operations one by one. */
    method UnlinkAll(terminal: seq<Record<S>>, calm: bool) returns (o: Outcome, ghost gone: set<Id>)
      requires Valid()
      requires forall r :: r in terminal ==> r.id in history.closed && !HasMarker(disk.index, r.id)
      modifies this
      ensures Valid() && history == old(history)
      ensures gone <= history.closed.Keys && disk == Unlinked(old(disk), gone)
      ensures o == Done ==> forall r :: r in terminal ==> r.id in gone
      ensures calm ==> o == Done
    {
      o, gone := Done, {};
      for i := 0 to |terminal|
        invariant Valid() && history == old(history) && o == Done
        invariant gone <= history.closed.Keys && disk == Unlinked(old(disk), gone)
        invariant forall r :: r in terminal[..i] ==> r.id in gone
      {
        var id := terminal[i].id;
        assert terminal[i] in terminal && terminal[..i + 1] == terminal[..i] + [terminal[i]];
        o := Unlink(id, calm);
        UnlinkedTwice(old(disk), gone, id);
        if o == Done || disk == Unlinked(old(disk), gone + {id}) { gone := gone + {id}; }
        if o != Done { return; }
      }
      assert terminal[..|terminal|] == terminal;
    }
  }

  function Unlinked<S>(d: Disk<S>, gone: set<Id>): Disk<S> {
    d.(records := d.records - gone)
  }

  lemma UnlinkedTwice<S(!new)>(d: Disk<S>, gone: set<Id>, id: Id)
    ensures Unlinked(Unlinked(d, gone), {id}) == Unlinked(d, gone + {id})
  {
    assert d.records - gone - {id} == d.records - (gone + {id});
  }

  lemma AllUnlinked<S(!new)>(d: Disk<S>, h: History, terminal: seq<Record<S>>, gone: set<Id>)
    requires Sound(d, h) && ExactlyTerminal(d.records, terminal)
    requires forall r :: r in terminal ==> r.id in gone
    ensures forall id :: id in h.closed ==> id !in Unlinked(d, gone).records
  {
    forall id | id in h.closed && id in d.records ensures id in gone {
      assert d.records[id].Receipt() in terminal;
    }
  }

  lemma UnlinkedIsTerminal<S(!new)>(d: Disk<S>, h: History, gone: set<Id>)
    requires gone <= h.closed.Keys
    ensures OpenUntouched(d, Unlinked(d, gone), h) && OnlyShrinks(d, Unlinked(d, gone))
  {
  }

  function Others<S>(records: seq<Record<S>>, ids: set<Id>): seq<Record<S>> {
    if records == [] then []
    else if records[0].id in ids then Others(records[1..], ids)
    else [records[0]] + Others(records[1..], ids)
  }

  lemma {:induction false} OthersMembers<S(!new)>(records: seq<Record<S>>, ids: set<Id>)
    ensures forall r :: r in Others(records, ids) <==> r in records && r.id !in ids
    ensures DistinctRecords(records) ==> DistinctRecords(Others(records, ids))
  {
    if records != [] {
      var rest := records[1..];
      OthersMembers(rest, ids);
      assert records == [records[0]] + rest;
      if DistinctRecords(records) {
        forall x | x in Others(rest, ids) ensures x.id != records[0].id {
          var j :| 0 <= j < |rest| && rest[j] == x;
          assert records[0].id != records[j + 1].id;
        }
      }
    }
  }

  lemma {:induction false} FitsMember<S(!new)>(records: seq<Record<S>>, r: Record<S>)
    requires Fits(records) && r in records
    ensures Fits([r])
  {
    if records[0] == r {
      assert SizeSum([r]) == r.ReceiptSize();
    } else {
      FitsMember(records[1..], r);
    }
  }

  /** The ledger entries a compaction starts from: old receipts, replaced by the terminal
    records found on disk. */
  function Merged<S(==)>(receipts: seq<Record<S>>, terminal: seq<Record<S>>): seq<Record<S>> {
    Others(receipts, set r | r in terminal :: r.id) + terminal
  }

  lemma MergedMembers<S(!new)>(receipts: seq<Record<S>>, terminal: seq<Record<S>>)
    requires DistinctRecords(receipts) && DistinctRecords(terminal)
    ensures DistinctRecords(Merged(receipts, terminal))
    ensures forall r :: r in Merged(receipts, terminal) ==> r in receipts || r in terminal
    ensures forall r :: r in terminal ==> r in Merged(receipts, terminal)
  {
    var ids := set r | r in terminal :: r.id;
    var others := Others(receipts, ids);
    OthersMembers(receipts, ids);
    forall i, j | 0 <= i < |others| && 0 <= j < |terminal| ensures others[i].id != terminal[j].id {
      assert others[i] in others && terminal[j] in terminal;
    }
  }

  /** A ledger of this operation's receipt after those of the others. */
  lemma WithReceipt<S(!new)>(d: Disk<S>, h: History, r: Record<S>)
    requires Sound(d, h) && r.Finished() && r.id in d.records && d.records[r.id] == r
    ensures Receipts(Others(d.receipts, {r.id}) + [r.Receipt()], h)
  {
    OthersMembers(d.receipts, {r.id});
    hide Fits, FindReceipt;
    var others := Others(d.receipts, {r.id});
    forall i | 0 <= i < |others| ensures others[i].id != r.id {
      assert others[i] in others;
    }
  }

  /** Every marker of a closed operation leads to a terminal record on disk. */
  lemma FinishedAreTerminal<S(!new)>(d: Disk<S>, h: History, terminal: seq<Record<S>>, finished: set<Id>)
    requires Sound(d, h) && ExactlyTerminal(d.records, terminal)
    requires forall id :: id in finished <==> HasMarker(d.index, id) && id in h.closed
    ensures finished <= IdsOf(terminal) && forall id :: id in finished ==> id in h.closed
    ensures terminal == [] ==> finished == {} && forall id :: id in h.closed ==> id !in d.records && !HasMarker(d.index, id)
    ensures forall r :: r in terminal ==> r.id in h.closed
  {
    forall id | id in h.closed && id in d.records ensures id in IdsOf(terminal) {
      assert d.records[id].Receipt() in terminal;
    }
  }

  /** Compaction writes a ledger of distinct closed operations whose newest receipt fits. */
  lemma MergedSound<S(!new)>(d: Disk<S>, h: History, terminal: seq<Record<S>>)
    requires Sound(d, h) && ExactlyTerminal(d.records, terminal) && terminal != []
    ensures Receipts(ByTime(Merged(d.receipts, terminal)), h)
    ensures forall r :: r in terminal ==> r in ByTime(Merged(d.receipts, terminal))
  {
    hide Merged, ByTime, Fits, DistinctRecords, FindReceipt, HasMarker;
    MergedMembers(d.receipts, terminal);
    var merged := Merged(d.receipts, terminal);
    assert terminal[0] in merged;
    ByTimeSorts(merged);
    var ordered := ByTime(merged);
    var newest := ordered[|ordered| - 1];
    assert newest in merged;
    if newest !in terminal {
      FitsMember(d.receipts, newest);
    }
  }

  /** Which closed operations lose their receipt in a compaction: exactly those from whose
    receipt on the merged ledger, in the order of time, is not admissible. */
  lemma LeftOutIff<S(!new)>(d: Disk<S>, h: History, terminal: seq<Record<S>>, k: nat)
    requires Sound(d, h) && ExactlyTerminal(d.records, terminal) && terminal != []
    requires k < |ByTime(Merged(d.receipts, terminal))|
    ensures var ordered := ByTime(Merged(d.receipts, terminal));
            ordered[k].id in LeftOut(d.receipts, terminal) <==> ordered[k] in terminal && !Admissible(ordered[k..])
  {
    hide Kept, ByTime, Merged, Admissible, Fits, ClosedSound, RecordsSound, LedgerSound, ExactlyTerminal;
    var ordered := ByTime(Merged(d.receipts, terminal));
    MergedSound(d, h, terminal);
    KeptReceipts(ordered, h);
    KeptIff(ordered, k);
    forall r | r in ordered && r.id == ordered[k].id ensures r == ordered[k] {
      var j :| 0 <= j < |ordered| && ordered[j] == r;
    }
  }

  /** A merged ledger within the limits loses no receipt. */
  lemma AdmissibleLosesNone<S(!new)>(d: Disk<S>, h: History, terminal: seq<Record<S>>)
    requires Sound(d, h) && ExactlyTerminal(d.records, terminal) && Admissible(ByTime(Merged(d.receipts, terminal)))
    ensures LeftOut(d.receipts, terminal) == {}
  {
    if terminal != [] {
      MergedSound(d, h, terminal);
    }
  }

  /** One leftover is enough: over a full ledger of later receipts its own receipt is lost. */
  lemma OneLeftoverIsLost<S(!new)>(receipts: seq<Record<S>>, a: Record<S>)
    requires |receipts| == MAX_RECEIPTS && Fits(receipts) && forall r :: r in receipts ==> r.id != a.id && NotLater(a, r)
    requires Chronological(receipts)
    ensures Ledgered(receipts, [a]) == receipts && LeftOut(receipts, [a]) == {a.id}
  {
    OthersAll(receipts, {a.id});
    assert (set r | r in [a] :: r.id) == {a.id};
    OldestFirst(receipts, a);
    assert ([a] + receipts)[1..] == receipts;
    assert !Admissible([a] + receipts) && Admissible(receipts);
    assert Kept(receipts) == receipts;
  }

  lemma {:induction false} OthersAll<S(!new)>(records: seq<Record<S>>, ids: set<Id>)
    requires forall r :: r in records ==> r.id !in ids
    ensures Others(records, ids) == records
  {
    if records != [] {
      OthersAll(records[1..], ids);
    }
  }

  lemma {:induction false} OldestFirst<S(!new)>(records: seq<Record<S>>, a: Record<S>)
    requires Chronological(records) && forall r :: r in records ==> r.id != a.id && NotLater(a, r)
    ensures ByTime(records + [a]) == [a] + records
  {
    hide Chronological, DistinctRecords, IdsOf, Without;
    if records == [] {
      assert records + [a] == [a];
    } else {
      var rest := records[1..];
      ChronologicalRest(records);
      OldestFirst(rest, a);
      assert (records + [a])[1..] == rest + [a];
      var first := records[0];
      assert first in records && !NotLater(first, a);
      assert ([a] + rest)[1..] == rest;
      assert Insert(first, rest) == [first] + rest;
    }
  }

  lemma ChronologicalRest<S(!new)>(records: seq<Record<S>>)
    requires Chronological(records) && records != []
    ensures Chronological(records[1..]) && (|records| > 1 ==> NotLater(records[0], records[1]))
  {
  }

  /** Such a state is a sound one: 64 operations closed while the close of an older one,
    cut short after its terminal record, waits for the next listing. */
  lemma LeftoverState() returns (d: Disk<nat>, h: History, a: Record<nat>)
    ensures Sound(d, h) && IndexReadable(d) && d.index == [Marker(0, "k")]
    ensures ExactlyTerminal(d.records, [a]) && a.id == 0 && LeftOut(d.receipts, [a]) == {0} && 0 !in h.archived
  {
    a := Closed(0);
    d, h := Disk([Marker(0, "k")], map[0 := a], LaterReceipts()), LeftoverHistory();
    hide Fits, LaterReceipts, LedgerSound, LeftOut, Sound, IndexReadable, ExactlyTerminal, LeftoverHistory;
    SmallLedger([a]);
    LaterReceiptsSound();
    LaterLedgerSound();
    OneLeftoverIsLost(LaterReceipts(), a);
    LeftoverSound(d, h, a);
  }

  ghost function LeftoverHistory(): History {
    var ids := IdsOf(LaterReceipts());
    History(map id | id in ids + {0} :: Completed, ids, {})
  }

  lemma LaterLedgerSound()
    ensures var h := LeftoverHistory();
            && LedgerSound(LaterReceipts(), h) && 0 in h.closed && 0 !in h.archived
            && (forall id :: id in h.closed ==> h.closed[id] == Completed)
            && forall id :: id in h.closed && id != 0 ==> id in h.archived
  {
    hide Fits, LaterReceipts;
    LaterReceiptsSound();
  }

  function LaterReceipts(): seq<Record<nat>> {
    seq(MAX_RECEIPTS, i requires 0 <= i < MAX_RECEIPTS => Closed(i + 1))
  }

  lemma LaterReceiptsSound()
    ensures |LaterReceipts()| == MAX_RECEIPTS && Fits(LaterReceipts())
    ensures Chronological(LaterReceipts()) && DistinctRecords(LaterReceipts())
    ensures forall r :: r in LaterReceipts() ==> r == Closed(r.id) && 0 < r.id
  {
    hide Fits, SizeSum, Chronological, DistinctRecords;
    SmallLedger(LaterReceipts());
    Ascending(LaterReceipts());
  }

  lemma Ascending(records: seq<Record<nat>>)
    requires forall i :: 0 <= i < |records| ==> records[i] == Closed(i + 1)
    ensures Chronological(records) && DistinctRecords(records)
  {
  }

  lemma LeftoverSound(d: Disk<nat>, h: History, a: Record<nat>)
    requires a == Closed(0) && d.index == [Marker(0, "k")] && d.records == map[0 := a] && Fits([a.Receipt()])
    requires LedgerSound(d.receipts, h) && 0 in h.closed && forall id :: id in h.closed ==> h.closed[id] == Completed
    requires forall id :: id in h.closed && id != 0 ==> id in h.archived
    ensures Sound(d, h) && IndexReadable(d) && ExactlyTerminal(d.records, [a])
  {
    hide Fits, FindReceipt, LedgerSound;
    assert d.index[0] == Marker(0, "k");
  }

  function Closed(id: Id): Record<nat> {
    Record(id, "k", "finished", Completed, id, None, None, None)
  }

  lemma {:induction false} SmallLedger(records: seq<Record<nat>>)
    requires |records| <= MAX_RECEIPTS && forall r :: r in records ==> r == Closed(r.id)
    ensures SizeSum(records) <= 300 * |records| && Fits(records)
  {
    if records != [] {
      SmallLedger(records[1..]);
      assert records[0] in records;
    }
  }

  // ---------- any run ----------

  datatype Step<S> =
    | DoBegin(id: Id, kind: string, state: Option<S>, now: nat)
    | DoStage(id: Id, stage: string, state: Option<S>, now: nat)
    | DoFinish(id: Id, result: Option<string>, now: nat)
    | DoFail(id: Id, error: string, now: nat)
    | DoList

  ghost predicate Unused<S>(d: Disk<S>, h: History, id: Id) {
    id !in h.closed && id !in d.records
  }

  /** Begins carry distinct identities that the journal has not seen. */
  ghost predicate DistinctBegins<S>(d: Disk<S>, h: History, script: seq<Step<S>>) {
    && (forall i :: 0 <= i < |script| && script[i].DoBegin? ==> Unused(d, h, script[i].id))
    && (forall i, j :: 0 <= i < j < |script| && script[i].DoBegin? && script[j].DoBegin? ==> script[i].id != script[j].id)
  }

  /** A compaction from this state has no room for the receipt of this closed operation. */
  ghost predicate Loses<S(!new)>(d: Disk<S>, id: Id) {
    exists terminal: seq<Record<S>> :: ExactlyTerminal(d.records, terminal) && id in LeftOut(d.receipts, terminal)
  }

  /** Closed operations stay closed as they were, no other identity is used up, and only a
    listing that has no room for a receipt goes on without it. */
  ghost predicate Progresses<S(!new)>(d: Disk<S>, h: History, d': Disk<S>, h': History, step: Step<S>) {
    && h.compacted <= h'.compacted
    && (forall id :: id in h'.compacted && id !in h.compacted ==> step.DoList? && Loses(d, id))
    && (forall id :: id in h.closed ==> id in h'.closed && h'.closed[id] == h.closed[id])
    && (forall id :: Unused(d, h, id) && (step.DoBegin? ==> id != step.id) ==> Unused(d', h', id))
  }

  method Perform<S(==,!new)>(journal: OperationJournal<S>, step: Step<S>) returns (o: Outcome)
    requires journal.Valid() && (step.DoBegin? ==> Unused(journal.disk, journal.history, step.id))
    modifies journal
    ensures journal.Valid()
    ensures Progresses(old(journal.disk), old(journal.history), journal.disk, journal.history, step)
  {
    match step {
      case DoBegin(id, kind, state, now) => o := journal.Begin(id, kind, state, now, false);
      case DoStage(id, stage, state, now) => o := journal.Stage(id, stage, state, now, false);
      case DoFinish(id, result, now) => o := journal.Close(id, Completed, result, None, now, false);
      case DoFail(id, error, now) => o := journal.Close(id, Failed, None, Some(error), now, false);
      case DoList => var active; ghost var terminal; o, active, terminal := journal.ListUnfinished(false);
    }
    UnusedStays(old(journal.disk), old(journal.history), journal.disk, journal.history, step);
  }

  /** Any run of journal operations, each possibly failing or cut short by process death at any
    durable step, keeps the journal sound, and a closed operation stays closed as it was.  One
    that ends without a marker had a durable receipt, or some listing met it closed on disk
    and had no room for its receipt. */
  method AnyRun<S(==,!new)>(journal: OperationJournal<S>, script: seq<Step<S>>)
    returns (ghost disks: seq<Disk<S>>, ghost histories: seq<History>)
    requires journal.Valid() && DistinctBegins(journal.disk, journal.history, script)
    modifies journal
    ensures journal.Valid()
    ensures IsRun(script, disks, histories)
    ensures disks[0] == old(journal.disk) && histories[0] == old(journal.history)
    ensures disks[|script|] == journal.disk && histories[|script|] == journal.history
    ensures forall id :: id in old(journal.history).closed ==>
              id in journal.history.closed && journal.history.closed[id] == old(journal.history).closed[id]
    ensures forall id :: id in journal.history.closed && !HasMarker(journal.disk.index, id) ==>
              || id in journal.history.archived || id in old(journal.history).compacted
              || LostIn(script, disks, id)
  {
    hide Loses, Progresses, LostIn;
    disks, histories := [journal.disk], [journal.history];
    for i := 0 to |script|
      invariant journal.Valid()
      invariant IsRun(script[..i], disks, histories)
      invariant disks[0] == old(journal.disk) && histories[0] == old(journal.history)
      invariant disks[i] == journal.disk && histories[i] == journal.history
      invariant forall k :: i <= k < |script| && script[k].DoBegin? ==> Unused(journal.disk, journal.history, script[k].id)
    {
      var o := Perform(journal, script[i]);
      StaysUnused(disks[i], histories[i], journal.disk, journal.history, script, i);
      Extended(script, i, disks, histories, journal.disk, journal.history);
      disks, histories := disks + [journal.disk], histories + [journal.history];
    }
    assert script[..|script|] == script;
    RunKeeps(script, disks, histories);
  }

  /** The durable states and histories that a run goes through. */
  ghost predicate IsRun<S(!new)>(script: seq<Step<S>>, disks: seq<Disk<S>>, histories: seq<History>) {
    && |disks| == |histories| == |script| + 1
    && forall i :: 0 <= i < |script| ==> Progresses(disks[i], histories[i], disks[i + 1], histories[i + 1], script[i])
  }

  /** Some listing of the run had no room for the receipt of this operation. */
  ghost predicate LostIn<S(!new)>(script: seq<Step<S>>, disks: seq<Disk<S>>, id: Id)
    requires |disks| > |script|
  {
    exists i :: 0 <= i < |script| && script[i].DoList? && Loses(disks[i], id)
  }

  lemma Extended<S(!new)>(script: seq<Step<S>>, i: nat, disks: seq<Disk<S>>, histories: seq<History>, d: Disk<S>, h: History)
    requires i < |script| && IsRun(script[..i], disks, histories)
    requires Progresses(disks[i], histories[i], d, h, script[i])
    ensures IsRun(script[..i + 1], disks + [d], histories + [h])
  {
    hide Progresses;
  }

  lemma StaysUnused<S(!new)>(d: Disk<S>, h: History, d': Disk<S>, h': History, script: seq<Step<S>>, i: nat)
    requires i < |script| && Progresses(d, h, d', h', script[i])
    requires forall j, k :: 0 <= j < k < |script| && script[j].DoBegin? && script[k].DoBegin? ==> script[j].id != script[k].id
    requires forall k :: i <= k < |script| && script[k].DoBegin? ==> Unused(d, h, script[k].id)
    ensures forall k :: i < k < |script| && script[k].DoBegin? ==> Unused(d', h', script[k].id)
  {
    hide Unused, Loses;
  }

  /** Over a run closed operations stay as they were closed, and what went on without a
    receipt was met by a listing that had no room for it. */
  lemma {:induction false} RunKeeps<S(!new)>(script: seq<Step<S>>, disks: seq<Disk<S>>, histories: seq<History>)
    requires IsRun(script, disks, histories)
    ensures forall id :: id in histories[0].closed ==>
              id in histories[|script|].closed && histories[|script|].closed[id] == histories[0].closed[id]
    ensures forall id :: id in histories[|script|].compacted ==> id in histories[0].compacted || LostIn(script, disks, id)
  {
    hide Unused, Loses;
    if script != [] {
      var n := |script| - 1;
      RunKeeps(script[..n], disks[..n + 1], histories[..n + 1]);
      assert Progresses(disks[n], histories[n], disks[n + 1], histories[n + 1], script[n]);
      forall id | id in histories[|script|].compacted && id !in histories[0].compacted ensures LostIn(script, disks, id) {
        if id in histories[n].compacted {
          var i :| 0 <= i < n && script[..n][i].DoList? && Loses(disks[..n + 1][i], id);
          assert script[i].DoList? && Loses(disks[i], id);
        }
      }
    }
  }

  /** A step uses up no identity but its own. */
  lemma UnusedStays<S(!new)>(d: Disk<S>, h: History, d': Disk<S>, h': History, step: Step<S>)
    requires if step.DoList? then h'.closed == h.closed && OnlyShrinks(d, d')
             else OnlyTouches(d, d', step.id) && (h'.closed == h.closed || (step.id in d.records && h'.closed.Keys == h.closed.Keys + {step.id}))
    requires !step.DoBegin? && !step.DoList? && step.id in d'.records ==> step.id in d.records
    ensures forall id :: Unused(d, h, id) && (step.DoBegin? ==> id != step.id) ==> Unused(d', h', id)
  {
    forall id | Unused(d, h, id) && (step.DoBegin? ==> id != step.id) ensures Unused(d', h', id) {
      if !step.DoList? && id != step.id {
        assert id !in d.records - {step.id};
      }
    }
  }
}
