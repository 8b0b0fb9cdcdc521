/** The bounded receipt ledger: trimming and the order a compaction writes. */
module Ledger {
  import opened Wrappers
  import opened JournalDisk

  predicate Admissible<S>(records: seq<Record<S>>) {
    |records| <= MAX_RECEIPTS && Fits(records)
  }

  /** Specification of trimming: drop from the oldest end until the ledger is admissible. */
  function Kept<S>(records: seq<Record<S>>): seq<Record<S>> {
    if |records| <= 1 || Admissible(records) then records else Kept(records[1..])
  }

  /** The ledger that trimming keeps is the longest admissible suffix, so only the oldest
    receipts go, and a newest receipt that fits by itself always stays. */
  lemma {:induction false} KeptIsLongestSuffix<S(!new)>(records: seq<Record<S>>) returns (dropped: nat)
    requires records != [] && Fits([records[|records| - 1]])
    ensures dropped < |records| && Kept(records) == records[dropped..]
    ensures Admissible(Kept(records))
    ensures records[|records| - 1] in Kept(records)
    ensures forall k :: 0 <= k < dropped ==> !Admissible(records[k..])
  {
    if |records| == 1 {
      assert records == [records[0]];
      dropped := 0;
    } else if Admissible(records) {
      dropped := 0;
    } else {
      var shorter := KeptIsLongestSuffix(records[1..]);
      dropped := shorter + 1;
      forall k | 0 <= k < dropped ensures !Admissible(records[k..]) {
        if k == 0 {
          assert records[0..] == records;
        } else {
          assert records[1..][k - 1..] == records[k..];
        }
      }
      assert records[1..][shorter..] == records[dropped..];
    }
  }

  lemma {:induction false} SuffixIsAdmissible<S(!new)>(records: seq<Record<S>>, k: nat)
    requires Admissible(records) && k <= |records|
    ensures Admissible(records[k..])
  {
    if k == 0 {
      assert records[0..] == records;
    } else {
      SuffixIsAdmissible(records[1..], k - 1);
      assert records[1..][k - 1..] == records[k..];
    }
  }

  /** A receipt stays in the ledger exactly when the receipts from it to the newest are
    admissible: how old it is does not matter, what came after it does. */
  lemma KeptIff<S(!new)>(records: seq<Record<S>>, k: nat)
    requires k < |records| && DistinctRecords(records) && Fits([records[|records| - 1]])
    ensures records[k] in Kept(records) <==> Admissible(records[k..])
  {
    hide Kept, Admissible, Fits, DistinctRecords;
    var dropped := KeptIsLongestSuffix(records);
    if k < dropped {
      assert !Admissible(records[k..]);
      EarlierIsElsewhere(records, k, dropped);
    } else {
      assert records[dropped..][k - dropped] == records[k];
      SuffixIsAdmissible(records[dropped..], k - dropped);
      assert records[dropped..][k - dropped..] == records[k..];
    }
  }

  lemma EarlierIsElsewhere<S(!new)>(records: seq<Record<S>>, k: nat, dropped: nat)
    requires DistinctRecords(records) && k < dropped <= |records|
    ensures records[k] !in records[dropped..]
  {
    forall j | 0 <= j < |records[dropped..]| ensures records[dropped..][j] != records[k] {
      assert records[k].id != records[dropped + j].id;
    }
  }

  lemma {:induction false} KeptSkipsOverflow<S(!new)>(records: seq<Record<S>>, k: nat)
    requires k <= |records| && |records| - k >= MAX_RECEIPTS
    ensures Kept(records) == Kept(records[k..])
  {
    if k > 0 {
      KeptSkipsOverflow(records[1..], k - 1);
      assert records[1..][k - 1..] == records[k..];
    } else {
      assert records[0..] == records;
    }
  }

  /** The write loop: at most 64 receipts, then one older receipt less until the bytes fit.
    It fails exactly when the newest receipt alone is too large. */
  method Trim<S(!new)>(records: seq<Record<S>>) returns (kept: Option<seq<Record<S>>>)
    requires records != []
    ensures kept.Some? <==> Fits([records[|records| - 1]])
    ensures kept.Some? ==> kept.value == Kept(records)
  {
    var rest := records;
    if |rest| > MAX_RECEIPTS {
      rest := rest[|rest| - MAX_RECEIPTS..];
      KeptSkipsOverflow(records, |records| - MAX_RECEIPTS);
    }
    while !Fits(rest)
      invariant 0 < |rest| <= MAX_RECEIPTS
      invariant rest[|rest| - 1] == records[|records| - 1]
      invariant Kept(rest) == Kept(records)
      decreases |rest|
    {
      if |rest| <= 1 {
        assert rest == [records[|records| - 1]];
        return None;
      }
      rest := rest[1..];
    }
    FitsSuffix(rest);
    return Some(rest);
  }

  lemma {:induction false} FitsSuffix<S(!new)>(records: seq<Record<S>>)
    requires records != [] && Fits(records)
    ensures Fits([records[|records| - 1]])
  {
    if |records| == 1 {
      assert records == [records[0]];
    } else {
      FitsSuffix(records[1..]);
    }
  }

  // ---------- order of a compaction ----------

  predicate NotLater(a: Record, b: Record) {
    a.updatedAt < b.updatedAt || (a.updatedAt == b.updatedAt && a.id <= b.id)
  }

  predicate Chronological<S>(records: seq<Record<S>>) {
    forall i, j :: 0 <= i < j < |records| ==> NotLater(records[i], records[j])
  }

  function Insert<S>(r: Record<S>, records: seq<Record<S>>): seq<Record<S>> {
    if records == [] || NotLater(r, records[0]) then [r] + records
    else [records[0]] + Insert(r, records[1..])
  }

  function ByTime<S>(records: seq<Record<S>>): seq<Record<S>> {
    if records == [] then [] else Insert(records[0], ByTime(records[1..]))
  }

  lemma {:induction false} InsertMembers<S(!new)>(r: Record<S>, records: seq<Record<S>>)
    ensures |Insert(r, records)| == |records| + 1
    ensures forall x :: x in Insert(r, records) <==> x == r || x in records
  {
    if records != [] && !NotLater(r, records[0]) {
      InsertMembers(r, records[1..]);
      assert records == [records[0]] + records[1..];
    }
  }

  lemma {:induction false} InsertOrdered<S(!new)>(r: Record<S>, records: seq<Record<S>>)
    requires Chronological(records)
    ensures Chronological(Insert(r, records))
  {
    if records != [] && !NotLater(r, records[0]) {
      var rest := records[1..];
      InsertOrdered(r, rest);
      InsertMembers(r, rest);
      var inserted := Insert(r, rest);
      forall j | 0 <= j < |inserted| ensures NotLater(records[0], inserted[j]) {
        assert inserted[j] in inserted;
        if inserted[j] != r {
          var k :| 0 <= k < |rest| && rest[k] == inserted[j];
          assert NotLater(records[0], records[k + 1]);
        }
      }
    }
  }

  lemma {:induction false} InsertDistinct<S(!new)>(r: Record<S>, records: seq<Record<S>>)
    requires DistinctRecords(records) && forall x :: x in records ==> x.id != r.id
    ensures DistinctRecords(Insert(r, records))
  {
    if records != [] && !NotLater(r, records[0]) {
      var rest := records[1..];
      InsertDistinct(r, rest);
      InsertMembers(r, rest);
      var inserted := Insert(r, rest);
      forall j | 0 <= j < |inserted| ensures records[0].id != inserted[j].id {
        assert inserted[j] in inserted;
        if inserted[j] != r {
          var k :| 0 <= k < |rest| && rest[k] == inserted[j];
          assert records[0].id != records[k + 1].id;
        }
      }
    }
  }

  /** Sorting keeps the receipts, puts the oldest first and repeats none. */
  lemma {:induction false} ByTimeSorts<S(!new)>(records: seq<Record<S>>)
    ensures Chronological(ByTime(records))
    ensures |ByTime(records)| == |records|
    ensures forall x :: x in ByTime(records) <==> x in records
    ensures DistinctRecords(records) ==> DistinctRecords(ByTime(records))
  {
    if records != [] {
      var first, rest := records[0], records[1..];
      ByTimeSorts(rest);
      InsertMembers(first, ByTime(rest));
      InsertOrdered(first, ByTime(rest));
      assert records == [first] + rest;
      if DistinctRecords(records) {
        forall x | x in ByTime(rest) ensures x.id != first.id {
          assert x in rest;
          var j :| 0 <= j < |rest| && rest[j] == x;
          assert records[0].id != records[j + 1].id;
        }
        InsertDistinct(first, ByTime(rest));
      }
    }
  }
}
