/** The relay's byte and record accounting, kept by triggers. */
module RelayUsage {
  import opened Wrappers

  const ROW_OVERHEAD := 256

  /** One record of a counted table, with the bytes of all its counted columns; a null column
    has none. */
  datatype Row = Row(table: nat, scope: string, cellBytes: nat)

  /** What is counted. */
  datatype Measure = Bytes | Records

  datatype Totals = Totals(bytes: int, records: int) {
    function Of(m: Measure): int {
      if m == Bytes then bytes else records
    }

    function Plus(other: Totals): Totals {
      Totals(bytes + other.bytes, records + other.records)
    }

    function Minus(other: Totals): Totals {
      Totals(bytes - other.bytes, records - other.records)
    }

    /** The check constraint of the usage table. */
    predicate Allowed() {
      bytes >= 0 && records >= 0
    }
  }

  /** Usage by scope; the empty scope id holds the total. */
  type Usage = map<string, Totals>

  const TOTAL := ""

  function Weight(r: Row): Totals {
    Totals(ROW_OVERHEAD + r.cellBytes, 1)
  }

  function Weigh(m: Measure, r: Row): nat {
    if m == Bytes then ROW_OVERHEAD + r.cellBytes else 1
  }

  // ---------- recomputed sums ----------

  function Share(m: Measure, r: Row, scope: string): nat {
    if r.scope == scope then Weigh(m, r) else 0
  }

  function ScopeSum(m: Measure, rows: seq<Row>, scope: string): nat {
    if rows == [] then 0 else Share(m, rows[0], scope) + ScopeSum(m, rows[1..], scope)
  }

  function FullSum(m: Measure, rows: seq<Row>): nat {
    if rows == [] then 0 else Weigh(m, rows[0]) + FullSum(m, rows[1..])
  }

  function UsageOf(u: Usage, scope: string): Totals {
    if scope in u then u[scope] else Totals(0, 0)
  }

  function Counter(m: Measure, u: Usage, scope: string): int {
    UsageOf(u, scope).Of(m)
  }

  /** Every counter equals the sum over the rows. */
  ghost predicate Agrees(u: Usage, rows: seq<Row>) {
    && TOTAL in u
    && (forall m :: Counter(m, u, TOTAL) == FullSum(m, rows))
    && (forall m, s :: s != TOTAL ==> Counter(m, u, s) == ScopeSum(m, rows, s))
  }

  predicate NamedScopes(rows: seq<Row>) {
    forall r :: r in rows ==> r.scope != TOTAL
  }

  predicate AllAllowed(u: Usage) {
    forall s :: s in u ==> u[s].Allowed()
  }

  lemma AgreesAllowed(u: Usage, rows: seq<Row>)
    requires Agrees(u, rows)
    ensures AllAllowed(u)
  {
    forall s | s in u ensures u[s].Allowed() {
      assert Counter(Bytes, u, s) >= 0 && Counter(Records, u, s) >= 0;
    }
  }

  lemma {:induction false} SumsConcat(m: Measure, a: seq<Row>, b: seq<Row>, scope: string)
    ensures ScopeSum(m, a + b, scope) == ScopeSum(m, a, scope) + ScopeSum(m, b, scope)
    ensures FullSum(m, a + b) == FullSum(m, a) + FullSum(m, b)
  {
    if a == [] {
      assert a + b == b;
    } else {
      assert (a + b)[1..] == a[1..] + b;
      SumsConcat(m, a[1..], b, scope);
    }
  }

  function WithoutRow(rows: seq<Row>, i: nat): seq<Row>
    requires i < |rows|
  {
    rows[..i] + rows[i + 1..]
  }

  lemma SumsWithout(m: Measure, rows: seq<Row>, i: nat, scope: string)
    requires i < |rows|
    ensures ScopeSum(m, rows, scope) == ScopeSum(m, WithoutRow(rows, i), scope) + Share(m, rows[i], scope)
    ensures FullSum(m, rows) == FullSum(m, WithoutRow(rows, i)) + Weigh(m, rows[i])
  {
    assert rows == rows[..i] + ([rows[i]] + rows[i + 1..]);
    SumsConcat(m, rows[..i], [rows[i]] + rows[i + 1..], scope);
    SumsConcat(m, [rows[i]], rows[i + 1..], scope);
    SumsConcat(m, rows[..i], rows[i + 1..], scope);
  }

  lemma SumsReplaced(m: Measure, rows: seq<Row>, i: nat, r: Row, scope: string)
    requires i < |rows|
    ensures ScopeSum(m, rows[i := r], scope) == ScopeSum(m, WithoutRow(rows, i), scope) + Share(m, r, scope)
    ensures FullSum(m, rows[i := r]) == FullSum(m, WithoutRow(rows, i)) + Weigh(m, r)
  {
    SumsWithout(m, rows[i := r], i, scope);
    assert WithoutRow(rows[i := r], i) == WithoutRow(rows, i);
  }

  // ---------- what the triggers do to the usage table ----------

  function Upserted(u: Usage, r: Row): Usage {
    u[r.scope := UsageOf(u, r.scope).Plus(Weight(r))]
  }

  function TotalRaised(u: Usage, r: Row): Usage {
    if TOTAL in u then u[TOTAL := u[TOTAL].Plus(Weight(r))] else u
  }

  /** After an insert: an upsert of the scope, then an update of the total. */
  function Added(u: Usage, r: Row): Usage {
    TotalRaised(Upserted(u, r), r)
  }

  /** After a delete: one update of the rows of the scope and of the total. */
  function Removed(u: Usage, r: Row): Usage {
    map s | s in u :: if s == TOTAL || s == r.scope then u[s].Minus(Weight(r)) else u[s]
  }

  /** Adding a row keeps the counters right exactly when its scope id is not empty: with the
    empty id the total would count it twice. */
  lemma AddedAgreesIff(u: Usage, rows: seq<Row>, r: Row)
    requires Agrees(u, rows)
    ensures Agrees(Added(u, r), rows + [r]) <==> r.scope != TOTAL
  {
    forall m ensures FullSum(m, rows + [r]) == FullSum(m, rows) + Weigh(m, r) {
      SumsConcat(m, rows, [r], TOTAL);
    }
    if r.scope != TOTAL {
      forall m, s | s != TOTAL ensures Counter(m, Added(u, r), s) == ScopeSum(m, rows + [r], s) {
        SumsConcat(m, rows, [r], s);
        assert Counter(m, u, s) == ScopeSum(m, rows, s);
      }
    } else {
      assert Counter(Records, Added(u, r), TOTAL) == Counter(Records, u, TOTAL) + 2;
    }
  }

  lemma RemovedAgrees(u: Usage, rows: seq<Row>, i: nat)
    requires Agrees(u, rows) && i < |rows| && rows[i].scope != TOTAL
    ensures Agrees(Removed(u, rows[i]), WithoutRow(rows, i))
  {
    forall m ensures FullSum(m, rows) == FullSum(m, WithoutRow(rows, i)) + Weigh(m, rows[i]) {
      SumsWithout(m, rows, i, TOTAL);
    }
    forall m, s | s != TOTAL ensures Counter(m, Removed(u, rows[i]), s) == ScopeSum(m, WithoutRow(rows, i), s) {
      SumsWithout(m, rows, i, s);
      assert Counter(m, u, s) == ScopeSum(m, rows, s);
    }
  }

  /** The order of rows plays no part, so a replaced row may be counted as an added one. */
  lemma AgreesReplaced(u: Usage, rows: seq<Row>, i: nat, r: Row)
    requires i < |rows| && Agrees(u, WithoutRow(rows, i) + [r])
    ensures Agrees(u, rows[i := r])
  {
    forall m, s
      ensures ScopeSum(m, rows[i := r], s) == ScopeSum(m, WithoutRow(rows, i) + [r], s)
      ensures FullSum(m, rows[i := r]) == FullSum(m, WithoutRow(rows, i) + [r])
    {
      SumsReplaced(m, rows, i, r, s);
      SumsConcat(m, WithoutRow(rows, i), [r], s);
    }
    forall m, s | s != TOTAL ensures Counter(m, u, s) == ScopeSum(m, rows[i := r], s) {
      assert ScopeSum(m, WithoutRow(rows, i) + [r], s) == ScopeSum(m, rows[i := r], s);
    }
    forall m ensures Counter(m, u, TOTAL) == FullSum(m, rows[i := r]) {
      assert ScopeSum(m, rows[i := r], TOTAL) == ScopeSum(m, WithoutRow(rows, i) + [r], TOTAL);
    }
  }

  // ---------- the first count ----------

  function GroupSum(m: Measure, rows: seq<Row>, table: nat, scope: string): nat {
    if rows == [] then 0
    else (if rows[0].table == table then Share(m, rows[0], scope) else 0) + GroupSum(m, rows[1..], table, scope)
  }

  /** The sum over the rows of the first tables. */
  function FirstTables(m: Measure, rows: seq<Row>, tables: nat, scope: string): nat {
    if rows == [] then 0
    else (if rows[0].table < tables then Share(m, rows[0], scope) else 0) + FirstTables(m, rows[1..], tables, scope)
  }

  function GroupScopes(rows: seq<Row>, table: nat): set<string> {
    set r | r in rows && r.table == table :: r.scope
  }

  lemma {:induction false} GroupsAddUp(m: Measure, rows: seq<Row>, table: nat, scope: string)
    ensures FirstTables(m, rows, table + 1, scope) == FirstTables(m, rows, table, scope) + GroupSum(m, rows, table, scope)
  {
    if rows != [] {
      GroupsAddUp(m, rows[1..], table, scope);
    }
  }

  lemma {:induction false} NoGroupNoSum(m: Measure, rows: seq<Row>, table: nat, scope: string)
    requires forall r :: r in rows && r.table == table ==> r.scope != scope
    ensures GroupSum(m, rows, table, scope) == 0
  {
    if rows != [] {
      assert rows[0] in rows;
      NoGroupNoSum(m, rows[1..], table, scope);
    }
  }

  lemma {:induction false} AllTables(m: Measure, rows: seq<Row>, tables: nat, scope: string)
    requires forall r :: r in rows ==> r.table < tables
    ensures FirstTables(m, rows, tables, scope) == ScopeSum(m, rows, scope)
  {
    if rows != [] {
      assert rows[0] in rows;
      AllTables(m, rows[1..], tables, scope);
    }
  }

  lemma {:induction false} NoTables(m: Measure, rows: seq<Row>, scope: string)
    ensures FirstTables(m, rows, 0, scope) == 0
  {
    if rows != [] {
      NoTables(m, rows[1..], scope);
    }
  }

  function GroupTotals(rows: seq<Row>, table: nat, scope: string): Totals {
    Totals(GroupSum(Bytes, rows, table, scope), GroupSum(Records, rows, table, scope))
  }

  /** One grouped insert: every group of one table is added to its scope. */
  method CountTable(u: Usage, rows: seq<Row>, table: nat) returns (counted: Usage)
    ensures forall m, s :: Counter(m, counted, s) == Counter(m, u, s) + GroupSum(m, rows, table, s)
    ensures TOTAL in u ==> TOTAL in counted
  {
    var scopes := GroupScopes(rows, table);
    var open := scopes;
    counted := u;
    while open != {}
      invariant open <= scopes && (TOTAL in u ==> TOTAL in counted)
      invariant forall m, s :: s in open || s !in scopes ==> Counter(m, counted, s) == Counter(m, u, s)
      invariant forall m, s :: s in scopes && s !in open ==> Counter(m, counted, s) == Counter(m, u, s) + GroupSum(m, rows, table, s)
      decreases open
    {
      var s :| s in open;
      counted := counted[s := UsageOf(counted, s).Plus(GroupTotals(rows, table, s))];
      open := open - {s};
    }
    forall m, s | s !in scopes ensures GroupSum(m, rows, table, s) == 0 {
      forall r | r in rows && r.table == table ensures r.scope != s {
        assert r.scope in scopes;
      }
      NoGroupNoSum(m, rows, table, s);
    }
  }

  /** The sum of the counters of some scopes. */
  ghost function SumOver(m: Measure, u: Usage, scopes: set<string>): int {
    if scopes == {} then 0
    else
      var s :| s in scopes;
      Counter(m, u, s) + SumOver(m, u, scopes - {s})
  }

  lemma {:induction false} SumOverTakes(m: Measure, u: Usage, scopes: set<string>, s: string)
    requires s in scopes
    ensures SumOver(m, u, scopes) == Counter(m, u, s) + SumOver(m, u, scopes - {s})
    decreases |scopes|
  {
    var t :| t in scopes && SumOver(m, u, scopes) == Counter(m, u, t) + SumOver(m, u, scopes - {t});
    if s != t {
      SumOverTakes(m, u, scopes - {t}, s);
      SumOverTakes(m, u, scopes - {s}, t);
      assert scopes - {t} - {s} == scopes - {s} - {t};
    }
  }

  function Outside(rows: seq<Row>, scope: string): seq<Row> {
    if rows == [] then []
    else if rows[0].scope != scope then [rows[0]] + Outside(rows[1..], scope)
    else Outside(rows[1..], scope)
  }

  lemma {:induction false} OutsideSums(m: Measure, rows: seq<Row>, scope: string, other: string)
    ensures FullSum(m, rows) == ScopeSum(m, rows, scope) + FullSum(m, Outside(rows, scope))
    ensures other != scope ==> ScopeSum(m, Outside(rows, scope), other) == ScopeSum(m, rows, other)
    ensures forall r :: r in Outside(rows, scope) <==> r in rows && r.scope != scope
  {
    if rows != [] {
      OutsideSums(m, rows[1..], scope, other);
      assert rows == [rows[0]] + rows[1..];
    }
  }

  lemma SomeRow(rows: seq<Row>)
    ensures rows == [] || exists r :: r in rows
  {
    assert rows == [] || rows[0] in rows;
  }

  /** Adding up the scopes is adding up all rows. */
  lemma {:induction false} ScopesAddUp(m: Measure, u: Usage, scopes: set<string>, rows: seq<Row>)
    requires forall r :: r in rows ==> r.scope in scopes
    requires forall s :: s in scopes ==> Counter(m, u, s) == ScopeSum(m, rows, s)
    ensures SumOver(m, u, scopes) == FullSum(m, rows)
    decreases |scopes|
  {
    if scopes == {} {
      SomeRow(rows);
    } else {
      var s :| s in scopes;
      SumOverTakes(m, u, scopes, s);
      OutsideSums(m, rows, s, s);
      forall t | t in scopes - {s} ensures Counter(m, u, t) == ScopeSum(m, Outside(rows, s), t) {
        OutsideSums(m, rows, s, t);
      }
      ScopesAddUp(m, u, scopes - {s}, Outside(rows, s));
    }
  }

  method SumScopes(u: Usage) returns (sum: Totals)
    ensures forall m :: sum.Of(m) == SumOver(m, u, u.Keys - {TOTAL})
  {
    sum := Totals(0, 0);
    var open := u.Keys - {TOTAL};
    while open != {}
      invariant open <= u.Keys
      invariant forall m :: SumOver(m, u, u.Keys - {TOTAL}) == sum.Of(m) + SumOver(m, u, open)
      decreases open
    {
      var s :| s in open;
      forall m ensures SumOver(m, u, open) == Counter(m, u, s) + SumOver(m, u, open - {s}) {
        SumOverTakes(m, u, open, s);
      }
      sum := sum.Plus(u[s]);
      open := open - {s};
    }
  }

  // ---------- the relay ----------

  /** A change of one row of a counted table. */
  datatype Change = Insert(row: Row) | Update(index: nat, row: Row) | Delete(index: nat) {
    predicate Fits(rows: seq<Row>) {
      match this
      case Insert(r) => r.scope != TOTAL
      case Update(i, r) => i < |rows| && r.scope != TOTAL
      case Delete(i) => i < |rows|
    }

    function Applied(rows: seq<Row>): seq<Row>
      requires Fits(rows)
    {
      match this
      case Insert(r) => rows + [r]
      case Update(i, r) => rows[i := r]
      case Delete(i) => WithoutRow(rows, i)
    }
  }

  /** The counted tables and their usage table. */
  class RelayStorage {
    var rows: seq<Row>
    var usage: Usage

    ghost predicate Valid()
      reads this
    {
      NamedScopes(rows) && Agrees(usage, rows)
    }

    /** Counts existing rows once, before the triggers are installed. */
    constructor (rows: seq<Row>, tables: nat)
      requires NamedScopes(rows) && forall r :: r in rows ==> r.table < tables
      ensures Valid() && this.rows == rows
    {
      var u: Usage := map[TOTAL := Totals(0, 0)];
      forall m, s ensures FirstTables(m, rows, 0, s) == 0 {
        NoTables(m, rows, s);
      }
      for t := 0 to tables
        invariant TOTAL in u && forall m, s :: Counter(m, u, s) == FirstTables(m, rows, t, s)
      {
        forall m, s ensures FirstTables(m, rows, t + 1, s) == FirstTables(m, rows, t, s) + GroupSum(m, rows, t, s) {
          GroupsAddUp(m, rows, t, s);
        }
        u := CountTable(u, rows, t);
      }
      forall m, s ensures Counter(m, u, s) == ScopeSum(m, rows, s) {
        AllTables(m, rows, tables, s);
      }
      var sum := SumScopes(u);
      CountedAll(u, rows, sum);
      this.rows, usage := rows, u[TOTAL := sum];
    }

    /** The insert trigger: two statements under the check constraint. */
    method RunAdd(r: Row) returns (violated: bool)
      modifies this`usage
      ensures violated <==> !AllAllowed(Upserted(old(usage), r)) || !AllAllowed(Added(old(usage), r))
      ensures usage == if violated then old(usage) else Added(old(usage), r)
    {
      var upserted := Upserted(usage, r);
      var raised := TotalRaised(upserted, r);
      violated := !AllAllowed(upserted) || !AllAllowed(raised);
      if !violated {
        usage := raised;
      }
    }

    /** The delete trigger. */
    method RunRemove(r: Row) returns (violated: bool)
      modifies this`usage
      ensures violated <==> !AllAllowed(Removed(old(usage), r))
      ensures usage == if violated then old(usage) else Removed(old(usage), r)
    {
      var next := Removed(usage, r);
      violated := !AllAllowed(next);
      if !violated {
        usage := next;
      }
    }

    /** A change and its trigger in one transaction: the check constraint never fires, not even
      between the two halves of an update, and the counters stay equal to the sums. */
    method Execute(change: Change) returns (violated: bool)
      requires Valid() && change.Fits(rows)
      modifies this
      ensures Valid() && !violated && rows == change.Applied(old(rows))
    {
      match change
      case Insert(r) =>
        AddedAgreesIff(usage, rows, r);
        AgreesAllowed(usage, rows);
        AgreesAllowed(Added(usage, r), rows + [r]);
        violated := RunAdd(r);
        rows := rows + [r];
      case Delete(i) =>
        assert rows[i] in rows;
        RemovedAgrees(usage, rows, i);
        AgreesAllowed(Removed(usage, rows[i]), WithoutRow(rows, i));
        violated := RunRemove(rows[i]);
        rows := WithoutRow(rows, i);
      case Update(i, r) =>
        assert rows[i] in rows;
        ghost var rest := WithoutRow(rows, i);
        RemovedAgrees(usage, rows, i);
        AgreesAllowed(Removed(usage, rows[i]), rest);
        violated := RunRemove(rows[i]);
        AddedAgreesIff(usage, rest, r);
        AgreesAllowed(Added(usage, r), rest + [r]);
        violated := RunAdd(r);
        AgreesReplaced(usage, rows, i, r);
        rows := rows[i := r];
    }

    /** The end of a transaction that failed. */
    method Rollback(rows: seq<Row>, usage: Usage)
      requires NamedScopes(rows) && Agrees(usage, rows)
      modifies this
      ensures Valid() && this.rows == rows && this.usage == usage
    {
      this.rows, this.usage := rows, usage;
    }

    /** Usage of one scope, or of everything. */
    method Read(scope: Option<string>) returns (t: Totals)
      requires Valid() && (scope.Some? ==> scope.value != TOTAL)
      ensures scope.None? ==> forall m :: t.Of(m) == FullSum(m, rows)
      ensures scope.Some? ==> forall m :: t.Of(m) == ScopeSum(m, rows, scope.value)
    {
      assert forall m :: Counter(m, usage, TOTAL) == FullSum(m, rows);
      assert scope.Some? ==> forall m :: Counter(m, usage, scope.value) == ScopeSum(m, rows, scope.value);
      t := UsageOf(usage, if scope.None? then TOTAL else scope.value);
    }
  }

  lemma CountedAll(u: Usage, rows: seq<Row>, sum: Totals)
    requires TOTAL in u && NamedScopes(rows) && forall m, s :: Counter(m, u, s) == ScopeSum(m, rows, s)
    requires forall m :: sum.Of(m) == SumOver(m, u, u.Keys - {TOTAL})
    ensures Agrees(u[TOTAL := sum], rows)
  {
    forall r | r in rows ensures r.scope in u.Keys - {TOTAL} {
      RowIsCounted(rows, r);
      assert Counter(Records, u, r.scope) == ScopeSum(Records, rows, r.scope);
    }
    forall m ensures sum.Of(m) == FullSum(m, rows) {
      ScopesAddUp(m, u, u.Keys - {TOTAL}, rows);
    }
    forall m, s | s != TOTAL ensures Counter(m, u[TOTAL := sum], s) == ScopeSum(m, rows, s) {
      assert Counter(m, u, s) == ScopeSum(m, rows, s);
    }
  }

  lemma {:induction false} RowIsCounted(rows: seq<Row>, r: Row)
    requires r in rows
    ensures ScopeSum(Records, rows, r.scope) > 0
  {
    if rows[0] != r {
      RowIsCounted(rows[1..], r);
    }
  }

  function AfterChanges(rows: seq<Row>, changes: seq<Change>): Option<seq<Row>>
    decreases |changes|
  {
    if changes == [] then Some(rows)
    else if !changes[0].Fits(rows) then None
    else AfterChanges(changes[0].Applied(rows), changes[1..])
  }

  /** After any run of inserts, updates, moves between scopes and deletes, from any rows that
    were there before the accounting, no constraint has fired and all counters are exact. */
  method AnyRun(existing: seq<Row>, tables: nat, changes: seq<Change>) returns (storage: RelayStorage)
    requires NamedScopes(existing) && (forall r :: r in existing ==> r.table < tables) && AfterChanges(existing, changes).Some?
    ensures storage.Valid() && AfterChanges(existing, changes) == Some(storage.rows)
  {
    storage := new RelayStorage(existing, tables);
    assert changes[0..] == changes;
    for i := 0 to |changes|
      invariant storage.Valid() && fresh(storage) && AfterChanges(existing, changes) == AfterChanges(storage.rows, changes[i..])
    {
      assert changes[i..][1..] == changes[i + 1..];
      var violated := storage.Execute(changes[i]);
    }
  }
}
