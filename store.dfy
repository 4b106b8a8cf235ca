/**
 * The relational target: `vehicles` keyed by registration, `mot_tests` rows
 * whose surrogate id is their position (ids are handed out in insertion order),
 * and `defects` rows referring to a test by that id. Every statement the
 * loaders issue is one of the operations below; whether a statement succeeds
 * is decided by the caller.
 */
module Store {
  import opened Optional
  import opened Records
  import Ledger

  /** The columns of a `vehicles` row the loaders compute; pass-through columns are in `details`. */
  datatype VehicleRow = VehicleRow(
    registration: string,
    firstUsedDate: Option<string>,
    registrationDate: Option<string>,
    manufactureDate: Option<string>,
    engineSize: Scalar,
    lastMotTestDate: Option<string>,
    lastUpdateDate: Option<string>,
    details: string)

  datatype TestRow = TestRow(
    registration: string,
    completedDate: Option<string>,
    expiryDate: Option<string>,
    details: string)

  datatype DefectRow = DefectRow(
    testId: nat,
    dangerous: Option<bool>,
    text: Option<string>,
    kind: Option<string>)

  datatype Tables = Tables(
    vehicles: map<string, VehicleRow>,
    tests: seq<TestRow>,
    defects: seq<DefectRow>)

  /**
   * `registration = %s AND completed_date = %s` in SQL: a NULL completed date
   * compares unknown, so it never matches.
   */
  predicate Matches(row: TestRow, registration: string, completedDate: Option<string>) {
    completedDate.Some? && row.registration == registration && row.completedDate == completedDate
  }

  function FirstMatchFrom(tests: seq<TestRow>, registration: string, completedDate: Option<string>, from: nat): (r: Option<nat>)
    requires from <= |tests|
    ensures r.Some? ==> from <= r.value < |tests| && Matches(tests[r.value], registration, completedDate)
    ensures forall j :: from <= j < |tests| && (r.None? || j < r.value) ==> !Matches(tests[j], registration, completedDate)
    decreases |tests| - from
  {
    if from == |tests| then None
    else if Matches(tests[from], registration, completedDate) then Some(from)
    else FirstMatchFrom(tests, registration, completedDate, from + 1)
  }

  /**
   * `SELECT id FROM mot_tests WHERE registration = %s AND completed_date = %s
   * LIMIT 1`: the id of the first matching test, or nothing when none matches.
   */
  function FirstMatchingTest(tests: seq<TestRow>, registration: string, completedDate: Option<string>): (r: Option<nat>)
    ensures r.Some? ==> r.value < |tests| && Matches(tests[r.value], registration, completedDate)
    ensures forall j :: 0 <= j < |tests| && (r.None? || j < r.value) ==> !Matches(tests[j], registration, completedDate)
  {
    FirstMatchFrom(tests, registration, completedDate, 0)
  }

  /** The ids of every matching test, ascending: what a join on the pair produces. */
  function AllMatches(tests: seq<TestRow>, registration: string, completedDate: Option<string>): (r: seq<nat>)
    ensures forall k :: 0 <= k < |r| ==> r[k] < |tests| && Matches(tests[r[k]], registration, completedDate)
    ensures forall j :: 0 <= j < |tests| && Matches(tests[j], registration, completedDate) ==> j in r
    ensures forall k, l :: 0 <= k < l < |r| ==> r[k] < r[l]
    decreases |tests|
  {
    if tests == [] then []
    else
      var init := tests[..|tests| - 1];
      AllMatches(init, registration, completedDate)
        + (if Matches(tests[|tests| - 1], registration, completedDate) then [|tests| - 1] else [])
  }

  /**
   * The point lookup and the join resolve a parent the same way: the lookup
   * returns the first id the join would produce, and nothing exactly when the
   * join produces nothing.
   */
  lemma FirstMatchIsFirstJoined(tests: seq<TestRow>, registration: string, completedDate: Option<string>)
    ensures var all := AllMatches(tests, registration, completedDate);
      FirstMatchingTest(tests, registration, completedDate) ==
        if all == [] then None else Some(all[0])
  {
    var all := AllMatches(tests, registration, completedDate);
    var r := FirstMatchingTest(tests, registration, completedDate);
    if all != [] {
      assert Matches(tests[all[0]], registration, completedDate);
      assert r.Some?;
      assert r.value in all;
    }
  }

  // ---------------------------------------------------------------- vehicles

  /**
   * A multi-row `INSERT ... ON DUPLICATE KEY UPDATE` on `vehicles`: rows are
   * applied in order, a later row for the same registration replacing an
   * earlier one.
   */
  function UpsertVehicles(vehicles: map<string, VehicleRow>, rows: seq<VehicleRow>): map<string, VehicleRow>
    decreases |rows|
  {
    if rows == [] then vehicles
    else
      var last := rows[|rows| - 1];
      UpsertVehicles(vehicles, rows[..|rows| - 1])[last.registration := last]
  }

  /** The set of registrations a sequence of rows carries. */
  function Registrations(rows: seq<VehicleRow>): set<string> {
    set i | 0 <= i < |rows| :: rows[i].registration
  }

  /** The upsert is an overlay: the table's old rows, overridden by the batch's own map. */
  lemma {:induction false} UpsertVehiclesOverlay(vehicles: map<string, VehicleRow>, rows: seq<VehicleRow>)
    ensures UpsertVehicles(vehicles, rows) == vehicles + UpsertVehicles(map[], rows)
    ensures UpsertVehicles(map[], rows).Keys == Registrations(rows)
    decreases |rows|
  {
    if rows != [] {
      var init, last := rows[..|rows| - 1], rows[|rows| - 1];
      UpsertVehiclesOverlay(vehicles, init);
      assert rows == init + [last];
      RegistrationsAppend(init, [last]);
      assert Registrations([last]) == {last.registration};
    }
  }

  /** The registrations of a concatenation are those of either side. */
  lemma RegistrationsAppend(a: seq<VehicleRow>, b: seq<VehicleRow>)
    ensures Registrations(a + b) == Registrations(a) + Registrations(b)
  {
    forall x | x in Registrations(a + b) ensures x in Registrations(a) + Registrations(b) {
      var i :| 0 <= i < |a + b| && (a + b)[i].registration == x;
      if i < |a| { assert (a + b)[i] == a[i]; } else { assert (a + b)[i] == b[i - |a|]; }
    }
    forall x | x in Registrations(a) ensures x in Registrations(a + b) {
      var i :| 0 <= i < |a| && a[i].registration == x;
      assert (a + b)[i] == a[i];
    }
    forall x | x in Registrations(b) ensures x in Registrations(a + b) {
      var i :| 0 <= i < |b| && b[i].registration == x;
      assert (a + b)[|a| + i] == b[i];
    }
  }

  /** Upserting the same batch twice leaves the table as upserting it once. */
  lemma UpsertVehiclesIdempotent(vehicles: map<string, VehicleRow>, rows: seq<VehicleRow>)
    ensures UpsertVehicles(UpsertVehicles(vehicles, rows), rows) == UpsertVehicles(vehicles, rows)
  {
    UpsertVehiclesOverlay(vehicles, rows);
    UpsertVehiclesOverlay(UpsertVehicles(vehicles, rows), rows);
    var b := UpsertVehicles(map[], rows);
    assert (vehicles + b) + b == vehicles + b;
  }

  /**
   * After the upsert, the table holds exactly the old registrations plus the
   * batch's, and a registration the batch does not carry keeps its old row.
   */
  lemma UpsertVehiclesKeys(vehicles: map<string, VehicleRow>, rows: seq<VehicleRow>)
    ensures UpsertVehicles(vehicles, rows).Keys == vehicles.Keys + Registrations(rows)
    ensures forall k :: k in vehicles && k !in Registrations(rows) ==>
      UpsertVehicles(vehicles, rows)[k] == vehicles[k]
  {
    UpsertVehiclesOverlay(vehicles, rows);
  }

  /** The row stored for a registration the batch carries is the batch's last row for it. */
  lemma {:induction false} UpsertVehiclesLastWins(vehicles: map<string, VehicleRow>, rows: seq<VehicleRow>, i: nat)
    requires i < |rows|
    requires forall j :: i < j < |rows| ==> rows[j].registration != rows[i].registration
    ensures rows[i].registration in UpsertVehicles(vehicles, rows)
    ensures UpsertVehicles(vehicles, rows)[rows[i].registration] == rows[i]
    decreases |rows|
  {
    if i < |rows| - 1 {
      var init := rows[..|rows| - 1];
      UpsertVehiclesLastWins(vehicles, init, i);
    }
  }

  /**
   * Insert-only batches: when no row's registration is already stored (the
   * duplicate probe ran first), every stored row is left untouched.
   */
  lemma InsertNewVehiclesKeepsStored(vehicles: map<string, VehicleRow>, rows: seq<VehicleRow>)
    requires forall i :: 0 <= i < |rows| ==> rows[i].registration !in vehicles
    ensures forall k :: k in vehicles ==>
      k in UpsertVehicles(vehicles, rows) && UpsertVehicles(vehicles, rows)[k] == vehicles[k]
  {
    UpsertVehiclesKeys(vehicles, rows);
  }

  // ---------------------------------------------------------------- tests

  /**
   * The uniqueness the `mot_tests` upsert relies on: no two rows share a
   * non-null (registration, completed date) pair.
   */
  predicate KeysUnique(tests: seq<TestRow>) {
    forall i, j :: 0 <= i < j < |tests| && tests[i].completedDate.Some? ==>
      !Matches(tests[j], tests[i].registration, tests[i].completedDate)
  }

  /** Two rows carry the same natural key (and so the same answer to every lookup). */
  predicate SameKey(a: TestRow, b: TestRow) {
    a.registration == b.registration && a.completedDate == b.completedDate
  }

  /** One row of the MySQL `mot_tests` upsert: replace the row with the same non-null key, else add one. */
  function UpsertTest(tests: seq<TestRow>, row: TestRow): seq<TestRow> {
    match FirstMatchingTest(tests, row.registration, row.completedDate)
    case Some(id) => tests[id := row]
    case None => tests + [row]
  }

  function UpsertTests(tests: seq<TestRow>, rows: seq<TestRow>): seq<TestRow>
    decreases |rows|
  {
    if rows == [] then tests
    else UpsertTest(UpsertTests(tests, rows[..|rows| - 1]), rows[|rows| - 1])
  }

  /**
   * One upsert keeps keys unique, never moves or re-keys an existing row (so
   * ids already handed out keep pointing at the same key), and stores the row.
   */
  lemma UpsertTestProperties(tests: seq<TestRow>, row: TestRow)
    requires KeysUnique(tests)
    ensures var r := UpsertTest(tests, row);
      KeysUnique(r) && |tests| <= |r| <= |tests| + 1 && row in r &&
      forall i :: 0 <= i < |tests| ==> SameKey(r[i], tests[i])
  {
    var r := UpsertTest(tests, row);
    match FirstMatchingTest(tests, row.registration, row.completedDate)
    case Some(id) =>
      assert SameKey(r[id], tests[id]);
      forall i, j | 0 <= i < j < |r| && r[i].completedDate.Some?
        ensures !Matches(r[j], r[i].registration, r[i].completedDate)
      {
        assert SameKey(r[i], tests[i]) && SameKey(r[j], tests[j]);
      }
    case None =>
      forall i, j | 0 <= i < j < |r| && r[i].completedDate.Some?
        ensures !Matches(r[j], r[i].registration, r[i].completedDate)
      {
        if j == |tests| {
          assert !Matches(tests[i], row.registration, row.completedDate);
        }
      }
  }

  /** A whole batch upsert keeps keys unique and keeps every existing row's id and key. */
  lemma {:induction false} UpsertTestsProperties(tests: seq<TestRow>, rows: seq<TestRow>)
    requires KeysUnique(tests)
    ensures var r := UpsertTests(tests, rows);
      KeysUnique(r) && |tests| <= |r| <= |tests| + |rows| &&
      forall i :: 0 <= i < |tests| ==> SameKey(r[i], tests[i])
    decreases |rows|
  {
    if rows != [] {
      var mid := UpsertTests(tests, rows[..|rows| - 1]);
      UpsertTestsProperties(tests, rows[..|rows| - 1]);
      UpsertTestProperties(mid, rows[|rows| - 1]);
    }
  }

  /** The natural keys of the `mot_tests` rows that have a completed date. */
  function TestKeys(tests: seq<TestRow>): set<(string, string)> {
    set i | 0 <= i < |tests| && tests[i].completedDate.Some? :: (tests[i].registration, tests[i].completedDate.value)
  }

  lemma TestKeysAppend(a: seq<TestRow>, b: seq<TestRow>)
    ensures TestKeys(a + b) == TestKeys(a) + TestKeys(b)
  {
    forall x | x in TestKeys(a + b) ensures x in TestKeys(a) + TestKeys(b) {
      var i :| 0 <= i < |a + b| && (a + b)[i].completedDate.Some? &&
        x == ((a + b)[i].registration, (a + b)[i].completedDate.value);
      if i < |a| { assert (a + b)[i] == a[i]; } else { assert (a + b)[i] == b[i - |a|]; }
    }
    forall x | x in TestKeys(a) ensures x in TestKeys(a + b) {
      var i :| 0 <= i < |a| && a[i].completedDate.Some? && x == (a[i].registration, a[i].completedDate.value);
      assert (a + b)[i] == a[i];
    }
    forall x | x in TestKeys(b) ensures x in TestKeys(a + b) {
      var i :| 0 <= i < |b| && b[i].completedDate.Some? && x == (b[i].registration, b[i].completedDate.value);
      assert (a + b)[|a| + i] == b[i];
    }
  }

  /** A single row has its own key when it is dated, and none otherwise. */
  lemma TestKeysOne(row: TestRow)
    ensures TestKeys([row]) == if row.completedDate.Some? then {(row.registration, row.completedDate.value)} else {}
  {
    assert [row][0] == row;
  }

  /** One upsert adds the row's key, if it has one, and loses none. */
  lemma UpsertTestKeys(tests: seq<TestRow>, row: TestRow)
    ensures TestKeys(UpsertTest(tests, row)) == TestKeys(tests) + TestKeys([row])
  {
    TestKeysOne(row);
    match FirstMatchingTest(tests, row.registration, row.completedDate)
    case Some(id) =>
      var r := tests[id := row];
      assert Matches(tests[id], row.registration, row.completedDate);
      assert SameKey(r[id], tests[id]);
      forall x | x in TestKeys(r) ensures x in TestKeys(tests) {
        var i :| 0 <= i < |r| && r[i].completedDate.Some? && x == (r[i].registration, r[i].completedDate.value);
        assert SameKey(r[i], tests[i]);
      }
      forall x | x in TestKeys(tests) ensures x in TestKeys(r) {
        var i :| 0 <= i < |tests| && tests[i].completedDate.Some? &&
          x == (tests[i].registration, tests[i].completedDate.value);
        assert SameKey(r[i], tests[i]);
      }
      assert (row.registration, row.completedDate.value) in TestKeys(r) by { assert r[id] == row; }
    case None =>
      TestKeysAppend(tests, [row]);
  }

  /** A batch upsert adds exactly the batch's keys. */
  lemma {:induction false} UpsertTestsKeys(tests: seq<TestRow>, rows: seq<TestRow>)
    ensures TestKeys(UpsertTests(tests, rows)) == TestKeys(tests) + TestKeys(rows)
    decreases |rows|
  {
    if rows != [] {
      var init, last := rows[..|rows| - 1], rows[|rows| - 1];
      UpsertTestsKeys(tests, init);
      UpsertTestKeys(UpsertTests(tests, init), last);
      assert rows == init + [last];
      TestKeysAppend(init, [last]);
    }
  }

  /** How many rows have a completed date. */
  function DatedCount(tests: seq<TestRow>): nat
    decreases |tests|
  {
    if tests == [] then 0
    else DatedCount(tests[..|tests| - 1]) + (if tests[|tests| - 1].completedDate.Some? then 1 else 0)
  }

  /** Under unique keys there are exactly as many dated rows as keys: no key is stored twice. */
  lemma {:induction false} DatedCountIsKeys(tests: seq<TestRow>)
    requires KeysUnique(tests)
    ensures DatedCount(tests) == |TestKeys(tests)|
    decreases |tests|
  {
    if tests != [] {
      var init, last := tests[..|tests| - 1], tests[|tests| - 1];
      assert KeysUnique(init) by {
        forall i, j | 0 <= i < j < |init| && init[i].completedDate.Some?
          ensures !Matches(init[j], init[i].registration, init[i].completedDate)
        {
          assert init[i] == tests[i] && init[j] == tests[j];
        }
      }
      DatedCountIsKeys(init);
      assert tests == init + [last];
      TestKeysAppend(init, [last]);
      TestKeysOne(last);
      if last.completedDate.Some? {
        var k := (last.registration, last.completedDate.value);
        forall i | 0 <= i < |init| && init[i].completedDate.Some?
          ensures (init[i].registration, init[i].completedDate.value) != k
        {
          assert init[i] == tests[i];
          assert !Matches(tests[|tests| - 1], tests[i].registration, tests[i].completedDate);
        }
        assert k !in TestKeys(init);
      }
    }
  }

  /**
   * An insert that skips a row whose key a stored or earlier-inserted test
   * already has (`ON CONFLICT (registration, completed_date) DO NOTHING`).
   * A row without completed date never conflicts.
   */
  function InsertNewTests(tests: seq<TestRow>, rows: seq<TestRow>): seq<TestRow>
    decreases |rows|
  {
    if rows == [] then tests
    else
      var m := InsertNewTests(tests, rows[..|rows| - 1]);
      var last := rows[|rows| - 1];
      if FirstMatchingTest(m, last.registration, last.completedDate).Some? then m else m + [last]
  }

  /**
   * The keyed insert only appends, adds exactly the batch's keys and keeps
   * keys unique.
   */
  lemma {:induction false} InsertNewTestsProperties(tests: seq<TestRow>, rows: seq<TestRow>)
    ensures var r := InsertNewTests(tests, rows);
      |tests| <= |r| && r[..|tests|] == tests &&
      TestKeys(r) == TestKeys(tests) + TestKeys(rows) &&
      (KeysUnique(tests) ==> KeysUnique(r))
    decreases |rows|
  {
    if rows != [] {
      var init, last := rows[..|rows| - 1], rows[|rows| - 1];
      InsertNewTestsProperties(tests, init);
      var m := InsertNewTests(tests, init);
      assert rows == init + [last];
      TestKeysAppend(init, [last]);
      TestKeysOne(last);
      match FirstMatchingTest(m, last.registration, last.completedDate)
      case Some(id) =>
        assert Matches(m[id], last.registration, last.completedDate);
        assert (last.registration, last.completedDate.value) in TestKeys(m);
      case None =>
        var r := m + [last];
        TestKeysAppend(m, [last]);
        assert r[..|tests|] == m[..|tests|];
        if KeysUnique(m) {
          forall i, j | 0 <= i < j < |r| && r[i].completedDate.Some?
            ensures !Matches(r[j], r[i].registration, r[i].completedDate)
          {
            if j == |m| {
              assert !Matches(m[i], last.registration, last.completedDate);
            }
          }
        }
    }
  }

  /**
   * Inserting a batch a second time adds no dated row: the keys and, under
   * unique keys, the number of dated rows stay as after the first time.
   */
  lemma InsertNewTestsRerun(tests: seq<TestRow>, rows: seq<TestRow>)
    requires KeysUnique(tests)
    ensures var r1 := InsertNewTests(tests, rows);
      var r2 := InsertNewTests(r1, rows);
      TestKeys(r2) == TestKeys(r1) && KeysUnique(r2) && DatedCount(r2) == DatedCount(r1)
  {
    var r1 := InsertNewTests(tests, rows);
    InsertNewTestsProperties(tests, rows);
    InsertNewTestsProperties(r1, rows);
    DatedCountIsKeys(r1);
    DatedCountIsKeys(InsertNewTests(r1, rows));
  }

  // ---------------------------------------------------------------- defects

  /** Every defect refers to a test that exists. */
  predicate ParentsResolved(t: Tables) {
    forall i :: 0 <= i < |t.defects| ==> t.defects[i].testId < |t.tests|
  }

  /**
   * Parent links survive every statement the loaders issue: tests are only
   * ever added or updated in place, and new defects carry ids of existing
   * tests.
   */
  lemma ParentsSurvive(t: Tables, vehicles: seq<VehicleRow>, tests: seq<TestRow>, defects: seq<DefectRow>)
    requires ParentsResolved(t)
    requires KeysUnique(t.tests)
    requires forall i :: 0 <= i < |defects| ==> defects[i].testId < |t.tests|
    ensures ParentsResolved(t.(vehicles := UpsertVehicles(t.vehicles, vehicles)))
    ensures ParentsResolved(t.(tests := UpsertTests(t.tests, tests)))
    ensures ParentsResolved(t.(tests := t.tests + tests))
    ensures ParentsResolved(t.(defects := t.defects + defects))
  {
    UpsertTestsProperties(t.tests, tests);
  }

  // ---------------------------------------------------------------- the database

  /** Observable effects, in the order they happen. */
  datatype Event =
    | StatusWritten(filename: string, status: Ledger.Status)
    | Committed
    | RolledBack
    | TriggersSet(enabled: bool)

  /** `n` commits in a row. */
  function Commits(n: nat): (r: seq<Event>)
    ensures |r| == n && forall i :: 0 <= i < n ==> r[i] == Committed
  {
    seq(n, _ => Committed)
  }

  lemma CommitsAppend(a: nat, b: nat)
    ensures Commits(a) + Commits(b) == Commits(a + b)
  {
  }

  /** The database as a value: data tables, import ledger, and the events so far. */
  datatype DbState = DbState(tables: Tables, log: Ledger.Log, events: seq<Event>)

  /**
   * One database server: the data tables as the open transaction sees them,
   * the tables as last committed, the import ledger, and whether triggers
   * fire. The journal records, as a proof device, every ledger write, commit,
   * rollback and trigger switch.
   */
  class Database {
    var tables: Tables
    var committed: Tables
    var importLog: Ledger.Log
    var triggersEnabled: bool
    ghost var journal: seq<Event>

    ghost function State(): DbState
      reads this
    {
      DbState(tables, importLog, journal)
    }

    constructor (tables0: Tables, log0: Ledger.Log)
      ensures tables == tables0 && committed == tables0 && importLog == log0
      ensures triggersEnabled && journal == []
    {
      tables := tables0;
      committed := tables0;
      importLog := log0;
      triggersEnabled := true;
      journal := [];
    }

    /** `mark_file_status`: an upsert on `import_log`, committed on its own connection. */
    method MarkFileStatus(filename: string, status: Ledger.Status)
      modifies this
      ensures importLog == old(importLog)[filename := status]
      ensures tables == old(tables) && committed == old(committed) && triggersEnabled == old(triggersEnabled)
      ensures journal == old(journal) + [StatusWritten(filename, status)]
    {
      importLog := importLog[filename := status];
      journal := journal + [StatusWritten(filename, status)];
    }

    /** `is_file_imported`: changes nothing. */
    method IsFileImported(filename: string) returns (imported: bool)
      ensures imported <==> Ledger.IsFileImported(importLog, filename)
    {
      imported := filename in importLog && importLog[filename] == Ledger.Completed;
    }

    /** One statement's effect on the open transaction. */
    method Execute(next: Tables)
      modifies this
      ensures tables == next
      ensures committed == old(committed) && importLog == old(importLog)
      ensures triggersEnabled == old(triggersEnabled) && journal == old(journal)
    {
      tables := next;
    }

    method Commit()
      modifies this
      ensures committed == old(tables) && tables == old(tables)
      ensures importLog == old(importLog) && triggersEnabled == old(triggersEnabled)
      ensures journal == old(journal) + [Committed]
    {
      committed := tables;
      journal := journal + [Committed];
    }

    method Rollback()
      modifies this
      ensures tables == old(committed) && committed == old(committed)
      ensures importLog == old(importLog) && triggersEnabled == old(triggersEnabled)
      ensures journal == old(journal) + [RolledBack]
    {
      tables := committed;
      journal := journal + [RolledBack];
    }

    /** `ALTER TABLE ... ENABLE/DISABLE TRIGGER ALL` on the three data tables, committed. */
    method SetTriggers(enabled: bool)
      modifies this
      ensures triggersEnabled == enabled
      ensures tables == old(tables) && committed == old(committed) && importLog == old(importLog)
      ensures journal == old(journal) + [TriggersSet(enabled)]
    {
      triggersEnabled := enabled;
      journal := journal + [TriggersSet(enabled)];
    }
  }
}
