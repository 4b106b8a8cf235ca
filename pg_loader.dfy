/**
 * `PG_initial_loader.py`, row mode (`process_file`): the PostgreSQL loader
 * that counts every line read, inserts only vehicles whose registration is
 * not stored yet, plain-inserts tests, and resolves each buffered defect to a
 * test id by a point lookup before inserting it.
 *
 * PostgreSQL aborts a transaction at its first failed statement: every later
 * statement of the flush fails too, and the final `commit` rolls back. A
 * defect lookup issued in an aborted transaction raises out of the loop,
 * which records FAILED.
 */
module PgLoader {
  import opened Optional
  import opened Records
  import opened Store
  import MySqlBatch
  import Timestamps
  import Ledger

  /** `BATCH_SIZE`. */
  const BatchSize: nat := 1000

  // ---------------------------------------------------------------- engine size

  predicate IsDigit(c: char) {
    '0' <= c <= '9'
  }

  predicate AllDigits(d: string) {
    forall i :: 0 <= i < |d| ==> IsDigit(d[i])
  }

  /** The strings `int()` accepts in this model: an optional sign, then at least one digit. */
  predicate IsDecimal(s: string) {
    var d := if |s| > 0 && (s[0] == '+' || s[0] == '-') then s[1..] else s;
    |d| > 0 && AllDigits(d)
  }

  function DigitsValue(d: string): nat
    requires AllDigits(d)
    decreases |d|
  {
    if d == [] then 0
    else DigitsValue(d[..|d| - 1]) * 10 + (d[|d| - 1] as int - '0' as int)
  }

  function DecimalValue(s: string): int
    requires IsDecimal(s)
  {
    if s[0] == '-' then -(DigitsValue(s[1..]) as int)
    else if s[0] == '+' then DigitsValue(s[1..])
    else DigitsValue(s)
  }

  /**
   * `int(v.get("engineSize")) if v.get("engineSize") else None`, with a
   * `ValueError` turned into `None`: a falsy value (null, 0, "") gives NULL,
   * an integer is kept, a decimal string is parsed, anything else gives NULL.
   */
  function CoerceEngineSize(x: Scalar): (r: Scalar)
    ensures r.Null? || r.Int?
  {
    match x
    case Null => Null
    case Int(n) => if n == 0 then Null else Int(n)
    case Str(s) => if s == "" then Null else if IsDecimal(s) then Int(DecimalValue(s)) else Null
  }

  function DigitChar(k: nat): char
    requires k < 10
  {
    ('0' as int + k) as char
  }

  /** The decimal rendering of a natural number, most significant digit first. */
  function Digits(n: nat): (d: string)
    ensures |d| > 0 && AllDigits(d)
    decreases n
  {
    if n < 10 then [DigitChar(n)] else Digits(n / 10) + [DigitChar(n % 10)]
  }

  lemma {:induction false} DigitsRoundTrip(n: nat)
    ensures DigitsValue(Digits(n)) == n
    decreases n
  {
    if n >= 10 {
      DigitsRoundTrip(n / 10);
      var d := Digits(n);
      assert d[..|d| - 1] == Digits(n / 10);
    }
  }

  /**
   * The coercion: falsy values become NULL, a non-zero integer is kept, the
   * decimal text of a number parses back to that number (with either sign),
   * and a string that is not decimal becomes NULL.
   */
  lemma CoerceEngineSizeProperties(x: Scalar, n: nat)
    ensures x.Null? || x == Int(0) || x == Str("") ==> CoerceEngineSize(x) == Null
    ensures x.Int? && x.n != 0 ==> CoerceEngineSize(x) == x
    ensures x.Str? && x.s != "" && !IsDecimal(x.s) ==> CoerceEngineSize(x) == Null
    ensures CoerceEngineSize(Str(Digits(n))) == Int(n)
    ensures CoerceEngineSize(Str("-" + Digits(n))) == Int(-(n as int))
  {
    DigitsRoundTrip(n);
    var d := Digits(n);
    assert ("-" + d)[1..] == d;
    assert IsDecimal(d) by {
      assert d[0] != '+' && d[0] != '-' by { assert IsDigit(d[0]); }
    }
  }

  // ---------------------------------------------------------------- expansion

  predicate AllDefectObjects(items: seq<DefectItem>) {
    forall j :: 0 <= j < |items| ==> items[j].DefectObject?
  }

  /** Every test is an object and so is every defect of every test. */
  predicate Expandable(items: seq<TestItem>) {
    forall i :: 0 <= i < |items| ==> items[i].TestObject? && AllDefectObjects(items[i].test.defects)
  }

  /** A buffered defect: its vehicle's registration, its test's raw completed date, the defect. */
  datatype HeldDefect = HeldDefect(registration: string, completedDate: Option<string>, defect: Defect)

  /** What walking one vehicle's tests appended, and whether it got to the end. */
  datatype Expansion = Expansion(tests: seq<MySqlBatch.TestRecord>, defects: seq<HeldDefect>, complete: bool)

  /**
   * The `defects` loop of one test: a defect that is not an object raises
   * (`**d` on a non-mapping) before it is appended.
   */
  function ExpandDefects(registration: string, completedDate: Option<string>, items: seq<DefectItem>)
    : (r: (seq<HeldDefect>, bool))
    ensures |r.0| <= |items|
    ensures forall j :: 0 <= j < |r.0| ==>
      items[j].DefectObject? && r.0[j] == HeldDefect(registration, completedDate, items[j].defect)
    ensures r.1 ==> |r.0| == |items|
    ensures !r.1 ==> |r.0| < |items| && items[|r.0|].DefectOther?
    decreases |items|
  {
    if items == [] then ([], true)
    else
      var x := ExpandDefects(registration, completedDate, items[..|items| - 1]);
      if !x.1 then x
      else match items[|items| - 1]
        case DefectOther => (x.0, false)
        case DefectObject(d) => (x.0 + [HeldDefect(registration, completedDate, d)], true)
  }

  /**
   * The `motTests` loop: a test that is not an object raises (`**mt`) before
   * it is appended; a test is appended before its defects are walked.
   */
  function Expand(registration: string, items: seq<TestItem>): (x: Expansion)
    ensures x.complete ==> |x.tests| == |items|
    ensures |x.tests| <= |items|
    ensures forall i :: 0 <= i < |x.tests| ==>
      items[i].TestObject? && x.tests[i] == MySqlBatch.TestRecord(registration, items[i].test)
    ensures forall j :: 0 <= j < |x.defects| ==> x.defects[j].registration == registration
    decreases |items|
  {
    if items == [] then Expansion([], [], true)
    else
      var x := Expand(registration, items[..|items| - 1]);
      if !x.complete then x
      else match items[|items| - 1]
        case TestOther => x.(complete := false)
        case TestObject(t) =>
          var d := ExpandDefects(registration, t.completedDate, t.defects);
          Expansion(x.tests + [MySqlBatch.TestRecord(registration, t)], x.defects + d.0, d.1)
  }

  /** The `defects` loop runs to its end exactly when every defect is an object. */
  lemma ExpandDefectsCompleteIff(registration: string, completedDate: Option<string>, items: seq<DefectItem>)
    ensures ExpandDefects(registration, completedDate, items).1 <==> AllDefectObjects(items)
  {
  }

  /** The `motTests` loop runs to its end exactly when every test and every defect is an object. */
  lemma {:induction false} ExpandCompleteIff(registration: string, items: seq<TestItem>)
    ensures Expand(registration, items).complete <==> Expandable(items)
    decreases |items|
  {
    if items != [] {
      var init, last := items[..|items| - 1], items[|items| - 1];
      ExpandCompleteIff(registration, init);
      if last.TestObject? {
        ExpandDefectsCompleteIff(registration, last.test.completedDate, last.test.defects);
      }
      if Expandable(items) {
        forall i | 0 <= i < |init| ensures init[i].TestObject? && AllDefectObjects(init[i].test.defects) {
          assert init[i] == items[i];
        }
      }
      if Expandable(init) && last.TestObject? && AllDefectObjects(last.test.defects) {
        forall i | 0 <= i < |items| ensures items[i].TestObject? && AllDefectObjects(items[i].test.defects) {
          if i < |init| { assert items[i] == init[i]; }
        }
      }
    }
  }

  /** Every buffered defect has a buffered test of the same vehicle with the same completed date. */
  predicate DefectsFollowTests(x: Expansion) {
    forall j :: 0 <= j < |x.defects| ==>
      exists i :: 0 <= i < |x.tests| && x.tests[i].registration == x.defects[j].registration &&
        x.tests[i].test.completedDate == x.defects[j].completedDate
  }

  /** A defect is appended only after its test. */
  lemma {:induction false} ExpandParents(registration: string, items: seq<TestItem>)
    ensures DefectsFollowTests(Expand(registration, items))
    decreases |items|
  {
    if items != [] {
      var init := items[..|items| - 1];
      ExpandParents(registration, init);
      var x := Expand(registration, init);
      if x.complete && items[|items| - 1].TestObject? {
        var t := items[|items| - 1].test;
        var d := ExpandDefects(registration, t.completedDate, t.defects);
        var r := Expand(registration, items);
        assert r.tests == x.tests + [MySqlBatch.TestRecord(registration, t)] && r.defects == x.defects + d.0;
        forall j | 0 <= j < |r.defects|
          ensures exists i :: (0 <= i < |r.tests| && r.tests[i].registration == r.defects[j].registration &&
            r.tests[i].test.completedDate == r.defects[j].completedDate)
        {
          if j < |x.defects| {
            var i :| 0 <= i < |x.tests| && x.tests[i].registration == x.defects[j].registration &&
              x.tests[i].test.completedDate == x.defects[j].completedDate;
            assert r.tests[i] == x.tests[i] && r.defects[j] == x.defects[j];
          } else {
            assert r.defects[j] == d.0[j - |x.defects|];
            assert r.tests[|x.tests|] == MySqlBatch.TestRecord(registration, t);
          }
        }
      }
    }
  }

  // ---------------------------------------------------------------- rows and statements

  /** A `vehicles` row of this loader: four cleaned dates, the engine size coerced. */
  function VehicleRowOf(e: MySqlBatch.Entry): (r: VehicleRow)
    ensures r.registration == e.registration && r.engineSize == CoerceEngineSize(e.vehicle.engineSize)
    ensures r.firstUsedDate == Timestamps.CleanDatetimeStripOne(e.vehicle.firstUsedDate)
    ensures r.registrationDate == Timestamps.CleanDatetimeStripOne(e.vehicle.registrationDate)
    ensures r.manufactureDate == Timestamps.CleanDatetimeStripOne(e.vehicle.manufactureDate)
    ensures r.lastMotTestDate == Timestamps.CleanDatetimeStripOne(e.vehicle.lastMotTestDate)
    ensures r.lastUpdateDate == e.vehicle.lastUpdateDate
  {
    MySqlBatch.VehicleRowOf(MySqlBatch.StripOne, e).(engineSize := CoerceEngineSize(e.vehicle.engineSize))
  }

  /**
   * The rows `batch_insert_vehicles` sends: one per buffered vehicle whose
   * registration `is_duplicate_vehicle` does not find in the table. Every
   * probe runs before the insert, so two buffered vehicles with the same new
   * registration are both sent.
   */
  function NewVehicleRows(stored: map<string, VehicleRow>, entries: seq<MySqlBatch.Entry>): (r: seq<VehicleRow>)
    ensures |r| <= |entries|
    ensures forall i :: 0 <= i < |r| ==> r[i].registration !in stored
    decreases |entries|
  {
    if entries == [] then []
    else
      var last := entries[|entries| - 1];
      NewVehicleRows(stored, entries[..|entries| - 1])
        + (if last.registration in stored then [] else [VehicleRowOf(last)])
  }

  /** A registration is sent exactly when some buffered vehicle carries it and it is not stored. */
  lemma {:induction false} NewVehicleRowsIff(stored: map<string, VehicleRow>, entries: seq<MySqlBatch.Entry>, reg: string)
    ensures reg in Registrations(NewVehicleRows(stored, entries)) <==>
      reg !in stored && exists i :: 0 <= i < |entries| && entries[i].registration == reg
    decreases |entries|
  {
    if entries != [] {
      var init, last := entries[..|entries| - 1], entries[|entries| - 1];
      NewVehicleRowsIff(stored, init, reg);
      var a := NewVehicleRows(stored, init);
      var b: seq<VehicleRow> := if last.registration in stored then [] else [VehicleRowOf(last)];
      assert NewVehicleRows(stored, entries) == a + b;
      RegistrationsAppend(a, b);
      assert Registrations(b) == if last.registration in stored then {} else {last.registration} by {
        if last.registration !in stored { assert b[0].registration == last.registration; }
      }
      CarriesSplit(entries, reg);
    }
  }

  /** Some entry carries `reg` exactly when an earlier one does or the last one does. */
  lemma CarriesSplit(entries: seq<MySqlBatch.Entry>, reg: string)
    requires entries != []
    ensures var init := entries[..|entries| - 1];
      (exists i :: 0 <= i < |entries| && entries[i].registration == reg) <==>
      (exists i :: 0 <= i < |init| && init[i].registration == reg) || entries[|entries| - 1].registration == reg
  {
    var init := entries[..|entries| - 1];
    if exists i :: 0 <= i < |entries| && entries[i].registration == reg {
      var i :| 0 <= i < |entries| && entries[i].registration == reg;
      if i < |init| { assert init[i] == entries[i]; }
    }
    if exists i :: 0 <= i < |init| && init[i].registration == reg {
      var i :| 0 <= i < |init| && init[i].registration == reg;
      assert entries[i] == init[i];
    }
  }

  /**
   * The per-defect `SELECT id ... LIMIT 1` on the cleaned completed date,
   * keeping a `defects` row for each hit and dropping each miss.
   */
  function LookupDefects(tests: seq<TestRow>, held: seq<HeldDefect>): (r: seq<DefectRow>)
    ensures |r| <= |held|
    ensures forall i :: 0 <= i < |r| ==> r[i].testId < |tests|
    decreases |held|
  {
    if held == [] then []
    else
      var d := held[|held| - 1];
      LookupDefects(tests, held[..|held| - 1]) +
        match FirstMatchingTest(tests, d.registration, Timestamps.CleanDatetimeStripOne(d.completedDate))
        case Some(id) => [DefectRow(id, d.defect.dangerous, d.defect.text, d.defect.kind)]
        case None => []
  }

  /** Each statement, succeeding or (in an aborted transaction or on error) leaving the tables as they were. */
  function InsertVehiclesStmt(t: Tables, rows: seq<VehicleRow>, succeeded: bool): Tables {
    if |rows| > 0 && succeeded then t.(vehicles := UpsertVehicles(t.vehicles, rows)) else t
  }

  function InsertTestsStmt(t: Tables, rows: seq<TestRow>, succeeded: bool): Tables {
    if |rows| > 0 && succeeded then t.(tests := t.tests + rows) else t
  }

  function InsertDefectsStmt(t: Tables, rows: seq<DefectRow>, succeeded: bool): Tables {
    if |rows| > 0 && succeeded then t.(defects := t.defects + rows) else t
  }

  // ---------------------------------------------------------------- the scan

  datatype Batch = Batch(vehicles: seq<MySqlBatch.Entry>, tests: seq<MySqlBatch.TestRecord>, defects: seq<HeldDefect>)

  const EmptyBatch := Batch([], [], [])

  datatype Tally = Tally(insertedVehicles: nat, failedVehicles: nat, insertedTests: nat, failedTests: nat,
                         insertedDefects: nat)

  const NoCounts := Tally(0, 0, 0, 0, 0)

  /** The three inserts of a flush. */
  datatype Stmt = VehicleInsert | TestInsert | DefectInsert

  /** Whether statement `s` of flush number `k` succeeds when issued in a healthy transaction. */
  type Oracle = (Stmt, nat) -> bool

  /**
   * The loop's state: the committed tables, the buffers, the counters, the
   * flushes issued, the transaction outcomes so far, and whether an
   * exception has escaped.
   */
  datatype Scan = Scan(tables: Tables, batch: Batch, processed: nat, tally: Tally, flushes: nat,
                       events: seq<Event>, raised: bool)

  function Start(t: Tables): Scan {
    Scan(t, EmptyBatch, 0, NoCounts, 0, [], false)
  }

  /** The tables a flush builds inside its transaction, before commit or rollback. */
  datatype Txn = Txn(tables: Tables, aborted: bool, vehicles: (nat, nat), tests: (nat, nat))

  /** The two row inserts of a flush, on the committed tables. */
  function RowInserts(t0: Tables, b: Batch, k: nat, ok: Oracle): Txn {
    var vs := NewVehicleRows(t0.vehicles, b.vehicles);
    var vFail := |vs| > 0 && !ok(VehicleInsert, k);
    var t1 := InsertVehiclesStmt(t0, vs, !vFail);
    var ts := MySqlBatch.TestRows(MySqlBatch.StripOne, b.tests);
    var tFail := |ts| > 0 && (vFail || !ok(TestInsert, k));
    var t2 := InsertTestsStmt(t1, ts, !tFail);
    Txn(t2, vFail || tFail, MySqlBatch.BatchCounts(|vs|, !vFail), MySqlBatch.BatchCounts(|ts|, !tFail))
  }

  /** The counters after the two row inserts of a flush. */
  function RowTally(t: Tally, x: Txn): Tally {
    t.(insertedVehicles := t.insertedVehicles + x.vehicles.0, failedVehicles := t.failedVehicles + x.vehicles.1,
       insertedTests := t.insertedTests + x.tests.0, failedTests := t.failedTests + x.tests.1)
  }

  /**
   * A flush: the vehicle and test inserts; then, unless the transaction
   * aborted while defects are held (the first lookup raises and the
   * transaction is abandoned, which discards it), the lookups, the defect
   * insert, and a commit that keeps everything or, after any failure, keeps
   * nothing. The buffers are cleared.
   */
  function Flushed(s: Scan, ok: Oracle): Scan {
    var x := RowInserts(s.tables, s.batch, s.flushes, ok);
    var tally := RowTally(s.tally, x);
    if x.aborted && |s.batch.defects| > 0 then
      s.(tally := tally, events := s.events + [RolledBack], raised := true)
    else Settled(s.(tally := tally), x.tables, x.aborted, ok)
  }

  /**
   * The end of a flush that did not raise, from the tables `txn` its
   * transaction holds: the lookups, the defect insert, and the commit (or,
   * after any failure, the rollback to the committed `s.tables`); the
   * buffers are cleared.
   */
  function Settled(s: Scan, txn: Tables, aborted: bool, ok: Oracle): Scan {
    var ds := LookupDefects(txn.tests, s.batch.defects);
    var dOk := |ds| > 0 && ok(DefectInsert, s.flushes);
    var failed := aborted || (|ds| > 0 && !dOk);
    Scan(if failed then s.tables else InsertDefectsStmt(txn, ds, dOk), EmptyBatch, s.processed,
         s.tally.(insertedDefects := s.tally.insertedDefects + if dOk then |ds| else 0),
         s.flushes + 1, s.events + [if failed then RolledBack else Committed], false)
  }

  /** The flush check after a line: on every multiple of the batch size. */
  function Check(s: Scan, batchSize: nat, ok: Oracle): Scan
    requires batchSize > 0
  {
    if s.processed % batchSize == 0 then Flushed(s, ok) else s
  }

  /** The line makes the loop raise: a non-object, or an admitted vehicle holding a non-object test or defect. */
  predicate RaisingLine(line: Line) {
    line.NonObject? || (HasRegistration(line) && !Expandable(line.vehicle.motTests))
  }

  /**
   * One iteration: count the line; a non-object raises; a vehicle without
   * registration skips the flush check; an undecodable line reaches it; an
   * admitted vehicle is buffered with its tests and defects, raising at the
   * first non-object among them.
   */
  function Step(s: Scan, line: Line, batchSize: nat, ok: Oracle): Scan
    requires batchSize > 0
  {
    if s.raised then s
    else
      var s1 := s.(processed := s.processed + 1);
      match line
      case NonObject => s1.(raised := true)
      case Undecodable => Check(s1, batchSize, ok)
      case Object(v) =>
        if !Truthy(v.registration) then s1
        else
          var x := Expand(v.registration.value, v.motTests);
          var b := Batch(s.batch.vehicles + [MySqlBatch.Entry(v.registration.value, v)],
                         s.batch.tests + x.tests, s.batch.defects + x.defects);
          if !x.complete then s1.(batch := b, raised := true)
          else Check(s1.(batch := b), batchSize, ok)
  }

  function Lines(s: Scan, lines: seq<Line>, batchSize: nat, ok: Oracle): Scan
    requires batchSize > 0
    decreases |lines|
  {
    if lines == [] then s
    else Step(Lines(s, lines[..|lines| - 1], batchSize, ok), lines[|lines| - 1], batchSize, ok)
  }

  predicate Pending(b: Batch) {
    |b.vehicles| > 0 || |b.tests| > 0 || |b.defects| > 0
  }

  datatype FileRun = FileRun(scan: Scan, status: Ledger.Status)

  /**
   * A whole file: the loop; FAILED if it raised or reading raised; otherwise
   * the leftover flush when anything is buffered, FAILED if that raised, and
   * COMPLETED.
   */
  function Run(t: Tables, stream: Stream, batchSize: nat, ok: Oracle): FileRun
    requires batchSize > 0
  {
    var s := Lines(Start(t), stream.lines, batchSize, ok);
    if s.raised || stream.readFails then FileRun(s, Ledger.Failed)
    else
      var f := if Pending(s.batch) then Flushed(s, ok) else s;
      FileRun(f, if f.raised then Ledger.Failed else Ledger.Completed)
  }

  function RunEvents(filename: string, run: FileRun): seq<Event> {
    [StatusWritten(filename, Ledger.Started)] + run.scan.events + [StatusWritten(filename, run.status)]
  }

  // ---------------------------------------------------------------- properties

  /** Stored vehicles are never changed and test ids never move. */
  predicate Grows(t: Tables, r: Tables) {
    (forall k :: k in t.vehicles ==> k in r.vehicles && r.vehicles[k] == t.vehicles[k]) &&
    |t.tests| <= |r.tests| && r.tests[..|t.tests|] == t.tests &&
    |t.defects| <= |r.defects| && r.defects[..|t.defects|] == t.defects
  }

  lemma GrowsReflexive(t: Tables)
    ensures Grows(t, t)
  {
    assert t.tests[..|t.tests|] == t.tests;
    assert t.defects[..|t.defects|] == t.defects;
  }

  lemma GrowsTransitive(a: Tables, b: Tables, c: Tables)
    requires Grows(a, b) && Grows(b, c)
    ensures Grows(a, c)
  {
    assert c.tests[..|a.tests|] == c.tests[..|b.tests|][..|a.tests|];
    assert c.defects[..|a.defects|] == c.defects[..|b.defects|][..|a.defects|];
  }

  /**
   * A flush is all or nothing: after a rollback the tables are as before;
   * after a commit stored vehicles are unchanged, tests and defects are only
   * appended, and every defect still points at an existing test. It raises
   * only when defects were held; when every statement succeeds it commits.
   */
  lemma FlushedProperties(s: Scan, ok: Oracle)
    requires ParentsResolved(s.tables)
    ensures var r := Flushed(s, ok);
      |r.events| == |s.events| + 1 && r.events[..|s.events|] == s.events &&
      (r.events[|s.events|] == RolledBack ==> r.tables == s.tables) &&
      Grows(s.tables, r.tables) && ParentsResolved(r.tables) &&
      (!r.raised ==> r.batch == EmptyBatch && r.flushes == s.flushes + 1) &&
      r.flushes <= s.flushes + 1 && r.processed == s.processed
  {
    var x := RowInserts(s.tables, s.batch, s.flushes, ok);
    RowInsertsGrow(s.tables, s.batch, s.flushes, ok);
    if x.aborted && |s.batch.defects| > 0 {
      GrowsReflexive(s.tables);
    } else {
      SettledProperties(s.(tally := RowTally(s.tally, x)), x.tables, x.aborted, ok);
    }
  }

  /** The row inserts keep every stored vehicle, only append tests, and add no defect. */
  lemma RowInsertsGrow(t0: Tables, b: Batch, k: nat, ok: Oracle)
    ensures var x := RowInserts(t0, b, k, ok);
      Grows(t0, x.tables) && x.tables.defects == t0.defects
  {
    var vs := NewVehicleRows(t0.vehicles, b.vehicles);
    InsertNewVehiclesKeepsStored(t0.vehicles, vs);
    var x := RowInserts(t0, b, k, ok);
    assert x.tables.tests[..|t0.tests|] == t0.tests;
    assert t0.defects[..|t0.defects|] == t0.defects;
  }

  /**
   * Settling a flush from a transaction that only grew the committed tables:
   * a rollback restores them; a commit keeps the growth plus defects whose
   * parents exist.
   */
  lemma SettledProperties(s: Scan, txn: Tables, aborted: bool, ok: Oracle)
    requires Grows(s.tables, txn) && txn.defects == s.tables.defects && ParentsResolved(s.tables)
    ensures var r := Settled(s, txn, aborted, ok);
      |r.events| == |s.events| + 1 && r.events[..|s.events|] == s.events &&
      (r.events[|s.events|] == RolledBack ==> r.tables == s.tables) &&
      Grows(s.tables, r.tables) && ParentsResolved(r.tables) &&
      !r.raised && r.batch == EmptyBatch && r.flushes == s.flushes + 1 && r.processed == s.processed
  {
    var r := Settled(s, txn, aborted, ok);
    var ds := LookupDefects(txn.tests, s.batch.defects);
    assert (s.events + [r.events[|s.events|]])[..|s.events|] == s.events;
    if r.events[|s.events|] == RolledBack {
      GrowsReflexive(s.tables);
    } else {
      assert r.tables == InsertDefectsStmt(txn, ds, |ds| > 0 && ok(DefectInsert, s.flushes));
      assert r.tables.defects[..|s.tables.defects|] == s.tables.defects;
      assert ParentsResolved(r.tables) by {
        forall i | 0 <= i < |r.tables.defects| ensures r.tables.defects[i].testId < |r.tables.tests| {
          if i < |s.tables.defects| { assert r.tables.defects[i] == s.tables.defects[i]; }
        }
      }
    }
  }

  /**
   * A flush raises only when defects were held (and only after a failed
   * statement); when every statement of the flush succeeds it commits.
   */
  lemma FlushedCommits(s: Scan, ok: Oracle)
    ensures var r := Flushed(s, ok);
      (r.raised ==> |s.batch.defects| > 0 && r.flushes == s.flushes) &&
      ((forall st :: ok(st, s.flushes)) ==> !r.raised && r.events == s.events + [Committed])
  {
  }

  /**
   * One line that does not raise counts itself, keeps the flushes within
   * `processed / batchSize`, and keeps what a flush keeps.
   */
  lemma StepProperties(s: Scan, line: Line, batchSize: nat, ok: Oracle)
    requires batchSize > 0 && !s.raised && s.flushes <= s.processed / batchSize && ParentsResolved(s.tables)
    ensures var r := Step(s, line, batchSize, ok);
      r.processed == s.processed + 1 && r.flushes <= r.processed / batchSize &&
      Grows(s.tables, r.tables) && ParentsResolved(r.tables)
  {
    MySqlBatch.DivStep(s.processed, batchSize);
    var s1 := s.(processed := s.processed + 1);
    GrowsReflexive(s.tables);
    match line
    case NonObject =>
    case Undecodable =>
      CheckProperties(s1, batchSize, ok);
    case Object(v) =>
      if Truthy(v.registration) {
        var x := Expand(v.registration.value, v.motTests);
        var b := Batch(s.batch.vehicles + [MySqlBatch.Entry(v.registration.value, v)],
                       s.batch.tests + x.tests, s.batch.defects + x.defects);
        if x.complete {
          CheckProperties(s1.(batch := b), batchSize, ok);
        }
      }
  }

  /**
   * The flush check after a counted line: a flush only on a multiple of the
   * batch size, keeping what a flush keeps.
   */
  lemma CheckProperties(s: Scan, batchSize: nat, ok: Oracle)
    requires batchSize > 0 && s.processed > 0 && ParentsResolved(s.tables)
    requires s.flushes <= (s.processed - 1) / batchSize
    requires s.processed % batchSize != 0 ==> (s.processed - 1) / batchSize == s.processed / batchSize
    requires s.processed % batchSize == 0 ==> (s.processed - 1) / batchSize + 1 == s.processed / batchSize
    ensures var r := Check(s, batchSize, ok);
      r.processed == s.processed && r.flushes <= r.processed / batchSize &&
      Grows(s.tables, r.tables) && ParentsResolved(r.tables)
  {
    if s.processed % batchSize == 0 {
      FlushedProperties(s, ok);
    } else {
      GrowsReflexive(s.tables);
    }
  }

  /**
   * Over any run of lines: every line read before the loop raises is counted;
   * the flushes never outrun `processed / batchSize`; stored vehicles are
   * never changed; tests and defects are only appended; defects keep their
   * parents.
   */
  lemma {:induction false} LinesProperties(s: Scan, lines: seq<Line>, batchSize: nat, ok: Oracle)
    requires batchSize > 0 && ParentsResolved(s.tables)
    requires s.flushes <= s.processed / batchSize
    ensures var r := Lines(s, lines, batchSize, ok);
      (!r.raised ==> r.processed == s.processed + |lines|) &&
      s.processed <= r.processed <= s.processed + |lines| &&
      r.flushes <= r.processed / batchSize &&
      Grows(s.tables, r.tables) && ParentsResolved(r.tables) &&
      (s.raised ==> r.raised)
    decreases |lines|
  {
    if lines == [] {
      assert s.tables.tests[..|s.tables.tests|] == s.tables.tests;
      assert s.tables.defects[..|s.tables.defects|] == s.tables.defects;
    } else {
      var init, last := lines[..|lines| - 1], lines[|lines| - 1];
      LinesProperties(s, init, batchSize, ok);
      var m := Lines(s, init, batchSize, ok);
      if !m.raised {
        StepProperties(m, last, batchSize, ok);
        GrowsTransitive(s.tables, m.tables, Step(m, last, batchSize, ok).tables);
      }
    }
  }

  /** With every statement succeeding, a line raises exactly when it is a raising line. */
  lemma StepRaise(s: Scan, line: Line, batchSize: nat, ok: Oracle)
    requires batchSize > 0 && !s.raised
    requires forall st, k :: ok(st, k)
    ensures Step(s, line, batchSize, ok).raised <==> RaisingLine(line)
  {
    var s1 := s.(processed := s.processed + 1);
    if HasRegistration(line) {
      var x := Expand(line.vehicle.registration.value, line.vehicle.motTests);
      ExpandCompleteIff(line.vehicle.registration.value, line.vehicle.motTests);
      FlushedCommits(s1.(batch := Batch(s.batch.vehicles + [MySqlBatch.Entry(line.vehicle.registration.value, line.vehicle)],
                                        s.batch.tests + x.tests, s.batch.defects + x.defects)), ok);
    } else {
      FlushedCommits(s1, ok);
    }
  }

  /**
   * When every statement succeeds, the loop raises exactly at a raising line:
   * a non-object, or an admitted vehicle with a non-object test or defect.
   */
  lemma {:induction false} LinesRaise(s: Scan, lines: seq<Line>, batchSize: nat, ok: Oracle)
    requires batchSize > 0
    requires forall st, k :: ok(st, k)
    ensures Lines(s, lines, batchSize, ok).raised <==>
      s.raised || exists i :: 0 <= i < |lines| && RaisingLine(lines[i])
    decreases |lines|
  {
    if lines != [] {
      var init, last := lines[..|lines| - 1], lines[|lines| - 1];
      LinesRaise(s, init, batchSize, ok);
      var m := Lines(s, init, batchSize, ok);
      if !m.raised {
        StepRaise(m, last, batchSize, ok);
      }
      if exists i :: 0 <= i < |lines| && RaisingLine(lines[i]) {
        var i :| 0 <= i < |lines| && RaisingLine(lines[i]);
        if i < |init| { assert init[i] == lines[i]; }
      }
      if exists i :: 0 <= i < |init| && RaisingLine(init[i]) {
        var i :| 0 <= i < |init| && RaisingLine(init[i]);
        assert lines[i] == init[i];
      }
    }
  }

  /**
   * A vehicle without registration skips the flush check even on a multiple
   * of the batch size: one such line with a batch size of one is counted and
   * flushes nothing.
   */
  lemma SkippedFlushCheck(t: Tables, v: Vehicle, ok: Oracle)
    requires !Truthy(v.registration)
    ensures var r := Lines(Start(t), [Object(v)], 1, ok);
      r.processed == 1 && r.flushes == 0 && !r.raised
  {
    assert [Object(v)][..0] == [];
  }

  /**
   * A whole file: FAILED exactly when reading raised or the loop or the
   * leftover flush raised; after COMPLETED every line was counted and nothing
   * is left buffered. Stored vehicles are never changed, tests and defects
   * are only appended, defects keep their parents. When every statement
   * succeeds, the file fails exactly on a read error or a raising line.
   */
  lemma RunProperties(t: Tables, stream: Stream, batchSize: nat, ok: Oracle)
    requires batchSize > 0 && ParentsResolved(t)
    ensures var run := Run(t, stream, batchSize, ok);
      (run.status == Ledger.Completed <==> !stream.readFails && !run.scan.raised) &&
      (run.status == Ledger.Completed ==>
        run.scan.processed == |stream.lines| && run.scan.batch == EmptyBatch) &&
      Grows(t, run.scan.tables) && ParentsResolved(run.scan.tables) &&
      ((forall st, k :: ok(st, k)) ==>
        (run.status == Ledger.Completed <==>
          !stream.readFails && forall i :: 0 <= i < |stream.lines| ==> !RaisingLine(stream.lines[i])))
  {
    var s := Lines(Start(t), stream.lines, batchSize, ok);
    LinesProperties(Start(t), stream.lines, batchSize, ok);
    if forall st, k :: ok(st, k) {
      LinesRaise(Start(t), stream.lines, batchSize, ok);
    }
    if !s.raised && Pending(s.batch) {
      FlushedProperties(s, ok);
      GrowsTransitive(t, s.tables, Flushed(s, ok).tables);
    }
  }

  // ---------------------------------------------------------------- re-running a file

  /** Every statement of every flush succeeds. */
  ghost predicate AllSucceed(ok: Oracle) {
    forall st, k :: ok(st, k)
  }

  /**
   * Two scans over the same lines, one from tables `a0` and one from `b0`:
   * they agree on everything but the tables and the counters, have added the
   * same vehicle keys, and have appended the same test rows.
   */
  predicate InStep(a0: Tables, a: Scan, b0: Tables, b: Scan) {
    a.batch == b.batch && a.processed == b.processed && a.flushes == b.flushes &&
    a.events == b.events && a.raised == b.raised &&
    a0.vehicles.Keys <= a.tables.vehicles.Keys && b0.vehicles.Keys <= b.tables.vehicles.Keys &&
    a.tables.vehicles.Keys + b0.vehicles.Keys == b.tables.vehicles.Keys + a0.vehicles.Keys &&
    |a0.tests| <= |a.tables.tests| && |b0.tests| <= |b.tables.tests| &&
    a.tables.tests[|a0.tests|..] == b.tables.tests[|b0.tests|..]
  }

  /** Appending the same rows to two sequences keeps their tails beyond `a0`, `b0` equal. */
  lemma AppendTailInStep<T>(a0: seq<T>, a: seq<T>, b0: seq<T>, b: seq<T>, d: seq<T>)
    requires |a0| <= |a| && |b0| <= |b| && a[|a0|..] == b[|b0|..]
    ensures (a + d)[|a0|..] == (b + d)[|b0|..]
  {
    assert (a + d)[|a0|..] == a[|a0|..] + d;
    assert (b + d)[|b0|..] == b[|b0|..] + d;
  }

  /**
   * Inserting the rows the duplicate probe lets through gives the stored
   * keys plus every buffered registration, whether or not any row is sent.
   */
  lemma NewVehicleKeys(stored: map<string, VehicleRow>, entries: seq<MySqlBatch.Entry>)
    ensures var vs := NewVehicleRows(stored, entries);
      (if |vs| > 0 then UpsertVehicles(stored, vs) else stored).Keys == stored.Keys + MySqlBatch.EntryRegistrations(entries)
  {
    var vs := NewVehicleRows(stored, entries);
    UpsertVehiclesKeys(stored, vs);
    forall reg ensures reg in Registrations(vs) <==> reg !in stored && reg in MySqlBatch.EntryRegistrations(entries) {
      NewVehicleRowsIff(stored, entries, reg);
    }
    if |vs| == 0 {
      assert Registrations(vs) == {};
    }
  }

  /**
   * When every statement succeeds, the row inserts never abort: the vehicle
   * keys gain exactly the buffered registrations (stored ones are probed and
   * skipped), and the buffered tests are appended.
   */
  lemma RowInsertsSucceed(t0: Tables, b: Batch, k: nat, ok: Oracle)
    requires AllSucceed(ok)
    ensures var x := RowInserts(t0, b, k, ok);
      !x.aborted &&
      x.tables.vehicles.Keys == t0.vehicles.Keys + MySqlBatch.EntryRegistrations(b.vehicles) &&
      x.tables.tests == t0.tests + MySqlBatch.TestRows(MySqlBatch.StripOne, b.tests)
  {
    NewVehicleKeys(t0.vehicles, b.vehicles);
  }

  /** When every statement succeeds, a flush commits what the row inserts built. */
  lemma FlushedSucceeds(s: Scan, ok: Oracle)
    requires AllSucceed(ok)
    ensures var r := Flushed(s, ok);
      r.tables.vehicles.Keys == s.tables.vehicles.Keys + MySqlBatch.EntryRegistrations(s.batch.vehicles) &&
      r.tables.tests == s.tables.tests + MySqlBatch.TestRows(MySqlBatch.StripOne, s.batch.tests) &&
      r.batch == EmptyBatch && r.processed == s.processed && r.flushes == s.flushes + 1 &&
      r.events == s.events + [Committed] && !r.raised
  {
    RowInsertsSucceed(s.tables, s.batch, s.flushes, ok);
  }

  lemma FlushedInStep(a0: Tables, a: Scan, b0: Tables, b: Scan, ok: Oracle)
    requires AllSucceed(ok) && InStep(a0, a, b0, b)
    ensures InStep(a0, Flushed(a, ok), b0, Flushed(b, ok))
  {
    FlushedSucceeds(a, ok);
    FlushedSucceeds(b, ok);
    MySqlBatch.GrowInStep(a0.vehicles.Keys, a.tables.vehicles.Keys, b0.vehicles.Keys, b.tables.vehicles.Keys,
                          MySqlBatch.EntryRegistrations(a.batch.vehicles));
    AppendTailInStep(a0.tests, a.tables.tests, b0.tests, b.tables.tests,
                     MySqlBatch.TestRows(MySqlBatch.StripOne, a.batch.tests));
  }

  lemma CheckInStep(a0: Tables, a: Scan, b0: Tables, b: Scan, batchSize: nat, ok: Oracle)
    requires batchSize > 0 && AllSucceed(ok) && InStep(a0, a, b0, b)
    ensures InStep(a0, Check(a, batchSize, ok), b0, Check(b, batchSize, ok))
  {
    if a.processed % batchSize == 0 {
      FlushedInStep(a0, a, b0, b, ok);
    }
  }

  /** The scan one line leads to before its flush check, when the loop has not raised. */
  function Buffered(s: Scan, line: Line): Scan {
    var s1 := s.(processed := s.processed + 1);
    match line
    case NonObject => s1.(raised := true)
    case Undecodable => s1
    case Object(v) =>
      if !Truthy(v.registration) then s1
      else
        var x := Expand(v.registration.value, v.motTests);
        var b := Batch(s.batch.vehicles + [MySqlBatch.Entry(v.registration.value, v)],
                       s.batch.tests + x.tests, s.batch.defects + x.defects);
        if !x.complete then s1.(batch := b, raised := true) else s1.(batch := b)
  }

  /** Whether the line reaches the flush check. */
  predicate Checked(s: Scan, line: Line) {
    match line
    case NonObject => false
    case Undecodable => true
    case Object(v) => Truthy(v.registration) && Expand(v.registration.value, v.motTests).complete
  }

  /** A line that does not meet a raised loop is buffered, then checked when it reaches the check. */
  lemma StepCases(s: Scan, line: Line, batchSize: nat, ok: Oracle)
    requires batchSize > 0 && !s.raised
    ensures Step(s, line, batchSize, ok) ==
      if Checked(s, line) then Check(Buffered(s, line), batchSize, ok) else Buffered(s, line)
  {
  }

  /** Buffering does not touch the tables and depends on nothing else that differs. */
  lemma BufferedInStep(a0: Tables, a: Scan, b0: Tables, b: Scan, line: Line)
    requires InStep(a0, a, b0, b)
    ensures InStep(a0, Buffered(a, line), b0, Buffered(b, line)) && Checked(a, line) == Checked(b, line)
  {
  }

  lemma StepInStep(a0: Tables, a: Scan, b0: Tables, b: Scan, line: Line, batchSize: nat, ok: Oracle)
    requires batchSize > 0 && AllSucceed(ok) && InStep(a0, a, b0, b)
    ensures InStep(a0, Step(a, line, batchSize, ok), b0, Step(b, line, batchSize, ok))
  {
    if !a.raised {
      StepCases(a, line, batchSize, ok);
      StepCases(b, line, batchSize, ok);
      BufferedInStep(a0, a, b0, b, line);
      if Checked(a, line) {
        CheckInStep(a0, Buffered(a, line), b0, Buffered(b, line), batchSize, ok);
      }
    }
  }

  lemma {:induction false} LinesInStep(a0: Tables, a: Scan, b0: Tables, b: Scan, lines: seq<Line>, batchSize: nat, ok: Oracle)
    requires batchSize > 0 && AllSucceed(ok) && InStep(a0, a, b0, b)
    ensures InStep(a0, Lines(a, lines, batchSize, ok), b0, Lines(b, lines, batchSize, ok))
    decreases |lines|
  {
    if lines != [] {
      var init := lines[..|lines| - 1];
      LinesInStep(a0, a, b0, b, init, batchSize, ok);
      StepInStep(a0, Lines(a, init, batchSize, ok), b0, Lines(b, init, batchSize, ok), lines[|lines| - 1], batchSize, ok);
    }
  }

  /** Two whole runs of one file, from different tables, stay in step and end alike. */
  lemma RunInStep(a0: Tables, b0: Tables, stream: Stream, batchSize: nat, ok: Oracle)
    requires batchSize > 0 && AllSucceed(ok)
    ensures var ra, rb := Run(a0, stream, batchSize, ok), Run(b0, stream, batchSize, ok);
      InStep(a0, ra.scan, b0, rb.scan) && ra.status == rb.status
  {
    assert InStep(a0, Start(a0), b0, Start(b0));
    LinesInStep(a0, Start(a0), b0, Start(b0), stream.lines, batchSize, ok);
    var a, b := Lines(Start(a0), stream.lines, batchSize, ok), Lines(Start(b0), stream.lines, batchSize, ok);
    if !a.raised && !stream.readFails && Pending(a.batch) {
      FlushedInStep(a0, a, b0, b, ok);
    }
  }

  /** A dated row appended a second time breaks key uniqueness. */
  lemma TailTwiceNotUnique(before: seq<TestRow>, after: seq<TestRow>, i: nat)
    requires |before| <= i < |after| && after[i].completedDate.Some?
    ensures !KeysUnique(after + after[|before|..])
  {
    var r := after + after[|before|..];
    var j := |after| + (i - |before|);
    assert r[i] == after[i] && r[j] == after[i];
  }

  /**
   * Re-running a file over the tables its first run left, with every
   * statement succeeding: the duplicate probe keeps the vehicles as they
   * were, but the plain test insert appends every test of the first run a
   * second time, so a dated test of the file ends with two rows under one
   * key. The second run ends with the same status.
   */
  lemma RerunAddsTestsAgain(t: Tables, stream: Stream, batchSize: nat, ok: Oracle)
    requires batchSize > 0 && AllSucceed(ok) && ParentsResolved(t)
    ensures var run1 := Run(t, stream, batchSize, ok);
      var t1 := run1.scan.tables;
      var run2 := Run(t1, stream, batchSize, ok);
      var t2 := run2.scan.tables;
      |t.tests| <= |t1.tests| &&
      t2.vehicles == t1.vehicles &&
      t2.tests == t1.tests + t1.tests[|t.tests|..] &&
      run2.status == run1.status &&
      ((exists i :: |t.tests| <= i < |t1.tests| && t1.tests[i].completedDate.Some?) ==> !KeysUnique(t2.tests))
  {
    var t1 := Run(t, stream, batchSize, ok).scan.tables;
    RunProperties(t, stream, batchSize, ok);
    var t2 := Run(t1, stream, batchSize, ok).scan.tables;
    RunProperties(t1, stream, batchSize, ok);
    RunInStep(t, t1, stream, batchSize, ok);
    RerunTables(t, t1, t2);
    if exists i :: |t.tests| <= i < |t1.tests| && t1.tests[i].completedDate.Some? {
      var i :| |t.tests| <= i < |t1.tests| && t1.tests[i].completedDate.Some?;
      TailTwiceNotUnique(t.tests, t1.tests, i);
    }
  }

  /** The tables after a second run, from what `InStep` and `Grows` say of the two runs. */
  lemma RerunTables(t: Tables, t1: Tables, t2: Tables)
    requires Grows(t, t1) && Grows(t1, t2)
    requires t1.vehicles.Keys + t1.vehicles.Keys == t2.vehicles.Keys + t.vehicles.Keys
    requires |t.tests| <= |t1.tests| <= |t2.tests| && t1.tests[|t.tests|..] == t2.tests[|t1.tests|..]
    ensures t2.vehicles == t1.vehicles && t2.tests == t1.tests + t1.tests[|t.tests|..]
  {
    assert t2.tests == t2.tests[..|t1.tests|] + t2.tests[|t1.tests|..];
  }

  // ---------------------------------------------------------------- the loader

  /** A stop in a test's `defects` loop is final: later defects are never reached. */
  lemma {:induction false} ExpandDefectsStops(registration: string, completedDate: Option<string>,
                                              items: seq<DefectItem>, j: nat)
    requires j <= |items| && !ExpandDefects(registration, completedDate, items[..j]).1
    ensures ExpandDefects(registration, completedDate, items) == ExpandDefects(registration, completedDate, items[..j])
    decreases |items| - j
  {
    if j < |items| {
      var next := items[..j + 1];
      assert next[..|next| - 1] == items[..j];
      ExpandDefectsStops(registration, completedDate, items, j + 1);
    } else {
      assert items[..j] == items;
    }
  }

  /** One more element of the `defects` loop, before it has raised. */
  lemma ExpandDefectsNext(registration: string, completedDate: Option<string>, items: seq<DefectItem>, k: nat)
    requires k < |items| && ExpandDefects(registration, completedDate, items[..k]).1
    ensures var r := ExpandDefects(registration, completedDate, items[..k]);
      ExpandDefects(registration, completedDate, items[..k + 1]) ==
        if items[k].DefectOther? then (r.0, false)
        else (r.0 + [HeldDefect(registration, completedDate, items[k].defect)], true)
  {
    assert items[..k + 1][..k] == items[..k];
  }

  /** One more element of the `motTests` loop, before it has raised. */
  lemma ExpandNext(registration: string, items: seq<TestItem>, j: nat)
    requires j < |items| && Expand(registration, items[..j]).complete
    ensures var x := Expand(registration, items[..j]);
      Expand(registration, items[..j + 1]) ==
        if items[j].TestOther? then x.(complete := false)
        else
          var d := ExpandDefects(registration, items[j].test.completedDate, items[j].test.defects);
          Expansion(x.tests + [MySqlBatch.TestRecord(registration, items[j].test)], x.defects + d.0, d.1)
  {
    assert items[..j + 1][..j] == items[..j];
  }

  /** A stop in the `motTests` loop is final: later tests are never reached. */
  lemma {:induction false} ExpandStops(registration: string, items: seq<TestItem>, j: nat)
    requires j <= |items| && !Expand(registration, items[..j]).complete
    ensures Expand(registration, items) == Expand(registration, items[..j])
    decreases |items| - j
  {
    if j < |items| {
      var next := items[..j + 1];
      assert next[..|next| - 1] == items[..j];
      ExpandStops(registration, items, j + 1);
    } else {
      assert items[..j] == items;
    }
  }

  /** The three buffers of `process_file`. */
  class Batches {
    var vehicles: seq<MySqlBatch.Entry>
    var tests: seq<MySqlBatch.TestRecord>
    var defects: seq<HeldDefect>

    function Contents(): Batch
      reads this
    {
      Batch(vehicles, tests, defects)
    }

    constructor ()
      ensures Contents() == EmptyBatch
    {
      vehicles, tests, defects := [], [], [];
    }

    method Clear()
      modifies this
      ensures Contents() == EmptyBatch
    {
      vehicles, tests, defects := [], [], [];
    }
  }

  /**
   * The `defects` loop of one test: hold each defect under the registration
   * and the test's raw completed date; a non-object ends the loop as its
   * exception would.
   */
  method HoldDefects(buf: Batches, registration: string, completedDate: Option<string>, items: seq<DefectItem>)
    returns (complete: bool)
    modifies buf
    ensures var r := ExpandDefects(registration, completedDate, items);
      complete == r.1 && buf.defects == old(buf.defects) + r.0
    ensures buf.vehicles == old(buf.vehicles) && buf.tests == old(buf.tests)
  {
    var k := 0;
    complete := true;
    while k < |items| && complete
      invariant 0 <= k <= |items|
      invariant var r := ExpandDefects(registration, completedDate, items[..k]);
        r.1 == complete && buf.defects == old(buf.defects) + r.0
      invariant buf.vehicles == old(buf.vehicles) && buf.tests == old(buf.tests)
      decreases |items| - k
    {
      ExpandDefectsNext(registration, completedDate, items, k);
      ghost var next := ExpandDefects(registration, completedDate, items[..k + 1]);
      match items[k] {
        case DefectOther =>
          complete := false;
        case DefectObject(d) =>
          AppendAssociates(old(buf.defects), ExpandDefects(registration, completedDate, items[..k]).0,
                           [HeldDefect(registration, completedDate, d)]);
          buf.defects := buf.defects + [HeldDefect(registration, completedDate, d)];
      }
      k := k + 1;
      assert ExpandDefects(registration, completedDate, items[..k]) == next;
    }
    if complete {
      assert items[..k] == items;
    } else {
      ExpandDefectsStops(registration, completedDate, items, k);
    }
  }

  /** One iteration of the `motTests` loop, before it has raised. */
  method ExpandTest(buf: Batches, registration: string, items: seq<TestItem>, j: nat,
                    ghost tests0: seq<MySqlBatch.TestRecord>, ghost defects0: seq<HeldDefect>)
    returns (complete: bool)
    requires j < |items| && Expand(registration, items[..j]).complete
    requires var x := Expand(registration, items[..j]);
      buf.tests == tests0 + x.tests && buf.defects == defects0 + x.defects
    modifies buf
    ensures var x := Expand(registration, items[..j + 1]);
      complete == x.complete && buf.tests == tests0 + x.tests && buf.defects == defects0 + x.defects
    ensures buf.vehicles == old(buf.vehicles)
  {
    ExpandNext(registration, items, j);
    ghost var x := Expand(registration, items[..j]);
    match items[j] {
      case TestOther =>
        complete := false;
      case TestObject(t) =>
        ghost var d := ExpandDefects(registration, t.completedDate, t.defects);
        buf.tests := buf.tests + [MySqlBatch.TestRecord(registration, t)];
        complete := HoldDefects(buf, registration, t.completedDate, t.defects);
        AppendAssociates(defects0, x.defects, d.0);
        AppendAssociates(tests0, x.tests, [MySqlBatch.TestRecord(registration, t)]);
    }
  }

  /**
   * The `motTests` loop: buffer each test, then hold its defects; a
   * non-object test or defect ends the loop as its exception would.
   */
  method ExpandTests(buf: Batches, registration: string, items: seq<TestItem>) returns (complete: bool)
    modifies buf
    ensures var x := Expand(registration, items);
      complete == x.complete && buf.tests == old(buf.tests) + x.tests && buf.defects == old(buf.defects) + x.defects
    ensures buf.vehicles == old(buf.vehicles)
  {
    var j := 0;
    complete := true;
    while j < |items| && complete
      invariant 0 <= j <= |items|
      invariant buf.vehicles == old(buf.vehicles)
      invariant var x := Expand(registration, items[..j]);
        x.complete == complete && buf.tests == old(buf.tests) + x.tests && buf.defects == old(buf.defects) + x.defects
      decreases |items| - j
    {
      ghost var next := Expand(registration, items[..j + 1]);
      complete := ExpandTest(buf, registration, items, j, old(buf.tests), old(buf.defects));
      j := j + 1;
      assert Expand(registration, items[..j]) == next;
    }
    if complete {
      assert items[..j] == items;
    } else {
      ExpandStops(registration, items, j);
    }
  }

  /** The probe loop of `batch_insert_vehicles`: a row for each buffered registration not stored. */
  method ProbeVehicles(stored: map<string, VehicleRow>, batch: seq<MySqlBatch.Entry>) returns (rows: seq<VehicleRow>)
    ensures rows == NewVehicleRows(stored, batch)
  {
    rows := [];
    var i := 0;
    while i < |batch|
      invariant i <= |batch| && rows == NewVehicleRows(stored, batch[..i])
    {
      assert batch[..i + 1][..i] == batch[..i];
      ghost var next := NewVehicleRows(stored, batch[..i + 1]);
      assert next == rows + (if batch[i].registration in stored then [] else [VehicleRowOf(batch[i])]);
      var duplicate := batch[i].registration in stored;
      if !duplicate {
        rows := rows + [VehicleRowOf(batch[i])];
      }
      i := i + 1;
      assert NewVehicleRows(stored, batch[..i]) == next;
    }
    assert batch[..i] == batch;
  }

  /**
   * `batch_insert_vehicles`: probe each buffered registration
   * (`is_duplicate_vehicle`), build a row for each one not stored, then
   * insert them all; `aborted` is whether the insert failed and so aborted
   * the transaction.
   */
  method BatchInsertVehicles(db: Database, batch: seq<MySqlBatch.Entry>, succeeded: bool)
    returns (inserted: nat, failed: nat, aborted: bool)
    modifies db
    ensures var vs := NewVehicleRows(old(db.tables).vehicles, batch);
      aborted == (|vs| > 0 && !succeeded) &&
      (inserted, failed) == MySqlBatch.BatchCounts(|vs|, !aborted) &&
      db.tables == InsertVehiclesStmt(old(db.tables), vs, !aborted)
    ensures db.committed == old(db.committed) && db.importLog == old(db.importLog)
    ensures db.triggersEnabled == old(db.triggersEnabled) && db.journal == old(db.journal)
  {
    var rows := ProbeVehicles(db.tables.vehicles, batch);
    if |rows| == 0 {
      return 0, 0, false;
    }
    if succeeded {
      db.Execute(db.tables.(vehicles := UpsertVehicles(db.tables.vehicles, rows)));
      return |rows|, 0, false;
    }
    return 0, |rows|, true;
  }

  /**
   * `batch_insert_mot_tests`: one row per buffered test, plain-inserted; in a
   * transaction that is already aborted the insert fails too.
   */
  method BatchInsertTests(db: Database, batch: seq<MySqlBatch.TestRecord>, healthy: bool, succeeded: bool)
    returns (inserted: nat, failed: nat, aborted: bool)
    modifies db
    ensures var ts := MySqlBatch.TestRows(MySqlBatch.StripOne, batch);
      aborted == (|ts| > 0 && !(healthy && succeeded)) &&
      (inserted, failed) == MySqlBatch.BatchCounts(|ts|, !aborted) &&
      db.tables == InsertTestsStmt(old(db.tables), ts, !aborted)
    ensures db.committed == old(db.committed) && db.importLog == old(db.importLog)
    ensures db.triggersEnabled == old(db.triggersEnabled) && db.journal == old(db.journal)
  {
    if |batch| == 0 {
      return 0, 0, false;
    }
    var rows := MySqlBatch.BuildTestRows(MySqlBatch.StripOne, batch);
    if healthy && succeeded {
      db.Execute(db.tables.(tests := db.tables.tests + rows));
      return |rows|, 0, false;
    }
    return 0, |rows|, true;
  }

  /**
   * The lookup loop of a flush: for each held defect, the first stored test
   * with its registration and cleaned completed date; a hit becomes a
   * `defects` row, a miss is dropped.
   */
  method LookupDefectRows(db: Database, held: seq<HeldDefect>) returns (rows: seq<DefectRow>)
    ensures rows == LookupDefects(db.tables.tests, held)
  {
    var tests := db.tables.tests;
    rows := [];
    var i := 0;
    while i < |held|
      invariant i <= |held| && rows == LookupDefects(tests, held[..i])
    {
      var d := held[i];
      var prefix := held[..i + 1];
      assert prefix[..|prefix| - 1] == held[..i] && prefix[|prefix| - 1] == d;
      var res := FirstMatchingTest(tests, d.registration, Timestamps.CleanDatetimeStripOne(d.completedDate));
      if res.Some? {
        rows := rows + [DefectRow(res.value, d.defect.dangerous, d.defect.text, d.defect.kind)];
      }
      i := i + 1;
    }
    assert held[..i] == held;
  }

  /** `batch_insert_defects`: insert the resolved rows, counting them only if the insert succeeds. */
  method BatchInsertDefects(db: Database, rows: seq<DefectRow>, succeeded: bool) returns (inserted: nat)
    modifies db
    ensures inserted == if |rows| > 0 && succeeded then |rows| else 0
    ensures db.tables == InsertDefectsStmt(old(db.tables), rows, succeeded)
    ensures db.committed == old(db.committed) && db.importLog == old(db.importLog)
    ensures db.triggersEnabled == old(db.triggersEnabled) && db.journal == old(db.journal)
  {
    if |rows| == 0 {
      return 0;
    }
    if succeeded {
      db.Execute(db.tables.(defects := db.tables.defects + rows));
      return |rows|;
    }
    return 0;
  }

  /** The two row inserts of a flush, on a transaction opened on the committed tables. */
  method InsertRows(db: Database, buf: Batches, flushes: nat, ok: Oracle)
    returns (iv: nat, fv: nat, it: nat, ft: nat, aborted: bool)
    modifies db
    ensures var x := RowInserts(old(db.tables), buf.Contents(), flushes, ok);
      db.tables == x.tables && aborted == x.aborted && (iv, fv) == x.vehicles && (it, ft) == x.tests
    ensures db.committed == old(db.committed) && db.importLog == old(db.importLog)
    ensures db.triggersEnabled == old(db.triggersEnabled) && db.journal == old(db.journal)
  {
    var vAborted, tAborted;
    iv, fv, vAborted := BatchInsertVehicles(db, buf.vehicles, ok(VehicleInsert, flushes));
    it, ft, tAborted := BatchInsertTests(db, buf.tests, !vAborted, ok(TestInsert, flushes));
    aborted := vAborted || tAborted;
  }

  /**
   * A flush on a pooled connection: the two row inserts; the lookups, which
   * raise in an aborted transaction (the transaction is then abandoned,
   * which discards it); the defect insert; the commit, which PostgreSQL
   * turns into a rollback after any failed statement; clear the buffers.
   */
  method FlushBatches(db: Database, buf: Batches, processed: nat, tally: Tally, flushes: nat,
                      ghost events: seq<Event>, ghost pre: seq<Event>, ok: Oracle)
    returns (tally': Tally, flushes': nat, raised: bool, ghost events': seq<Event>)
    requires db.committed == db.tables && db.journal == pre + events
    modifies db, buf
    ensures Scan(db.tables, buf.Contents(), processed, tally', flushes', events', raised) ==
      Flushed(Scan(old(db.tables), old(buf.Contents()), processed, tally, flushes, events, false), ok)
    ensures db.committed == db.tables && db.importLog == old(db.importLog)
    ensures db.triggersEnabled == old(db.triggersEnabled) && db.journal == pre + events'
  {
    ghost var s := Scan(db.tables, buf.Contents(), processed, tally, flushes, events, false);
    ghost var committed := db.tables;
    var iv, fv, it, ft, aborted := InsertRows(db, buf, flushes, ok);
    ghost var x := RowInserts(s.tables, s.batch, flushes, ok);
    assert db.tables == x.tables && aborted == x.aborted && (iv, fv) == x.vehicles && (it, ft) == x.tests;
    tally' := tally.(insertedVehicles := tally.insertedVehicles + iv, failedVehicles := tally.failedVehicles + fv,
                     insertedTests := tally.insertedTests + it, failedTests := tally.failedTests + ft);
    assert tally' == RowTally(tally, x);
    ghost var r := Flushed(s, ok);
    if aborted && |buf.defects| > 0 {
      db.Rollback();
      AppendAssociates(pre, events, [RolledBack]);
      assert db.tables == committed && r == s.(tally := tally', events := events + [RolledBack], raised := true);
      return tally', flushes, true, events + [RolledBack];
    }
    assert !(x.aborted && |s.batch.defects| > 0);
    assert r == Settled(s.(tally := tally'), x.tables, aborted, ok);
    tally', flushes', events' := SettleFlush(db, buf, processed, tally', flushes, events, pre, committed, aborted, ok);
    raised := false;
  }

  /** The lookups, the defect insert, the commit or rollback, and clearing the buffers. */
  method SettleFlush(db: Database, buf: Batches, processed: nat, tally: Tally, flushes: nat,
                     ghost events: seq<Event>, ghost pre: seq<Event>, ghost committed: Tables, aborted: bool, ok: Oracle)
    returns (tally': Tally, flushes': nat, ghost events': seq<Event>)
    requires db.committed == committed && db.journal == pre + events
    modifies db, buf
    ensures Scan(db.tables, buf.Contents(), processed, tally', flushes', events', false) ==
      Settled(Scan(committed, old(buf.Contents()), processed, tally, flushes, events, false), old(db.tables), aborted, ok)
    ensures db.committed == db.tables && db.importLog == old(db.importLog)
    ensures db.triggersEnabled == old(db.triggersEnabled) && db.journal == pre + events'
  {
    ghost var r := Settled(Scan(committed, buf.Contents(), processed, tally, flushes, events, false), db.tables, aborted, ok);
    ghost var txn := db.tables;
    var rows := LookupDefectRows(db, buf.defects);
    var succeeded := ok(DefectInsert, flushes);
    var id := BatchInsertDefects(db, rows, succeeded);
    tally' := tally.(insertedDefects := tally.insertedDefects + id);
    assert tally' == r.tally;
    if aborted || (|rows| > 0 && !succeeded) {
      db.Rollback();
      events' := events + [RolledBack];
      AppendAssociates(pre, events, [RolledBack]);
      assert db.tables == committed == r.tables;
    } else {
      db.Commit();
      events' := events + [Committed];
      AppendAssociates(pre, events, [Committed]);
      assert db.tables == InsertDefectsStmt(txn, rows, succeeded) == r.tables;
    }
    assert events' == r.events;
    buf.Clear();
    flushes' := flushes + 1;
  }

  /** The flush check after a line. */
  method CheckFlush(db: Database, buf: Batches, processed: nat, tally: Tally, flushes: nat,
                    ghost events: seq<Event>, ghost pre: seq<Event>, batchSize: nat, ok: Oracle)
    returns (tally': Tally, flushes': nat, raised: bool, ghost events': seq<Event>)
    requires batchSize > 0 && db.committed == db.tables && db.journal == pre + events
    modifies db, buf
    ensures Scan(db.tables, buf.Contents(), processed, tally', flushes', events', raised) ==
      Check(Scan(old(db.tables), old(buf.Contents()), processed, tally, flushes, events, false), batchSize, ok)
    ensures db.committed == db.tables && db.importLog == old(db.importLog)
    ensures db.triggersEnabled == old(db.triggersEnabled) && db.journal == pre + events'
  {
    if processed % batchSize == 0 {
      tally', flushes', raised, events' := FlushBatches(db, buf, processed, tally, flushes, events, pre, ok);
    } else {
      tally', flushes', raised, events' := tally, flushes, false, events;
    }
  }

  /** One iteration of the line loop, on a loop that has not raised. */
  method ProcessLine(db: Database, buf: Batches, line: Line, processed: nat, tally: Tally, flushes: nat,
                     ghost events: seq<Event>, ghost pre: seq<Event>, batchSize: nat, ok: Oracle)
    returns (processed': nat, tally': Tally, flushes': nat, raised: bool, ghost events': seq<Event>)
    requires batchSize > 0 && db.committed == db.tables && db.journal == pre + events
    modifies db, buf
    ensures Scan(db.tables, buf.Contents(), processed', tally', flushes', events', raised) ==
      Step(Scan(old(db.tables), old(buf.Contents()), processed, tally, flushes, events, false), line, batchSize, ok)
    ensures db.committed == db.tables && db.importLog == old(db.importLog)
    ensures db.triggersEnabled == old(db.triggersEnabled) && db.journal == pre + events'
  {
    processed' := processed + 1;
    match line {
      case NonObject =>
        return processed', tally, flushes, true, events;
      case Undecodable =>
      case Object(v) =>
        if !Truthy(v.registration) {
          return processed', tally, flushes, false, events;
        }
        var registration := v.registration.value;
        buf.vehicles := buf.vehicles + [MySqlBatch.Entry(registration, v)];
        var complete := ExpandTests(buf, registration, v.motTests);
        if !complete {
          return processed', tally, flushes, true, events;
        }
    }
    tally', flushes', raised, events' := CheckFlush(db, buf, processed', tally, flushes, events, pre, batchSize, ok);
  }

  /** The loop ends at the end of the stream or at its first raise, as `Lines` does. */
  lemma LoopExit(s: Scan, lines: seq<Line>, i: nat, batchSize: nat, ok: Oracle)
    requires batchSize > 0 && i <= |lines|
    requires i < |lines| ==> Lines(s, lines[..i], batchSize, ok).raised
    ensures Lines(s, lines, batchSize, ok) == Lines(s, lines[..i], batchSize, ok)
  {
    LinesAppend(s, lines[..i], lines[i..], batchSize, ok);
    assert lines[..i] + lines[i..] == lines;
    if i < |lines| {
      LinesAfterRaise(Lines(s, lines[..i], batchSize, ok), lines[i..], batchSize, ok);
    } else {
      assert lines[i..] == [];
    }
  }

  /** Once the loop has raised, later lines change nothing. */
  lemma {:induction false} LinesAfterRaise(s: Scan, lines: seq<Line>, batchSize: nat, ok: Oracle)
    requires batchSize > 0 && s.raised
    ensures Lines(s, lines, batchSize, ok) == s
    decreases |lines|
  {
    if lines != [] {
      LinesAfterRaise(s, lines[..|lines| - 1], batchSize, ok);
    }
  }

  /** The loop over `a + b` is the loop over `b` started where the loop over `a` ended. */
  lemma {:induction false} LinesAppend(s: Scan, a: seq<Line>, b: seq<Line>, batchSize: nat, ok: Oracle)
    requires batchSize > 0
    ensures Lines(s, a + b, batchSize, ok) == Lines(Lines(s, a, batchSize, ok), b, batchSize, ok)
    decreases |b|
  {
    if b == [] {
      assert a + b == a;
    } else {
      var ab := a + b;
      assert ab[..|ab| - 1] == a + b[..|b| - 1];
      LinesAppend(s, a, b[..|b| - 1], batchSize, ok);
    }
  }

  /** The `for line in f` loop, from empty buffers, until the stream ends or a line raises. */
  method ScanLines(db: Database, buf: Batches, lines: seq<Line>, ghost pre: seq<Event>, batchSize: nat, ok: Oracle)
    returns (processed: nat, tally: Tally, flushes: nat, raised: bool, ghost events: seq<Event>)
    requires batchSize > 0 && db.committed == db.tables && db.journal == pre
    requires buf.Contents() == EmptyBatch
    modifies db, buf
    ensures Scan(db.tables, buf.Contents(), processed, tally, flushes, events, raised) ==
      Lines(Start(old(db.tables)), lines, batchSize, ok)
    ensures db.committed == db.tables && db.importLog == old(db.importLog)
    ensures db.triggersEnabled == old(db.triggersEnabled) && db.journal == pre + events
  {
    processed, tally, flushes, raised, events := 0, NoCounts, 0, false, [];
    var i := 0;
    while i < |lines| && !raised
      invariant i <= |lines|
      invariant Scan(db.tables, buf.Contents(), processed, tally, flushes, events, raised) ==
        Lines(Start(old(db.tables)), lines[..i], batchSize, ok)
      invariant db.committed == db.tables && db.importLog == old(db.importLog)
      invariant db.triggersEnabled == old(db.triggersEnabled) && db.journal == pre + events
      decreases |lines| - i
    {
      assert lines[..i + 1][..i] == lines[..i];
      processed, tally, flushes, raised, events :=
        ProcessLine(db, buf, lines[i], processed, tally, flushes, events, pre, batchSize, ok);
      i := i + 1;
    }
    LoopExit(Start(old(db.tables)), lines, i, batchSize, ok);
  }

  /**
   * The work of `process_file` between its two status writes: the line loop,
   * then, unless it or the read raised, the leftover flush when anything is
   * buffered; returns the status it ends with.
   */
  method ScanFile(db: Database, stream: Stream, ghost pre: seq<Event>, batchSize: nat, ok: Oracle)
    returns (processed: nat, tally: Tally, status: Ledger.Status, ghost events: seq<Event>)
    requires batchSize > 0 && db.committed == db.tables && db.journal == pre
    modifies db
    ensures var run := Run(old(db.tables), stream, batchSize, ok);
      db.tables == run.scan.tables && processed == run.scan.processed && tally == run.scan.tally &&
      status == run.status && events == run.scan.events
    ensures db.committed == db.tables && db.importLog == old(db.importLog)
    ensures db.triggersEnabled == old(db.triggersEnabled) && db.journal == pre + events
  {
    ghost var s := Lines(Start(db.tables), stream.lines, batchSize, ok);
    var buf := new Batches();
    var flushes, raised;
    processed, tally, flushes, raised, events := ScanLines(db, buf, stream.lines, pre, batchSize, ok);
    if raised || stream.readFails {
      return processed, tally, Ledger.Failed, events;
    }
    if |buf.vehicles| > 0 || |buf.tests| > 0 || |buf.defects| > 0 {
      tally, flushes, raised, events := FlushBatches(db, buf, processed, tally, flushes, events, pre, ok);
    }
    status := if raised then Ledger.Failed else Ledger.Completed;
  }

  /**
   * `process_file` in row mode: STARTED, the scan, then the status it ended
   * with. Returns `processed` and the counters it logs.
   */
  method ProcessFile(db: Database, filename: string, stream: Stream, batchSize: nat, ok: Oracle)
    returns (processed: nat, tally: Tally)
    requires batchSize > 0 && db.committed == db.tables
    modifies db
    ensures var run := Run(old(db.tables), stream, batchSize, ok);
      db.tables == run.scan.tables && processed == run.scan.processed && tally == run.scan.tally &&
      db.importLog == old(db.importLog)[filename := run.status] &&
      db.journal == old(db.journal) + RunEvents(filename, run)
    ensures db.committed == db.tables && db.triggersEnabled == old(db.triggersEnabled)
  {
    ghost var before := db.journal;
    db.MarkFileStatus(filename, Ledger.Started);
    var status;
    ghost var events;
    processed, tally, status, events := ScanFile(db, stream, db.journal, batchSize, ok);
    db.MarkFileStatus(filename, status);
    ghost var started := [StatusWritten(filename, Ledger.Started)];
    AppendAssociates(before, started, events);
    AppendAssociates(before, started + events, [StatusWritten(filename, status)]);
  }
}
