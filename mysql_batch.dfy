/**
 * The row-batch machinery `delta_loader.py` and `initial_loader.py` share:
 * the three buffers, the block that admits one decoded vehicle into them,
 * the two multi-row upserts and the flush that issues them.
 */
module MySqlBatch {
  import opened Optional
  import opened Records
  import opened Store
  import Timestamps
  import Ledger

  /** Which `clean_datetime` a loader carries. */
  datatype Cleaner = StripAll | StripOne

  function Clean(c: Cleaner, dt: Option<string>): Option<string> {
    match c
    case StripAll => Timestamps.CleanDatetimeStripAll(dt)
    case StripOne => Timestamps.CleanDatetimeStripOne(dt)
  }

  /** A buffered vehicle object, with the (truthy) registration it was admitted under. */
  datatype Entry = Entry(registration: string, vehicle: Vehicle)

  /** A buffered test: the source test plus its vehicle's registration. */
  datatype TestRecord = TestRecord(registration: string, test: MotTest)

  /** A buffered defect: never given a test id, never inserted. */
  datatype HeldDefect = HeldDefect(registration: string, defect: DefectItem)

  datatype Batch = Batch(vehicles: seq<Entry>, tests: seq<TestRecord>, defects: seq<HeldDefect>)

  const EmptyBatch := Batch([], [], [])

  /** The counters `process_file` keeps and logs. */
  datatype Tally = Tally(insertedVehicles: nat, failedVehicles: nat, insertedTests: nat, failedTests: nat)

  const NoCounts := Tally(0, 0, 0, 0)

  /** The two statements a flush issues. */
  datatype Stmt = VehicleUpsert | TestUpsert

  /** Whether the statement of that kind in the flush numbered `n` (from 0) succeeds. */
  type Oracle = (Stmt, nat) -> bool

  /** The state of one `process_file` run between lines. */
  datatype Scan = Scan(tables: Tables, batch: Batch, processed: nat, tally: Tally, flushes: nat)

  function Start(t: Tables): Scan {
    Scan(t, EmptyBatch, 0, NoCounts, 0)
  }

  /** The registrations of the buffered vehicles. */
  function BatchRegistrations(b: Batch): set<string> {
    set j | 0 <= j < |b.vehicles| :: b.vehicles[j].registration
  }

  /**
   * Every buffered test and defect carries the registration of a buffered
   * vehicle (so with no vehicle buffered, nothing is).
   */
  predicate ChildrenHaveParents(b: Batch) {
    (forall i :: 0 <= i < |b.tests| ==> b.tests[i].registration in BatchRegistrations(b)) &&
    (forall i :: 0 <= i < |b.defects| ==> b.defects[i].registration in BatchRegistrations(b)) &&
    (b.vehicles == [] ==> b.tests == [] && b.defects == [])
  }

  // ---------------------------------------------------------------- one line

  function HeldDefects(registration: string, items: seq<DefectItem>): (r: seq<HeldDefect>)
    ensures |r| == |items| && forall i :: 0 <= i < |r| ==> r[i] == HeldDefect(registration, items[i])
  {
    seq(|items|, i requires 0 <= i < |items| => HeldDefect(registration, items[i]))
  }

  /** What the `motTests` loop appends, and whether it ran to the end without raising. */
  datatype Expansion = Expansion(tests: seq<TestRecord>, defects: seq<HeldDefect>, complete: bool)

  /**
   * The `motTests` loop: every test object is recorded with the vehicle's
   * registration, and its defects are held; the first element that is not an
   * object raises (`.get` on it), leaving what was appended before it.
   */
  function Expand(registration: string, items: seq<TestItem>): (x: Expansion)
    ensures x.complete <==> AllTestObjects(items)
    ensures |x.tests| <= |items|
    ensures forall i :: 0 <= i < |x.tests| ==>
      items[i].TestObject? && x.tests[i] == TestRecord(registration, items[i].test)
    ensures x.complete ==> |x.tests| == |items|
    ensures !x.complete ==> items[|x.tests|].TestOther?
    ensures forall i :: 0 <= i < |x.defects| ==> x.defects[i].registration == registration
    decreases |items|
  {
    if items == [] then Expansion([], [], true)
    else
      var x := Expand(registration, items[..|items| - 1]);
      var last := items[|items| - 1];
      if !x.complete || last.TestOther? then x.(complete := false)
      else Expansion(x.tests + [TestRecord(registration, last.test)],
                     x.defects + HeldDefects(registration, last.test.defects), true)
  }

  /** One more element of the `motTests` loop, before it has raised. */
  lemma ExpandNext(registration: string, items: seq<TestItem>, j: nat)
    requires j < |items| && Expand(registration, items[..j]).complete
    ensures var x := Expand(registration, items[..j]);
      Expand(registration, items[..j + 1]) ==
        if items[j].TestOther? then x.(complete := false)
        else Expansion(x.tests + [TestRecord(registration, items[j].test)],
                       x.defects + HeldDefects(registration, items[j].test.defects), true)
  {
    assert items[..j + 1][..j] == items[..j];
  }

  /** Once the loop has raised, later elements change nothing. */
  lemma {:induction false} ExpandStopsAtRaise(registration: string, items: seq<TestItem>, j: nat)
    requires j <= |items| && !Expand(registration, items[..j]).complete
    ensures Expand(registration, items) == Expand(registration, items[..j])
    decreases |items| - j
  {
    if j < |items| {
      var next := items[..j + 1];
      assert next[..|next| - 1] == items[..j];
      ExpandStopsAtRaise(registration, items, j + 1);
    } else {
      assert items[..j] == items;
    }
  }

  // ---------------------------------------------------------------- the upserts

  function VehicleRowOf(c: Cleaner, e: Entry): VehicleRow {
    var v := e.vehicle;
    VehicleRow(e.registration, Clean(c, v.firstUsedDate), Clean(c, v.registrationDate),
      Clean(c, v.manufactureDate), v.engineSize, Clean(c, v.lastMotTestDate), v.lastUpdateDate, v.details)
  }

  function TestRowOf(c: Cleaner, t: TestRecord): TestRow {
    TestRow(t.registration, Clean(c, t.test.completedDate), Clean(c, t.test.expiryDate), t.test.details)
  }

  function VehicleRows(c: Cleaner, es: seq<Entry>): (r: seq<VehicleRow>)
    ensures |r| == |es| && forall i :: 0 <= i < |r| ==> r[i] == VehicleRowOf(c, es[i])
  {
    seq(|es|, i requires 0 <= i < |es| => VehicleRowOf(c, es[i]))
  }

  function TestRows(c: Cleaner, ts: seq<TestRecord>): (r: seq<TestRow>)
    ensures |r| == |ts| && forall i :: 0 <= i < |r| ==> r[i] == TestRowOf(c, ts[i])
  {
    seq(|ts|, i requires 0 <= i < |ts| => TestRowOf(c, ts[i]))
  }

  /** A date column as `clean_datetime` leaves it: NULL, or text with no `T` and no `.`. */
  predicate IsCleaned(d: Option<string>) {
    d.None? || Timestamps.NoSeparators(d.value)
  }

  /** Either variant gives a cleaned value, and NULL exactly for a missing or empty input. */
  lemma CleanIsCleaned(c: Cleaner, dt: Option<string>)
    ensures IsCleaned(Clean(c, dt))
    ensures Clean(c, dt).None? <==> dt.None? || dt.value == ""
  {
  }

  /** The registrations of a list of buffered vehicles. */
  function EntryRegistrations(es: seq<Entry>): set<string> {
    set i | 0 <= i < |es| :: es[i].registration
  }

  /**
   * The vehicle rows of a flush: one per buffered vehicle, in order, under
   * its registration, so they carry exactly the buffered registrations; the
   * four date columns are cleaned (NULL only for a missing or empty date);
   * `lastUpdateDate` and the engine size are passed through as they came.
   */
  lemma VehicleRowsCleaned(c: Cleaner, es: seq<Entry>)
    ensures var r := VehicleRows(c, es);
      Registrations(r) == EntryRegistrations(es) &&
      forall i :: 0 <= i < |r| ==>
        r[i].registration == es[i].registration &&
        IsCleaned(r[i].firstUsedDate) && IsCleaned(r[i].registrationDate) &&
        IsCleaned(r[i].manufactureDate) && IsCleaned(r[i].lastMotTestDate) &&
        (r[i].firstUsedDate.None? <==> es[i].vehicle.firstUsedDate.None? || es[i].vehicle.firstUsedDate.value == "") &&
        (r[i].registrationDate.None? <==> es[i].vehicle.registrationDate.None? || es[i].vehicle.registrationDate.value == "") &&
        (r[i].manufactureDate.None? <==> es[i].vehicle.manufactureDate.None? || es[i].vehicle.manufactureDate.value == "") &&
        (r[i].lastMotTestDate.None? <==> es[i].vehicle.lastMotTestDate.None? || es[i].vehicle.lastMotTestDate.value == "") &&
        r[i].lastUpdateDate == es[i].vehicle.lastUpdateDate && r[i].engineSize == es[i].vehicle.engineSize
  {
    var r := VehicleRows(c, es);
    forall i | 0 <= i < |r|
      ensures IsCleaned(r[i].firstUsedDate) && IsCleaned(r[i].registrationDate) &&
        IsCleaned(r[i].manufactureDate) && IsCleaned(r[i].lastMotTestDate) &&
        (r[i].firstUsedDate.None? <==> es[i].vehicle.firstUsedDate.None? || es[i].vehicle.firstUsedDate.value == "") &&
        (r[i].registrationDate.None? <==> es[i].vehicle.registrationDate.None? || es[i].vehicle.registrationDate.value == "") &&
        (r[i].manufactureDate.None? <==> es[i].vehicle.manufactureDate.None? || es[i].vehicle.manufactureDate.value == "") &&
        (r[i].lastMotTestDate.None? <==> es[i].vehicle.lastMotTestDate.None? || es[i].vehicle.lastMotTestDate.value == "")
    {
      var v := es[i].vehicle;
      CleanIsCleaned(c, v.firstUsedDate);
      CleanIsCleaned(c, v.registrationDate);
      CleanIsCleaned(c, v.manufactureDate);
      CleanIsCleaned(c, v.lastMotTestDate);
    }
    forall reg | reg in EntryRegistrations(es) ensures reg in Registrations(r) {
      var i :| 0 <= i < |es| && es[i].registration == reg;
      assert r[i].registration == reg;
    }
  }

  /**
   * The test rows of a flush: one per buffered test, in order, under its
   * vehicle's registration, with both dates cleaned; a test is dated (and so
   * has a natural key) exactly when its raw completed date is non-empty.
   */
  lemma TestRowsCleaned(c: Cleaner, ts: seq<TestRecord>)
    ensures var r := TestRows(c, ts);
      forall i :: 0 <= i < |r| ==>
        r[i].registration == ts[i].registration &&
        IsCleaned(r[i].completedDate) && IsCleaned(r[i].expiryDate) &&
        (r[i].completedDate.Some? <==> ts[i].test.completedDate.Some? && ts[i].test.completedDate.value != "")
  {
    var r := TestRows(c, ts);
    forall i | 0 <= i < |r|
      ensures IsCleaned(r[i].completedDate) && IsCleaned(r[i].expiryDate) &&
        (r[i].completedDate.Some? <==> ts[i].test.completedDate.Some? && ts[i].test.completedDate.value != "")
    {
      CleanIsCleaned(c, ts[i].test.completedDate);
      CleanIsCleaned(c, ts[i].test.expiryDate);
    }
  }

  /**
   * The `(inserted, failed)` pair a batch insert returns: nothing for an empty
   * batch, otherwise all of it on one side.
   */
  function BatchCounts(n: nat, succeeded: bool): (r: (nat, nat))
    ensures r.0 + r.1 == n
    ensures r.0 == 0 || r.1 == 0
    ensures n > 0 ==> (succeeded <==> r == (n, 0))
  {
    if n == 0 then (0, 0) else if succeeded then (n, 0) else (0, n)
  }

  /**
   * One flush: upsert the vehicles, then the tests (each all-or-nothing, a
   * failed statement leaving the table as it was), commit, clear all three
   * buffers. The held defects are dropped.
   */
  function Flushed(c: Cleaner, s: Scan, ok: Oracle): Scan {
    var k := s.flushes;
    var vOk, tOk := ok(VehicleUpsert, k), ok(TestUpsert, k);
    var vs, ts := VehicleRows(c, s.batch.vehicles), TestRows(c, s.batch.tests);
    var vehicles := if |vs| > 0 && vOk then UpsertVehicles(s.tables.vehicles, vs) else s.tables.vehicles;
    var tests := if |ts| > 0 && tOk then UpsertTests(s.tables.tests, ts) else s.tables.tests;
    var v, t := BatchCounts(|vs|, vOk), BatchCounts(|ts|, tOk);
    Scan(Tables(vehicles, tests, s.tables.defects), EmptyBatch, s.processed,
      Tally(s.tally.insertedVehicles + v.0, s.tally.failedVehicles + v.1,
            s.tally.insertedTests + t.0, s.tally.failedTests + t.1),
      k + 1)
  }

  /**
   * The parse-and-append block for a vehicle with a registration: append it,
   * expand its tests; if that did not raise, count it and flush on a multiple
   * of the batch size.
   */
  function Admit(c: Cleaner, s: Scan, e: Entry, batchSize: nat, ok: Oracle): Scan
    requires batchSize > 0
  {
    var x := Expand(e.registration, e.vehicle.motTests);
    var s1 := s.(batch := Batch(s.batch.vehicles + [e], s.batch.tests + x.tests, s.batch.defects + x.defects));
    if !x.complete then s1
    else
      var s2 := s1.(processed := s.processed + 1);
      if s2.processed % batchSize == 0 then Flushed(c, s2, ok) else s2
  }

  /** The leftover flush at end of stream, issued when a vehicle or test is buffered. */
  function FinalFlush(c: Cleaner, s: Scan, ok: Oracle): Scan {
    if |s.batch.vehicles| > 0 || |s.batch.tests| > 0 then Flushed(c, s, ok) else s
  }

  /** How one `process_file` run ends: the last scan and the status recorded. */
  datatype FileRun = FileRun(scan: Scan, status: Ledger.Status)

  /** The events one run records: STARTED, one commit per flush, then the final status. */
  function RunEvents(filename: string, run: FileRun): seq<Event> {
    [StatusWritten(filename, Ledger.Started)] + Commits(run.scan.flushes) + [StatusWritten(filename, run.status)]
  }

  // ---------------------------------------------------------------- properties

  lemma {:induction false} MulAtLeast(d: int, b: int)
    requires b > 0
    ensures d >= 1 ==> d * b >= b
    decreases if d < 0 then 0 else d
  {
    if d > 1 {
      MulAtLeast(d - 1, b);
      assert d * b == (d - 1) * b + b;
    }
  }

  /** Euclidean division is determined by any quotient and remainder in range. */
  lemma DivUnique(n: int, b: int, q: int, r: int)
    requires b > 0 && 0 <= r < b && n == q * b + r
    ensures n / b == q
  {
    var q0, r0 := n / b, n % b;
    assert n == q0 * b + r0 && 0 <= r0 < b;
    assert (q0 - q) * b == q0 * b - q * b;
    assert (q - q0) * b == q * b - q0 * b;
    MulAtLeast(q0 - q, b);
    MulAtLeast(q - q0, b);
  }

  lemma DivStep(p: nat, b: nat)
    requires b > 0
    ensures (p + 1) % b == 0 ==> (p + 1) / b == p / b + 1
    ensures (p + 1) % b != 0 ==> (p + 1) / b == p / b && (p + 1) % b == p % b + 1
  {
    var q, r := p / b, p % b;
    assert p == q * b + r && 0 <= r < b;
    if r + 1 == b {
      assert p + 1 == (q + 1) * b + 0 by {
        assert (q + 1) * b == q * b + b;
      }
      DivUnique(p + 1, b, q + 1, 0);
      assert (p + 1) % b == 0;
    } else {
      DivUnique(p + 1, b, q, r + 1);
      assert (p + 1) % b == r + 1;
    }
  }

  /**
   * A flush empties the buffers, keeps the count, writes no defect, and keeps
   * the test keys unique; each counter pair grows by exactly the size of its
   * buffer.
   */
  lemma FlushedProperties(c: Cleaner, s: Scan, ok: Oracle)
    ensures var r := Flushed(c, s, ok);
      r.batch == EmptyBatch && r.processed == s.processed && r.flushes == s.flushes + 1 &&
      r.tables.defects == s.tables.defects &&
      (KeysUnique(s.tables.tests) ==> KeysUnique(r.tables.tests)) &&
      r.tally.insertedVehicles + r.tally.failedVehicles ==
        s.tally.insertedVehicles + s.tally.failedVehicles + |s.batch.vehicles| &&
      r.tally.insertedTests + r.tally.failedTests ==
        s.tally.insertedTests + s.tally.failedTests + |s.batch.tests|
  {
    if KeysUnique(s.tables.tests) {
      UpsertTestsProperties(s.tables.tests, TestRows(c, s.batch.tests));
    }
  }

  /** Appending a vehicle with children carrying its registration keeps every child's parent in the batch. */
  lemma AppendKeepsParents(b0: Batch, e: Entry, x: Expansion)
    requires ChildrenHaveParents(b0)
    requires forall i :: 0 <= i < |x.tests| ==> x.tests[i].registration == e.registration
    requires forall i :: 0 <= i < |x.defects| ==> x.defects[i].registration == e.registration
    ensures ChildrenHaveParents(Batch(b0.vehicles + [e], b0.tests + x.tests, b0.defects + x.defects))
  {
    var b := Batch(b0.vehicles + [e], b0.tests + x.tests, b0.defects + x.defects);
    assert e.registration in BatchRegistrations(b) by {
      assert b.vehicles[|b.vehicles| - 1] == e;
    }
    assert BatchRegistrations(b0) <= BatchRegistrations(b) by {
      forall r | r in BatchRegistrations(b0) ensures r in BatchRegistrations(b) {
        var j :| 0 <= j < |b0.vehicles| && b0.vehicles[j].registration == r;
        assert b.vehicles[j] == b0.vehicles[j];
      }
    }
    forall i | 0 <= i < |b.tests| ensures b.tests[i].registration in BatchRegistrations(b) {
      if i >= |b0.tests| { assert b.tests[i] == x.tests[i - |b0.tests|]; }
    }
    forall i | 0 <= i < |b.defects| ensures b.defects[i].registration in BatchRegistrations(b) {
      if i >= |b0.defects| { assert b.defects[i] == x.defects[i - |b0.defects|]; }
    }
  }

  /**
   * Counting: `processed` goes up by one exactly when the vehicle's tests
   * expand without raising, and the number of flushes stays
   * `processed / batchSize`.
   */
  lemma AdmitCounts(c: Cleaner, s: Scan, e: Entry, batchSize: nat, ok: Oracle)
    requires batchSize > 0
    ensures var r := Admit(c, s, e, batchSize, ok);
      r.processed == s.processed + (if AllTestObjects(e.vehicle.motTests) then 1 else 0) &&
      (s.flushes == s.processed / batchSize ==> r.flushes == r.processed / batchSize) &&
      s.flushes <= r.flushes <= s.flushes + 1
  {
    DivStep(s.processed, batchSize);
  }

  /**
   * When no test raises, the buffered vehicles are exactly those counted
   * since the last flush: fewer than the batch size.
   */
  lemma AdmitBatchSize(c: Cleaner, s: Scan, e: Entry, batchSize: nat, ok: Oracle)
    requires batchSize > 0 && AllTestObjects(e.vehicle.motTests)
    requires |s.batch.vehicles| == s.processed % batchSize
    ensures var r := Admit(c, s, e, batchSize, ok);
      |r.batch.vehicles| == r.processed % batchSize < batchSize
  {
    DivStep(s.processed, batchSize);
  }

  /**
   * What one admitted vehicle does to the store and the buffers: buffered
   * children keep their parents, no defect is ever written, test keys stay
   * unique.
   */
  lemma AdmitKeeps(c: Cleaner, s: Scan, e: Entry, batchSize: nat, ok: Oracle)
    requires batchSize > 0
    ensures var r := Admit(c, s, e, batchSize, ok);
      (ChildrenHaveParents(s.batch) ==> ChildrenHaveParents(r.batch)) &&
      r.tables.defects == s.tables.defects &&
      (KeysUnique(s.tables.tests) ==> KeysUnique(r.tables.tests))
  {
    var x := Expand(e.registration, e.vehicle.motTests);
    var b := Batch(s.batch.vehicles + [e], s.batch.tests + x.tests, s.batch.defects + x.defects);
    FlushedProperties(c, s.(batch := b, processed := s.processed + 1), ok);
    if ChildrenHaveParents(s.batch) {
      AppendKeepsParents(s.batch, e, x);
    }
  }

  // ---------------------------------------------------------------- re-running a file

  /**
   * Two scans of the same lines with the same statement outcomes, one from
   * tables `a0` and one from `b0`, side by side: they agree on everything but
   * the tables, neither loses a vehicle or test key, and both gained the same
   * keys.
   */
  predicate InStep(a0: Tables, a: Scan, b0: Tables, b: Scan) {
    a.batch == b.batch && a.processed == b.processed && a.tally == b.tally && a.flushes == b.flushes &&
    a0.vehicles.Keys <= a.tables.vehicles.Keys && b0.vehicles.Keys <= b.tables.vehicles.Keys &&
    a.tables.vehicles.Keys + b0.vehicles.Keys == b.tables.vehicles.Keys + a0.vehicles.Keys &&
    TestKeys(a0.tests) <= TestKeys(a.tables.tests) && TestKeys(b0.tests) <= TestKeys(b.tables.tests) &&
    TestKeys(a.tables.tests) + TestKeys(b0.tests) == TestKeys(b.tables.tests) + TestKeys(a0.tests)
  }

  /** Adding the same keys to both sides keeps two key sets in step. */
  lemma GrowInStep<K>(a0: set<K>, a: set<K>, b0: set<K>, b: set<K>, d: set<K>)
    requires a0 <= a && b0 <= b && a + b0 == b + a0
    ensures a0 <= a + d && b0 <= b + d && (a + d) + b0 == (b + d) + a0
  {
  }

  /** A flush adds the upserted registrations to the vehicle keys. */
  lemma FlushedVehicleKeys(c: Cleaner, s: Scan, ok: Oracle)
    ensures var vs := VehicleRows(c, s.batch.vehicles);
      Flushed(c, s, ok).tables.vehicles.Keys == s.tables.vehicles.Keys +
        (if |vs| > 0 && ok(VehicleUpsert, s.flushes) then Registrations(vs) else {})
  {
    UpsertVehiclesKeys(s.tables.vehicles, VehicleRows(c, s.batch.vehicles));
  }

  /** A flush adds the upserted rows' dated keys to the test keys. */
  lemma FlushedTestKeys(c: Cleaner, s: Scan, ok: Oracle)
    ensures var ts := TestRows(c, s.batch.tests);
      TestKeys(Flushed(c, s, ok).tables.tests) == TestKeys(s.tables.tests) +
        (if |ts| > 0 && ok(TestUpsert, s.flushes) then TestKeys(ts) else {})
  {
    UpsertTestsKeys(s.tables.tests, TestRows(c, s.batch.tests));
  }

  /** Apart from the tables, a flush does not depend on what is stored. */
  lemma FlushedApartFromTables(c: Cleaner, a: Scan, b: Scan, ok: Oracle)
    requires a.batch == b.batch && a.processed == b.processed && a.tally == b.tally && a.flushes == b.flushes
    ensures var fa, fb := Flushed(c, a, ok), Flushed(c, b, ok);
      fa.batch == fb.batch && fa.processed == fb.processed && fa.tally == fb.tally && fa.flushes == fb.flushes
  {
  }

  /** A flush of the same buffers adds the same keys to either table. */
  lemma FlushedInStep(c: Cleaner, a0: Tables, a: Scan, b0: Tables, b: Scan, ok: Oracle)
    requires InStep(a0, a, b0, b)
    ensures InStep(a0, Flushed(c, a, ok), b0, Flushed(c, b, ok))
  {
    FlushedVehicleKeys(c, a, ok);
    FlushedVehicleKeys(c, b, ok);
    FlushedTestKeys(c, a, ok);
    FlushedTestKeys(c, b, ok);
    FlushedApartFromTables(c, a, b, ok);
    var vs, ts := VehicleRows(c, a.batch.vehicles), TestRows(c, a.batch.tests);
    var dv := if |vs| > 0 && ok(VehicleUpsert, a.flushes) then Registrations(vs) else {};
    var dt := if |ts| > 0 && ok(TestUpsert, a.flushes) then TestKeys(ts) else {};
    GrowInStep(a0.vehicles.Keys, a.tables.vehicles.Keys, b0.vehicles.Keys, b.tables.vehicles.Keys, dv);
    GrowInStep(TestKeys(a0.tests), TestKeys(a.tables.tests), TestKeys(b0.tests), TestKeys(b.tables.tests), dt);
  }

  /** Buffering one vehicle does not touch the tables, so it keeps the runs in step. */
  lemma BufferInStep(a0: Tables, a: Scan, b0: Tables, b: Scan, batch: Batch, n: nat)
    requires InStep(a0, a, b0, b)
    ensures InStep(a0, a.(batch := batch, processed := a.processed + n), b0, b.(batch := batch, processed := b.processed + n))
  {
  }

  /** `Admit` is a buffering followed, on a complete vehicle at a batch boundary, by a flush. */
  lemma AdmitCases(c: Cleaner, s: Scan, e: Entry, batchSize: nat, ok: Oracle)
    requires batchSize > 0
    ensures var x := Expand(e.registration, e.vehicle.motTests);
      var batch := Batch(s.batch.vehicles + [e], s.batch.tests + x.tests, s.batch.defects + x.defects);
      var s1 := s.(batch := batch);
      var s2 := s1.(processed := s.processed + 1);
      Admit(c, s, e, batchSize, ok) ==
        if !x.complete then s1
        else if s2.processed % batchSize == 0 then Flushed(c, s2, ok) else s2
  {
  }

  lemma AdmitInStep(c: Cleaner, a0: Tables, a: Scan, b0: Tables, b: Scan, e: Entry, batchSize: nat, ok: Oracle)
    requires batchSize > 0 && InStep(a0, a, b0, b)
    ensures InStep(a0, Admit(c, a, e, batchSize, ok), b0, Admit(c, b, e, batchSize, ok))
  {
    var x := Expand(e.registration, e.vehicle.motTests);
    var batch := Batch(a.batch.vehicles + [e], a.batch.tests + x.tests, a.batch.defects + x.defects);
    AdmitCases(c, a, e, batchSize, ok);
    AdmitCases(c, b, e, batchSize, ok);
    if !x.complete {
      BufferInStep(a0, a, b0, b, batch, 0);
      assert a.(batch := batch, processed := a.processed + 0) == a.(batch := batch);
      assert b.(batch := batch, processed := b.processed + 0) == b.(batch := batch);
    } else {
      BufferInStep(a0, a, b0, b, batch, 1);
      var a2, b2 := a.(batch := batch).(processed := a.processed + 1), b.(batch := batch).(processed := b.processed + 1);
      assert a2 == a.(batch := batch, processed := a.processed + 1);
      assert b2 == b.(batch := batch, processed := b.processed + 1);
      if a2.processed % batchSize == 0 {
        FlushedInStep(c, a0, a2, b0, b2, ok);
      }
    }
  }

  lemma FinalFlushInStep(c: Cleaner, a0: Tables, a: Scan, b0: Tables, b: Scan, ok: Oracle)
    requires InStep(a0, a, b0, b)
    ensures InStep(a0, FinalFlush(c, a, ok), b0, FinalFlush(c, b, ok))
  {
    if |a.batch.vehicles| > 0 || |a.batch.tests| > 0 {
      FlushedInStep(c, a0, a, b0, b, ok);
    }
  }

  /**
   * Once the first run's tables are the second run's start, the second run
   * gains no key: its final keys are those the first run ended with.
   */
  lemma RerunKeys(t0: Tables, t1: Tables, a: Scan, b: Scan)
    requires a.tables == t1 && InStep(t0, a, t1, b)
    ensures b.tables.vehicles.Keys == t1.vehicles.Keys && |b.tables.vehicles| == |t1.vehicles|
    ensures TestKeys(b.tables.tests) == TestKeys(t1.tests)
  {
  }

  // ---------------------------------------------------------------- imperative side

  /** The three batch lists of one `process_file` run, appended to and cleared in place. */
  class Batches {
    var vehicles: seq<Entry>
    var tests: seq<TestRecord>
    var defects: seq<HeldDefect>

    function Contents(): Batch
      reads this
    {
      Batch(vehicles, tests, defects)
    }

    constructor ()
      ensures Contents() == EmptyBatch
    {
      vehicles, tests, defects := [], [], [];
    }

    method Clear()
      modifies this
      ensures Contents() == EmptyBatch
    {
      vehicles, tests, defects := [], [], [];
    }
  }

  /** `batch_insert_vehicles`: builds one row per buffered vehicle, then runs the upsert. */
  method BatchInsertVehicles(db: Database, c: Cleaner, batch: seq<Entry>, succeeded: bool)
    returns (inserted: nat, failed: nat)
    modifies db
    ensures (inserted, failed) == BatchCounts(|batch|, succeeded)
    ensures db.tables == if |batch| > 0 && succeeded
      then old(db.tables).(vehicles := UpsertVehicles(old(db.tables).vehicles, VehicleRows(c, batch)))
      else old(db.tables)
    ensures db.committed == old(db.committed) && db.importLog == old(db.importLog)
    ensures db.triggersEnabled == old(db.triggersEnabled) && db.journal == old(db.journal)
  {
    if |batch| == 0 {
      return 0, 0;
    }
    var rows := BuildVehicleRows(c, batch);
    if succeeded {
      db.Execute(db.tables.(vehicles := UpsertVehicles(db.tables.vehicles, rows)));
      return |batch|, 0;
    }
    return 0, |batch|;
  }

  /** The row-building loop of `batch_insert_vehicles`: one row per buffered vehicle, in order. */
  method BuildVehicleRows(c: Cleaner, batch: seq<Entry>) returns (rows: seq<VehicleRow>)
    ensures rows == VehicleRows(c, batch)
  {
    rows := [];
    var i := 0;
    while i < |batch|
      invariant i <= |batch| && rows == VehicleRows(c, batch[..i])
    {
      assert batch[..i + 1] == batch[..i] + [batch[i]];
      VehicleRowsSnoc(c, batch[..i], batch[i]);
      rows := rows + [VehicleRowOf(c, batch[i])];
      i := i + 1;
    }
    assert batch[..i] == batch;
  }

  /** One more vehicle, one more row. */
  lemma VehicleRowsSnoc(c: Cleaner, xs: seq<Entry>, x: Entry)
    ensures VehicleRows(c, xs + [x]) == VehicleRows(c, xs) + [VehicleRowOf(c, x)]
  {
  }

  /** The row-building loop of `batch_insert_mot_tests`: one row per buffered test, in order. */
  method BuildTestRows(c: Cleaner, batch: seq<TestRecord>) returns (rows: seq<TestRow>)
    ensures rows == TestRows(c, batch)
  {
    rows := [];
    var i := 0;
    while i < |batch|
      invariant i <= |batch| && rows == TestRows(c, batch[..i])
    {
      assert batch[..i + 1] == batch[..i] + [batch[i]];
      TestRowsSnoc(c, batch[..i], batch[i]);
      rows := rows + [TestRowOf(c, batch[i])];
      i := i + 1;
    }
    assert batch[..i] == batch;
  }

  /** One more test, one more row. */
  lemma TestRowsSnoc(c: Cleaner, xs: seq<TestRecord>, x: TestRecord)
    ensures TestRows(c, xs + [x]) == TestRows(c, xs) + [TestRowOf(c, x)]
  {
  }

  /** `batch_insert_mot_tests`: builds one row per buffered test, then runs the upsert. */
  method BatchInsertTests(db: Database, c: Cleaner, batch: seq<TestRecord>, succeeded: bool)
    returns (inserted: nat, failed: nat)
    modifies db
    ensures (inserted, failed) == BatchCounts(|batch|, succeeded)
    ensures db.tables == if |batch| > 0 && succeeded
      then old(db.tables).(tests := UpsertTests(old(db.tables).tests, TestRows(c, batch)))
      else old(db.tables)
    ensures db.committed == old(db.committed) && db.importLog == old(db.importLog)
    ensures db.triggersEnabled == old(db.triggersEnabled) && db.journal == old(db.journal)
  {
    if |batch| == 0 {
      return 0, 0;
    }
    var rows := BuildTestRows(c, batch);
    if succeeded {
      db.Execute(db.tables.(tests := UpsertTests(db.tables.tests, rows)));
      return |batch|, 0;
    }
    return 0, |batch|;
  }

  /** A flush on a fresh connection: both upserts, commit, clear the three lists. */
  method FlushBatches(db: Database, buf: Batches, c: Cleaner, processed: nat, tally: Tally, flushes: nat, ok: Oracle)
    returns (tally': Tally, flushes': nat)
    modifies db, buf
    ensures Scan(db.tables, buf.Contents(), processed, tally', flushes') ==
      Flushed(c, Scan(old(db.tables), old(buf.Contents()), processed, tally, flushes), ok)
    ensures db.committed == db.tables && db.importLog == old(db.importLog)
    ensures db.triggersEnabled == old(db.triggersEnabled) && db.journal == old(db.journal) + [Committed]
  {
    var iv, fv := BatchInsertVehicles(db, c, buf.vehicles, ok(VehicleUpsert, flushes));
    var it, ft := BatchInsertTests(db, c, buf.tests, ok(TestUpsert, flushes));
    db.Commit();
    buf.Clear();
    tally' := Tally(tally.insertedVehicles + iv, tally.failedVehicles + fv,
                    tally.insertedTests + it, tally.failedTests + ft);
    flushes' := flushes + 1;
  }

  /** The inner loop: hold every defect of one test under the vehicle's registration. */
  method HoldDefects(buf: Batches, registration: string, items: seq<DefectItem>)
    modifies buf
    ensures buf.defects == old(buf.defects) + HeldDefects(registration, items)
    ensures buf.vehicles == old(buf.vehicles) && buf.tests == old(buf.tests)
  {
    var k := 0;
    while k < |items|
      invariant k <= |items|
      invariant buf.defects == old(buf.defects) + HeldDefects(registration, items[..k])
      invariant buf.vehicles == old(buf.vehicles) && buf.tests == old(buf.tests)
    {
      assert HeldDefects(registration, items[..k + 1]) ==
        HeldDefects(registration, items[..k]) + [HeldDefect(registration, items[k])];
      buf.defects := buf.defects + [HeldDefect(registration, items[k])];
      k := k + 1;
    }
    assert items[..k] == items;
  }

  /**
   * The `motTests` loop: record each test object and hold its defects; a
   * non-object element ends the loop as its exception would.
   */
  method ExpandTests(buf: Batches, registration: string, items: seq<TestItem>) returns (complete: bool)
    modifies buf
    ensures var x := Expand(registration, items);
      complete == x.complete && buf.tests == old(buf.tests) + x.tests && buf.defects == old(buf.defects) + x.defects
    ensures buf.vehicles == old(buf.vehicles)
  {
    var j := 0;
    complete := true;
    while j < |items| && complete
      invariant 0 <= j <= |items|
      invariant buf.vehicles == old(buf.vehicles)
      decreases |items| - j
      invariant var x := Expand(registration, items[..j]);
        x.complete == complete && buf.tests == old(buf.tests) + x.tests && buf.defects == old(buf.defects) + x.defects
    {
      ExpandNext(registration, items, j);
      ghost var next := Expand(registration, items[..j + 1]);
      match items[j] {
        case TestOther =>
          complete := false;
        case TestObject(t) =>
          ghost var x := Expand(registration, items[..j]);
          buf.tests := buf.tests + [TestRecord(registration, t)];
          HoldDefects(buf, registration, t.defects);
          AppendAssociates(old(buf.defects), x.defects, HeldDefects(registration, t.defects));
          AppendAssociates(old(buf.tests), x.tests, [TestRecord(registration, t)]);
      }
      j := j + 1;
      assert Expand(registration, items[..j]) == next;
    }
    if complete {
      assert items[..j] == items;
    } else {
      ExpandStopsAtRaise(registration, items, j);
    }
  }

  /**
   * The tail of the parse-and-append block: flush when the count of processed
   * vehicles has reached a multiple of the batch size.
   */
  method FlushIfDue(db: Database, buf: Batches, c: Cleaner,
                    processed: nat, tally: Tally, flushes: nat, batchSize: nat, ok: Oracle)
    returns (tally': Tally, flushes': nat)
    requires batchSize > 0 && db.committed == db.tables
    modifies db, buf
    ensures Scan(db.tables, buf.Contents(), processed, tally', flushes') ==
      (var s := Scan(old(db.tables), old(buf.Contents()), processed, tally, flushes);
       if processed % batchSize == 0 then Flushed(c, s, ok) else s)
    ensures db.committed == db.tables && db.importLog == old(db.importLog)
    ensures db.triggersEnabled == old(db.triggersEnabled)
    ensures flushes <= flushes' && db.journal == old(db.journal) + Commits(flushes' - flushes)
  {
    if processed % batchSize == 0 {
      tally', flushes' := FlushBatches(db, buf, c, processed, tally, flushes, ok);
      assert Commits(1) == [Committed];
    } else {
      tally', flushes' := tally, flushes;
      assert Commits(0) == [];
    }
  }

  /**
   * One parse-and-append block for a vehicle with a registration: append it,
   * walk its tests, count it and flush on a multiple of the batch size.
   */
  method AdmitVehicle(db: Database, buf: Batches, c: Cleaner, e: Entry,
                      processed: nat, tally: Tally, flushes: nat, batchSize: nat, ok: Oracle)
    returns (processed': nat, tally': Tally, flushes': nat)
    requires batchSize > 0 && db.committed == db.tables
    modifies db, buf
    ensures Scan(db.tables, buf.Contents(), processed', tally', flushes') ==
      Admit(c, Scan(old(db.tables), old(buf.Contents()), processed, tally, flushes), e, batchSize, ok)
    ensures db.committed == db.tables && db.importLog == old(db.importLog)
    ensures db.triggersEnabled == old(db.triggersEnabled)
    ensures flushes <= flushes' && db.journal == old(db.journal) + Commits(flushes' - flushes)
  {
    buf.vehicles := buf.vehicles + [e];
    var complete := ExpandTests(buf, e.registration, e.vehicle.motTests);
    if !complete {
      assert Commits(0) == [];
      return processed, tally, flushes;
    }
    processed' := processed + 1;
    tally', flushes' := FlushIfDue(db, buf, c, processed', tally, flushes, batchSize, ok);
  }
}
