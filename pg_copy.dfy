/**
 * `PG_initial_loader.py`, COPY mode (`process_file_copy`): the PostgreSQL
 * loader that writes every line into three temporary CSV files (vehicles,
 * tests, defects keyed by registration and completed date), then loads them
 * in one transaction with `COPY`, resolving defects to tests by a join.
 *
 * Unlike row mode, an exception inside a line is caught and the next line is
 * read, so a bad line never stops the file; what the line wrote before it
 * raised stays written. COPY mode writes nothing to `import_log`.
 */
module PgCopy {
  import opened Optional
  import opened Records
  import opened Store
  import MySqlBatch
  import PgLoader
  import Timestamps

  // ---------------------------------------------------------------- staging

  /** A `tmp_defects` row: the vehicle's registration, the test's cleaned completed date, the defect. */
  datatype DefectCsvRow = DefectCsvRow(registration: string, completedDate: Option<string>, defect: Defect)

  /** What the three temporary CSV files hold. */
  datatype Staging = Staging(vehicles: seq<VehicleRow>, tests: seq<TestRow>, defects: seq<DefectCsvRow>)

  const NothingStaged := Staging([], [], [])

  /**
   * A vehicles CSV row: the four dates cleaned as in row mode and the last
   * update date cleaned as well; the engine size is written as it came.
   */
  function VehicleCsvRow(e: MySqlBatch.Entry): VehicleRow {
    MySqlBatch.VehicleRowOf(MySqlBatch.StripOne, e)
      .(lastUpdateDate := Timestamps.CleanDatetimeStripOne(e.vehicle.lastUpdateDate))
  }

  function DefectCsvRowOf(h: PgLoader.HeldDefect): DefectCsvRow {
    DefectCsvRow(h.registration, Timestamps.CleanDatetimeStripOne(h.completedDate), h.defect)
  }

  function DefectCsvRows(held: seq<PgLoader.HeldDefect>): (r: seq<DefectCsvRow>)
    ensures |r| == |held| && forall k :: 0 <= k < |r| ==> r[k] == DefectCsvRowOf(held[k])
  {
    seq(|held|, k requires 0 <= k < |held| => DefectCsvRowOf(held[k]))
  }

  lemma DefectCsvRowsAppend(a: seq<PgLoader.HeldDefect>, b: seq<PgLoader.HeldDefect>)
    ensures DefectCsvRows(a + b) == DefectCsvRows(a) + DefectCsvRows(b)
  {
    var r, s := DefectCsvRows(a + b), DefectCsvRows(a) + DefectCsvRows(b);
    forall k | 0 <= k < |r|
      ensures r[k] == s[k]
    {
      if k < |a| {
        assert (a + b)[k] == a[k];
      } else {
        assert (a + b)[k] == b[k - |a|];
      }
    }
  }

  /**
   * One line. A line that does not decode, is not an object or has no
   * registration writes nothing. Otherwise the vehicle row, then each test
   * row followed by its defect rows, up to the first test or defect that is
   * not an object: the exception it raises is caught, and the rows written
   * before it stay.
   */
  function StageLine(st: Staging, line: Line): Staging {
    if !HasRegistration(line) then st
    else
      var registration := line.vehicle.registration.value;
      var x := PgLoader.Expand(registration, line.vehicle.motTests);
      Staging(st.vehicles + [VehicleCsvRow(MySqlBatch.Entry(registration, line.vehicle))],
              st.tests + MySqlBatch.TestRows(MySqlBatch.StripOne, x.tests),
              st.defects + DefectCsvRows(x.defects))
  }

  /** The three CSV files after the `for line in f` loop. */
  function Stage(lines: seq<Line>): Staging
    decreases |lines|
  {
    if lines == [] then NothingStaged
    else StageLine(Stage(lines[..|lines| - 1]), lines[|lines| - 1])
  }

  /** Every test row carries the registration of some vehicle row. */
  predicate TestsHaveVehicles(vehicles: seq<VehicleRow>, tests: seq<TestRow>) {
    forall i :: 0 <= i < |tests| ==> tests[i].registration in Registrations(vehicles)
  }

  /** Every defect row has a test row with its registration and completed date. */
  predicate DefectsHaveTests(tests: seq<TestRow>, defects: seq<DefectCsvRow>) {
    forall j :: 0 <= j < |defects| ==>
      exists i :: 0 <= i < |tests| && tests[i].registration == defects[j].registration &&
        tests[i].completedDate == defects[j].completedDate
  }

  /**
   * Every staged test has a staged vehicle, and every staged defect has a
   * staged test with its registration and cleaned completed date.
   */
  predicate StagedParents(st: Staging) {
    TestsHaveVehicles(st.vehicles, st.tests) && DefectsHaveTests(st.tests, st.defects)
  }

  /** A vehicle is staged for every line that has a registration, and for no other. */
  lemma {:induction false} StageVehicles(lines: seq<Line>, registration: string)
    ensures registration in Registrations(Stage(lines).vehicles) <==>
      exists i :: 0 <= i < |lines| && HasRegistration(lines[i]) && lines[i].vehicle.registration.value == registration
    decreases |lines|
  {
    if lines != [] {
      var init, last := lines[..|lines| - 1], lines[|lines| - 1];
      StageVehicles(init, registration);
      var a := Stage(init).vehicles;
      var r := Stage(lines).vehicles;
      if HasRegistration(last) {
        var row := VehicleCsvRow(MySqlBatch.Entry(last.vehicle.registration.value, last.vehicle));
        assert r == a + [row];
        RegistrationsAppend(a, [row]);
        assert [row][0] == row;
      }
      if exists i :: 0 <= i < |lines| && HasRegistration(lines[i]) && lines[i].vehicle.registration.value == registration {
        var i :| 0 <= i < |lines| && HasRegistration(lines[i]) && lines[i].vehicle.registration.value == registration;
        if i < |init| { assert init[i] == lines[i]; }
      }
      if exists i :: 0 <= i < |init| && HasRegistration(init[i]) && init[i].vehicle.registration.value == registration {
        var i :| 0 <= i < |init| && HasRegistration(init[i]) && init[i].vehicle.registration.value == registration;
        assert lines[i] == init[i];
      }
    }
  }

  /** One line keeps every staged row's parent staged. */
  lemma StageLineParents(st: Staging, line: Line)
    requires StagedParents(st)
    ensures StagedParents(StageLine(st, line))
  {
    if HasRegistration(line) {
      var registration := line.vehicle.registration.value;
      var x := PgLoader.Expand(registration, line.vehicle.motTests);
      PgLoader.ExpandParents(registration, line.vehicle.motTests);
      var row := VehicleCsvRow(MySqlBatch.Entry(registration, line.vehicle));
      var ts := MySqlBatch.TestRows(MySqlBatch.StripOne, x.tests);
      var ds := DefectCsvRows(x.defects);
      assert StageLine(st, line) == Staging(st.vehicles + [row], st.tests + ts, st.defects + ds);
      AppendedTestsHaveVehicles(st.vehicles, st.tests, row, ts);
      ExpansionRowsHaveTests(x);
      AppendedDefectsHaveTests(st.tests, st.defects, ts, ds);
    }
  }

  /** A vehicle row appended with its own tests keeps every test's vehicle present. */
  lemma AppendedTestsHaveVehicles(vehicles: seq<VehicleRow>, tests: seq<TestRow>, row: VehicleRow, ts: seq<TestRow>)
    requires TestsHaveVehicles(vehicles, tests)
    requires forall i :: 0 <= i < |ts| ==> ts[i].registration == row.registration
    ensures TestsHaveVehicles(vehicles + [row], tests + ts)
  {
    RegistrationsAppend(vehicles, [row]);
    assert [row][0] == row;
    forall i | 0 <= i < |tests + ts| ensures (tests + ts)[i].registration in Registrations(vehicles + [row]) {
      if i < |tests| { assert (tests + ts)[i] == tests[i]; } else { assert (tests + ts)[i] == ts[i - |tests|]; }
    }
  }

  /** Appending tests and defects that have their own parents keeps every defect's test present. */
  lemma AppendedDefectsHaveTests(tests: seq<TestRow>, defects: seq<DefectCsvRow>, ts: seq<TestRow>, ds: seq<DefectCsvRow>)
    requires DefectsHaveTests(tests, defects) && DefectsHaveTests(ts, ds)
    ensures DefectsHaveTests(tests + ts, defects + ds)
  {
    forall j | 0 <= j < |defects + ds|
      ensures exists i :: (0 <= i < |tests + ts| && (tests + ts)[i].registration == (defects + ds)[j].registration &&
        (tests + ts)[i].completedDate == (defects + ds)[j].completedDate)
    {
      if j < |defects| {
        assert (defects + ds)[j] == defects[j];
        var i :| 0 <= i < |tests| && tests[i].registration == defects[j].registration &&
          tests[i].completedDate == defects[j].completedDate;
        assert (tests + ts)[i] == tests[i];
      } else {
        var k := j - |defects|;
        assert (defects + ds)[j] == ds[k];
        var i :| 0 <= i < |ts| && ts[i].registration == ds[k].registration && ts[i].completedDate == ds[k].completedDate;
        assert (tests + ts)[|tests| + i] == ts[i];
      }
    }
    assert forall j :: 0 <= j < |defects + ds| ==>
      exists i :: 0 <= i < |tests + ts| && (tests + ts)[i].registration == (defects + ds)[j].registration &&
        (tests + ts)[i].completedDate == (defects + ds)[j].completedDate;
  }

  /** The rows staged from one vehicle's tests and defects: each defect row has its test row. */
  lemma ExpansionRowsHaveTests(x: PgLoader.Expansion)
    requires PgLoader.DefectsFollowTests(x)
    ensures DefectsHaveTests(MySqlBatch.TestRows(MySqlBatch.StripOne, x.tests), DefectCsvRows(x.defects))
  {
    var ts, ds := MySqlBatch.TestRows(MySqlBatch.StripOne, x.tests), DefectCsvRows(x.defects);
    forall j | 0 <= j < |ds|
      ensures exists i :: (0 <= i < |ts| && ts[i].registration == ds[j].registration && ts[i].completedDate == ds[j].completedDate)
    {
      var i :| 0 <= i < |x.tests| && x.tests[i].registration == x.defects[j].registration &&
        x.tests[i].test.completedDate == x.defects[j].completedDate;
      assert ts[i] == MySqlBatch.TestRowOf(MySqlBatch.StripOne, x.tests[i]);
    }
    assert forall j :: 0 <= j < |ds| ==>
      exists i :: 0 <= i < |ts| && ts[i].registration == ds[j].registration && ts[i].completedDate == ds[j].completedDate;
  }

  /** The staged files always hold each row's parent: a test follows its vehicle, a defect its test. */
  lemma {:induction false} StageParents(lines: seq<Line>)
    ensures StagedParents(Stage(lines))
    decreases |lines|
  {
    if lines != [] {
      StageParents(lines[..|lines| - 1]);
      StageLineParents(Stage(lines[..|lines| - 1]), lines[|lines| - 1]);
    }
  }

  // ---------------------------------------------------------------- reading the files back

  /**
   * A field as `COPY ... WITH CSV` reads it back: `csv.writer` writes `None`
   * and `""` alike as an empty field, and an unquoted empty field is NULL.
   */
  function CsvField(o: Option<string>): (r: Option<string>)
    ensures r.None? <==> o.None? || o.value == ""
    ensures r.Some? ==> r == o
  {
    if o.Some? && o.value == "" then None else o
  }

  /** The engine size read back: an empty string is NULL, anything else is kept. */
  function CsvScalar(x: Scalar): (r: Scalar)
    ensures r.Null? <==> x.Null? || x == Str("")
    ensures !r.Null? ==> r == x
  {
    if x == Str("") then Null else x
  }

  /** A vehicles CSV row as `COPY vehicles` stores it. */
  function ReadVehicleRow(r: VehicleRow): VehicleRow {
    r.(firstUsedDate := CsvField(r.firstUsedDate), registrationDate := CsvField(r.registrationDate),
       manufactureDate := CsvField(r.manufactureDate), engineSize := CsvScalar(r.engineSize),
       lastMotTestDate := CsvField(r.lastMotTestDate), lastUpdateDate := CsvField(r.lastUpdateDate))
  }

  /** A tests CSV row as `COPY mot_tests` stores it. */
  function ReadTestRow(r: TestRow): TestRow {
    r.(completedDate := CsvField(r.completedDate), expiryDate := CsvField(r.expiryDate))
  }

  /** A defects CSV row as `COPY tmp_defects` stores it. */
  function ReadDefectRow(d: DefectCsvRow): DefectCsvRow {
    d.(completedDate := CsvField(d.completedDate),
       defect := d.defect.(text := CsvField(d.defect.text), kind := CsvField(d.defect.kind)))
  }

  /** The three CSV files as the `COPY` statements read them. */
  function ReadBack(st: Staging): (rb: Staging)
    ensures |rb.vehicles| == |st.vehicles| && |rb.tests| == |st.tests| && |rb.defects| == |st.defects|
    ensures forall i :: 0 <= i < |rb.vehicles| ==> rb.vehicles[i] == ReadVehicleRow(st.vehicles[i])
    ensures forall i :: 0 <= i < |rb.tests| ==> rb.tests[i] == ReadTestRow(st.tests[i])
    ensures forall j :: 0 <= j < |rb.defects| ==> rb.defects[j] == ReadDefectRow(st.defects[j])
  {
    Staging(seq(|st.vehicles|, i requires 0 <= i < |st.vehicles| => ReadVehicleRow(st.vehicles[i])),
            seq(|st.tests|, i requires 0 <= i < |st.tests| => ReadTestRow(st.tests[i])),
            seq(|st.defects|, j requires 0 <= j < |st.defects| => ReadDefectRow(st.defects[j])))
  }

  /** Reading back keeps every registration. */
  lemma ReadBackRegistrations(st: Staging)
    ensures Registrations(ReadBack(st).vehicles) == Registrations(st.vehicles)
  {
    var rb := ReadBack(st);
    forall reg | reg in Registrations(st.vehicles) ensures reg in Registrations(rb.vehicles) {
      var i :| 0 <= i < |st.vehicles| && st.vehicles[i].registration == reg;
      assert rb.vehicles[i].registration == reg;
    }
  }

  /**
   * Reading back keeps every dated staged defect's parent: a defect whose
   * date is still present after the read has a test under the same key.
   */
  lemma ReadBackParents(st: Staging)
    requires StagedParents(st)
    ensures var rb := ReadBack(st);
      forall j :: 0 <= j < |rb.defects| && rb.defects[j].completedDate.Some? ==>
        exists i :: 0 <= i < |rb.tests| && Matches(rb.tests[i], rb.defects[j].registration, rb.defects[j].completedDate)
  {
    var rb := ReadBack(st);
    forall j | 0 <= j < |rb.defects| && rb.defects[j].completedDate.Some?
      ensures exists i :: 0 <= i < |rb.tests| && Matches(rb.tests[i], rb.defects[j].registration, rb.defects[j].completedDate)
    {
      var i :| 0 <= i < |st.tests| && st.tests[i].registration == st.defects[j].registration &&
        st.tests[i].completedDate == st.defects[j].completedDate;
      assert rb.tests[i] == ReadTestRow(st.tests[i]);
    }
  }

  // ---------------------------------------------------------------- the load

  /** The statements of the load transaction. */
  datatype CopyStmt = CopyVehicles | CopyTests | CreateTempDefects | CopyTempDefects | InsertJoinedDefects

  /** Whether each statement succeeds when it is reached. */
  type CopyOracle = CopyStmt -> bool

  predicate LoadSucceeds(ok: CopyOracle) {
    ok(CopyVehicles) && ok(CopyTests) && ok(CreateTempDefects) && ok(CopyTempDefects) && ok(InsertJoinedDefects)
  }

  /** The join for one staged defect: a `defects` row for every test with its key, by id. */
  function JoinOne(tests: seq<TestRow>, d: DefectCsvRow): (r: seq<DefectRow>)
    ensures |r| == |AllMatches(tests, d.registration, d.completedDate)|
    ensures forall k :: 0 <= k < |r| ==>
      r[k].testId < |tests| && Matches(tests[r[k].testId], d.registration, d.completedDate)
  {
    var ids := AllMatches(tests, d.registration, d.completedDate);
    seq(|ids|, k requires 0 <= k < |ids| => DefectRow(ids[k], d.defect.dangerous, d.defect.text, d.defect.kind))
  }

  /**
   * `INSERT INTO defects ... SELECT ... FROM tmp_defects JOIN mot_tests`:
   * staged defects in file order, each with one row per matching test.
   */
  function JoinRows(tests: seq<TestRow>, staged: seq<DefectCsvRow>): (r: seq<DefectRow>)
    ensures forall k :: 0 <= k < |r| ==> r[k].testId < |tests|
    decreases |staged|
  {
    if staged == [] then []
    else JoinRows(tests, staged[..|staged| - 1]) + JoinOne(tests, staged[|staged| - 1])
  }

  /**
   * `vehicles` is keyed by registration, so `COPY vehicles` succeeds only
   * when no staged registration is already stored or staged twice.
   */
  predicate FreshRegistrations(stored: map<string, VehicleRow>, rows: seq<VehicleRow>) {
    (forall i :: 0 <= i < |rows| ==> rows[i].registration !in stored) &&
    (forall i, j :: 0 <= i < j < |rows| ==> rows[i].registration != rows[j].registration)
  }

  /** The load commits: every statement succeeds and the staged registrations are new. */
  predicate Commits(t: Tables, st: Staging, ok: CopyOracle) {
    LoadSucceeds(ok) && FreshRegistrations(t.vehicles, st.vehicles)
  }

  /** The tables after a committed load of the CSV files, as `COPY` reads them back. */
  function Loaded(t: Tables, st: Staging): Tables {
    var rb := ReadBack(st);
    var tests := t.tests + rb.tests;
    Tables(UpsertVehicles(t.vehicles, rb.vehicles), tests, t.defects + JoinRows(tests, rb.defects))
  }

  /** The temporary files, in the order they are created. */
  datatype TempFile = VehicleCsv | TestCsv | DefectCsv

  function TempFiles(n: nat): seq<TempFile>
    requires n <= 3
  {
    [VehicleCsv, TestCsv, DefectCsv][..n]
  }

  /** A whole file: the tables after it, its transaction outcome, and how many temporary files it created. */
  datatype CopyRun = CopyRun(tables: Tables, events: seq<Event>, created: nat)

  /**
   * `process_file_copy`: if creating a temporary file fails, stop; if opening
   * or reading the gzip file fails, stop before touching the database;
   * otherwise run the load, committing it or, after any failed statement
   * (a registration already stored among them), rolling it back.
   * `creatable` is how many temporary files the file system lets it create.
   */
  function RunCopy(t: Tables, stream: Stream, creatable: nat, ok: CopyOracle): CopyRun {
    if creatable < 3 then CopyRun(t, [], creatable)
    else if stream.readFails then CopyRun(t, [], 3)
    else if Commits(t, Stage(stream.lines), ok) then CopyRun(Loaded(t, Stage(stream.lines)), [Committed], 3)
    else CopyRun(t, [RolledBack], 3)
  }

  // ---------------------------------------------------------------- properties

  /** Under unique test keys a key matches at most one test. */
  lemma AtMostOneMatch(tests: seq<TestRow>, registration: string, completedDate: Option<string>)
    requires KeysUnique(tests)
    ensures |AllMatches(tests, registration, completedDate)| <= 1
  {
    var all := AllMatches(tests, registration, completedDate);
    assert forall k :: 0 <= k < |all| ==> all[k] == all[0];
  }

  /**
   * The join and row mode's point lookups agree: when no two tests share a
   * key, the join inserts exactly the rows the lookups would (the first
   * match, or nothing).
   */
  lemma {:induction false} JoinAgreesWithLookup(tests: seq<TestRow>, held: seq<PgLoader.HeldDefect>)
    requires KeysUnique(tests)
    ensures JoinRows(tests, DefectCsvRows(held)) == PgLoader.LookupDefects(tests, held)
    decreases |held|
  {
    if held != [] {
      var init, h := held[..|held| - 1], held[|held| - 1];
      JoinAgreesWithLookup(tests, init);
      var rows := DefectCsvRows(held);
      assert rows[..|rows| - 1] == DefectCsvRows(init) && rows[|rows| - 1] == DefectCsvRowOf(h);
      var d := DefectCsvRowOf(h);
      FirstMatchIsFirstJoined(tests, d.registration, d.completedDate);
      AtMostOneMatch(tests, d.registration, d.completedDate);
      var one := JoinOne(tests, d);
      var all := AllMatches(tests, d.registration, d.completedDate);
      if |all| == 1 {
        assert one == [DefectRow(all[0], d.defect.dangerous, d.defect.text, d.defect.kind)];
      } else {
        assert one == [];
      }
    }
  }

  /** With two tests under one key, the join inserts a staged defect twice; the lookup would insert it once. */
  lemma JoinRepeatsOnDuplicateKeys(row: TestRow, d: Defect)
    requires row.completedDate.Some?
    ensures var staged := DefectCsvRow(row.registration, row.completedDate, d);
      |JoinRows([row, row], [staged])| == 2
  {
    var staged := DefectCsvRow(row.registration, row.completedDate, d);
    var tests := [row, row];
    assert Matches(tests[0], row.registration, row.completedDate);
    assert Matches(tests[1], row.registration, row.completedDate);
    assert tests[..1] == [row] && [row][..0] == [];
    assert AllMatches([row], row.registration, row.completedDate) == [0];
    assert AllMatches(tests, row.registration, row.completedDate) == [0, 1];
    assert [staged][..0] == [];
  }

  /** The number of staged defects that carry a completed date. */
  function CountDated(staged: seq<DefectCsvRow>): nat
    decreases |staged|
  {
    if staged == [] then 0
    else CountDated(staged[..|staged| - 1]) + (if staged[|staged| - 1].completedDate.Some? then 1 else 0)
  }

  /** A staged defect with a completed date that has a test under its key is never dropped by the join. */
  lemma {:induction false} JoinKeepsResolvable(tests: seq<TestRow>, staged: seq<DefectCsvRow>)
    requires forall j :: 0 <= j < |staged| && staged[j].completedDate.Some? ==>
      exists i :: 0 <= i < |tests| && Matches(tests[i], staged[j].registration, staged[j].completedDate)
    ensures |JoinRows(tests, staged)| >= CountDated(staged)
    decreases |staged|
  {
    if staged != [] {
      var init, d := staged[..|staged| - 1], staged[|staged| - 1];
      forall j | 0 <= j < |init| && init[j].completedDate.Some?
        ensures exists i :: 0 <= i < |tests| && Matches(tests[i], init[j].registration, init[j].completedDate)
      {
        assert init[j] == staged[j];
      }
      JoinKeepsResolvable(tests, init);
      if d.completedDate.Some? {
        var i :| 0 <= i < |tests| && Matches(tests[i], d.registration, d.completedDate);
        assert i in AllMatches(tests, d.registration, d.completedDate);
      }
    }
  }

  /**
   * A file in COPY mode touches the database only when all three temporary
   * files exist and reading finished; then its one transaction commits the
   * whole staging, when every statement succeeds and every staged
   * registration is new, or leaves the tables as they were. After a commit
   * the staged tests follow the stored ones as `COPY` reads them back,
   * stored defects stay first, every new defect points at an existing test,
   * the vehicle keys gain the staged registrations, and no staged defect
   * whose date survives the read-back is dropped by the join.
   */
  lemma RunCopyProperties(t: Tables, stream: Stream, creatable: nat, ok: CopyOracle)
    requires ParentsResolved(t)
    ensures var r := RunCopy(t, stream, creatable, ok);
      var st := Stage(stream.lines);
      r.created == (if creatable < 3 then creatable else 3) &&
      (r.events == [] <==> creatable < 3 || stream.readFails) &&
      (r.events == [Committed] <==>
        creatable >= 3 && !stream.readFails && LoadSucceeds(ok) && FreshRegistrations(t.vehicles, st.vehicles)) &&
      (r.events != [Committed] ==> r.tables == t) &&
      (r.events == [Committed] ==>
        var rb := ReadBack(st);
        r.tables.tests == t.tests + rb.tests &&
        |t.defects| <= |r.tables.defects| && r.tables.defects[..|t.defects|] == t.defects &&
        ParentsResolved(r.tables) &&
        r.tables.vehicles.Keys == t.vehicles.Keys + Registrations(st.vehicles) &&
        |r.tables.defects| - |t.defects| >= CountDated(rb.defects))
  {
    if creatable >= 3 && !stream.readFails {
      StageParents(stream.lines);
      LoadedProperties(t, Stage(stream.lines));
    }
  }

  /** What a committed load leaves, for a staging whose rows keep their parents. */
  lemma LoadedProperties(t: Tables, st: Staging)
    requires ParentsResolved(t) && StagedParents(st)
    ensures var r, rb := Loaded(t, st), ReadBack(st);
      r.tests == t.tests + rb.tests &&
      |t.defects| <= |r.defects| && r.defects[..|t.defects|] == t.defects &&
      ParentsResolved(r) &&
      r.vehicles.Keys == t.vehicles.Keys + Registrations(st.vehicles) &&
      |r.defects| - |t.defects| >= CountDated(rb.defects)
  {
    var r, rb := Loaded(t, st), ReadBack(st);
    var tests := t.tests + rb.tests;
    var joined := JoinRows(tests, rb.defects);
    assert r.defects == t.defects + joined;
    UpsertVehiclesKeys(t.vehicles, rb.vehicles);
    ReadBackRegistrations(st);
    assert r.defects[..|t.defects|] == t.defects;
    forall i | 0 <= i < |r.defects| ensures r.defects[i].testId < |r.tests| {
      if i < |t.defects| {
        assert r.defects[i] == t.defects[i];
      } else {
        assert r.defects[i] == joined[i - |t.defects|];
      }
    }
    LoadedJoinCount(t.tests, st);
  }

  /** The join after a load adds at least `CountDated` rows of the read-back defects. */
  lemma LoadedJoinCount(stored: seq<TestRow>, st: Staging)
    requires StagedParents(st)
    ensures var rb := ReadBack(st);
      |JoinRows(stored + rb.tests, rb.defects)| >= CountDated(rb.defects)
  {
    var rb := ReadBack(st);
    var tests := stored + rb.tests;
    ReadBackParents(st);
    forall j | 0 <= j < |rb.defects| && rb.defects[j].completedDate.Some?
      ensures exists i :: 0 <= i < |tests| && Matches(tests[i], rb.defects[j].registration, rb.defects[j].completedDate)
    {
      var i :| 0 <= i < |rb.tests| && Matches(rb.tests[i], rb.defects[j].registration, rb.defects[j].completedDate);
      assert tests[|stored| + i] == rb.tests[i];
    }
    JoinKeepsResolvable(tests, rb.defects);
  }

  /**
   * A staged defect whose cleaned completed date is empty (a raw `"Z"`) is
   * read back with a NULL date and joins no test.
   */
  lemma EmptyDateJoinsNothing(tests: seq<TestRow>, d: DefectCsvRow)
    requires d.completedDate == Some("")
    ensures ReadDefectRow(d).completedDate.None? && JoinOne(tests, ReadDefectRow(d)) == []
  {
    var rd := ReadDefectRow(d);
    assert CsvField(d.completedDate) == None;
    assert rd.completedDate == None;
    NullMatchesNothing(tests, rd.registration);
  }

  /** A NULL completed date matches no test. */
  lemma {:induction false} NullMatchesNothing(tests: seq<TestRow>, registration: string)
    ensures AllMatches(tests, registration, None) == []
    decreases |tests|
  {
    if tests != [] {
      NullMatchesNothing(tests[..|tests| - 1], registration);
    }
  }

  /**
   * One line whose only test has the completed date `"Z"` and one defect,
   * loaded into empty tables with every statement succeeding: the test is
   * stored with a NULL date and no defect is stored.
   */
  lemma LoneZDefectNotLoaded(d: Defect)
    ensures var test := MotTest(Some("Z"), None, "", [DefectObject(d)]);
      var v := Vehicle(Some("AB12"), Null, None, None, None, None, None, "", [TestObject(test)]);
      var r := RunCopy(Tables(map[], [], []), Stream([Object(v)], false), 3, _ => true);
      r.events == [Committed] && |r.tables.tests| == 1 && r.tables.tests[0].completedDate.None? &&
      r.tables.defects == []
  {
    var test := MotTest(Some("Z"), None, "", [DefectObject(d)]);
    var v := Vehicle(Some("AB12"), Null, None, None, None, None, None, "", [TestObject(test)]);
    var lines := [Object(v)];
    Timestamps.LoneZBecomesEmpty();
    var x := PgLoader.Expand("AB12", v.motTests);
    assert v.motTests[..|v.motTests| - 1] == [] && v.motTests[|v.motTests| - 1] == TestObject(test);
    assert PgLoader.Expand("AB12", v.motTests[..|v.motTests| - 1]) == PgLoader.Expansion([], [], true);
    var items := [DefectObject(d)];
    assert items[..|items| - 1] == [] && items[|items| - 1] == DefectObject(d);
    assert PgLoader.ExpandDefects("AB12", Some("Z"), items[..|items| - 1]) == ([], true);
    var held := PgLoader.ExpandDefects("AB12", Some("Z"), items);
    assert held.1;
    assert held.0 == [] + [PgLoader.HeldDefect("AB12", Some("Z"), d)];
    assert x.defects == [PgLoader.HeldDefect("AB12", Some("Z"), d)];
    assert lines[..|lines| - 1] == [] && lines[|lines| - 1] == Object(v);
    var st := Stage(lines);
    assert Stage(lines[..|lines| - 1]) == NothingStaged;
    assert st == StageLine(NothingStaged, Object(v));
    assert st.tests[0].completedDate == Some("");
    assert st.defects[0] == DefectCsvRowOf(x.defects[0]);
    assert FreshRegistrations(map[], st.vehicles);
    var rb := ReadBack(st);
    assert rb.defects == [ReadDefectRow(st.defects[0])];
    var ok: CopyOracle := _ => true;
    assert LoadSucceeds(ok);
    var r := RunCopy(Tables(map[], [], []), Stream(lines, false), 3, ok);
    assert r.events == [Committed];
    assert r.tables == Loaded(Tables(map[], [], []), st);
    assert r.tables.tests == rb.tests;
    EmptyDateJoinsNothing(r.tables.tests, st.defects[0]);
    assert JoinRows(r.tables.tests, rb.defects) == JoinRows(r.tables.tests, []) + JoinOne(r.tables.tests, rb.defects[0]);
  }

  // ---------------------------------------------------------------- re-running a file

  /**
   * Running a file again in COPY mode after its load committed: its
   * registrations are all stored now, so `COPY vehicles` fails on the key
   * and the whole second load rolls back, leaving the tables as the first
   * load left them. This holds for any file with a line that has a
   * registration, whatever the oracle says.
   */
  lemma CopyRerunRollsBack(t: Tables, stream: Stream, creatable: nat, ok: CopyOracle, ok2: CopyOracle)
    ensures var run1 := RunCopy(t, stream, creatable, ok);
      var run2 := RunCopy(run1.tables, stream, creatable, ok2);
      run1.events == [Committed] &&
      (exists i :: 0 <= i < |stream.lines| && HasRegistration(stream.lines[i])) ==>
        run2.events == [RolledBack] && run2.tables == run1.tables
  {
    var st := Stage(stream.lines);
    var run1 := RunCopy(t, stream, creatable, ok);
    if run1.events == [Committed] && exists i :: 0 <= i < |stream.lines| && HasRegistration(stream.lines[i]) {
      var i :| 0 <= i < |stream.lines| && HasRegistration(stream.lines[i]);
      var reg := stream.lines[i].vehicle.registration.value;
      StageVehicles(stream.lines, reg);
      var k :| 0 <= k < |st.vehicles| && st.vehicles[k].registration == reg;
      var rb := ReadBack(st);
      ReadBackRegistrations(st);
      UpsertVehiclesKeys(t.vehicles, rb.vehicles);
      assert reg in run1.tables.vehicles;
      assert !FreshRegistrations(run1.tables.vehicles, st.vehicles);
    }
  }

  // ---------------------------------------------------------------- the loader

  /** The three temporary CSV files, as written so far. */
  class CsvFiles {
    var vehicles: seq<VehicleRow>
    var tests: seq<TestRow>
    var defects: seq<DefectCsvRow>

    function Contents(): Staging
      reads this
    {
      Staging(vehicles, tests, defects)
    }

    constructor ()
      ensures Contents() == NothingStaged
    {
      vehicles, tests, defects := [], [], [];
    }
  }

  /** One defect object more writes one more row. */
  lemma WriteDefectStep(registration: string, completedDate: Option<string>, items: seq<DefectItem>, k: nat)
    requires k < |items| && items[k].DefectObject?
    requires PgLoader.ExpandDefects(registration, completedDate, items[..k]).1
    ensures var r := PgLoader.ExpandDefects(registration, completedDate, items[..k]);
      var next := PgLoader.ExpandDefects(registration, completedDate, items[..k + 1]);
      next.1 && DefectCsvRows(next.0) == DefectCsvRows(r.0) +
        [DefectCsvRowOf(PgLoader.HeldDefect(registration, completedDate, items[k].defect))]
  {
  }

  /** The `defects` loop of one test, until the end or the first defect that is not an object. */
  method WriteDefects(files: CsvFiles, registration: string, completedDate: Option<string>, items: seq<DefectItem>)
    returns (complete: bool)
    modifies files
    ensures var r := PgLoader.ExpandDefects(registration, completedDate, items);
      complete == r.1 && files.defects == old(files.defects) + DefectCsvRows(r.0)
    ensures files.vehicles == old(files.vehicles) && files.tests == old(files.tests)
  {
    var k := 0;
    complete := true;
    ghost var held: seq<PgLoader.HeldDefect> := [];
    while k < |items| && complete
      invariant 0 <= k <= |items|
      invariant (held, complete) == PgLoader.ExpandDefects(registration, completedDate, items[..k])
      invariant files.defects == old(files.defects) + DefectCsvRows(held)
      invariant files.vehicles == old(files.vehicles) && files.tests == old(files.tests)
      decreases |items| - k
    {
      ghost var next := PgLoader.ExpandDefects(registration, completedDate, items[..k + 1]);
      match items[k] {
        case DefectOther =>
          assert items[..k + 1][..k] == items[..k];
          complete := false;
        case DefectObject(d) =>
          var row := DefectCsvRowOf(PgLoader.HeldDefect(registration, completedDate, d));
          WriteDefectStep(registration, completedDate, items, k);
          AppendAssociates(old(files.defects), DefectCsvRows(held), [row]);
          files.defects := files.defects + [row];
      }
      held := next.0;
      k := k + 1;
      assert PgLoader.ExpandDefects(registration, completedDate, items[..k]) == next;
    }
    if complete {
      assert items[..k] == items;
    } else {
      PgLoader.ExpandDefectsStops(registration, completedDate, items, k);
    }
  }

  /** One test object more writes its test row, then whatever its defects loop writes. */
  lemma WriteTestStep(registration: string, items: seq<TestItem>, j: nat)
    requires j < |items| && items[j].TestObject?
    requires PgLoader.Expand(registration, items[..j]).complete
    ensures var x := PgLoader.Expand(registration, items[..j]);
      var t := items[j].test;
      var d := PgLoader.ExpandDefects(registration, t.completedDate, t.defects);
      var next := PgLoader.Expand(registration, items[..j + 1]);
      next.complete == d.1 &&
      MySqlBatch.TestRows(MySqlBatch.StripOne, next.tests) ==
        MySqlBatch.TestRows(MySqlBatch.StripOne, x.tests) +
        [MySqlBatch.TestRowOf(MySqlBatch.StripOne, MySqlBatch.TestRecord(registration, t))] &&
      DefectCsvRows(next.defects) == DefectCsvRows(x.defects) + DefectCsvRows(d.0)
  {
    var x := PgLoader.Expand(registration, items[..j]);
    var t := items[j].test;
    var d := PgLoader.ExpandDefects(registration, t.completedDate, t.defects);
    assert items[..j + 1][..j] == items[..j];
    var tests := x.tests + [MySqlBatch.TestRecord(registration, t)];
    assert PgLoader.Expand(registration, items[..j + 1]) == PgLoader.Expansion(tests, x.defects + d.0, d.1);
    assert MySqlBatch.TestRows(MySqlBatch.StripOne, tests) ==
      MySqlBatch.TestRows(MySqlBatch.StripOne, x.tests) +
      [MySqlBatch.TestRowOf(MySqlBatch.StripOne, MySqlBatch.TestRecord(registration, t))];
    DefectCsvRowsAppend(x.defects, d.0);
  }

  /** One test object: its row, then its defects loop. */
  method WriteTest(files: CsvFiles, registration: string, t: MotTest) returns (complete: bool)
    modifies files
    ensures var d := PgLoader.ExpandDefects(registration, t.completedDate, t.defects);
      complete == d.1 &&
      files.tests == old(files.tests) + [MySqlBatch.TestRowOf(MySqlBatch.StripOne, MySqlBatch.TestRecord(registration, t))] &&
      files.defects == old(files.defects) + DefectCsvRows(d.0)
    ensures files.vehicles == old(files.vehicles)
  {
    files.tests := files.tests + [MySqlBatch.TestRowOf(MySqlBatch.StripOne, MySqlBatch.TestRecord(registration, t))];
    complete := WriteDefects(files, registration, t.completedDate, t.defects);
  }

  /** One element of `motTests`, on a loop that has not stopped. */
  method WriteTestItem(files: CsvFiles, registration: string, items: seq<TestItem>, j: nat,
                       ghost tests0: seq<TestRow>, ghost defects0: seq<DefectCsvRow>)
    returns (complete: bool)
    requires j < |items| && PgLoader.Expand(registration, items[..j]).complete
    requires files.tests == tests0 + MySqlBatch.TestRows(MySqlBatch.StripOne, PgLoader.Expand(registration, items[..j]).tests)
    requires files.defects == defects0 + DefectCsvRows(PgLoader.Expand(registration, items[..j]).defects)
    modifies files
    ensures var next := PgLoader.Expand(registration, items[..j + 1]);
      complete == next.complete &&
      files.tests == tests0 + MySqlBatch.TestRows(MySqlBatch.StripOne, next.tests) &&
      files.defects == defects0 + DefectCsvRows(next.defects)
    ensures files.vehicles == old(files.vehicles)
  {
    match items[j] {
      case TestOther =>
        assert items[..j + 1][..j] == items[..j];
        complete := false;
      case TestObject(t) =>
        ghost var x := PgLoader.Expand(registration, items[..j]);
        ghost var d := PgLoader.ExpandDefects(registration, t.completedDate, t.defects);
        ghost var row := MySqlBatch.TestRowOf(MySqlBatch.StripOne, MySqlBatch.TestRecord(registration, t));
        WriteTestStep(registration, items, j);
        complete := WriteTest(files, registration, t);
        AppendAssociates(tests0, MySqlBatch.TestRows(MySqlBatch.StripOne, x.tests), [row]);
        AppendAssociates(defects0, DefectCsvRows(x.defects), DefectCsvRows(d.0));
    }
  }

  /** The `motTests` loop: each test row, then its defect rows, until the first non-object. */
  method WriteTests(files: CsvFiles, registration: string, items: seq<TestItem>) returns (complete: bool)
    modifies files
    ensures var x := PgLoader.Expand(registration, items);
      complete == x.complete &&
      files.tests == old(files.tests) + MySqlBatch.TestRows(MySqlBatch.StripOne, x.tests) &&
      files.defects == old(files.defects) + DefectCsvRows(x.defects)
    ensures files.vehicles == old(files.vehicles)
  {
    var j := 0;
    complete := true;
    while j < |items| && complete
      invariant 0 <= j <= |items|
      invariant var x := PgLoader.Expand(registration, items[..j]);
        x.complete == complete &&
        files.tests == old(files.tests) + MySqlBatch.TestRows(MySqlBatch.StripOne, x.tests) &&
        files.defects == old(files.defects) + DefectCsvRows(x.defects)
      invariant files.vehicles == old(files.vehicles)
      decreases |items| - j
    {
      complete := WriteTestItem(files, registration, items, j, old(files.tests), old(files.defects));
      j := j + 1;
    }
    if complete {
      assert items[..j] == items;
    } else {
      PgLoader.ExpandStops(registration, items, j);
    }
  }

  /** One iteration of the line loop; whatever a line raises is caught. */
  method WriteLine(files: CsvFiles, line: Line)
    modifies files
    ensures files.Contents() == StageLine(old(files.Contents()), line)
  {
    match line {
      case Undecodable =>
      case NonObject =>
      case Object(v) =>
        if Truthy(v.registration) {
          var registration := v.registration.value;
          files.vehicles := files.vehicles + [VehicleCsvRow(MySqlBatch.Entry(registration, v))];
          var _ := WriteTests(files, registration, v.motTests);
        }
    }
  }

  /** The `for line in f` loop: every line is read. */
  method WriteLines(files: CsvFiles, lines: seq<Line>)
    requires files.Contents() == NothingStaged
    modifies files
    ensures files.Contents() == Stage(lines)
  {
    var i := 0;
    while i < |lines|
      invariant i <= |lines| && files.Contents() == Stage(lines[..i])
    {
      assert lines[..i + 1][..i] == lines[..i];
      WriteLine(files, lines[i]);
      i := i + 1;
    }
    assert lines[..i] == lines;
  }

  /**
   * The load transaction: COPY the vehicles, COPY the tests, create the
   * temporary defects table, COPY into it, insert the joined defects, then
   * commit. Each COPY reads its CSV file back. The first statement that
   * fails, `COPY vehicles` on a registration already stored among them,
   * raises past the rest, and the handler rolls back.
   */
  method CopyLoad(db: Database, st: Staging, ok: CopyOracle) returns (committed: bool)
    requires db.committed == db.tables
    modifies db
    ensures committed == Commits(old(db.tables), st, ok)
    ensures db.tables == if committed then Loaded(old(db.tables), st) else old(db.tables)
    ensures db.journal == old(db.journal) + [if committed then Committed else RolledBack]
    ensures db.committed == db.tables && db.importLog == old(db.importLog)
    ensures db.triggersEnabled == old(db.triggersEnabled)
  {
    var rb := ReadBack(st);
    var failed := !ok(CopyVehicles) || !FreshRegistrations(db.tables.vehicles, st.vehicles);
    if !failed {
      db.Execute(db.tables.(vehicles := UpsertVehicles(db.tables.vehicles, rb.vehicles)));
      failed := !ok(CopyTests);
    }
    if !failed {
      db.Execute(db.tables.(tests := db.tables.tests + rb.tests));
      failed := !ok(CreateTempDefects);
    }
    var temporary: seq<DefectCsvRow> := [];
    if !failed {
      failed := !ok(CopyTempDefects);
      if !failed {
        temporary := rb.defects;
      }
    }
    if !failed {
      failed := !ok(InsertJoinedDefects);
      if !failed {
        db.Execute(db.tables.(defects := db.tables.defects + JoinRows(db.tables.tests, temporary)));
      }
    }
    if failed {
      db.Rollback();
    } else {
      db.Commit();
    }
    committed := !failed;
  }

  /** The files present among the three slots, in slot order. */
  function Present(slots: seq<Option<TempFile>>): seq<TempFile>
    decreases |slots|
  {
    if slots == [] then []
    else Present(slots[..|slots| - 1]) + (if slots[|slots| - 1].Some? then [slots[|slots| - 1].value] else [])
  }

  /** The `finally` loop: unlink every temporary file that was created; an unlink error is ignored. */
  method RemoveTempFiles(slots: seq<Option<TempFile>>) returns (removed: seq<TempFile>)
    ensures removed == Present(slots)
  {
    removed := [];
    var i := 0;
    while i < |slots|
      invariant i <= |slots| && removed == Present(slots[..i])
    {
      assert slots[..i + 1][..i] == slots[..i];
      if slots[i].Some? {
        removed := removed + [slots[i].value];
      }
      i := i + 1;
    }
    assert slots[..i] == slots;
  }

  /**
   * `process_file_copy`: create the three temporary files, write every line
   * into them, load them unless reading failed, and in every case remove
   * the temporary files that were created. Returns the files removed.
   */
  method ProcessFileCopy(db: Database, stream: Stream, creatable: nat, ok: CopyOracle) returns (removed: seq<TempFile>)
    requires db.committed == db.tables
    modifies db
    ensures var run := RunCopy(old(db.tables), stream, creatable, ok);
      db.tables == run.tables && db.journal == old(db.journal) + run.events &&
      run.created <= 3 && removed == TempFiles(run.created)
    ensures db.committed == db.tables && db.importLog == old(db.importLog)
    ensures db.triggersEnabled == old(db.triggersEnabled)
  {
    var v, mt, d: Option<TempFile> := None, None, None;
    if creatable >= 1 {
      v := Some(VehicleCsv);
    }
    if creatable >= 2 {
      mt := Some(TestCsv);
    }
    if creatable >= 3 {
      d := Some(DefectCsv);
      var files := new CsvFiles();
      WriteLines(files, stream.lines);
      if !stream.readFails {
        var _ := CopyLoad(db, files.Contents(), ok);
      }
    }
    removed := RemoveTempFiles([v, mt, d]);
    assert [v, mt, d][..2] == [v, mt] && [v, mt][..1] == [v] && [v][..0] == [];
    assert Present([v]) == (if v.Some? then [VehicleCsv] else []);
    assert Present([v, mt]) == Present([v]) + (if mt.Some? then [TestCsv] else []);
    assert removed == Present([v, mt]) + (if d.Some? then [DefectCsv] else []);
  }
}
