/**
 * `main` of the PostgreSQL initial loader: check the database settings,
 * open the pool, switch the triggers of the three data tables off, list the
 * `.json.gz` files not yet COMPLETED, load them row by row or through COPY,
 * and, whatever happened after the switch, switch the triggers on again.
 */
module PgMain {
  import opened Optional
  import opened Records
  import opened Store
  import Ledger
  import PgLoader
  import PgCopy

  // ---------------------------------------------------------------- settings

  /** The database settings `main` refuses to start without. */
  const RequiredDbVars: seq<string> := ["DB_HOST", "DB_USER", "DB_PASSWORD", "DB_NAME"]

  /** A setting counts as missing when it is unset or empty. */
  predicate Unset(env: map<string, string>, v: string) {
    v !in env || env[v] == ""
  }

  /** `validate_db_env`: the required settings that are missing, in their listed order. */
  function MissingVars(env: map<string, string>): (r: seq<string>)
    ensures |r| <= |RequiredDbVars|
  {
    MissingAmong(env, RequiredDbVars)
  }

  function MissingAmong(env: map<string, string>, vars: seq<string>): (r: seq<string>)
    ensures |r| <= |vars|
    decreases |vars|
  {
    if vars == [] then []
    else
      var last := vars[|vars| - 1];
      MissingAmong(env, vars[..|vars| - 1]) + (if Unset(env, last) then [last] else [])
  }

  /** A name is reported exactly when it is a required setting that is unset or empty. */
  lemma {:induction false} MissingAmongIff(env: map<string, string>, vars: seq<string>, v: string)
    ensures v in MissingAmong(env, vars) <==> v in vars && Unset(env, v)
    decreases |vars|
  {
    if vars != [] {
      var init := vars[..|vars| - 1];
      MissingAmongIff(env, init, v);
      assert vars == init + [vars[|vars| - 1]];
    }
  }

  /** `main` goes on past the check exactly when all four settings are present and non-empty. */
  lemma SettingsComplete(env: map<string, string>)
    ensures MissingVars(env) == [] <==>
      forall v :: v in RequiredDbVars ==> v in env && env[v] != ""
  {
    forall v | v in RequiredDbVars
      ensures v in MissingVars(env) <==> Unset(env, v)
    {
      MissingAmongIff(env, RequiredDbVars, v);
    }
    if MissingVars(env) != [] {
      var v := MissingVars(env)[0];
      MissingAmongIff(env, RequiredDbVars, v);
    }
  }

  // ---------------------------------------------------------------- listing

  /**
   * The listing: the directory's names in the order given, keeping each
   * `.json.gz` name whose status query succeeded and found no COMPLETED row.
   * `checkFails` says which status queries raise; such a name is skipped.
   * On the shared listing connection the first failure aborts the transaction,
   * so in the source `checkFails` holds for every `.json.gz` name after it.
   */
  function Listed(log: Ledger.Log, names: seq<string>, checkFails: string -> bool): (r: seq<string>)
    ensures |r| <= |names|
    decreases |names|
  {
    if names == [] then []
    else
      var last := names[|names| - 1];
      Listed(log, names[..|names| - 1], checkFails)
        + (if EndsWithJsonGz(last) && !checkFails(last) && !Ledger.IsFileImported(log, last) then [last] else [])
  }

  /** A name is submitted exactly when it is listed, a `.json.gz` name, its query succeeded, and it is not COMPLETED. */
  lemma {:induction false} ListedIff(log: Ledger.Log, names: seq<string>, checkFails: string -> bool, n: string)
    ensures n in Listed(log, names, checkFails) <==>
      n in names && EndsWithJsonGz(n) && !checkFails(n) && !Ledger.IsFileImported(log, n)
    decreases |names|
  {
    if names != [] {
      var init := names[..|names| - 1];
      ListedIff(log, init, checkFails, n);
      assert names == init + [names[|names| - 1]];
    }
  }

  // ---------------------------------------------------------------- the runs

  /** What the outside world decides for each file: its content and which statements succeed. */
  datatype Inputs = Inputs(streamOf: string -> Stream,
                           okFor: string -> PgLoader.Oracle,
                           creatableOf: string -> nat,
                           copyOkFor: string -> PgCopy.CopyOracle)

  /** One `process_file` call, as a change of the whole database. */
  function RowFile(st: DbState, name: string, stream: Stream, ok: PgLoader.Oracle): DbState {
    var run := PgLoader.Run(st.tables, stream, PgLoader.BatchSize, ok);
    DbState(run.scan.tables, st.log[name := run.status], st.events + PgLoader.RunEvents(name, run))
  }

  /** One `process_file_copy` call, as a change of the whole database: the ledger is not written. */
  function CopyFile(st: DbState, stream: Stream, creatable: nat, ok: PgCopy.CopyOracle): DbState {
    var run := PgCopy.RunCopy(st.tables, stream, creatable, ok);
    DbState(run.tables, st.log, st.events + run.events)
  }

  /**
   * The submitted files run one after another. The thread pool runs several
   * at a time; this is one of the orders it may produce.
   */
  function RunRows(st: DbState, files: seq<string>, inputs: Inputs): DbState
    decreases |files|
  {
    if files == [] then st
    else
      var f := files[|files| - 1];
      RowFile(RunRows(st, files[..|files| - 1], inputs), f, inputs.streamOf(f), inputs.okFor(f))
  }

  function RunCopies(st: DbState, files: seq<string>, inputs: Inputs): DbState
    decreases |files|
  {
    if files == [] then st
    else
      var f := files[|files| - 1];
      CopyFile(RunCopies(st, files[..|files| - 1], inputs), inputs.streamOf(f), inputs.creatableOf(f),
               inputs.copyOkFor(f))
  }

  /** What `main` is given besides the database: settings, pool, listing, status-query failures, mode. */
  datatype Launch = Launch(env: map<string, string>, poolOk: bool, listing: Option<seq<string>>,
                           checkFails: string -> bool, useCopy: bool)

  /** How the process ends: normally, or with an error (an exit or an escaping exception). */
  datatype Exit = Finished | ExitedWithError

  datatype MainRun = MainRun(state: DbState, exit: Exit, submitted: seq<string>)

  /**
   * `main`: missing settings or a failed pool end it before anything is
   * touched. Otherwise the triggers go off; a failed listing ends it with an
   * error, and the `finally` still switches the triggers on; else the listed
   * files are loaded in the chosen mode and the triggers go on again.
   */
  function Main(st: DbState, launch: Launch, inputs: Inputs): MainRun {
    if MissingVars(launch.env) != [] || !launch.poolOk then MainRun(st, ExitedWithError, [])
    else
      var off := st.(events := st.events + [TriggersSet(false)]);
      match launch.listing
      case None => MainRun(off.(events := off.events + [TriggersSet(true)]), ExitedWithError, [])
      case Some(names) =>
        var files := Listed(st.log, names, launch.checkFails);
        var loaded := if launch.useCopy then RunCopies(off, files, inputs) else RunRows(off, files, inputs);
        MainRun(loaded.(events := loaded.events + [TriggersSet(true)]), Finished, files)
  }

  // ---------------------------------------------------------------- properties

  /** No event switches triggers. */
  predicate NoTriggerSwitch(events: seq<Event>) {
    forall i :: 0 <= i < |events| ==> !events[i].TriggersSet?
  }

  /** A file's loop only commits and rolls back: it never switches triggers. */
  lemma {:induction false} LinesNoTriggerSwitch(s: PgLoader.Scan, lines: seq<Line>, ok: PgLoader.Oracle)
    requires NoTriggerSwitch(s.events)
    ensures NoTriggerSwitch(PgLoader.Lines(s, lines, PgLoader.BatchSize, ok).events)
    decreases |lines|
  {
    if lines != [] {
      LinesNoTriggerSwitch(s, lines[..|lines| - 1], ok);
      StepNoTriggerSwitch(PgLoader.Lines(s, lines[..|lines| - 1], PgLoader.BatchSize, ok), lines[|lines| - 1], ok);
    }
  }

  /** One iteration of the loop adds at most a commit or a rollback. */
  lemma StepNoTriggerSwitch(s: PgLoader.Scan, line: Line, ok: PgLoader.Oracle)
    requires NoTriggerSwitch(s.events)
    ensures NoTriggerSwitch(PgLoader.Step(s, line, PgLoader.BatchSize, ok).events)
  {
    var s1 := s.(processed := s.processed + 1);
    if !s.raised && line.Object? && Truthy(line.vehicle.registration) {
      var v := line.vehicle;
      var x := PgLoader.Expand(v.registration.value, v.motTests);
      s1 := s1.(batch := PgLoader.Batch(s.batch.vehicles + [PgLoader.MySqlBatch.Entry(v.registration.value, v)],
                                        s.batch.tests + x.tests, s.batch.defects + x.defects));
    }
    FlushedNoTriggerSwitch(s1, ok);
  }

  /** A flush appends one event: its commit or its rollback. */
  lemma FlushedNoTriggerSwitch(s: PgLoader.Scan, ok: PgLoader.Oracle)
    requires NoTriggerSwitch(s.events)
    ensures NoTriggerSwitch(PgLoader.Flushed(s, ok).events)
  {
    var r := PgLoader.Flushed(s, ok);
    assert r.events == s.events + [RolledBack] || r.events == s.events + [Committed];
  }

  /** A row-mode file writes its two ledger rows, commits and rolls back, and never switches triggers. */
  lemma RowFileNoTriggerSwitch(st: DbState, name: string, stream: Stream, ok: PgLoader.Oracle)
    ensures var r := RowFile(st, name, stream, ok);
      |st.events| <= |r.events| && r.events[..|st.events|] == st.events &&
      NoTriggerSwitch(r.events[|st.events|..])
  {
    var s := PgLoader.Lines(PgLoader.Start(st.tables), stream.lines, PgLoader.BatchSize, ok);
    LinesNoTriggerSwitch(PgLoader.Start(st.tables), stream.lines, ok);
    FlushedNoTriggerSwitch(s, ok);
    var run := PgLoader.Run(st.tables, stream, PgLoader.BatchSize, ok);
    assert NoTriggerSwitch(run.scan.events);
    var e := PgLoader.RunEvents(name, run);
    assert NoTriggerSwitch(e) by {
      assert e == [StatusWritten(name, Ledger.Started)] + run.scan.events + [StatusWritten(name, run.status)];
    }
    var r := RowFile(st, name, stream, ok);
    assert r.events == st.events + e;
    assert r.events[|st.events|..] == e;
  }

  /** Row mode: the events of the files follow the earlier ones, and none switches triggers. */
  lemma {:induction false} RunRowsEvents(st: DbState, files: seq<string>, inputs: Inputs)
    ensures var r := RunRows(st, files, inputs);
      |st.events| <= |r.events| && r.events[..|st.events|] == st.events &&
      NoTriggerSwitch(r.events[|st.events|..])
    decreases |files|
  {
    if files != [] {
      var init, f := files[..|files| - 1], files[|files| - 1];
      RunRowsEvents(st, init, inputs);
      var m := RunRows(st, init, inputs);
      RowFileNoTriggerSwitch(m, f, inputs.streamOf(f), inputs.okFor(f));
      var r := RunRows(st, files, inputs);
      assert r.events[|st.events|..] == m.events[|st.events|..] + r.events[|m.events|..];
    }
  }

  /** A COPY-mode file commits once, rolls back once, or does nothing; it never switches triggers. */
  lemma CopyFileNoTriggerSwitch(st: DbState, stream: Stream, creatable: nat, ok: PgCopy.CopyOracle)
    ensures var r := CopyFile(st, stream, creatable, ok);
      |st.events| <= |r.events| <= |st.events| + 1 && r.events[..|st.events|] == st.events &&
      NoTriggerSwitch(r.events[|st.events|..])
  {
    var run := PgCopy.RunCopy(st.tables, stream, creatable, ok);
    assert run.events == [] || run.events == [Committed] || run.events == [RolledBack];
    var r := CopyFile(st, stream, creatable, ok);
    assert r.events[|st.events|..] == run.events;
  }

  /** COPY mode: the events of the files follow the earlier ones, and none switches triggers. */
  lemma {:induction false} RunCopiesEvents(st: DbState, files: seq<string>, inputs: Inputs)
    ensures var r := RunCopies(st, files, inputs);
      |st.events| <= |r.events| && r.events[..|st.events|] == st.events &&
      NoTriggerSwitch(r.events[|st.events|..])
    decreases |files|
  {
    if files != [] {
      var init, f := files[..|files| - 1], files[|files| - 1];
      RunCopiesEvents(st, init, inputs);
      var m := RunCopies(st, init, inputs);
      CopyFileNoTriggerSwitch(m, inputs.streamOf(f), inputs.creatableOf(f), inputs.copyOkFor(f));
      var r := RunCopies(st, files, inputs);
      assert r.events[|st.events|..] == m.events[|st.events|..] + r.events[|m.events|..];
    }
  }

  /** COPY mode writes nothing to `import_log`. */
  lemma {:induction false} RunCopiesKeepLedger(st: DbState, files: seq<string>, inputs: Inputs)
    ensures RunCopies(st, files, inputs).log == st.log
    decreases |files|
  {
    if files != [] {
      RunCopiesKeepLedger(st, files[..|files| - 1], inputs);
    }
  }

  /**
   * Row mode: each submitted file ends COMPLETED or FAILED, and when all of
   * its statements succeed it is COMPLETED exactly when reading it did not
   * fail and no line of it raises; other rows are untouched. Stored vehicles
   * are never changed, tests and defects only appended, defects keep their
   * parents.
   */
  lemma {:induction false} RunRowsOutcome(st: DbState, files: seq<string>, inputs: Inputs, n: string)
    requires ParentsResolved(st.tables)
    ensures var r := RunRows(st, files, inputs);
      PgLoader.Grows(st.tables, r.tables) && ParentsResolved(r.tables) &&
      (n in files ==>
        (Ledger.Get(r.log, n) == Some(Ledger.Completed) || Ledger.Get(r.log, n) == Some(Ledger.Failed)) &&
        ((forall s, k :: inputs.okFor(n)(s, k)) ==>
          (Ledger.Get(r.log, n) == Some(Ledger.Completed) <==>
            !inputs.streamOf(n).readFails &&
            forall i :: 0 <= i < |inputs.streamOf(n).lines| ==> !PgLoader.RaisingLine(inputs.streamOf(n).lines[i])))) &&
      (n !in files ==> Ledger.Get(r.log, n) == Ledger.Get(st.log, n))
    decreases |files|
  {
    if files == [] {
      assert st.tables.tests[..|st.tables.tests|] == st.tables.tests;
      assert st.tables.defects[..|st.tables.defects|] == st.tables.defects;
    } else {
      var init, f := files[..|files| - 1], files[|files| - 1];
      RunRowsOutcome(st, init, inputs, n);
      var m := RunRows(st, init, inputs);
      RowFileOutcome(m, f, inputs.streamOf(f), inputs.okFor(f));
      PgLoader.GrowsTransitive(st.tables, m.tables, RunRows(st, files, inputs).tables);
      assert files == init + [f];
    }
  }

  /**
   * One row-mode file: its row ends COMPLETED or FAILED, COMPLETED exactly
   * when, with every statement succeeding, it was read whole and no line
   * raised; no other row changes. The tables grow and keep their parents.
   */
  lemma RowFileOutcome(st: DbState, name: string, stream: Stream, ok: PgLoader.Oracle)
    requires ParentsResolved(st.tables)
    ensures var r := RowFile(st, name, stream, ok);
      PgLoader.Grows(st.tables, r.tables) && ParentsResolved(r.tables) &&
      (Ledger.Get(r.log, name) == Some(Ledger.Completed) || Ledger.Get(r.log, name) == Some(Ledger.Failed)) &&
      ((forall s, k :: ok(s, k)) ==>
        (Ledger.Get(r.log, name) == Some(Ledger.Completed) <==>
          !stream.readFails && forall i :: 0 <= i < |stream.lines| ==> !PgLoader.RaisingLine(stream.lines[i]))) &&
      (forall n :: n != name ==> Ledger.Get(r.log, n) == Ledger.Get(st.log, n))
  {
    PgLoader.RunProperties(st.tables, stream, PgLoader.BatchSize, ok);
  }

  /** COPY mode keeps every defect attached to an existing test. */
  lemma {:induction false} RunCopiesResolved(st: DbState, files: seq<string>, inputs: Inputs)
    requires ParentsResolved(st.tables)
    ensures ParentsResolved(RunCopies(st, files, inputs).tables)
    decreases |files|
  {
    if files != [] {
      var init, f := files[..|files| - 1], files[|files| - 1];
      RunCopiesResolved(st, init, inputs);
      var m := RunCopies(st, init, inputs);
      PgCopy.RunCopyProperties(m.tables, inputs.streamOf(f), inputs.creatableOf(f), inputs.copyOkFor(f));
    }
  }

  /** `main` started: the settings are complete and the pool opened. */
  predicate Started(launch: Launch) {
    MissingVars(launch.env) == [] && launch.poolOk
  }

  /**
   * Missing settings or a failed pool end `main` with an error before any
   * change; a failed listing ends it with an error after only switching the
   * triggers off and on again.
   */
  lemma MainEarlyExits(st: DbState, launch: Launch, inputs: Inputs)
    ensures var r := Main(st, launch, inputs);
      (!Started(launch) ==> r == MainRun(st, ExitedWithError, [])) &&
      (Started(launch) && launch.listing.None? ==>
        r == MainRun(st.(events := st.events + [TriggersSet(false), TriggersSet(true)]), ExitedWithError, [])) &&
      (r.exit == Finished <==> Started(launch) && launch.listing.Some?)
  {
  }

  /**
   * Once the pool is open, the triggers are switched off first and on last,
   * and no file switches them in between: every load runs with the triggers
   * off, and the `finally` restores them even when the listing fails.
   */
  lemma MainBracketsTriggers(st: DbState, launch: Launch, inputs: Inputs)
    requires Started(launch)
    ensures TriggersBracket(st.events, Main(st, launch, inputs).state.events)
  {
    var off := st.(events := st.events + [TriggersSet(false)]);
    match launch.listing
    case None =>
      assert off.events[|off.events|..] == [];
      Bracketed(st.events, off.events);
    case Some(names) =>
      var files := Listed(st.log, names, launch.checkFails);
      var loaded := if launch.useCopy then RunCopies(off, files, inputs) else RunRows(off, files, inputs);
      if launch.useCopy {
        RunCopiesEvents(off, files, inputs);
      } else {
        RunRowsEvents(off, files, inputs);
      }
      Bracketed(st.events, loaded.events);
  }

  /**
   * `e` extends `before` by switching the triggers off, then events that
   * switch none, then switching them on.
   */
  predicate TriggersBracket(before: seq<Event>, e: seq<Event>) {
    var n := |before|;
    n + 2 <= |e| && e[..n] == before && e[n] == TriggersSet(false) && e[|e| - 1] == TriggersSet(true) &&
    NoTriggerSwitch(e[n + 1..|e| - 1])
  }

  /** Events that switch no trigger, after switching them off and before switching them on. */
  lemma Bracketed(before: seq<Event>, loaded: seq<Event>)
    requires |before| + 1 <= |loaded| && loaded[..|before| + 1] == before + [TriggersSet(false)]
    requires NoTriggerSwitch(loaded[|before| + 1..])
    ensures TriggersBracket(before, loaded + [TriggersSet(true)])
  {
    var e, n := loaded + [TriggersSet(true)], |before|;
    assert e[..n] == loaded[..n + 1][..n];
    assert e[n] == loaded[..n + 1][n];
    assert e[n + 1..|e| - 1] == loaded[n + 1..];
  }

  /**
   * The files `main` submits: exactly the listed `.json.gz` names whose
   * status query succeeded and found no COMPLETED row, and none when it
   * did not get as far as the listing.
   */
  lemma MainSubmits(st: DbState, launch: Launch, inputs: Inputs, n: string)
    ensures n in Main(st, launch, inputs).submitted <==>
      Started(launch) && launch.listing.Some? && n in launch.listing.value &&
      EndsWithJsonGz(n) && !launch.checkFails(n) && !Ledger.IsFileImported(st.log, n)
  {
    if Started(launch) && launch.listing.Some? {
      ListedIff(st.log, launch.listing.value, launch.checkFails, n);
    }
  }

  /**
   * Row mode: a submitted file ends COMPLETED or FAILED, COMPLETED exactly
   * when its statements succeeding it was read whole and no line raised;
   * every other ledger row is untouched. Defects keep their parents.
   */
  lemma MainRowLedger(st: DbState, launch: Launch, inputs: Inputs, n: string)
    requires !launch.useCopy && ParentsResolved(st.tables)
    ensures var r := Main(st, launch, inputs);
      ParentsResolved(r.state.tables) && PgLoader.Grows(st.tables, r.state.tables) &&
      (n in r.submitted ==>
        (Ledger.Get(r.state.log, n) == Some(Ledger.Completed) || Ledger.Get(r.state.log, n) == Some(Ledger.Failed)) &&
        ((forall s, k :: inputs.okFor(n)(s, k)) ==>
          (Ledger.Get(r.state.log, n) == Some(Ledger.Completed) <==>
            !inputs.streamOf(n).readFails &&
            forall i :: 0 <= i < |inputs.streamOf(n).lines| ==> !PgLoader.RaisingLine(inputs.streamOf(n).lines[i])))) &&
      (n !in r.submitted ==> Ledger.Get(r.state.log, n) == Ledger.Get(st.log, n))
  {
    if Started(launch) && launch.listing.Some? {
      var off := st.(events := st.events + [TriggersSet(false)]);
      RunRowsOutcome(off, Listed(st.log, launch.listing.value, launch.checkFails), inputs, n);
    } else {
      assert st.tables.tests[..|st.tables.tests|] == st.tables.tests;
      assert st.tables.defects[..|st.tables.defects|] == st.tables.defects;
    }
  }

  /**
   * COPY mode records nothing in `import_log`, so a second `main` with the
   * same directory and the same query failures submits the same files
   * again and loads them a second time. Defects keep their parents.
   */
  lemma MainCopyResubmits(st: DbState, launch: Launch, inputs: Inputs)
    requires launch.useCopy && ParentsResolved(st.tables)
    ensures var r := Main(st, launch, inputs);
      r.state.log == st.log && ParentsResolved(r.state.tables) &&
      Main(r.state, launch, inputs).submitted == r.submitted
  {
    if Started(launch) && launch.listing.Some? {
      var off := st.(events := st.events + [TriggersSet(false)]);
      var files := Listed(st.log, launch.listing.value, launch.checkFails);
      RunCopiesKeepLedger(off, files, inputs);
      RunCopiesResolved(off, files, inputs);
    }
  }

  /**
   * `process_file_copy` as the listing of `main` expects it: the file is
   * marked COMPLETED when its load commits and FAILED otherwise, as
   * `process_file` marks the files of row mode.
   */
  function CopyFileLogged(st: DbState, name: string, stream: Stream, creatable: nat, ok: PgCopy.CopyOracle): DbState {
    var run := PgCopy.RunCopy(st.tables, stream, creatable, ok);
    DbState(run.tables, st.log[name := if run.events == [Committed] then Ledger.Completed else Ledger.Failed],
            st.events + run.events)
  }

  /**
   * With the file marked, a file whose load committed is not listed by the
   * next `main`, so it is not loaded again; a file whose load did not commit
   * is listed again when its status query succeeds. The tables and events
   * are those of the unmarked run, and no other row changes.
   */
  lemma {:induction false} CopyFileLoggedSkipped(st: DbState, name: string, stream: Stream, creatable: nat, ok: PgCopy.CopyOracle,
                                                names: seq<string>, checkFails: string -> bool)
    ensures var r := CopyFileLogged(st, name, stream, creatable, ok);
      var committed := PgCopy.RunCopy(st.tables, stream, creatable, ok).events == [Committed];
      r.tables == CopyFile(st, stream, creatable, ok).tables && r.events == CopyFile(st, stream, creatable, ok).events &&
      (committed ==> name !in Listed(r.log, names, checkFails)) &&
      (!committed ==> (name in Listed(r.log, names, checkFails) <==>
        name in names && EndsWithJsonGz(name) && !checkFails(name))) &&
      (forall n :: n != name ==> Ledger.Get(r.log, n) == Ledger.Get(st.log, n))
  {
    var r := CopyFileLogged(st, name, stream, creatable, ok);
    ListedIff(r.log, names, checkFails, name);
  }

  // ---------------------------------------------------------------- the program

  /** The listing loop of `main`: one status query per `.json.gz` name; a query that raises skips the name. */
  method ListFiles(db: Database, names: seq<string>, checkFails: string -> bool) returns (files: seq<string>)
    ensures files == Listed(db.importLog, names, checkFails)
  {
    files := [];
    var i := 0;
    while i < |names|
      invariant i <= |names| && files == Listed(db.importLog, names[..i], checkFails)
    {
      assert names[..i + 1][..i] == names[..i];
      if EndsWithJsonGz(names[i]) && !checkFails(names[i]) {
        var imported := db.IsFileImported(names[i]);
        if !imported {
          files := files + [names[i]];
        }
      }
      i := i + 1;
    }
    assert names[..i] == names;
  }

  /** The submitted files in row mode, one `process_file` call each. */
  method ProcessRows(db: Database, files: seq<string>, inputs: Inputs)
    requires db.committed == db.tables
    modifies db
    ensures db.State() == RunRows(old(db.State()), files, inputs)
    ensures db.committed == db.tables && db.triggersEnabled == old(db.triggersEnabled)
  {
    var i := 0;
    while i < |files|
      invariant i <= |files|
      invariant db.State() == RunRows(old(db.State()), files[..i], inputs)
      invariant db.committed == db.tables && db.triggersEnabled == old(db.triggersEnabled)
    {
      assert files[..i + 1][..i] == files[..i];
      var f := files[i];
      var _, _ := PgLoader.ProcessFile(db, f, inputs.streamOf(f), PgLoader.BatchSize, inputs.okFor(f));
      i := i + 1;
    }
    assert files[..i] == files;
  }

  /** The submitted files in COPY mode, one `process_file_copy` call each. */
  method ProcessCopies(db: Database, files: seq<string>, inputs: Inputs)
    requires db.committed == db.tables
    modifies db
    ensures db.State() == RunCopies(old(db.State()), files, inputs)
    ensures db.committed == db.tables && db.triggersEnabled == old(db.triggersEnabled)
  {
    var i := 0;
    while i < |files|
      invariant i <= |files|
      invariant db.State() == RunCopies(old(db.State()), files[..i], inputs)
      invariant db.committed == db.tables && db.triggersEnabled == old(db.triggersEnabled)
    {
      assert files[..i + 1][..i] == files[..i];
      var f := files[i];
      var _ := PgCopy.ProcessFileCopy(db, inputs.streamOf(f), inputs.creatableOf(f), inputs.copyOkFor(f));
      i := i + 1;
    }
    assert files[..i] == files;
  }

  /**
   * `main`. After it the database is as `Main` says, and the triggers are
   * on whenever it got as far as switching them off.
   */
  method RunMain(db: Database, launch: Launch, inputs: Inputs) returns (exit: Exit, submitted: seq<string>)
    requires db.committed == db.tables
    modifies db
    ensures var r := Main(old(db.State()), launch, inputs);
      db.State() == r.state && exit == r.exit && submitted == r.submitted
    ensures db.committed == db.tables
    ensures db.triggersEnabled == if Started(launch) then true else old(db.triggersEnabled)
  {
    if MissingVars(launch.env) != [] || !launch.poolOk {
      return ExitedWithError, [];
    }
    ghost var st := db.State();
    db.SetTriggers(false);
    ghost var off := db.State();
    assert off == st.(events := st.events + [TriggersSet(false)]);
    match launch.listing {
      case None =>
        exit, submitted := ExitedWithError, [];
      case Some(names) =>
        submitted := ListFiles(db, names, launch.checkFails);
        if launch.useCopy {
          ProcessCopies(db, submitted, inputs);
        } else {
          ProcessRows(db, submitted, inputs);
        }
        exit := Finished;
    }
    db.SetTriggers(true);
  }
}
