/**
 * `initial_loader.py`: the one-off MySQL loader for the bulk export.
 *
 * Its `process_file` holds the parse-and-append block twice in a row inside
 * the line loop, so an admitted vehicle goes through the buffers twice and is
 * counted twice. The first block's generic handler parses the line again and
 * calls `.get` on it; for valid JSON that is not an object that second call
 * raises out of the handler, ends the loop and records FAILED. A line whose
 * vehicle lacks a registration takes the `continue` of the first block and
 * never reaches the second.
 */
module InitialLoader {
  import opened Optional
  import opened Records
  import opened Store
  import opened MySqlBatch
  import Ledger

  /** `BATCH_SIZE`. */
  const BatchSize: nat := 1000

  /** The line loop's state, and whether an exception has escaped it. */
  datatype Pass = Pass(scan: Scan, raised: bool)

  /**
   * One iteration of the line loop: nothing for an undecodable line or a
   * vehicle without registration, an escaping exception for a non-object, and
   * two admissions of the same vehicle otherwise. Once raised, the loop is over.
   */
  function Step(p: Pass, line: Line, batchSize: nat, ok: Oracle): Pass
    requires batchSize > 0
  {
    if p.raised then p
    else match line
      case Undecodable => p
      case NonObject => p.(raised := true)
      case Object(v) =>
        if !Truthy(v.registration) then p
        else
          var e := Entry(v.registration.value, v);
          p.(scan := Admit(StripOne, Admit(StripOne, p.scan, e, batchSize, ok), e, batchSize, ok))
  }

  function Lines(p: Pass, lines: seq<Line>, batchSize: nat, ok: Oracle): Pass
    requires batchSize > 0
    decreases |lines|
  {
    if lines == [] then p
    else Step(Lines(p, lines[..|lines| - 1], batchSize, ok), lines[|lines| - 1], batchSize, ok)
  }

  /** Some line is valid JSON but not an object. */
  predicate HasNonObject(lines: seq<Line>) {
    exists i :: 0 <= i < |lines| && lines[i].NonObject?
  }

  /** Whether a run of the file ends in the `except` that records FAILED. */
  predicate Raises(stream: Stream) {
    stream.readFails || HasNonObject(stream.lines)
  }

  /**
   * A whole file: the line loop; FAILED if it raised or reading did,
   * otherwise the leftover flush and COMPLETED.
   */
  function Run(t: Tables, stream: Stream, batchSize: nat, ok: Oracle): FileRun
    requires batchSize > 0
  {
    var p := Lines(Pass(Start(t), false), stream.lines, batchSize, ok);
    if p.raised || stream.readFails then FileRun(p.scan, Ledger.Failed)
    else FileRun(FinalFlush(StripOne, p.scan, ok), Ledger.Completed)
  }

  // ---------------------------------------------------------------- properties

  /** Once an exception has escaped, further lines change nothing. */
  lemma {:induction false} LinesAfterRaise(p: Pass, lines: seq<Line>, batchSize: nat, ok: Oracle)
    requires batchSize > 0 && p.raised
    ensures Lines(p, lines, batchSize, ok) == p
    decreases |lines|
  {
    if lines != [] {
      LinesAfterRaise(p, lines[..|lines| - 1], batchSize, ok);
    }
  }

  /** The loop over `a + b` is the loop over `b` started where the loop over `a` ended. */
  lemma {:induction false} LinesAppend(p: Pass, a: seq<Line>, b: seq<Line>, batchSize: nat, ok: Oracle)
    requires batchSize > 0
    ensures Lines(p, a + b, batchSize, ok) == Lines(Lines(p, a, batchSize, ok), b, batchSize, ok)
    decreases |b|
  {
    if b == [] {
      assert a + b == a;
    } else {
      var ab := a + b;
      assert ab[..|ab| - 1] == a + b[..|b| - 1];
      LinesAppend(p, a, b[..|b| - 1], batchSize, ok);
    }
  }

  /** Two admissions of one vehicle keep what a single admission keeps. */
  lemma AdmitTwice(s: Scan, e: Entry, batchSize: nat, ok: Oracle)
    requires batchSize > 0
    ensures var r := Admit(StripOne, Admit(StripOne, s, e, batchSize, ok), e, batchSize, ok);
      r.processed == s.processed + (if AllTestObjects(e.vehicle.motTests) then 2 else 0) &&
      (s.flushes == s.processed / batchSize ==> r.flushes == r.processed / batchSize) &&
      (ChildrenHaveParents(s.batch) ==> ChildrenHaveParents(r.batch)) &&
      r.tables.defects == s.tables.defects &&
      (KeysUnique(s.tables.tests) ==> KeysUnique(r.tables.tests))
  {
    var m := Admit(StripOne, s, e, batchSize, ok);
    AdmitCounts(StripOne, s, e, batchSize, ok);
    AdmitCounts(StripOne, m, e, batchSize, ok);
    AdmitKeeps(StripOne, s, e, batchSize, ok);
    AdmitKeeps(StripOne, m, e, batchSize, ok);
  }

  /**
   * Over any run of lines: the loop has raised exactly when it was raised
   * before or some line is a non-object; if it has not, `processed` counts
   * every counted line twice; flushes stay `processed / batchSize`; buffered
   * children keep their parents; no defect is written; test keys stay unique.
   */
  lemma {:induction false} LinesProperties(p: Pass, lines: seq<Line>, batchSize: nat, ok: Oracle)
    requires batchSize > 0
    ensures var r := Lines(p, lines, batchSize, ok);
      (r.raised <==> p.raised || HasNonObject(lines)) &&
      (!r.raised ==> r.scan.processed == p.scan.processed + 2 * CountCounted(lines)) &&
      (p.scan.flushes == p.scan.processed / batchSize ==> r.scan.flushes == r.scan.processed / batchSize) &&
      (ChildrenHaveParents(p.scan.batch) ==> ChildrenHaveParents(r.scan.batch)) &&
      r.scan.tables.defects == p.scan.tables.defects &&
      (KeysUnique(p.scan.tables.tests) ==> KeysUnique(r.scan.tables.tests))
    decreases |lines|
  {
    if lines != [] {
      var init, last := lines[..|lines| - 1], lines[|lines| - 1];
      LinesProperties(p, init, batchSize, ok);
      var m := Lines(p, init, batchSize, ok);
      if !m.raised && HasRegistration(last) {
        AdmitTwice(m.scan, Entry(last.vehicle.registration.value, last.vehicle), batchSize, ok);
      }
      assert HasNonObject(lines) <==> HasNonObject(init) || last.NonObject? by {
        if HasNonObject(lines) {
          var i :| 0 <= i < |lines| && lines[i].NonObject?;
          if i < |init| { assert init[i] == lines[i]; }
        }
        if HasNonObject(init) {
          var i :| 0 <= i < |init| && init[i].NonObject?;
          assert lines[i] == init[i];
        }
      }
    }
  }

  /**
   * The first non-object line ends the run: the loop's state is the one it
   * had just before that line, with the exception raised.
   */
  lemma RaiseStops(p: Pass, lines: seq<Line>, k: nat, batchSize: nat, ok: Oracle)
    requires batchSize > 0 && !p.raised
    requires k < |lines| && lines[k].NonObject?
    requires forall i :: 0 <= i < k ==> !lines[i].NonObject?
    ensures Lines(p, lines, batchSize, ok) == Pass(Lines(p, lines[..k], batchSize, ok).scan, true)
  {
    LinesProperties(p, lines[..k], batchSize, ok);
    assert lines[..k + 1][..k] == lines[..k];
    LinesAppend(p, lines[..k + 1], lines[k + 1..], batchSize, ok);
    assert lines[..k + 1] + lines[k + 1..] == lines;
    LinesAfterRaise(Lines(p, lines[..k + 1], batchSize, ok), lines[k + 1..], batchSize, ok);
  }

  /**
   * When no admitted line holds a non-object test, the buffer holds exactly
   * the admissions since the last flush: `processed % batchSize` of them.
   */
  lemma {:induction false} LinesBatchSize(p: Pass, lines: seq<Line>, batchSize: nat, ok: Oracle)
    requires batchSize > 0
    requires forall i :: 0 <= i < |lines| && HasRegistration(lines[i]) ==> AllTestObjects(lines[i].vehicle.motTests)
    requires |p.scan.batch.vehicles| == p.scan.processed % batchSize
    ensures var r := Lines(p, lines, batchSize, ok);
      |r.scan.batch.vehicles| == r.scan.processed % batchSize < batchSize
    decreases |lines|
  {
    if lines != [] {
      var init, last := lines[..|lines| - 1], lines[|lines| - 1];
      LinesBatchSize(p, init, batchSize, ok);
      var m := Lines(p, init, batchSize, ok);
      if !m.raised && HasRegistration(last) {
        var e := Entry(last.vehicle.registration.value, last.vehicle);
        AdmitBatchSize(StripOne, m.scan, e, batchSize, ok);
        AdmitBatchSize(StripOne, Admit(StripOne, m.scan, e, batchSize, ok), e, batchSize, ok);
      }
    } else {
      assert p.scan.processed % batchSize < batchSize;
    }
  }

  /**
   * A whole file: COMPLETED exactly when neither reading nor a non-object
   * line raised; then `processed` is twice the number of counted lines and
   * nothing is left buffered. One flush per multiple of the batch size, plus
   * at most the leftover one; no defect is ever written; test keys stay unique.
   */
  lemma RunProperties(t: Tables, stream: Stream, batchSize: nat, ok: Oracle)
    requires batchSize > 0
    ensures var run := Run(t, stream, batchSize, ok);
      (run.status == Ledger.Completed <==> !Raises(stream)) &&
      (run.status == Ledger.Failed <==> Raises(stream)) &&
      (run.status == Ledger.Completed ==>
        run.scan.processed == 2 * CountCounted(stream.lines) && run.scan.batch == EmptyBatch) &&
      run.scan.processed / batchSize <= run.scan.flushes <= run.scan.processed / batchSize + 1 &&
      run.scan.tables.defects == t.defects &&
      (KeysUnique(t.tests) ==> KeysUnique(run.scan.tables.tests))
  {
    var p := Lines(Pass(Start(t), false), stream.lines, batchSize, ok);
    LinesProperties(Pass(Start(t), false), stream.lines, batchSize, ok);
    FlushedProperties(StripOne, p.scan, ok);
  }

  /** One iteration of the loop keeps two loops in step. */
  lemma StepInStep(a0: Tables, a: Pass, b0: Tables, b: Pass, line: Line, batchSize: nat, ok: Oracle)
    requires batchSize > 0 && a.raised == b.raised && InStep(a0, a.scan, b0, b.scan)
    ensures var ra, rb := Step(a, line, batchSize, ok), Step(b, line, batchSize, ok);
      ra.raised == rb.raised && InStep(a0, ra.scan, b0, rb.scan)
  {
    if !a.raised && line.Object? && Truthy(line.vehicle.registration) {
      var e := Entry(line.vehicle.registration.value, line.vehicle);
      AdmitInStep(StripOne, a0, a.scan, b0, b.scan, e, batchSize, ok);
      AdmitInStep(StripOne, a0, Admit(StripOne, a.scan, e, batchSize, ok),
                  b0, Admit(StripOne, b.scan, e, batchSize, ok), e, batchSize, ok);
    }
  }

  /** Two loops over the same lines, from different tables, stay in step and raise alike. */
  lemma {:induction false} LinesInStep(a0: Tables, a: Pass, b0: Tables, b: Pass, lines: seq<Line>, batchSize: nat, ok: Oracle)
    requires batchSize > 0 && a.raised == b.raised && InStep(a0, a.scan, b0, b.scan)
    ensures var ra, rb := Lines(a, lines, batchSize, ok), Lines(b, lines, batchSize, ok);
      ra.raised == rb.raised && InStep(a0, ra.scan, b0, rb.scan)
    decreases |lines|
  {
    if lines != [] {
      var init := lines[..|lines| - 1];
      LinesInStep(a0, a, b0, b, init, batchSize, ok);
      StepInStep(a0, Lines(a, init, batchSize, ok), b0, Lines(b, init, batchSize, ok), lines[|lines| - 1], batchSize, ok);
    }
  }

  /**
   * Re-running the file over the tables its first run left, with the same
   * statement outcomes, creates no duplicate: vehicle registrations, the
   * number of vehicle rows, the dated test keys and the defects stay as the
   * first run left them, and so does the number of dated test rows when the
   * keys started unique.
   */
  lemma RerunStable(t: Tables, stream: Stream, batchSize: nat, ok: Oracle)
    requires batchSize > 0
    ensures var t1 := Run(t, stream, batchSize, ok).scan.tables;
      var t2 := Run(t1, stream, batchSize, ok).scan.tables;
      t2.vehicles.Keys == t1.vehicles.Keys && |t2.vehicles| == |t1.vehicles| &&
      TestKeys(t2.tests) == TestKeys(t1.tests) && t2.defects == t1.defects &&
      (KeysUnique(t.tests) ==> KeysUnique(t2.tests) && DatedCount(t2.tests) == DatedCount(t1.tests))
  {
    var run1 := Run(t, stream, batchSize, ok);
    var t1 := run1.scan.tables;
    var run2 := Run(t1, stream, batchSize, ok);
    assert InStep(t, Start(t), t1, Start(t1));
    LinesInStep(t, Pass(Start(t), false), t1, Pass(Start(t1), false), stream.lines, batchSize, ok);
    var a, b := Lines(Pass(Start(t), false), stream.lines, batchSize, ok), Lines(Pass(Start(t1), false), stream.lines, batchSize, ok);
    if !a.raised && !stream.readFails {
      FinalFlushInStep(StripOne, t, a.scan, t1, b.scan, ok);
    }
    RerunKeys(t, t1, run1.scan, run2.scan);
    RunProperties(t, stream, batchSize, ok);
    RunProperties(t1, stream, batchSize, ok);
    if KeysUnique(t.tests) {
      DatedCountIsKeys(t1.tests);
      DatedCountIsKeys(run2.scan.tables.tests);
    }
  }

  // ---------------------------------------------------------------- process_file

  /** Leaving the line loop early, on a raise, ends where the whole loop would. */
  lemma LoopExit(p: Pass, lines: seq<Line>, i: nat, batchSize: nat, ok: Oracle)
    requires batchSize > 0 && i <= |lines|
    requires i < |lines| ==> Lines(p, lines[..i], batchSize, ok).raised
    ensures Lines(p, lines, batchSize, ok) == Lines(p, lines[..i], batchSize, ok)
  {
    LinesAppend(p, lines[..i], lines[i..], batchSize, ok);
    assert lines[..i] + lines[i..] == lines;
    if i < |lines| {
      LinesAfterRaise(Lines(p, lines[..i], batchSize, ok), lines[i..], batchSize, ok);
    } else {
      assert lines[i..] == [];
    }
  }

  /** One iteration of the line loop, on a loop that has not raised. */
  method ProcessLine(db: Database, buf: Batches, line: Line, processed: nat, tally: Tally, flushes: nat,
                     batchSize: nat, ok: Oracle)
    returns (processed': nat, tally': Tally, flushes': nat, raised: bool)
    requires batchSize > 0 && db.committed == db.tables
    modifies db, buf
    ensures Pass(Scan(db.tables, buf.Contents(), processed', tally', flushes'), raised) ==
      Step(Pass(Scan(old(db.tables), old(buf.Contents()), processed, tally, flushes), false), line, batchSize, ok)
    ensures db.committed == db.tables && db.importLog == old(db.importLog)
    ensures db.triggersEnabled == old(db.triggersEnabled)
    ensures flushes <= flushes' && db.journal == old(db.journal) + Commits(flushes' - flushes)
  {
    processed', tally', flushes', raised := processed, tally, flushes, false;
    if line.NonObject? {
      raised := true;
      assert Commits(0) == [];
    } else if HasRegistration(line) {
      var e := Entry(line.vehicle.registration.value, line.vehicle);
      processed', tally', flushes' := AdmitVehicle(db, buf, StripOne, e, processed, tally, flushes, batchSize, ok);
      var middle := flushes';
      processed', tally', flushes' := AdmitVehicle(db, buf, StripOne, e, processed', tally', flushes', batchSize, ok);
      CommitsAppend(middle - flushes, flushes' - middle);
      AppendAssociates(old(db.journal), Commits(middle - flushes), Commits(flushes' - middle));
    } else {
      assert Commits(0) == [];
    }
  }

  /** The line loop, left at the first escaping exception. */
  method ScanLines(db: Database, buf: Batches, lines: seq<Line>, batchSize: nat, ok: Oracle)
    returns (processed: nat, tally: Tally, flushes: nat, raised: bool)
    requires batchSize > 0 && db.committed == db.tables && buf.Contents() == EmptyBatch
    modifies db, buf
    ensures Pass(Scan(db.tables, buf.Contents(), processed, tally, flushes), raised) ==
      Lines(Pass(Start(old(db.tables)), false), lines, batchSize, ok)
    ensures db.committed == db.tables && db.importLog == old(db.importLog)
    ensures db.triggersEnabled == old(db.triggersEnabled)
    ensures db.journal == old(db.journal) + Commits(flushes)
  {
    processed, tally, flushes, raised := 0, NoCounts, 0, false;
    var i := 0;
    while i < |lines| && !raised
      invariant i <= |lines|
      invariant Pass(Scan(db.tables, buf.Contents(), processed, tally, flushes), raised) ==
        Lines(Pass(Start(old(db.tables)), false), lines[..i], batchSize, ok)
      invariant db.committed == db.tables && db.importLog == old(db.importLog)
      invariant db.triggersEnabled == old(db.triggersEnabled)
      invariant db.journal == old(db.journal) + Commits(flushes)
    {
      assert lines[..i + 1][..i] == lines[..i];
      ghost var next := Lines(Pass(Start(old(db.tables)), false), lines[..i + 1], batchSize, ok);
      var before := flushes;
      processed, tally, flushes, raised := ProcessLine(db, buf, lines[i], processed, tally, flushes, batchSize, ok);
      CommitsAppend(before, flushes - before);
      AppendAssociates(old(db.journal), Commits(before), Commits(flushes - before));
      i := i + 1;
      assert Lines(Pass(Start(old(db.tables)), false), lines[..i], batchSize, ok) == next;
    }
    LoopExit(Pass(Start(old(db.tables)), false), lines, i, batchSize, ok);
  }

  /**
   * `process_file` against one database: STARTED, the line loop, then the
   * leftover flush and COMPLETED, or FAILED. Returns `processed` and the
   * counters it logs.
   */
  method ProcessFile(db: Database, filename: string, stream: Stream, batchSize: nat, ok: Oracle)
    returns (processed: nat, tally: Tally)
    requires batchSize > 0 && db.committed == db.tables
    modifies db
    ensures var run := Run(old(db.tables), stream, batchSize, ok);
      db.tables == run.scan.tables && processed == run.scan.processed && tally == run.scan.tally &&
      db.importLog == old(db.importLog)[filename := run.status] &&
      db.journal == old(db.journal) + RunEvents(filename, run)
    ensures db.committed == db.tables && db.triggersEnabled == old(db.triggersEnabled)
  {
    ghost var before := db.journal;
    db.MarkFileStatus(filename, Ledger.Started);
    var buf := new Batches();
    var flushes, raised;
    processed, tally, flushes, raised := ScanLines(db, buf, stream.lines, batchSize, ok);
    ghost var p := Lines(Pass(Start(old(db.tables)), false), stream.lines, batchSize, ok);
    var failed := raised || stream.readFails;
    ghost var r := if failed then p.scan else FinalFlush(StripOne, p.scan, ok);
    ghost var status := if failed then Ledger.Failed else Ledger.Completed;
    assert Run(old(db.tables), stream, batchSize, ok) == FileRun(r, status);
    tally := FinishFile(db, buf, filename, failed, processed, tally, flushes, ok);
    CommitsAppend(p.scan.flushes, r.flushes - p.scan.flushes);
    ghost var started := [StatusWritten(filename, Ledger.Started)];
    AppendAssociates(before + started, Commits(p.scan.flushes), Commits(r.flushes - p.scan.flushes));
    AppendAssociates(before, started, Commits(r.flushes));
    AppendAssociates(before, started + Commits(r.flushes), [StatusWritten(filename, status)]);
  }

  /**
   * After the line loop: FAILED when the loop or the read raised; otherwise
   * the leftover flush when anything is buffered, then COMPLETED.
   */
  method FinishFile(db: Database, buf: Batches, filename: string, failed: bool,
                    processed: nat, tally: Tally, flushes: nat, ok: Oracle)
    returns (tally': Tally)
    requires db.committed == db.tables
    modifies db, buf
    ensures var s := Scan(old(db.tables), old(buf.Contents()), processed, tally, flushes);
      var r := if failed then s else FinalFlush(StripOne, s, ok);
      db.tables == r.tables && tally' == r.tally && flushes <= r.flushes &&
      db.importLog == old(db.importLog)[filename := if failed then Ledger.Failed else Ledger.Completed] &&
      db.journal == old(db.journal) + Commits(r.flushes - flushes) +
        [StatusWritten(filename, if failed then Ledger.Failed else Ledger.Completed)]
    ensures db.committed == db.tables && db.triggersEnabled == old(db.triggersEnabled)
  {
    tally' := tally;
    if failed {
      assert Commits(0) == [];
      db.MarkFileStatus(filename, Ledger.Failed);
      return;
    }
    if |buf.vehicles| > 0 || |buf.tests| > 0 {
      var flushes';
      tally', flushes' := FlushBatches(db, buf, StripOne, processed, tally, flushes, ok);
      assert Commits(1) == [Committed];
    } else {
      assert Commits(0) == [];
    }
    db.MarkFileStatus(filename, Ledger.Completed);
  }

  // ---------------------------------------------------------------- main

  /** The files `main` submits: `.json.gz` names not yet COMPLETED, in listing order. */
  function Pending(log: Ledger.Log, names: seq<string>): (r: seq<string>)
    ensures |r| <= |names|
    ensures forall i :: 0 <= i < |r| ==> EndsWithJsonGz(r[i]) && !Ledger.IsFileImported(log, r[i])
    decreases |names|
  {
    if names == [] then []
    else
      var last := names[|names| - 1];
      Pending(log, names[..|names| - 1])
        + (if EndsWithJsonGz(last) && !Ledger.IsFileImported(log, last) then [last] else [])
  }

  /** A name is submitted exactly when it is listed, is a `.json.gz` name and is not COMPLETED. */
  lemma {:induction false} PendingIff(log: Ledger.Log, names: seq<string>, n: string)
    ensures n in Pending(log, names) <==> n in names && EndsWithJsonGz(n) && !Ledger.IsFileImported(log, n)
    decreases |names|
  {
    if names != [] {
      var init := names[..|names| - 1];
      PendingIff(log, init, n);
      assert names == init + [names[|names| - 1]];
    }
  }

  /** The listing loop of `main`, one `is_file_imported` query per `.json.gz` name. */
  method ListPending(db: Database, names: seq<string>) returns (files: seq<string>)
    ensures files == Pending(db.importLog, names)
  {
    files := [];
    var i := 0;
    while i < |names|
      invariant i <= |names| && files == Pending(db.importLog, names[..i])
    {
      assert names[..i + 1][..i] == names[..i];
      if EndsWithJsonGz(names[i]) {
        var imported := db.IsFileImported(names[i]);
        if !imported {
          files := files + [names[i]];
        }
      }
      i := i + 1;
    }
    assert names[..i] == names;
  }

  /** One `process_file` call, as a change of the whole database. */
  function RunFile(st: DbState, name: string, stream: Stream, batchSize: nat, ok: Oracle): DbState
    requires batchSize > 0
  {
    var run := Run(st.tables, stream, batchSize, ok);
    DbState(run.scan.tables, st.log[name := run.status], st.events + RunEvents(name, run))
  }

  /**
   * The submitted files run one after another. The pool runs up to three at a
   * time; this is one of the orders it may produce.
   */
  function RunAll(st: DbState, files: seq<string>, streamOf: string -> Stream,
                  batchSize: nat, okFor: string -> Oracle): DbState
    requires batchSize > 0
    decreases |files|
  {
    if files == [] then st
    else
      var f := files[|files| - 1];
      RunFile(RunAll(st, files[..|files| - 1], streamOf, batchSize, okFor), f, streamOf(f), batchSize, okFor(f))
  }

  /** Each submitted file ends COMPLETED or FAILED by its own content; other rows are untouched. */
  lemma {:induction false} RunAllOutcome(st: DbState, files: seq<string>, streamOf: string -> Stream,
                                         batchSize: nat, okFor: string -> Oracle, n: string)
    requires batchSize > 0
    ensures Ledger.Get(RunAll(st, files, streamOf, batchSize, okFor).log, n) ==
      if n in files then Some(if Raises(streamOf(n)) then Ledger.Failed else Ledger.Completed)
      else Ledger.Get(st.log, n)
    decreases |files|
  {
    if files != [] {
      var init, f := files[..|files| - 1], files[|files| - 1];
      RunAllOutcome(st, init, streamOf, batchSize, okFor, n);
      var m := RunAll(st, init, streamOf, batchSize, okFor);
      RunProperties(m.tables, streamOf(f), batchSize, okFor(f));
      assert files == init + [f];
    }
  }

  /**
   * After `main`, a listed `.json.gz` file is COMPLETED exactly when it was
   * before or its run raised nothing; a name `main` did not submit keeps its row.
   */
  lemma MainOutcome(st: DbState, names: seq<string>, streamOf: string -> Stream,
                    batchSize: nat, okFor: string -> Oracle, n: string)
    requires batchSize > 0
    ensures var r := RunAll(st, Pending(st.log, names), streamOf, batchSize, okFor);
      (n in names && EndsWithJsonGz(n) ==>
        (Ledger.IsFileImported(r.log, n) <==> Ledger.IsFileImported(st.log, n) || !Raises(streamOf(n)))) &&
      (n !in Pending(st.log, names) ==> Ledger.Get(r.log, n) == Ledger.Get(st.log, n))
  {
    PendingIff(st.log, names, n);
    RunAllOutcome(st, Pending(st.log, names), streamOf, batchSize, okFor, n);
  }

  /** The submitted files, one `process_file` call each. */
  method ProcessAll(db: Database, files: seq<string>, streamOf: string -> Stream,
                    batchSize: nat, okFor: string -> Oracle)
    requires batchSize > 0 && db.committed == db.tables
    modifies db
    ensures db.State() == RunAll(old(db.State()), files, streamOf, batchSize, okFor)
    ensures db.committed == db.tables && db.triggersEnabled == old(db.triggersEnabled)
  {
    var i := 0;
    while i < |files|
      invariant i <= |files|
      invariant db.State() == RunAll(old(db.State()), files[..i], streamOf, batchSize, okFor)
      invariant db.committed == db.tables && db.triggersEnabled == old(db.triggersEnabled)
    {
      assert files[..i + 1][..i] == files[..i];
      ghost var next := RunFile(db.State(), files[i], streamOf(files[i]), batchSize, okFor(files[i]));
      assert RunAll(old(db.State()), files[..i + 1], streamOf, batchSize, okFor) == next;
      var _, _ := ProcessFile(db, files[i], streamOf(files[i]), batchSize, okFor(files[i]));
      assert db.State() == next;
      i := i + 1;
    }
    assert files[..i] == files;
  }
}
