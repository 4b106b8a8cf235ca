/**
 * `delta_loader.py`: the incremental MySQL loader. Its `process_file` counts
 * only vehicles whose tests all expanded, flushes on multiples of
 * `BATCH_SIZE`, never inserts the defects it buffers, and records the file's
 * status around the run. Its `main` picks which listed files to fetch, and
 * marks each archive COMPLETED once the files extracted from it were run;
 * `retry_failed_files` re-runs the files the ledger says FAILED.
 */
module DeltaLoader {
  import opened Optional
  import opened Records
  import opened Store
  import opened MySqlBatch
  import Ledger

  /** `BATCH_SIZE` when the environment does not set it. */
  const DefaultBatchSize: nat := 500

  /**
   * One iteration of the line loop: an admitted line goes through the
   * parse-and-append block; an undecodable line, a non-object and a line
   * without registration are logged and skipped.
   */
  function Step(s: Scan, line: Line, batchSize: nat, ok: Oracle): Scan
    requires batchSize > 0
  {
    if HasRegistration(line) then
      Admit(StripAll, s, Entry(line.vehicle.registration.value, line.vehicle), batchSize, ok)
    else s
  }

  function Lines(s: Scan, lines: seq<Line>, batchSize: nat, ok: Oracle): Scan
    requires batchSize > 0
    decreases |lines|
  {
    if lines == [] then s
    else Step(Lines(s, lines[..|lines| - 1], batchSize, ok), lines[|lines| - 1], batchSize, ok)
  }


  /**
   * A whole file: the line loop, then, unless reading raised, the leftover
   * flush and COMPLETED; a read error escapes the loop and records FAILED.
   */
  function Run(t: Tables, stream: Stream, batchSize: nat, ok: Oracle): FileRun
    requires batchSize > 0
  {
    var s := Lines(Start(t), stream.lines, batchSize, ok);
    if stream.readFails then FileRun(s, Ledger.Failed)
    else FileRun(FinalFlush(StripAll, s, ok), Ledger.Completed)
  }


  // ---------------------------------------------------------------- properties

  /**
   * Over any run of lines: `processed` counts exactly the counted lines (a
   * malformed line, a non-object, a line without registration or with a
   * non-object test adds nothing); flushes stay `processed / batchSize`;
   * buffered children keep their parents; no defect is written; test keys
   * stay unique.
   */
  lemma {:induction false} LinesProperties(s: Scan, lines: seq<Line>, batchSize: nat, ok: Oracle)
    requires batchSize > 0
    ensures var r := Lines(s, lines, batchSize, ok);
      r.processed == s.processed + CountCounted(lines) &&
      (s.flushes == s.processed / batchSize ==> r.flushes == r.processed / batchSize) &&
      (ChildrenHaveParents(s.batch) ==> ChildrenHaveParents(r.batch)) &&
      r.tables.defects == s.tables.defects &&
      (KeysUnique(s.tables.tests) ==> KeysUnique(r.tables.tests))
    decreases |lines|
  {
    if lines != [] {
      var init, last := lines[..|lines| - 1], lines[|lines| - 1];
      LinesProperties(s, init, batchSize, ok);
      var m := Lines(s, init, batchSize, ok);
      if HasRegistration(last) {
        var e := Entry(last.vehicle.registration.value, last.vehicle);
        AdmitCounts(StripAll, m, e, batchSize, ok);
        AdmitKeeps(StripAll, m, e, batchSize, ok);
      }
    }
  }

  /**
   * When no admitted line holds a non-object test, the buffer holds exactly
   * the vehicles counted since the last flush: `processed % batchSize` of them.
   */
  lemma {:induction false} LinesBatchSize(s: Scan, lines: seq<Line>, batchSize: nat, ok: Oracle)
    requires batchSize > 0
    requires forall i :: 0 <= i < |lines| && HasRegistration(lines[i]) ==> AllTestObjects(lines[i].vehicle.motTests)
    requires |s.batch.vehicles| == s.processed % batchSize
    ensures var r := Lines(s, lines, batchSize, ok);
      |r.batch.vehicles| == r.processed % batchSize < batchSize
    decreases |lines|
  {
    if lines != [] {
      var init, last := lines[..|lines| - 1], lines[|lines| - 1];
      LinesBatchSize(s, init, batchSize, ok);
      var m := Lines(s, init, batchSize, ok);
      if HasRegistration(last) {
        AdmitBatchSize(StripAll, m, Entry(last.vehicle.registration.value, last.vehicle), batchSize, ok);
      }
    } else {
      assert s.processed % batchSize < batchSize;
    }
  }

  /**
   * A whole file: COMPLETED exactly when reading did not raise, FAILED
   * otherwise; `processed` counts the counted lines; one flush per multiple of
   * the batch size, plus at most the leftover one; after COMPLETED nothing is
   * left buffered; no defect is ever written; test keys stay unique.
   */
  lemma RunProperties(t: Tables, stream: Stream, batchSize: nat, ok: Oracle)
    requires batchSize > 0
    ensures var run := Run(t, stream, batchSize, ok);
      (run.status == Ledger.Completed <==> !stream.readFails) &&
      (run.status == Ledger.Failed <==> stream.readFails) &&
      run.scan.processed == CountCounted(stream.lines) &&
      run.scan.processed / batchSize <= run.scan.flushes <= run.scan.processed / batchSize + 1 &&
      (run.status == Ledger.Completed ==> run.scan.batch == EmptyBatch) &&
      run.scan.tables.defects == t.defects &&
      (KeysUnique(t.tests) ==> KeysUnique(run.scan.tables.tests))
  {
    var s := Lines(Start(t), stream.lines, batchSize, ok);
    LinesProperties(Start(t), stream.lines, batchSize, ok);
    FlushedProperties(StripAll, s, ok);
  }

  /** Two runs over the same lines, from different tables, stay in step. */
  lemma {:induction false} LinesInStep(a0: Tables, a: Scan, b0: Tables, b: Scan, lines: seq<Line>, batchSize: nat, ok: Oracle)
    requires batchSize > 0 && InStep(a0, a, b0, b)
    ensures InStep(a0, Lines(a, lines, batchSize, ok), b0, Lines(b, lines, batchSize, ok))
    decreases |lines|
  {
    if lines != [] {
      var init, line := lines[..|lines| - 1], lines[|lines| - 1];
      LinesInStep(a0, a, b0, b, init, batchSize, ok);
      if HasRegistration(line) {
        AdmitInStep(StripAll, a0, Lines(a, init, batchSize, ok), b0, Lines(b, init, batchSize, ok),
                    Entry(line.vehicle.registration.value, line.vehicle), batchSize, ok);
      }
    }
  }

  /**
   * Re-running a file over the tables its first run left, with the same
   * statement outcomes, creates no duplicate: the vehicle registrations,
   * the number of vehicle rows, the dated test keys and the defects stay
   * as the first run left them, and so does the number of dated test rows
   * when the keys started unique.
   */
  lemma RerunStable(t: Tables, stream: Stream, batchSize: nat, ok: Oracle)
    requires batchSize > 0
    ensures var t1 := Run(t, stream, batchSize, ok).scan.tables;
      var t2 := Run(t1, stream, batchSize, ok).scan.tables;
      t2.vehicles.Keys == t1.vehicles.Keys && |t2.vehicles| == |t1.vehicles| &&
      TestKeys(t2.tests) == TestKeys(t1.tests) && t2.defects == t1.defects &&
      (KeysUnique(t.tests) ==> KeysUnique(t2.tests) && DatedCount(t2.tests) == DatedCount(t1.tests))
  {
    var run1 := Run(t, stream, batchSize, ok);
    var t1 := run1.scan.tables;
    var run2 := Run(t1, stream, batchSize, ok);
    assert InStep(t, Start(t), t1, Start(t1));
    LinesInStep(t, Start(t), t1, Start(t1), stream.lines, batchSize, ok);
    var a, b := Lines(Start(t), stream.lines, batchSize, ok), Lines(Start(t1), stream.lines, batchSize, ok);
    if !stream.readFails {
      FinalFlushInStep(StripAll, t, a, t1, b, ok);
    }
    RerunKeys(t, t1, run1.scan, run2.scan);
    RunProperties(t, stream, batchSize, ok);
    RunProperties(t1, stream, batchSize, ok);
    if KeysUnique(t.tests) {
      DatedCountIsKeys(t1.tests);
      DatedCountIsKeys(run2.scan.tables.tests);
    }
  }

  // ---------------------------------------------------------------- process_file

  /** The line loop of `process_file`, from empty buffers. */
  method ScanLines(db: Database, buf: Batches, lines: seq<Line>, batchSize: nat, ok: Oracle)
    returns (processed: nat, tally: Tally, flushes: nat)
    requires batchSize > 0 && db.committed == db.tables && buf.Contents() == EmptyBatch
    modifies db, buf
    ensures Scan(db.tables, buf.Contents(), processed, tally, flushes) ==
      Lines(Start(old(db.tables)), lines, batchSize, ok)
    ensures db.committed == db.tables && db.importLog == old(db.importLog)
    ensures db.triggersEnabled == old(db.triggersEnabled) && db.journal == old(db.journal) + Commits(flushes)
  {
    processed, tally, flushes := 0, NoCounts, 0;
    var i := 0;
    while i < |lines|
      invariant i <= |lines|
      invariant Scan(db.tables, buf.Contents(), processed, tally, flushes) ==
        Lines(Start(old(db.tables)), lines[..i], batchSize, ok)
      invariant db.committed == db.tables && db.importLog == old(db.importLog)
      invariant db.triggersEnabled == old(db.triggersEnabled) && db.journal == old(db.journal) + Commits(flushes)
    {
      assert lines[..i + 1][..i] == lines[..i];
      ghost var next := Lines(Start(old(db.tables)), lines[..i + 1], batchSize, ok);
      var line := lines[i];
      if HasRegistration(line) {
        var before := flushes;
        processed, tally, flushes :=
          AdmitVehicle(db, buf, StripAll, Entry(line.vehicle.registration.value, line.vehicle),
                       processed, tally, flushes, batchSize, ok);
        CommitsAppend(before, flushes - before);
        AppendAssociates(old(db.journal), Commits(before), Commits(flushes - before));
      }
      i := i + 1;
      assert Lines(Start(old(db.tables)), lines[..i], batchSize, ok) == next;
    }
    assert lines[..i] == lines;
  }

  /**
   * After the line loop: FAILED when reading raised; otherwise the leftover
   * flush, then COMPLETED.
   */
  method FinishFile(db: Database, buf: Batches, filename: string, readFails: bool,
                    processed: nat, tally: Tally, flushes: nat, ok: Oracle)
    returns (tally': Tally)
    requires db.committed == db.tables
    modifies db, buf
    ensures var s := Scan(old(db.tables), old(buf.Contents()), processed, tally, flushes);
      var r := if readFails then s else FinalFlush(StripAll, s, ok);
      db.tables == r.tables && tally' == r.tally && flushes <= r.flushes &&
      db.importLog == old(db.importLog)[filename := if readFails then Ledger.Failed else Ledger.Completed] &&
      db.journal == old(db.journal) + Commits(r.flushes - flushes) +
        [StatusWritten(filename, if readFails then Ledger.Failed else Ledger.Completed)]
    ensures db.committed == db.tables && db.triggersEnabled == old(db.triggersEnabled)
  {
    tally' := tally;
    if readFails {
      assert Commits(0) == [];
      db.MarkFileStatus(filename, Ledger.Failed);
      return;
    }
    if |buf.vehicles| > 0 || |buf.tests| > 0 {
      var flushes';
      tally', flushes' := FlushBatches(db, buf, StripAll, processed, tally, flushes, ok);
      assert Commits(1) == [Committed];
    } else {
      assert Commits(0) == [];
    }
    db.MarkFileStatus(filename, Ledger.Completed);
  }

  /**
   * `process_file` against one database: STARTED, the line loop, the leftover
   * flush, COMPLETED; or FAILED when reading raises. Returns `processed` and
   * the counters it logs.
   */
  method ProcessFile(db: Database, filename: string, stream: Stream, batchSize: nat, ok: Oracle)
    returns (processed: nat, tally: Tally)
    requires batchSize > 0 && db.committed == db.tables
    modifies db
    ensures var run := Run(old(db.tables), stream, batchSize, ok);
      db.tables == run.scan.tables && processed == run.scan.processed && tally == run.scan.tally &&
      db.importLog == old(db.importLog)[filename := run.status] &&
      db.journal == old(db.journal) + RunEvents(filename, run)
    ensures db.committed == db.tables && db.triggersEnabled == old(db.triggersEnabled)
  {
    ghost var before := db.journal;
    db.MarkFileStatus(filename, Ledger.Started);
    var buf := new Batches();
    var flushes;
    processed, tally, flushes := ScanLines(db, buf, stream.lines, batchSize, ok);
    ghost var s := Lines(Start(old(db.tables)), stream.lines, batchSize, ok);
    ghost var r := if stream.readFails then s else FinalFlush(StripAll, s, ok);
    ghost var status := if stream.readFails then Ledger.Failed else Ledger.Completed;
    assert Run(old(db.tables), stream, batchSize, ok) == FileRun(r, status);
    tally := FinishFile(db, buf, filename, stream.readFails, processed, tally, flushes, ok);
    CommitsAppend(s.flushes, r.flushes - s.flushes);
    ghost var started := [StatusWritten(filename, Ledger.Started)];
    ghost var ended := [StatusWritten(filename, status)];
    AppendAssociates(before + started, Commits(s.flushes), Commits(r.flushes - s.flushes));
    AppendAssociates(before, started, Commits(r.flushes));
    AppendAssociates(before, started + Commits(r.flushes), ended);
  }

  // ---------------------------------------------------------------- main: selection

  /** One element of the `bulk` or `delta` list the API returns. */
  datatype Listing = Listing(filename: Option<string>, downloadUrl: Option<string>)

  /** Names under this prefix are full exports, never fetched by the delta loader. */
  const BulkPrefix := "v1/public/bulk/"

  /**
   * A listed file is fetched when it has a name and a download URL, is not a
   * bulk export, and is not already COMPLETED.
   */
  predicate Wanted(log: Ledger.Log, f: Listing) {
    Truthy(f.filename) && Truthy(f.downloadUrl) &&
    !StartsWith(f.filename.value, BulkPrefix) && !Ledger.IsFileImported(log, f.filename.value)
  }

  /** `files_to_process`, in listing order. */
  function Selected(log: Ledger.Log, files: seq<Listing>): (r: seq<string>)
    ensures |r| <= |files|
    ensures forall i :: 0 <= i < |r| ==>
      r[i] != "" && !StartsWith(r[i], BulkPrefix) && !Ledger.IsFileImported(log, r[i])
    decreases |files|
  {
    if files == [] then []
    else
      var last := files[|files| - 1];
      Selected(log, files[..|files| - 1]) + (if Wanted(log, last) then [last.filename.value] else [])
  }

  /** A name is selected exactly when some listed entry carrying it is wanted. */
  lemma {:induction false} SelectedIff(log: Ledger.Log, files: seq<Listing>, name: string)
    ensures name in Selected(log, files) <==>
      exists i :: 0 <= i < |files| && Wanted(log, files[i]) && files[i].filename.value == name
    decreases |files|
  {
    if files != [] {
      var init := files[..|files| - 1];
      SelectedIff(log, init, name);
      if exists i :: 0 <= i < |init| && Wanted(log, init[i]) && init[i].filename.value == name {
        var i :| 0 <= i < |init| && Wanted(log, init[i]) && init[i].filename.value == name;
        assert files[i] == init[i];
      }
      if exists i :: 0 <= i < |files| && Wanted(log, files[i]) && files[i].filename.value == name {
        var i :| 0 <= i < |files| && Wanted(log, files[i]) && files[i].filename.value == name;
        if i < |init| { assert init[i] == files[i]; }
      }
    }
  }

  /** The DOWNLOADED marks written for the selected files not already on disk. */
  function DownloadMarks(names: seq<string>, alreadyLocal: string -> bool): seq<Ledger.Mark>
    decreases |names|
  {
    if names == [] then []
    else
      var last := names[|names| - 1];
      DownloadMarks(names[..|names| - 1], alreadyLocal)
        + (if alreadyLocal(last) then [] else [Ledger.Mark(last, Ledger.Downloaded)])
  }

  /** The selection loop writes no status but DOWNLOADED. */
  lemma {:induction false} DownloadMarksLast(names: seq<string>, alreadyLocal: string -> bool, n: string)
    ensures var l := Ledger.LastMark(DownloadMarks(names, alreadyLocal), n);
      l.None? || (l == Some(Ledger.Downloaded) && n in names)
    decreases |names|
  {
    if names != [] {
      var init, last := names[..|names| - 1], names[|names| - 1];
      DownloadMarksLast(init, alreadyLocal, n);
      var m := DownloadMarks(init, alreadyLocal);
      var ms := DownloadMarks(names, alreadyLocal);
      if !alreadyLocal(last) {
        assert ms == m + [Ledger.Mark(last, Ledger.Downloaded)];
        assert ms[..|ms| - 1] == m;
      } else {
        assert ms == m;
      }
    }
  }

  /**
   * Writing DOWNLOADED rows for names that were not imported never changes
   * which files count as imported.
   */
  lemma DownloadsKeepImported(log: Ledger.Log, names: seq<string>, alreadyLocal: string -> bool, n: string)
    requires forall i :: 0 <= i < |names| ==> !Ledger.IsFileImported(log, names[i])
    ensures Ledger.IsFileImported(Ledger.Replay(log, DownloadMarks(names, alreadyLocal)), n) <==>
      Ledger.IsFileImported(log, n)
  {
    DownloadMarksLast(names, alreadyLocal, n);
    Ledger.ImportedIffLastMarkCompleted(log, DownloadMarks(names, alreadyLocal), n);
  }

  function MarkEvents(marks: seq<Ledger.Mark>): (r: seq<Event>)
    ensures |r| == |marks| && forall i :: 0 <= i < |r| ==> r[i] == StatusWritten(marks[i].filename, marks[i].status)
  {
    seq(|marks|, i requires 0 <= i < |marks| => StatusWritten(marks[i].filename, marks[i].status))
  }

  /** The marks written while the name `name` joins the selection. */
  function NewMarks(name: string, alreadyLocal: string -> bool): seq<Ledger.Mark> {
    if alreadyLocal(name) then [] else [Ledger.Mark(name, Ledger.Downloaded)]
  }

  /**
   * One entry of the selection loop, given the ledger `log0` the loop started
   * from and the names `prev` it has kept so far.
   */
  method SelectEntry(db: Database, ghost log0: Ledger.Log, f: Listing, prev: seq<string>, alreadyLocal: string -> bool)
    returns (next: seq<string>)
    requires db.importLog == Ledger.Replay(log0, DownloadMarks(prev, alreadyLocal))
    requires forall i :: 0 <= i < |prev| ==> !Ledger.IsFileImported(log0, prev[i])
    modifies db
    ensures next == prev + (if Wanted(log0, f) then [f.filename.value] else [])
    ensures db.importLog == Ledger.Replay(log0, DownloadMarks(next, alreadyLocal))
    ensures db.journal == old(db.journal) +
      (if Wanted(log0, f) then MarkEvents(NewMarks(f.filename.value, alreadyLocal)) else [])
    ensures db.tables == old(db.tables) && db.committed == old(db.committed)
    ensures db.triggersEnabled == old(db.triggersEnabled)
  {
    next := prev;
    if f.filename.Some? && f.filename.value != "" && f.downloadUrl.Some? && f.downloadUrl.value != ""
      && !StartsWith(f.filename.value, BulkPrefix)
    {
      var name := f.filename.value;
      var imported := db.IsFileImported(name);
      DownloadsKeepImported(log0, prev, alreadyLocal, name);
      if !imported {
        next := prev + [name];
        assert next[..|next| - 1] == prev;
        assert DownloadMarks(next, alreadyLocal) == DownloadMarks(prev, alreadyLocal) + NewMarks(name, alreadyLocal);
        if !alreadyLocal(name) {
          db.MarkFileStatus(name, Ledger.Downloaded);
          Ledger.ReplaySnoc(log0, DownloadMarks(prev, alreadyLocal), Ledger.Mark(name, Ledger.Downloaded));
          assert DownloadMarks(next, alreadyLocal) == DownloadMarks(prev, alreadyLocal) + [Ledger.Mark(name, Ledger.Downloaded)];
        } else {
          assert DownloadMarks(next, alreadyLocal) == DownloadMarks(prev, alreadyLocal);
        }
      }
    }
  }

  /**
   * The selection loop of `main`: skip entries without name or URL and every
   * bulk export; skip COMPLETED files; keep the rest, marking DOWNLOADED each
   * one that had to be fetched (the fetch itself is not modelled). The
   * DOWNLOADED marks never change which files count as imported, so the
   * selection is the one the ledger gave at the start.
   */
  method SelectFiles(db: Database, files: seq<Listing>, alreadyLocal: string -> bool) returns (toProcess: seq<string>)
    modifies db
    ensures toProcess == Selected(old(db.importLog), files)
    ensures db.importLog == Ledger.Replay(old(db.importLog), DownloadMarks(toProcess, alreadyLocal))
    ensures db.journal == old(db.journal) + MarkEvents(DownloadMarks(toProcess, alreadyLocal))
    ensures db.tables == old(db.tables) && db.committed == old(db.committed)
    ensures db.triggersEnabled == old(db.triggersEnabled)
  {
    toProcess := [];
    var i := 0;
    while i < |files|
      invariant i <= |files|
      invariant toProcess == Selected(old(db.importLog), files[..i])
      invariant db.importLog == Ledger.Replay(old(db.importLog), DownloadMarks(toProcess, alreadyLocal))
      invariant db.journal == old(db.journal) + MarkEvents(DownloadMarks(toProcess, alreadyLocal))
      invariant db.tables == old(db.tables) && db.committed == old(db.committed)
      invariant db.triggersEnabled == old(db.triggersEnabled)
    {
      assert files[..i + 1][..i] == files[..i];
      ghost var selected := Selected(old(db.importLog), files[..i + 1]);
      assert selected == toProcess + (if Wanted(old(db.importLog), files[i]) then [files[i].filename.value] else []);
      var prev := toProcess;
      toProcess := SelectEntry(db, old(db.importLog), files[i], prev, alreadyLocal);
      assert toProcess == selected;
      if Wanted(old(db.importLog), files[i]) {
        var name := files[i].filename.value;
        assert toProcess[..|toProcess| - 1] == prev;
        assert DownloadMarks(toProcess, alreadyLocal) == DownloadMarks(prev, alreadyLocal) + NewMarks(name, alreadyLocal);
        MarkEventsAppend(DownloadMarks(prev, alreadyLocal), NewMarks(name, alreadyLocal));
        AppendAssociates(old(db.journal), MarkEvents(DownloadMarks(prev, alreadyLocal)), MarkEvents(NewMarks(name, alreadyLocal)));
      } else {
        assert toProcess == prev;
      }
      i := i + 1;
      assert Selected(old(db.importLog), files[..i]) == selected;
    }
    assert files[..i] == files;
  }

  lemma MarkEventsAppend(a: seq<Ledger.Mark>, b: seq<Ledger.Mark>)
    ensures MarkEvents(a + b) == MarkEvents(a) + MarkEvents(b)
  {
  }

  // ---------------------------------------------------------------- main: archives

  /** A file found in an extracted archive: its base name and content. */
  datatype Extracted = Extracted(name: string, stream: Stream)

  /** A downloaded zip archive and the files extracted from it. */
  datatype Archive = Archive(name: string, files: seq<Extracted>)

  /** One `process_file` call, as a change of the whole database. */
  function RunFile(st: DbState, f: Extracted, batchSize: nat, okFor: string -> Oracle): DbState
    requires batchSize > 0
  {
    var run := Run(st.tables, f.stream, batchSize, okFor(f.name));
    DbState(run.scan.tables, st.log[f.name := run.status], st.events + RunEvents(f.name, run))
  }

  /** `process_file` on every extracted file whose name ends in `.json.gz`, in walk order. */
  function RunExtracted(st: DbState, files: seq<Extracted>, batchSize: nat, okFor: string -> Oracle): DbState
    requires batchSize > 0
    decreases |files|
  {
    if files == [] then st
    else
      var m := RunExtracted(st, files[..|files| - 1], batchSize, okFor);
      var last := files[|files| - 1];
      if EndsWithJsonGz(last.name) then RunFile(m, last, batchSize, okFor) else m
  }

  /** Each archive's files are run, then the archive itself is marked COMPLETED. */
  function RunArchives(st: DbState, archives: seq<Archive>, batchSize: nat, okFor: string -> Oracle): DbState
    requires batchSize > 0
    decreases |archives|
  {
    if archives == [] then st
    else
      var last := archives[|archives| - 1];
      var x := RunExtracted(RunArchives(st, archives[..|archives| - 1], batchSize, okFor), last.files, batchSize, okFor);
      DbState(x.tables, x.log[last.name := Ledger.Completed], x.events + [StatusWritten(last.name, Ledger.Completed)])
  }

  /** Running extracted files only writes ledger rows for `.json.gz` names. */
  lemma {:induction false} RunExtractedWritesOnlyJson(st: DbState, files: seq<Extracted>, batchSize: nat, okFor: string -> Oracle, n: string)
    requires batchSize > 0 && !EndsWithJsonGz(n)
    ensures Ledger.Get(RunExtracted(st, files, batchSize, okFor).log, n) == Ledger.Get(st.log, n)
    decreases |files|
  {
    if files != [] {
      RunExtractedWritesOnlyJson(st, files[..|files| - 1], batchSize, okFor, n);
    }
  }

  /**
   * Every archive ends COMPLETED, whatever became of the files inside it,
   * provided archive names are distinct and are not `.json.gz` names.
   */
  lemma {:induction false} ArchivesCompleted(st: DbState, archives: seq<Archive>, batchSize: nat, okFor: string -> Oracle)
    requires batchSize > 0
    requires forall i, j :: 0 <= i < j < |archives| ==> archives[i].name != archives[j].name
    requires forall i :: 0 <= i < |archives| ==> !EndsWithJsonGz(archives[i].name)
    ensures forall i :: 0 <= i < |archives| ==>
      Ledger.IsFileImported(RunArchives(st, archives, batchSize, okFor).log, archives[i].name)
    decreases |archives|
  {
    if archives != [] {
      var init, last := archives[..|archives| - 1], archives[|archives| - 1];
      ArchivesCompleted(st, init, batchSize, okFor);
      var m := RunArchives(st, init, batchSize, okFor);
      forall i | 0 <= i < |init|
        ensures Ledger.Get(RunExtracted(m, last.files, batchSize, okFor).log, archives[i].name) == Some(Ledger.Completed)
      {
        assert init[i] == archives[i];
        RunExtractedWritesOnlyJson(m, last.files, batchSize, okFor, archives[i].name);
      }
    }
  }

  /** Running archives writes no row for a name that is neither an archive nor a `.json.gz` file. */
  lemma {:induction false} RunArchivesKeepsOthers(st: DbState, archives: seq<Archive>, batchSize: nat,
                                                  okFor: string -> Oracle, n: string)
    requires batchSize > 0 && !EndsWithJsonGz(n)
    requires forall i :: 0 <= i < |archives| ==> archives[i].name != n
    ensures Ledger.Get(RunArchives(st, archives, batchSize, okFor).log, n) == Ledger.Get(st.log, n)
    decreases |archives|
  {
    if archives != [] {
      var init, last := archives[..|archives| - 1], archives[|archives| - 1];
      RunArchivesKeepsOthers(st, init, batchSize, okFor, n);
      RunExtractedWritesOnlyJson(RunArchives(st, init, batchSize, okFor), last.files, batchSize, okFor, n);
    }
  }

  /**
   * `main` from selection to the archive loop: only zip downloads become
   * archives, so a selected file that is not one of them (and not itself a
   * `.json.gz` name) is left as the selection left it, never COMPLETED, and
   * the same listing selects it again on the next run.
   */
  lemma NonArchiveSelectedAgain(log0: Ledger.Log, files: seq<Listing>, alreadyLocal: string -> bool,
                                st: DbState, archives: seq<Archive>, batchSize: nat, okFor: string -> Oracle, n: string)
    requires batchSize > 0
    requires st.log == Ledger.Replay(log0, DownloadMarks(Selected(log0, files), alreadyLocal))
    requires n in Selected(log0, files) && !EndsWithJsonGz(n)
    requires forall i :: 0 <= i < |archives| ==> archives[i].name != n
    ensures var log := RunArchives(st, archives, batchSize, okFor).log;
      !Ledger.IsFileImported(log, n) && n in Selected(log, files)
  {
    var sel := Selected(log0, files);
    var log := RunArchives(st, archives, batchSize, okFor).log;
    RunArchivesKeepsOthers(st, archives, batchSize, okFor, n);
    DownloadsKeepImported(log0, sel, alreadyLocal, n);
    assert Ledger.IsFileImported(log, n) == Ledger.IsFileImported(st.log, n);
    SelectedIff(log0, files, n);
    var i :| 0 <= i < |files| && Wanted(log0, files[i]) && files[i].filename.value == n;
    assert Wanted(log, files[i]);
    SelectedIff(log, files, n);
  }

  /** `process_file` on each extracted `.json.gz` file of one archive. */
  method ProcessExtracted(db: Database, files: seq<Extracted>, batchSize: nat, okFor: string -> Oracle)
    requires batchSize > 0 && db.committed == db.tables
    modifies db
    ensures db.State() == RunExtracted(old(db.State()), files, batchSize, okFor)
    ensures db.committed == db.tables && db.triggersEnabled == old(db.triggersEnabled)
  {
    var i := 0;
    while i < |files|
      invariant i <= |files|
      invariant db.State() == RunExtracted(old(db.State()), files[..i], batchSize, okFor)
      invariant db.committed == db.tables && db.triggersEnabled == old(db.triggersEnabled)
    {
      assert files[..i + 1][..i] == files[..i];
      ghost var next := RunExtracted(old(db.State()), files[..i + 1], batchSize, okFor);
      if EndsWithJsonGz(files[i].name) {
        var _, _ := ProcessFile(db, files[i].name, files[i].stream, batchSize, okFor(files[i].name));
      }
      i := i + 1;
      assert RunExtracted(old(db.State()), files[..i], batchSize, okFor) == next;
    }
    assert files[..i] == files;
  }

  /**
   * The archive loop of `main`: run each archive's extracted files, then mark
   * the archive COMPLETED.
   */
  method ProcessArchives(db: Database, archives: seq<Archive>, batchSize: nat, okFor: string -> Oracle)
    requires batchSize > 0 && db.committed == db.tables
    modifies db
    ensures db.State() == RunArchives(old(db.State()), archives, batchSize, okFor)
    ensures db.committed == db.tables && db.triggersEnabled == old(db.triggersEnabled)
  {
    var i := 0;
    while i < |archives|
      invariant i <= |archives|
      invariant db.State() == RunArchives(old(db.State()), archives[..i], batchSize, okFor)
      invariant db.committed == db.tables && db.triggersEnabled == old(db.triggersEnabled)
    {
      assert archives[..i + 1][..i] == archives[..i];
      ghost var next := RunArchives(old(db.State()), archives[..i + 1], batchSize, okFor);
      ProcessExtracted(db, archives[i].files, batchSize, okFor);
      db.MarkFileStatus(archives[i].name, Ledger.Completed);
      i := i + 1;
      assert RunArchives(old(db.State()), archives[..i], batchSize, okFor) == next;
    }
    assert archives[..i] == archives;
  }

  // ---------------------------------------------------------------- retry_failed_files

  /**
   * The retry loop over the FAILED names: a name whose file is no longer in
   * the failed directory is skipped; any other is run through `process_file`.
   */
  function RetryAll(st: DbState, order: seq<string>, inFailedDir: string -> bool, streamOf: string -> Stream,
                    batchSize: nat, okFor: string -> Oracle): DbState
    requires batchSize > 0
    decreases |order|
  {
    if order == [] then st
    else
      var m := RetryAll(st, order[..|order| - 1], inFailedDir, streamOf, batchSize, okFor);
      var f := order[|order| - 1];
      if inFailedDir(f) then RunFile(m, Extracted(f, streamOf(f)), batchSize, okFor) else m
  }

  /**
   * Retry touches only the names it was given; each retried name ends with
   * the status its new run records, each skipped one keeps its row.
   */
  lemma RetryOutcome(st: DbState, order: seq<string>, inFailedDir: string -> bool,
                     streamOf: string -> Stream, batchSize: nat, okFor: string -> Oracle)
    requires batchSize > 0
    requires forall i, j :: 0 <= i < j < |order| ==> order[i] != order[j]
    ensures var r := RetryAll(st, order, inFailedDir, streamOf, batchSize, okFor);
      (forall f :: f !in order ==> Ledger.Get(r.log, f) == Ledger.Get(st.log, f)) &&
      (forall k :: 0 <= k < |order| ==>
         Ledger.Get(r.log, order[k]) ==
           (if !inFailedDir(order[k]) then Ledger.Get(st.log, order[k])
            else if streamOf(order[k]).readFails then Some(Ledger.Failed)
            else Some(Ledger.Completed)))
  {
  }

  /** The import ledger alone across the retries: each retried name gets the status its run records. */
  function RetryLog(log: Ledger.Log, order: seq<string>, inFailedDir: string -> bool, streamOf: string -> Stream): Ledger.Log
    decreases |order|
  {
    if order == [] then log
    else
      var m := RetryLog(log, order[..|order| - 1], inFailedDir, streamOf);
      var f := order[|order| - 1];
      if inFailedDir(f) then m[f := if streamOf(f).readFails then Ledger.Failed else Ledger.Completed] else m
  }

  /** The retries change the ledger as `RetryLog` says. */
  lemma {:induction false} RetryAllLog(st: DbState, order: seq<string>, inFailedDir: string -> bool,
                                       streamOf: string -> Stream, batchSize: nat, okFor: string -> Oracle)
    requires batchSize > 0
    ensures RetryAll(st, order, inFailedDir, streamOf, batchSize, okFor).log == RetryLog(st.log, order, inFailedDir, streamOf)
    decreases |order|
  {
    if order != [] {
      var init, f := order[..|order| - 1], order[|order| - 1];
      RetryAllLog(st, init, inFailedDir, streamOf, batchSize, okFor);
      if inFailedDir(f) {
        RunFileLog(RetryAll(st, init, inFailedDir, streamOf, batchSize, okFor), f, streamOf(f), batchSize, okFor);
      }
    }
  }

  /** `RetryOutcome` on the ledger alone. */
  lemma {:induction false} RetryLogOutcome(log: Ledger.Log, order: seq<string>, inFailedDir: string -> bool,
                                           streamOf: string -> Stream)
    requires forall i, j :: 0 <= i < j < |order| ==> order[i] != order[j]
    ensures var r := RetryLog(log, order, inFailedDir, streamOf);
      (forall f :: f !in order ==> Ledger.Get(r, f) == Ledger.Get(log, f)) &&
      (forall k :: 0 <= k < |order| ==>
         Ledger.Get(r, order[k]) ==
           (if !inFailedDir(order[k]) then Ledger.Get(log, order[k])
            else if streamOf(order[k]).readFails then Some(Ledger.Failed)
            else Some(Ledger.Completed)))
    decreases |order|
  {
    if order != [] {
      var init, f := order[..|order| - 1], order[|order| - 1];
      RetryLogOutcome(log, init, inFailedDir, streamOf);
      forall k | 0 <= k < |init| ensures order[k] in init && order[k] != f {
        assert init[k] == order[k];
      }
    }
  }

  /** A run writes the file's row, FAILED exactly when reading failed, and no other row. */
  lemma RunFileLog(st: DbState, f: string, stream: Stream, batchSize: nat, okFor: string -> Oracle)
    requires batchSize > 0
    ensures RunFile(st, Extracted(f, stream), batchSize, okFor).log ==
      st.log[f := if stream.readFails then Ledger.Failed else Ledger.Completed]
  {
  }

  /**
   * Retrying the FAILED set never adds a failure: afterwards the FAILED names
   * are a subset of the ones before, and every retried file that now reads to
   * the end is COMPLETED.
   */
  lemma RetryConverges(st: DbState, order: seq<string>, inFailedDir: string -> bool,
                       streamOf: string -> Stream, batchSize: nat, okFor: string -> Oracle)
    requires batchSize > 0
    requires forall f :: f in order <==> f in Ledger.FailedFiles(st.log)
    requires forall i, j :: 0 <= i < j < |order| ==> order[i] != order[j]
    ensures var r := RetryAll(st, order, inFailedDir, streamOf, batchSize, okFor);
      Ledger.FailedFiles(r.log) <= Ledger.FailedFiles(st.log) &&
      forall f :: f in Ledger.FailedFiles(st.log) && inFailedDir(f) && !streamOf(f).readFails ==>
        Ledger.IsFileImported(r.log, f)
  {
    var r := RetryAll(st, order, inFailedDir, streamOf, batchSize, okFor);
    RetryOutcome(st, order, inFailedDir, streamOf, batchSize, okFor);
    forall f | f in Ledger.FailedFiles(st.log) && inFailedDir(f) && !streamOf(f).readFails
      ensures Ledger.IsFileImported(r.log, f)
    {
      var k :| 0 <= k < |order| && order[k] == f;
    }
  }

  /**
   * `retry_failed_files`, given the names `get_failed_files` returned in the
   * order the query returned them.
   */
  method RetryFailedFiles(db: Database, order: seq<string>, inFailedDir: string -> bool,
                          streamOf: string -> Stream, batchSize: nat, okFor: string -> Oracle)
    requires batchSize > 0 && db.committed == db.tables
    requires forall f :: f in order <==> f in Ledger.FailedFiles(db.importLog)
    requires forall i, j :: 0 <= i < j < |order| ==> order[i] != order[j]
    modifies db
    ensures db.State() == RetryAll(old(db.State()), order, inFailedDir, streamOf, batchSize, okFor)
    ensures db.committed == db.tables && db.triggersEnabled == old(db.triggersEnabled)
  {
    var i := 0;
    while i < |order|
      invariant i <= |order|
      invariant db.State() == RetryAll(old(db.State()), order[..i], inFailedDir, streamOf, batchSize, okFor)
      invariant db.committed == db.tables && db.triggersEnabled == old(db.triggersEnabled)
    {
      assert order[..i + 1][..i] == order[..i];
      var f := order[i];
      if inFailedDir(f) {
        var _, _ := ProcessFile(db, f, streamOf(f), batchSize, okFor(f));
      }
      i := i + 1;
    }
    assert order[..i] == order;
  }
}
