/**
 * The `import_log` table: one status per file name, written by an upsert
 * (`mark_file_status`), read by the eligibility queries.
 */
module Ledger {
  import opened Optional

  datatype Status = Started | Downloaded | Completed | Failed

  /** The table's content: file name to the status last written for it. */
  type Log = map<string, Status>

  /** One `mark_file_status(conn, filename, status)` call. */
  datatype Mark = Mark(filename: string, status: Status)

  /** `is_file_imported`: a COMPLETED row exists for the name. */
  predicate IsFileImported(log: Log, filename: string) {
    filename in log && log[filename] == Completed
  }

  /** `is_file_downloaded_or_completed`: a DOWNLOADED or COMPLETED row exists for the name. */
  predicate IsFileDownloadedOrCompleted(log: Log, filename: string) {
    filename in log && log[filename] in {Downloaded, Completed}
  }

  /** `get_failed_files`: the names whose row says FAILED (SQL returns them in no fixed order). */
  function FailedFiles(log: Log): set<string> {
    set f | f in log && log[f] == Failed
  }

  /** The table after a sequence of `mark_file_status` calls, applied in order. */
  function Replay(log: Log, marks: seq<Mark>): Log
    decreases |marks|
  {
    if marks == [] then log
    else Replay(log[marks[0].filename := marks[0].status], marks[1..])
  }

  /** The status of the last call for `filename`, if any. */
  function LastMark(marks: seq<Mark>, filename: string): Option<Status>
    decreases |marks|
  {
    if marks == [] then None
    else if marks[|marks| - 1].filename == filename then Some(marks[|marks| - 1].status)
    else LastMark(marks[..|marks| - 1], filename)
  }

  /** The table's row for `filename` as an optional value. */
  function Get(log: Log, filename: string): Option<Status> {
    if filename in log then Some(log[filename]) else None
  }

  /**
   * Last writer wins: after any sequence of calls, a file's row holds the
   * status of the last call for it, or its old row when no call named it.
   */
  lemma {:induction false} ReplayLastWriterWins(log: Log, marks: seq<Mark>, filename: string)
    ensures Get(Replay(log, marks), filename) ==
      if LastMark(marks, filename).Some? then LastMark(marks, filename) else Get(log, filename)
    decreases |marks|
  {
    if marks != [] {
      var init, last := marks[..|marks| - 1], marks[|marks| - 1];
      assert init + [last] == marks;
      ReplaySnoc(log, init, last);
      ReplayLastWriterWins(log, init, filename);
    }
  }

  /** Replaying one more call is one more upsert. */
  lemma {:induction false} ReplaySnoc(log: Log, marks: seq<Mark>, m: Mark)
    ensures Replay(log, marks + [m]) == Replay(log, marks)[m.filename := m.status]
    decreases |marks|
  {
    if marks == [] {
      assert marks + [m] == [m];
    } else {
      assert (marks + [m])[1..] == marks[1..] + [m];
      ReplaySnoc(log[marks[0].filename := marks[0].status], marks[1..], m);
    }
  }

  /**
   * Eligibility follows the last transition: a file counts as imported after
   * a history of calls iff the last call for it wrote COMPLETED (or, when no
   * call named it, its old row is COMPLETED). A file last marked STARTED,
   * DOWNLOADED or FAILED stays eligible.
   */
  lemma ImportedIffLastMarkCompleted(log: Log, marks: seq<Mark>, filename: string)
    ensures IsFileImported(Replay(log, marks), filename) <==>
      (if LastMark(marks, filename).Some? then LastMark(marks, filename) == Some(Completed)
       else IsFileImported(log, filename))
  {
    ReplayLastWriterWins(log, marks, filename);
  }

  /** The FAILED set after a history of calls holds exactly the files last marked FAILED. */
  lemma FailedIffLastMarkFailed(log: Log, marks: seq<Mark>, filename: string)
    ensures filename in FailedFiles(Replay(log, marks)) <==>
      (if LastMark(marks, filename).Some? then LastMark(marks, filename) == Some(Failed)
       else filename in FailedFiles(log))
  {
    ReplayLastWriterWins(log, marks, filename);
  }

  /**
   * Retry convergence: marking a FAILED file COMPLETED makes it imported,
   * takes it out of the FAILED set, and leaves every other file's answers as
   * they were.
   */
  lemma RetryConvergence(log: Log, filename: string)
    requires filename in FailedFiles(log)
    ensures IsFileImported(log[filename := Completed], filename)
    ensures FailedFiles(log[filename := Completed]) == FailedFiles(log) - {filename}
    ensures forall g :: g != filename ==>
      (IsFileImported(log[filename := Completed], g) <==> IsFileImported(log, g))
  {
  }

  /** The downloaded-or-completed query is weaker than the imported query. */
  lemma ImportedIsDownloadedOrCompleted(log: Log, filename: string)
    ensures IsFileImported(log, filename) ==> IsFileDownloadedOrCompleted(log, filename)
    ensures IsFileDownloadedOrCompleted(log, filename) && !IsFileImported(log, filename) ==>
      log[filename] == Downloaded
  {
  }
}
