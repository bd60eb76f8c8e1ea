/** The `__main__` driver: export every user table with its blobs dropped,
    then every registered table again with its blobs base64-encoded. */
module Driver {
  import opened Wrappers
  import opened Values
  import opened Convert

  /** Tables whose names start with this prefix are SQLite's own bookkeeping. */
  const InternalPrefix: string := "sqlite_"

  predicate StartsWith(s: string, prefix: string)
  {
    |prefix| <= |s| && s[..|prefix|] == prefix
  }

  function LowerChar(c: char): char
  {
    if 'A' <= c <= 'Z' then (c as int + 32) as char else c
  }

  /** `s.lower()`, for ASCII letters. */
  function Lower(s: string): (r: string)
    ensures |r| == |s|
    ensures forall i :: 0 <= i < |s| ==> r[i] == LowerChar(s[i])
  {
    if s == [] then [] else [LowerChar(s[0])] + Lower(s[1..])
  }

  /** The path of the default export of `table`: `f"{tableName.lower()}.csv"`. */
  function CsvPath(table: string): string
  {
    Lower(table) + ".csv"
  }

  /** The path of the base64 export of `table`: `f"{tableName.lower()}_base64.csv"`. */
  function Base64Path(table: string): string
  {
    Lower(table) + "_base64.csv"
  }

  /** The jobs of the first loop, over the catalog in its order. */
  function DropJobs(catalog: seq<string>): seq<Job>
  {
    if catalog == [] then []
    else
      var last := catalog[|catalog| - 1];
      DropJobs(catalog[..|catalog| - 1]) +
        if StartsWith(last, InternalPrefix) then [] else [Job(last, CsvPath(last), false)]
  }

  /** The jobs of the second loop, over the registry in its order. */
  function KeepJobs(blobs: seq<(string, string)>): seq<Job>
  {
    if blobs == [] then []
    else
      var last := blobs[|blobs| - 1].0;
      KeepJobs(blobs[..|blobs| - 1]) + [Job(last, Base64Path(last), true)]
  }

  /** Every `convertTable` call of a run, in order. */
  function Plan(cfg: Config, catalog: seq<string>): seq<Job>
  {
    DropJobs(catalog) + KeepJobs(cfg.blobs)
  }

  /** `convertTable` on the database `db`, as a function of the job. */
  function Exporter(cfg: Config, db: Database, reread: seq<seq<string>> -> seq<seq<string>>): Job -> Report
  {
    job => TableExport(cfg, db, job, reread)
  }

  /** Running `jobs` in order with `run`; the first error ends the run, and
      the files written until then (the failing job's own file included)
      stay written. */
  function RunJobs(run: Job -> Report, jobs: seq<Job>): Report
  {
    if jobs == [] then Report([], None)
    else
      var before := RunJobs(run, jobs[..|jobs| - 1]);
      if before.error.Some? then before
      else
        var last := run(jobs[|jobs| - 1]);
        Report(before.written + last.written, last.error)
  }

  /** One more job runs only if the jobs before it did not fail. */
  lemma RunJobsSnoc(run: Job -> Report, jobs: seq<Job>, job: Job)
    ensures var before := RunJobs(run, jobs);
      RunJobs(run, jobs + [job]) ==
        if before.error.Some? then before else Report(before.written + run(job).written, run(job).error)
  {
    assert (jobs + [job])[..|jobs|] == jobs;
  }

  lemma {:induction false} DropJobsAppend(a: seq<string>, b: seq<string>)
    ensures DropJobs(a + b) == DropJobs(a) + DropJobs(b)
    decreases |b|
  {
    if b == [] {
      assert a + b == a;
    } else {
      var b' := b[..|b| - 1];
      assert (a + b)[..|a + b| - 1] == a + b';
      DropJobsAppend(a, b');
    }
  }

  lemma {:induction false} KeepJobsAppend(a: seq<(string, string)>, b: seq<(string, string)>)
    ensures KeepJobs(a + b) == KeepJobs(a) + KeepJobs(b)
    decreases |b|
  {
    if b == [] {
      assert a + b == a;
    } else {
      var b' := b[..|b| - 1];
      assert (a + b)[..|a + b| - 1] == a + b';
      KeepJobsAppend(a, b');
    }
  }

  /** Cutting a sequence at `k` and joining the halves gives it back. */
  lemma SliceJoin<T>(s: seq<T>, k: nat)
    requires k <= |s|
    ensures s[..k] + s[k..] == s
  {
  }

  lemma DropJobsSplit(catalog: seq<string>, k: nat)
    requires k <= |catalog|
    ensures DropJobs(catalog) == DropJobs(catalog[..k]) + DropJobs(catalog[k..])
  {
    SliceJoin(catalog, k);
    DropJobsAppend(catalog[..k], catalog[k..]);
  }

  lemma KeepJobsSplit(blobs: seq<(string, string)>, k: nat)
    requires k <= |blobs|
    ensures KeepJobs(blobs) == KeepJobs(blobs[..k]) + KeepJobs(blobs[k..])
  {
    SliceJoin(blobs, k);
    KeepJobsAppend(blobs[..k], blobs[k..]);
  }

  lemma DropJobsStep(catalog: seq<string>, i: nat)
    requires i < |catalog|
    ensures DropJobs(catalog[..i + 1]) == DropJobs(catalog[..i]) +
      if StartsWith(catalog[i], InternalPrefix) then [] else [Job(catalog[i], CsvPath(catalog[i]), false)]
  {
    assert catalog[..i + 1][..i] == catalog[..i];
  }

  lemma KeepJobsStep(blobs: seq<(string, string)>, j: nat)
    requires j < |blobs|
    ensures KeepJobs(blobs[..j + 1]) == KeepJobs(blobs[..j]) + [Job(blobs[j].0, Base64Path(blobs[j].0), true)]
  {
    assert blobs[..j + 1][..j] == blobs[..j];
  }

  /** Once a job fails, no later job runs. */
  lemma {:induction false} RunStopsAtError(run: Job -> Report, jobs: seq<Job>, more: seq<Job>)
    requires RunJobs(run, jobs).error.Some?
    ensures RunJobs(run, jobs + more) == RunJobs(run, jobs)
    decreases |more|
  {
    if more != [] {
      var more' := more[..|more| - 1];
      assert jobs + more == (jobs + more') + [more[|more| - 1]];
      RunStopsAtError(run, jobs, more');
      RunJobsSnoc(run, jobs + more', more[|more| - 1]);
    } else {
      assert jobs + more == jobs;
    }
  }

  /** Running `a` and then `b`: when `a` does not fail, the files of `b`
      follow those of `a` and the run ends as `b` ends. */
  lemma {:induction false} RunJobsAppend(run: Job -> Report, a: seq<Job>, b: seq<Job>)
    requires RunJobs(run, a).error.None?
    ensures RunJobs(run, a + b) ==
      Report(RunJobs(run, a).written + RunJobs(run, b).written, RunJobs(run, b).error)
    decreases |b|
  {
    if b == [] {
      assert a + b == a;
      assert RunJobs(run, a).written + [] == RunJobs(run, a).written;
    } else {
      var b', x := b[..|b| - 1], b[|b| - 1];
      assert a + b == (a + b') + [x];
      assert b == b' + [x];
      RunJobsAppend(run, a, b');
      RunJobsSnoc(run, a + b', x);
      RunJobsSnoc(run, b', x);
      var wa, wb', wx := RunJobs(run, a).written, RunJobs(run, b').written, run(x).written;
      assert wa + wb' + wx == wa + (wb' + wx);
    }
  }

  /** `run` writes at most the file of the job it runs, and writes it when
      the job succeeds. */
  ghost predicate WritesOwnFile(run: Job -> Report)
  {
    forall job :: |run(job).written| <= 1 &&
      (run(job).error.None? ==> |run(job).written| == 1) &&
      (|run(job).written| == 1 ==> run(job).written[0].path == job.path)
  }

  lemma ExporterWritesOwnFile(cfg: Config, db: Database, reread: seq<seq<string>> -> seq<seq<string>>)
    ensures WritesOwnFile(Exporter(cfg, db, reread))
  {
    forall job
      ensures var r := Exporter(cfg, db, reread)(job);
        |r.written| <= 1 && (r.error.None? ==> |r.written| == 1) &&
        (|r.written| == 1 ==> r.written[0].path == job.path)
    {
      assert Exporter(cfg, db, reread)(job) == TableExport(cfg, db, job, reread);
    }
  }

  /** A run writes one file per job it reaches, to that job's path, in order:
      all of them when no job fails, none after the one that fails. */
  lemma {:induction false} RunWritesInOrder(run: Job -> Report, jobs: seq<Job>)
    requires WritesOwnFile(run)
    ensures var r := RunJobs(run, jobs);
      |r.written| <= |jobs| &&
      (r.error.None? ==> |r.written| == |jobs|) &&
      forall i :: 0 <= i < |r.written| ==> r.written[i].path == jobs[i].path
  {
    if jobs != [] {
      var jobs' := jobs[..|jobs| - 1];
      RunWritesInOrder(run, jobs');
      var x := jobs[|jobs| - 1];
      assert |run(x).written| <= 1;
    }
  }

  /** Every catalog table without the internal prefix is exported with its
      blobs dropped to its lower-cased name plus ".csv"; the first loop does
      nothing else. */
  lemma {:induction false} DropJobsCoverCatalog(catalog: seq<string>)
    ensures forall t :: t in catalog && !StartsWith(t, InternalPrefix) ==>
      Job(t, CsvPath(t), false) in DropJobs(catalog)
    ensures forall j :: j in DropJobs(catalog) ==>
      j.table in catalog && !StartsWith(j.table, InternalPrefix) && j == Job(j.table, CsvPath(j.table), false)
  {
    if catalog != [] {
      var init := catalog[..|catalog| - 1];
      DropJobsCoverCatalog(init);
      assert catalog == init + [catalog[|catalog| - 1]];
    }
  }

  /** The first loop's jobs come in catalog order: the job of the `i`-th
      table sits right after the jobs of the tables before it. */
  lemma {:induction false} DropJobsInOrder(catalog: seq<string>)
    ensures |DropJobs(catalog)| <= |catalog|
    ensures forall i :: 0 <= i < |catalog| && !StartsWith(catalog[i], InternalPrefix) ==>
      |DropJobs(catalog[..i])| < |DropJobs(catalog)| &&
      DropJobs(catalog)[|DropJobs(catalog[..i])|] == Job(catalog[i], CsvPath(catalog[i]), false)
  {
    forall i | 0 <= i < |catalog| && !StartsWith(catalog[i], InternalPrefix)
      ensures |DropJobs(catalog[..i])| < |DropJobs(catalog)|
      ensures DropJobs(catalog)[|DropJobs(catalog[..i])|] == Job(catalog[i], CsvPath(catalog[i]), false)
    {
      DropJobsSplit(catalog, i + 1);
      DropJobsStep(catalog, i);
    }
    if catalog != [] {
      DropJobsInOrder(catalog[..|catalog| - 1]);
    }
  }

  /** The second loop exports each registered table, in registry order, with
      its blobs kept, to its lower-cased name plus "_base64.csv". */
  lemma {:induction false} KeepJobsFollowRegistry(blobs: seq<(string, string)>)
    ensures |KeepJobs(blobs)| == |blobs|
    ensures forall i :: 0 <= i < |blobs| ==>
      KeepJobs(blobs)[i] == Job(blobs[i].0, Base64Path(blobs[i].0), true)
  {
    if blobs != [] {
      KeepJobsFollowRegistry(blobs[..|blobs| - 1]);
    }
  }

  /** An internal table is never exported in drop mode; a job in keep mode
      is always for a registered table. */
  lemma PlanSkipsInternalTables(cfg: Config, catalog: seq<string>)
    ensures forall j :: j in Plan(cfg, catalog) && StartsWith(j.table, InternalPrefix) ==> j.keepBlobs
    ensures forall j :: j in Plan(cfg, catalog) && j.keepBlobs ==> Lookup(cfg.blobs, j.table).Some?
  {
    DropJobsCoverCatalog(catalog);
    KeepJobsFollowRegistry(cfg.blobs);
    forall j | j in Plan(cfg, catalog) && j.keepBlobs
      ensures Lookup(cfg.blobs, j.table).Some?
    {
      assert j in KeepJobs(cfg.blobs);
      var i :| 0 <= i < |KeepJobs(cfg.blobs)| && KeepJobs(cfg.blobs)[i] == j;
      assert cfg.blobs[i].0 == j.table;
    }
  }

  /** A failure among the first `k` tables of the catalog ends the first loop. */
  lemma DropRunStops(run: Job -> Report, catalog: seq<string>, k: nat)
    requires k <= |catalog|
    requires RunJobs(run, DropJobs(catalog[..k])).error.Some?
    ensures RunJobs(run, DropJobs(catalog)) == RunJobs(run, DropJobs(catalog[..k]))
  {
    DropJobsSplit(catalog, k);
    RunStopsAtError(run, DropJobs(catalog[..k]), DropJobs(catalog[k..]));
  }

  /** A failure among the first `k` registry entries ends the second loop. */
  lemma KeepRunStops(run: Job -> Report, blobs: seq<(string, string)>, k: nat)
    requires k <= |blobs|
    requires RunJobs(run, KeepJobs(blobs[..k])).error.Some?
    ensures RunJobs(run, KeepJobs(blobs)) == RunJobs(run, KeepJobs(blobs[..k]))
  {
    KeepJobsSplit(blobs, k);
    RunStopsAtError(run, KeepJobs(blobs[..k]), KeepJobs(blobs[k..]));
  }

  /** One `convertTable` call of a driver loop; an exception it raises ends
      the run. */
  method RunNext(cfg: Config, db: Database, ghost done: seq<Job>, report: Report, job: Job,
                 reread: seq<seq<string>> -> seq<seq<string>>)
    returns (next: Report)
    requires report == RunJobs(Exporter(cfg, db, reread), done) && report.error.None?
    ensures next == RunJobs(Exporter(cfg, db, reread), done + [job])
  {
    var r := ConvertTable(cfg, db, job.table, job.path, job.keepBlobs, reread);
    RunJobsSnoc(Exporter(cfg, db, reread), done, job);
    next := Report(report.written + r.written, r.error);
  }

  /** The first driver loop, over the catalog's table names in the order
      `SELECT name FROM sqlite_schema WHERE type='table'` returns them. */
  method ExportUserTables(cfg: Config, db: Database, catalog: seq<string>,
                          reread: seq<seq<string>> -> seq<seq<string>>)
    returns (report: Report)
    ensures report == RunJobs(Exporter(cfg, db, reread), DropJobs(catalog))
  {
    report := Report([], None);
    var i := 0;
    while i < |catalog|
      invariant 0 <= i <= |catalog|
      invariant report == RunJobs(Exporter(cfg, db, reread), DropJobs(catalog[..i]))
      invariant report.error.None?
    {
      var tableName := catalog[i];
      DropJobsStep(catalog, i);
      if !StartsWith(tableName, InternalPrefix) {
        report := RunNext(cfg, db, DropJobs(catalog[..i]), report, Job(tableName, CsvPath(tableName), false), reread);
        if report.error.Some? {
          DropRunStops(Exporter(cfg, db, reread), catalog, i + 1);
          return;
        }
      } else {
        assert DropJobs(catalog[..i + 1]) == DropJobs(catalog[..i]);
      }
      i := i + 1;
    }
    assert catalog[..i] == catalog;
  }

  /** The second driver loop, over the registry in its order. */
  method ExportBase64Tables(cfg: Config, db: Database, reread: seq<seq<string>> -> seq<seq<string>>)
    returns (report: Report)
    ensures report == RunJobs(Exporter(cfg, db, reread), KeepJobs(cfg.blobs))
  {
    report := Report([], None);
    var j := 0;
    while j < |cfg.blobs|
      invariant 0 <= j <= |cfg.blobs|
      invariant report == RunJobs(Exporter(cfg, db, reread), KeepJobs(cfg.blobs[..j]))
      invariant report.error.None?
    {
      var tableName := cfg.blobs[j].0;
      KeepJobsStep(cfg.blobs, j);
      report := RunNext(cfg, db, KeepJobs(cfg.blobs[..j]), report, Job(tableName, Base64Path(tableName), true), reread);
      if report.error.Some? {
        KeepRunStops(Exporter(cfg, db, reread), cfg.blobs, j + 1);
        return;
      }
      j := j + 1;
    }
    assert cfg.blobs[..j] == cfg.blobs;
  }

  /** The whole export writes at most one file per planned job, to that
      job's path and in plan order, and one per job when nothing fails. */
  lemma ExportWritesInPlanOrder(cfg: Config, db: Database, catalog: seq<string>,
                                reread: seq<seq<string>> -> seq<seq<string>>)
    ensures var jobs := Plan(cfg, catalog);
      var r := RunJobs(Exporter(cfg, db, reread), jobs);
      |r.written| <= |jobs| &&
      (r.error.None? ==> |r.written| == |jobs|) &&
      forall i :: 0 <= i < |r.written| ==> r.written[i].path == jobs[i].path
  {
    ExporterWritesOwnFile(cfg, db, reread);
    RunWritesInOrder(Exporter(cfg, db, reread), Plan(cfg, catalog));
  }

  /** The `__main__` block after the download: both driver loops; an error
      in the first ends the run before the second. */
  method ExportDatabase(cfg: Config, db: Database, catalog: seq<string>,
                        reread: seq<seq<string>> -> seq<seq<string>>)
    returns (report: Report)
    ensures report == RunJobs(Exporter(cfg, db, reread), Plan(cfg, catalog))
  {
    report := ExportUserTables(cfg, db, catalog, reread);
    if report.error.Some? {
      RunStopsAtError(Exporter(cfg, db, reread), DropJobs(catalog), KeepJobs(cfg.blobs));
      return;
    }
    var base64 := ExportBase64Tables(cfg, db, reread);
    RunJobsAppend(Exporter(cfg, db, reread), DropJobs(catalog), KeepJobs(cfg.blobs));
    report := Report(report.written + base64.written, base64.error);
  }
}
