/**
 * `Worker`: the two background tasks.  `generate_zkml_proof` takes a pending
 * job through processing to completed or failed; `cleanup_old_proofs` removes
 * the directories of jobs completed before a cut-off and clears their paths.
 * The database faults the proof task retries on, the Celery task id, the retry count and
 * the clock are parameters.
 */
module Worker {
  import opened Common
  import opened Store
  import opened ProofCache
  import ZkmlProof

  /** `max_retries` of the proof task. */
  const MAX_RETRIES := 3

  /** The minutes in a day; the clock counts minutes. */
  const MINUTES_PER_DAY := 1440

  /** What `str(e)` says of the `TypeError` `Path(None)` raises. */
  const PATH_OF_NONE := "expected str, bytes or os.PathLike object, not NoneType"

  /**
   * A database fault of the kinds the proof task retries on (`OperationalError`,
   * `ConnectionError`, `TimeoutError`): none, one while the job is looked up,
   * or one after the job was marked as processing.
   */
  datatype Transient = NoTransient | AtLookup(msg: string) | AfterStart(msg: string)

  /**
   * What the proof task hands back: the three dictionaries it returns, a retry
   * scheduled by Celery, or the fault re-raised once the retries are spent.
   */
  datatype TaskResult =
    | AlreadyCompleted(jobId: int, storedProofPath: Option<string>)
    | Completed(jobId: int, proofPath: string, attempts: int)
    | Failed(jobId: int, error: string)
    | Retry(error: string)
    | RetriesExhausted(error: string)

  // ---------------------------------------------------------------------------
  // generate_zkml_proof_task

  /** The job as the proof task marks it before the work starts. */
  function Started(job: ProofJob, taskId: string, now: int): (j: ProofJob)
    ensures j == job.(status := PROCESSING, startedAt := Some(now), taskId := Some(taskId))
  {
    job.(status := PROCESSING, startedAt := Some(now), taskId := Some(taskId))
  }

  /** The job after a permanent failure. */
  function FailedJob(job: ProofJob, error: string, now: int): (j: ProofJob)
    ensures j == job.(status := FAILED, errorMessage := Some(error), completedAt := Some(now))
  {
    job.(status := FAILED, errorMessage := Some(error), completedAt := Some(now))
  }

  /** The job after the proof was made. */
  function CompletedJob(job: ProofJob, proofPath: string, witnessPath: string, settingsPath: string, now: int)
    : (j: ProofJob)
    ensures j == job.(status := COMPLETED, proofPath := Some(proofPath), witnessPath := Some(witnessPath),
                      settingsPath := Some(settingsPath), completedAt := Some(now))
  {
    job.(status := COMPLETED, proofPath := Some(proofPath), witnessPath := Some(witnessPath),
         settingsPath := Some(settingsPath), completedAt := Some(now))
  }

  /** The note a retried fault leaves on the job; `retries` counts the earlier attempts. */
  function RetryNote(retries: nat, msg: string): string
  {
    "Retry " + IntToString(retries + 1) + ": " + msg
  }

  /** A retriable fault is retried until `max_retries` retries have been made. */
  function RetryOutcome(retries: nat, msg: string): (r: TaskResult)
    ensures r.Retry? <==> retries < MAX_RETRIES
    ensures r == Retry(msg) || r == RetriesExhausted(msg)
  {
    if retries < MAX_RETRIES then Retry(msg) else RetriesExhausted(msg)
  }

  /** `Path(p).exists()`: a file or a directory. */
  predicate Exists(files: set<string>, dirs: set<string>, p: string)
  {
    p in files || p in dirs
  }

  /** The hash the cache is keyed by: the model's, or "unknown" when it is empty. */
  function HashOrUnknown(m: ModelRecord): (h: string)
    ensures h != ""
    ensures m.modelHash != "" ==> h == m.modelHash
  {
    if m.modelHash == "" then "unknown" else m.modelHash
  }

  /**
   * The checks before the proof is generated, in their order: the model row,
   * its file, and the input file (looked for after the job's directory was
   * made).  The first failing one names the error.
   */
  function Precheck(job: ProofJob, models: seq<ModelRecord>, files: set<string>, dirs: set<string>,
                    proofsDir: string): (e: Option<string>)
    ensures ModelIndexById(models, job.modelId) == -1 ==>
      e == Some("Model " + IntToString(job.modelId) + " not found")
    ensures var m := ModelIndexById(models, job.modelId);
      m >= 0 && !Exists(files, dirs, models[m].storagePath) ==>
        e == Some("Model file not found: " + models[m].storagePath)
    ensures var m := ModelIndexById(models, job.modelId);
      m >= 0 && Exists(files, dirs, models[m].storagePath) && job.inputDataPath.None? ==> e == Some(PATH_OF_NONE)
    ensures e.None? <==> (var m := ModelIndexById(models, job.modelId);
      m >= 0 && Exists(files, dirs, models[m].storagePath) && job.inputDataPath.Some? &&
      Exists(files, dirs + {JobDir(proofsDir, job.id)}, job.inputDataPath.value))
  {
    var m := ModelIndexById(models, job.modelId);
    if m == -1 then Some("Model " + IntToString(job.modelId) + " not found")
    else if !Exists(files, dirs, models[m].storagePath) then Some("Model file not found: " + models[m].storagePath)
    else if job.inputDataPath.None? then Some(PATH_OF_NONE)
    else if !Exists(files, dirs + {JobDir(proofsDir, job.id)}, job.inputDataPath.value) then
      Some("Input data not found: " + job.inputDataPath.value)
    else None
  }

  /** Whether the generation step succeeds, given what the cache holds before it. */
  predicate GenerationSucceeds(files: set<string>, proofsDir: string, modelHash: string, setupError: Option<ZkmlProof.SetupFault>,
                               witnessError: Option<string>, proveError: Option<string>)
  {
    (Complete(files, CacheDir(proofsDir, modelHash)) || setupError.None?) && witnessError.None? && proveError.None?
  }

  /**
   * `generate_zkml_proof_task`.  A retriable fault while the job is looked up
   * only leaves a note on the job; a missing job fails the proof task; a completed
   * one is skipped.  Otherwise the job is marked as processing, and a fault
   * now again only leaves a note.  Then the prechecks run and the proof is
   * generated: the job ends completed, with its paths, or failed, with the
   * error; in either case `completed_at` is set.
   */
  method GenerateZkmlProofTask(jobs: JobTable, models: seq<ModelRecord>, disk: Disk, proofsDir: string,
                               jobId: int, taskId: string, retries: nat, start: int, end: int,
                               transient: Transient, setupError: Option<ZkmlProof.SetupFault>, copyFault: Option<nat>,
                               witnessError: Option<string>, proveError: Option<string>)
    returns (res: TaskResult)
    requires jobs.Valid()
    modifies jobs, disk
    ensures jobs.Valid() && jobs.nextId == old(jobs.nextId) && |jobs.rows| == |old(jobs.rows)|
    ensures JobIndexById(old(jobs.rows), jobId) == -1 ==>
      jobs.rows == old(jobs.rows) && disk.files == old(disk.files) && disk.dirs == old(disk.dirs) &&
      res == (if transient.AtLookup? then RetryOutcome(retries, transient.msg)
              else Failed(jobId, "ProofJob " + IntToString(jobId) + " not found"))
    ensures var i := JobIndexById(old(jobs.rows), jobId);
      i >= 0 ==> forall k :: 0 <= k < |jobs.rows| && k != i ==> jobs.rows[k] == old(jobs.rows)[k]
    ensures var i := JobIndexById(old(jobs.rows), jobId);
      i >= 0 && transient.AtLookup? ==>
        res == RetryOutcome(retries, transient.msg) && disk.files == old(disk.files) && disk.dirs == old(disk.dirs) &&
        jobs.rows[i] == old(jobs.rows)[i].(errorMessage := Some(RetryNote(retries, transient.msg)))
    ensures var i := JobIndexById(old(jobs.rows), jobId);
      i >= 0 && !transient.AtLookup? && old(jobs.rows)[i].status == COMPLETED ==>
        res == AlreadyCompleted(jobId, old(jobs.rows)[i].proofPath) && jobs.rows == old(jobs.rows) &&
        disk.files == old(disk.files) && disk.dirs == old(disk.dirs)
    ensures var i := JobIndexById(old(jobs.rows), jobId);
      i >= 0 && old(jobs.rows)[i].status != COMPLETED && transient.AfterStart? ==>
        res == RetryOutcome(retries, transient.msg) && disk.files == old(disk.files) && disk.dirs == old(disk.dirs) &&
        jobs.rows[i] == Started(old(jobs.rows)[i], taskId, start).(errorMessage := Some(RetryNote(retries, transient.msg)))
    ensures var i := JobIndexById(old(jobs.rows), jobId);
      i >= 0 && old(jobs.rows)[i].status != COMPLETED && transient.NoTransient? &&
      Precheck(old(jobs.rows)[i], models, old(disk.files), old(disk.dirs), proofsDir).Some? ==>
        var e := Precheck(old(jobs.rows)[i], models, old(disk.files), old(disk.dirs), proofsDir).value;
        res == Failed(jobId, e) && disk.files == old(disk.files) &&
        jobs.rows[i] == FailedJob(Started(old(jobs.rows)[i], taskId, start), e, end)
    ensures res.Failed? && JobIndexById(old(jobs.rows), jobId) >= 0 ==>
      var i := JobIndexById(old(jobs.rows), jobId);
      jobs.rows[i] == FailedJob(Started(old(jobs.rows)[i], taskId, start), res.error, end)
    ensures res.Completed? <==> (var i := JobIndexById(old(jobs.rows), jobId);
      i >= 0 && old(jobs.rows)[i].status != COMPLETED && transient.NoTransient? &&
      Precheck(old(jobs.rows)[i], models, old(disk.files), old(disk.dirs), proofsDir).None? &&
      GenerationSucceeds(old(disk.files), proofsDir,
                         HashOrUnknown(models[ModelIndexById(models, old(jobs.rows)[i].modelId)]),
                         setupError, witnessError, proveError))
    ensures res.Completed? ==>
      var i := JobIndexById(old(jobs.rows), jobId);
      var dir := JobDir(proofsDir, jobId);
      res == Completed(jobId, PathJoin(dir, "proof.json"), retries + 1) &&
      jobs.rows[i] == CompletedJob(Started(old(jobs.rows)[i], taskId, start), PathJoin(dir, "proof.json"),
                                   PathJoin(dir, "witness.json"), PathJoin(dir, "settings.json"), end) &&
      PathJoin(dir, "proof.json") in disk.files && PathJoin(dir, "witness.json") in disk.files &&
      PathJoin(dir, "settings.json") in disk.files
    ensures old(disk.files) <= disk.files && old(disk.dirs) <= disk.dirs
  {
    var i := JobIndexById(jobs.rows, jobId);
    if i == -1 {
      return if transient.AtLookup? then RetryOutcome(retries, transient.msg)
             else Failed(jobId, "ProofJob " + IntToString(jobId) + " not found");
    }
    var row;
    row, res := RunFoundJob(models, disk, proofsDir, jobs.rows[i], taskId, retries, start, end, transient,
                            setupError, copyFault, witnessError, proveError);
    if row.Some? {
      UpdateKeepsJobsValid(jobs.rows, jobs.nextId, i, row.value);
      jobs.rows := jobs.rows[i := row.value];
    }
  }

  /**
   * The proof task once the job was found: the job's new row, or `None` when a
   * completed job is skipped and its row stays as it is.
   */
  method RunFoundJob(models: seq<ModelRecord>, disk: Disk, proofsDir: string, job: ProofJob, taskId: string,
                     retries: nat, start: int, end: int, transient: Transient, setupError: Option<ZkmlProof.SetupFault>,
                     copyFault: Option<nat>, witnessError: Option<string>, proveError: Option<string>)
    returns (row: Option<ProofJob>, res: TaskResult)
    modifies disk
    ensures row.Some? ==> row.value.id == job.id && row.value.createdAt == job.createdAt
    ensures transient.AtLookup? ==>
      res == RetryOutcome(retries, transient.msg) && disk.files == old(disk.files) && disk.dirs == old(disk.dirs) &&
      row == Some(job.(errorMessage := Some(RetryNote(retries, transient.msg))))
    ensures !transient.AtLookup? && job.status == COMPLETED ==>
      res == AlreadyCompleted(job.id, job.proofPath) && row.None? &&
      disk.files == old(disk.files) && disk.dirs == old(disk.dirs)
    ensures job.status != COMPLETED && transient.AfterStart? ==>
      res == RetryOutcome(retries, transient.msg) && disk.files == old(disk.files) && disk.dirs == old(disk.dirs) &&
      row == Some(Started(job, taskId, start).(errorMessage := Some(RetryNote(retries, transient.msg))))
    ensures (job.status != COMPLETED && transient.NoTransient? &&
             Precheck(job, models, old(disk.files), old(disk.dirs), proofsDir).Some?) ==>
        var e := Precheck(job, models, old(disk.files), old(disk.dirs), proofsDir).value;
        res == Failed(job.id, e) && disk.files == old(disk.files) &&
        row == Some(FailedJob(Started(job, taskId, start), e, end))
    ensures res.Failed? ==> res.jobId == job.id && row == Some(FailedJob(Started(job, taskId, start), res.error, end))
    ensures res.Completed? <==>
      job.status != COMPLETED && transient.NoTransient? &&
      Precheck(job, models, old(disk.files), old(disk.dirs), proofsDir).None? &&
      GenerationSucceeds(old(disk.files), proofsDir, HashOrUnknown(models[ModelIndexById(models, job.modelId)]),
                         setupError, witnessError, proveError)
    ensures res.Completed? ==>
      var dir := JobDir(proofsDir, job.id);
      res == Completed(job.id, PathJoin(dir, "proof.json"), retries + 1) &&
      row == Some(CompletedJob(Started(job, taskId, start), PathJoin(dir, "proof.json"),
                               PathJoin(dir, "witness.json"), PathJoin(dir, "settings.json"), end)) &&
      PathJoin(dir, "proof.json") in disk.files && PathJoin(dir, "witness.json") in disk.files &&
      PathJoin(dir, "settings.json") in disk.files
    ensures old(disk.files) <= disk.files && old(disk.dirs) <= disk.dirs
  {
    if transient.AtLookup? {
      row := Some(job.(errorMessage := Some(RetryNote(retries, transient.msg))));
      res := RetryOutcome(retries, transient.msg);
    } else if job.status == COMPLETED {
      row, res := None, AlreadyCompleted(job.id, job.proofPath);
    } else if transient.AfterStart? {
      row := Some(Started(job, taskId, start).(errorMessage := Some(RetryNote(retries, transient.msg))));
      res := RetryOutcome(retries, transient.msg);
    } else {
      var r;
      r, res := ProcessJob(models, disk, proofsDir, job, taskId, retries, start, end,
                           setupError, copyFault, witnessError, proveError);
      row := Some(r);
    }
  }

  /** Replacing a row by one with the same id and creation time keeps the table valid. */
  lemma UpdateKeepsJobsValid(rows: seq<ProofJob>, nextId: int, i: int, row: ProofJob)
    requires JobRowsValid(rows, nextId) && 0 <= i < |rows|
    requires row.id == rows[i].id && row.createdAt == rows[i].createdAt
    ensures JobRowsValid(rows[i := row], nextId)
  {
  }

  /**
   * The part of the proof task after the job was marked as processing: the
   * prechecks, the job's directory, and the proof.  Returns the job's final
   * row; a failure anywhere fails the job.
   */
  method ProcessJob(models: seq<ModelRecord>, disk: Disk, proofsDir: string, job: ProofJob, taskId: string,
                    retries: nat, start: int, end: int, setupError: Option<ZkmlProof.SetupFault>, copyFault: Option<nat>,
                    witnessError: Option<string>, proveError: Option<string>)
    returns (row: ProofJob, res: TaskResult)
    modifies disk
    ensures res.Failed? || res.Completed?
    ensures row.id == job.id && row.createdAt == job.createdAt
    ensures Precheck(job, models, old(disk.files), old(disk.dirs), proofsDir).Some? ==>
      var e := Precheck(job, models, old(disk.files), old(disk.dirs), proofsDir).value;
      res == Failed(job.id, e) && row == FailedJob(Started(job, taskId, start), e, end) && disk.files == old(disk.files)
    ensures res.Failed? ==> res.jobId == job.id && row == FailedJob(Started(job, taskId, start), res.error, end)
    ensures res.Completed? <==>
      Precheck(job, models, old(disk.files), old(disk.dirs), proofsDir).None? &&
      GenerationSucceeds(old(disk.files), proofsDir, HashOrUnknown(models[ModelIndexById(models, job.modelId)]),
                         setupError, witnessError, proveError)
    ensures res.Completed? ==>
      var dir := JobDir(proofsDir, job.id);
      res == Completed(job.id, PathJoin(dir, "proof.json"), retries + 1) &&
      row == CompletedJob(Started(job, taskId, start), PathJoin(dir, "proof.json"),
                          PathJoin(dir, "witness.json"), PathJoin(dir, "settings.json"), end) &&
      PathJoin(dir, "proof.json") in disk.files && PathJoin(dir, "witness.json") in disk.files &&
      PathJoin(dir, "settings.json") in disk.files
    ensures old(disk.files) <= disk.files && old(disk.dirs) <= disk.dirs
  {
    var started := Started(job, taskId, start);
    var check := Precheck(job, models, disk.files, disk.dirs, proofsDir);
    var m := ModelIndexById(models, job.modelId);
    var dir := JobDir(proofsDir, job.id);
    if m >= 0 && Exists(disk.files, disk.dirs, models[m].storagePath) {
      disk.MakeDir(dir);
    }
    if check.Some? {
      return FailedJob(started, check.value, end), Failed(job.id, check.value);
    }
    var gen, _ := ZkmlProof.GenerateProof(disk, proofsDir, job.id, HashOrUnknown(models[m]),
                                          setupError, copyFault, witnessError, proveError);
    if gen.Failure? {
      return FailedJob(started, gen.error, end), Failed(job.id, gen.error);
    }
    ZkmlProof.CompleteIffArtifacts(disk.files, dir);
    assert PathJoin(dir, ARTIFACTS[1]) in disk.files;
    row := CompletedJob(started, gen.value.0, gen.value.1, PathJoin(dir, "settings.json"), end);
    res := Completed(job.id, gen.value.0, retries + 1);
  }

  /**
   * A run without faults on an existing job leaves it completed or failed,
   * never pending or processing; a completed one gets every path that
   * `verify_proof` reads.
   */
  lemma RunEndsSettled(before: ProofJob, after: ProofJob, res: TaskResult, taskId: string, start: int, end: int)
    requires before.status != COMPLETED
    requires res.Failed? ==> after == FailedJob(Started(before, taskId, start), res.error, end)
    requires res.Completed? ==> exists p, w, s :: after == CompletedJob(Started(before, taskId, start), p, w, s, end)
    requires res.Failed? || res.Completed?
    ensures after.status == COMPLETED || after.status == FAILED
    ensures after.status == COMPLETED ==> after.proofPath.Some? && after.settingsPath.Some?
    ensures after.completedAt == Some(end) && after.startedAt == Some(start) && after.taskId == Some(taskId)
    ensures after.status == FAILED ==> after.errorMessage == Some(res.error)
    ensures after.status == COMPLETED ==> after.errorMessage == before.errorMessage
    ensures after.id == before.id && after.userId == before.userId && after.modelId == before.modelId
    ensures after.inputDataHash == before.inputDataHash && after.inputDataPath == before.inputDataPath &&
            after.createdAt == before.createdAt
  {
    if res.Completed? {
      var p, w, s :| after == CompletedJob(Started(before, taskId, start), p, w, s, end);
    }
  }

  // ---------------------------------------------------------------------------
  // cleanup_old_proofs_task

  /** `completed_at < cutoff` on a completed job; a job without `completed_at` never matches. */
  predicate Selected(job: ProofJob, cutoff: int)
  {
    job.status == COMPLETED && job.completedAt.Some? && job.completedAt.value < cutoff
  }

  /** A selected job whose directory is there gets cleaned. */
  predicate Cleans(job: ProofJob, dirs: set<string>, proofsDir: string, cutoff: int)
  {
    Selected(job, cutoff) && JobDir(proofsDir, job.id) in dirs
  }

  /** The job with its three artifact paths cleared. */
  function Cleared(job: ProofJob): (j: ProofJob)
    ensures j == job.(proofPath := None, witnessPath := None, settingsPath := None)
  {
    job.(proofPath := None, witnessPath := None, settingsPath := None)
  }

  /** Each row as the cleanup leaves it. */
  function AfterCleanup(rows: seq<ProofJob>, dirs: set<string>, proofsDir: string, cutoff: int): (r: seq<ProofJob>)
    ensures |r| == |rows|
    ensures forall k :: 0 <= k < |rows| ==>
      r[k] == if Cleans(rows[k], dirs, proofsDir, cutoff) then Cleared(rows[k]) else rows[k]
  {
    seq(|rows|, k requires 0 <= k < |rows| => if Cleans(rows[k], dirs, proofsDir, cutoff) then Cleared(rows[k]) else rows[k])
  }

  /** How many of the rows get cleaned. */
  function CountCleaned(rows: seq<ProofJob>, dirs: set<string>, proofsDir: string, cutoff: int): (n: nat)
    ensures n <= |rows|
  {
    if rows == [] then 0
    else CountCleaned(rows[..|rows| - 1], dirs, proofsDir, cutoff) +
         (if Cleans(rows[|rows| - 1], dirs, proofsDir, cutoff) then 1 else 0)
  }

  /**
   * `p` is removed along with the directory of one of the cleaned rows: it
   * lies inside that directory or, when `itself` holds, is that directory.
   */
  predicate Swept(p: string, itself: bool, rows: seq<ProofJob>, dirs: set<string>, proofsDir: string, cutoff: int)
    decreases |rows|
  {
    rows != [] &&
    (Swept(p, itself, rows[..|rows| - 1], dirs, proofsDir, cutoff) ||
     (Cleans(rows[|rows| - 1], dirs, proofsDir, cutoff) &&
      ((itself && p == JobDir(proofsDir, rows[|rows| - 1].id)) || Below(p, JobDir(proofsDir, rows[|rows| - 1].id)))))
  }

  /**
   * `cleanup_old_proofs_task`: every completed job that finished before
   * `days_old` days ago and whose directory exists loses that directory and
   * its artifact paths; the count of such jobs is returned.  Nothing else
   * changes.
   */
  method CleanupOldProofs(jobs: JobTable, disk: Disk, proofsDir: string, now: int, daysOld: int)
    returns (cleanedCount: nat)
    requires jobs.Valid()
    modifies jobs, disk
    ensures jobs.Valid() && jobs.nextId == old(jobs.nextId)
    ensures jobs.rows == AfterCleanup(old(jobs.rows), old(disk.dirs), proofsDir, now - daysOld * MINUTES_PER_DAY)
    ensures cleanedCount == CountCleaned(old(jobs.rows), old(disk.dirs), proofsDir, now - daysOld * MINUTES_PER_DAY)
    ensures forall p :: p in disk.files <==>
      p in old(disk.files) && !Swept(p, false, old(jobs.rows), old(disk.dirs), proofsDir, now - daysOld * MINUTES_PER_DAY)
    ensures forall q :: q in disk.dirs <==>
      q in old(disk.dirs) && !Swept(q, true, old(jobs.rows), old(disk.dirs), proofsDir, now - daysOld * MINUTES_PER_DAY)
  {
    var cutoff := now - daysOld * MINUTES_PER_DAY;
    ghost var rows0 := jobs.rows;
    cleanedCount := CleanJobs(jobs, disk, proofsDir, cutoff);
    assert jobs.rows == AfterCleanup(rows0, old(disk.dirs), proofsDir, cutoff);
    CleanupKeepsJobsValid(rows0, jobs.nextId, old(disk.dirs), proofsDir, cutoff);
  }

  /** The loop of `cleanup_old_proofs_task`, over the jobs in table order, at a given cut-off. */
  method CleanJobs(jobs: JobTable, disk: Disk, proofsDir: string, cutoff: int) returns (cleanedCount: nat)
    requires JobRowsValid(jobs.rows, jobs.nextId)
    modifies jobs, disk
    ensures jobs.nextId == old(jobs.nextId) && |jobs.rows| == |old(jobs.rows)|
    ensures forall m :: 0 <= m < |jobs.rows| ==>
      jobs.rows[m] == if Cleans(old(jobs.rows)[m], old(disk.dirs), proofsDir, cutoff)
                      then Cleared(old(jobs.rows)[m]) else old(jobs.rows)[m]
    ensures cleanedCount == CountCleaned(old(jobs.rows), old(disk.dirs), proofsDir, cutoff)
    ensures forall p :: p in disk.files <==>
      p in old(disk.files) && !Swept(p, false, old(jobs.rows), old(disk.dirs), proofsDir, cutoff)
    ensures forall q :: q in disk.dirs <==>
      q in old(disk.dirs) && !Swept(q, true, old(jobs.rows), old(disk.dirs), proofsDir, cutoff)
  {
    ghost var rows0, files0, dirs0 := jobs.rows, disk.files, disk.dirs;
    cleanedCount := 0;
    var k := 0;
    while k < |jobs.rows|
      invariant 0 <= k <= |jobs.rows| == |rows0| && jobs.nextId == old(jobs.nextId)
      invariant forall m :: 0 <= m < k ==>
        jobs.rows[m] == if Cleans(rows0[m], dirs0, proofsDir, cutoff) then Cleared(rows0[m]) else rows0[m]
      invariant forall m :: k <= m < |rows0| ==> jobs.rows[m] == rows0[m]
      invariant cleanedCount == CountCleaned(rows0[..k], dirs0, proofsDir, cutoff)
      invariant forall p :: p in disk.files <==> p in files0 && !Swept(p, false, rows0[..k], dirs0, proofsDir, cutoff)
      invariant forall q :: q in disk.dirs <==> q in dirs0 && !Swept(q, true, rows0[..k], dirs0, proofsDir, cutoff)
    {
      ghost var files, dirs := disk.files, disk.dirs;
      var cleaned := CleanJob(jobs, disk, k, proofsDir, cutoff);
      DiskStep(rows0, old(jobs.nextId), k, files0, dirs0, files, dirs, disk.files, disk.dirs, cleaned, proofsDir, cutoff);
      if cleaned {
        cleanedCount := cleanedCount + 1;
      }
      k := k + 1;
    }
    assert rows0[..k] == rows0;
  }

  /** Clearing paths changes no id and no creation time. */
  lemma CleanupKeepsJobsValid(rows: seq<ProofJob>, nextId: int, dirs: set<string>, proofsDir: string, cutoff: int)
    requires JobRowsValid(rows, nextId)
    ensures JobRowsValid(AfterCleanup(rows, dirs, proofsDir, cutoff), nextId)
  {
    var after := AfterCleanup(rows, dirs, proofsDir, cutoff);
    assert forall m :: 0 <= m < |rows| ==> after[m].id == rows[m].id && after[m].createdAt == rows[m].createdAt;
  }

  /** One pass of the cleanup loop: row `k`'s directory goes if the row is selected and the directory is there. */
  method CleanJob(jobs: JobTable, disk: Disk, k: int, proofsDir: string, cutoff: int) returns (cleaned: bool)
    requires 0 <= k < |jobs.rows|
    modifies jobs, disk
    ensures cleaned <==> Cleans(old(jobs.rows)[k], old(disk.dirs), proofsDir, cutoff)
    ensures jobs.nextId == old(jobs.nextId)
    ensures jobs.rows == if cleaned then old(jobs.rows)[k := Cleared(old(jobs.rows)[k])] else old(jobs.rows)
    ensures var dir := JobDir(proofsDir, old(jobs.rows)[k].id);
      (forall p :: p in disk.files <==> p in old(disk.files) && !(cleaned && Below(p, dir))) &&
      (forall q :: q in disk.dirs <==> q in old(disk.dirs) && !(cleaned && (q == dir || Below(q, dir))))
  {
    var job := jobs.rows[k];
    var dir := JobDir(proofsDir, job.id);
    cleaned := Selected(job, cutoff) && dir in disk.dirs;
    if cleaned {
      disk.RemoveTree(dir);
      jobs.rows := jobs.rows[k := Cleared(job)];
    }
  }

  /**
   * One pass keeps the loop's picture of the disk: what the pass removes is
   * what row `k` sweeps, judged against the disk as it was before the loop.
   */
  lemma DiskStep(rows0: seq<ProofJob>, nextId: int, k: int, files0: set<string>, dirs0: set<string>,
                 files: set<string>, dirs: set<string>, files': set<string>, dirs': set<string>,
                 cleaned: bool, proofsDir: string, cutoff: int)
    requires JobRowsValid(rows0, nextId) && 0 <= k < |rows0|
    requires forall p :: p in files <==> p in files0 && !Swept(p, false, rows0[..k], dirs0, proofsDir, cutoff)
    requires forall q :: q in dirs <==> q in dirs0 && !Swept(q, true, rows0[..k], dirs0, proofsDir, cutoff)
    requires cleaned <==> Cleans(rows0[k], dirs, proofsDir, cutoff)
    requires forall p :: p in files' <==> p in files && !(cleaned && Below(p, JobDir(proofsDir, rows0[k].id)))
    requires forall q :: q in dirs' <==>
      q in dirs && !(cleaned && (q == JobDir(proofsDir, rows0[k].id) || Below(q, JobDir(proofsDir, rows0[k].id))))
    ensures cleaned <==> Cleans(rows0[k], dirs0, proofsDir, cutoff)
    ensures CountCleaned(rows0[..k + 1], dirs0, proofsDir, cutoff) ==
      CountCleaned(rows0[..k], dirs0, proofsDir, cutoff) + if cleaned then 1 else 0
    ensures forall p :: p in files' <==> p in files0 && !Swept(p, false, rows0[..k + 1], dirs0, proofsDir, cutoff)
    ensures forall q :: q in dirs' <==> q in dirs0 && !Swept(q, true, rows0[..k + 1], dirs0, proofsDir, cutoff)
  {
    SweepStep(rows0, k, dirs0, proofsDir, cutoff);
    NotSweptByOthers(rows0, nextId, k, k, dirs0, proofsDir, cutoff);
  }

  /** One more row: its count and what its directory takes along. */
  lemma SweepStep(rows: seq<ProofJob>, k: int, dirs: set<string>, proofsDir: string, cutoff: int)
    requires 0 <= k < |rows|
    ensures CountCleaned(rows[..k + 1], dirs, proofsDir, cutoff) ==
      CountCleaned(rows[..k], dirs, proofsDir, cutoff) + if Cleans(rows[k], dirs, proofsDir, cutoff) then 1 else 0
    ensures forall p, itself :: Swept(p, itself, rows[..k + 1], dirs, proofsDir, cutoff) <==>
      (Swept(p, itself, rows[..k], dirs, proofsDir, cutoff) ||
       (Cleans(rows[k], dirs, proofsDir, cutoff) &&
        ((itself && p == JobDir(proofsDir, rows[k].id)) || Below(p, JobDir(proofsDir, rows[k].id)))))
  {
    assert rows[..k + 1][..k] == rows[..k];
  }

  /**
   * The directory of row `k` is not removed with that of any other row
   * among the first `n`: job ids are unique and their directories are apart.
   */
  lemma {:induction false} NotSweptByOthers(rows: seq<ProofJob>, nextId: int, k: int, n: nat,
                                            dirs: set<string>, proofsDir: string, cutoff: int)
    requires JobRowsValid(rows, nextId) && 0 <= k < |rows| && n <= k
    ensures !Swept(JobDir(proofsDir, rows[k].id), true, rows[..n], dirs, proofsDir, cutoff)
  {
    if n > 0 {
      assert rows[..n][..n - 1] == rows[..n - 1];
      NotSweptByOthers(rows, nextId, k, n - 1, dirs, proofsDir, cutoff);
      JobDirsApart(proofsDir, rows[k].id, rows[n - 1].id);
    }
  }

  /** The directories left after a cleanup at the same cut-off. */
  function DirsAfterCleanup(rows: seq<ProofJob>, dirs: set<string>, proofsDir: string, cutoff: int): (r: set<string>)
    ensures r <= dirs
    ensures forall k :: 0 <= k < |rows| && Cleans(rows[k], dirs, proofsDir, cutoff) ==> JobDir(proofsDir, rows[k].id) !in r
  {
    forall k | 0 <= k < |rows| && Cleans(rows[k], dirs, proofsDir, cutoff)
      ensures Swept(JobDir(proofsDir, rows[k].id), true, rows, dirs, proofsDir, cutoff)
    {
      SweptByOwnRow(rows, k, |rows|, dirs, proofsDir, cutoff);
      assert rows[..|rows|] == rows;
    }
    set q | q in dirs && !Swept(q, true, rows, dirs, proofsDir, cutoff)
  }

  /** A cleaned row's own directory is swept by every prefix that holds the row. */
  lemma {:induction false} SweptByOwnRow(rows: seq<ProofJob>, k: int, n: int, dirs: set<string>, proofsDir: string,
                                         cutoff: int)
    requires 0 <= k < n <= |rows| && Cleans(rows[k], dirs, proofsDir, cutoff)
    ensures Swept(JobDir(proofsDir, rows[k].id), true, rows[..n], dirs, proofsDir, cutoff)
  {
    assert rows[..n][..n - 1] == rows[..n - 1];
    if k < n - 1 {
      SweptByOwnRow(rows, k, n - 1, dirs, proofsDir, cutoff);
    }
  }

  /**
   * Cleaning up twice at the same cut-off is cleaning up once: the second
   * run finds no directory to remove and changes no row.
   */
  lemma CleanupIdempotent(rows: seq<ProofJob>, dirs: set<string>, proofsDir: string, cutoff: int)
    ensures var rows', dirs' := AfterCleanup(rows, dirs, proofsDir, cutoff), DirsAfterCleanup(rows, dirs, proofsDir, cutoff);
      CountCleaned(rows', dirs', proofsDir, cutoff) == 0 && AfterCleanup(rows', dirs', proofsDir, cutoff) == rows'
  {
    var rows', dirs' := AfterCleanup(rows, dirs, proofsDir, cutoff), DirsAfterCleanup(rows, dirs, proofsDir, cutoff);
    forall k | 0 <= k < |rows'|
      ensures !Cleans(rows'[k], dirs', proofsDir, cutoff)
    {
      if Cleans(rows[k], dirs, proofsDir, cutoff) {
        assert JobDir(proofsDir, rows[k].id) !in dirs';
      }
    }
    NothingCleaned(rows', dirs', proofsDir, cutoff);
  }

  lemma {:induction false} NothingCleaned(rows: seq<ProofJob>, dirs: set<string>, proofsDir: string, cutoff: int)
    requires forall k :: 0 <= k < |rows| ==> !Cleans(rows[k], dirs, proofsDir, cutoff)
    ensures CountCleaned(rows, dirs, proofsDir, cutoff) == 0
    decreases |rows|
  {
    if rows != [] {
      NothingCleaned(rows[..|rows| - 1], dirs, proofsDir, cutoff);
    }
  }
}
