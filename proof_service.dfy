/**
 * `ProofService`: creating a proof job for a model the caller may use,
 * reading a job's status (owner only), verifying a finished job's proof, and
 * listing the caller's jobs.  Queuing the background task hands back a task
 * id, which is a parameter here; so are the input hash's ingredients and the
 * verdict of the proof verifier.
 */
module ProofService {
  import opened Common
  import opened Store
  import opened JsonValue
  import ZkmlProof
  import Crypto
  import Deps
  import ModelRegistry

  const ONNX_ONLY := HttpError(BAD_REQUEST, "Only ONNX models are supported for proof generation")
  const JOB_NOT_FOUND := HttpError(NOT_FOUND, "Proof job not found")
  const JOB_FORBIDDEN := HttpError(FORBIDDEN, "Access denied to this proof job")

  // ---------------------------------------------------------------------------
  // create_proof_job

  /**
   * The checks `create_proof_job` makes before it writes anything: the model
   * exists (404), is public or the caller's own (403), and is an ONNX model (400).
   */
  function ProofJobGate(models: seq<ModelRecord>, modelId: int, user: User): (r: Result<ModelRecord, HttpError>)
    ensures ModelIndexById(models, modelId) == -1 ==> r == Failure(ModelRegistry.MODEL_NOT_FOUND)
    ensures var i := ModelIndexById(models, modelId);
      i >= 0 && !models[i].isPublic && models[i].ownerId != user.id ==> r == Failure(ModelRegistry.PRIVATE_MODEL)
    ensures var i := ModelIndexById(models, modelId);
      i >= 0 && (models[i].isPublic || models[i].ownerId == user.id) && models[i].modelType != "onnx" ==>
        r == Failure(ONNX_ONLY)
    ensures r.Success? <==> (var i := ModelIndexById(models, modelId);
      i >= 0 && (models[i].isPublic || models[i].ownerId == user.id) && models[i].modelType == "onnx")
    ensures r.Success? ==> r.value in models && r.value.id == modelId
  {
    var i := ModelIndexById(models, modelId);
    if i == -1 then Failure(ModelRegistry.MODEL_NOT_FOUND)
    else if !models[i].isPublic && models[i].ownerId != user.id then Failure(ModelRegistry.PRIVATE_MODEL)
    else if models[i].modelType != "onnx" then Failure(ONNX_ONLY)
    else Success(models[i])
  }

  /** A model a caller may prove with is one `get_model_by_id` shows that caller. */
  lemma GateAgreesWithModelAccess(models: seq<ModelRecord>, modelId: int, user: User)
    ensures ProofJobGate(models, modelId, user).Success? ==>
      ModelRegistry.GetModelById(models, modelId, Some(user)) == Success(Some(ProofJobGate(models, modelId, user).value))
    ensures ModelRegistry.GetModelById(models, modelId, Some(user)) == Failure(ModelRegistry.PRIVATE_MODEL) <==>
      ProofJobGate(models, modelId, user) == Failure(ModelRegistry.PRIVATE_MODEL)
  {
  }

  /** The row a new job gets: pending, owned by the caller, nothing produced yet. */
  function NewJob(id: int, userId: int, modelId: int, inputHash: string, inputPath: string,
                  taskId: Option<string>, now: int): (j: ProofJob)
    ensures j.id == id && j.userId == userId && j.modelId == modelId && j.status == PENDING
    ensures j.inputDataHash == inputHash && j.inputDataPath == Some(inputPath) && j.taskId == taskId
    ensures j.proofPath.None? && j.witnessPath.None? && j.settingsPath.None? && j.errorMessage.None?
    ensures j.startedAt.None? && j.completedAt.None? && j.createdAt == now
  {
    ProofJob(id, userId, modelId, inputHash, PENDING, Some(inputPath), None, None, None, taskId, None, None, None, now)
  }

  /**
   * `create_proof_job`.  After the gate, the input is hashed and written to
   * a fresh directory named `tempName` (the first eight characters of a
   * UUID), the job row is added, and that directory is moved to the job's
   * own directory, replacing whatever directory was there; the row then gets
   * the moved input's path and the id of the queued task.  When the job's
   * directory is a plain file, or has the very name of the fresh directory,
   * the move fails: the request ends with 500 and the row stays as first
   * added, with the temporary path and no task.  `queued` is the id the
   * task queue hands back, `None` when queuing raises: the row then keeps
   * the moved input's path and no task, and the request ends with 500.
   */
  method CreateProofJob(models: seq<ModelRecord>, jobs: JobTable, disk: Disk, user: User, modelId: int,
                        input: seq<(string, Json)>, h: Crypto.TextHash, dumps: Json -> string,
                        proofsDir: string, tempName: string, queued: Option<string>, now: int)
    returns (r: Result<ProofJob, HttpError>)
    requires jobs.Valid() && forall k :: 0 <= k < |jobs.rows| ==> jobs.rows[k].createdAt <= now
    requires '/' !in tempName
    modifies jobs, disk
    ensures jobs.Valid()
    ensures ProofJobGate(models, modelId, user).Failure? ==>
      r == Failure(ProofJobGate(models, modelId, user).error) &&
      jobs.rows == old(jobs.rows) && jobs.nextId == old(jobs.nextId) &&
      disk.files == old(disk.files) && disk.dirs == old(disk.dirs)
    ensures ProofJobGate(models, modelId, user).Success? ==>
      jobs.nextId == old(jobs.nextId) + 1 && |jobs.rows| == |old(jobs.rows)| + 1 &&
      jobs.rows[..|old(jobs.rows)|] == old(jobs.rows)
    ensures ProofJobGate(models, modelId, user).Success? ==>
      var finalDir := JobDir(proofsDir, old(jobs.nextId));
      var tempDir := PathJoin(proofsDir, tempName);
      var hash := ZkmlProof.ComputeInputHash(h, dumps, JObj(input));
      if finalDir in old(disk.files) || finalDir == tempDir then
        r == Failure(Deps.INTERNAL_SERVER_ERROR) &&
        jobs.rows[|old(jobs.rows)|] ==
          NewJob(old(jobs.nextId), user.id, modelId, hash, PathJoin(tempDir, "input.json"), None, now)
      else
        jobs.rows[|old(jobs.rows)|] ==
          NewJob(old(jobs.nextId), user.id, modelId, hash, PathJoin(finalDir, "input.json"), queued, now) &&
        (queued.Some? ==> r == Success(jobs.rows[|old(jobs.rows)|])) &&
        (queued.None? ==> r == Failure(Deps.INTERNAL_SERVER_ERROR))
    ensures ProofJobGate(models, modelId, user).Success? ==>
      StagedInput(old(disk.files), old(disk.dirs), disk.files, disk.dirs,
                  PathJoin(proofsDir, tempName), JobDir(proofsDir, old(jobs.nextId)))
  {
    var gate := ProofJobGate(models, modelId, user);
    if gate.Failure? {
      return Failure(gate.error);
    }
    var model := gate.value;
    var hash := ZkmlProof.ComputeInputHash(h, dumps, JObj(input));
    var id := jobs.nextId;
    var moved := StageInput(disk, input, proofsDir, tempName, id);
    var job := if moved then NewJob(id, user.id, model.id, hash, PathJoin(JobDir(proofsDir, id), "input.json"), queued, now)
               else NewJob(id, user.id, model.id, hash, PathJoin(PathJoin(proofsDir, tempName), "input.json"), None, now);
    AppendKeepsJobsValid(jobs.rows, id, job);
    jobs.rows := jobs.rows + [job];
    jobs.nextId := id + 1;
    r := if moved && queued.Some? then Success(job) else Failure(Deps.INTERNAL_SERVER_ERROR);
  }

  /**
   * The disk `create_proof_job` leaves behind, from `files0`/`dirs0`: the
   * fresh directory `tempDir` is made and `input.json` written into it; when
   * the job's directory `finalDir` is a plain file nothing more happens; when
   * it is a directory, its tree is removed; then, unless the job's directory
   * was the fresh directory itself (which is then gone with its input), the
   * fresh directory's tree is carried over to the job's directory.
   */
  predicate StagedInput(files0: set<string>, dirs0: set<string>, files: set<string>, dirs: set<string>,
                        tempDir: string, finalDir: string)
  {
    var cleared := finalDir in dirs0;
    if finalDir in files0 then
      files == files0 + {PathJoin(tempDir, "input.json")} && dirs == dirs0 + {tempDir}
    else if finalDir == tempDir then
      files == (set p | p in files0 && !Below(p, tempDir)) &&
      dirs == (set q | q in dirs0 && q != tempDir && !Below(q, tempDir))
    else
      files == (set p | p in files0 && !Below(p, tempDir) && !(cleared && Below(p, finalDir))) +
               (set p | p in files0 && Below(p, tempDir) :: Moved(p, tempDir, finalDir)) +
               {PathJoin(finalDir, "input.json")} &&
      dirs == (set q | q in dirs0 && q != tempDir && !Below(q, tempDir) &&
                       !(cleared && (q == finalDir || Below(q, finalDir)))) + {finalDir} +
              (set q | q in dirs0 && Below(q, tempDir) :: Moved(q, tempDir, finalDir))
  }

  /**
   * The file-system part of `create_proof_job`: the input is written to a
   * fresh directory, which is then renamed to the job's directory.
   */
  method StageInput(disk: Disk, input: seq<(string, Json)>, proofsDir: string, tempName: string, id: int)
    returns (moved: bool)
    requires '/' !in tempName
    modifies disk
    ensures moved <==> JobDir(proofsDir, id) !in old(disk.files) && JobDir(proofsDir, id) != PathJoin(proofsDir, tempName)
    ensures StagedInput(old(disk.files), old(disk.dirs), disk.files, disk.dirs,
                        PathJoin(proofsDir, tempName), JobDir(proofsDir, id))
  {
    ghost var files0, dirs0 := disk.files, disk.dirs;
    var tempDir := ZkmlProof.PrepareProofDirectory(disk, proofsDir, tempName);
    var tempInput, _ := ZkmlProof.SaveInputData(disk, input, tempDir);
    JobDirIsNotTempInput(proofsDir, tempName, id);
    moved := MoveToJobDir(disk, proofsDir, tempName, id);
    var finalDir := JobDir(proofsDir, id);
    assert Below(tempInput, tempDir) by {
      assert tempInput[..|tempDir| + 1] == tempDir + "/";
    }
    if finalDir !in files0 && finalDir != tempDir {
      TempTreeOutsideJobDir(proofsDir, tempName, id, tempInput);
      StagedMove(files0, dirs0, disk.files, disk.dirs, tempDir, finalDir);
    }
  }

  /**
   * The disk `MoveToJobDir` leaves behind, from `files0`/`dirs0`: untouched
   * when the job's path is a plain file; otherwise a directory there is
   * removed with its tree, and then, unless it was the fresh directory
   * itself, the fresh directory's tree is carried over to the job's path.
   */
  predicate MovedToJobDir(files0: set<string>, dirs0: set<string>, files: set<string>, dirs: set<string>,
                          tempDir: string, finalDir: string)
  {
    var cleared := finalDir in dirs0;
    if finalDir in files0 then
      files == files0 && dirs == dirs0
    else if finalDir == tempDir then
      files == (set p | p in files0 && !(cleared && Below(p, finalDir))) &&
      dirs == (set q | q in dirs0 && !(cleared && (q == finalDir || Below(q, finalDir))))
    else
      files == (set p | p in files0 && !Below(p, tempDir) && !(cleared && Below(p, finalDir))) +
               (set p | p in files0 && Below(p, tempDir) :: Moved(p, tempDir, finalDir)) &&
      dirs == (set q | q in dirs0 && q != tempDir && !Below(q, tempDir) &&
                       !(cleared && (q == finalDir || Below(q, finalDir)))) + {finalDir} +
              (set q | q in dirs0 && Below(q, tempDir) :: Moved(q, tempDir, finalDir))
  }

  /**
   * Moving after the fresh directory and its input were made: the fresh
   * directory and its input drop out of the old state and the input shows
   * up in the job's directory.
   */
  lemma StagedMove(files0: set<string>, dirs0: set<string>, files: set<string>, dirs: set<string>,
                   tempDir: string, finalDir: string)
    requires finalDir !in files0 && finalDir != tempDir
    requires var tempInput := PathJoin(tempDir, "input.json");
      finalDir != tempInput && Below(tempInput, tempDir) && !Below(tempInput, finalDir)
    requires MovedToJobDir(files0 + {PathJoin(tempDir, "input.json")}, dirs0 + {tempDir}, files, dirs, tempDir, finalDir)
    ensures StagedInput(files0, dirs0, files, dirs, tempDir, finalDir)
  {
    var tempInput := PathJoin(tempDir, "input.json");
    var cleared := finalDir in dirs0;
    assert Moved(tempInput, tempDir, finalDir) == PathJoin(finalDir, "input.json");
    var F := files0 + {tempInput};
    assert (set p | p in F && !Below(p, tempDir) && !(cleared && Below(p, finalDir))) ==
           (set p | p in files0 && !Below(p, tempDir) && !(cleared && Below(p, finalDir)));
    assert (set p | p in F && Below(p, tempDir) :: Moved(p, tempDir, finalDir)) ==
           (set p | p in files0 && Below(p, tempDir) :: Moved(p, tempDir, finalDir)) + {PathJoin(finalDir, "input.json")};
    var D := dirs0 + {tempDir};
    assert (set q | q in D && q != tempDir && !Below(q, tempDir) && !(cleared && (q == finalDir || Below(q, finalDir)))) ==
           (set q | q in dirs0 && q != tempDir && !Below(q, tempDir) && !(cleared && (q == finalDir || Below(q, finalDir))));
    assert (set q | q in D && Below(q, tempDir) :: Moved(q, tempDir, finalDir)) ==
           (set q | q in dirs0 && Below(q, tempDir) :: Moved(q, tempDir, finalDir));
  }

  /**
   * Staging into a fresh directory, with nothing yet at the job's path, adds
   * exactly the job's directory and its `input.json`.
   */
  lemma FreshStagingAddsOnlyInput(files0: set<string>, dirs0: set<string>, files: set<string>, dirs: set<string>,
                                  tempDir: string, finalDir: string)
    requires StagedInput(files0, dirs0, files, dirs, tempDir, finalDir)
    requires finalDir !in files0 && finalDir !in dirs0 && finalDir != tempDir
    requires forall p :: p in files0 ==> !Below(p, tempDir)
    requires forall q :: q in dirs0 ==> q != tempDir && !Below(q, tempDir)
    ensures files == files0 + {PathJoin(finalDir, "input.json")}
    ensures dirs == dirs0 + {finalDir}
  {
    assert (set p | p in files0 && Below(p, tempDir) :: Moved(p, tempDir, finalDir)) == {};
    assert (set q | q in dirs0 && Below(q, tempDir) :: Moved(q, tempDir, finalDir)) == {};
  }

  /**
   * However the staging goes, a file outside the fresh directory and the
   * job's directory is kept, and a failed move (the job's path is a plain
   * file) leaves the input in the fresh directory.
   */
  lemma StagingKeepsOtherFiles(files0: set<string>, dirs0: set<string>, files: set<string>, dirs: set<string>,
                               tempDir: string, finalDir: string)
    requires StagedInput(files0, dirs0, files, dirs, tempDir, finalDir)
    ensures forall p :: p in files0 && !Below(p, tempDir) && !Below(p, finalDir) ==> p in files
    ensures finalDir in files0 ==> PathJoin(tempDir, "input.json") in files
  {
  }

  /** A row with the next id, created no earlier than the others, keeps the table valid. */
  lemma AppendKeepsJobsValid(rows: seq<ProofJob>, nextId: int, job: ProofJob)
    requires JobRowsValid(rows, nextId) && job.id == nextId
    requires forall k :: 0 <= k < |rows| ==> rows[k].createdAt <= job.createdAt
    ensures JobRowsValid(rows + [job], nextId + 1)
  {
  }

  /**
   * The rename step of `create_proof_job`: an existing directory at the job's
   * path is removed and the fresh directory moved there.  When the job's path
   * is a plain file, removing it fails; when it is the fresh directory itself,
   * that directory is removed and the move then finds nothing to move.
   */
  method MoveToJobDir(disk: Disk, proofsDir: string, tempName: string, id: int) returns (moved: bool)
    requires '/' !in tempName
    requires PathJoin(PathJoin(proofsDir, tempName), "input.json") in disk.files
    modifies disk
    ensures moved <==> JobDir(proofsDir, id) !in old(disk.files) && JobDir(proofsDir, id) != PathJoin(proofsDir, tempName)
    ensures MovedToJobDir(old(disk.files), old(disk.dirs), disk.files, disk.dirs,
                          PathJoin(proofsDir, tempName), JobDir(proofsDir, id))
  {
    var tempDir := PathJoin(proofsDir, tempName);
    var finalDir := JobDir(proofsDir, id);
    ghost var files0, dirs0 := disk.files, disk.dirs;
    if finalDir in disk.files {
      return false;
    }
    if finalDir in disk.dirs {
      disk.RemoveTree(finalDir);
    }
    ghost var files1, dirs1 := disk.files, disk.dirs;
    if finalDir == tempDir {
      return false;
    }
    disk.MoveDir(tempDir, finalDir);
    moved := true;
    forall p | p in files0 && Below(p, tempDir)
      ensures !Below(p, finalDir)
    {
      TempTreeOutsideJobDir(proofsDir, tempName, id, p);
    }
    forall q | q in dirs0 && Below(q, tempDir)
      ensures q != finalDir && !Below(q, finalDir)
    {
      TempTreeOutsideJobDir(proofsDir, tempName, id, q);
    }
    assert (set p | p in files1 && Below(p, tempDir) :: Moved(p, tempDir, finalDir)) ==
           (set p | p in files0 && Below(p, tempDir) :: Moved(p, tempDir, finalDir));
    assert (set q | q in dirs1 && Below(q, tempDir) :: Moved(q, tempDir, finalDir)) ==
           (set q | q in dirs0 && Below(q, tempDir) :: Moved(q, tempDir, finalDir));
  }

  /** The job's directory is not the input file just written to the fresh directory. */
  lemma JobDirIsNotTempInput(proofsDir: string, tempName: string, id: int)
    requires '/' !in tempName
    ensures JobDir(proofsDir, id) != PathJoin(PathJoin(proofsDir, tempName), "input.json")
  {
    NoSeparatorInNumber(id);
    var p := PathJoin(PathJoin(proofsDir, tempName), "input.json");
    var k := |proofsDir| + 1 + |tempName|;
    assert p[k] == '/';
    if |JobDir(proofsDir, id)| == |p| {
      assert JobDir(proofsDir, id)[k] == IntToString(id)[|tempName|];
    }
  }

  /**
   * Everything below the fresh directory lies outside the job's directory,
   * so clearing that directory leaves the staged input to be moved.
   */
  lemma TempTreeOutsideJobDir(proofsDir: string, tempName: string, id: int, p: string)
    requires '/' !in tempName && PathJoin(proofsDir, tempName) != JobDir(proofsDir, id)
    requires Below(p, PathJoin(proofsDir, tempName))
    ensures p != JobDir(proofsDir, id) && !Below(p, JobDir(proofsDir, id))
  {
    var sid := IntToString(id);
    NoSeparatorInNumber(id);
    var q := p[|proofsDir| + 1..];
    RestBelowComponent(p, proofsDir, tempName);
    assert q[|tempName|] == '/' && q != sid;
    assert JobDir(proofsDir, id)[|proofsDir| + 1..] == sid;
    if Below(p, JobDir(proofsDir, id)) {
      RestBelowComponent(p, proofsDir, sid);
      SameFirstComponent(q, tempName, sid);
    }
  }

  /** Below `base/name`, what follows `base/` begins with `name/`. */
  lemma RestBelowComponent(p: string, base: string, name: string)
    requires Below(p, PathJoin(base, name))
    ensures StartsWith(p[|base| + 1..], name + "/")
  {
    var d := PathJoin(base, name);
    assert d + "/" == (base + "/") + (name + "/");
    assert p[..|d| + 1] == d + "/";
    assert p[|base| + 1..][..|name| + 1] == p[|base| + 1..|d| + 1] == (d + "/")[|base| + 1..];
  }

  // ---------------------------------------------------------------------------
  // get_proof_job_status

  /** `get_proof_job_status`: 404 for an unknown id, 403 for someone else's job. */
  function GetProofJobStatus(rows: seq<ProofJob>, jobId: int, user: User): (r: Result<ProofJob, HttpError>)
    ensures JobIndexById(rows, jobId) == -1 ==> r == Failure(JOB_NOT_FOUND)
    ensures var i := JobIndexById(rows, jobId); i >= 0 && rows[i].userId != user.id ==> r == Failure(JOB_FORBIDDEN)
    ensures r.Success? <==> (var i := JobIndexById(rows, jobId); i >= 0 && rows[i].userId == user.id)
    ensures r.Success? ==> r.value in rows && r.value.id == jobId && r.value.userId == user.id
  {
    var i := JobIndexById(rows, jobId);
    if i == -1 then Failure(JOB_NOT_FOUND)
    else if rows[i].userId != user.id then Failure(JOB_FORBIDDEN)
    else Success(rows[i])
  }

  /** Every job in a valid table is visible to its owner, and to nobody else. */
  lemma JobVisibleToOwnerOnly(rows: seq<ProofJob>, nextId: int, k: int, user: User)
    requires JobRowsValid(rows, nextId) && 0 <= k < |rows|
    ensures rows[k].userId == user.id ==> GetProofJobStatus(rows, rows[k].id, user) == Success(rows[k])
    ensures rows[k].userId != user.id ==> GetProofJobStatus(rows, rows[k].id, user) == Failure(JOB_FORBIDDEN)
  {
    var i := JobIndexById(rows, rows[k].id);
    assert i == k by {
      if i < k {
        assert rows[i].id == rows[k].id;
      }
    }
  }

  // ---------------------------------------------------------------------------
  // verify_proof

  /**
   * `verify_proof`.  404 for an unknown id; 400 unless the job is completed,
   * naming its status (`statusText` renders it); a completed job without a
   * proof or settings path (one whose files were cleaned up) fails on `Path(None)`
   * outside the handler's `try`, hence 500; a failure of the verifier is
   * reported as 500 too.  Otherwise a verification record is stored for the
   * caller.  There is no ownership check: any signed-in user may verify any
   * completed job.  `outcome` is what the verifier says.
   */
  method VerifyProof(jobRows: seq<ProofJob>, verifications: VerificationTable, jobId: int, user: User,
                     statusText: ProofStatus -> string, outcome: Result<bool, string>)
    returns (r: Result<Verification, HttpError>)
    requires verifications.Valid()
    modifies verifications
    ensures verifications.Valid()
    ensures JobIndexById(jobRows, jobId) == -1 ==> r == Failure(JOB_NOT_FOUND)
    ensures var i := JobIndexById(jobRows, jobId); i >= 0 && jobRows[i].status != COMPLETED ==>
      r == Failure(HttpError(BAD_REQUEST, "Cannot verify proof with status: " + statusText(jobRows[i].status)))
    ensures var i := JobIndexById(jobRows, jobId);
      i >= 0 && jobRows[i].status == COMPLETED && (jobRows[i].proofPath.None? || jobRows[i].settingsPath.None?) ==>
        r == Failure(Deps.INTERNAL_SERVER_ERROR)
    ensures var i := JobIndexById(jobRows, jobId);
      i >= 0 && jobRows[i].status == COMPLETED && jobRows[i].proofPath.Some? && jobRows[i].settingsPath.Some? &&
      outcome.Failure? ==>
        r == Failure(HttpError(INTERNAL_ERROR, "Verification failed: " + ZkmlProof.VerifyProof(outcome).error))
    ensures r.Success? <==> (var i := JobIndexById(jobRows, jobId);
      i >= 0 && jobRows[i].status == COMPLETED && jobRows[i].proofPath.Some? && jobRows[i].settingsPath.Some? &&
      outcome.Success?)
    ensures r.Success? ==>
      var job := jobRows[JobIndexById(jobRows, jobId)];
      r.value == Verification(old(verifications.nextId), job.id, job.modelId, user.id, outcome.value, "ezkl") &&
      verifications.rows == old(verifications.rows) + [r.value] && verifications.nextId == old(verifications.nextId) + 1
    ensures r.Failure? ==>
      verifications.rows == old(verifications.rows) && verifications.nextId == old(verifications.nextId)
  {
    var i := JobIndexById(jobRows, jobId);
    if i == -1 {
      return Failure(JOB_NOT_FOUND);
    }
    var job := jobRows[i];
    if job.status != COMPLETED {
      return Failure(HttpError(BAD_REQUEST, "Cannot verify proof with status: " + statusText(job.status)));
    }
    if job.proofPath.None? || job.settingsPath.None? {
      return Failure(Deps.INTERNAL_SERVER_ERROR);
    }
    var verdict := ZkmlProof.VerifyProof(outcome);
    if verdict.Failure? {
      return Failure(HttpError(INTERNAL_ERROR, "Verification failed: " + verdict.error));
    }
    var record := Verification(verifications.nextId, job.id, job.modelId, user.id, verdict.value, "ezkl");
    verifications.rows := verifications.rows + [record];
    verifications.nextId := verifications.nextId + 1;
    r := Success(record);
  }

  // ---------------------------------------------------------------------------
  // list_user_proof_jobs

  /** The caller's jobs, in table order. */
  function OwnJobs(rows: seq<ProofJob>, userId: int): (r: seq<ProofJob>)
    ensures forall j :: j in r <==> j in rows && j.userId == userId
  {
    Filter(rows, (j: ProofJob) => j.userId == userId)
  }

  predicate JobsInOrder(rows: seq<ProofJob>)
  {
    forall i, j :: 0 <= i < j < |rows| ==> rows[i].createdAt <= rows[j].createdAt
  }

  /** Keeping some of the jobs keeps them in creation order. */
  lemma {:induction false} FilterKeepsJobOrder(rows: seq<ProofJob>, p: ProofJob -> bool)
    requires JobsInOrder(rows)
    ensures JobsInOrder(Filter(rows, p))
  {
    if rows != [] {
      assert JobsInOrder(rows[1..]);
      FilterKeepsJobOrder(rows[1..], p);
      var rest := Filter(rows[1..], p);
      if p(rows[0]) {
        var r := [rows[0]] + rest;
        forall i, j | 0 <= i < j < |r|
          ensures r[i].createdAt <= r[j].createdAt
        {
          if i == 0 {
            assert r[j] in rest;
            assert r[j] in rows[1..];
          } else {
            assert r[i] == rest[i - 1] && r[j] == rest[j - 1];
          }
        }
      }
    }
  }

  /**
   * `list_user_proof_jobs`: a page of the caller's jobs, newest first, and
   * the number of all of them.
   */
  function ListUserProofJobs(rows: seq<ProofJob>, user: User, skip: nat, limit: nat): (r: (seq<ProofJob>, nat))
    requires JobsInOrder(rows)
    ensures r.1 == |OwnJobs(rows, user.id)|
    ensures NewestFirstPage(r.0, OwnJobs(rows, user.id), skip, limit)
    ensures |r.0| <= limit && |r.0| <= r.1
    ensures forall j :: j in r.0 ==> j in rows && j.userId == user.id
    ensures forall i, j :: 0 <= i < j < |r.0| ==> r.0[i].createdAt >= r.0[j].createdAt
  {
    var own := OwnJobs(rows, user.id);
    FilterKeepsJobOrder(rows, (j: ProofJob) => j.userId == user.id);
    (Page(Reverse(own), skip, limit), |own|)
  }

  /** A first page at least as long as the count holds every one of the caller's jobs. */
  lemma ListingHoldsAllOwnJobs(rows: seq<ProofJob>, user: User, limit: nat)
    requires JobsInOrder(rows) && limit >= |OwnJobs(rows, user.id)|
    ensures forall j :: j in ListUserProofJobs(rows, user, 0, limit).0 <==> j in rows && j.userId == user.id
  {
    var own := OwnJobs(rows, user.id);
    var rev := Reverse(own);
    assert ListUserProofJobs(rows, user, 0, limit).0 == rev;
    forall j | j in own
      ensures j in rev
    {
      var k :| 0 <= k < |own| && own[k] == j;
      assert rev[|own| - 1 - k] == j;
    }
  }
}
