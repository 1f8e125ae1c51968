/**
 * `VerificationEndpoint`: the `/verification` routes.  Each takes the caller
 * from `get_current_active_user`; requesting a proof is refused while the
 * caller already has ten jobs pending or processing.
 */
module VerificationEndpoint {
  import opened Common
  import opened Store
  import opened JsonValue
  import opened ProofService
  import Crypto
  import ModelsEndpoint

  /** The most jobs a user may have pending or processing when asking for another. */
  const MAX_ACTIVE_JOBS := 10

  const TOO_MANY_JOBS :=
    HttpError(TOO_MANY_REQUESTS, "Too many pending proof jobs. Please wait for existing jobs to complete.")

  /** A job of `userId`'s that is still waiting for or under way in the worker. */
  predicate ActiveFor(j: ProofJob, userId: int)
  {
    j.userId == userId && (j.status == PENDING || j.status == PROCESSING)
  }

  /** The count the rate limit reads: the user's pending and processing jobs. */
  function ActiveCount(rows: seq<ProofJob>, userId: int): (n: nat)
    ensures n <= |rows|
    ensures n == 0 <==> forall k :: 0 <= k < |rows| ==> !ActiveFor(rows[k], userId)
  {
    if rows == [] then 0
    else ActiveCount(rows[..|rows| - 1], userId) + if ActiveFor(rows[|rows| - 1], userId) then 1 else 0
  }

  /** One more row adds one to the count exactly when it is an active job of the user's. */
  lemma ActiveCountAppend(rows: seq<ProofJob>, j: ProofJob, userId: int)
    ensures ActiveCount(rows + [j], userId) == ActiveCount(rows, userId) + if ActiveFor(j, userId) then 1 else 0
  {
    assert (rows + [j])[..|rows|] == rows;
  }

  /**
   * `POST /generate-proof`: after authentication, 429 when the caller has
   * ten or more active jobs; otherwise `create_proof_job`.  Any job it adds
   * is the caller's and pending, so the caller then has at most ten active
   * jobs.
   */
  method GenerateProofRoute(caller: Result<User, HttpError>, models: seq<ModelRecord>, jobs: JobTable, disk: Disk,
                            modelId: int, input: seq<(string, Json)>, h: Crypto.TextHash, dumps: Json -> string,
                            proofsDir: string, tempName: string, queued: Option<string>, now: int)
    returns (r: Result<ProofJob, HttpError>)
    requires jobs.Valid() && forall k :: 0 <= k < |jobs.rows| ==> jobs.rows[k].createdAt <= now
    requires '/' !in tempName
    modifies jobs, disk
    ensures jobs.Valid()
    ensures caller.Failure? ==> r == Failure(caller.error)
    ensures caller.Success? && ActiveCount(old(jobs.rows), caller.value.id) >= MAX_ACTIVE_JOBS ==>
      r == Failure(TOO_MANY_JOBS)
    ensures (caller.Failure? || ActiveCount(old(jobs.rows), caller.value.id) >= MAX_ACTIVE_JOBS ||
             ProofJobGate(models, modelId, caller.value).Failure?) ==>
      jobs.rows == old(jobs.rows) && disk.files == old(disk.files) && disk.dirs == old(disk.dirs)
    ensures (caller.Success? && ActiveCount(old(jobs.rows), caller.value.id) < MAX_ACTIVE_JOBS &&
             ProofJobGate(models, modelId, caller.value).Failure?) ==>
      r == Failure(ProofJobGate(models, modelId, caller.value).error)
    ensures r.Success? ==>
      caller.Success? && r.value.userId == caller.value.id && r.value.modelId == modelId &&
      r.value.status == PENDING && jobs.rows == old(jobs.rows) + [r.value]
    ensures caller.Success? ==>
      (ActiveCount(jobs.rows, caller.value.id) <= MAX_ACTIVE_JOBS || jobs.rows == old(jobs.rows))
    ensures (caller.Success? && ActiveCount(old(jobs.rows), caller.value.id) < MAX_ACTIVE_JOBS &&
             ProofJobGate(models, modelId, caller.value).Success?) ==>
      StagedInput(old(disk.files), old(disk.dirs), disk.files, disk.dirs,
                  PathJoin(proofsDir, tempName), JobDir(proofsDir, old(jobs.nextId)))
  {
    if caller.Failure? {
      return Failure(caller.error);
    }
    var user := caller.value;
    if ActiveCount(jobs.rows, user.id) >= MAX_ACTIVE_JOBS {
      return Failure(TOO_MANY_JOBS);
    }
    ghost var before := jobs.rows;
    r := CreateProofJob(models, jobs, disk, user, modelId, input, h, dumps, proofsDir, tempName, queued, now);
    if jobs.rows != before {
      assert jobs.rows == before + [jobs.rows[|before|]];
      ActiveCountAppend(before, jobs.rows[|before|], user.id);
    }
  }

  /** `ProofJobStatus`, without the unused `progress` field. */
  datatype StatusResponse = StatusResponse(id: int, status: ProofStatus, errorMessage: Option<string>,
                                           proofAvailable: bool)

  /**
   * `GET /status/{id}`: the owner's view of a job; a proof is reported as
   * available exactly when the job is completed.
   */
  function ProofStatusRoute(caller: Result<User, HttpError>, rows: seq<ProofJob>, jobId: int)
    : (r: Result<StatusResponse, HttpError>)
    ensures caller.Failure? ==> r == Failure(caller.error)
    ensures caller.Success? && GetProofJobStatus(rows, jobId, caller.value).Failure? ==>
      r == Failure(GetProofJobStatus(rows, jobId, caller.value).error)
    ensures r.Success? <==> caller.Success? && GetProofJobStatus(rows, jobId, caller.value).Success?
    ensures r.Success? ==>
      var job := GetProofJobStatus(rows, jobId, caller.value).value;
      r.value.id == jobId && r.value.status == job.status && r.value.errorMessage == job.errorMessage &&
      (r.value.proofAvailable <==> job.status == COMPLETED)
  {
    match caller
    case Failure(e) => Failure(e)
    case Success(user) =>
      match GetProofJobStatus(rows, jobId, user)
      case Failure(e) => Failure(e)
      case Success(job) => Success(StatusResponse(job.id, job.status, job.errorMessage, job.status == COMPLETED))
  }

  /**
   * The status route reports a proof as available for a completed job whose
   * artifacts were cleaned up, although the job no longer has a proof path.
   */
  lemma AvailableAfterCleanup(caller: User, rows: seq<ProofJob>, nextId: int, k: int)
    requires JobRowsValid(rows, nextId) && 0 <= k < |rows| && rows[k].userId == caller.id
    requires rows[k].status == COMPLETED && rows[k].proofPath.None?
    ensures ProofStatusRoute(Success(caller), rows, rows[k].id).Success?
    ensures ProofStatusRoute(Success(caller), rows, rows[k].id).value.proofAvailable
  {
    JobVisibleToOwnerOnly(rows, nextId, k, caller);
  }

  /** `GET /job/{id}`: the owner's full job row. */
  function JobDetailsRoute(caller: Result<User, HttpError>, rows: seq<ProofJob>, jobId: int)
    : (r: Result<ProofJob, HttpError>)
    ensures caller.Failure? ==> r == Failure(caller.error)
    ensures caller.Success? ==> r == GetProofJobStatus(rows, jobId, caller.value)
    ensures r.Success? ==> r.value in rows && r.value.id == jobId && r.value.userId == caller.value.id
  {
    match caller
    case Failure(e) => Failure(e)
    case Success(user) => GetProofJobStatus(rows, jobId, user)
  }

  /** `POST /verify`: `verify_proof` for the authenticated caller. */
  method VerifyRoute(caller: Result<User, HttpError>, jobRows: seq<ProofJob>, verifications: VerificationTable,
                     jobId: int, statusText: ProofStatus -> string, outcome: Result<bool, string>)
    returns (r: Result<Verification, HttpError>)
    requires verifications.Valid()
    modifies verifications
    ensures verifications.Valid()
    ensures caller.Failure? ==> r == Failure(caller.error) && verifications.rows == old(verifications.rows)
    ensures r.Success? <==> caller.Success? && (var i := JobIndexById(jobRows, jobId);
      i >= 0 && jobRows[i].status == COMPLETED && jobRows[i].proofPath.Some? && jobRows[i].settingsPath.Some? &&
      outcome.Success?)
    ensures r.Success? ==>
      caller.Success? && r.value.verifierId == caller.value.id && r.value.proofJobId == jobId &&
      r.value.isValid == outcome.value && verifications.rows == old(verifications.rows) + [r.value]
    ensures r.Failure? ==> verifications.rows == old(verifications.rows)
  {
    if caller.Failure? {
      return Failure(caller.error);
    }
    r := VerifyProof(jobRows, verifications, jobId, caller.value, statusText, outcome);
  }

  /** `GET /my-proofs`: a page of the caller's jobs, newest first; the count is dropped. */
  function MyProofsRoute(caller: Result<User, HttpError>, rows: seq<ProofJob>, skip: int, limit: int)
    : (r: Result<seq<ProofJob>, HttpError>)
    requires JobsInOrder(rows)
    ensures caller.Failure? ==> r == Failure(caller.error)
    ensures caller.Success? && !ModelsEndpoint.QueryValid(skip, limit) ==> r == Failure(ModelsEndpoint.INVALID_QUERY)
    ensures r.Success? <==> caller.Success? && ModelsEndpoint.QueryValid(skip, limit)
    ensures r.Success? ==>
      skip >= 0 && NewestFirstPage(r.value, OwnJobs(rows, caller.value.id), skip, limit) &&
      |r.value| <= limit <= ModelsEndpoint.MAX_PAGE_SIZE &&
      (forall j :: j in r.value ==> j in rows && j.userId == caller.value.id) &&
      forall a, b :: 0 <= a < b < |r.value| ==> r.value[a].createdAt >= r.value[b].createdAt
  {
    match caller
    case Failure(e) => Failure(e)
    case Success(user) =>
      if !ModelsEndpoint.QueryValid(skip, limit) then Failure(ModelsEndpoint.INVALID_QUERY)
      else Success(ListUserProofJobs(rows, user, skip, limit).0)
  }
}
