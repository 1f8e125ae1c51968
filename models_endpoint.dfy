/**
 * `ModelsEndpoint`: the `/models` routes.  Every route takes the caller from
 * `get_current_active_user`, so a request without valid credentials is
 * answered with that dependency's error before anything else happens.
 */
module ModelsEndpoint {
  import opened Common
  import opened Store
  import opened ModelSchema
  import opened ModelRegistry
  import Deps
  import Crypto
  import ModelValidator

  /** The query bounds of the listing routes: `skip >= 0`, `1 <= limit <= 100`. */
  const MAX_PAGE_SIZE := 100

  /** A query parameter outside its bounds; the field-level detail is not modelled. */
  const INVALID_QUERY := HttpError(UNPROCESSABLE, "Invalid query parameters")

  /** `ModelListResponse`. */
  datatype ModelListResponse = ModelListResponse(total: nat, models: seq<ModelRecord>, page: int, pageSize: int)

  predicate QueryValid(skip: int, limit: int)
  {
    skip >= 0 && 1 <= limit <= MAX_PAGE_SIZE
  }

  /** The page number a listing reports, `skip // limit + 1`: the first page is page 1. */
  function PageNumber(skip: int, limit: int): (n: int)
    requires QueryValid(skip, limit)
    ensures n >= 1 && (n - 1) * limit <= skip < n * limit
  {
    skip / limit + 1
  }

  /**
   * `GET /models/`: the caller's page of visible models, the count of all of
   * them, the page number `skip // limit + 1` and the page size.
   */
  function ListModelsRoute(caller: Result<User, HttpError>, rows: seq<ModelRecord>, skip: int, limit: int,
                           ownerId: Option<int>, modelType: Option<string>, publicOnly: bool)
    : (r: Result<ModelListResponse, HttpError>)
    requires CreatedInOrder(rows)
    ensures caller.Failure? ==> r == Failure(caller.error)
    ensures caller.Success? && !QueryValid(skip, limit) ==> r == Failure(INVALID_QUERY)
    ensures r.Success? <==> caller.Success? && QueryValid(skip, limit)
    ensures r.Success? ==>
      var (page, total) := ListModels(rows, Some(caller.value), skip, limit, ownerId, modelType, publicOnly);
      r.value == ModelListResponse(total, page, skip / limit + 1, limit)
    ensures r.Success? ==> |r.value.models| <= r.value.pageSize <= MAX_PAGE_SIZE && 1 <= r.value.page
  {
    match caller
    case Failure(e) => Failure(e)
    case Success(user) =>
      if !QueryValid(skip, limit) then Failure(INVALID_QUERY)
      else
        var (page, total) := ListModels(rows, Some(user), skip, limit, ownerId, modelType, publicOnly);
        Success(ModelListResponse(total, page, PageNumber(skip, limit), limit))
  }

  /**
   * `GET /models/my-models`: the listing filtered to the caller's own models,
   * private ones included.
   */
  function MyModelsRoute(caller: Result<User, HttpError>, rows: seq<ModelRecord>, skip: int, limit: int)
    : (r: Result<ModelListResponse, HttpError>)
    requires CreatedInOrder(rows)
    ensures r.Success? <==> caller.Success? && QueryValid(skip, limit)
    ensures r.Success? ==>
      var (page, total) := ListModels(rows, Some(caller.value), skip, limit, Some(caller.value.id), None, false);
      r.value == ModelListResponse(total, page, skip / limit + 1, limit)
  {
    match caller
    case Failure(e) => Failure(e)
    case Success(user) =>
      if !QueryValid(skip, limit) then Failure(INVALID_QUERY)
      else
        var (page, total) := ListModels(rows, Some(user), skip, limit, Some(user.id), None, false);
        Success(ModelListResponse(total, page, PageNumber(skip, limit), limit))
  }

  /**
   * For a caller with a real (non-zero) id, "my models" counts exactly the
   * caller's models, public and private, and lists nobody else's.
   */
  lemma MyModelsAreTheCallers(user: User, rows: seq<ModelRecord>, skip: int, limit: int)
    requires CreatedInOrder(rows) && QueryValid(skip, limit) && user.id != 0
    ensures var r := MyModelsRoute(Success(user), rows, skip, limit);
      r.Success? && (forall m :: m in r.value.models ==> m in rows && m.ownerId == user.id) &&
      r.value.total == |Filter(rows, (m: ModelRecord) => m.ownerId == user.id)|
  {
    var p1 := (m: ModelRecord) => Listed(m, Some(user), Some(user.id), None, false);
    var p2 := (m: ModelRecord) => m.ownerId == user.id;
    FilterSamePredicate(rows, p1, p2);
  }

  /** Two predicates that agree on every row select the same rows. */
  lemma {:induction false} FilterSamePredicate(rows: seq<ModelRecord>, p: ModelRecord -> bool, q: ModelRecord -> bool)
    requires forall m :: m in rows ==> p(m) == q(m)
    ensures Filter(rows, p) == Filter(rows, q)
  {
    if rows != [] {
      FilterSamePredicate(rows[1..], p, q);
    }
  }

  /**
   * Walking the listing page by page (`skip` = `(n - 1) * limit`) reports page
   * `n`, and two consecutive pages together are the double-size page.
   */
  lemma PagesFollowEachOther(caller: User, rows: seq<ModelRecord>, n: int, limit: int,
                             ownerId: Option<int>, modelType: Option<string>, publicOnly: bool)
    requires CreatedInOrder(rows) && n >= 1 && 1 <= limit && 2 * limit <= MAX_PAGE_SIZE
    ensures var r := ListModelsRoute(Success(caller), rows, (n - 1) * limit, limit, ownerId, modelType, publicOnly);
      r.Success? && r.value.page == n
    ensures ListModelsRoute(Success(caller), rows, (n - 1) * limit, limit, ownerId, modelType, publicOnly).value.models +
            ListModelsRoute(Success(caller), rows, n * limit, limit, ownerId, modelType, publicOnly).value.models ==
            ListModelsRoute(Success(caller), rows, (n - 1) * limit, 2 * limit, ownerId, modelType, publicOnly).value.models
  {
    var skip := (n - 1) * limit;
    assert skip / limit == n - 1 by {
      DivOfMultiple(n - 1, limit);
    }
    assert n * limit == skip + limit;
    var s := Reverse(Matching(rows, Some(caller), ownerId, modelType, publicOnly));
    PagesConcatenate(s, skip, limit);
  }

  lemma DivOfMultiple(a: nat, b: int)
    requires b >= 1
    ensures (a * b) / b == a
  {
    var x := a * b;
    var d, r := x / b, x % b;
    assert x == d * b + r && 0 <= r < b;
    assert (d - a) * b == -r;
    if d > a {
      MulAtLeast(d - a, b);
    } else if d < a {
      MulAtLeast(a - d, b);
    }
  }

  lemma MulAtLeast(k: int, b: int)
    requires k >= 1 && b >= 1
    ensures k * b >= b
  {
  }

  /**
   * `GET /models/{model_id}`: the model if the caller may see it, 403 for
   * someone else's private model, 404 when there is none.
   */
  function GetModelRoute(caller: Result<User, HttpError>, rows: seq<ModelRecord>, modelId: int)
    : (r: Result<ModelRecord, HttpError>)
    ensures caller.Failure? ==> r == Failure(caller.error)
    ensures caller.Success? && ModelIndexById(rows, modelId) == -1 ==> r == Failure(MODEL_NOT_FOUND)
    ensures r.Success? <==>
      caller.Success? && ModelIndexById(rows, modelId) >= 0 &&
      CanView(rows[ModelIndexById(rows, modelId)], Some(caller.value))
    ensures r.Success? ==> r.value == rows[ModelIndexById(rows, modelId)]
    ensures (caller.Success? && ModelIndexById(rows, modelId) >= 0 &&
             !CanView(rows[ModelIndexById(rows, modelId)], Some(caller.value))) ==> r == Failure(PRIVATE_MODEL)
  {
    match caller
    case Failure(e) => Failure(e)
    case Success(user) =>
      match GetModelById(rows, modelId, Some(user))
      case Failure(e) => Failure(e)
      case Success(None) => Failure(MODEL_NOT_FOUND)
      case Success(Some(m)) => Success(m)
  }

  /**
   * `GET /models/{model_id}/commitment`: the id, content hash and Merkle root
   * of a model the caller may see, with the same errors as fetching it.
   */
  function GetCommitmentRoute(caller: Result<User, HttpError>, rows: seq<ModelRecord>, modelId: int)
    : (r: Result<ModelCommitment, HttpError>)
    ensures r.Failure? <==> GetModelRoute(caller, rows, modelId).Failure?
    ensures r.Failure? ==> r.error == GetModelRoute(caller, rows, modelId).error
    ensures r.Success? ==>
      var m := rows[ModelIndexById(rows, modelId)];
      r.value == ModelCommitment(modelId, m.modelHash, m.merkleRoot)
  {
    match GetModelRoute(caller, rows, modelId)
    case Failure(e) => Failure(e)
    case Success(m) => Success(ModelCommitment(m.id, m.modelHash, m.merkleRoot))
  }

  /**
   * The commitment of a registered ONNX model is the hash of its bytes and
   * the Merkle root of its 1 MiB chunks, as computed when it was registered.
   */
  lemma CommitmentOfRegisteredModel(caller: User, rows: seq<ModelRecord>, data: ModelCreate, id: int, owner: int,
                                    hb: Crypto.ByteHash, h: Crypto.TextHash, contents: seq<byte>, path: string, now: int)
    requires ModelIndexById(rows, id) == -1 && data.modelType == "onnx" && (data.isPublic || owner == caller.id)
    ensures var m := NewRecord(id, data, owner, hb(contents),
                               Some(Crypto.WeightsRoot(hb, h, contents, WEIGHTS_CHUNK_SIZE)), |contents|, path, now);
      GetCommitmentRoute(Success(caller), rows + [m], id) ==
        Success(ModelCommitment(id, hb(contents), Some(Crypto.WeightsRoot(hb, h, contents, WEIGHTS_CHUNK_SIZE))))
  {
    var m := NewRecord(id, data, owner, hb(contents),
                       Some(Crypto.WeightsRoot(hb, h, contents, WEIGHTS_CHUNK_SIZE)), |contents|, path, now);
    IndexAfterAppend(rows, m);
  }

  /** An id absent from the table is found at the row appended with it. */
  lemma {:induction false} IndexAfterAppend(rows: seq<ModelRecord>, m: ModelRecord)
    requires ModelIndexById(rows, m.id) == -1
    ensures ModelIndexById(rows + [m], m.id) == |rows|
  {
    var all := rows + [m];
    assert all[|rows|] == m;
    assert forall k :: 0 <= k < |rows| ==> all[k] == rows[k];
  }

  /**
   * `POST /models/register`: the form fields become a `ModelCreate`, whose
   * validation errors are not request errors here but an unhandled exception,
   * so a 500; then `register_model` on the caller's behalf.
   */
  method RegisterRoute(models: ModelTable, disk: Disk, caller: Result<User, HttpError>,
                       name: string, description: Option<string>, version: string, modelType: string,
                       isPublic: bool, upload: Upload, modelsDir: string, timestamp: string, now: int,
                       hb: Crypto.ByteHash, h: Crypto.TextHash, onnxVerdict: ModelValidator.Verdict,
                       saveFault: Option<SaveFault>, hashFault: Option<string>)
    returns (r: Result<ModelRecord, HttpError>)
    requires models.Valid() && RegistryUnique(models.rows)
    requires forall k :: 0 <= k < |models.rows| ==> models.rows[k].createdAt <= now
    requires onnxVerdict.valid <==> onnxVerdict.error.None?
    modifies models, disk
    ensures models.Valid() && RegistryUnique(models.rows)
    ensures caller.Failure? ==> r == Failure(caller.error)
    ensures caller.Success? && ValidateModelCreate(name, description, Some(version), modelType, Some(isPublic)).Failure? ==>
      r == Failure(Deps.INTERNAL_SERVER_ERROR)
    ensures r.Success? ==>
      caller.Success? && r.value.ownerId == caller.value.id && r.value.name == name && r.value.version == version &&
      r.value.modelType == modelType && r.value.isPublic == isPublic && VersionMatches(r.value.version) &&
      NameFits(r.value.name) && models.rows == old(models.rows) + [r.value]
    ensures r.Failure? ==> models.rows == old(models.rows)
    ensures (caller.Failure? || ValidateModelCreate(name, description, Some(version), modelType, Some(isPublic)).Failure?) ==>
      disk.files == old(disk.files) && disk.dirs == old(disk.dirs)
  {
    if caller.Failure? {
      return Failure(caller.error);
    }
    var data := ValidateModelCreate(name, description, Some(version), modelType, Some(isPublic));
    if data.Failure? {
      return Failure(Deps.INTERNAL_SERVER_ERROR);
    }
    r := RegisterModel(models, disk, data.value, upload, caller.value, modelsDir, timestamp, now, hb, h, onnxVerdict,
                       saveFault, hashFault);
  }

  /** `DELETE /models/{model_id}`: `delete_model` on the caller's behalf; no body on success. */
  method DeleteRoute(models: ModelTable, disk: Disk, caller: Result<User, HttpError>, modelId: int, removeFault: bool)
    returns (r: Result<(), HttpError>)
    requires models.Valid() && RegistryUnique(models.rows)
    modifies models, disk
    ensures models.Valid() && RegistryUnique(models.rows)
    ensures caller.Failure? ==> r == Failure(caller.error) && models.rows == old(models.rows)
    ensures r.Success? <==> caller.Success? && (var i := ModelIndexById(old(models.rows), modelId);
      i >= 0 && (old(models.rows)[i].ownerId == caller.value.id || caller.value.role == ADMIN))
    ensures r.Success? ==> forall m :: m in models.rows <==> m in old(models.rows) && m.id != modelId
    ensures r.Success? && removeFault ==> disk.files == old(disk.files) && disk.dirs == old(disk.dirs)
    ensures r.Success? && !removeFault ==>
      var path := old(models.rows)[ModelIndexById(old(models.rows), modelId)].storagePath;
      disk.files == old(disk.files) - {path} &&
      disk.dirs == (if path in old(disk.files) && NothingIn(old(disk.files) - {path}, old(disk.dirs), Parent(path))
                    then old(disk.dirs) - {Parent(path)} else old(disk.dirs))
    ensures r.Failure? ==> models.rows == old(models.rows) && disk.files == old(disk.files) && disk.dirs == old(disk.dirs)
  {
    if caller.Failure? {
      return Failure(caller.error);
    }
    var deleted := DeleteModel(models, disk, modelId, caller.value, removeFault);
    if deleted.Failure? {
      return Failure(deleted.error);
    }
    r := Success(());
  }
}
