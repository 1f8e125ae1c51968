/**
 * `ModelRegistry`: registering an uploaded model (the name and extension
 * checks, storing the file, validating it, the content hash and the
 * duplicate-weights check), looking a model up under the visibility rule,
 * listing models, and deleting one.
 */
module ModelRegistry {
  import opened Common
  import opened Store
  import opened ModelValidator
  import opened ModelSchema
  import Crypto

  /** The chunk size `generate_merkle_root_from_weights` reads with: 1 MiB. */
  const WEIGHTS_CHUNK_SIZE := 1024 * 1024

  const DUPLICATE_WEIGHTS := HttpError(BAD_REQUEST, "A model with identical weights already exists in the registry")
  const PRIVATE_MODEL := HttpError(FORBIDDEN, "Access denied to private model")
  const MODEL_NOT_FOUND := HttpError(NOT_FOUND, "Model not found")
  const DELETE_FORBIDDEN := HttpError(FORBIDDEN, "Only model owner or admin can delete this model")

  /** An uploaded file: its client-side name and its bytes. */
  datatype Upload = Upload(filename: string, contents: seq<byte>)

  /** The registry's own uniqueness rules: one name per owner, one row per content hash. */
  predicate RegistryUnique(rows: seq<ModelRecord>)
  {
    forall i, j :: 0 <= i < j < |rows| ==>
      (rows[i].name != rows[j].name || rows[i].ownerId != rows[j].ownerId) && rows[i].modelHash != rows[j].modelHash
  }

  // ---------------------------------------------------------------------------
  // register_model

  /** The extensions each model type accepts; an unknown type accepts none. */
  function ExpectedExtensions(modelType: string): seq<string>
  {
    if modelType == "onnx" then ["onnx"]
    else if modelType == "pytorch" then ["pt", "pth"]
    else if modelType == "tensorflow" then ["h5", "pb"]
    else []
  }

  /** The owner already has a model of that name. */
  predicate NameTaken(rows: seq<ModelRecord>, name: string, ownerId: int)
  {
    exists k :: 0 <= k < |rows| && rows[k].name == name && rows[k].ownerId == ownerId
  }

  /** Some registered model, whoever owns it, has that content hash. */
  predicate HashTaken(rows: seq<ModelRecord>, modelHash: string)
  {
    exists k :: 0 <= k < |rows| && rows[k].modelHash == modelHash
  }

  /**
   * The checks `register_model` makes before it stores anything: the owner's
   * name must be free, then the file's extension must belong to the type.
   */
  function PreSaveCheck(rows: seq<ModelRecord>, data: ModelCreate, filename: string, ownerId: int)
    : (e: Option<HttpError>)
    ensures e.None? <==>
      !NameTaken(rows, data.name, ownerId) && GetFileExtension(filename) in ExpectedExtensions(data.modelType)
    ensures NameTaken(rows, data.name, ownerId) ==>
      e == Some(HttpError(BAD_REQUEST, "Model '" + data.name + "' already exists for this user"))
    ensures !NameTaken(rows, data.name, ownerId) && GetFileExtension(filename) !in ExpectedExtensions(data.modelType) ==>
      e == Some(HttpError(BAD_REQUEST, "File extension ." + GetFileExtension(filename) +
                                       " does not match model type " + data.modelType))
  {
    if First(rows, (m: ModelRecord) => m.name == data.name && m.ownerId == ownerId).Some? then
      Some(HttpError(BAD_REQUEST, "Model '" + data.name + "' already exists for this user"))
    else
      var ext := GetFileExtension(filename);
      if ext !in ExpectedExtensions(data.modelType) then
        Some(HttpError(BAD_REQUEST, "File extension ." + ext + " does not match model type " + data.modelType))
      else None
  }

  /**
   * Only the three known types get past the extension check, and never with
   * an extensionless file, so the validator's "unsupported type" answer and
   * its acceptance of an extensionless TensorFlow file cannot be reached from
   * registration.
   */
  lemma PreSaveGate(rows: seq<ModelRecord>, data: ModelCreate, filename: string, ownerId: int)
    requires PreSaveCheck(rows, data, filename, ownerId).None?
    ensures data.modelType in ["onnx", "pytorch", "tensorflow"]
    ensures GetFileExtension(filename) != ""
  {
  }

  /** `models/{owner_id}/{timestamp}_{model_name}`. */
  function ModelDir(modelsDir: string, ownerId: int, timestamp: string, name: string): string
  {
    PathJoin(PathJoin(modelsDir, IntToString(ownerId)), timestamp + "_" + name)
  }

  /**
   * For an upload that got past the extension check, the PyTorch and
   * TensorFlow branches of the validator reduce to the size check: the stored
   * file keeps the uploaded name, hence its extension.
   */
  lemma StoredFileKeepsExtension(rows: seq<ModelRecord>, data: ModelCreate, filename: string, ownerId: int,
                                 dir: string, fileSize: int, onnxVerdict: Verdict)
    requires PreSaveCheck(rows, data, filename, ownerId).None?
    requires filename != [] && '/' !in filename
    requires data.modelType != "onnx"
    ensures ValidateModelFile(PathJoin(dir, filename), data.modelType, fileSize, onnxVerdict).valid <==>
      0 < fileSize <= MAX_FILE_SIZE
  {
    NameOfJoin(dir, filename);
    var path := PathJoin(dir, filename);
    assert GetFileExtension(path) == GetFileExtension(filename);
    if data.modelType == "pytorch" {
      PyTorchMatchesExtension(path, fileSize, onnxVerdict);
    } else {
      TensorFlowMatchesExtension(path, fileSize, onnxVerdict);
    }
  }

  /** The final component of `dir / name` is `name`, as is that of `name` itself. */
  lemma NameOfJoin(dir: string, name: string)
    requires name != [] && '/' !in name
    ensures Name(PathJoin(dir, name)) == name && Name(name) == name
  {
    var p := PathJoin(dir, name);
    assert p == (dir + "/") + name;
    assert p[|p| - 1] == name[|name| - 1];
    assert TrimTrailingSlashes(p) == p;
    LastIndexOfSkips(dir + "/", name, '/');
    assert LastIndexOf(dir + "/", '/') == |dir|;
    assert p[|dir| + 1..] == name;
    assert TrimTrailingSlashes(name) == name;
    assert name[0..] == name;
  }

  /** The row a successful registration adds. */
  function NewRecord(id: int, data: ModelCreate, ownerId: int, modelHash: string, merkleRoot: Option<string>,
                     size: int, path: string, now: int): ModelRecord
  {
    ModelRecord(id, data.name, data.description, ownerId, data.version, data.modelType, modelHash, merkleRoot,
                size, path, data.isPublic, now)
  }

  /**
   * The checks `register_model` makes once the file is stored: the validator's
   * verdict (a 400 with its message), then hashing (`hashFault` is a failure
   * of the content hash or of the Merkle root, a 500), then the content hash
   * against every registered model, whoever owns it.
   */
  function PostSaveCheck(rows: seq<ModelRecord>, data: ModelCreate, path: string, contents: seq<byte>,
                         hb: Crypto.ByteHash, onnxVerdict: Verdict, hashFault: Option<string>)
    : (e: Option<HttpError>)
    requires onnxVerdict.valid <==> onnxVerdict.error.None?
    ensures var verdict := ValidateModelFile(path, data.modelType, |contents|, onnxVerdict);
      e.None? <==> verdict.valid && hashFault.None? && !HashTaken(rows, hb(contents))
    ensures var verdict := ValidateModelFile(path, data.modelType, |contents|, onnxVerdict);
      !verdict.valid ==> verdict.error.Some? && e == Some(HttpError(BAD_REQUEST, verdict.error.value))
    ensures ValidateModelFile(path, data.modelType, |contents|, onnxVerdict).valid && hashFault.Some? ==>
      e == Some(HttpError(INTERNAL_ERROR, "Failed to compute model hash: " + hashFault.value))
    ensures (ValidateModelFile(path, data.modelType, |contents|, onnxVerdict).valid && hashFault.None? &&
             HashTaken(rows, hb(contents))) ==> e == Some(DUPLICATE_WEIGHTS)
  {
    var verdict := ValidateModelFile(path, data.modelType, |contents|, onnxVerdict);
    if !verdict.valid then Some(HttpError(BAD_REQUEST, verdict.error.value))
    else if hashFault.Some? then Some(HttpError(INTERNAL_ERROR, "Failed to compute model hash: " + hashFault.value))
    else if First(rows, (m: ModelRecord) => m.modelHash == hb(contents)).Some? then Some(DUPLICATE_WEIGHTS)
    else None
  }

  /** Where a failing `save_uploaded_file` stops: `mkdir`, opening the file, or writing to it. */
  datatype SaveStep = AtMkdir | AtOpen | AtWrite

  /** A save that raises, with the message it raises. */
  datatype SaveFault = SaveFault(step: SaveStep, message: string)

  /**
   * `save_uploaded_file`: the model's directory is created and the file
   * written into it under its uploaded name.  A fault is reported as a 500;
   * the directory stays once `mkdir` has run, and the (partial) file once
   * opening it has succeeded.
   */
  method SaveUploadedFile(disk: Disk, dir: string, upload: Upload, saveFault: Option<SaveFault>)
    returns (r: Result<(string, int), HttpError>)
    modifies disk
    ensures saveFault.Some? <==> r.Failure?
    ensures saveFault.Some? ==>
      r.error == HttpError(INTERNAL_ERROR, "Failed to save file: " + saveFault.value.message) &&
      disk.dirs == old(disk.dirs) + (if saveFault.value.step == AtMkdir then {} else {dir}) &&
      disk.files == old(disk.files) + (if saveFault.value.step == AtWrite then {PathJoin(dir, upload.filename)} else {})
    ensures saveFault.None? ==>
      r.value == (PathJoin(dir, upload.filename), |upload.contents|) &&
      disk.files == old(disk.files) + {PathJoin(dir, upload.filename)} && disk.dirs == old(disk.dirs) + {dir}
  {
    var path := PathJoin(dir, upload.filename);
    if saveFault.Some? && saveFault.value.step == AtMkdir {
      return Failure(HttpError(INTERNAL_ERROR, "Failed to save file: " + saveFault.value.message));
    }
    disk.MakeDir(dir);
    if saveFault.Some? && saveFault.value.step == AtOpen {
      return Failure(HttpError(INTERNAL_ERROR, "Failed to save file: " + saveFault.value.message));
    }
    disk.WriteFile(path);
    if saveFault.Some? {
      return Failure(HttpError(INTERNAL_ERROR, "Failed to save file: " + saveFault.value.message));
    }
    r := Success((path, |upload.contents|));
  }

  /**
   * Saving into a fresh model directory and then removing the stored file as
   * `delete_model` does gives the disk back as it was: the file goes, and
   * with it the directory the save created, since nothing else is in it.
   */
  lemma SaveThenRemoveRestores(files: set<string>, dirs: set<string>, dir: string, filename: string)
    requires '/' in dir && '/' !in filename
    requires dir !in dirs && PathJoin(dir, filename) !in files && NothingIn(files, dirs, dir)
    ensures var path := PathJoin(dir, filename);
      Parent(path) == dir &&
      NothingIn((files + {path}) - {path}, dirs + {dir}, Parent(path)) &&
      (files + {path}) - {path} == files && (dirs + {dir}) - {Parent(path)} == dirs
  {
    var path := PathJoin(dir, filename);
    ParentOfJoin(dir, filename);
    assert (files + {path}) - {path} == files;
    assert Parent(dir) != dir by {
      var i := LastIndexOf(dir, '/');
      assert i >= 0;
      assert |Parent(dir)| < |dir|;
    }
  }

  /**
   * `register_model`: the pre-save checks, then storing the file, then the
   * post-save checks, each failure of which removes the stored file again;
   * otherwise one row is added, with a Merkle root for ONNX models only.
   */
  method RegisterModel(models: ModelTable, disk: Disk, data: ModelCreate, upload: Upload, owner: User,
                       modelsDir: string, timestamp: string, now: int,
                       hb: Crypto.ByteHash, h: Crypto.TextHash, onnxVerdict: Verdict,
                       saveFault: Option<SaveFault>, hashFault: Option<string>)
    returns (r: Result<ModelRecord, HttpError>)
    requires models.Valid() && RegistryUnique(models.rows)
    requires forall k :: 0 <= k < |models.rows| ==> models.rows[k].createdAt <= now
    requires onnxVerdict.valid <==> onnxVerdict.error.None?
    modifies models, disk
    ensures models.Valid() && RegistryUnique(models.rows)
    ensures var pre := PreSaveCheck(old(models.rows), data, upload.filename, owner.id);
      pre.Some? ==> r == Failure(pre.value) && disk.files == old(disk.files) && disk.dirs == old(disk.dirs)
    ensures var pre := PreSaveCheck(old(models.rows), data, upload.filename, owner.id);
      var dir := ModelDir(modelsDir, owner.id, timestamp, data.name);
      (pre.None? && saveFault.Some?) ==>
        (r == Failure(HttpError(INTERNAL_ERROR, "Failed to save file: " + saveFault.value.message)) &&
         disk.dirs == old(disk.dirs) + (if saveFault.value.step == AtMkdir then {} else {dir}) &&
         disk.files == old(disk.files) +
           (if saveFault.value.step == AtWrite then {PathJoin(dir, upload.filename)} else {}))
    ensures var pre := PreSaveCheck(old(models.rows), data, upload.filename, owner.id);
      var dir := ModelDir(modelsDir, owner.id, timestamp, data.name);
      var post := PostSaveCheck(old(models.rows), data, PathJoin(dir, upload.filename), upload.contents, hb,
                                onnxVerdict, hashFault);
      (pre.None? && saveFault.None? && post.Some?) ==>
        (r == Failure(post.value) &&
         disk.files == old(disk.files) - {PathJoin(dir, upload.filename)} && disk.dirs == old(disk.dirs) + {dir})
    ensures var pre := PreSaveCheck(old(models.rows), data, upload.filename, owner.id);
      var dir := ModelDir(modelsDir, owner.id, timestamp, data.name);
      var post := PostSaveCheck(old(models.rows), data, PathJoin(dir, upload.filename), upload.contents, hb,
                                onnxVerdict, hashFault);
      r.Success? <==> pre.None? && saveFault.None? && post.None?
    ensures var dir := ModelDir(modelsDir, owner.id, timestamp, data.name);
      var merkle := if data.modelType == "onnx"
                    then Some(Crypto.WeightsRoot(hb, h, upload.contents, WEIGHTS_CHUNK_SIZE)) else None;
      r.Success? ==>
        (r.value == NewRecord(old(models.nextId), data, owner.id, hb(upload.contents), merkle, |upload.contents|,
                              PathJoin(dir, upload.filename), now) &&
         models.rows == old(models.rows) + [r.value] && models.nextId == old(models.nextId) + 1 &&
         disk.files == old(disk.files) + {PathJoin(dir, upload.filename)} && disk.dirs == old(disk.dirs) + {dir})
    ensures r.Failure? ==> models.rows == old(models.rows) && models.nextId == old(models.nextId)
  {
    var pre := PreSaveCheck(models.rows, data, upload.filename, owner.id);
    if pre.Some? {
      return Failure(pre.value);
    }
    r := StoreModel(models, disk, data, upload, owner, ModelDir(modelsDir, owner.id, timestamp, data.name), now,
                    hb, h, onnxVerdict, saveFault, hashFault);
  }

  /**
   * The part of `register_model` after the pre-save checks: the file is
   * stored in `dir`, then the post-save checks and the new row follow.
   */
  method StoreModel(models: ModelTable, disk: Disk, data: ModelCreate, upload: Upload, owner: User, dir: string,
                    now: int, hb: Crypto.ByteHash, h: Crypto.TextHash, onnxVerdict: Verdict,
                    saveFault: Option<SaveFault>, hashFault: Option<string>)
    returns (r: Result<ModelRecord, HttpError>)
    requires models.Valid() && RegistryUnique(models.rows)
    requires forall k :: 0 <= k < |models.rows| ==> models.rows[k].createdAt <= now
    requires onnxVerdict.valid <==> onnxVerdict.error.None?
    requires PreSaveCheck(models.rows, data, upload.filename, owner.id).None?
    modifies models, disk
    ensures models.Valid() && RegistryUnique(models.rows)
    ensures saveFault.Some? ==>
      r == Failure(HttpError(INTERNAL_ERROR, "Failed to save file: " + saveFault.value.message)) &&
      disk.dirs == old(disk.dirs) + (if saveFault.value.step == AtMkdir then {} else {dir}) &&
      disk.files == old(disk.files) + (if saveFault.value.step == AtWrite then {PathJoin(dir, upload.filename)} else {})
    ensures var post := PostSaveCheck(old(models.rows), data, PathJoin(dir, upload.filename), upload.contents, hb,
                                      onnxVerdict, hashFault);
      (saveFault.None? && post.Some?) ==>
        (r == Failure(post.value) &&
         disk.files == old(disk.files) - {PathJoin(dir, upload.filename)} && disk.dirs == old(disk.dirs) + {dir})
    ensures var post := PostSaveCheck(old(models.rows), data, PathJoin(dir, upload.filename), upload.contents, hb,
                                      onnxVerdict, hashFault);
      r.Success? <==> saveFault.None? && post.None?
    ensures var merkle := if data.modelType == "onnx"
                          then Some(Crypto.WeightsRoot(hb, h, upload.contents, WEIGHTS_CHUNK_SIZE)) else None;
      r.Success? ==>
        (r.value == NewRecord(old(models.nextId), data, owner.id, hb(upload.contents), merkle, |upload.contents|,
                              PathJoin(dir, upload.filename), now) &&
         models.rows == old(models.rows) + [r.value] && models.nextId == old(models.nextId) + 1 &&
         disk.files == old(disk.files) + {PathJoin(dir, upload.filename)} && disk.dirs == old(disk.dirs) + {dir})
    ensures r.Failure? ==> models.rows == old(models.rows) && models.nextId == old(models.nextId)
  {
    var saved := SaveUploadedFile(disk, dir, upload, saveFault);
    if saved.Failure? {
      return Failure(saved.error);
    }
    r := FinishRegistration(models, disk, data, upload, owner, saved.value.0, now, hb, h, onnxVerdict, hashFault);
  }

  /**
   * The part of `register_model` after the file is stored at `path`: the
   * post-save checks, whose failure removes the file again, then the new row.
   */
  method FinishRegistration(models: ModelTable, disk: Disk, data: ModelCreate, upload: Upload, owner: User,
                            path: string, now: int, hb: Crypto.ByteHash, h: Crypto.TextHash, onnxVerdict: Verdict,
                            hashFault: Option<string>)
    returns (r: Result<ModelRecord, HttpError>)
    requires models.Valid() && RegistryUnique(models.rows)
    requires forall k :: 0 <= k < |models.rows| ==> models.rows[k].createdAt <= now
    requires onnxVerdict.valid <==> onnxVerdict.error.None?
    requires PreSaveCheck(models.rows, data, upload.filename, owner.id).None?
    modifies models, disk
    ensures models.Valid() && RegistryUnique(models.rows)
    ensures disk.dirs == old(disk.dirs)
    ensures var post := PostSaveCheck(old(models.rows), data, path, upload.contents, hb, onnxVerdict, hashFault);
      post.Some? ==>
        r == Failure(post.value) && disk.files == old(disk.files) - {path} &&
        models.rows == old(models.rows) && models.nextId == old(models.nextId)
    ensures var post := PostSaveCheck(old(models.rows), data, path, upload.contents, hb, onnxVerdict, hashFault);
      var merkle := if data.modelType == "onnx"
                    then Some(Crypto.WeightsRoot(hb, h, upload.contents, WEIGHTS_CHUNK_SIZE)) else None;
      post.None? ==>
        r == Success(NewRecord(old(models.nextId), data, owner.id, hb(upload.contents), merkle, |upload.contents|,
                               path, now)) &&
        disk.files == old(disk.files) &&
        models.rows == old(models.rows) + [r.value] && models.nextId == old(models.nextId) + 1
  {
    var post := PostSaveCheck(models.rows, data, path, upload.contents, hb, onnxVerdict, hashFault);
    if post.Some? {
      disk.RemoveFile(path);
      return Failure(post.value);
    }
    r := AddRecord(models, data, owner, upload.contents, path, now, hb, h);
  }

  /**
   * The new row: the content hash, the Merkle root of an `onnx` model's
   * weights, the next id; the table keeps its rules.
   */
  method AddRecord(models: ModelTable, data: ModelCreate, owner: User, contents: seq<byte>, path: string, now: int,
                   hb: Crypto.ByteHash, h: Crypto.TextHash)
    returns (r: Result<ModelRecord, HttpError>)
    requires models.Valid() && RegistryUnique(models.rows)
    requires forall k :: 0 <= k < |models.rows| ==> models.rows[k].createdAt <= now
    requires !NameTaken(models.rows, data.name, owner.id) && !HashTaken(models.rows, hb(contents))
    modifies models
    ensures models.Valid() && RegistryUnique(models.rows)
    ensures var merkle := if data.modelType == "onnx"
                          then Some(Crypto.WeightsRoot(hb, h, contents, WEIGHTS_CHUNK_SIZE)) else None;
      r == Success(NewRecord(old(models.nextId), data, owner.id, hb(contents), merkle, |contents|, path, now)) &&
      models.rows == old(models.rows) + [r.value] && models.nextId == old(models.nextId) + 1
  {
    var modelHash := hb(contents);
    var merkleRoot: Option<string> := None;
    if data.modelType == "onnx" {
      var root := Crypto.MerkleRootFromWeights(hb, h, contents, WEIGHTS_CHUNK_SIZE);
      merkleRoot := Some(root);
    }
    var record := NewRecord(models.nextId, data, owner.id, modelHash, merkleRoot, |contents|, path, now);
    AppendKeepsRegistryValid(models.rows, models.nextId, record);
    models.rows := models.rows + [record];
    models.nextId := models.nextId + 1;
    r := Success(record);
  }

  /** A row with a fresh id, a free name, an unseen hash and the latest time keeps every rule. */
  lemma AppendKeepsRegistryValid(rows: seq<ModelRecord>, nextId: int, m: ModelRecord)
    requires ModelRowsValid(rows, nextId) && RegistryUnique(rows)
    requires m.id == nextId && !NameTaken(rows, m.name, m.ownerId) && !HashTaken(rows, m.modelHash)
    requires forall k :: 0 <= k < |rows| ==> rows[k].createdAt <= m.createdAt
    ensures ModelRowsValid(rows + [m], nextId + 1) && RegistryUnique(rows + [m])
  {
    var rows' := rows + [m];
    forall i, j | 0 <= i < j < |rows'|
      ensures (rows'[i].name != rows'[j].name || rows'[i].ownerId != rows'[j].ownerId) &&
              rows'[i].modelHash != rows'[j].modelHash
    {
      if j == |rows| {
        assert rows'[i] == rows[i];
      }
    }
  }

  // ---------------------------------------------------------------------------
  // get_model_by_id

  /** Who may see a model: anyone if it is public, otherwise its owner only. */
  predicate CanView(m: ModelRecord, viewer: Option<User>)
  {
    m.isPublic || (viewer.Some? && m.ownerId == viewer.value.id)
  }

  /**
   * `get_model_by_id`: no model for an unknown id; a private model is refused
   * with 403 to anyone but its owner, administrators included.
   */
  function GetModelById(rows: seq<ModelRecord>, modelId: int, viewer: Option<User>)
    : (r: Result<Option<ModelRecord>, HttpError>)
    ensures ModelIndexById(rows, modelId) == -1 ==> r == Success(None)
    ensures ModelIndexById(rows, modelId) >= 0 ==>
      var m := rows[ModelIndexById(rows, modelId)];
      (CanView(m, viewer) ==> r == Success(Some(m))) && (!CanView(m, viewer) ==> r == Failure(PRIVATE_MODEL))
    ensures r.Success? && r.value.Some? ==> r.value.value in rows && r.value.value.id == modelId
  {
    var i := ModelIndexById(rows, modelId);
    if i == -1 then Success(None)
    else if !rows[i].isPublic && (viewer.None? || rows[i].ownerId != viewer.value.id) then Failure(PRIVATE_MODEL)
    else Success(Some(rows[i]))
  }

  /** The owner of a model always gets it; a stranger, even an administrator, never gets a private one. */
  lemma PrivateModelOwnerOnly(rows: seq<ModelRecord>, modelId: int, viewer: User)
    requires ModelIndexById(rows, modelId) >= 0
    ensures var m := rows[ModelIndexById(rows, modelId)];
      (m.ownerId == viewer.id ==> GetModelById(rows, modelId, Some(viewer)) == Success(Some(m))) &&
      (!m.isPublic && m.ownerId != viewer.id ==> GetModelById(rows, modelId, Some(viewer)) == Failure(PRIVATE_MODEL)) &&
      (!m.isPublic ==> GetModelById(rows, modelId, None) == Failure(PRIVATE_MODEL))
  {
  }

  // ---------------------------------------------------------------------------
  // list_models

  /**
   * The `WHERE` clause of `list_models`: the visibility rule (public only for
   * an anonymous caller or with `public_only`, otherwise public or own), then
   * the owner and type filters, each ignored when it is falsy (0 or "").
   */
  predicate Listed(m: ModelRecord, viewer: Option<User>, ownerId: Option<int>, modelType: Option<string>,
                   publicOnly: bool)
  {
    (if publicOnly || viewer.None? then m.isPublic else m.isPublic || m.ownerId == viewer.value.id) &&
    (ownerId.None? || ownerId.value == 0 || m.ownerId == ownerId.value) &&
    (modelType.None? || modelType.value == "" || m.modelType == modelType.value)
  }

  /** The matching rows, in table order. */
  function Matching(rows: seq<ModelRecord>, viewer: Option<User>, ownerId: Option<int>, modelType: Option<string>,
                    publicOnly: bool): (r: seq<ModelRecord>)
    ensures forall m :: m in r <==> m in rows && Listed(m, viewer, ownerId, modelType, publicOnly)
  {
    Filter(rows, (m: ModelRecord) => Listed(m, viewer, ownerId, modelType, publicOnly))
  }

  /**
   * `list_models`: the page of matching models, newest first, and the number
   * of all matching models, counted before the page is cut.
   */
  function ListModels(rows: seq<ModelRecord>, viewer: Option<User>, skip: nat, limit: nat, ownerId: Option<int>,
                      modelType: Option<string>, publicOnly: bool): (r: (seq<ModelRecord>, nat))
    requires CreatedInOrder(rows)
    ensures r.1 == |Matching(rows, viewer, ownerId, modelType, publicOnly)|
    ensures NewestFirstPage(r.0, Matching(rows, viewer, ownerId, modelType, publicOnly), skip, limit)
    ensures |r.0| <= limit && |r.0| <= r.1
    ensures forall m :: m in r.0 ==> m in rows && Listed(m, viewer, ownerId, modelType, publicOnly)
    ensures forall i, j :: 0 <= i < j < |r.0| ==> r.0[i].createdAt >= r.0[j].createdAt
  {
    var matching := Matching(rows, viewer, ownerId, modelType, publicOnly);
    FilterKeepsOrder(rows, (m: ModelRecord) => Listed(m, viewer, ownerId, modelType, publicOnly));
    (Page(Reverse(matching), skip, limit), |matching|)
  }

  /** Creation times never decrease along the table. */
  predicate CreatedInOrder(rows: seq<ModelRecord>)
  {
    forall i, j :: 0 <= i < j < |rows| ==> rows[i].createdAt <= rows[j].createdAt
  }

  lemma {:induction false} FilterKeepsOrder(rows: seq<ModelRecord>, p: ModelRecord -> bool)
    requires CreatedInOrder(rows)
    ensures CreatedInOrder(Filter(rows, p))
  {
    if rows != [] {
      assert CreatedInOrder(rows[1..]);
      FilterKeepsOrder(rows[1..], p);
      var rest := Filter(rows[1..], p);
      if p(rows[0]) {
        var r := [rows[0]] + rest;
        forall i, j | 0 <= i < j < |r|
          ensures r[i].createdAt <= r[j].createdAt
        {
          if i == 0 {
            assert r[j] in rest;
            assert r[j] in rows[1..];
          } else {
            assert r[i] == rest[i - 1] && r[j] == rest[j - 1];
          }
        }
      }
    }
  }

  /**
   * A first page at least as long as the count holds exactly the matching
   * models; an anonymous caller only ever sees public ones.
   */
  lemma ListingComplete(rows: seq<ModelRecord>, viewer: Option<User>, limit: nat, ownerId: Option<int>,
                        modelType: Option<string>, publicOnly: bool)
    requires CreatedInOrder(rows)
    requires limit >= |Matching(rows, viewer, ownerId, modelType, publicOnly)|
    ensures var (page, total) := ListModels(rows, viewer, 0, limit, ownerId, modelType, publicOnly);
      forall m :: m in page <==> m in rows && Listed(m, viewer, ownerId, modelType, publicOnly)
    ensures viewer.None? ==>
      forall m :: m in ListModels(rows, viewer, 0, limit, ownerId, modelType, publicOnly).0 ==> m.isPublic
  {
    var matching := Matching(rows, viewer, ownerId, modelType, publicOnly);
    var page := ListModels(rows, viewer, 0, limit, ownerId, modelType, publicOnly).0;
    var rev := Reverse(matching);
    assert page == rev;
    forall m | m in matching
      ensures m in rev
    {
      var k :| 0 <= k < |matching| && matching[k] == m;
      assert rev[|matching| - 1 - k] == m;
    }
  }

  // ---------------------------------------------------------------------------
  // delete_model

  /**
   * `delete_model`: 404 for an unknown id, 403 unless the caller owns the
   * model or is an administrator.  The stored file is removed if it is there,
   * and its directory if that is then empty; `removeFault` is an `os.remove`
   * that raises, which is only logged.  The row goes either way.
   */
  method DeleteModel(models: ModelTable, disk: Disk, modelId: int, caller: User, removeFault: bool)
    returns (r: Result<bool, HttpError>)
    requires models.Valid() && RegistryUnique(models.rows)
    modifies models, disk
    ensures models.Valid() && RegistryUnique(models.rows) && models.nextId == old(models.nextId)
    ensures ModelIndexById(old(models.rows), modelId) == -1 ==> r == Failure(MODEL_NOT_FOUND)
    ensures var i := ModelIndexById(old(models.rows), modelId);
      (i >= 0 && old(models.rows)[i].ownerId != caller.id && caller.role != ADMIN) ==> r == Failure(DELETE_FORBIDDEN)
    ensures r.Success? <==> (var i := ModelIndexById(old(models.rows), modelId);
      i >= 0 && (old(models.rows)[i].ownerId == caller.id || caller.role == ADMIN))
    ensures r.Success? ==> r.value && forall m :: m in models.rows <==> m in old(models.rows) && m.id != modelId
    ensures r.Success? && removeFault ==> disk.files == old(disk.files) && disk.dirs == old(disk.dirs)
    ensures r.Success? && !removeFault ==>
      var path := old(models.rows)[ModelIndexById(old(models.rows), modelId)].storagePath;
      disk.files == old(disk.files) - {path} &&
      disk.dirs == (if path in old(disk.files) && NothingIn(old(disk.files) - {path}, old(disk.dirs), Parent(path))
                    then old(disk.dirs) - {Parent(path)} else old(disk.dirs))
    ensures r.Failure? ==> models.rows == old(models.rows) && disk.files == old(disk.files) && disk.dirs == old(disk.dirs)
  {
    var i := ModelIndexById(models.rows, modelId);
    if i == -1 {
      return Failure(MODEL_NOT_FOUND);
    }
    var model := models.rows[i];
    if model.ownerId != caller.id && caller.role != ADMIN {
      return Failure(DELETE_FORBIDDEN);
    }
    RemoveStoredFile(disk, model.storagePath, removeFault);
    RemoveKeepsRegistryValid(models.rows, models.nextId, i);
    models.rows := models.rows[..i] + models.rows[i + 1..];
    r := Success(true);
  }

  /**
   * The file-system part of `delete_model`: the stored file, if it is there,
   * and then its directory if nothing else is left in it.  When the removal
   * raises (`removeFault`) nothing is removed and the error is swallowed.
   */
  method RemoveStoredFile(disk: Disk, path: string, removeFault: bool)
    modifies disk
    ensures removeFault ==> disk.files == old(disk.files) && disk.dirs == old(disk.dirs)
    ensures !removeFault ==> disk.files == old(disk.files) - {path}
    ensures !removeFault ==>
      disk.dirs == (if path in old(disk.files) && NothingIn(old(disk.files) - {path}, old(disk.dirs), Parent(path))
                    then old(disk.dirs) - {Parent(path)} else old(disk.dirs))
  {
    if path in disk.files && !removeFault {
      disk.RemoveFile(path);
      disk.RemoveDirIfEmpty(Parent(path));
    }
  }

  /** Dropping one row keeps every rule, and exactly the rows with the other ids remain. */
  lemma RemoveKeepsRegistryValid(rows: seq<ModelRecord>, nextId: int, i: int)
    requires ModelRowsValid(rows, nextId) && RegistryUnique(rows)
    requires 0 <= i < |rows|
    ensures var rows' := rows[..i] + rows[i + 1..];
      ModelRowsValid(rows', nextId) && RegistryUnique(rows') &&
      forall m :: m in rows' <==> m in rows && m.id != rows[i].id
  {
    RemoveKeepsRows(rows, nextId, i);
    RemoveKeepsOthers(rows, nextId, i);
  }

  /** Dropping one row keeps the remaining rows' ids, order and uniqueness. */
  lemma RemoveKeepsRows(rows: seq<ModelRecord>, nextId: int, i: int)
    requires ModelRowsValid(rows, nextId) && RegistryUnique(rows)
    requires 0 <= i < |rows|
    ensures ModelRowsValid(rows[..i] + rows[i + 1..], nextId) && RegistryUnique(rows[..i] + rows[i + 1..])
  {
    var rows' := rows[..i] + rows[i + 1..];
    RemoveAtIndex(rows, i);
    forall a, b | 0 <= a < b < |rows'|
      ensures rows'[a].id != rows'[b].id && rows'[a].createdAt <= rows'[b].createdAt
      ensures (rows'[a].name != rows'[b].name || rows'[a].ownerId != rows'[b].ownerId) &&
              rows'[a].modelHash != rows'[b].modelHash
    {
      var a', b' := if a < i then a else a + 1, if b < i then b else b + 1;
      assert rows'[a] == rows[a'] && rows'[b] == rows[b'] && a' < b';
    }
  }

  /** Dropping row `i` leaves exactly the rows with other ids. */
  lemma RemoveKeepsOthers(rows: seq<ModelRecord>, nextId: int, i: int)
    requires ModelRowsValid(rows, nextId)
    requires 0 <= i < |rows|
    ensures forall m :: m in rows[..i] + rows[i + 1..] <==> m in rows && m.id != rows[i].id
  {
    var rows' := rows[..i] + rows[i + 1..];
    RemoveAtIndex(rows, i);
    forall m | m in rows
      ensures m in rows' <==> m.id != rows[i].id
    {
      var k :| 0 <= k < |rows| && rows[k] == m;
      if k < i {
        assert rows'[k] == m;
      } else if k > i {
        assert rows'[k - 1] == m;
      }
    }
  }

  /** Where each remaining row sits once row `i` is dropped. */
  lemma RemoveAtIndex<T>(rows: seq<T>, i: int)
    requires 0 <= i < |rows|
    ensures |rows[..i] + rows[i + 1..]| == |rows| - 1
    ensures forall k :: 0 <= k < i ==> (rows[..i] + rows[i + 1..])[k] == rows[k]
    ensures forall k :: i < k < |rows| ==> (rows[..i] + rows[i + 1..])[k - 1] == rows[k]
    ensures forall x :: x in rows[..i] + rows[i + 1..] ==> x in rows
  {
  }
}
