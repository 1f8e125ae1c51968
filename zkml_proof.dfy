/**
 * `ZkmlProof`: one proof job's working directory, the input file handed to
 * EZKL, the settings clean-up, the input hash, and proof generation (setup
 * or reuse of cached setup artifacts, then witness, then proof).  The EZKL
 * steps themselves are parameters: each either succeeds, writing its files,
 * or fails with a message.
 */
module ZkmlProof {
  import opened Common
  import opened Store
  import opened JsonValue
  import opened ProofCache
  import Crypto

  // ---------------------------------------------------------------------------
  // The job directory and the input file

  /**
   * `prepare_proof_directory`: `EZKL_PROOFS_DIR / str(name)` exists
   * afterwards; `name` is the text of the argument.
   */
  method PrepareProofDirectory(disk: Disk, proofsDir: string, name: string) returns (dir: string)
    modifies disk
    ensures dir == PathJoin(proofsDir, name)
    ensures disk.files == old(disk.files) && disk.dirs == old(disk.dirs) + {dir}
  {
    dir := PathJoin(proofsDir, name);
    disk.MakeDir(dir);
  }

  /**
   * The document `save_input_data` writes: `input_data` (an empty list when
   * absent), and `output_data` only when present; every other key is dropped.
   */
  function EzklInput(input: seq<(string, Json)>): (r: seq<(string, Json)>)
    ensures 1 <= |r| <= 2 && r[0].0 == "input_data" && KeysUnique(r)
    ensures r[0].1 == (if Lookup(input, "input_data").Some? then Lookup(input, "input_data").value else JArr([]))
    ensures |r| == 2 <==> Lookup(input, "output_data").Some?
    ensures |r| == 2 ==> r[1] == ("output_data", Lookup(input, "output_data").value)
  {
    var data := match Lookup(input, "input_data") case Some(v) => v case None => JArr([]);
    [("input_data", data)] + match Lookup(input, "output_data") case Some(v) => [("output_data", v)] case None => []
  }

  /** Writing the EZKL input of an EZKL input writes the same document. */
  lemma EzklInputIdempotent(input: seq<(string, Json)>)
    ensures EzklInput(EzklInput(input)) == EzklInput(input)
  {
    var r := EzklInput(input);
    assert Lookup(r, "input_data") == Some(r[0].1);
    if |r| == 2 {
      assert Lookup(r, "output_data") == Some(r[1].1);
    } else {
      assert Lookup(r, "output_data") == None;
    }
  }

  /** `save_input_data`: `input.json` in the job's directory, holding the EZKL input. */
  method SaveInputData(disk: Disk, input: seq<(string, Json)>, proofDir: string)
    returns (path: string, written: Json)
    modifies disk
    ensures path == PathJoin(proofDir, "input.json") && written == JObj(EzklInput(input))
    ensures disk.files == old(disk.files) + {path} && disk.dirs == old(disk.dirs)
  {
    path := PathJoin(proofDir, "input.json");
    written := JObj(EzklInput(input));
    disk.WriteFile(path);
  }

  // ---------------------------------------------------------------------------
  // fix_settings_types

  /**
   * `convert_value`: a string that `int()` accepts becomes that integer; else
   * one `float()` accepts (`isFloat`) becomes that float; else "true" or
   * "false" in any ASCII case becomes the boolean; anything else stays.
   * Lists and dicts are converted element by element, keys untouched.
   */
  function ConvertValue(v: Json, isFloat: string -> bool): Json
  {
    match v
    case JStr(s) =>
      if PyInt(s).Some? then JInt(PyInt(s).value)
      else if isFloat(s) then JFloat(s)
      else if Lower(s) == "true" then JBool(true)
      else if Lower(s) == "false" then JBool(false)
      else v
    case JArr(items) => JArr(seq(|items|, i requires 0 <= i < |items| => ConvertValue(items[i], isFloat)))
    case JObj(es) => JObj(seq(|es|, i requires 0 <= i < |es| => (es[i].0, ConvertValue(es[i].1, isFloat))))
    case _ => v
  }

  /** No string is left that a further pass would convert. */
  predicate Settled(v: Json, isFloat: string -> bool)
  {
    match v
    case JStr(s) => PyInt(s).None? && !isFloat(s) && Lower(s) != "true" && Lower(s) != "false"
    case JArr(items) => forall i :: 0 <= i < |items| ==> Settled(items[i], isFloat)
    case JObj(es) => forall i :: 0 <= i < |es| ==> Settled(es[i].1, isFloat)
    case _ => true
  }

  /** One pass settles every value. */
  lemma {:induction false} ConvertSettles(v: Json, isFloat: string -> bool)
    ensures Settled(ConvertValue(v, isFloat), isFloat)
  {
    match v
    case JArr(items) =>
      forall i | 0 <= i < |items|
        ensures Settled(ConvertValue(v, isFloat).items[i], isFloat)
      {
        ConvertSettles(items[i], isFloat);
      }
    case JObj(es) =>
      forall i | 0 <= i < |es|
        ensures Settled(ConvertValue(v, isFloat).entries[i].1, isFloat)
      {
        ConvertSettles(es[i].1, isFloat);
      }
    case JStr(s) =>
      StringSettles(s, isFloat);
    case _ =>
  }

  /** A string comes out of the conversion as a value no further pass changes. */
  lemma StringSettles(s: string, isFloat: string -> bool)
    ensures Settled(ConvertValue(JStr(s), isFloat), isFloat)
  {
    if PyInt(s).None? && !isFloat(s) && Lower(s) != "true" && Lower(s) != "false" {
      assert ConvertValue(JStr(s), isFloat) == JStr(s);
    }
  }

  /** Running the fix twice changes nothing more than running it once. */
  lemma ConvertIdempotent(v: Json, isFloat: string -> bool)
    ensures ConvertValue(ConvertValue(v, isFloat), isFloat) == ConvertValue(v, isFloat)
  {
    ConvertSettles(v, isFloat);
    SettledUnchanged(ConvertValue(v, isFloat), isFloat);
  }

  /** A settled document is left alone. */
  lemma {:induction false} SettledUnchanged(v: Json, isFloat: string -> bool)
    requires Settled(v, isFloat)
    ensures ConvertValue(v, isFloat) == v
  {
    match v
    case JArr(items) =>
      forall i | 0 <= i < |items| {
        SettledUnchanged(items[i], isFloat);
      }
      assert ConvertValue(v, isFloat).items == items;
    case JObj(es) =>
      forall i | 0 <= i < |es| {
        SettledUnchanged(es[i].1, isFloat);
      }
      assert ConvertValue(v, isFloat).entries == es;
    case _ =>
  }

  /** The conversion keeps the document's shape: the same keys in the same places, lists of the same lengths. */
  lemma ConvertKeepsShape(v: Json, isFloat: string -> bool)
    ensures v.JArr? <==> ConvertValue(v, isFloat).JArr?
    ensures v.JObj? <==> ConvertValue(v, isFloat).JObj?
    ensures v.JArr? ==> |ConvertValue(v, isFloat).items| == |v.items|
    ensures v.JObj? ==>
      (|ConvertValue(v, isFloat).entries| == |v.entries| &&
       forall i :: 0 <= i < |v.entries| ==> ConvertValue(v, isFloat).entries[i].0 == v.entries[i].0)
  {
  }

  // ---------------------------------------------------------------------------
  // compute_input_hash / compute_output_hash

  /**
   * `compute_input_hash` (and `compute_output_hash`, the same code): the
   * hash of `json.dumps(data, sort_keys=True)`; `dumps` writes a document
   * whose keys are already in order.
   */
  function ComputeInputHash(h: Crypto.TextHash, dumps: Json -> string, data: Json): string
  {
    h(dumps(Normalize(data)))
  }

  /** The same dict, whatever order its entries were inserted in, has the same hash. */
  lemma InputHashIgnoresKeyOrder(h: Crypto.TextHash, dumps: Json -> string,
                                 es1: seq<(string, Json)>, es2: seq<(string, Json)>)
    requires KeysUnique(es1) && KeysUnique(es2)
    requires forall x :: x in es1 <==> x in es2
    ensures ComputeInputHash(h, dumps, JObj(es1)) == ComputeInputHash(h, dumps, JObj(es2))
  {
    SameEntriesNormalizeAlike(es1, es2);
  }

  // ---------------------------------------------------------------------------
  // setup_model, generate_proof, verify_proof

  /** The artifact paths in a directory. */
  function ArtifactPaths(dir: string): set<string>
  {
    set k | 0 <= k < |ARTIFACTS| :: PathJoin(dir, ARTIFACTS[k])
  }

  lemma CompleteIffArtifacts(files: set<string>, dir: string)
    ensures Complete(files, dir) <==> ArtifactPaths(dir) <= files
  {
    if ArtifactPaths(dir) <= files {
      forall k | 0 <= k < |ARTIFACTS|
        ensures PathJoin(dir, ARTIFACTS[k]) in files
      {
        assert PathJoin(dir, ARTIFACTS[k]) in ArtifactPaths(dir);
      }
    }
  }

  /** The steps of `setup_model`, in the order it runs them. */
  datatype SetupStep = GenSettings | Calibrate | FixSettingsTypes | CompileCircuit | GetSrs | GenKeys

  /** A setup step that raises, with the message it raises. */
  datatype SetupFault = SetupFault(step: SetupStep, message: string)

  /**
   * The artifacts in `dir` that the steps before `step` have written: the
   * settings from the first step on, the compiled circuit once compiling is
   * done, the reference string once it is fetched.  No key is ever among them.
   */
  function WrittenBefore(step: SetupStep, dir: string): (w: set<string>)
    ensures w <= ArtifactPaths(dir)
    ensures PathJoin(dir, "pk.key") !in w && PathJoin(dir, "vk.key") !in w
    ensures step != GenSettings <==> PathJoin(dir, "settings.json") in w
  {
    var settings, circuit, srs := PathJoin(dir, ARTIFACTS[1]), PathJoin(dir, ARTIFACTS[0]), PathJoin(dir, ARTIFACTS[4]);
    match step
    case GenSettings => {}
    case Calibrate => {settings}
    case FixSettingsTypes => {settings}
    case CompileCircuit => {settings}
    case GetSrs => {settings, circuit}
    case GenKeys => {settings, circuit, srs}
  }

  /**
   * `setup_model`: the EZKL steps write the settings (then calibrate and
   * retype them in place), the compiled circuit, the reference string and
   * the two keys into the job's directory, one step after another.  A
   * failing step is reported as a 500 `HTTPException` "EZKL setup
   * failed: ..." and leaves behind what the earlier steps wrote.
   */
  method SetupModel(disk: Disk, proofDir: string, setupError: Option<SetupFault>) returns (r: Result<(), HttpError>)
    modifies disk
    ensures setupError.Some? ==>
      r == Failure(HttpError(INTERNAL_ERROR, "EZKL setup failed: " + setupError.value.message)) &&
      disk.files == old(disk.files) + WrittenBefore(setupError.value.step, proofDir)
    ensures setupError.None? ==> r.Success? && disk.files == old(disk.files) + ArtifactPaths(proofDir)
    ensures disk.dirs == old(disk.dirs)
  {
    var failed := if setupError.Some? then Failure(HttpError(INTERNAL_ERROR, "EZKL setup failed: " +
                                                                          setupError.value.message))
                  else Success(());
    if setupError.Some? && setupError.value.step == GenSettings {
      return failed;
    }
    disk.WriteFile(PathJoin(proofDir, "settings.json"));
    if setupError.Some? && setupError.value.step in {Calibrate, FixSettingsTypes, CompileCircuit} {
      return failed;
    }
    disk.WriteFile(PathJoin(proofDir, "network.ezkl"));
    if setupError.Some? && setupError.value.step == GetSrs {
      return failed;
    }
    disk.WriteFile(PathJoin(proofDir, "kzg.srs"));
    if setupError.Some? {
      return failed;
    }
    disk.WriteFile(PathJoin(proofDir, "vk.key"));
    disk.WriteFile(PathJoin(proofDir, "pk.key"));
    assert ArtifactPaths(proofDir) == {PathJoin(proofDir, ARTIFACTS[0]), PathJoin(proofDir, ARTIFACTS[1]),
      PathJoin(proofDir, ARTIFACTS[2]), PathJoin(proofDir, ARTIFACTS[3]), PathJoin(proofDir, ARTIFACTS[4])};
    r := Success(());
  }

  /**
   * A failed setup never completes a directory that had no proving key: the
   * files of the earlier steps stay, but the job cannot go on from them.
   */
  lemma FailedSetupLeavesIncomplete(files: set<string>, dir: string, step: SetupStep)
    requires PathJoin(dir, "pk.key") !in files
    ensures !Complete(files + WrittenBefore(step, dir), dir)
  {
    assert ARTIFACTS[2] == "pk.key";
  }

  /** Copying the cached artifacts into the job's directory. */
  method CopyCachedArtifacts(disk: Disk, cacheDir: string, proofDir: string)
    requires Complete(disk.files, cacheDir)
    modifies disk
    ensures disk.files == old(disk.files) + ArtifactPaths(proofDir) && disk.dirs == old(disk.dirs)
  {
    var k := 0;
    while k < |ARTIFACTS|
      invariant 0 <= k <= |ARTIFACTS|
      invariant disk.files == old(disk.files) + set j | 0 <= j < k :: PathJoin(proofDir, ARTIFACTS[j])
      invariant disk.dirs == old(disk.dirs)
    {
      if PathJoin(cacheDir, ARTIFACTS[k]) in disk.files {
        disk.WriteFile(PathJoin(proofDir, ARTIFACTS[k]));
      }
      k := k + 1;
    }
  }

  /** `str(500)`. */
  lemma ServerErrorText()
    ensures IntToString(INTERNAL_ERROR) == "500"
  {
    assert NatToString(5) == "5";
    assert NatToString(50) == NatToString(5) + ['0'];
    assert NatToString(500) == NatToString(50) + ['0'];
  }

  /** `str(e)` of the `HTTPException` a failed setup raises. */
  lemma SetupFailureText(e: string)
    ensures IntToString(INTERNAL_ERROR) + ": " + ("EZKL setup failed: " + e) == "500: EZKL setup failed: " + e
  {
    ServerErrorText();
    assert "500" + ": " + ("EZKL setup failed: " + e) == "500: EZKL setup failed: " + e;
  }

  /** The message `generate_proof` raises, around whatever went wrong inside. */
  function GenerationFailed(inner: string): string
  {
    "Proof generation failed: " + inner
  }

  /**
   * The first half of `generate_proof`: the model's cached setup artifacts
   * are copied into the job's directory if the cache is complete; otherwise
   * setup runs there and its artifacts are offered to the cache, a failure
   * there being ignored.  A setup failure comes back as the text of its
   * `HTTPException`, status code first.
   */
  method ProvideArtifacts(disk: Disk, proofsDir: string, jobId: int, modelHash: string,
                          setupError: Option<SetupFault>, copyFault: Option<nat>)
    returns (err: Option<string>, ranSetup: bool)
    modifies disk
    ensures ranSetup <==> !Complete(old(disk.files), CacheDir(proofsDir, modelHash))
    ensures err.Some? <==> ranSetup && setupError.Some?
    ensures err.Some? ==> err.value == "500: EZKL setup failed: " + setupError.value.message
    ensures err.None? ==> Complete(disk.files, JobDir(proofsDir, jobId))
    ensures err.None? && ranSetup && copyFault.None? && CacheDir(proofsDir, modelHash) !in old(disk.dirs) ==>
      Complete(disk.files, CacheDir(proofsDir, modelHash))
    ensures old(disk.files) <= disk.files && old(disk.dirs) <= disk.dirs
  {
    var dir := JobDir(proofsDir, jobId);
    var cached := GetCachedArtifacts(disk, proofsDir, modelHash);
    ranSetup := cached.None?;
    if cached.Some? {
      CopyCachedArtifacts(disk, cached.value, dir);
      CompleteIffArtifacts(disk.files, dir);
      return None, ranSetup;
    }
    var setup := SetupModel(disk, dir, setupError);
    if setup.Failure? {
      SetupFailureText(setupError.value.message);
      return Some(IntToString(setup.error.status) + ": " + setup.error.detail), ranSetup;
    }
    assert CacheDir(proofsDir, modelHash) != CacheRoot(proofsDir) by {
      assert |CacheDir(proofsDir, modelHash)| > |CacheRoot(proofsDir)|;
    }
    ghost var before := disk.files;
    CompleteIffArtifacts(before, dir);
    var _ := CacheSetupArtifacts(disk, proofsDir, jobId, modelHash, copyFault);
    if copyFault.None? && CacheDir(proofsDir, modelHash) !in old(disk.dirs) {
      FreshCacheCompletes(before, old(disk.dirs) + {CacheRoot(proofsDir)}, proofsDir, jobId, modelHash);
    }
    CompleteIffArtifacts(disk.files, dir);
    err := None;
  }

  /**
   * `generate_proof`: the setup artifacts are provided (from the cache or by
   * running setup), then the witness and the proof are generated.  Any
   * failure becomes the message "Proof generation failed: ...".
   */
  method GenerateProof(disk: Disk, proofsDir: string, jobId: int, modelHash: string,
                       setupError: Option<SetupFault>, copyFault: Option<nat>,
                       witnessError: Option<string>, proveError: Option<string>)
    returns (r: Result<(string, string), string>, ranSetup: bool)
    modifies disk
    ensures ranSetup <==> !Complete(old(disk.files), CacheDir(proofsDir, modelHash))
    ensures ranSetup && setupError.Some? ==>
      r == Failure(GenerationFailed("500: EZKL setup failed: " + setupError.value.message))
    ensures (!ranSetup || setupError.None?) && witnessError.Some? ==> r == Failure(GenerationFailed(witnessError.value))
    ensures (!ranSetup || setupError.None?) && witnessError.None? && proveError.Some? ==>
      r == Failure(GenerationFailed(proveError.value))
    ensures r.Success? <==> (!ranSetup || setupError.None?) && witnessError.None? && proveError.None?
    ensures r.Success? ==>
      var dir := JobDir(proofsDir, jobId);
      r.value == (PathJoin(dir, "proof.json"), PathJoin(dir, "witness.json")) &&
      r.value.0 in disk.files && r.value.1 in disk.files && Complete(disk.files, dir)
    ensures r.Success? && ranSetup && copyFault.None? && CacheDir(proofsDir, modelHash) !in old(disk.dirs) ==>
      Complete(disk.files, CacheDir(proofsDir, modelHash))
    ensures old(disk.files) <= disk.files && old(disk.dirs) <= disk.dirs
  {
    var dir := JobDir(proofsDir, jobId);
    var err;
    err, ranSetup := ProvideArtifacts(disk, proofsDir, jobId, modelHash, setupError, copyFault);
    if err.Some? {
      return Failure(GenerationFailed(err.value)), ranSetup;
    }
    if witnessError.Some? {
      return Failure(GenerationFailed(witnessError.value)), ranSetup;
    }
    disk.WriteFile(PathJoin(dir, "witness.json"));
    if proveError.Some? {
      return Failure(GenerationFailed(proveError.value)), ranSetup;
    }
    disk.WriteFile(PathJoin(dir, "proof.json"));
    r := Success((PathJoin(dir, "proof.json"), PathJoin(dir, "witness.json")));
  }

  /**
   * `verify_proof`: EZKL's answer, or its failure re-raised as "Proof
   * verification failed: ...".
   */
  function VerifyProof(outcome: Result<bool, string>): (r: Result<bool, string>)
    ensures outcome.Success? ==> r == outcome
    ensures outcome.Failure? ==> r == Failure("Proof verification failed: " + outcome.error)
  {
    match outcome
    case Success(valid) => Success(valid)
    case Failure(e) => Failure("Proof verification failed: " + e)
  }
}
