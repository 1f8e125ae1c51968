/**
 * `ProofCache`: the setup artifacts of a model (compiled circuit, settings,
 * keys, reference string) copied from a finished job's directory into
 * `EZKL_PROOFS_DIR/_cache/<model_hash>`, and looked up there by later jobs.
 */
module ProofCache {
  import opened Common
  import opened Store
  import Crypto

  /** The five files a proof needs besides the witness, in the order they are copied. */
  const ARTIFACTS: seq<string> := ["network.ezkl", "settings.json", "pk.key", "vk.key", "kzg.srs"]

  /** `get_model_cache_key`: the first 16 characters of the hash of `"{model_hash}_{input_hash}"`. */
  function GetModelCacheKey(h: Crypto.TextHash, modelHash: string, inputHash: string): (key: string)
    ensures key <= h(modelHash + "_" + inputHash)
    ensures |key| == if |h(modelHash + "_" + inputHash)| < 16 then |h(modelHash + "_" + inputHash)| else 16
  {
    Take(h(modelHash + "_" + inputHash), 16)
  }

  /**
   * The hashed text determines the pair when the model hash has no
   * underscore (a hex digest has none); otherwise two pairs can share it.
   */
  lemma CacheKeyTextUnambiguous(m1: string, i1: string, m2: string, i2: string)
    requires '_' !in m1 && '_' !in m2
    requires m1 + "_" + i1 == m2 + "_" + i2
    ensures m1 == m2 && i1 == i2
  {
    var t := m1 + "_" + i1;
    assert t[|m1|] == '_' && t[|m2|] == '_';
    if |m1| == |m2| {
      assert m1 == t[..|m1|] == m2;
      assert i1 == t[|m1| + 1..] == i2;
    }
  }

  lemma CacheKeyAmbiguousWithUnderscore(h: Crypto.TextHash)
    ensures GetModelCacheKey(h, "a_b", "c") == GetModelCacheKey(h, "a", "b_c")
  {
    assert "a_b" + "_" + "c" == "a" + "_" + "b_c";
  }

  /** `get_cache_dir()`. */
  function CacheRoot(proofsDir: string): string
  {
    PathJoin(proofsDir, "_cache")
  }

  /** `get_cache_dir() / model_hash`. */
  function CacheDir(proofsDir: string, modelHash: string): string
  {
    PathJoin(CacheRoot(proofsDir), modelHash)
  }

  /** Every artifact is present in `dir`. */
  predicate Complete(files: set<string>, dir: string)
  {
    forall k :: 0 <= k < |ARTIFACTS| ==> PathJoin(dir, ARTIFACTS[k]) in files
  }

  /** `get_cache_dir`: `_cache` is created (its parent must exist) and returned. */
  method GetCacheDir(disk: Disk, proofsDir: string) returns (dir: string)
    modifies disk
    ensures dir == CacheRoot(proofsDir)
    ensures disk.files == old(disk.files) && disk.dirs == old(disk.dirs) + {dir}
  {
    dir := CacheRoot(proofsDir);
    disk.MakeDir(dir);
  }

  /** `get_cached_artifacts`: the model's cache directory when all five artifacts are in it. */
  method GetCachedArtifacts(disk: Disk, proofsDir: string, modelHash: string) returns (r: Option<string>)
    modifies disk
    ensures r == if Complete(old(disk.files), CacheDir(proofsDir, modelHash))
                 then Some(CacheDir(proofsDir, modelHash)) else None
    ensures disk.files == old(disk.files) && disk.dirs == old(disk.dirs) + {CacheRoot(proofsDir)}
  {
    var root := GetCacheDir(disk, proofsDir);
    var dir := PathJoin(root, modelHash);
    var k := 0;
    while k < |ARTIFACTS|
      invariant 0 <= k <= |ARTIFACTS|
      invariant forall j :: 0 <= j < k ==> PathJoin(dir, ARTIFACTS[j]) in disk.files
    {
      if PathJoin(dir, ARTIFACTS[k]) !in disk.files {
        return None;
      }
      k := k + 1;
    }
    r := Some(dir);
  }

  /** The cache files made by copying the first `n` artifacts that exist in `src` into `dst`. */
  function Copied(files: set<string>, src: string, dst: string, n: nat): (r: set<string>)
    requires n <= |ARTIFACTS|
    ensures forall k :: 0 <= k < n && PathJoin(src, ARTIFACTS[k]) in files ==> PathJoin(dst, ARTIFACTS[k]) in r
  {
    if n == 0 then {}
    else
      var a := ARTIFACTS[n - 1];
      Copied(files, src, dst, n - 1) + (if PathJoin(src, a) in files then {PathJoin(dst, a)} else {})
  }

  /** Copying one more artifact adds its copy exactly when the source has it. */
  lemma CopiedStep(files0: set<string>, src: string, dst: string, k: nat, current: set<string>)
    requires k < |ARTIFACTS| && current == files0 + Copied(files0, src, dst, k)
    ensures files0 + Copied(files0, src, dst, k + 1) ==
      if PathJoin(src, ARTIFACTS[k]) in files0 then current + {PathJoin(dst, ARTIFACTS[k])} else current
  {
  }

  /** Nothing but a copy of one of the first `n` artifacts that `src` has is made. */
  lemma {:induction false} CopiedOnlyArtifacts(files: set<string>, src: string, dst: string, n: nat, p: string)
    requires n <= |ARTIFACTS| && p in Copied(files, src, dst, n)
    ensures exists k :: 0 <= k < n && PathJoin(src, ARTIFACTS[k]) in files && p == PathJoin(dst, ARTIFACTS[k])
  {
    if p !in Copied(files, src, dst, n - 1) {
      assert p == PathJoin(dst, ARTIFACTS[n - 1]);
    } else {
      CopiedOnlyArtifacts(files, src, dst, n - 1, p);
    }
  }

  /**
   * How far `cache_setup_artifacts` gets: `copyFault` is the position of an
   * artifact whose copy raises; it stops there if that artifact exists.
   */
  function CopyStop(files: set<string>, src: string, copyFault: Option<nat>): (n: nat)
    ensures n <= |ARTIFACTS|
  {
    if copyFault.Some? && copyFault.value < |ARTIFACTS| && PathJoin(src, ARTIFACTS[copyFault.value]) in files
    then copyFault.value else |ARTIFACTS|
  }

  /**
   * The filesystem after `cache_setup_artifacts(job_id, model_hash)`: nothing
   * more than `_cache` if the model's cache directory already exists,
   * otherwise that directory and a copy of each artifact the job left, up to
   * a failing copy.
   */
  function CacheAfter(files: set<string>, dirs: set<string>, proofsDir: string, jobId: int, modelHash: string,
                      copyFault: Option<nat>): (set<string>, set<string>)
  {
    var dst := CacheDir(proofsDir, modelHash);
    var src := JobDir(proofsDir, jobId);
    if dst in dirs then (files, dirs + {CacheRoot(proofsDir)})
    else (files + Copied(files, src, dst, CopyStop(files, src, copyFault)), dirs + {CacheRoot(proofsDir), dst})
  }

  /**
   * Offering a job's artifacts a second time changes nothing: the first
   * offer left the model's cache directory in place, so the second stops
   * there, whatever its copies would do.
   */
  lemma CacheIdempotent(files: set<string>, dirs: set<string>, proofsDir: string, jobId: int, modelHash: string,
                        copyFault: Option<nat>, laterFault: Option<nat>)
    ensures var (files', dirs') := CacheAfter(files, dirs, proofsDir, jobId, modelHash, copyFault);
      CacheAfter(files', dirs', proofsDir, jobId, modelHash, laterFault) == (files', dirs')
  {
    var (files', dirs') := CacheAfter(files, dirs, proofsDir, jobId, modelHash, copyFault);
    assert CacheDir(proofsDir, modelHash) in dirs' && CacheRoot(proofsDir) in dirs';
    assert dirs' + {CacheRoot(proofsDir)} == dirs';
  }

  /**
   * `cache_setup_artifacts`: returns whether it ran to the end; `false` is the
   * exception a failing copy raises.
   */
  method CacheSetupArtifacts(disk: Disk, proofsDir: string, jobId: int, modelHash: string, copyFault: Option<nat>)
    returns (finished: bool)
    modifies disk
    ensures (disk.files, disk.dirs) ==
      CacheAfter(old(disk.files), old(disk.dirs), proofsDir, jobId, modelHash, copyFault)
    ensures finished <==>
      CacheDir(proofsDir, modelHash) in old(disk.dirs) ||
      CopyStop(old(disk.files), JobDir(proofsDir, jobId), copyFault) == |ARTIFACTS|
  {
    var src := JobDir(proofsDir, jobId);
    var root := GetCacheDir(disk, proofsDir);
    var dst := PathJoin(root, modelHash);
    assert |dst| > |root|;
    if dst in disk.dirs {
      return true;
    }
    disk.MakeDir(dst);
    CacheApartFromJob(proofsDir, jobId, modelHash);
    finished := CopyArtifacts(disk, src, dst, copyFault);
    assert disk.dirs == old(disk.dirs) + {root, dst};
    assert disk.files == old(disk.files) + Copied(old(disk.files), src, dst, CopyStop(old(disk.files), src, copyFault));
  }

  /**
   * The copy loop of `cache_setup_artifacts`: each artifact `src` has is
   * copied into `dst`, in order, until a copy fails.
   */
  method CopyArtifacts(disk: Disk, src: string, dst: string, copyFault: Option<nat>) returns (finished: bool)
    requires forall k, j :: 0 <= k < |ARTIFACTS| && 0 <= j < |ARTIFACTS| ==>
      PathJoin(src, ARTIFACTS[k]) != PathJoin(dst, ARTIFACTS[j])
    modifies disk
    ensures disk.files == old(disk.files) + Copied(old(disk.files), src, dst, CopyStop(old(disk.files), src, copyFault))
    ensures disk.dirs == old(disk.dirs)
    ensures finished <==> CopyStop(old(disk.files), src, copyFault) == |ARTIFACTS|
  {
    ghost var files0 := disk.files;
    var k := 0;
    while k < |ARTIFACTS|
      invariant 0 <= k <= |ARTIFACTS|
      invariant k <= CopyStop(files0, src, copyFault)
      invariant disk.files == files0 + Copied(files0, src, dst, k)
      invariant disk.dirs == old(disk.dirs)
    {
      var failed := CopyOne(disk, src, dst, k, copyFault, files0);
      if failed {
        return false;
      }
      k := k + 1;
    }
    finished := true;
  }

  /**
   * One turn of the copy loop: artifact `k` is copied if `src` has it, and
   * the copy fails when `copyFault` names it.
   */
  method CopyOne(disk: Disk, src: string, dst: string, k: nat, copyFault: Option<nat>, ghost files0: set<string>)
    returns (failed: bool)
    requires k < |ARTIFACTS| && disk.files == files0 + Copied(files0, src, dst, k)
    requires forall k, j :: 0 <= k < |ARTIFACTS| && 0 <= j < |ARTIFACTS| ==>
      PathJoin(src, ARTIFACTS[k]) != PathJoin(dst, ARTIFACTS[j])
    modifies disk
    ensures failed <==> copyFault == Some(k) && PathJoin(src, ARTIFACTS[k]) in files0
    ensures failed ==> disk.files == old(disk.files)
    ensures !failed ==> disk.files == files0 + Copied(files0, src, dst, k + 1)
    ensures disk.dirs == old(disk.dirs)
  {
    var a := ARTIFACTS[k];
    CopiedStep(files0, src, dst, k, disk.files);
    if PathJoin(src, a) in Copied(files0, src, dst, k) {
      CopiedOnlyArtifacts(files0, src, dst, k, PathJoin(src, a));
    }
    if PathJoin(src, a) in disk.files {
      if copyFault == Some(k) {
        return true;
      }
      disk.WriteFile(PathJoin(dst, a));
    }
    failed := false;
  }

  /** No artifact path in the model's cache directory is one in a job's directory. */
  lemma CacheApartFromJob(proofsDir: string, jobId: int, modelHash: string)
    ensures forall k, j :: 0 <= k < |ARTIFACTS| && 0 <= j < |ARTIFACTS| ==>
      PathJoin(JobDir(proofsDir, jobId), ARTIFACTS[k]) != PathJoin(CacheDir(proofsDir, modelHash), ARTIFACTS[j])
  {
    forall k | 0 <= k < |ARTIFACTS|
      ensures forall j :: 0 <= j < |ARTIFACTS| ==>
        PathJoin(JobDir(proofsDir, jobId), ARTIFACTS[k]) != PathJoin(CacheDir(proofsDir, modelHash), ARTIFACTS[j])
    {
      CacheIsNotJobDir(proofsDir, jobId, modelHash, k);
    }
  }

  /** No copy into the cache lands on a job's own artifact, so copying never changes what is copied. */
  lemma CacheIsNotJobDir(proofsDir: string, jobId: int, modelHash: string, k: int)
    requires 0 <= k < |ARTIFACTS|
    ensures forall j :: 0 <= j < |ARTIFACTS| ==>
      PathJoin(JobDir(proofsDir, jobId), ARTIFACTS[k]) != PathJoin(CacheDir(proofsDir, modelHash), ARTIFACTS[j])
  {
    var src, dst := JobDir(proofsDir, jobId), CacheDir(proofsDir, modelHash);
    NoSeparatorInNumber(jobId);
    IntStringShape(jobId);
    var n := |proofsDir| + 1;
    assert src[n] == IntToString(jobId)[0];
    assert dst[n] == '_';
    forall j | 0 <= j < |ARTIFACTS|
      ensures PathJoin(src, ARTIFACTS[k]) != PathJoin(dst, ARTIFACTS[j])
    {
      ParentOfJoin(src, ARTIFACTS[k]);
      ParentOfJoin(dst, ARTIFACTS[j]);
    }
  }

  /**
   * Once the model's cache directory exists without all five artifacts, no
   * later call completes it: the existence check returns early, so the cache
   * is never used for that model.
   */
  lemma PartialCacheStaysPartial(files: set<string>, dirs: set<string>, proofsDir: string, jobId: int,
                                 modelHash: string, copyFault: Option<nat>)
    requires CacheDir(proofsDir, modelHash) in dirs && !Complete(files, CacheDir(proofsDir, modelHash))
    ensures var (files', dirs') := CacheAfter(files, dirs, proofsDir, jobId, modelHash, copyFault);
      CacheDir(proofsDir, modelHash) in dirs' && !Complete(files', CacheDir(proofsDir, modelHash))
  {
  }

  /** A job that left all five artifacts fills an absent cache, when no copy fails. */
  lemma FreshCacheCompletes(files: set<string>, dirs: set<string>, proofsDir: string, jobId: int, modelHash: string)
    requires CacheDir(proofsDir, modelHash) !in dirs && Complete(files, JobDir(proofsDir, jobId))
    ensures Complete(CacheAfter(files, dirs, proofsDir, jobId, modelHash, None).0, CacheDir(proofsDir, modelHash))
  {
  }

  /**
   * A failing copy of an artifact the job has leaves the new cache directory
   * without that artifact, and so (with `PartialCacheStaysPartial`) unusable
   * for good.
   */
  lemma FailedCopyLeavesCachePartial(files: set<string>, dirs: set<string>, proofsDir: string, jobId: int,
                                     modelHash: string, k: nat)
    requires CacheDir(proofsDir, modelHash) !in dirs
    requires forall j :: 0 <= j < |ARTIFACTS| ==> PathJoin(CacheDir(proofsDir, modelHash), ARTIFACTS[j]) !in files
    requires k < |ARTIFACTS| && PathJoin(JobDir(proofsDir, jobId), ARTIFACTS[k]) in files
    ensures var (files', dirs') := CacheAfter(files, dirs, proofsDir, jobId, modelHash, Some(k));
      CacheDir(proofsDir, modelHash) in dirs' && !Complete(files', CacheDir(proofsDir, modelHash))
  {
    var dst := CacheDir(proofsDir, modelHash);
    var missing := PathJoin(dst, ARTIFACTS[k]);
    var copied := Copied(files, JobDir(proofsDir, jobId), dst, k);
    forall p | p in copied
      ensures p != missing
    {
      CopiedOnlyArtifacts(files, JobDir(proofsDir, jobId), dst, k, p);
      var j :| 0 <= j < k && p == PathJoin(dst, ARTIFACTS[j]);
      ArtifactNamesDistinct(dst, j, k);
    }
  }

  /** Different artifacts have different paths in the same directory. */
  lemma ArtifactNamesDistinct(dir: string, j: int, k: int)
    requires 0 <= j < |ARTIFACTS| && 0 <= k < |ARTIFACTS| && j != k
    ensures PathJoin(dir, ARTIFACTS[j]) != PathJoin(dir, ARTIFACTS[k])
  {
    assert ARTIFACTS[j] != ARTIFACTS[k];
    assert PathJoin(dir, ARTIFACTS[j])[|dir| + 1..] == ARTIFACTS[j];
    assert PathJoin(dir, ARTIFACTS[k])[|dir| + 1..] == ARTIFACTS[k];
  }
}
