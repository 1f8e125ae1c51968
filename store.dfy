/**
 * `Store`: the rows of the backend's database tables, the tables themselves as
 * objects whose row sequences the services replace, and the few queries the
 * services issue against them (first row matching a condition, all rows
 * matching a condition).  SQL sessions and commits are atomic updates here.
 */
module Store {
  import opened Common

  /** `UserRole`. */
  datatype UserRole = USER | MODEL_PROVIDER | VERIFIER | ADMIN

  /** A row of the users table. */
  datatype User = User(
    id: int,
    email: string,
    username: string,
    hashedPassword: string,
    role: UserRole,
    isActive: bool,
    isVerified: bool,
    apiKeyHash: Option<string>)

  /** A row of the model registry. */
  datatype ModelRecord = ModelRecord(
    id: int,
    name: string,
    description: Option<string>,
    ownerId: int,
    version: string,
    modelType: string,
    modelHash: string,
    merkleRoot: Option<string>,
    sizeBytes: int,
    storagePath: string,
    isPublic: bool,
    createdAt: int)

  /** `ProofStatus`. */
  datatype ProofStatus = PENDING | PROCESSING | COMPLETED | FAILED

  /** A row of the proof-job table; times are clock readings. */
  datatype ProofJob = ProofJob(
    id: int,
    userId: int,
    modelId: int,
    inputDataHash: string,
    status: ProofStatus,
    inputDataPath: Option<string>,
    proofPath: Option<string>,
    witnessPath: Option<string>,
    settingsPath: Option<string>,
    taskId: Option<string>,
    errorMessage: Option<string>,
    startedAt: Option<int>,
    completedAt: Option<int>,
    createdAt: int)

  /** A row of the verification table. */
  datatype Verification = Verification(
    id: int,
    proofJobId: int,
    modelId: int,
    verifierId: int,
    isValid: bool,
    verificationMethod: string)

  /** `Path(dir) / name`. */
  function PathJoin(dir: string, name: string): string
  {
    dir + "/" + name
  }

  // ---------------------------------------------------------------------------
  // Queries

  /**
   * The index of the first row satisfying `p`, or -1: `scalar_one_or_none` and
   * `.first()` over a table whose rows are in insertion order.
   */
  function FirstIndex<T>(rows: seq<T>, p: T -> bool): (i: int)
    ensures -1 <= i < |rows|
    ensures i >= 0 ==> p(rows[i]) && forall k :: 0 <= k < i ==> !p(rows[k])
    ensures i == -1 <==> forall k :: 0 <= k < |rows| ==> !p(rows[k])
  {
    if rows == [] then -1
    else if p(rows[0]) then 0
    else
      var j := FirstIndex(rows[1..], p);
      if j == -1 then -1 else j + 1
  }

  /** The first row satisfying `p`, if any. */
  function First<T>(rows: seq<T>, p: T -> bool): (r: Option<T>)
    ensures r.None? <==> forall k :: 0 <= k < |rows| ==> !p(rows[k])
    ensures r.Some? ==> r.value in rows && p(r.value)
  {
    var i := FirstIndex(rows, p);
    if i == -1 then None else Some(rows[i])
  }

  /** The rows satisfying `p`, in table order: a `WHERE` clause. */
  function Filter<T(!new)>(rows: seq<T>, p: T -> bool): (r: seq<T>)
    ensures |r| <= |rows|
    ensures forall x :: x in r <==> x in rows && p(x)
  {
    if rows == [] then []
    else if p(rows[0]) then [rows[0]] + Filter(rows[1..], p)
    else Filter(rows[1..], p)
  }

  /** The rows in reverse order. */
  function Reverse<T>(s: seq<T>): (r: seq<T>)
    ensures |r| == |s|
    ensures forall k :: 0 <= k < |s| ==> r[k] == s[|s| - 1 - k]
  {
    if s == [] then [] else Reverse(s[1..]) + [s[0]]
  }

  /** `OFFSET skip LIMIT limit`. */
  function Page<T>(s: seq<T>, skip: nat, limit: nat): (r: seq<T>)
    ensures |r| == if skip >= |s| then 0 else if |s| - skip < limit then |s| - skip else limit
    ensures forall k :: 0 <= k < |r| ==> r[k] == s[skip + k]
  {
    if skip >= |s| then []
    else if |s| - skip < limit then s[skip..]
    else s[skip..skip + limit]
  }

  /**
   * `ORDER BY created_at DESC OFFSET skip LIMIT limit` over rows `s` kept in
   * creation order: `page` holds the rows from position `skip` counted from
   * the newest, at most `limit` of them, and no others.
   */
  predicate NewestFirstPage<T(==)>(page: seq<T>, s: seq<T>, skip: nat, limit: nat)
  {
    |page| == (if skip >= |s| then 0 else if |s| - skip < limit then |s| - skip else limit) &&
    forall k :: 0 <= k < |page| ==> page[k] == s[|s| - 1 - (skip + k)]
  }

  /** Two consecutive pages of the same size make up the page twice as long. */
  lemma PagesConcatenate<T>(s: seq<T>, skip: nat, limit: nat)
    ensures Page(s, skip, limit) + Page(s, skip + limit, limit) == Page(s, skip, 2 * limit)
  {
    var a, b, c := Page(s, skip, limit), Page(s, skip + limit, limit), Page(s, skip, 2 * limit);
    assert |a + b| == |c|;
    forall k | 0 <= k < |c|
      ensures (a + b)[k] == c[k]
    {
      if k >= |a| {
        assert (a + b)[k] == b[k - |a|];
      }
    }
  }

  /** `select(User).where(User.id == id)`: the row's index, or -1. */
  function UserIndexById(rows: seq<User>, id: int): (i: int)
    ensures -1 <= i < |rows|
    ensures i >= 0 ==> rows[i].id == id && forall k :: 0 <= k < i ==> rows[k].id != id
    ensures i == -1 <==> forall k :: 0 <= k < |rows| ==> rows[k].id != id
  {
    FirstIndex(rows, (u: User) => u.id == id)
  }

  /** The text columns of the users table that requests look rows up by. */
  datatype UserColumn = EmailColumn | UsernameColumn

  function ColumnValue(u: User, c: UserColumn): string
  {
    match c
    case EmailColumn => u.email
    case UsernameColumn => u.username
  }

  /** `select(User).where(column == value)`: the first row holding `value` there, if any. */
  function UserWhere(rows: seq<User>, c: UserColumn, value: string): (r: Option<User>)
    ensures r.None? <==> forall k :: 0 <= k < |rows| ==> ColumnValue(rows[k], c) != value
    ensures r.Some? ==> r.value in rows && ColumnValue(r.value, c) == value
  {
    First(rows, (u: User) => ColumnValue(u, c) == value)
  }

  /** `select(ModelRegistry).where(ModelRegistry.id == id)`. */
  function ModelIndexById(rows: seq<ModelRecord>, id: int): (i: int)
    ensures -1 <= i < |rows|
    ensures i >= 0 ==> rows[i].id == id && forall k :: 0 <= k < i ==> rows[k].id != id
    ensures i == -1 <==> forall k :: 0 <= k < |rows| ==> rows[k].id != id
  {
    FirstIndex(rows, (m: ModelRecord) => m.id == id)
  }

  /** `select(ProofJob).where(ProofJob.id == id)`. */
  function JobIndexById(rows: seq<ProofJob>, id: int): (i: int)
    ensures -1 <= i < |rows|
    ensures i >= 0 ==> rows[i].id == id && forall k :: 0 <= k < i ==> rows[k].id != id
    ensures i == -1 <==> forall k :: 0 <= k < |rows| ==> rows[k].id != id
  {
    FirstIndex(rows, (j: ProofJob) => j.id == id)
  }

  // ---------------------------------------------------------------------------
  // Tables

  /** Users: positive ids below the next id; ids, emails and usernames unique (database constraints). */
  predicate UserRowsValid(rows: seq<User>, nextId: int)
  {
    0 < nextId &&
    (forall i :: 0 <= i < |rows| ==> 0 < rows[i].id < nextId) &&
    (forall i, j :: 0 <= i < j < |rows| ==>
      rows[i].id != rows[j].id && rows[i].email != rows[j].email && rows[i].username != rows[j].username)
  }

  /** Models: positive ids below the next id, unique; creation times in insertion order. */
  predicate ModelRowsValid(rows: seq<ModelRecord>, nextId: int)
  {
    0 < nextId &&
    (forall i :: 0 <= i < |rows| ==> 0 < rows[i].id < nextId) &&
    (forall i, j :: 0 <= i < j < |rows| ==> rows[i].id != rows[j].id) &&
    (forall i, j :: 0 <= i < j < |rows| ==> rows[i].createdAt <= rows[j].createdAt)
  }

  /** Proof jobs: positive ids below the next id, unique; creation times in insertion order. */
  predicate JobRowsValid(rows: seq<ProofJob>, nextId: int)
  {
    0 < nextId &&
    (forall i :: 0 <= i < |rows| ==> 0 < rows[i].id < nextId) &&
    (forall i, j :: 0 <= i < j < |rows| ==> rows[i].id != rows[j].id) &&
    (forall i, j :: 0 <= i < j < |rows| ==> rows[i].createdAt <= rows[j].createdAt)
  }

  /** Verifications: positive ids below the next id, unique. */
  predicate VerificationRowsValid(rows: seq<Verification>, nextId: int)
  {
    0 < nextId &&
    (forall i :: 0 <= i < |rows| ==> 0 < rows[i].id < nextId) &&
    (forall i, j :: 0 <= i < j < |rows| ==> rows[i].id != rows[j].id)
  }

  /** The users table. */
  class UserTable {
    var rows: seq<User>
    var nextId: int

    predicate Valid()
      reads this
    {
      UserRowsValid(rows, nextId)
    }

    constructor ()
      ensures Valid() && rows == [] && nextId == 1
    {
      rows := [];
      nextId := 1;
    }
  }

  /** The model registry table. */
  class ModelTable {
    var rows: seq<ModelRecord>
    var nextId: int

    predicate Valid()
      reads this
    {
      ModelRowsValid(rows, nextId)
    }

    constructor ()
      ensures Valid() && rows == [] && nextId == 1
    {
      rows := [];
      nextId := 1;
    }
  }

  /** The proof-job table. */
  class JobTable {
    var rows: seq<ProofJob>
    var nextId: int

    predicate Valid()
      reads this
    {
      JobRowsValid(rows, nextId)
    }

    constructor ()
      ensures Valid() && rows == [] && nextId == 1
    {
      rows := [];
      nextId := 1;
    }
  }

  /** The verification table. */
  class VerificationTable {
    var rows: seq<Verification>
    var nextId: int

    predicate Valid()
      reads this
    {
      VerificationRowsValid(rows, nextId)
    }

    constructor ()
      ensures Valid() && rows == [] && nextId == 1
    {
      rows := [];
      nextId := 1;
    }
  }

  /** `Path(p).parent` for a path with a separator; "." for a bare name. */
  function Parent(p: string): string
  {
    var i := LastIndexOf(p, '/');
    if i >= 0 then p[..i] else "."
  }

  /** The parent of `dir / name` is `dir` when `name` is a single component. */
  lemma ParentOfJoin(dir: string, name: string)
    requires '/' !in name
    ensures Parent(PathJoin(dir, name)) == dir
  {
    var p := PathJoin(dir, name);
    assert p[|dir|] == '/';
    assert forall k :: |dir| < k < |p| ==> p[k] == name[k - |dir| - 1];
    assert p[..|dir|] == dir;
  }

  /** `p` lies strictly inside the directory `d`. */
  predicate Below(p: string, d: string)
  {
    StartsWith(p, d + "/")
  }

  /** Where `p`, below `src`, lands when `src` is moved to `dst`. */
  function Moved(p: string, src: string, dst: string): string
    requires Below(p, src)
  {
    dst + p[|src|..]
  }

  /** A proof job's working directory: `EZKL_PROOFS_DIR / str(job_id)`. */
  function JobDir(proofsDir: string, jobId: int): string
  {
    PathJoin(proofsDir, IntToString(jobId))
  }

  /** Distinct jobs have distinct directories, and neither lies inside the other. */
  lemma JobDirsApart(proofsDir: string, a: int, b: int)
    requires a != b
    ensures JobDir(proofsDir, a) != JobDir(proofsDir, b)
    ensures !Below(JobDir(proofsDir, a), JobDir(proofsDir, b))
  {
    NoSeparatorInNumber(a);
    IntStringRoundTrip(a);
    IntStringRoundTrip(b);
    var n := |proofsDir| + 1;
    assert JobDir(proofsDir, a)[n..] == IntToString(a);
    assert JobDir(proofsDir, b)[n..] == IntToString(b);
    NotBelowSibling(proofsDir, IntToString(a), IntToString(b));
  }

  /** `d/x` is not inside `d/y` when `x` is a single component. */
  lemma NotBelowSibling(d: string, x: string, y: string)
    requires '/' !in x
    ensures !Below(PathJoin(d, x), PathJoin(d, y))
  {
    var p, pre := PathJoin(d, x), PathJoin(d, y) + "/";
    var k := |d| + 1 + |y|;
    if |pre| <= |p| {
      assert p[k] == x[|y|];
      assert pre[k] == '/';
      assert p[..|pre|][k] != pre[k];
    }
  }

  /** Nothing inside one job's directory is inside another's, or is that directory. */
  lemma BelowOneJobDir(proofsDir: string, a: int, b: int, p: string)
    requires a != b && Below(p, JobDir(proofsDir, a))
    ensures !Below(p, JobDir(proofsDir, b)) && p != JobDir(proofsDir, b)
  {
    var sa, sb := IntToString(a), IntToString(b);
    NoSeparatorInNumber(a);
    NoSeparatorInNumber(b);
    var n := |proofsDir| + 1;
    var q := p[n..];
    assert p[..|JobDir(proofsDir, a)| + 1] == JobDir(proofsDir, a) + "/";
    assert StartsWith(q, sa + "/") by {
      assert q[..|sa| + 1] == (JobDir(proofsDir, a) + "/")[n..];
    }
    if Below(p, JobDir(proofsDir, b)) {
      assert p[..|JobDir(proofsDir, b)| + 1] == JobDir(proofsDir, b) + "/";
      assert StartsWith(q, sb + "/") by {
        assert q[..|sb| + 1] == (JobDir(proofsDir, b) + "/")[n..];
      }
      SameFirstComponent(q, sa, sb);
      IntStringRoundTrip(a);
      IntStringRoundTrip(b);
    }
    NotBelowSibling(proofsDir, sb, sa);
  }

  /** Two single components that both begin `q`, each followed by a separator, are the same. */
  lemma SameFirstComponent(q: string, x: string, y: string)
    requires '/' !in x && '/' !in y
    requires StartsWith(q, x + "/") && StartsWith(q, y + "/")
    ensures x == y
  {
    assert q[|x|] == '/' && q[|y|] == '/';
    if |x| == |y| {
      assert x == q[..|x|] == y;
    }
  }

  /** `str(n)` contains no path separator. */
  lemma NoSeparatorInNumber(n: int)
    ensures '/' !in IntToString(n) && IntToString(n) != []
  {
    IntStringShape(n);
  }

  /** No file and no directory of these sets lies directly inside `d`. */
  predicate NothingIn(files: set<string>, dirs: set<string>, d: string)
  {
    (forall p :: p in files ==> Parent(p) != d) && (forall q :: q in dirs ==> Parent(q) != d)
  }

  /** The filesystem: the paths of existing files and of existing directories. */
  class Disk {
    var files: set<string>
    var dirs: set<string>

    constructor (files: set<string>, dirs: set<string>)
      ensures this.files == files && this.dirs == dirs
    {
      this.files := files;
      this.dirs := dirs;
    }

    /** Nothing lies directly inside `d`. */
    predicate IsEmptyDir(d: string)
      reads this
    {
      NothingIn(files, dirs, d)
    }

    /** `mkdir(parents=True, exist_ok=True)`: the directory exists afterwards. */
    method MakeDir(d: string)
      modifies this
      ensures dirs == old(dirs) + {d} && files == old(files)
    {
      dirs := dirs + {d};
    }

    /** Writing (or copying to) a file. */
    method WriteFile(p: string)
      modifies this
      ensures files == old(files) + {p} && dirs == old(dirs)
    {
      files := files + {p};
    }

    /** `os.remove`, its error ignored. */
    method RemoveFile(p: string)
      modifies this
      ensures files == old(files) - {p} && dirs == old(dirs)
    {
      files := files - {p};
    }

    /** `Path(d).rmdir()`, its error ignored: only an empty directory goes. */
    method RemoveDirIfEmpty(d: string)
      modifies this
      ensures files == old(files)
      ensures dirs == if old(IsEmptyDir(d)) then old(dirs) - {d} else old(dirs)
    {
      if IsEmptyDir(d) {
        dirs := dirs - {d};
      }
    }

    /** `shutil.move(src, dst)` of a directory onto a path that does not exist: everything below `src` now lies below `dst`. */
    method MoveDir(src: string, dst: string)
      modifies this
      ensures files == (set p | p in old(files) && !Below(p, src)) + (set p | p in old(files) && Below(p, src) :: Moved(p, src, dst))
      ensures dirs == (set q | q in old(dirs) && q != src && !Below(q, src)) + {dst} +
                      (set q | q in old(dirs) && Below(q, src) :: Moved(q, src, dst))
    {
      files := (set p | p in files && !Below(p, src)) + (set p | p in files && Below(p, src) :: Moved(p, src, dst));
      dirs := (set q | q in dirs && q != src && !Below(q, src)) + {dst} +
              (set q | q in dirs && Below(q, src) :: Moved(q, src, dst));
    }

    /** `shutil.rmtree(d)`: the directory and everything below it. */
    method RemoveTree(d: string)
      modifies this
      ensures files == set p | p in old(files) && !Below(p, d)
      ensures dirs == set q | q in old(dirs) && q != d && !Below(q, d)
    {
      files := set p | p in files && !Below(p, d);
      dirs := set q | q in dirs && q != d && !Below(q, d);
    }
  }
}
