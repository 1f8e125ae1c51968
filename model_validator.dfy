/**
 * `ModelValidator`: the file-name, size and per-type checks an uploaded model
 * file must pass.  Checking an ONNX graph is done by the onnx library and is a
 * parameter here: its verdict is handed in.
 */
module ModelValidator {
  import opened Common

  /** `MAX_FILE_SIZE`: 5 GiB. */
  const MAX_FILE_SIZE: int := 5 * 1024 * 1024 * 1024

  const EMPTY_FILE := "File is empty"

  /** The size message: the limit divided by 1024**3 prints as the float `5.0`. */
  const TOO_LARGE := "File size exceeds maximum allowed size of 5.0GB"

  const PYTORCH_EXTENSION_ERROR := "PyTorch model must have .pt or .pth extension"

  const TENSORFLOW_EXTENSION_ERROR := "TensorFlow model must have .h5 or .pb extension"

  /** The `(is_valid, error)` pair every check returns. */
  datatype Verdict = Verdict(valid: bool, error: Option<string>)

  // ---------------------------------------------------------------------------
  // pathlib's name and suffix

  /** A path with its trailing separators removed (pathlib ignores them). */
  function TrimTrailingSlashes(p: string): (r: string)
    ensures |r| <= |p|
    ensures r == [] || r[|r| - 1] != '/'
  {
    if p != [] && p[|p| - 1] == '/' then TrimTrailingSlashes(p[..|p| - 1]) else p
  }

  /** `Path(p).name`: the final component. */
  function Name(p: string): (name: string)
    ensures '/' !in name
  {
    var t := TrimTrailingSlashes(p);
    t[LastIndexOf(t, '/') + 1..]
  }

  /**
   * `Path(p).suffix`: from the last dot of the final component, provided that
   * dot is neither the first nor the last character of it; otherwise empty.
   */
  function Suffix(p: string): string
  {
    var name := Name(p);
    var i := LastIndexOf(name, '.');
    if 0 < i < |name| - 1 then name[i..] else ""
  }

  /** `get_file_extension`: the suffix, lower-cased, with its leading dot removed. */
  function GetFileExtension(filename: string): (ext: string)
    ensures ext != [] ==> '.' !in ext && '/' !in ext
    ensures ext == [] <==> Suffix(filename) == []
    ensures Suffix(filename) != [] ==> Lower(Suffix(filename)) == "." + ext
  {
    var s := Lower(Suffix(filename));
    if s == [] then ""
    else
      LowerKeepsDots(Suffix(filename));
      s[1..]
  }

  lemma LowerKeepsDots(s: string)
    ensures forall k :: 0 <= k < |s| ==> (Lower(s)[k] == '.' <==> s[k] == '.')
    ensures forall k :: 0 <= k < |s| ==> (Lower(s)[k] == '/' <==> s[k] == '/')
  {
  }

  /** Text after the last occurrence of `c` does not move that occurrence. */
  lemma {:induction false} LastIndexOfSkips(a: string, b: string, c: char)
    requires c !in b
    ensures LastIndexOf(a + b, c) == LastIndexOf(a, c)
    decreases |b|
  {
    if b != [] {
      var ab := a + b;
      assert ab[..|ab| - 1] == a + b[..|b| - 1];
      assert ab[|ab| - 1] == b[|b| - 1];
      LastIndexOfSkips(a, b[..|b| - 1], c);
    } else {
      assert a + b == a;
    }
  }

  /**
   * The extension of `stem.e`, when `e` is a non-empty run without dots or
   * separators and `stem` does not end in a separator, is `e` lower-cased.
   */
  lemma ExtensionOfDottedName(stem: string, e: string)
    requires stem != [] && stem[|stem| - 1] != '/'
    requires e != [] && '.' !in e && '/' !in e
    ensures GetFileExtension(stem + "." + e) == Lower(e)
  {
    var front := NameOfDottedPath(stem, e);
    SuffixOfDottedName(front, e);
    assert Suffix(stem + "." + e) == "." + e;
    assert Lower("." + e) == "." + Lower(e);
  }

  /** The final component of `stem.e` is the final component of `stem`, then `.e`. */
  lemma NameOfDottedPath(stem: string, e: string) returns (front: string)
    requires stem != [] && stem[|stem| - 1] != '/'
    requires e != [] && '/' !in e
    ensures front != [] && '/' !in front
    ensures Name(stem + "." + e) == front + "." + e
  {
    var p := stem + ("." + e);
    assert p == stem + "." + e;
    assert TrimTrailingSlashes(p) == p;
    LastIndexOfSkips(stem, "." + e, '/');
    var j := LastIndexOf(stem, '/');
    front := stem[j + 1..];
    assert p[j + 1..] == (front + ".") + e;
  }

  /** The suffix of a name `front.e` with a non-empty `front` and a dotless `e` is `.e`. */
  lemma SuffixOfDottedName(front: string, e: string)
    requires front != [] && e != [] && '.' !in e
    ensures var name := front + "." + e;
      LastIndexOf(name, '.') == |front| && name[|front|..] == "." + e
  {
    var name := front + "." + e;
    assert name == (front + ".") + e;
    LastIndexOfSkips(front + ".", e, '.');
    assert LastIndexOf(front + ".", '.') == |front|;
  }

  /** A final component without a dot has no extension. */
  lemma NoDotNoExtension(p: string)
    requires '.' !in Name(p)
    ensures GetFileExtension(p) == ""
  {
  }

  // ---------------------------------------------------------------------------
  // The checks

  /** `validate_file_size`: empty (size <= 0) first, then above the limit. */
  function ValidateFileSize(fileSize: int): (v: Verdict)
    ensures v.valid <==> 0 < fileSize <= MAX_FILE_SIZE
    ensures v.valid <==> v.error == None
    ensures fileSize <= 0 ==> v.error == Some(EMPTY_FILE)
    ensures fileSize > MAX_FILE_SIZE ==> v.error == Some(TOO_LARGE)
  {
    if fileSize <= 0 then Verdict(false, Some(EMPTY_FILE))
    else if fileSize > MAX_FILE_SIZE then Verdict(false, Some(TOO_LARGE))
    else Verdict(true, None)
  }

  /**
   * `validate_model_file`: the size check first, then the rule for the type.
   * `onnxVerdict` is what `validate_onnx_model` says of the file.
   */
  function ValidateModelFile(filePath: string, modelType: string, fileSize: int, onnxVerdict: Verdict): (v: Verdict)
    ensures !ValidateFileSize(fileSize).valid ==> v == ValidateFileSize(fileSize)
    ensures ValidateFileSize(fileSize).valid && modelType == "onnx" ==> v == onnxVerdict
    ensures ValidateFileSize(fileSize).valid && modelType == "pytorch" ==>
      v == (if Lower(Suffix(filePath)) in [".pt", ".pth"] then Verdict(true, None)
            else Verdict(false, Some(PYTORCH_EXTENSION_ERROR)))
    ensures ValidateFileSize(fileSize).valid && modelType == "tensorflow" ==>
      v == (if Lower(Suffix(filePath)) in [".h5", ".pb", ""] then Verdict(true, None)
            else Verdict(false, Some(TENSORFLOW_EXTENSION_ERROR)))
    ensures ValidateFileSize(fileSize).valid && modelType !in ["onnx", "pytorch", "tensorflow"] ==>
      v == Verdict(false, Some("Unsupported model type: " + modelType))
  {
    var size := ValidateFileSize(fileSize);
    if !size.valid then size
    else if modelType == "onnx" then onnxVerdict
    else if modelType == "pytorch" then
      if Lower(Suffix(filePath)) in [".pt", ".pth"] then Verdict(true, None)
      else Verdict(false, Some(PYTORCH_EXTENSION_ERROR))
    else if modelType == "tensorflow" then
      if Lower(Suffix(filePath)) in [".h5", ".pb", ""] then Verdict(true, None)
      else Verdict(false, Some(TENSORFLOW_EXTENSION_ERROR))
    else Verdict(false, Some("Unsupported model type: " + modelType))
  }

  /**
   * The per-type suffix checks agree with `get_file_extension`: a PyTorch file
   * passes iff its extension is "pt" or "pth", a TensorFlow file iff it is "h5",
   * "pb" or empty; an unknown type never passes.
   */
  lemma PyTorchMatchesExtension(filePath: string, fileSize: int, onnxVerdict: Verdict)
    ensures ValidateModelFile(filePath, "pytorch", fileSize, onnxVerdict).valid <==>
      0 < fileSize <= MAX_FILE_SIZE && GetFileExtension(filePath) in ["pt", "pth"]
  {
    SuffixAgainstExtension(Lower(Suffix(filePath)), GetFileExtension(filePath));
  }

  lemma TensorFlowMatchesExtension(filePath: string, fileSize: int, onnxVerdict: Verdict)
    ensures ValidateModelFile(filePath, "tensorflow", fileSize, onnxVerdict).valid <==>
      0 < fileSize <= MAX_FILE_SIZE && GetFileExtension(filePath) in ["h5", "pb", ""]
  {
    SuffixAgainstExtension(Lower(Suffix(filePath)), GetFileExtension(filePath));
  }

  lemma UnknownTypeRejected(filePath: string, modelType: string, fileSize: int, onnxVerdict: Verdict)
    requires modelType !in ["onnx", "pytorch", "tensorflow"]
    ensures !ValidateModelFile(filePath, modelType, fileSize, onnxVerdict).valid
  {
  }

  /** A dotted suffix is in a list of dotted names iff the bare extension is in the bare list. */
  lemma SuffixAgainstExtension(s: string, ext: string)
    requires (ext == [] && s == []) || (ext != [] && s == "." + ext)
    ensures s in [".pt", ".pth"] <==> ext in ["pt", "pth"]
    ensures s in [".h5", ".pb", ""] <==> ext in ["h5", "pb", ""]
  {
    if ext != [] {
      assert ".pt" == "." + "pt" && ".pth" == "." + "pth";
      assert ".h5" == "." + "h5" && ".pb" == "." + "pb";
      assert s != "";
      DottedEquals(ext, "pt");
      DottedEquals(ext, "pth");
      DottedEquals(ext, "h5");
      DottedEquals(ext, "pb");
    }
  }

  lemma DottedEquals(a: string, b: string)
    ensures "." + a == "." + b <==> a == b
  {
    if "." + a == "." + b {
      assert a == ("." + a)[1..];
    }
  }
}
