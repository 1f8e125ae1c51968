/**
 * `ModelSchema`: the request schema for registering a model (name length,
 * optional description, a three-part numeric version, the public flag) and the
 * commitment a model publishes.
 */
module ModelSchema {
  import opened Common

  /** The `pattern` constraint on `version`. */
  const VERSION_PATTERN := "^\\d+\\.\\d+\\.\\d+$"

  const DEFAULT_VERSION := "1.0.0"

  /** `name: Field(min_length=1, max_length=255)`. */
  predicate NameFits(name: string)
  {
    1 <= |name| <= 255
  }

  /** A non-empty run of decimal digits: `\d+`. */
  predicate DigitsOnly(s: string)
  {
    |s| >= 1 && forall k :: 0 <= k < |s| ==> IsAsciiDigit(s[k])
  }

  /**
   * `^\d+\.\d+\.\d+$`: the text is three digit runs separated by dots.  As no
   * digit is a dot, this is the same as: it splits on dots into exactly three
   * pieces, each a digit run.
   */
  predicate VersionMatches(v: string)
  {
    var parts := Split(v, '.');
    |parts| == 3 && DigitsOnly(parts[0]) && DigitsOnly(parts[1]) && DigitsOnly(parts[2])
  }

  /** Three digit runs joined by dots match the pattern. */
  lemma VersionFromRuns(a: string, b: string, c: string)
    requires DigitsOnly(a) && DigitsOnly(b) && DigitsOnly(c)
    ensures VersionMatches(a + "." + b + "." + c)
  {
    assert '.' !in a && '.' !in b && '.' !in c by {
      DigitsAreNotDots(a);
      DigitsAreNotDots(b);
      DigitsAreNotDots(c);
    }
    var parts := [a, b, c];
    JoinSplit(parts, '.');
    JoinThree(a, b, c);
  }

  /** A matching version is its three runs joined by dots. */
  lemma VersionIsThreeRuns(v: string)
    requires VersionMatches(v)
    ensures var parts := Split(v, '.');
      v == parts[0] + "." + parts[1] + "." + parts[2]
  {
    var parts := Split(v, '.');
    SplitJoin(v, '.');
    assert parts == [parts[0], parts[1], parts[2]];
    JoinThree(parts[0], parts[1], parts[2]);
  }

  lemma JoinThree(a: string, b: string, c: string)
    ensures Join([a, b, c], '.') == a + "." + b + "." + c
  {
    assert [a, b, c][1..] == [b, c];
    assert [b, c][1..] == [c];
    assert Join([b, c], '.') == b + "." + c;
    assert a + "." + (b + "." + c) == a + "." + b + "." + c;
  }

  lemma DigitsAreNotDots(s: string)
    requires DigitsOnly(s)
    ensures '.' !in s
  {
  }

  /** The default version satisfies the pattern. */
  lemma DefaultVersionMatches()
    ensures VersionMatches(DEFAULT_VERSION)
  {
    VersionFromRuns("1", "0", "0");
    assert "1" + "." + "0" + "." + "0" == DEFAULT_VERSION;
  }

  /** A version string with a fourth component does not match. */
  lemma FourPartsDoNotMatch(a: string, b: string, c: string, d: string)
    requires DigitsOnly(a) && DigitsOnly(b) && DigitsOnly(c) && DigitsOnly(d)
    ensures !VersionMatches(a + "." + b + "." + c + "." + d)
  {
    DigitsAreNotDots(a);
    DigitsAreNotDots(b);
    DigitsAreNotDots(c);
    DigitsAreNotDots(d);
    var parts := [a, b, c, d];
    JoinSplit(parts, '.');
    assert parts[1..] == [b, c, d];
    JoinThree(b, c, d);
    assert Join(parts, '.') == a + "." + (b + "." + c + "." + d);
    assert a + "." + (b + "." + c + "." + d) == a + "." + b + "." + c + "." + d;
  }

  /** A validated `ModelCreate`. */
  datatype ModelCreate = ModelCreate(
    name: string,
    description: Option<string>,
    version: string,
    modelType: string,
    isPublic: bool)

  /** `ModelCommitment`: what a model publicly commits to. */
  datatype ModelCommitment = ModelCommitment(modelId: int, modelHash: string, merkleRoot: Option<string>)

  /**
   * `ModelCreate(...)`: name length and version pattern are checked; an omitted
   * version is "1.0.0" and an omitted visibility is private.
   */
  function ValidateModelCreate(name: string, description: Option<string>, version: Option<string>,
                               modelType: string, isPublic: Option<bool>): (r: Result<ModelCreate, seq<FieldError>>)
    ensures r.Success? <==> NameFits(name) && (version.None? || VersionMatches(version.value))
    ensures r.Success? ==> r.value.name == name && r.value.description == description &&
                           r.value.modelType == modelType
    ensures r.Success? ==> VersionMatches(r.value.version)
    ensures r.Success? && version.None? ==> r.value.version == DEFAULT_VERSION
    ensures r.Success? && version.Some? ==> r.value.version == version.value
    ensures r.Success? ==> (r.value.isPublic <==> isPublic == Some(true))
    ensures r.Failure? ==> r.error != []
  {
    var v := if version.Some? then version.value else DEFAULT_VERSION;
    var versionErrs := if version.None? || VersionMatches(v) then []
                       else [FieldError("version", PatternMismatch(VERSION_PATTERN))];
    var errs := LengthErrors("name", name, 1, 255) + versionErrs;
    if errs != [] then Failure(errs)
    else
      DefaultVersionMatches();
      Success(ModelCreate(name, description, v, modelType, isPublic == Some(true)))
  }
}
