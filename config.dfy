/**
 * `Config`: the settings validators for the CORS origin list and the database
 * URL, and the token lifetimes.
 */
module Config {
  import opened Common

  /** `ACCESS_TOKEN_EXPIRE_MINUTES`: 24 hours. */
  const ACCESS_TOKEN_EXPIRE_MINUTES: int := 60 * 24

  /** `REFRESH_TOKEN_EXPIRE_MINUTES`: 7 days. */
  const REFRESH_TOKEN_EXPIRE_MINUTES: int := 60 * 24 * 7

  /** The value `BACKEND_CORS_ORIGINS` arrives as: one text or an already-built list. */
  datatype CorsValue = CorsText(text: string) | CorsList(items: seq<string>)

  /** `assemble_cors_origins`: a text is split on commas and every piece stripped. */
  function AssembleCorsOrigins(v: CorsValue): (origins: seq<string>)
    ensures v.CorsList? ==> origins == v.items
    ensures v.CorsText? ==> |origins| == |Split(v.text, ',')|
    ensures v.CorsText? ==> forall k :: 0 <= k < |origins| ==>
      origins[k] == Strip(Split(v.text, ',')[k])
  {
    match v
    case CorsText(s) =>
      var parts := Split(s, ',');
      seq(|parts|, k requires 0 <= k < |parts| => Strip(parts[k]))
    case CorsList(items) => items
  }

  /** One origin per comma-separated piece, empty pieces included. */
  lemma CorsOriginCount(s: string)
    ensures |AssembleCorsOrigins(CorsText(s))| == Count(s, ',') + 1
  {
    SplitCount(s, ',');
  }

  /** No assembled origin carries surrounding white space or a comma. */
  lemma CorsOriginsClean(s: string)
    ensures forall k :: 0 <= k < |AssembleCorsOrigins(CorsText(s))| ==>
      var o := AssembleCorsOrigins(CorsText(s))[k];
      ',' !in o && (o == [] || (!IsSpace(o[0]) && !IsSpace(o[|o| - 1])))
  {
    SplitPiecesFree(s, ',');
    var parts := Split(s, ',');
    forall k | 0 <= k < |parts|
      ensures ',' !in Strip(parts[k])
    {
      StripIsInfix(parts[k]);
    }
  }

  /** Stripping only removes characters from the ends. */
  lemma StripIsInfix(s: string)
    ensures forall c :: c in Strip(s) ==> c in s
  {
    StripLeftIsSuffix(s);
    StripRightKeepsPrefix(StripLeft(s));
  }

  lemma {:induction false} StripLeftIsSuffix(s: string)
    ensures forall c :: c in StripLeft(s) ==> c in s
  {
    if s != [] && IsSpace(s[0]) {
      StripLeftIsSuffix(s[1..]);
    }
  }

  /**
   * Writing clean origins as one comma-separated text and assembling it gives
   * the same list back.
   */
  lemma CorsRoundTrip(origins: seq<string>)
    requires |origins| >= 1
    requires forall k :: 0 <= k < |origins| ==> ',' !in origins[k]
    requires forall k :: 0 <= k < |origins| ==>
      (origins[k] != [] && !IsSpace(origins[k][0]) && !IsSpace(origins[k][|origins[k]| - 1]))
    ensures AssembleCorsOrigins(CorsText(Join(origins, ','))) == origins
  {
    JoinSplit(origins, ',');
    forall k | 0 <= k < |origins|
      ensures Strip(origins[k]) == origins[k]
    {
      StripUnchanged(origins[k]);
    }
  }

  /** The database settings `DATABASE_URL` is assembled from when it is not given. */
  datatype DatabaseSettings = DatabaseSettings(
    user: string,
    password: string,
    host: string,
    port: int,
    name: string)

  /**
   * `assemble_db_connection`: a given text is used as it is; otherwise the URL
   * is built from the parts with the asyncpg scheme (an empty name leaves the
   * path empty).
   */
  function AssembleDbConnection(v: Option<string>, db: DatabaseSettings): (url: string)
    ensures v.Some? ==> url == v.value
    ensures v.None? ==> StartsWith(url, "postgresql+asyncpg://")
  {
    match v
    case Some(text) => text
    case None =>
      "postgresql+asyncpg://" + db.user + ":" + db.password + "@" + db.host + ":" +
      IntToString(db.port) + "/" + db.name
  }
}
