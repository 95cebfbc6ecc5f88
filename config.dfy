/**
 * Configuration (app/config.py): reading the settings from the process
 * environment, given here as a map from variable names to values.
 *
 * `Settings.__init__` reads every field first and validates afterwards; the
 * two `int(...)` conversions raise `ValueError` while the fields are read,
 * before any validation. `LoadSettings` returns the settings or the first
 * error raised, in the order the source raises them.
 */
module Config {
  import opened Wrappers
  import opened Text

  type Env = map<string, string>

  /** `os.getenv(key)`. */
  function Lookup(env: Env, key: string): Option<string> {
    if key in env then Some(env[key]) else None
  }

  /** `os.getenv(key, default)`. */
  function GetEnv(env: Env, key: string, default: string): string {
    Lookup(env, key).GetOr(default)
  }

  // ---------------------------------------------------------------------
  // _to_bool
  // ---------------------------------------------------------------------

  /** `_to_bool`: the default for an unset variable, else whether it reads `true`. */
  function ToBool(value: Option<string>, default: bool): (r: bool)
    ensures value.None? ==> r == default
    ensures value.Some? && r ==> |Strip(value.value)| == 4
  {
    match value
    case None => default
    case Some(v) => Lower(Strip(v)) == "true"
  }

  /**
   * Surrounding whitespace and letter case do not matter: a set value is
   * true exactly when what is left after the padding is `true` in some case.
   */
  lemma ToBoolPadded(a: string, w: string, b: string, default: bool)
    requires AllSpace(a) && AllSpace(b) && EdgeClean(w)
    ensures ToBool(Some(a + w + b), default) <==> Lower(w) == "true"
  {
    StripPadded(a, w, b);
  }

  /** Any value that is not `true` after stripping and lower-casing, such as `1` or `yes`, is false. */
  lemma ToBoolOnlyTrue(v: string, default: bool)
    requires |Strip(v)| != 4
    ensures !ToBool(Some(v), default)
  {
  }

  // ---------------------------------------------------------------------
  // _sqlite_path_from_url
  // ---------------------------------------------------------------------

  const SqliteScheme: string := "sqlite"
  const TripleSlash: string := "///"

  /**
   * `_sqlite_path_from_url`: the fallback when unset or empty; the text after
   * the first `///` of a `sqlite...` URL; otherwise the value itself.
   */
  function SqlitePathFromUrl(url: Option<string>, fallback: string): (path: string)
    ensures url.None? || url.value == "" ==> path == fallback
    ensures url.Some? && url.value != "" && !StartsWith(url.value, SqliteScheme) ==> path == url.value
    ensures url.Some? && url.value != "" && Find(url.value, TripleSlash).None? ==> path == url.value
    ensures url.Some? && url.value != "" && StartsWith(url.value, SqliteScheme) && Find(url.value, TripleSlash).Some? ==>
              path == url.value[Find(url.value, TripleSlash).value + |TripleSlash|..]
  {
    match url
    case None => fallback
    case Some(u) =>
      if u == "" then fallback
      else if StartsWith(u, SqliteScheme) then
        match Find(u, TripleSlash)
        case Some(i) => u[i + |TripleSlash|..]
        case None => u
      else u
  }

  /**
   * A database URL `sqlite<driver>:///<path>`, for any driver suffix without
   * a slash (`+aiosqlite`, say), gives back the path, even an absolute one.
   */
  lemma SqliteUrlRoundTrip(driver: string, path: string, fallback: string)
    requires '/' !in driver
    ensures SqlitePathFromUrl(Some(SqliteScheme + driver + ":" + TripleSlash + path), fallback) == path
  {
    var head := SqliteScheme + driver + ":";
    var u := head + TripleSlash + path;
    assert u[..|SqliteScheme|] == SqliteScheme;
    assert u[|head|..|head| + 3] == TripleSlash;
    assert OccursAt(u, TripleSlash, |head|);
    forall j | 0 <= j < |head|
      ensures !OccursAt(u, TripleSlash, j)
    {
      assert u[j] == head[j];
      if j < |SqliteScheme| {
        assert head[j] == SqliteScheme[j];
      } else if j < |SqliteScheme| + |driver| {
        assert head[j] == driver[j - |SqliteScheme|];
      }
    }
    var found := Find(u, TripleSlash);
    assert found.Some?;
    assert found.value == |head|;
    assert u[|head| + 3..] == path;
  }

  // ---------------------------------------------------------------------
  // TARGET_CHANNELS
  // ---------------------------------------------------------------------

  /** The stripped pieces that are not empty, in order. */
  function NonEmptyStripped(pieces: seq<string>): (r: seq<string>)
    ensures |r| <= |pieces|
    ensures forall k :: 0 <= k < |r| ==> r[k] != [] && EdgeClean(r[k])
  {
    if pieces == [] then []
    else
      var t := Strip(pieces[0]);
      if t == [] then NonEmptyStripped(pieces[1..]) else [t] + NonEmptyStripped(pieces[1..])
  }

  /** A character in none of the pieces is in none of the stripped pieces. */
  lemma {:induction false} NonEmptyStrippedKeepsOut(pieces: seq<string>, c: char)
    requires forall j :: 0 <= j < |pieces| ==> c !in pieces[j]
    ensures forall k :: 0 <= k < |NonEmptyStripped(pieces)| ==> c !in NonEmptyStripped(pieces)[k]
    decreases |pieces|
  {
    if pieces != [] {
      StripIsSlice(pieces[0]);
      NonEmptyStrippedKeepsOut(pieces[1..], c);
    }
  }

  /** `[ch.strip() for ch in value.split(",") if ch.strip()]`. */
  function ParseTargets(value: string): (targets: seq<string>)
    ensures forall k :: 0 <= k < |targets| ==> targets[k] != [] && EdgeClean(targets[k]) && ',' !in targets[k]
  {
    NonEmptyStrippedKeepsOut(Split(value, ','), ',');
    NonEmptyStripped(Split(value, ','))
  }

  /** The stripped text is a piece of the original. */
  lemma StripIsSlice(s: string)
    ensures forall c :: c in Strip(s) ==> c in s
  {
    var r := Strip(s);
    var i := LeadingSpaces(s);
    forall c | c in r
      ensures c in s
    {
      var k :| 0 <= k < |r| && r[k] == c;
      assert s[i + k] == c;
    }
  }

  /** Stripped pieces that are already clean stay as they are. */
  lemma {:induction false} NonEmptyStrippedClean(pieces: seq<string>)
    requires forall k :: 0 <= k < |pieces| ==> pieces[k] != [] && EdgeClean(pieces[k])
    ensures NonEmptyStripped(pieces) == pieces
    decreases |pieces|
  {
    if pieces != [] {
      StripPadded([], pieces[0], []);
      assert [] + pieces[0] + [] == pieces[0];
      NonEmptyStrippedClean(pieces[1..]);
      assert [pieces[0]] + pieces[1..] == pieces;
    }
  }

  /**
   * Writing a list of channel names joined by commas and parsing it gives
   * the list back, as long as each name is non-empty, has no comma and no
   * surrounding whitespace.
   */
  lemma TargetsRoundTrip(targets: seq<string>)
    requires |targets| >= 1
    requires forall k :: 0 <= k < |targets| ==> targets[k] != [] && EdgeClean(targets[k]) && ',' !in targets[k]
    ensures ParseTargets(Join(targets, ',')) == targets
  {
    JoinSplit(targets, ',');
    NonEmptyStrippedClean(targets);
  }

  /** Pieces that are empty or all whitespace are dropped. */
  lemma {:induction false} BlankPiecesDropped(pieces: seq<string>)
    requires forall k :: 0 <= k < |pieces| ==> AllSpace(pieces[k])
    ensures NonEmptyStripped(pieces) == []
    decreases |pieces|
  {
    if pieces != [] {
      StripPadded(pieces[0], [], []);
      assert pieces[0] + [] + [] == pieces[0];
      BlankPiecesDropped(pieces[1..]);
    }
  }

  // ---------------------------------------------------------------------
  // Settings
  // ---------------------------------------------------------------------

  datatype Settings = Settings(
    apiId: int,
    apiHash: string,
    stringSession: string,
    sourceChannel: string,
    targetChannels: seq<string>,
    forwardingEnabled: bool,
    queueMaxsize: Option<int>,
    dataDir: string,
    dbPath: string,
    logLevel: string)

  /** The `ValueError`s `Settings()` raises, in the order it checks for them. */
  datatype ConfigError =
    | ApiIdNotInteger            // int() of the API id fails
    | QueueMaxsizeNotInteger     // int() of FORWARDING_QUEUE_MAXSIZE fails
    | MissingApiCredentials      // api_id is 0 or api_hash is empty
    | MissingStringSession
    | MissingSourceChannel
    | MissingTargetChannels      // no targets while forwarding is enabled

  datatype Loaded = Ok(settings: Settings) | Err(error: ConfigError)

  /** `TELEGRAM_API_ID`, else `API_ID`, else `"0"`. */
  function ApiIdText(env: Env): string {
    GetEnv(env, "TELEGRAM_API_ID", GetEnv(env, "API_ID", "0"))
  }

  /** `int(queue_maxsize) if queue_maxsize else None`, with `None` inside `Err` when `int` raises. */
  function QueueMaxsize(raw: string): (r: Option<Option<int>>)
    ensures raw == "" ==> r == Some(None)
    ensures raw != "" ==> (r.Some? <==> ParseInt(raw).Some?)
    ensures raw != "" && r.Some? ==> r.value == ParseInt(raw)
  {
    if raw == "" then Some(None)
    else
      match ParseInt(raw)
      case Some(n) => Some(Some(n))
      case None => None
  }

  /**
   * The reading half of `Settings()`: every field from the environment,
   * failing only where an `int(...)` conversion raises.
   */
  function ReadSettings(env: Env): (r: Loaded)
    ensures r.Err? ==> r.error == ApiIdNotInteger || r.error == QueueMaxsizeNotInteger
    ensures r.Ok? ==> EdgeClean(r.settings.stringSession)
    ensures r.Ok? ==> forall k :: 0 <= k < |r.settings.targetChannels| ==>
              r.settings.targetChannels[k] != "" && EdgeClean(r.settings.targetChannels[k]) && ',' !in r.settings.targetChannels[k]
  {
    match ParseInt(ApiIdText(env))
    case None => Err(ApiIdNotInteger)
    case Some(apiId) =>
      var apiHash := GetEnv(env, "TELEGRAM_API_HASH", GetEnv(env, "API_HASH", ""));
      var stringSession := Strip(GetEnv(env, "TELEGRAM_STRING_SESSION", ""));
      var sourceChannel := GetEnv(env, "SOURCE_CHANNEL", "");
      var targets := ParseTargets(GetEnv(env, "TARGET_CHANNELS", ""));
      var enabled := ToBool(Lookup(env, "FORWARDING_ENABLED"), true);
      match QueueMaxsize(GetEnv(env, "FORWARDING_QUEUE_MAXSIZE", ""))
      case None => Err(QueueMaxsizeNotInteger)
      case Some(maxsize) =>
        var dataDir := GetEnv(env, "DATA_DIR", "data");
        var dbPath := SqlitePathFromUrl(Lookup(env, "DB_URL"), dataDir + "/db.sqlite3");
        var logLevel := GetEnv(env, "LOG_LEVEL", "INFO");
        Ok(Settings(apiId, apiHash, stringSession, sourceChannel, targets, enabled, maxsize, dataDir, dbPath, logLevel))
  }

  /** `Settings()` over the environment `env`: read every field, then validate. */
  function LoadSettings(env: Env): (r: Loaded)
    ensures ReadSettings(env).Err? ==> r == ReadSettings(env)
    ensures r.Ok? ==> ReadSettings(env) == r && Validate(r.settings).None?
    ensures r.Err? && ReadSettings(env).Ok? ==> Validate(ReadSettings(env).settings) == Some(r.error)
  {
    match ReadSettings(env)
    case Err(e) => Err(e)
    case Ok(settings) =>
      match Validate(settings)
      case Some(e) => Err(e)
      case None => Ok(settings)
  }

  /** The checks at the end of `Settings.__init__`, first failure first. */
  function Validate(s: Settings): (err: Option<ConfigError>)
    ensures err.None? <==>
      s.apiId != 0 && s.apiHash != "" && s.stringSession != "" && s.sourceChannel != "" &&
      (s.targetChannels != [] || !s.forwardingEnabled)
    ensures err == Some(MissingApiCredentials) <==> s.apiId == 0 || s.apiHash == ""
    ensures err.Some? ==> err.value != ApiIdNotInteger && err.value != QueueMaxsizeNotInteger
  {
    if s.apiId == 0 || s.apiHash == "" then Some(MissingApiCredentials)
    else if s.stringSession == "" then Some(MissingStringSession)
    else if s.sourceChannel == "" then Some(MissingSourceChannel)
    else if s.targetChannels == [] && s.forwardingEnabled then Some(MissingTargetChannels)
    else None
  }

  /** What a successful load guarantees about the settings. */
  ghost predicate WellFormed(s: Settings) {
    && s.apiId != 0
    && s.apiHash != ""
    && s.stringSession != "" && EdgeClean(s.stringSession)
    && s.sourceChannel != ""
    && (forall k :: 0 <= k < |s.targetChannels| ==>
          s.targetChannels[k] != "" && EdgeClean(s.targetChannels[k]) && ',' !in s.targetChannels[k])
    && (s.forwardingEnabled ==> s.targetChannels != [])
  }

  /** Loaded settings always pass every validation rule. */
  lemma LoadedWellFormed(env: Env)
    ensures LoadSettings(env).Ok? ==> WellFormed(LoadSettings(env).settings)
  {
  }

  /**
   * Loading succeeds exactly when the API id is an integer other than 0,
   * the hash, the stripped session and the source are non-empty, the queue
   * size is empty or an integer, and there is a target or forwarding is off.
   */
  lemma LoadOkIff(env: Env)
    ensures LoadSettings(env).Ok? <==>
      && ParseInt(ApiIdText(env)).Some? && ParseInt(ApiIdText(env)).value != 0
      && GetEnv(env, "TELEGRAM_API_HASH", GetEnv(env, "API_HASH", "")) != ""
      && Strip(GetEnv(env, "TELEGRAM_STRING_SESSION", "")) != ""
      && GetEnv(env, "SOURCE_CHANNEL", "") != ""
      && QueueMaxsize(GetEnv(env, "FORWARDING_QUEUE_MAXSIZE", "")).Some?
      && (ParseTargets(GetEnv(env, "TARGET_CHANNELS", "")) != [] || !ToBool(Lookup(env, "FORWARDING_ENABLED"), true))
  {
  }

  /**
   * The conversion errors come first: a bad API id is reported whatever
   * else is wrong, and a bad queue size before any missing value.
   */
  lemma ConversionErrorsFirst(env: Env)
    ensures ParseInt(ApiIdText(env)).None? ==> LoadSettings(env) == Err(ApiIdNotInteger)
    ensures ParseInt(ApiIdText(env)).Some? && QueueMaxsize(GetEnv(env, "FORWARDING_QUEUE_MAXSIZE", "")).None? ==>
              LoadSettings(env) == Err(QueueMaxsizeNotInteger)
  {
  }

  /** Forwarding is on unless `FORWARDING_ENABLED` is set to something other than `true`. */
  lemma ForwardingOnByDefault(env: Env)
    requires "FORWARDING_ENABLED" !in env
    ensures LoadSettings(env).Ok? ==> LoadSettings(env).settings.forwardingEnabled && LoadSettings(env).settings.targetChannels != []
  {
  }
}
