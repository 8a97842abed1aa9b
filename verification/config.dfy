/**
 * Reading settings from the process environment. A variable lookup is an
 * `Option<string>`: None for an unset variable, Some(text) otherwise, and
 * the environment as a whole is a finite map from names to values.
 */
module Config {
  import opened Wrappers
  import opened Text
  import Numbers

  /** The spellings, after stripping and lower-casing, that turn a flag on. */
  const TruthyWords: set<string> := {"1", "true", "t", "yes", "y", "on"}

  /** `_env_bool`: unset gives the default; any set value is on exactly when it spells a truthy word. */
  function EnvBool(v: Option<string>, default: bool): (r: bool)
    ensures v.None? ==> r == default
    ensures v.Some? && r ==> Lower(Strip(v.value)) in TruthyWords
    ensures v.Some? && Lower(Strip(v.value)) in TruthyWords ==> r
  {
    match v
    case None => default
    case Some(text) => Lower(Strip(text)) in TruthyWords
  }

  /** `_env_str`: unset or blank gives the default, anything else its stripped text. */
  function EnvStr(v: Option<string>, default: string): (r: string)
    ensures v.None? ==> r == default
    ensures v.Some? && AllSpace(v.value) ==> r == default
    ensures v.Some? && !AllSpace(v.value) ==> r == Strip(v.value) && |r| > 0
    ensures |default| > 0 && Trimmed(default) ==> |r| > 0 && Trimmed(r)
  {
    match v
    case None => default
    case Some(text) =>
      StripEmpty(text);
      var t := Strip(text);
      if t == "" then default else t
  }

  /** `_env_int`: unset, blank or not an integer gives the default, anything else its value. */
  function EnvInt(v: Option<string>, default: int): (r: int)
    ensures v.None? ==> r == default
    ensures v.Some? && Numbers.ParseDecimal(Strip(v.value)).Some? ==> r == Numbers.ParseDecimal(Strip(v.value)).value
    ensures v.Some? && Numbers.ParseDecimal(Strip(v.value)).None? ==> r == default
  {
    match v
    case None => default
    case Some(text) =>
      var t := Strip(text);
      if t == "" then default
      else
        match Numbers.ParseDecimal(t)
        case Some(n) => n
        case None => default
  }

  /**
   * `cors_allow_origins`: the value (default `*`) split at commas, each
   * entry stripped; empty entries are kept.
   */
  function CorsOrigins(v: Option<string>): (r: seq<string>)
    ensures |r| == |Split(v.GetOr("*"), ',')|
    ensures forall k :: 0 <= k < |r| ==> Trimmed(r[k]) && ',' !in r[k]
    ensures forall k :: 0 <= k < |r| ==> r[k] == Strip(Split(v.GetOr("*"), ',')[k])
  {
    var parts := Split(v.GetOr("*"), ',');
    seq(|parts|, k requires 0 <= k < |parts| => Strip(parts[k]))
  }

  type Environment = map<string, string>

  /** `os.getenv(name)`. */
  function Getenv(env: Environment, name: string): Option<string> {
    if name in env then Some(env[name]) else None
  }

  /** The `Settings` record; `serial_timeout_s` is a float and is not modelled. */
  datatype Settings = Settings(
    appHost: string,
    appPort: int,
    corsAllowOrigins: seq<string>,
    serialEnabled: bool,
    serialPort: string,
    serialBaud: int,
    telemetryPrefix: string,
    imagePrefix: string,
    imageMime: string)

  const DefaultTelemetryPrefix: string := "RECV_ROVER_"
  const DefaultImagePrefix: string := "IMG_ROVER_"
  const DefaultImageMime: string := "image/jpeg"
  const DefaultBaud: int := 115200

  /** The settings an empty environment yields. */
  const Defaults: Settings := Settings("0.0.0.0", 8000, ["*"], true, "COM4", DefaultBaud,
                                        DefaultTelemetryPrefix, DefaultImagePrefix, DefaultImageMime)

  /** `Settings()` evaluated against `env`. */
  function LoadSettings(env: Environment): (s: Settings)
    ensures |s.telemetryPrefix| > 0 && Trimmed(s.telemetryPrefix)
    ensures |s.imagePrefix| > 0 && Trimmed(s.imagePrefix)
    ensures |s.imageMime| > 0
  {
    Settings(
      EnvStr(Getenv(env, "APP_HOST"), "0.0.0.0"),
      EnvInt(Getenv(env, "APP_PORT"), 8000),
      CorsOrigins(Getenv(env, "CORS_ALLOW_ORIGINS")),
      EnvBool(Getenv(env, "SERIAL_ENABLED"), true),
      EnvStr(Getenv(env, "SERIAL_PORT"), "COM4"),
      EnvInt(Getenv(env, "SERIAL_BAUD"), DefaultBaud),
      EnvStr(Getenv(env, "SERIAL_TELEMETRY_PREFIX"), DefaultTelemetryPrefix),
      EnvStr(Getenv(env, "SERIAL_IMAGE_PREFIX"), DefaultImagePrefix),
      EnvStr(Getenv(env, "SERIAL_IMAGE_MIME"), DefaultImageMime))
  }

  /** With nothing set, every setting takes its default. */
  lemma EmptyEnvironmentGivesDefaults()
    ensures LoadSettings(map[]) == Defaults
  {
    var star := "*";
    assert star[1..] == "" && Split("", ',') == [""];
    assert [star[0]] + "" == star;
    assert Split(star, ',') == [star];
    StripTrimmed("*");
  }

  /** Case and surrounding whitespace do not matter: `" YES "` turns a flag on. */
  lemma EnvBoolSpelling(pad1: string, word: string, pad2: string, default: bool)
    requires AllSpace(pad1) && AllSpace(pad2) && Trimmed(word)
    requires Lower(word) in TruthyWords
    ensures EnvBool(Some(pad1 + word + pad2), default)
  {
    var s := pad1 + word + pad2;
    assert s[..|pad1|] == pad1 && s[|pad1|..|pad1| + |word|] == word && s[|pad1| + |word|..] == pad2;
    StripUnique(s, |pad1|, |pad1| + |word|);
  }

  /** An origin list written without spaces around its entries reads back entry for entry. */
  lemma CorsOriginsRoundTrip(origins: seq<string>)
    requires |origins| >= 1
    requires forall k :: 0 <= k < |origins| ==> Trimmed(origins[k]) && ',' !in origins[k]
    ensures CorsOrigins(Some(Join(origins, ','))) == origins
  {
    SplitJoin(origins, ',');
    var r := CorsOrigins(Some(Join(origins, ',')));
    forall k | 0 <= k < |origins| ensures r[k] == origins[k] {
      StripTrimmed(origins[k]);
    }
  }
}
