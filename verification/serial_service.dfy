/**
 * The serial worker's decisions, without its thread, port or event loop:
 * what one received line turns into (console echo, telemetry, image), what
 * bytes `send_line` writes and echoes, and which command line `send_wasd`
 * builds from a key and an optional duration.
 */
module SerialService {
  import opened Wrappers
  import opened Text
  import Numbers
  import Config
  import opened Models
  import RoverParser

  /** What the worker hands to the WebSocket layer. */
  datatype Event =
    | SerialIn(line: string, ts: Timestamp)       // console `serial_in`
    | SerialOut(line: string, ts: Timestamp)      // console `serial_out`, the echo of a write
    | TelemetryOut(record: TelemetryRover)        // `emit_ws_telemetry`
    | ImageOut(frame: ImageFrame)                 // `emit_ws_image`

  /** The console placeholder shown after a decoded image. */
  const ImageMarker: string := "<image_frame_base64>"

  // ---------- one received line ----------

  /** The telemetry attempt of the reader loop: a decoder exception counts as "not telemetry". */
  function TelemetryOf(line: string, s: Config.Settings, now: Timestamp): (r: Option<TelemetryRover>)
    ensures r.Some? <==> RoverParser.TryParseTelemetry(line, s.telemetryPrefix, now).Parsed?
    ensures r.Some? ==> r.value == RoverParser.TryParseTelemetry(line, s.telemetryPrefix, now).record
  {
    match RoverParser.TryParseTelemetry(line, s.telemetryPrefix, now)
    case Parsed(t) => Some(t)
    case NotTelemetry => None
    case ConversionError => None
  }

  /**
   * The body of the reader loop for one line read from the port: strip it,
   * skip it when blank, echo it, then try telemetry and, only when that
   * fails, an image (which adds a console placeholder after it).
   */
  function HandleLine(received: string, s: Config.Settings, now: Timestamp): (events: seq<Event>)
    ensures events == [] <==> AllSpace(received)
    ensures events != [] ==> events[0] == SerialIn(Strip(received), now)
    ensures |events| <= 3
    ensures forall k :: 1 <= k < |events| ==> events[k].SerialIn? ==> events[k].line == ImageMarker
  {
    StripEmpty(received);
    var line := Strip(received);
    if line == "" then [] else [SerialIn(line, now)] + Decoded(line, s, now)
  }

  /** What follows the echo: the telemetry record, or else the image and its console placeholder, or nothing. */
  function Decoded(line: string, s: Config.Settings, now: Timestamp): (events: seq<Event>)
    ensures |events| <= 2
    ensures forall k :: 0 <= k < |events| ==> events[k].SerialIn? ==> events[k].line == ImageMarker
  {
    match TelemetryOf(line, s, now)
    case Some(t) => [TelemetryOut(t)]
    case None =>
      match RoverParser.TryParseImage(line, s.imagePrefix, s.imageMime, now)
      case Some(img) => [ImageOut(img), SerialIn(ImageMarker, now)]
      case None => []
  }

  /** A line with any non-whitespace character is echoed, then decoded. */
  lemma HandleLineUnfold(received: string, s: Config.Settings, now: Timestamp)
    requires Strip(received) != ""
    ensures HandleLine(received, s, now) == [SerialIn(Strip(received), now)] + Decoded(Strip(received), s, now)
  {
    StripEmpty(received);
  }

  lemma DecodedTelemetry(line: string, s: Config.Settings, now: Timestamp)
    requires TelemetryOf(line, s, now).Some?
    ensures Decoded(line, s, now) == [TelemetryOut(TelemetryOf(line, s, now).value)]
  {
  }

  /** A line that decodes as telemetry is echoed, then emitted, and never tried as an image. */
  lemma TelemetryShadowsImage(received: string, s: Config.Settings, now: Timestamp)
    requires RoverParser.TryParseTelemetry(Strip(received), s.telemetryPrefix, now).Parsed?
    ensures HandleLine(received, s, now)
         == [SerialIn(Strip(received), now),
             TelemetryOut(RoverParser.TryParseTelemetry(Strip(received), s.telemetryPrefix, now).record)]
  {
    var line := Strip(received);
    RoverParser.ParsedLineNotEmpty(line, s.telemetryPrefix, now);
    DecodedTelemetry(line, s, now);
  }

  /**
   * A line that does not decode as telemetry, including one whose decoding
   * raises, falls through to the image decoder.
   */
  lemma FallThroughToImage(received: string, s: Config.Settings, now: Timestamp)
    requires !AllSpace(received)
    requires !RoverParser.TryParseTelemetry(Strip(received), s.telemetryPrefix, now).Parsed?
    ensures var line := Strip(received);
      var img := RoverParser.TryParseImage(line, s.imagePrefix, s.imageMime, now);
      HandleLine(received, s, now)
        == [SerialIn(line, now)] + (if img.Some? then [ImageOut(img.value), SerialIn(ImageMarker, now)] else [])
  {
    StripEmpty(received);
    HandleLineUnfold(received, s, now);
  }

  /** No line carries both default prefixes: they differ in their first character. */
  lemma DefaultPrefixesExclusive(line: string)
    ensures !(StartsWith(line, Config.DefaultTelemetryPrefix) && StartsWith(line, Config.DefaultImagePrefix))
  {
    if StartsWith(line, Config.DefaultTelemetryPrefix) {
      assert line[..11][0] == 'R';
      assert line[..10][0] == 'R';
    }
  }

  /**
   * With the default prefixes, a telemetry line that fails to decode (too
   * few fields, or an rssi that is not finite) is only echoed.
   */
  lemma FailedTelemetryOnlyEchoed(received: string, now: Timestamp)
    requires StartsWith(Strip(received), Config.DefaultTelemetryPrefix)
    requires !RoverParser.TryParseTelemetry(Strip(received), Config.DefaultTelemetryPrefix, now).Parsed?
    ensures HandleLine(received, Config.Defaults, now) == [SerialIn(Strip(received), now)]
  {
    DefaultPrefixesExclusive(Strip(received));
    assert !AllSpace(received) by { StripEmpty(received); }
    FallThroughToImage(received, Config.Defaults, now);
  }

  /** A ten-row grid line (`RECV_ROVER_x,M,` and ten digit rows) has 12 fields, so it is echoed and nothing else. */
  lemma GridLineIsNotTelemetry(now: Timestamp)
    ensures var line := Config.DefaultTelemetryPrefix + Join(GridFields(), ',');
      HandleLine(line, Config.Defaults, now) == [SerialIn(line, now)]
  {
    var p := Config.DefaultTelemetryPrefix;
    var line := p + Join(GridFields(), ',');
    GridLineShape();
    assert !RoverParser.TryParseTelemetry(line, p, now).Parsed?;
    FailedTelemetryOnlyEchoed(line, now);
  }

  /** The fields of a ten-row obstacle grid frame: frame id, mode, then ten rows of ten cells. */
  function GridFields(): (fs: seq<string>)
    ensures |fs| == 12
  {
    var row := "0000000000";
    ["x", "M", row, row, row, row, row, row, row, row, row, row]
  }

  lemma GridFieldsWellFormed()
    ensures var fs := GridFields();
      forall k :: 0 <= k < |fs| ==> |fs[k]| > 0 && Trimmed(fs[k]) && ',' !in fs[k]
  {
    var row := "0000000000";
    assert Trimmed(row) && ',' !in row by { assert row[0] == '0' && row[9] == '0'; }
  }

  /** The grid line is its own stripped form and carries exactly its 12 fields. */
  lemma GridLineShape()
    ensures var p := Config.DefaultTelemetryPrefix;
      var line := p + Join(GridFields(), ',');
      && Strip(line) == line
      && StartsWith(line, p)
      && RoverParser.PayloadFields(line, p) == GridFields()
  {
    GridFieldsWellFormed();
    var p := Config.DefaultTelemetryPrefix;
    assert |p| > 0 && Trimmed(p) by { assert p[0] == 'R' && p[|p| - 1] == '_'; }
    PrefixedLine(p, GridFields());
  }

  /** A trimmed prefix followed by well-formed fields joined with commas is stripped already and reads back its fields. */
  lemma PrefixedLine(p: string, fs: seq<string>)
    requires |p| > 0 && Trimmed(p)
    requires |fs| >= 1
    requires forall k :: 0 <= k < |fs| ==> |fs[k]| > 0 && Trimmed(fs[k]) && ',' !in fs[k]
    ensures var line := p + Join(fs, ',');
      && Strip(line) == line
      && StartsWith(line, p)
      && RoverParser.PayloadFields(line, p) == fs
  {
    var j := Join(fs, ',');
    var line := p + j;
    assert line[..|p|] == p;
    assert line[|p|..] == j;
    RoverParser.FieldsOfJoin(fs);
    RoverParser.JoinTrimmed(fs);
    assert Trimmed(line) by {
      assert line[0] == p[0];
      assert line[|line| - 1] == j[|j| - 1];
    }
    StripTrimmed(line);
  }

  // ---------- writing a line ----------

  /** `send_line`'s payload: a newline is appended when asked for and not already there. */
  function Payload(text: string, appendNl: bool): (p: string)
    ensures |p| >= |text| && p[..|text|] == text
    ensures p == text + "\n" <==> appendNl && !EndsWith(text, '\n')
    ensures p != text + "\n" ==> p == text
    ensures appendNl && text != "" ==> EndsWith(p, '\n')
  {
    if appendNl && !EndsWith(text, '\n') then text + "\n" else text
  }

  /** Bytes of the UTF-8 encoding of `s`: one to four per character. */
  function Utf8Length(s: string): (n: nat)
    ensures |s| <= n <= 4 * |s|
  {
    if |s| == 0 then 0
    else
      var c := s[0] as int;
      (if c < 0x80 then 1 else if c < 0x800 then 2 else if c < 0x10000 then 3 else 4) + Utf8Length(s[1..])
  }

  /** What `send_line` does: nothing for empty text, else a write that succeeds (and is echoed) or raises. */
  datatype SendOutcome =
    | NothingSent
    | Written(payload: string, bytesWritten: nat, echo: Event)
    | WriteRaised(payload: string)

  /** `send_line`'s return value, or None where it raises. */
  function Returned(o: SendOutcome): Option<nat> {
    match o
    case NothingSent => Some(0)
    case Written(_, n, _) => Some(n)
    case WriteRaised(_) => None
  }

  /** `send_line` returns 0 for empty text, the UTF-8 length of the payload after a write, and raises on a closed port. */
  lemma SendLineReturns(text: string, appendNl: bool, portWritable: bool, now: Timestamp)
    ensures Returned(SendLine(text, appendNl, portWritable, now)) ==
      if text == "" then Some(0)
      else if portWritable then Some(Utf8Length(Payload(text, appendNl)))
      else None
  {
  }

  /**
   * `send_line(text, append_nl)`. `portWritable` says whether `_write_bytes`
   * returns (the port is open and the driver accepts the write) or raises.
   * A blocking write returns the full length of the UTF-8 payload.
   */
  function SendLine(text: string, appendNl: bool, portWritable: bool, now: Timestamp): (o: SendOutcome)
    ensures text == "" <==> o == NothingSent
    ensures text != "" && !portWritable ==> o == WriteRaised(Payload(text, appendNl))
    ensures o.Written? ==>
      && portWritable
      && o.payload == Payload(text, appendNl)
      && o.bytesWritten == Utf8Length(o.payload) && o.bytesWritten >= |text| > 0
      && o.echo == SerialOut(RStripNewlines(o.payload), now)
  {
    if text == "" then NothingSent
    else
      var payload := Payload(text, appendNl);
      if portWritable then Written(payload, Utf8Length(payload), SerialOut(RStripNewlines(payload), now))
      else WriteRaised(payload)
  }

  /** The echo is the text without its trailing CR/LF, whether or not a newline was appended. */
  lemma EchoIgnoresAppendedNewline(text: string, appendNl: bool)
    ensures RStripNewlines(Payload(text, appendNl)) == RStripNewlines(text)
  {
    var p := Payload(text, appendNl);
    if p != text {
      assert p[..|p| - 1] == text;
    }
  }

  /** Text with no trailing CR/LF is written with exactly one newline and echoed unchanged. */
  lemma PlainLineFraming(text: string, now: Timestamp)
    requires text != "" && !IsNewline(text[|text| - 1])
    ensures var o := SendLine(text, true, true, now);
      && o.Written?
      && o.payload == text + "\n"
      && o.echo == SerialOut(text, now)
  {
    RStripNewlinesAppend(text, "\n");
  }

  // ---------- WASD commands ----------

  /** The worker's default key map. */
  const DefaultWasdMap: map<string, string> :=
    map["w" := "CMD:w", "a" := "CMD:a", "s" := "CMD:s", "d" := "CMD:d", " " := "CMD:stop"]

  /** `wasd_map or {...}`: a missing or empty custom map falls back to the default. */
  function WasdMapOf(custom: Option<map<string, string>>): (m: map<string, string>)
    ensures custom.Some? && |custom.value| > 0 ==> m == custom.value
    ensures custom.None? || |custom.value| == 0 ==> m == DefaultWasdMap
  {
    if custom.Some? && |custom.value| > 0 then custom.value else DefaultWasdMap
  }

  /** The `duration_ms` argument after Python's `int(...)`. */
  datatype Duration =
    | NoDuration          // `duration_ms is None`
    | Millis(ms: int)     // `int(duration_ms)` returned
    | NotAnInteger        // `int(duration_ms)` raises

  /**
   * The f-string can write the duration: none is given, or `str` accepts its
   * integer (at most `MaxStrDigits` digits).
   */
  predicate Renders(duration: Duration) {
    match duration
    case NoDuration => true
    case Millis(ms) => Numbers.DigitCount(ms) <= Numbers.MaxStrDigits
    case NotAnInteger => false
  }

  /** What `send_wasd` decides before writing. */
  datatype WasdCommand = NoCommand | CommandLine(line: string) | DurationError

  /**
   * `send_wasd(key, duration_ms)` up to its `send_line` call: the key is
   * lower-cased and looked up; a missing or empty command sends nothing;
   * a duration is appended as `,<int(duration)>`, and `int` or the
   * f-string raising is a `DurationError`.
   */
  function WasdCommandLine(key: string, duration: Duration, m: map<string, string>): (r: WasdCommand)
    ensures key == "" ==> r == NoCommand
    ensures r.NoCommand? <==> key == "" || Lower(key) !in m || m[Lower(key)] == ""
    ensures r.DurationError? <==> !r.NoCommand? && !Renders(duration)
    ensures r.CommandLine? ==>
      var cmd := m[Lower(key)];
      && Lower(key) in m
      && (duration.NoDuration? ==> r.line == cmd)
      && (duration.Millis? ==> r.line == cmd + "," + Numbers.IntToDecimal(duration.ms))
  {
    if key == "" then NoCommand
    else
      var k := Lower(key);
      if k !in m || m[k] == "" then NoCommand
      else
        match duration
        case NoDuration => CommandLine(m[k])
        case Millis(ms) =>
          if Numbers.DigitCount(ms) <= Numbers.MaxStrDigits then CommandLine(m[k] + "," + Numbers.IntToDecimal(ms))
          else DurationError
        case NotAnInteger => DurationError
  }

  /** Keys are case-insensitive: `W` and `w` send the same command. */
  lemma WasdCaseInsensitive(key: string, duration: Duration, m: map<string, string>)
    ensures WasdCommandLine(key, duration, m) == WasdCommandLine(Lower(key), duration, m)
  {
    LowerIdempotent(key);
  }

  /** Under the default map `W` becomes `CMD:w` and the space bar `CMD:stop`. */
  lemma DefaultWasdExamples()
    ensures WasdCommandLine("W", NoDuration, DefaultWasdMap) == CommandLine("CMD:w")
    ensures WasdCommandLine(" ", NoDuration, DefaultWasdMap) == CommandLine("CMD:stop")
    ensures WasdCommandLine("x", NotAnInteger, DefaultWasdMap) == NoCommand
  {
    assert Lower("W") == "w";
    assert Lower(" ") == " ";
    assert Lower("x") == "x";
  }

  /** A timed command reads back: before the comma the command, after it the duration. */
  lemma WasdDurationRoundTrip(key: string, ms: int, m: map<string, string>)
    requires WasdCommandLine(key, Millis(ms), m).CommandLine?
    requires ',' !in m[Lower(key)]
    ensures var parts := Split(WasdCommandLine(key, Millis(ms), m).line, ',');
      && parts == [m[Lower(key)], Numbers.IntToDecimal(ms)]
      && Numbers.ParseDecimal(parts[1]) == Some(ms)
  {
    var cmd := m[Lower(key)];
    var d := Numbers.IntToDecimal(ms);
    assert ',' !in d by {
      if ms < 0 { assert d[1..] == Numbers.NatToDecimal(-ms); assert forall i :: 1 <= i < |d| ==> d[i] == d[1..][i - 1]; }
    }
    assert Join([cmd, d], ',') == cmd + "," + d by {
      assert [cmd, d][1..] == [d];
    }
    SplitJoin([cmd, d], ',');
    Numbers.DecimalRoundTrip(ms);
  }
}
