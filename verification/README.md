# Rover serial bridge — a Dafny model

The backend of the rover monitor is a serial-to-WebSocket bridge. A worker
thread reads lines from the rover's serial port. Each line is echoed to the
console, then decoded as telemetry (a prefix and at least 24 comma-separated
numbers, optionally followed by two 3-bit strings) or as an image (a prefix
and one Base64 payload). WebSocket clients and a REST endpoint send text the
other way: console lines, WASD drive commands and raw text. Settings come
from environment variables.

This project models the decisions the bridge makes, as pure functions:

- `Text`: the Python string operations the code relies on. These are `strip()`,
  `rstrip("\r\n")`, `split(",")`, `startswith`, `endswith` and `lower()`.
- `Numbers`: `int(text)` and `str(int)`. It also sorts a `float(token)` result
  into finite, infinite or not a number.
- `Base64`: `base64.b64decode(text, validate=True)`, modelled as the strict
  decoder loop and proved equal to a declarative reading of canonical RFC 4648
  text. The RFC 4648 encoder is the decoder's partner.
- `Models`: the records `TelemetryRover`, `ImageFrame`, `SerialSendRequest` and
  `SerialSendResponse`, and the 3-bit action and obstacle codes.
- `RoverParser`: `try_parse_telemetry` and `try_parse_image`.
- `SerialService`: one iteration of the reader loop, from one received line to
  the list of events it emits. It also covers `send_line` (payload, byte count,
  echo) and `send_wasd` (which command line a key and a duration produce).
- `Config`: `_env_bool`, `_env_str`, `_env_int`, the CORS origin list, the
  defaults and `Settings()` over an environment map.
- `PyValue`: the JSON values `json.loads` yields, and Python's `dict.get`,
  truthiness, `str(x)` and `int(x)` on them.
- `Commands`: which text a WebSocket command or a REST request sends to the
  port. Over the WebSocket `data` wins over `line`; over REST `line` wins over
  `data`.

Python's `time.time()` is the parameter `now`. Whether a serial worker runs is
the parameter `workerPresent`. Whether the port accepts a write is the
parameter `portWritable`. The result of `json.loads` is an input `Option<Json>`,
where None means the call raised. Where the Python code raises and catches,
the model returns a datatype case. Examples are `TelemetryParse.ConversionError`,
`Duration.NotAnInteger`, `SendOutcome.WriteRaised` and `WsReaction.Disconnect`.

The worker's default key map sends `CMD:w`, `CMD:a`, `CMD:s`, `CMD:d` and
`CMD:stop` (`BackEnd/app/services/serial_service.py`, lines 42-48).

## Model

| member | source | states |
|---|---|---|
| RoverParser.TryParseTelemetry | BackEnd/app/services/rover_parser.py:19-104 | A line without the prefix, or with fewer than 24 non-empty fields, is not telemetry. `int()` raises exactly when the first or second field is not a finite number. A decoded record is built from the payload's fields. |
| RoverParser.NonBlank | BackEnd/app/services/rover_parser.py:30 | Every kept field is non-empty and has no surrounding whitespace. There are never more fields than pieces. |
| RoverParser.NonBlankCons | BackEnd/app/services/rover_parser.py:30 | Unfolding of the list comprehension by one step: the first piece is filtered on its own, ahead of the rest. |
| RoverParser.NonBlankSingle | BackEnd/app/services/rover_parser.py:30 | A single piece gives its stripped text as a field, or nothing when that is empty. |
| RoverParser.NonBlankAppend | BackEnd/app/services/rover_parser.py:30 | Filtering the pieces of two lists in a row gives the fields of the first followed by those of the second, so every piece is kept or dropped on its own and order is preserved. |
| RoverParser.NonBlankKeepsOut | BackEnd/app/services/rover_parser.py:30 | Comma-free pieces give comma-free fields. |
| RoverParser.Fields | BackEnd/app/services/rover_parser.py:29-30 | The fields of a payload are non-empty and stripped. |
| RoverParser.FieldsHaveNoComma | BackEnd/app/services/rover_parser.py:29-30 | No field of a payload holds a comma. |
| RoverParser.FieldsOfJoin | BackEnd/app/services/rover_parser.py:29-30 | Fields written with single commas and no padding read back one for one (the partner of field splitting). |
| RoverParser.EmptyFieldsDropped | BackEnd/app/services/rover_parser.py:29-30 | For any two clean fields `x` and `y`, the payload `x,,y` has exactly the two fields `x` and `y`. |
| RoverParser.SplitExample | BackEnd/app/services/rover_parser.py:30 | Splitting `a,,b` at commas keeps the empty piece between the commas. |
| RoverParser.NonBlankDropsBlank | BackEnd/app/services/rover_parser.py:30 | A piece holding only whitespace is dropped, and its neighbours are kept as their stripped text. |
| RoverParser.ParsedLineNotEmpty | BackEnd/app/services/rover_parser.py:29-34 | A line that decodes as telemetry is not empty. |
| RoverParser.ToReading | BackEnd/app/services/rover_parser.py:41-46 | A token becomes a finite reading exactly when `float` reads it as a finite literal, and an infinite one exactly when `float` reads it as infinity. A token `float` rejects, or reads as nan, becomes NaN instead of failing. |
| RoverParser.TrailingBits | BackEnd/app/services/rover_parser.py:63-71 | With fewer than two fields after the 24th there are no bit strings. Otherwise the bit strings are the last two fields, not the 25th and 26th. |
| RoverParser.Code | BackEnd/app/services/rover_parser.py:74-86 | A code exists exactly when its bit string is three characters over `0`/`1`. It is then the binary value of the string, and writing that value back as bits gives the string. |
| RoverParser.Record | BackEnd/app/services/rover_parser.py:88-104 | The record carries the clock reading and the stripped line. The first two fields are rssi and avg rssi. Fields 3 to 24 fill the 22 float slots in order. The bits and codes come from the trailing fields. |
| RoverParser.ParsedRecord | BackEnd/app/services/rover_parser.py:33-104 | With the prefix, at least 24 fields and finite first two fields, the line decodes. Extra fields never cause rejection. The record holds the stated slots, bits and codes, and codes agree with their bits. |
| RoverParser.TelemetryRoundTrip | BackEnd/app/services/rover_parser.py:19-104 | A line assembled from 24 tokens and two 3-bit strings decodes back to those tokens and to the two bit values. |
| RoverParser.BitsTrimmed | BackEnd/app/services/rover_parser.py:74-75 | A 3-bit string survives field splitting unchanged. |
| RoverParser.TryParseImage | BackEnd/app/services/rover_parser.py:107-124 | An image is decoded exactly when the line has the prefix and the stripped payload is canonical Base64. The frame carries the clock reading, `data:<mime>;base64,<payload>` and the decoded byte count. |
| RoverParser.DataUrl | BackEnd/app/services/rover_parser.py:123 | The URL is `data:`, the MIME type, `;base64,` and the payload, in that order and with nothing else. |
| RoverParser.DataUrlRoundTrip | BackEnd/app/services/rover_parser.py:123 | The MIME type and the payload can be read back from the data URL. |
| RoverParser.AcceptedIsStripped | BackEnd/app/services/rover_parser.py:115-121 | Text the strict decoder accepts has no surrounding whitespace. |
| RoverParser.ImageRoundTrip | BackEnd/app/services/rover_parser.py:107-124 | A prefixed standard Base64 encoding of any bytes is accepted, with the encoding as payload and the input's length as `raw_len`. |
| Base64.Run | BackEnd/app/services/rover_parser.py:118-121 | A run that succeeds has seen only alphabet characters and pads, and never reports fewer bytes than were already written. |
| Base64.StrictDecodedLength | BackEnd/app/services/rover_parser.py:118-121 | Empty text decodes to zero bytes, and accepted text holds only alphabet characters and pads. |
| Base64.StrictDecodedLengthSpec | BackEnd/app/services/rover_parser.py:118-121 | The strict decoder accepts exactly the canonical texts. These are alphabet characters, then no pad after whole quanta, `=` after three leftover characters and `==` after two. It then yields the byte count those characters carry. |
| Base64.RunData | BackEnd/app/services/rover_parser.py:118-121 | After `i` data characters the decoder's position and written count depend on `i` alone. |
| Base64.RunAfterLonePad | BackEnd/app/services/rover_parser.py:118-121 | A pad after a single leftover data character always fails. |
| Base64.AcceptedShape | BackEnd/app/services/rover_parser.py:118-121 | Accepted text is alphabet characters followed by at most two pads, and its length is a multiple of 4. |
| Base64.EncodeShape | BackEnd/app/services/rover_parser.py:118-121 | The standard encoding of `n` bytes is canonical and carries exactly `n` bytes. |
| Base64.EncodeAccepted | BackEnd/app/services/rover_parser.py:118-124 | Decoding a standard encoding succeeds and reports the original byte count. |
| Models.BinaryValue | BackEnd/app/models.py:37-40 | The code of a 3-bit string lies in 0..7. |
| Models.BitsRoundTrip | BackEnd/app/models.py:37-52 | Bit strings and codes are in one-to-one correspondence. |
| Models.ObstacleOneHotCodes | BackEnd/app/models.py:41-44 | The obstacle patterns `000`, `100`, `010` and `001` carry the codes 0, 4, 2 and 1. |
| SerialService.TelemetryOf | BackEnd/app/services/serial_service.py:153-158 | The telemetry attempt yields a record exactly when the decoder returns one. A decoder exception counts as no record. |
| SerialService.HandleLine | BackEnd/app/services/serial_service.py:139-187 | A line gives no events exactly when it is all whitespace. Otherwise the first event echoes the stripped line. At most three events are emitted. The only later console line is the image placeholder. |
| SerialService.Decoded | BackEnd/app/services/serial_service.py:153-187 | After the echo there are at most two events, and the only console line among them is the image placeholder. |
| SerialService.HandleLineUnfold | BackEnd/app/services/serial_service.py:139-151 | Unfolding of the loop body for a non-blank line: it is echoed first and then decoded. |
| SerialService.DecodedTelemetry | BackEnd/app/services/serial_service.py:160-165 | A decoded record is emitted and nothing else follows. |
| SerialService.TelemetryShadowsImage | BackEnd/app/services/serial_service.py:154-165 | A line that decodes as telemetry gives exactly the echo and the telemetry event. It is never tried as an image. |
| SerialService.FallThroughToImage | BackEnd/app/services/serial_service.py:153-187 | A line that is not telemetry, including one whose decoding raised, is tried as an image. A decoded image adds the image event and the `<image_frame_base64>` console line. |
| SerialService.DefaultPrefixesExclusive | BackEnd/app/core/config.py:59-60 | No line starts with both default prefixes. |
| SerialService.FailedTelemetryOnlyEchoed | BackEnd/app/services/serial_service.py:153-191 | Under the defaults, a telemetry-prefixed line that does not decode is only echoed. |
| SerialService.GridLineIsNotTelemetry | BackEnd/app/services/rover_parser.py:33-34 | A `RECV_ROVER_x,M,` line with ten grid rows has 12 fields, so it is only echoed. |
| SerialService.GridFields | BackEnd/app/services/rover_parser.py:33-34 | A ten-row grid frame has 12 fields. |
| SerialService.GridFieldsWellFormed | BackEnd/app/services/rover_parser.py:30 | Every grid field is non-empty, stripped and comma-free. |
| SerialService.GridLineShape | BackEnd/app/services/rover_parser.py:25-30 | The grid line is already stripped, carries the telemetry prefix and has exactly the grid's fields. |
| SerialService.PrefixedLine | BackEnd/app/services/rover_parser.py:25-30 | A trimmed prefix followed by comma-joined fields is already stripped and reads back its fields. |
| SerialService.Payload | BackEnd/app/services/serial_service.py:84 | The payload extends the text. `\n` is appended exactly when asked for and the text does not already end in `\n`. Otherwise the payload is the text itself. |
| SerialService.Utf8Length | BackEnd/app/services/serial_service.py:85 | The UTF-8 encoding takes between one and four bytes per character. |
| SerialService.SendLine | BackEnd/app/services/serial_service.py:77-95 | Empty text sends nothing and returns 0. A closed port raises with nothing echoed. A successful write returns the UTF-8 length of the payload and is echoed without trailing CR/LF. |
| SerialService.SendLineReturns | BackEnd/app/services/serial_service.py:77-95 | `send_line` returns 0 for empty text and the UTF-8 length of the payload after a write. It raises when the port cannot be written. |
| SerialService.EchoIgnoresAppendedNewline | BackEnd/app/services/serial_service.py:84-94 | The echo is the text without its trailing CR/LF, whether or not a newline was appended. |
| SerialService.PlainLineFraming | BackEnd/app/services/serial_service.py:84-94 | Text not ending in CR/LF is written with exactly one `\n` and echoed unchanged. |
| SerialService.WasdMapOf | BackEnd/app/services/serial_service.py:42-48 | A missing or empty custom key map falls back to the default map. |
| SerialService.WasdCommandLine | BackEnd/app/services/serial_service.py:97-115 | An empty key, an unmapped key or an empty command sends nothing. The key is lower-cased before lookup. A duration appends `,<int(duration)>`. A duration `int` rejects, or whose integer has more digits than `str` will write, raises. |
| SerialService.WasdCaseInsensitive | BackEnd/app/services/serial_service.py:103-106 | A key and its lower-case form give the same command. |
| SerialService.DefaultWasdExamples | BackEnd/app/services/serial_service.py:42-48 | Under the default map `W` sends `CMD:w` and the space bar `CMD:stop`. `x` sends nothing. |
| SerialService.WasdDurationRoundTrip | BackEnd/app/services/serial_service.py:110-111 | Splitting a timed command at its comma gives back the command and a field that parses to the duration. |
| Config.EnvBool | BackEnd/app/core/config.py:7-11 | Unset gives the default. A set value is on exactly when its stripped, lower-cased text is a truthy word, regardless of the default. |
| Config.EnvBoolSpelling | BackEnd/app/core/config.py:11 | Surrounding whitespace and letter case do not matter. |
| Config.EnvStr | BackEnd/app/core/config.py:13-18 | Unset or all-whitespace gives the default. Anything else gives its non-empty stripped text. A non-empty trimmed default therefore always gives a non-empty trimmed value. |
| Config.EnvInt | BackEnd/app/core/config.py:20-30 | Unset, blank or not an integer gives the default. Anything else gives its integer value. |
| Config.CorsOrigins | BackEnd/app/core/config.py:48-50 | The origin list has one entry per comma-separated piece of the value (default `*`), each stripped. Empty entries are kept. |
| Config.CorsOriginsRoundTrip | BackEnd/app/core/config.py:48-50 | An origin list joined with commas reads back entry for entry. |
| Config.LoadSettings | BackEnd/app/core/config.py:44-61 | Whatever the environment, both prefixes and the MIME type are non-empty, and the prefixes carry no surrounding whitespace. |
| Config.EmptyEnvironmentGivesDefaults | BackEnd/app/core/config.py:44-61 | An empty environment yields `0.0.0.0:8000`, origins `["*"]`, serial on, `COM4` at 115200 baud, `RECV_ROVER_`, `IMG_ROVER_` and `image/jpeg`. |
| Numbers.ParseDecimal | BackEnd/app/core/config.py:27-30 | Text is accepted exactly when it is 1 to 4300 digits, or a sign followed by 1 to 4300 digits. Its value is the digits' decimal value, negated after `-`. |
| Numbers.ParseDecimalExamples | BackEnd/app/core/config.py:27-30 | `+5` gives 5, `007` gives 7 and `-0` gives 0. A lone `+`, the empty text and `1-` are rejected. |
| Numbers.IntToDecimal | BackEnd/app/services/serial_service.py:111 | `str(i)` is a `-` exactly for negative `i`, then `DigitCount(i)` digits without a leading zero. |
| Numbers.DecimalRoundTrip | BackEnd/app/services/serial_service.py:111 | Rendering an integer of at most 4300 digits and reading it back gives the same integer. A longer rendering is refused. |
| Numbers.PyInt | BackEnd/app/services/serial_service.py:111 | `int(text)` on text without surrounding whitespace is the sign-and-digits reading. |
| Numbers.PyIntPadding | BackEnd/app/services/serial_service.py:111 | Whitespace on either side of the number does not change what `int(text)` returns. |
| Numbers.FloatSyntax | BackEnd/app/services/rover_parser.py:41-46 | `float("")` raises, and a run of digits is a finite float. |
| Numbers.FloatSyntaxSign | BackEnd/app/services/rover_parser.py:41-46 | A leading `+` or `-` never changes whether the rest is finite, infinite or not a number. |
| Numbers.DottedFloat | BackEnd/app/services/rover_parser.py:41-46 | Digits, a dot and digits form a finite float when either side has a digit; a lone dot is not a number. |
| Numbers.TwoDotsFloat | BackEnd/app/services/rover_parser.py:41-46 | A token with a second dot is not a number. |
| Numbers.ExponentFloat | BackEnd/app/services/rover_parser.py:41-46 | Digits, `e` or `E` and an optionally signed exponent form a finite float. |
| Numbers.BareExponent | BackEnd/app/services/rover_parser.py:41-46 | An exponent with no mantissa before it is not a number. |
| Numbers.InfinityWords | BackEnd/app/services/rover_parser.py:41-46 | `inf` and `infinity` in any letter case, signed or not, are infinite. |
| Numbers.DotExamples | BackEnd/app/services/rover_parser.py:41-46 | `.5` and `5.` are finite floats; `.` is not a number. |
| Numbers.ExponentExamples | BackEnd/app/services/rover_parser.py:41-46 | `1e-3` is a finite float; `e5` is not a number. |
| Numbers.WordAndDotsExamples | BackEnd/app/services/rover_parser.py:41-46 | `-iNF` is infinite; `1.2.3` is not a number. |
| Numbers.IntIsFiniteFloat | BackEnd/app/services/rover_parser.py:41-46 | An integer's decimal rendering is a finite float literal. |
| PyValue.Get | BackEnd/app/main.py:59 | `d.get(key)` finds a value exactly when some member has the key, and the value it finds belongs to such a member. |
| PyValue.PyStr | BackEnd/app/main.py:64 | `str` returns a string unchanged. It renders every other value, and every truthy value, as a non-empty string. |
| PyValue.PyIntOf | BackEnd/app/services/serial_service.py:111 | `int` maps booleans to 1 and 0 and parses strings as `int(text)` does. It raises on null, lists and objects. |
| PyValue.IntRoundTrip | BackEnd/app/services/serial_service.py:111 | A JSON integer converts back to itself. Its decimal rendering as a string converts back to it exactly when it has at most 4300 digits. |
| PyValue.FalsyValues | BackEnd/app/main.py:64 | The values an `or` skips are exactly None, False, a numeric zero and an empty string, list or object. |
| Commands.WasdDuration | BackEnd/app/main.py:75 | An absent or null `duration_ms` means no duration. Any other value is converted with `int`, and a failed conversion is an error. |
| Commands.SerialWriteText | BackEnd/app/main.py:62-70 | Text is sent exactly when a worker runs and `data` or `line` is truthy. It is `str(data)` when `data` is truthy, else `str(line)`. |
| Commands.WasdText | BackEnd/app/main.py:73-80 | A command is sent exactly when a worker runs, the lower-cased `str(key)` is a mapped key and the duration converts and can be written. It is the command `send_wasd` builds. |
| Commands.RawText | BackEnd/app/main.py:83-89 | Text is sent exactly when a worker runs and `payload` is present and not the empty string. It is `str(payload)`. |
| Commands.WsMessage | BackEnd/app/main.py:52-97 | Non-JSON is ignored. JSON that is not an object ends the session. Anything sent is non-empty and needs a worker. Unknown types send nothing. |
| Commands.WsWasdIsCaseInsensitive | BackEnd/app/main.py:73-80 | A `wasd` message with any spelling of a mapped key and an integer duration of at most 4300 digits sends `<command>,<duration>`. A longer duration sends nothing. |
| Commands.WsRawNullSendsNone | BackEnd/app/main.py:83-87 | A `raw` message whose payload is null sends the text `None`. |
| Commands.ChosenText | BackEnd/app/main.py:153 | `line` is used when non-empty, else `data`, else the empty string. |
| Commands.SerialSendCore | BackEnd/app/main.py:143-163 | With no worker the response is `(false, 0)`. It is `ok` exactly when a worker runs, the port accepts the write and the chosen text minus trailing CR/LF is non-empty. It then reports the UTF-8 length of that text plus one newline. |
| Commands.RestIgnoresTrailingNewlines | BackEnd/app/main.py:153-159 | Trailing CR/LF in the request do not change the response. |
| Commands.PrecedenceDiffers | BackEnd/app/main.py:64-153 | With both fields set, the WebSocket sends `data` while REST chooses `line`. |
| Text.Strip | BackEnd/app/services/rover_parser.py:29 | `strip()` returns text no longer than the input with no whitespace at its ends. |
| Text.StripSlice | BackEnd/app/services/rover_parser.py:29 | The result of `strip()` is a slice of the input with only whitespace on either side of it. |
| Text.StripKeepsOut | BackEnd/app/services/rover_parser.py:29-30 | Stripping never introduces a character the input lacks. |
| Text.StripUnique | BackEnd/app/services/rover_parser.py:29 | Any whitespace-bounded trimmed slice is the result of `strip()`. |
| Text.StripEmpty | BackEnd/app/core/config.py:17-18 | `strip()` is empty exactly when the text is all whitespace. |
| Text.RStripNewlines | BackEnd/app/services/serial_service.py:91 | `rstrip("\r\n")` keeps a prefix of the text, removes only CR and LF, and leaves no CR or LF at the end. |
| Text.RStripNewlinesAppend | BackEnd/app/main.py:153 | Appended CR/LF characters are removed again by `rstrip("\r\n")`. |
| Text.Lower | BackEnd/app/services/serial_service.py:105 | `lower()` keeps the length, changes each ASCII capital to its small letter and leaves every other character alone. |
| Text.LowerIdempotent | BackEnd/app/main.py:74 | Lower-casing twice is the same as once. |
| Text.JoinSplit | BackEnd/app/core/config.py:49 | Joining the split pieces gives back the text. |
| Text.SplitJoin | BackEnd/app/core/config.py:49 | Splitting comma-free pieces joined with commas gives back the pieces. |
| Text.Split | BackEnd/app/core/config.py:49 | `split` gives at least one piece, and no piece holds the separator. |
| Text.Find | BackEnd/app/core/config.py:49 | The index found holds the character and no earlier index does. |
| Text.FindFirst | BackEnd/app/core/config.py:49 | An occurrence with none before it is the one found. |
| Text.SplitAtFirst | BackEnd/app/core/config.py:49 | Text before the first separator becomes the first piece, and the rest is split on its own. |

## Left out

- Serial port I/O: opening, closing and reopening the port, back-off sleeps, the reader thread, the write lock and line framing by `readline` are not modelled. They are I/O and concurrency; the model starts from one received line and one write outcome.
- Decoding port bytes with `decode("utf-8", errors="ignore")` is not modelled: the model receives the decoded text.
- WebSocket connection management (`WSManager`), broadcasting, FastAPI routing, the swappable REST handler and the startup/shutdown hooks are not modelled. They are framework plumbing.
- Logging (`print`) is left out. It has no effect on the decisions.
- `_env_float` and `serial_timeout_s` are left out: they are floating point.
- Models.TelemetryRover: the float slots hold the token and whether `float` reads it as finite, infinite or not a number, not the float value. Likewise `rssi` and `avg_rssi` hold the finite token rather than `int(float(token))`.
- Numbers.FloatSyntax: only ASCII digits, an optional sign, a dot, an exponent, `inf`, `infinity` and `nan` are recognised. Digit underscores and non-ASCII digits are not. A finite literal whose value overflows (`1e999`, which `float` reads as infinity) is classed as finite.
- RoverParser.TryParseTelemetry: for the same reason, an rssi or avg rssi token that overflows to infinity is accepted, where `int()` would raise and the line would not be telemetry.
- Numbers.ParseDecimal: `int()` on text is modelled as an optional sign and ASCII digits; underscores between digits and non-ASCII decimal digits, which Python also accepts, are not. The 4300-digit limit is the interpreter's default; raising or lowering it with `PYTHONINTMAXSTRDIGITS` or `sys.set_int_max_str_digits` is not modelled.
- Text.Lower: ASCII case folding only, where Python folds all of Unicode. For the truthy words in `Config` and the default WASD keys this makes no difference: no non-ASCII character lower-cases to one of those words or keys.
- SerialService.WasdCommandLine: over a custom key map with non-ASCII keys the model can miss a match Python makes, because of the ASCII-only `Text.Lower`: with the map `{"é": "CMD:e"}`, the key `É` sends `CMD:e` in Python and nothing here. The application only uses the default map, whose keys are ASCII.
- Base64.StrictDecodedLength: follows the strict decoder of Python 3.11 and later. Older versions check the alphabet with a regular expression and then decode leniently, which also accepts surplus padding such as `AAA==`.
- SerialService.HandleLine: one clock reading `now` stands for every `time.time()` call made while handling the line.
- PyValue.PyStr: strings inside a list or an object are shown in single quotes without escaping. Python picks the quote character from the content and escapes special characters. A float's rendering is given rather than computed.
- PyValue.Number: a JSON integer of more than 4300 digits is representable, although `json.loads` refuses it. For such an integer `PyStr` renders the digits where `str` would raise.
- PyValue.Json: object members are a sequence and `Get` takes the first match. `json.loads` keeps only the last of duplicate keys, so an object given with a repeated key is outside what the model describes faithfully.
- SerialService.Utf8Length: Python strings holding lone surrogates, which JSON `\ud800` escapes can produce and `errors="ignore"` drops on encoding, are not representable, since `char` excludes surrogates.
- Commands.WasdText: only the worker's default key map is modelled, because the application never passes a custom one.
