/**
 * Which text a client command makes the bridge write to the serial port.
 * Over the WebSocket a command is a JSON object with a `type` of
 * `serial_write`, `wasd` or `raw`; over REST it is a `SerialSendRequest`.
 * The two paths read the same two fields in opposite order of preference.
 */
module Commands {
  import opened Wrappers
  import opened Text
  import opened PyValue
  import opened Models
  import SerialService

  // ---------- the WebSocket loop ----------

  /** What the WebSocket loop does with one text frame. */
  datatype WsReaction =
    | Ignored                         // not JSON: skipped, the session goes on
    | Disconnect                      // JSON but not an object: `data.get` raises and the session ends
    | Handled(sent: Option<string>)   // the text handed to `send_line(text, append_nl=True)`, if any

  /** `duration_ms`: absent or null means no duration, otherwise Python `int(...)` of the value. */
  function WasdDuration(members: seq<(string, Json)>): (d: SerialService.Duration)
    ensures d.NoDuration? <==> GetOr(members, "duration_ms", JNull) == JNull
    ensures d.Millis? ==> PyIntOf(GetOr(members, "duration_ms", JNull)) == Some(d.ms)
    ensures d.NotAnInteger? ==> PyIntOf(GetOr(members, "duration_ms", JNull)).None?
  {
    var v := GetOr(members, "duration_ms", JNull);
    if v == JNull then SerialService.NoDuration
    else
      match PyIntOf(v)
      case Some(ms) => SerialService.Millis(ms)
      case None => SerialService.NotAnInteger
  }

  /** The `serial_write` branch: `str(data or line or "")`, sent when non-empty. */
  function SerialWriteText(members: seq<(string, Json)>, workerPresent: bool): (sent: Option<string>)
    ensures var d, l := GetOr(members, "data", JNull), GetOr(members, "line", JNull);
      && (sent.Some? <==> workerPresent && (Truthy(d) || Truthy(l)))
      && (sent.Some? && Truthy(d) ==> sent.value == PyStr(d))
      && (sent.Some? && !Truthy(d) ==> sent.value == PyStr(l))
  {
    var d, l := GetOr(members, "data", JNull), GetOr(members, "line", JNull);
    var msg := if Truthy(d) then PyStr(d) else if Truthy(l) then PyStr(l) else PyStr(JString(""));
    if workerPresent && msg != "" then Some(msg) else None
  }

  /** The `wasd` branch: `str(key).lower()` through the worker's default key map. */
  function WasdText(members: seq<(string, Json)>, workerPresent: bool): (sent: Option<string>)
    ensures var key := Lower(PyStr(GetOr(members, "key", JString(""))));
      && (sent.Some? <==>
            && workerPresent && key != "" && key in SerialService.DefaultWasdMap
            && SerialService.Renders(WasdDuration(members)))
      && (sent.Some? ==> SerialService.WasdCommandLine(key, WasdDuration(members), SerialService.DefaultWasdMap)
                           == SerialService.CommandLine(sent.value))
  {
    var key := Lower(PyStr(GetOr(members, "key", JString(""))));
    LowerIdempotent(PyStr(GetOr(members, "key", JString(""))));
    assert forall k | k in SerialService.DefaultWasdMap :: SerialService.DefaultWasdMap[k] != "";
    if workerPresent && key != "" then
      match SerialService.WasdCommandLine(key, WasdDuration(members), SerialService.DefaultWasdMap)
      case CommandLine(line) => Some(line)
      case NoCommand => None
      case DurationError => None    // `int(...)` or the f-string raised inside `send_wasd`; the handler logs it
    else None
  }

  /** The `raw` branch: `str(payload)` with `""` for an absent payload, sent when non-empty. */
  function RawText(members: seq<(string, Json)>, workerPresent: bool): (sent: Option<string>)
    ensures sent.Some? <==> workerPresent && Get(members, "payload") != None && Get(members, "payload") != Some(JString(""))
    ensures sent.Some? ==> sent.value == PyStr(Get(members, "payload").value)
  {
    var payload := PyStr(GetOr(members, "payload", JString("")));
    if workerPresent && payload != "" then Some(payload) else None
  }

  /**
   * One frame of `ws_endpoint`. `parsed` is what `json.loads` returned, None
   * where it raised; `workerPresent` says whether a serial worker is running.
   */
  function WsMessage(parsed: Option<Json>, workerPresent: bool): (r: WsReaction)
    ensures r.Ignored? <==> parsed.None?
    ensures r.Disconnect? <==> parsed.Some? && !parsed.value.JObject?
    ensures r.Handled? && r.sent.Some? ==> workerPresent && r.sent.value != ""
    ensures r.Handled? ==>
      var t := Get(parsed.value.members, "type");
      t != Some(JString("serial_write")) && t != Some(JString("wasd")) && t != Some(JString("raw")) ==> r.sent.None?
  {
    match parsed
    case None => Ignored
    case Some(v) =>
      if !v.JObject? then Disconnect
      else
        var t := Get(v.members, "type");
        if t == Some(JString("serial_write")) then Handled(SerialWriteText(v.members, workerPresent))
        else if t == Some(JString("wasd")) then Handled(WasdText(v.members, workerPresent))
        else if t == Some(JString("raw")) then Handled(RawText(v.members, workerPresent))
        else Handled(None)
  }

  /** A `wasd` command reaches the port as the mapped command, lower-casing the key: `W` with 250 ms sends `CMD:w,250`; a duration too long for `str` sends nothing. */
  lemma WsWasdIsCaseInsensitive(key: string, ms: int)
    requires Lower(key) in SerialService.DefaultWasdMap
    ensures var msg := JObject([("type", JString("wasd")), ("key", JString(key)), ("duration_ms", JNumber(Int(ms)))]);
      WsMessage(Some(msg), true)
        == Handled(
             if Numbers.DigitCount(ms) <= Numbers.MaxStrDigits
             then Some(SerialService.DefaultWasdMap[Lower(key)] + "," + Numbers.IntToDecimal(ms))
             else None)
  {
    var members := [("type", JString("wasd")), ("key", JString(key)), ("duration_ms", JNumber(Int(ms)))];
    assert Get(members, "type") == Some(JString("wasd"));
    assert Get(members, "key") == Some(JString(key));
    assert Get(members[2..], "duration_ms") == Some(JNumber(Int(ms)));
    assert Get(members[1..], "duration_ms") == Some(JNumber(Int(ms)));
    assert Get(members, "duration_ms") == Some(JNumber(Int(ms)));
    assert WasdDuration(members) == SerialService.Millis(ms);
    LowerIdempotent(key);
    assert Lower(key) != "" by { assert "" !in SerialService.DefaultWasdMap; }
  }

  /** A `raw` command whose payload is JSON null sends the text `None`. */
  lemma WsRawNullSendsNone()
    ensures WsMessage(Some(JObject([("type", JString("raw")), ("payload", JNull)])), true) == Handled(Some("None"))
  {
    var members := [("type", JString("raw")), ("payload", JNull)];
    assert Get(members, "type") == Some(JString("raw"));
    assert Get(members, "payload") == Some(JNull);
  }

  // ---------- the REST endpoint ----------

  /** `req.line or req.data or ""`. */
  function ChosenText(req: SerialSendRequest): (text: string)
    ensures req.line.Some? && req.line.value != "" ==> text == req.line.value
    ensures (req.line.None? || req.line.value == "") && req.data.Some? ==> text == req.data.value
    ensures (req.line.None? || req.line.value == "") && req.data.None? ==> text == ""
  {
    if req.line.Some? && req.line.value != "" then req.line.value
    else if req.data.Some? && req.data.value != "" then req.data.value
    else ""
  }

  /**
   * `_serial_send_core(req)`. `workerPresent` says whether a worker runs,
   * `portWritable` whether its write returns rather than raises. The text is
   * written with one newline and the response reports the bytes written.
   */
  function SerialSendCore(req: SerialSendRequest, workerPresent: bool, portWritable: bool, now: Timestamp): (r: SerialSendResponse)
    ensures !workerPresent ==> r == SerialSendResponse(false, 0)
    ensures r.ok <==> workerPresent && portWritable && RStripNewlines(ChosenText(req)) != ""
    ensures r.ok ==> r.bytesWritten == SerialService.Utf8Length(RStripNewlines(ChosenText(req)) + "\n")
    ensures !r.ok ==> r.bytesWritten == 0
  {
    if !workerPresent then SerialSendResponse(false, 0)
    else
      var line := RStripNewlines(ChosenText(req));
      if line == "" then SerialSendResponse(false, 0)
      else
        assert !EndsWith(line, '\n');
        var o := SerialService.SendLine(line, true, portWritable, now);
        if o.Written? then SerialSendResponse(true, o.bytesWritten) else SerialSendResponse(false, 0)
  }

  /** Trailing CR/LF in the request make no difference: the line is sent with exactly one newline either way. */
  lemma RestIgnoresTrailingNewlines(text: string, tail: string, workerPresent: bool, portWritable: bool, now: Timestamp)
    requires |text| == 0 || !IsNewline(text[|text| - 1])
    requires forall i :: 0 <= i < |tail| ==> IsNewline(tail[i])
    ensures SerialSendCore(SerialSendRequest(Some(text + tail), None), workerPresent, portWritable, now)
         == SerialSendCore(SerialSendRequest(Some(text), None), workerPresent, portWritable, now)
  {
    RStripNewlinesAppend(text, tail);
    RStripNewlinesAppend(text, "");
    assert text + "" == text;
    if text + tail == "" {
      assert text == "";
    }
  }

  /**
   * The two paths disagree when both fields are set: over the WebSocket
   * `data` wins, over REST `line` wins.
   */
  lemma PrecedenceDiffers(a: string, b: string, now: Timestamp)
    requires a != "" && b != ""
    ensures var msg := JObject([("type", JString("serial_write")), ("data", JString(a)), ("line", JString(b))]);
      WsMessage(Some(msg), true) == Handled(Some(a))
    ensures ChosenText(SerialSendRequest(Some(b), Some(a))) == b
  {
    var members := [("type", JString("serial_write")), ("data", JString(a)), ("line", JString(b))];
    assert Get(members, "type") == Some(JString("serial_write"));
    assert Get(members, "data") == Some(JString(a));
  }
}
