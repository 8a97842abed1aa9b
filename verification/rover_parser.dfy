/**
 * The serial line decoder: a telemetry line is the telemetry prefix
 * followed by at least 24 comma-separated numeric fields and, optionally,
 * two 3-bit strings (action, obstacles); an image line is the image prefix
 * followed by one Base64 payload. Both decoders answer "not this kind of
 * line" instead of failing.
 */
module RoverParser {
  import opened Wrappers
  import opened Text
  import Numbers
  import Base64
  import opened Models

  /** The numeric slots every telemetry line must fill. */
  const NumericFieldCount: nat := 24

  // ---------- field splitting ----------

  /** Strips every piece and drops the ones that are then empty. */
  function NonBlank(pieces: seq<string>): (fs: seq<string>)
    ensures |fs| <= |pieces|
    ensures forall k :: 0 <= k < |fs| ==> |fs[k]| > 0 && Trimmed(fs[k])
  {
    if |pieces| == 0 then []
    else
      var t := Strip(pieces[0]);
      (if t == "" then [] else [t]) + NonBlank(pieces[1..])
  }

  /** The non-empty, stripped comma-separated fields of a payload. */
  function Fields(payload: string): (fs: seq<string>)
    ensures forall k :: 0 <= k < |fs| ==> |fs[k]| > 0 && Trimmed(fs[k])
  {
    NonBlank(Split(Strip(payload), ','))
  }

  /** What one piece contributes: its stripped text, unless that is empty. */
  function FieldOf(p: string): seq<string> {
    if Strip(p) == "" then [] else [Strip(p)]
  }

  /** The first piece is filtered on its own, ahead of the rest. */
  lemma NonBlankCons(p: string, rest: seq<string>)
    ensures NonBlank([p] + rest) == FieldOf(p) + NonBlank(rest)
  {
    assert ([p] + rest)[0] == p && ([p] + rest)[1..] == rest;
  }

  /** A single piece gives its stripped text as a field, unless that is empty. */
  lemma NonBlankSingle(p: string)
    ensures NonBlank([p]) == (if Strip(p) == "" then [] else [Strip(p)])
  {
    NonBlankCons(p, []);
    assert [p] + [] == [p];
  }

  /** Concatenation is associative (stated generically, so it costs nothing to use). */
  lemma AppendAssoc<T>(x: seq<T>, y: seq<T>, z: seq<T>)
    ensures x + (y + z) == (x + y) + z
  {
  }

  /** Filtering distributes over concatenation: pieces keep their order and are filtered one by one. */
  lemma {:induction false} NonBlankAppend(a: seq<string>, b: seq<string>)
    ensures NonBlank(a + b) == NonBlank(a) + NonBlank(b)
  {
    if |a| == 0 {
      assert a + b == b;
    } else {
      var rest := a[1..];
      assert a == [a[0]] + rest;
      AppendAssoc([a[0]], rest, b);
      NonBlankCons(a[0], rest + b);
      NonBlankCons(a[0], rest);
      NonBlankAppend(rest, b);
      AppendAssoc(FieldOf(a[0]), NonBlank(rest), NonBlank(b));
    }
  }

  /** Comma-free pieces give comma-free fields. */
  lemma {:induction false} NonBlankKeepsOut(pieces: seq<string>, c: char)
    requires forall k :: 0 <= k < |pieces| ==> c !in pieces[k]
    ensures forall k :: 0 <= k < |NonBlank(pieces)| ==> c !in NonBlank(pieces)[k]
  {
    if |pieces| > 0 {
      StripKeepsOut(pieces[0], c);
      NonBlankKeepsOut(pieces[1..], c);
    }
  }

  /** No field holds a comma. */
  lemma FieldsHaveNoComma(payload: string)
    ensures forall k :: 0 <= k < |Fields(payload)| ==> ',' !in Fields(payload)[k]
  {
    NonBlankKeepsOut(Split(Strip(payload), ','), ',');
  }

  lemma {:induction false} NonBlankIdentity(fs: seq<string>)
    requires forall k :: 0 <= k < |fs| ==> |fs[k]| > 0 && Trimmed(fs[k])
    ensures NonBlank(fs) == fs
  {
    if |fs| > 0 {
      var f := fs[0];
      StripTrimmed(f);
      NonBlankIdentity(fs[1..]);
      assert fs == [f] + fs[1..];
    }
  }

  /** Fields written with single commas and no padding are read back one for one. */
  lemma FieldsOfJoin(fs: seq<string>)
    requires |fs| >= 1
    requires forall k :: 0 <= k < |fs| ==> |fs[k]| > 0 && Trimmed(fs[k]) && ',' !in fs[k]
    ensures Fields(Join(fs, ',')) == fs
  {
    var j := Join(fs, ',');
    JoinTrimmed(fs);
    StripTrimmed(j);
    SplitJoin(fs, ',');
    NonBlankIdentity(fs);
  }

  lemma {:induction false} JoinTrimmed(fs: seq<string>)
    requires |fs| >= 1
    requires forall k :: 0 <= k < |fs| ==> |fs[k]| > 0 && Trimmed(fs[k])
    ensures var j := Join(fs, ','); |j| > 0 && j[0] == fs[0][0] && j[|j| - 1] == fs[|fs| - 1][|fs[|fs| - 1]| - 1]
  {
    if |fs| > 1 {
      JoinTrimmed(fs[1..]);
    }
  }

  /** Empty fields do not count: `x,,y` has the two fields `x` and `y`. */
  lemma EmptyFieldsDropped(x: string, y: string)
    requires |x| > 0 && Trimmed(x) && ',' !in x
    requires |y| > 0 && Trimmed(y) && ',' !in y
    ensures Fields(x + ",," + y) == [x, y]
  {
    var pieces := [x, "", y];
    var s := x + ",," + y;
    assert pieces[1..] == ["", y] && pieces[1..][1..] == [y];
    var tail := Join(pieces[1..], ',');
    assert Join(pieces[1..][1..], ',') == y;
    assert tail == "" + [','] + y;
    assert "" + [','] + y == [','] + y;
    assert Join(pieces, ',') == x + [','] + tail;
    assert x + [','] + ([','] + y) == s;
    assert Trimmed(s) by { assert s[0] == x[0] && s[|s| - 1] == y[|y| - 1]; }
    StripTrimmed(s);
    SplitJoin(pieces, ',');
    NonBlankDropsBlank(x, "", y);
    StripTrimmed(x);
    StripTrimmed(y);
  }

  lemma SplitExample()
    ensures Split("a,,b", ',') == ["a", "", "b"]
  {
    var pieces := ["a", "", "b"];
    assert Join(["b"], ',') == "b";
    assert Join(["", "b"], ',') == ",b";
    assert pieces[1..] == ["", "b"];
    assert Join(pieces, ',') == "a,,b";
    SplitJoin(pieces, ',');
  }

  /** A blank piece between two others is dropped, whatever whitespace it holds. */
  lemma NonBlankDropsBlank(x: string, blank: string, y: string)
    requires AllSpace(blank)
    ensures NonBlank([x, blank, y]) == FieldOf(x) + FieldOf(y)
  {
    assert [x, blank, y] == [x] + [blank, y];
    assert [blank, y] == [blank] + [y];
    assert [y] == [y] + [];
    NonBlankCons(x, [blank, y]);
    NonBlankCons(blank, [y]);
    NonBlankCons(y, []);
    StripEmpty(blank);
    assert FieldOf(y) + [] == FieldOf(y);
  }

  // ---------- telemetry ----------

  /** The parser's `f(x)`: `float(x)`, or NaN where `float` raises. */
  function ToReading(token: string): (r: Reading)
    ensures r.Finite? <==> Numbers.FloatSyntax(token) == Numbers.FiniteFloat
    ensures r.Infinite? <==> Numbers.FloatSyntax(token) == Numbers.InfiniteFloat
    ensures r.NaN? <==> Numbers.FloatSyntax(token) == Numbers.NotANumber
    ensures r.Finite? || r.Infinite? ==> r.token == token
  {
    match Numbers.FloatSyntax(token)
    case FiniteFloat => Finite(token)
    case InfiniteFloat => Infinite(token)
    case NotANumber => NaN
  }

  /** An action or obstacle code: the binary value of a well-formed bit string, otherwise none. */
  function Code(bits: Option<string>): (c: Option<nat>)
    ensures c.Some? <==> bits.Some? && IsThreeBit(bits.value)
    ensures c.Some? ==> c.value == BinaryValue(bits.value) && ThreeBits(c.value) == bits.value
  {
    match bits
    case Some(b) =>
      if IsThreeBit(b) then
        BitsRoundTrip(b, 0);
        Some(BinaryValue(b))
      else None
    case None => None
  }

  /** What `try_parse_telemetry` does with a line: declines, returns a record, or raises in `int(...)`. */
  datatype TelemetryParse =
    | NotTelemetry
    | Parsed(record: TelemetryRover)
    | ConversionError    // `int(rssi)` or `int(avg_rssi)` on an infinite or NaN value

  /** The fields after the prefix, for a line that carries the prefix. */
  function PayloadFields(line: string, prefix: string): seq<string>
    requires StartsWith(line, prefix)
  {
    Fields(line[|prefix|..])
  }

  /** The optional trailing bit strings: the last two of the fields past the 24th, when there are two. */
  function TrailingBits(fs: seq<string>): (bits: (Option<string>, Option<string>))
    requires |fs| >= NumericFieldCount
    ensures |fs| < NumericFieldCount + 2 ==> bits.0.None? && bits.1.None?
    ensures |fs| >= NumericFieldCount + 2 ==> bits.0 == Some(fs[|fs| - 2]) && bits.1 == Some(fs[|fs| - 1])
  {
    var extras := fs[NumericFieldCount..];
    if |extras| >= 2 then (Some(extras[|extras| - 2]), Some(extras[|extras| - 1])) else (None, None)
  }

  /** The record for fields whose first two slots are finite. */
  function Record(fs: seq<string>, line: string, now: Timestamp): (t: TelemetryRover)
    requires |fs| >= NumericFieldCount
    ensures t.timestamp == now && t.raw == Some(Strip(line))
    ensures t.rssi == fs[0] && t.avgRssi == fs[1]
    ensures forall k :: 0 <= k < 22 ==> t.slots[k] == ToReading(fs[k + 2])
    ensures (t.actionBits, t.obstacleBits) == TrailingBits(fs)
    ensures t.actionCode == Code(t.actionBits) && t.obstacleCode == Code(t.obstacleBits)
  {
    var slots := seq(22, k requires 0 <= k < 22 => ToReading(fs[k + 2]));
    var bits := TrailingBits(fs);
    TelemetryRover(now, fs[0], fs[1], slots, Code(bits.0), Code(bits.1), bits.0, bits.1, Some(Strip(line)))
  }

  /** `try_parse_telemetry(line)` with the configured prefix and the clock reading `now`. */
  function TryParseTelemetry(line: string, prefix: string, now: Timestamp): (r: TelemetryParse)
    ensures !StartsWith(line, prefix) ==> r == NotTelemetry
    ensures StartsWith(line, prefix) && |PayloadFields(line, prefix)| < NumericFieldCount ==> r == NotTelemetry
    ensures r.ConversionError? <==>
      && StartsWith(line, prefix)
      && |PayloadFields(line, prefix)| >= NumericFieldCount
      && !(ToReading(PayloadFields(line, prefix)[0]).Finite? && ToReading(PayloadFields(line, prefix)[1]).Finite?)
    ensures r.Parsed? ==> r.record == Record(PayloadFields(line, prefix), line, now)
  {
    if !StartsWith(line, prefix) then NotTelemetry
    else
      var fs := Fields(line[|prefix|..]);
      if |fs| < NumericFieldCount then NotTelemetry
      else if !ToReading(fs[0]).Finite? || !ToReading(fs[1]).Finite? then ConversionError
      else Parsed(Record(fs, line, now))
  }

  /** Blank text has no fields. */
  lemma NoFieldsInEmpty()
    ensures Fields("") == []
  {
    assert Strip("") == "";
    assert Split("", ',') == [""];
    assert NonBlank([""]) == [];
  }

  /** A line that decodes as telemetry is not empty: it carries at least 24 non-empty fields. */
  lemma ParsedLineNotEmpty(line: string, prefix: string, now: Timestamp)
    requires TryParseTelemetry(line, prefix, now).Parsed?
    ensures line != ""
  {
    NoFieldsInEmpty();
  }

  /**
   * What a decoded record holds: the clock reading, the stripped line, the
   * first two fields as the integer slots, fields 3 to 24 as the float
   * slots, and the bit strings and codes from the last two fields past the
   * 24th. Fields beyond the 24th never cause rejection.
   */
  lemma ParsedRecord(line: string, prefix: string, now: Timestamp)
    requires StartsWith(line, prefix)
    requires |PayloadFields(line, prefix)| >= NumericFieldCount
    requires ToReading(PayloadFields(line, prefix)[0]).Finite? && ToReading(PayloadFields(line, prefix)[1]).Finite?
    ensures var r := TryParseTelemetry(line, prefix, now);
      var fs := PayloadFields(line, prefix);
      && r.Parsed?
      && r.record.timestamp == now
      && r.record.raw == Some(Strip(line))
      && r.record.rssi == fs[0] && r.record.avgRssi == fs[1]
      && (forall k :: 0 <= k < 22 ==> r.record.slots[k] == ToReading(fs[k + 2]))
      && (|fs| < NumericFieldCount + 2 ==>
            r.record.actionBits.None? && r.record.obstacleBits.None? && r.record.actionCode.None? && r.record.obstacleCode.None?)
      && (|fs| >= NumericFieldCount + 2 ==>
            r.record.actionBits == Some(fs[|fs| - 2]) && r.record.obstacleBits == Some(fs[|fs| - 1]))
      && r.record.CodesMatchBits()
      && (r.record.actionBits.Some? && IsThreeBit(r.record.actionBits.value) ==> r.record.actionCode.Some?)
      && (r.record.obstacleBits.Some? && IsThreeBit(r.record.obstacleBits.value) ==> r.record.obstacleCode.Some?)
  {
    var fs := PayloadFields(line, prefix);
    var t := Record(fs, line, now);
    assert TryParseTelemetry(line, prefix, now) == Parsed(t);
    assert t.CodesMatchBits();
  }

  /**
   * The partner of the decoder: a line assembled from 24 tokens whose first
   * two are finite numbers, then an action and an obstacle bit string,
   * decodes to exactly those tokens and bit values.
   */
  lemma TelemetryRoundTrip(prefix: string, tokens: seq<string>, action: nat, obstacle: nat, now: Timestamp)
    requires |tokens| == NumericFieldCount
    requires forall k :: 0 <= k < |tokens| ==> |tokens[k]| > 0 && Trimmed(tokens[k]) && ',' !in tokens[k]
    requires Numbers.FloatSyntax(tokens[0]) == Numbers.FiniteFloat && Numbers.FloatSyntax(tokens[1]) == Numbers.FiniteFloat
    requires action < 8 && obstacle < 8
    ensures var line := prefix + Join(tokens + [ThreeBits(action), ThreeBits(obstacle)], ',');
      var r := TryParseTelemetry(line, prefix, now);
      && r.Parsed?
      && r.record.rssi == tokens[0] && r.record.avgRssi == tokens[1]
      && (forall k :: 0 <= k < 22 ==> r.record.slots[k] == ToReading(tokens[k + 2]))
      && r.record.actionCode == Some(action) && r.record.obstacleCode == Some(obstacle)
  {
    var a, o := ThreeBits(action), ThreeBits(obstacle);
    var fs := tokens + [a, o];
    BitsTrimmed(a);
    BitsTrimmed(o);
    assert forall k :: 0 <= k < |fs| ==> |fs[k]| > 0 && Trimmed(fs[k]) && ',' !in fs[k];
    var line := prefix + Join(fs, ',');
    assert line[..|prefix|] == prefix;
    assert line[|prefix|..] == Join(fs, ',');
    FieldsOfJoin(fs);
    assert PayloadFields(line, prefix) == fs;
    assert fs[0] == tokens[0] && fs[1] == tokens[1];
    ParsedRecord(line, prefix, now);
    BitsRoundTrip(a, action);
    BitsRoundTrip(o, obstacle);
    assert fs[|fs| - 2] == a && fs[|fs| - 1] == o;
  }

  /** A 3-bit string is a non-empty field: no whitespace at its ends, no comma. */
  lemma BitsTrimmed(b: string)
    requires IsThreeBit(b)
    ensures |b| > 0 && Trimmed(b) && ',' !in b
  {
    assert b[0] == '0' || b[0] == '1';
    assert b[2] == '0' || b[2] == '1';
  }

  // ---------- image ----------

  /** `f"data:{mime};base64,{payload}"`. */
  function DataUrl(mime: string, payload: string): (url: string)
    ensures |url| == 5 + |mime| + 8 + |payload|
    ensures url[..5] == "data:" && url[5..5 + |mime|] == mime
    ensures url[5 + |mime|..13 + |mime|] == ";base64," && url[13 + |mime|..] == payload
  {
    "data:" + mime + ";base64," + payload
  }

  /** `try_parse_image(line)` with the configured prefix and MIME type and the clock reading `now`. */
  function TryParseImage(line: string, prefix: string, mime: string, now: Timestamp): (r: Option<ImageFrame>)
    ensures r.Some? <==> StartsWith(line, prefix) && Base64.IsCanonical(Strip(line[|prefix|..]))
    ensures r.Some? ==>
      var payload := Strip(line[|prefix|..]);
      && r.value.timestamp == now
      && r.value.dataUrl == DataUrl(mime, payload)
      && r.value.rawLen == Base64.BytesFor(Base64.DataLength(payload))
  {
    if !StartsWith(line, prefix) then None
    else
      var payload := Strip(line[|prefix|..]);
      Base64.StrictDecodedLengthSpec(payload);
      match Base64.StrictDecodedLength(payload)
      case None => None
      case Some(n) => Some(ImageFrame(now, DataUrl(mime, payload), n))
  }

  /** Position of the last `c` in `s`. */
  function LastIndex(s: string, c: char): (k: nat)
    requires c in s
    ensures k < |s| && s[k] == c && c !in s[k + 1..]
  {
    if s[|s| - 1] == c then |s| - 1
    else
      assert c in s[..|s| - 1] by {
        var i :| 0 <= i < |s| && s[i] == c;
        assert s[..|s| - 1][i] == c;
      }
      var k := LastIndex(s[..|s| - 1], c);
      assert s[k + 1..] == s[..|s| - 1][k + 1..] + [s[|s| - 1]];
      k
  }

  /** Reads a data URL back into its MIME type and its payload (everything after the last comma). */
  function SplitDataUrl(url: string): Option<(string, string)> {
    if StartsWith(url, "data:") && ',' in url[5..] then
      var k := 5 + LastIndex(url[5..], ',');
      var header := url[5..k];
      if |header| >= 7 && header[|header| - 7..] == ";base64" then Some((header[..|header| - 7], url[k + 1..]))
      else None
    else None
  }

  /** The data URL's MIME type and payload can be recovered from it: the payload never contains a comma. */
  lemma DataUrlRoundTrip(mime: string, payload: string)
    requires ',' !in payload
    ensures SplitDataUrl(DataUrl(mime, payload)) == Some((mime, payload))
  {
    var url := DataUrl(mime, payload);
    var m := |mime|;
    assert url[..5] == "data:";
    assert url[5..] == mime + ";base64," + payload;
    var comma := 5 + m + 7;
    assert url[comma] == ',';
    var k := 5 + LastIndex(url[5..], ',');
    assert k == comma;
    assert url[5..k] == mime + ";base64";
    assert url[k + 1..] == payload;
  }

  /** Text the strict decoder accepts has no surrounding whitespace. */
  lemma AcceptedIsStripped(s: string)
    requires Base64.StrictDecodedLength(s).Some?
    ensures Strip(s) == s
  {
    Base64.AcceptedShape(s);
    assert Trimmed(s);
    StripTrimmed(s);
  }

  /** A prefixed standard Base64 encoding is accepted, with the encoding as payload and the input's byte count. */
  lemma ImageRoundTrip(prefix: string, data: seq<Base64.Byte>, mime: string, now: Timestamp)
    ensures TryParseImage(prefix + Base64.Encode(data), prefix, mime, now)
         == Some(ImageFrame(now, DataUrl(mime, Base64.Encode(data)), |data|))
  {
    var e := Base64.Encode(data);
    var line := prefix + e;
    assert line[|prefix|..] == e;
    Base64.EncodeAccepted(data);
    AcceptedIsStripped(e);
    Base64.StrictDecodedLengthSpec(e);
  }
}
