/**
 * The records the bridge exchanges: decoded telemetry, an image frame and
 * the serial-send request and response of the REST endpoint.
 */
module Models {
  import opened Wrappers

  /** A telemetry slot: the outcome of Python `float(token)`, kept as the token rather than a float. */
  datatype Reading =
    | Finite(token: string)      // a finite number
    | Infinite(token: string)    // `inf`, `-Infinity`, ...
    | NaN                        // `nan`, or a token `float` rejects (the parser substitutes NaN)

  /** Epoch seconds from `time.time()`; the clock is an input of the model. */
  type Timestamp = real

  /** The 22 float slots of a telemetry record, in wire order. */
  type FloatSlots = s: seq<Reading> | |s| == 22 witness seq(22, _ => NaN)

  /**
   * `TelemetryRover`. `rssi` and `avgRssi` hold `int(float(token))`; they
   * are kept as the finite token whose truncation that integer is. The
   * float fields `temp1` .. `dist3` are the 22 `slots`, named by the
   * accessors below.
   */
  datatype TelemetryRover = TelemetryRover(
    timestamp: Timestamp,
    rssi: string, avgRssi: string,
    slots: FloatSlots,
    actionCode: Option<nat>, obstacleCode: Option<nat>,
    actionBits: Option<string>, obstacleBits: Option<string>,
    raw: Option<string>)
  {
    function Temp1(): Reading { slots[0] }
    function Hum1(): Reading { slots[1] }
    function Temp2(): Reading { slots[2] }
    function Hum2(): Reading { slots[3] }
    function VEsp(): Reading { slots[4] }
    function IEsp(): Reading { slots[5] }
    function PEsp(): Reading { slots[6] }
    function VM1(): Reading { slots[7] }
    function IM1(): Reading { slots[8] }
    function PM1(): Reading { slots[9] }
    function VM2(): Reading { slots[10] }
    function IM2(): Reading { slots[11] }
    function PM2(): Reading { slots[12] }
    function AccX(): Reading { slots[13] }
    function AccY(): Reading { slots[14] }
    function AccZ(): Reading { slots[15] }
    function GyroX(): Reading { slots[16] }
    function GyroY(): Reading { slots[17] }
    function GyroZ(): Reading { slots[18] }
    function Dist1(): Reading { slots[19] }
    function Dist2(): Reading { slots[20] }
    function Dist3(): Reading { slots[21] }

    /** A code is present only with its bits, and then is the 3-bit value those bits spell. */
    predicate CodesMatchBits() {
      && (actionCode.Some? ==> actionBits.Some? && IsThreeBit(actionBits.value) && actionCode.value == BinaryValue(actionBits.value))
      && (obstacleCode.Some? ==> obstacleBits.Some? && IsThreeBit(obstacleBits.value) && obstacleCode.value == BinaryValue(obstacleBits.value))
    }
  }

  /** `ImageFrame`: `dataUrl` is `data:<mime>;base64,<payload>`, `rawLen` the decoded byte count. */
  datatype ImageFrame = ImageFrame(timestamp: Timestamp, dataUrl: string, rawLen: nat)

  /** `SerialSendRequest`: both fields optional, `line` preferred when both are given. */
  datatype SerialSendRequest = SerialSendRequest(line: Option<string>, data: Option<string>)

  datatype SerialSendResponse = SerialSendResponse(ok: bool, bytesWritten: nat)

  // ---------- the 3-bit action and obstacle codes ----------

  /** Exactly three characters, each `0` or `1`. */
  predicate IsThreeBit(s: string) {
    |s| == 3 && forall i :: 0 <= i < 3 ==> s[i] == '0' || s[i] == '1'
  }

  function Bit(c: char): nat {
    if c == '1' then 1 else 0
  }

  /** Python `int(bits, 2)` for a 3-bit string. */
  function BinaryValue(s: string): (v: nat)
    requires IsThreeBit(s)
    ensures v < 8
  {
    4 * Bit(s[0]) + 2 * Bit(s[1]) + Bit(s[2])
  }

  /** The 3-bit string of a code, most significant bit first. */
  function ThreeBits(v: nat): (s: string)
    requires v < 8
    ensures IsThreeBit(s)
  {
    [if v / 4 == 1 then '1' else '0', if (v / 2) % 2 == 1 then '1' else '0', if v % 2 == 1 then '1' else '0']
  }

  /** Bits and codes are in one-to-one correspondence. */
  lemma BitsRoundTrip(s: string, v: nat)
    requires IsThreeBit(s) && v < 8
    ensures BinaryValue(ThreeBits(v)) == v
    ensures ThreeBits(BinaryValue(s)) == s
  {
    assert s[0] == '0' || s[0] == '1';
  }

  /** The obstacle patterns `000`, `100`, `010`, `001` carry the codes 0, 4, 2, 1. */
  lemma ObstacleOneHotCodes()
    ensures BinaryValue("000") == 0 && BinaryValue("100") == 4
    ensures BinaryValue("010") == 2 && BinaryValue("001") == 1
  {
  }
}
