/**
 * Strict Base64 validation and decoded length, as Python's
 * `base64.b64decode(text, validate=True)` performs it (RFC 4648 section 4,
 * standard alphabet). From Python 3.11 on that call runs the decoder loop
 * of `binascii.a2b_base64` in strict mode; `StrictDecodedLength` follows
 * that loop character by character and counts the bytes it writes.
 */
module Base64 {
  import opened Wrappers

  /** RFC 4648 table 1: `A`-`Z`, `a`-`z`, `0`-`9`, `+`, `/`. */
  predicate IsAlphabet(c: char) {
    ('A' <= c <= 'Z') || ('a' <= c <= 'z') || ('0' <= c <= '9') || c == '+' || c == '/'
  }

  const Pad: char := '='

  /** The decoder loop's registers: position inside the current quantum, pads seen, bytes written. */
  datatype Decoder = Decoder(quadPos: nat, pads: nat, paddingStarted: bool, written: nat)

  /**
   * The strict decoder loop from character `i` on. A pad on a quantum
   * boundary, a character outside the alphabet, data after padding, data
   * after a completed pad sequence and an unfinished quantum at the end
   * all fail. A completed pad sequence (two pads after two data characters,
   * one after three) stops decoding.
   */
  function Run(s: string, i: nat, d: Decoder): (r: Option<nat>)
    requires i <= |s|
    ensures r.Some? ==> r.value >= d.written
    ensures r.Some? ==> forall k :: i <= k < |s| ==> IsAlphabet(s[k]) || s[k] == Pad
    decreases |s| - i
  {
    if i == |s| then
      if d.quadPos == 0 then Some(d.written) else None
    else if s[i] == Pad then
      if d.quadPos == 0 then None
      else if d.quadPos >= 2 && d.quadPos + d.pads + 1 >= 4 then
        if i + 1 < |s| then None else Some(d.written)
      else
        Run(s, i + 1, d.(paddingStarted := true, pads := if d.quadPos >= 2 then d.pads + 1 else d.pads))
    else if !IsAlphabet(s[i]) || d.paddingStarted then
      None
    else
      Run(s, i + 1, Decoder((d.quadPos + 1) % 4, 0, false, d.written + (if d.quadPos == 0 then 0 else 1)))
  }

  /** `len(base64.b64decode(s, validate=True))`, or None where the call raises. */
  function StrictDecodedLength(s: string): (r: Option<nat>)
    ensures |s| == 0 ==> r == Some(0)
    ensures r.Some? ==> forall k :: 0 <= k < |s| ==> IsAlphabet(s[k]) || s[k] == Pad
  {
    Run(s, 0, Decoder(0, 0, false, 0))
  }

  // ---------- the declarative reading ----------

  /** Length of the longest prefix of `s` drawn from the alphabet. */
  function DataLength(s: string): (n: nat)
    ensures n <= |s|
    ensures forall k :: 0 <= k < n ==> IsAlphabet(s[k])
    ensures n < |s| ==> !IsAlphabet(s[n])
  {
    if |s| == 0 || !IsAlphabet(s[0]) then 0 else 1 + DataLength(s[1..])
  }

  /** Bytes carried by `n` data characters: three per full quantum, one or two for a partial one. */
  function BytesFor(n: nat): nat {
    3 * (n / 4) + (if n % 4 == 0 then 0 else n % 4 - 1)
  }

  /**
   * Canonical RFC 4648 text: alphabet characters, then no pad after a whole
   * number of quanta, `=` after three leftover characters, `==` after two.
   */
  predicate IsCanonical(s: string) {
    var n := DataLength(s);
    || (n == |s| && n % 4 == 0)
    || (n % 4 == 3 && s[n..] == [Pad])
    || (n % 4 == 2 && s[n..] == [Pad, Pad])
  }

  /** After `i` data characters the loop's registers are determined by `i` alone. */
  lemma {:induction false} RunData(s: string, i: nat)
    requires i <= DataLength(s)
    ensures StrictDecodedLength(s) == Run(s, i, Decoder(i % 4, 0, false, BytesFor(i)))
  {
    if i > 0 {
      RunData(s, i - 1);
      var j := i - 1;
      assert IsAlphabet(s[j]) && s[j] != Pad;
      assert BytesFor(i) == BytesFor(j) + (if j % 4 == 0 then 0 else 1);
    }
  }

  /** A pad after exactly one leftover data character can never be completed. */
  lemma {:induction false} RunAfterLonePad(s: string, i: nat, d: Decoder)
    requires i <= |s| && d.quadPos == 1 && d.paddingStarted
    ensures Run(s, i, d) == None
    decreases |s| - i
  {
    if i < |s| && s[i] == Pad {
      RunAfterLonePad(s, i + 1, d);
    }
  }

  /** The strict decoder accepts exactly the canonical texts, and then yields `BytesFor` of the data length. */
  lemma StrictDecodedLengthSpec(s: string)
    ensures StrictDecodedLength(s) == if IsCanonical(s) then Some(BytesFor(DataLength(s))) else None
  {
    var n := DataLength(s);
    RunData(s, n);
    var d := Decoder(n % 4, 0, false, BytesFor(n));
    if n < |s| && s[n] == Pad {
      if n % 4 == 1 {
        RunAfterLonePad(s, n + 1, d.(paddingStarted := true));
      } else if n % 4 == 2 {
        var d' := d.(paddingStarted := true, pads := 1);
        assert Run(s, n, d) == Run(s, n + 1, d');
        if n + 1 < |s| {
          if s[n + 1] == Pad {
            assert n + 2 < |s| ==> s[n..] != [Pad, Pad];
          }
        } else {
          assert s[n..] == [Pad];
        }
      } else if n % 4 == 3 {
        assert n + 1 < |s| ==> s[n..] != [Pad];
        assert n + 1 == |s| ==> s[n..] == [Pad];
      }
    }
  }

  /** Canonical text is alphabet characters followed by at most two pads, in whole quanta. */
  lemma CanonicalShape(s: string)
    requires IsCanonical(s)
    ensures forall k :: 0 <= k < |s| ==> IsAlphabet(s[k]) || (s[k] == Pad && k >= |s| - 2)
    ensures |s| % 4 == 0
  {
    var n := DataLength(s);
    assert |s| - n <= 2;
    forall k | 0 <= k < |s| && !IsAlphabet(s[k])
      ensures s[k] == Pad && k >= |s| - 2
    {
      assert k >= n;
      assert s[n..][k - n] == s[k];
    }
  }

  /** What a caller relies on: every accepted text is alphabet characters followed by at most two pads. */
  lemma AcceptedShape(s: string)
    requires StrictDecodedLength(s).Some?
    ensures forall k :: 0 <= k < |s| ==> IsAlphabet(s[k]) || (s[k] == Pad && k >= |s| - 2)
    ensures |s| % 4 == 0
  {
    StrictDecodedLengthSpec(s);
    CanonicalShape(s);
  }

  // ---------- the encoder, as the partner of the decoder ----------

  newtype Byte = x: int | 0 <= x < 256

  function AlphabetChar(v: nat): (c: char)
    requires v < 64
    ensures IsAlphabet(c) && c != Pad
  {
    if v < 26 then ('A' as int + v) as char
    else if v < 52 then ('a' as int + v - 26) as char
    else if v < 62 then ('0' as int + v - 52) as char
    else if v == 62 then '+'
    else '/'
  }

  /** Three bytes as four characters, six bits each, most significant first. */
  function Quantum(a: Byte, b: Byte, c: Byte): (q: string)
    ensures |q| == 4 && forall k :: 0 <= k < 4 ==> IsAlphabet(q[k])
  {
    var a, b, c := a as nat, b as nat, c as nat;
    [AlphabetChar(a / 4), AlphabetChar((a % 4) * 16 + b / 16), AlphabetChar((b % 16) * 4 + c / 64), AlphabetChar(c % 64)]
  }

  /** One leftover byte: two characters and two pads. */
  function FinalOne(a: Byte): (q: string)
    ensures |q| == 4 && IsAlphabet(q[0]) && IsAlphabet(q[1]) && q[2..] == [Pad, Pad]
  {
    var a := a as nat;
    [AlphabetChar(a / 4), AlphabetChar((a % 4) * 16), Pad, Pad]
  }

  /** Two leftover bytes: three characters and one pad. */
  function FinalTwo(a: Byte, b: Byte): (q: string)
    ensures |q| == 4 && IsAlphabet(q[0]) && IsAlphabet(q[1]) && IsAlphabet(q[2]) && q[3..] == [Pad]
  {
    var a, b := a as nat, b as nat;
    [AlphabetChar(a / 4), AlphabetChar((a % 4) * 16 + b / 16), AlphabetChar((b % 16) * 4), Pad]
  }

  /** RFC 4648 section 4 encoding with `=` padding. */
  function Encode(data: seq<Byte>): (s: string)
    decreases |data|
  {
    if |data| == 0 then ""
    else if |data| == 1 then FinalOne(data[0])
    else if |data| == 2 then FinalTwo(data[0], data[1])
    else Quantum(data[0], data[1], data[2]) + Encode(data[3..])
  }

  lemma {:induction false} DataLengthAppend(a: string, b: string)
    requires forall k :: 0 <= k < |a| ==> IsAlphabet(a[k])
    ensures DataLength(a + b) == |a| + DataLength(b)
    decreases |a|
  {
    if |a| > 0 {
      assert (a + b)[1..] == a[1..] + b;
      DataLengthAppend(a[1..], b);
    } else {
      assert a + b == b;
    }
  }

  /** Canonical text and the bytes it carries, as one predicate over the encoding's length. */
  predicate CarriesBytes(s: string, count: nat) {
    IsCanonical(s) && BytesFor(DataLength(s)) == count
  }

  /** A final group of `k` data characters and `4 - k` pads carries `k - 1` bytes. */
  lemma FinalGroup(q: string, k: nat)
    requires 2 <= k <= 3 && |q| == 4
    requires forall j :: 0 <= j < k ==> IsAlphabet(q[j])
    requires forall j :: k <= j < 4 ==> q[j] == Pad
    ensures CarriesBytes(q, k - 1)
  {
    var p := q[k..];
    assert !IsAlphabet(p[0]);
    assert DataLength(p) == 0;
    assert q == q[..k] + p;
    DataLengthAppend(q[..k], p);
    if k == 2 {
      assert p == [q[2], q[3]] == [Pad, Pad];
    } else {
      assert p == [q[3]] == [Pad];
    }
  }

  /** Prefixing a full quantum adds four data characters and three bytes. */
  lemma QuantumPrefix(q: string, t: string, count: nat)
    requires |q| == 4 && forall k :: 0 <= k < 4 ==> IsAlphabet(q[k])
    requires CarriesBytes(t, count)
    ensures CarriesBytes(q + t, count + 3)
  {
    DataLengthAppend(q, t);
    var m := DataLength(t);
    assert (q + t)[4 + m..] == t[m..];
    assert (4 + m) / 4 == 1 + m / 4 && (4 + m) % 4 == m % 4;
  }

  /** The shape of an encoding: its data characters carry exactly the input bytes, padding is canonical. */
  lemma {:induction false} EncodeShape(data: seq<Byte>)
    ensures CarriesBytes(Encode(data), |data|)
    decreases |data|
  {
    if |data| >= 3 {
      EncodeShape(data[3..]);
      QuantumPrefix(Quantum(data[0], data[1], data[2]), Encode(data[3..]), |data| - 3);
    } else if |data| == 2 {
      FinalGroup(FinalTwo(data[0], data[1]), 3);
    } else if |data| == 1 {
      FinalGroup(FinalOne(data[0]), 2);
    }
  }

  /** Decoding a standard encoding succeeds and reports the original byte count. */
  lemma EncodeAccepted(data: seq<Byte>)
    ensures StrictDecodedLength(Encode(data)) == Some(|data|)
  {
    EncodeShape(data);
    StrictDecodedLengthSpec(Encode(data));
  }
}
