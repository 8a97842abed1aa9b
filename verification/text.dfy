/**
 * The handful of Python `str` operations the bridge relies on: `strip()`,
 * `rstrip("\r\n")`, `split(",")`, `startswith`, `endswith` and `lower()`.
 * Strings are sequences of Unicode scalar values, as Python `str` is.
 */
module Text {

  /** Python's `str.isspace()`: the characters `strip()` with no argument removes. */
  predicate IsSpace(c: char) {
    || ('\t' <= c <= '\r')                     // TAB, LF, VT, FF, CR
    || ('\U{1C}' <= c <= '\U{1F}')             // file, group, record and unit separators
    || c == ' ' || c == '\U{85}' || c == '\U{A0}' || c == '\U{1680}'
    || ('\U{2000}' <= c <= '\U{200A}')         // en quad .. hair space
    || c == '\U{2028}' || c == '\U{2029}' || c == '\U{202F}' || c == '\U{205F}' || c == '\U{3000}'
  }

  predicate AllSpace(s: string) {
    forall i :: 0 <= i < |s| ==> IsSpace(s[i])
  }

  /** Neither the first nor the last character is whitespace. */
  predicate Trimmed(s: string) {
    |s| == 0 || (!IsSpace(s[0]) && !IsSpace(s[|s| - 1]))
  }

  /** Number of whitespace characters at the front of `s`. */
  function LeadingSpace(s: string): (n: nat)
    ensures n <= |s|
    ensures AllSpace(s[..n])
    ensures n < |s| ==> !IsSpace(s[n])
  {
    if |s| == 0 || !IsSpace(s[0]) then 0
    else
      var n := 1 + LeadingSpace(s[1..]);
      assert s[..n] == [s[0]] + s[1..][..n - 1];
      n
  }

  /** Length of the whitespace run that ends just before index `j`. */
  function SpaceRunBefore(s: string, j: nat): (n: nat)
    requires j <= |s|
    ensures n <= j
    ensures forall k :: j - n <= k < j ==> IsSpace(s[k])
    ensures n < j ==> !IsSpace(s[j - 1 - n])
  {
    if j == 0 || !IsSpace(s[j - 1]) then 0 else 1 + SpaceRunBefore(s, j - 1)
  }

  /** Number of whitespace characters at the back of `s`. */
  function TrailingSpace(s: string): (n: nat)
    ensures n <= |s|
    ensures AllSpace(s[|s| - n..])
    ensures n < |s| ==> !IsSpace(s[|s| - 1 - n])
  {
    var n := SpaceRunBefore(s, |s|);
    var t := s[|s| - n..];
    assert AllSpace(t) by {
      forall i | 0 <= i < |t| ensures IsSpace(t[i]) { assert t[i] == s[|s| - n + i]; }
    }
    n
  }

  /** Python `s.strip()`: drops surrounding whitespace, keeps the interior untouched. */
  function Strip(s: string): (r: string)
    ensures Trimmed(r)
    ensures |r| <= |s|
  {
    var i := LeadingSpace(s);
    if i == |s| then
      assert s[i..i] == [] && s[i..] == [];
      []
    else
      var u := s[i..];
      var t := TrailingSpace(u);
      assert t < |u| by { assert u[0] == s[i]; }
      var r := s[i..|s| - t];
      assert r[0] == u[0] && r[|r| - 1] == u[|u| - 1 - t];
      assert r == s[i..i + |r|];
      assert s[i + |r|..] == u[|u| - t..];
      r
  }

  /** `Strip` returns a slice of its input with only whitespace on either side of it. */
  lemma StripSlice(s: string)
    ensures var r := Strip(s);
      exists i :: 0 <= i <= |s| - |r| && r == s[i..i + |r|] && AllSpace(s[..i]) && AllSpace(s[i + |r|..])
  {
    var i := LeadingSpace(s);
    var r := Strip(s);
    if i == |s| {
      assert r == s[i..i + |r|] && s[i + |r|..] == [];
    } else {
      var u := s[i..];
      var t := TrailingSpace(u);
      assert r == s[i..i + |r|];
      assert s[i + |r|..] == u[|u| - t..];
    }
  }

  /** Stripping never introduces a character. */
  lemma StripKeepsOut(s: string, c: char)
    requires c !in s
    ensures c !in Strip(s)
  {
    var i := LeadingSpace(s);
    if i < |s| {
      var r := Strip(s);
      assert r == s[i..|s| - TrailingSpace(s[i..])];
      forall k | 0 <= k < |r| ensures r[k] != c {
        assert r[k] == s[i + k];
      }
    }
  }

  /** Any whitespace-bounded slice with trimmed contents is what `Strip` returns: `Strip` is that slice. */
  lemma StripUnique(s: string, i: nat, j: nat)
    requires i <= j <= |s|
    requires AllSpace(s[..i]) && AllSpace(s[j..]) && Trimmed(s[i..j])
    ensures Strip(s) == s[i..j]
  {
    var a := LeadingSpace(s);
    if i < j {
      assert !IsSpace(s[i]);
      assert a == i;
      var u := s[a..];
      var t := TrailingSpace(u);
      assert !IsSpace(u[j - 1 - a]);
      assert forall m :: j - a <= m < |u| ==> IsSpace(u[m]) by {
        forall m | j - a <= m < |u| ensures IsSpace(u[m]) { assert u[m] == s[j..][m - (j - a)]; }
      }
      assert forall m :: |u| - t <= m < |u| ==> IsSpace(u[m]) by {
        forall m | |u| - t <= m < |u| ensures IsSpace(u[m]) { assert u[m] == u[|u| - t..][m - (|u| - t)]; }
      }
      assert t == |s| - j;
    } else {
      assert a == |s|;
    }
  }

  /** Text with no surrounding whitespace is left alone. */
  lemma StripTrimmed(s: string)
    requires Trimmed(s)
    ensures Strip(s) == s
  {
    assert s[..0] == [] && s[|s|..] == [] && s[0..|s|] == s;
    StripUnique(s, 0, |s|);
  }

  /** `s.strip()` is empty exactly when `s` is all whitespace (Python's `not s.strip()`). */
  lemma StripEmpty(s: string)
    ensures Strip(s) == [] <==> AllSpace(s)
  {
    var i := LeadingSpace(s);
    if i < |s| {
      var u := s[i..];
      assert |Strip(s)| == |u| - TrailingSpace(u) > 0 by { assert u[0] == s[i]; }
    } else {
      assert s[..i] == s;
    }
  }

  /** `s.startswith(p)`. */
  predicate StartsWith(s: string, p: string) {
    |p| <= |s| && s[..|p|] == p
  }

  /** `s.endswith(c)` for a one-character suffix. */
  predicate EndsWith(s: string, c: char) {
    |s| > 0 && s[|s| - 1] == c
  }

  predicate IsNewline(c: char) {
    c == '\r' || c == '\n'
  }

  /** Python `s.rstrip("\r\n")`: drops every trailing CR and LF. */
  function RStripNewlines(s: string): (r: string)
    ensures r <= s
    ensures forall i :: |r| <= i < |s| ==> IsNewline(s[i])
    ensures |r| == 0 || !IsNewline(r[|r| - 1])
  {
    if |s| == 0 || !IsNewline(s[|s| - 1]) then s
    else RStripNewlines(s[..|s| - 1])
  }

  /** Stripping CR/LF after appending CR/LF characters gets back a string that did not end in one. */
  lemma {:induction false} RStripNewlinesAppend(s: string, tail: string)
    requires |s| == 0 || !IsNewline(s[|s| - 1])
    requires forall i :: 0 <= i < |tail| ==> IsNewline(tail[i])
    ensures RStripNewlines(s + tail) == s
    decreases |tail|
  {
    if |tail| == 0 {
      assert s + tail == s;
    } else {
      var t := tail[..|tail| - 1];
      assert (s + tail)[..|s + tail| - 1] == s + t;
      RStripNewlinesAppend(s, t);
    }
  }

  /** Splits `s` at every `sep`, as Python `s.split(sep)` does with a one-character separator. */
  function Split(s: string, sep: char): (parts: seq<string>)
    ensures |parts| >= 1
    ensures forall k :: 0 <= k < |parts| ==> sep !in parts[k]
    decreases |s|
  {
    if sep !in s then [s]
    else
      var i := Find(s, sep);
      [s[..i]] + Split(s[i + 1..], sep)
  }

  /** Index of the first `c` in `s`. */
  function Find(s: string, c: char): (k: nat)
    requires c in s
    ensures k < |s| && s[k] == c && c !in s[..k]
  {
    if s[0] == c then 0 else 1 + Find(s[1..], c)
  }

  /** The first occurrence is the one `Find` returns. */
  lemma FindFirst(s: string, c: char, i: nat)
    requires i < |s| && s[i] == c && c !in s[..i]
    ensures Find(s, c) == i
  {
    var k := Find(s, c);
    assert forall m :: 0 <= m < i ==> s[m] != c by {
      forall m | 0 <= m < i ensures s[m] != c { assert s[m] == s[..i][m]; }
    }
    assert forall m :: 0 <= m < k ==> s[m] != c by {
      forall m | 0 <= m < k ensures s[m] != c { assert s[m] == s[..k][m]; }
    }
  }

  /** `sep.join(parts)`. */
  function Join(parts: seq<string>, sep: char): string
    requires |parts| >= 1
  {
    if |parts| == 1 then parts[0] else parts[0] + [sep] + Join(parts[1..], sep)
  }

  lemma {:induction false} JoinSplit(s: string, sep: char)
    ensures Join(Split(s, sep), sep) == s
    decreases |s|
  {
    if sep in s {
      var i := Find(s, sep);
      var parts := Split(s, sep);
      JoinSplit(s[i + 1..], sep);
      assert parts[1..] == Split(s[i + 1..], sep);
      assert s[..i] + [sep] + s[i + 1..] == s;
    }
  }

  /** Text before the first separator becomes the first piece. */
  lemma SplitAtFirst(p: string, rest: string, sep: char)
    requires sep !in p
    ensures Split(p + [sep] + rest, sep) == [p] + Split(rest, sep)
  {
    var j := p + [sep] + rest;
    assert j[..|p|] == p && j[|p|] == sep && j[|p| + 1..] == rest;
    FindFirst(j, sep, |p|);
  }

  lemma {:induction false} SplitJoin(parts: seq<string>, sep: char)
    requires |parts| >= 1
    requires forall k :: 0 <= k < |parts| ==> sep !in parts[k]
    ensures Split(Join(parts, sep), sep) == parts
  {
    if |parts| > 1 {
      var tail := parts[1..];
      SplitAtFirst(parts[0], Join(tail, sep), sep);
      assert forall k :: 0 <= k < |tail| ==> sep !in tail[k] by {
        forall k | 0 <= k < |tail| ensures sep !in tail[k] { assert tail[k] == parts[k + 1]; }
      }
      SplitJoin(tail, sep);
      assert parts == [parts[0]] + tail;
    }
  }

  /** ASCII case folding; the only letters the bridge compares after `lower()` are ASCII. */
  function LowerChar(c: char): (d: char)
    ensures !('A' <= d <= 'Z')
    ensures 'A' <= c <= 'Z' || d == c
  {
    if 'A' <= c <= 'Z' then (c as int + 32) as char else c
  }

  function Lower(s: string): (r: string)
    ensures |r| == |s|
    ensures forall i :: 0 <= i < |s| ==> r[i] == LowerChar(s[i])
  {
    seq(|s|, i requires 0 <= i < |s| => LowerChar(s[i]))
  }

  lemma LowerIdempotent(s: string)
    ensures Lower(Lower(s)) == Lower(s)
  {
  }
}
