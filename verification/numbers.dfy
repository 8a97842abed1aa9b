/**
 * Python's numeric conversions as the bridge uses them: `int(text)` (the
 * environment reader and the command duration), `str(n)` for an integer,
 * and `float(text)` for telemetry tokens. Floating-point values themselves
 * are not modelled: a float token is only classified as finite, infinite or
 * not-a-number.
 */
module Numbers {
  import opened Wrappers
  import Text

  predicate IsDigit(c: char) {
    '0' <= c <= '9'
  }

  predicate AllDigits(s: string) {
    forall i :: 0 <= i < |s| ==> IsDigit(s[i])
  }

  function DigitValue(c: char): (d: nat)
    requires IsDigit(c)
    ensures d < 10
  {
    c as int - '0' as int
  }

  function DigitChar(d: nat): (c: char)
    requires d < 10
    ensures IsDigit(c) && DigitValue(c) == d
  {
    ('0' as int + d) as char
  }

  /** The value of a run of decimal digits, most significant first. */
  function DigitsValue(s: string): nat
    requires AllDigits(s)
  {
    if |s| == 0 then 0 else 10 * DigitsValue(s[..|s| - 1]) + DigitValue(s[|s| - 1])
  }

  /** Python `str(n)` for a natural number: no leading zeros. */
  function NatToDecimal(n: nat): (s: string)
    ensures |s| >= 1 && AllDigits(s)
    ensures |s| > 1 ==> s[0] != '0'
  {
    if n < 10 then [DigitChar(n)] else NatToDecimal(n / 10) + [DigitChar(n % 10)]
  }

  /** Python `str(i)` for an integer. */
  function IntToDecimal(i: int): (s: string)
    ensures |s| >= 1
    ensures s[0] == '-' <==> i < 0
    ensures var d := if i < 0 then s[1..] else s; |d| == DigitCount(i) && AllDigits(d) && (|d| > 1 ==> d[0] != '0')
  {
    if i < 0 then
      var s := "-" + NatToDecimal(-i);
      assert s[1..] == NatToDecimal(-i);
      s
    else NatToDecimal(i)
  }

  /** The number of decimal digits of `i`, its sign left out. */
  function DigitCount(i: int): nat {
    |NatToDecimal(if i < 0 then -i else i)|
  }

  /**
   * Python 3.11 and later refuse to convert between `int` and decimal text
   * of more than this many digits (`sys.int_info.default_max_str_digits`):
   * `int(text)` and `str(n)` raise ValueError beyond it.
   */
  const MaxStrDigits: nat := 4300

  /**
   * Python `int(t)` on a string that has already been stripped: an optional
   * sign and at least one and at most `MaxStrDigits` decimal digits, anything
   * else raises (None here).
   */
  function ParseDecimal(t: string): (r: Option<int>)
    ensures r.Some? <==>
      || (1 <= |t| <= MaxStrDigits && AllDigits(t))
      || (2 <= |t| <= MaxStrDigits + 1 && (t[0] == '-' || t[0] == '+') && AllDigits(t[1..]))
    ensures 1 <= |t| <= MaxStrDigits && AllDigits(t) ==> r == Some(DigitsValue(t))
    ensures 2 <= |t| <= MaxStrDigits + 1 && t[0] == '+' && AllDigits(t[1..]) ==> r == Some(DigitsValue(t[1..]))
    ensures 2 <= |t| <= MaxStrDigits + 1 && t[0] == '-' && AllDigits(t[1..]) ==> r == Some(-(DigitsValue(t[1..]) as int))
    ensures r.Some? && r.value < 0 ==> t[0] == '-'
  {
    if 2 <= |t| <= MaxStrDigits + 1 && (t[0] == '-' || t[0] == '+') && AllDigits(t[1..]) then
      var v: int := DigitsValue(t[1..]);
      Some(if t[0] == '-' then -v else v)
    else if 1 <= |t| <= MaxStrDigits && AllDigits(t) then
      Some(DigitsValue(t))
    else
      None
  }

  /** Leading zeros, an explicit `+` and a negative zero are accepted; a lone sign is not. */
  lemma ParseDecimalExamples()
    ensures ParseDecimal("+5") == Some(5)
    ensures ParseDecimal("007") == Some(7)
    ensures ParseDecimal("-0") == Some(0)
    ensures ParseDecimal("+") == None && ParseDecimal("") == None && ParseDecimal("1-") == None
  {
    assert "+5"[1..] == "5";
    assert "007"[..2] == "00" && "00"[..1] == "0";
    assert "-0"[1..] == "0";
    assert !IsDigit("1-"[1]);
  }

  /** Python `int(text)` on a string: surrounding whitespace is allowed. */
  function PyInt(text: string): (r: Option<int>)
    ensures Text.Trimmed(text) ==> r == ParseDecimal(text)
  {
    if Text.Trimmed(text) then Text.StripTrimmed(text); ParseDecimal(Text.Strip(text))
    else ParseDecimal(Text.Strip(text))
  }

  /** Whitespace around the number does not matter to `int(text)`. */
  lemma PyIntPadding(pre: string, t: string, post: string)
    requires Text.AllSpace(pre) && Text.AllSpace(post) && Text.Trimmed(t)
    ensures PyInt(pre + t + post) == ParseDecimal(t)
  {
    var s := pre + t + post;
    assert s[..|pre|] == pre && s[|pre| + |t|..] == post && s[|pre|..|pre| + |t|] == t;
    Text.StripUnique(s, |pre|, |pre| + |t|);
  }

  lemma {:induction false} NatToDecimalValue(n: nat)
    ensures DigitsValue(NatToDecimal(n)) == n
  {
    var s := NatToDecimal(n);
    if n >= 10 {
      NatToDecimalValue(n / 10);
      assert s[..|s| - 1] == NatToDecimal(n / 10);
    }
  }

  /**
   * Rendering an integer and reading it back gives the same integer, within
   * the digit limit; beyond it the text is refused (and `str` itself raises).
   */
  lemma DecimalRoundTrip(i: int)
    ensures ParseDecimal(IntToDecimal(i)) == if DigitCount(i) <= MaxStrDigits then Some(i) else None
  {
    var s := IntToDecimal(i);
    if i < 0 {
      var d := NatToDecimal(-i);
      assert s == "-" + d && s[1..] == d;
      assert s[0] == '-' && AllDigits(s[1..]) && |s| == DigitCount(i) + 1;
      NatToDecimalValue(-i);
    } else {
      assert s == NatToDecimal(i) && AllDigits(s) && |s| == DigitCount(i);
      NatToDecimalValue(i);
    }
  }

  // ---------- float(text) ----------

  /** What Python's `float(token)` yields, up to the value itself. */
  datatype FloatClass = FiniteFloat | InfiniteFloat | NotANumber

  /** Digits, a dot with digits on at least one side, or digits only. */
  predicate IsMantissa(s: string) {
    var parts := Text.Split(s, '.');
    if |parts| == 1 then |s| >= 1 && AllDigits(s)
    else |parts| == 2 && |s| >= 2 && AllDigits(parts[0]) && AllDigits(parts[1])
  }

  predicate IsExponentDigits(s: string) {
    |s| >= 1 && (AllDigits(s) || (|s| >= 2 && (s[0] == '+' || s[0] == '-') && AllDigits(s[1..])))
  }

  /** An unsigned decimal float literal: mantissa, optionally `e`/`E` and a signed exponent. */
  predicate IsDecimalLiteral(u: string) {
    var parts := Text.Split(Text.Lower(u), 'e');
    if |parts| == 1 then IsMantissa(u)
    else |parts| == 2 && IsMantissa(parts[0]) && IsExponentDigits(parts[1])
  }

  /** A run of digits is its own lower-case form and an integer literal, never a word such as `inf`. */
  lemma DigitsLiteral(u: string)
    ensures |u| >= 1 && AllDigits(u) ==> Text.Lower(u) == u && IsDecimalLiteral(u) && IsDigit(u[0])
  {
    if |u| >= 1 && AllDigits(u) {
      assert forall j :: 0 <= j < |u| ==> Text.Lower(u)[j] == u[j];
      assert 'e' !in u && '.' !in u;
    }
  }

  /**
   * Python `float(token)` for a token with no surrounding whitespace: an
   * optional sign, then `inf`, `infinity` or `nan` in any letter case, or a
   * decimal literal; anything else raises (classed as not a number here).
   */
  function FloatSyntax(token: string): (r: FloatClass)
    ensures token == "" ==> r == NotANumber
    ensures |token| >= 1 && AllDigits(token) ==> r == FiniteFloat
  {
    DigitsLiteral(token);
    var u := if |token| >= 1 && (token[0] == '+' || token[0] == '-') then token[1..] else token;
    var l := Text.Lower(u);
    if l == "inf" || l == "infinity" then InfiniteFloat
    else if l == "nan" then NotANumber
    else if IsDecimalLiteral(u) then FiniteFloat
    else NotANumber
  }

  /** A leading sign never changes how `float` classes the rest of the token. */
  lemma FloatSyntaxSign(u: string)
    requires |u| == 0 || (u[0] != '+' && u[0] != '-')
    ensures FloatSyntax("-" + u) == FloatSyntax(u)
    ensures FloatSyntax("+" + u) == FloatSyntax(u)
  {
    assert ("-" + u)[1..] == u;
    assert ("+" + u)[1..] == u;
  }

  /** `a.b` is a mantissa exactly when the two digit runs are not both empty. */
  lemma DottedMantissa(a: string, b: string)
    requires AllDigits(a) && AllDigits(b)
    ensures IsMantissa(a + "." + b) <==> |a| + |b| >= 1
  {
    assert '.' !in a && '.' !in b;
    Text.SplitAtFirst(a, b, '.');
    assert a + "." + b == a + ['.'] + b;
  }

  /** Text with two dots splits into at least three pieces, so it is no mantissa. */
  lemma TwoDots(a: string, b: string, c: string)
    requires '.' !in a && '.' !in b
    ensures !IsMantissa(a + "." + b + "." + c)
  {
    Text.SplitAtFirst(a, b + "." + c, '.');
    Text.SplitAtFirst(b, c, '.');
    assert a + "." + b + "." + c == a + ['.'] + (b + ['.'] + c);
    assert b + "." + c == b + ['.'] + c;
  }

  /** Digits and dots only: the token is its own lower-case form, unsigned, and no word. */
  lemma PlainToken(t: string)
    requires forall j :: 0 <= j < |t| ==> IsDigit(t[j]) || t[j] == '.'
    requires '.' in t
    ensures FloatSyntax(t) == if IsMantissa(t) then FiniteFloat else NotANumber
  {
    assert forall j :: 0 <= j < |t| ==> Text.Lower(t)[j] == t[j];
    assert Text.Lower(t) == t;
    assert 'e' !in t;
    assert t[0] != '+' && t[0] != '-';
    assert '.' !in "inf" && '.' !in "infinity" && '.' !in "nan";
  }

  /** `a.b` for digit runs `a` and `b` is finite, unless both are empty (a lone dot). */
  lemma DottedFloat(a: string, b: string)
    requires AllDigits(a) && AllDigits(b)
    ensures FloatSyntax(a + "." + b) == if |a| + |b| >= 1 then FiniteFloat else NotANumber
  {
    var t := a + "." + b;
    assert t[|a|] == '.';
    assert forall j :: 0 <= j < |t| ==> IsDigit(t[j]) || t[j] == '.' by {
      forall j | 0 <= j < |t| ensures IsDigit(t[j]) || t[j] == '.' {
        if j > |a| { assert t[j] == b[j - |a| - 1]; }
      }
    }
    PlainToken(t);
    DottedMantissa(a, b);
  }

  /** A second dot is never accepted. */
  lemma TwoDotsFloat(a: string, b: string, c: string)
    requires AllDigits(a) && AllDigits(b) && AllDigits(c)
    ensures FloatSyntax(a + "." + b + "." + c) == NotANumber
  {
    var t := a + "." + b + "." + c;
    assert t[|a|] == '.';
    assert forall j :: 0 <= j < |t| ==> IsDigit(t[j]) || t[j] == '.' by {
      forall j | 0 <= j < |t| ensures IsDigit(t[j]) || t[j] == '.' {
        if |a| < j < |a| + 1 + |b| { assert t[j] == b[j - |a| - 1]; }
        if j > |a| + 1 + |b| { assert t[j] == c[j - |a| - |b| - 2]; }
      }
    }
    assert '.' !in a && '.' !in b;
    TwoDots(a, b, c);
    PlainToken(t);
  }

  /** Lower-casing a digit-and-exponent token only touches the `E`. */
  lemma ExponentLower(m: string, x: char, d: string)
    requires AllDigits(m) && (x == 'e' || x == 'E') && IsExponentDigits(d)
    ensures Text.Lower(m + [x] + d) == m + ['e'] + d
  {
    var t := m + [x] + d;
    forall j | 0 <= j < |t| ensures Text.Lower(t)[j] == (m + ['e'] + d)[j] {
      if j > |m| { assert t[j] == d[j - |m| - 1]; }
    }
  }

  /** Splitting at the exponent marker separates mantissa and exponent. */
  lemma ExponentSplit(m: string, d: string)
    requires AllDigits(m) && IsExponentDigits(d)
    ensures Text.Split(m + ['e'] + d, 'e') == [m, d]
  {
    assert 'e' !in m && 'e' !in d;
    Text.SplitAtFirst(m, d, 'e');
  }

  /** Text holding an `e` or a dot is none of the words `inf`, `infinity` and `nan`. */
  lemma NotAWord(l: string, k: nat)
    requires k < |l| && (l[k] == 'e' || l[k] == '.')
    ensures l != "inf" && l != "infinity" && l != "nan"
  {
  }

  /** An unsigned token that is none of the words is finite exactly when it is a decimal literal. */
  lemma UnsignedToken(t: string, k: nat)
    requires |t| >= 1 && t[0] != '+' && t[0] != '-'
    requires k < |t| && (Text.Lower(t)[k] == 'e' || Text.Lower(t)[k] == '.')
    ensures FloatSyntax(t) == if IsDecimalLiteral(t) then FiniteFloat else NotANumber
  {
    NotAWord(Text.Lower(t), k);
  }

  /** Digits, an exponent marker and exponent digits form a decimal literal. */
  lemma ExponentLiteral(m: string, x: char, d: string)
    requires |m| >= 1 && AllDigits(m) && (x == 'e' || x == 'E') && IsExponentDigits(d)
    ensures IsDecimalLiteral(m + [x] + d) && Text.Lower(m + [x] + d)[|m|] == 'e'
  {
    ExponentLower(m, x, d);
    ExponentSplit(m, d);
    DigitsLiteral(m);
  }

  /** Digits, then `e` or `E`, then an exponent with or without a sign: a finite float. */
  lemma ExponentFloat(m: string, x: char, d: string)
    requires |m| >= 1 && AllDigits(m) && (x == 'e' || x == 'E') && IsExponentDigits(d)
    ensures FloatSyntax(m + [x] + d) == FiniteFloat
  {
    var t := m + [x] + d;
    assert t[0] == m[0];
    ExponentLiteral(m, x, d);
    UnsignedToken(t, |m|);
  }

  /** An exponent marker with nothing before it leaves an empty mantissa. */
  lemma BareExponentLiteral(x: char, d: string)
    requires x == 'e' || x == 'E'
    ensures !IsDecimalLiteral([x] + d) && Text.Lower([x] + d)[0] == 'e'
  {
    var l := Text.Lower([x] + d);
    assert l == [] + ['e'] + l[1..];
    Text.SplitAtFirst([], l[1..], 'e');
    assert Text.Split([], '.') == [[]];
  }

  /** An exponent needs a mantissa before it. */
  lemma BareExponent(x: char, d: string)
    requires x == 'e' || x == 'E'
    ensures FloatSyntax([x] + d) == NotANumber
  {
    BareExponentLiteral(x, d);
    UnsignedToken([x] + d, 0);
  }

  /** `inf` and `infinity` are read in any letter case, with or without a sign. */
  lemma InfinityWords(sign: string, w: string)
    requires sign == "" || sign == "+" || sign == "-"
    requires Text.Lower(w) == "inf" || Text.Lower(w) == "infinity"
    ensures FloatSyntax(sign + w) == InfiniteFloat
  {
    assert Text.Lower(w)[0] == 'i';
    assert w[0] != '+' && w[0] != '-';
    assert (sign + w)[|sign|..] == w;
  }

  /** `.5` and `5.` are floats, but a lone dot is not. */
  lemma DotExamples()
    ensures FloatSyntax(".5") == FiniteFloat && FloatSyntax("5.") == FiniteFloat
    ensures FloatSyntax(".") == NotANumber
  {
    assert "" + "." + "5" == ".5";
    DottedFloat("", "5");
    assert "5" + "." + "" == "5.";
    DottedFloat("5", "");
    assert "" + "." + "" == ".";
    DottedFloat("", "");
  }

  /** `1e-3` is a float, but `e5` has no mantissa. */
  lemma ExponentExamples()
    ensures FloatSyntax("1e-3") == FiniteFloat
    ensures FloatSyntax("e5") == NotANumber
  {
    assert "1" + ['e'] + "-3" == "1e-3";
    assert "-3"[1..] == "3";
    ExponentFloat("1", 'e', "-3");
    assert ['e'] + "5" == "e5";
    BareExponent('e', "5");
  }

  /** `-iNF` is infinite, and `1.2.3` is not a number. */
  lemma WordAndDotsExamples()
    ensures FloatSyntax("-iNF") == InfiniteFloat
    ensures FloatSyntax("1.2.3") == NotANumber
  {
    assert Text.Lower("iNF") == "inf";
    assert "-" + "iNF" == "-iNF";
    InfinityWords("-", "iNF");
    assert "1" + "." + "2" + "." + "3" == "1.2.3";
    TwoDotsFloat("1", "2", "3");
  }

  /** Every integer rendering is a finite float literal: `float(str(i))` never yields inf or nan. */
  lemma IntIsFiniteFloat(i: int)
    ensures FloatSyntax(IntToDecimal(i)) == FiniteFloat
  {
    var s := IntToDecimal(i);
    if i < 0 {
      assert s == "-" + s[1..];
      FloatSyntaxSign(s[1..]);
    }
  }
}
