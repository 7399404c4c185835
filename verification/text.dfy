/**
 * String primitives the app relies on, written out the way JavaScript defines them:
 * `String.prototype.trim`, the `\d` and `\s` regular-expression classes, `String(n)` for
 * integers, `padStart(2, "0")`, a one-shot `replace(",", ".")`, the quote-stripping code
 * normaliser shared by the screens and the catalog importer, and the part of `Number(string)`
 * the app depends on.
 */
module Text {

  /** JavaScript's WhiteSpace and LineTerminator characters: what `trim()` drops and `\s` matches. */
  predicate IsWhitespace(c: char) {
    || c == ' ' || c == '\t' || c == '\n' || c == '\r'
    || c == '\U{000B}' || c == '\U{000C}' || c == '\U{00A0}' || c == '\U{1680}'
    || ('\U{2000}' <= c <= '\U{200A}')
    || c == '\U{2028}' || c == '\U{2029}' || c == '\U{202F}' || c == '\U{205F}'
    || c == '\U{3000}' || c == '\U{FEFF}'
  }

  /** Number of whitespace characters at the front of `s`. */
  function LeadingWs(s: string): (k: nat)
    ensures k <= |s|
    ensures forall i :: 0 <= i < k ==> IsWhitespace(s[i])
    ensures k < |s| ==> !IsWhitespace(s[k])
  {
    if |s| > 0 && IsWhitespace(s[0]) then 1 + LeadingWs(s[1..]) else 0
  }

  /** Number of whitespace characters at the back of `s`. */
  function TrailingWs(s: string): (k: nat)
    ensures k <= |s|
    ensures forall i :: |s| - k <= i < |s| ==> IsWhitespace(s[i])
    ensures k < |s| ==> !IsWhitespace(s[|s| - 1 - k])
  {
    if |s| > 0 && IsWhitespace(s[|s| - 1]) then 1 + TrailingWs(s[..|s| - 1]) else 0
  }

  /** `s.trim()`: the longest infix of `s` that neither starts nor ends with whitespace. */
  function Trim(s: string): (r: string)
    ensures LeadingWs(s) + |r| <= |s|
    ensures r == s[LeadingWs(s)..LeadingWs(s) + |r|]
    ensures forall i :: LeadingWs(s) + |r| <= i < |s| ==> IsWhitespace(s[i])
    ensures |r| > 0 ==> !IsWhitespace(r[0]) && !IsWhitespace(r[|r| - 1])
  {
    var t := s[LeadingWs(s)..];
    t[..|t| - TrailingWs(t)]
  }

  /** A string with no whitespace at either end. */
  predicate IsTrimmed(s: string) {
    |s| == 0 || (!IsWhitespace(s[0]) && !IsWhitespace(s[|s| - 1]))
  }

  /** `trim` leaves a string alone exactly when it has no whitespace at either end. */
  lemma TrimFixpoint(s: string)
    ensures Trim(s) == s <==> IsTrimmed(s)
  {
    if IsTrimmed(s) && |s| > 0 {
      assert LeadingWs(s) == 0;
      assert TrailingWs(s) == 0;
    }
  }

  /** Trimming twice is trimming once. */
  lemma TrimIdempotent(s: string)
    ensures Trim(Trim(s)) == Trim(s)
  {
    TrimFixpoint(Trim(s));
  }

  /** `s.startsWith(p)`. */
  predicate StartsWith(s: string, p: string) {
    |p| <= |s| && s[..|p|] == p
  }

  function Min(a: nat, b: nat): nat { if a <= b then a else b }

  /** `s.slice(a, b)` for indices `0 <= a <= b`: both ends are clamped to the length. */
  function Slice(s: string, a: nat, b: nat): (r: string)
    requires a <= b
    ensures |r| == Min(b, |s|) - Min(a, |s|)
    ensures b <= |s| ==> r == s[a..b]
  {
    s[Min(a, |s|)..Min(b, |s|)]
  }

  /** `s.slice(-n)` for `n > 0`: the last `n` characters, or all of `s` when it is shorter. */
  function SliceLast(s: string, n: nat): (r: string)
    ensures |r| == Min(n, |s|)
    ensures r == s[|s| - |r|..]
  {
    if n <= |s| then s[|s| - n..] else s
  }

  /** The regular-expression class `\d`, which without the `u` flag is ASCII digits only. */
  predicate IsDigit(c: char) {
    '0' <= c <= '9'
  }

  /** `/^\d*$/`. */
  predicate AllDigits(s: string) {
    forall i :: 0 <= i < |s| ==> IsDigit(s[i])
  }

  function DigitValue(c: char): nat
    requires IsDigit(c)
  {
    (c - '0') as nat
  }

  function DigitChar(d: nat): (c: char)
    requires d < 10
    ensures IsDigit(c) && DigitValue(c) == d
  {
    ('0' as int + d) as char
  }

  /** The decimal value of a digit string (`Number(s)` on digits; "" has value 0). */
  function DigitsValue(s: string): nat
    requires AllDigits(s)
  {
    if |s| == 0 then 0 else 10 * DigitsValue(s[..|s| - 1]) + DigitValue(s[|s| - 1])
  }

  function Pow10(n: nat): (r: nat)
    ensures r >= 1
  {
    if n == 0 then 1 else 10 * Pow10(n - 1)
  }

  /** A digit string is below ten to the power of its length. */
  lemma {:induction false} DigitsValueBound(s: string)
    requires AllDigits(s)
    ensures DigitsValue(s) < Pow10(|s|)
  {
    if |s| > 0 {
      DigitsValueBound(s[..|s| - 1]);
    }
  }

  /** Powers of ten grow with the exponent. */
  lemma {:induction false} Pow10Monotone(a: nat, b: nat)
    requires a <= b
    ensures Pow10(a) <= Pow10(b)
  {
    if a < b {
      Pow10Monotone(a, b - 1);
    }
  }

  /** `String(n)` for a non-negative integer: canonical decimal, no leading zero. */
  function NatToString(n: nat): (r: string)
    ensures |r| >= 1 && AllDigits(r)
    ensures |r| > 1 ==> r[0] != '0'
    decreases n
  {
    if n < 10 then [DigitChar(n)] else NatToString(n / 10) + [DigitChar(n % 10)]
  }

  /** `String(n)` for any integer. */
  function IntToString(n: int): (r: string)
    ensures |r| >= 1
    ensures n >= 0 ==> r == NatToString(n)
    ensures n < 0 ==> r == "-" + NatToString(-n)
  {
    if n < 0 then "-" + NatToString(-n) else NatToString(n)
  }

  /** Reading back what `String(n)` wrote gives `n`. */
  lemma {:induction false} NatToStringRoundTrip(n: nat)
    ensures DigitsValue(NatToString(n)) == n
    decreases n
  {
    if n >= 10 {
      NatToStringRoundTrip(n / 10);
      var s := NatToString(n);
      assert s[..|s| - 1] == NatToString(n / 10);
    }
  }

  /** A digit string in canonical form: "0", or no leading zero. */
  predicate IsCanonicalDigits(s: string) {
    |s| >= 1 && AllDigits(s) && (|s| > 1 ==> s[0] != '0')
  }

  /** A canonical digit string of two or more digits has value at least ten. */
  lemma {:induction false} CanonicalValueAtLeastTen(s: string)
    requires IsCanonicalDigits(s) && |s| >= 2
    ensures DigitsValue(s) >= 10
    decreases |s|
  {
    var p := s[..|s| - 1];
    if |p| >= 2 {
      assert p[0] == s[0];
      CanonicalValueAtLeastTen(p);
    } else {
      assert p[0] == s[0];
    }
  }

  /** `String(Number(s))` is `s` itself for a canonical digit string. */
  lemma {:induction false} CanonicalDigitsRoundTrip(s: string)
    requires IsCanonicalDigits(s)
    ensures NatToString(DigitsValue(s)) == s
    decreases |s|
  {
    if |s| >= 2 {
      var p := s[..|s| - 1];
      assert p[0] == s[0];
      if |p| >= 2 {
        CanonicalValueAtLeastTen(p);
      }
      CanonicalDigitsRoundTrip(p);
      CanonicalValueAtLeastTen(s);
      var n := DigitsValue(s);
      assert n / 10 == DigitsValue(p) && n % 10 == DigitValue(s[|s| - 1]);
      assert s == p + [s[|s| - 1]];
    }
  }

  /** Drop leading '0' characters, keeping at least one character. */
  function StripLeadingZeros(s: string): (r: string)
    requires |s| >= 1 && AllDigits(s)
    ensures IsCanonicalDigits(r)
    ensures DigitsValue(r) == DigitsValue(s)
  {
    if |s| > 1 && s[0] == '0' then
      DigitsValueLeadingZero(s);
      StripLeadingZeros(s[1..])
    else s
  }

  /** A leading zero does not change the value of a digit string. */
  lemma {:induction false} DigitsValueLeadingZero(s: string)
    requires |s| >= 1 && AllDigits(s) && s[0] == '0'
    ensures DigitsValue(s) == DigitsValue(s[1..])
    decreases |s|
  {
    if |s| > 1 {
      var p := s[..|s| - 1];
      DigitsValueLeadingZero(p);
      assert p[1..] == s[1..][..|s[1..]| - 1];
    }
  }

  /** `String(Number(s))` on a non-empty digit string strips its leading zeros ("00000" gives "0"). */
  lemma NumberToStringStripsZeros(s: string)
    requires |s| >= 1 && AllDigits(s)
    ensures NatToString(DigitsValue(s)) == StripLeadingZeros(s)
  {
    CanonicalDigitsRoundTrip(StripLeadingZeros(s));
  }

  /** `String(n).padStart(2, "0")` for a non-negative integer. */
  function Pad2(n: nat): (r: string)
    ensures AllDigits(r)
    ensures n < 100 ==> |r| == 2 && DigitsValue(r) == n
    ensures n >= 10 ==> r == NatToString(n)
  {
    NatToStringRoundTrip(n);
    var s := NatToString(n);
    if n < 10 then
      assert s == [DigitChar(n)];
      "0" + s
    else
      assert n < 100 ==> NatToString(n / 10) == [DigitChar(n / 10)];
      s
  }

  /** Index of the first occurrence of `c` in `s`. */
  function IndexOf(s: string, c: char): (i: nat)
    requires c in s
    ensures i < |s| && s[i] == c && c !in s[..i]
  {
    if s[0] == c then 0 else
      assert c in s[1..] by { var k :| 0 <= k < |s| && s[k] == c; assert s[1..][k - 1] == c; }
      var j := IndexOf(s[1..], c);
      assert s[..j + 1] == [s[0]] + s[1..][..j];
      1 + j
  }

  /** `s.replace(from, to)` with a one-character string pattern: only the FIRST occurrence changes. */
  function ReplaceFirst(s: string, from: char, to: char): (r: string)
    ensures |r| == |s|
    ensures forall k :: 0 <= k < |s| ==> r[k] == (if s[k] == from && from !in s[..k] then to else s[k])
  {
    if from !in s then s
    else
      var i := IndexOf(s, from);
      assert forall k :: i < k < |s| ==> from in s[..k] by {
        forall k | i < k < |s| ensures from in s[..k] { assert s[..k][i] == from; }
      }
      assert forall k :: 0 <= k < i ==> from !in s[..k] by {
        forall k | 0 <= k < i ensures from !in s[..k] { assert s[..k] == s[..i][..k]; }
      }
      s[..i] + [to] + s[i + 1..]
  }

  /**
   * The code normaliser of the screens and the importer: trim, then drop at most ONE leading
   * apostrophe (the artefact spreadsheets leave on numeric-looking text).
   */
  function NormalizeCode(raw: string): (r: string)
    ensures Trim(raw) == r || Trim(raw) == "'" + r
    ensures Trim(raw) == "'" + r <==> StartsWith(Trim(raw), "'")
  {
    var s := Trim(raw);
    if |s| > 0 && s[0] == '\'' then
      assert s == "'" + s[1..];
      s[1..]
    else s
  }

  /** Only one apostrophe is removed: "''7790" normalises to "'7790". */
  lemma NormalizeCodeStripsOnce()
    ensures NormalizeCode("''7790") == "'7790"
  {
    TrimFixpoint("''7790");
  }

  /** The result of JavaScript's `Number(string)`: a finite value, or NaN/Infinity. */
  datatype JsNumber = Finite(value: real) | NonFinite

  /** The value of digits `ip` '.' digits `fp`. */
  function DecimalValue(ip: string, fp: string): real
    requires AllDigits(ip) && AllDigits(fp)
  {
    DigitsValue(ip) as real + DigitsValue(fp) as real / Pow10(|fp|) as real
  }

  /** An unsigned decimal literal "d*", "d*.d*" with at least one digit. */
  function ParseUnsigned(u: string): (r: JsNumber)
    ensures r.Finite? ==> r.value >= 0.0
  {
    if '.' in u then
      var i := IndexOf(u, '.');
      var ip := u[..i];
      var fp := u[i + 1..];
      if AllDigits(ip) && AllDigits(fp) && |ip| + |fp| > 0 then Finite(DecimalValue(ip, fp)) else NonFinite
    else if |u| > 0 && AllDigits(u) then Finite(DigitsValue(u) as real)
    else NonFinite
  }

  /**
   * `Number(s)` on the grammar the app meets: surrounding whitespace ignored, the empty string
   * is 0, an optional sign, a decimal literal with '.', and the literal "Infinity"; anything
   * else is NaN.
   */
  function ParseNumber(s: string): (r: JsNumber)
    ensures Trim(s) == "" ==> r == Finite(0.0)
    ensures Trim(s) != "" && Trim(s)[0] != '-' && r.Finite? ==> r.value >= 0.0
  {
    var t := Trim(s);
    if t == "" then Finite(0.0)
    else if t == "Infinity" || t == "+Infinity" || t == "-Infinity" then NonFinite
    else if t[0] == '-' then
      (match ParseUnsigned(t[1..]) case Finite(v) => Finite(-v) case NonFinite => NonFinite)
    else if t[0] == '+' then ParseUnsigned(t[1..])
    else ParseUnsigned(t)
  }

  /** On a trimmed string that starts with a digit or a point, `Number` reads an unsigned literal. */
  lemma ParseNumberOfDigitLed(t: string)
    requires IsTrimmed(t) && |t| > 0 && (IsDigit(t[0]) || t[0] == '.')
    ensures ParseNumber(t) == ParseUnsigned(t)
  {
    TrimFixpoint(t);
    assert t != "Infinity" && t != "+Infinity" && t != "-Infinity" by {
      assert t[0] != 'I' && t[0] != '+' && t[0] != '-';
    }
  }

  /** A digit string without a dot is read as its value. */
  lemma ParseUnsignedDigits(u: string)
    requires |u| > 0 && AllDigits(u)
    ensures ParseUnsigned(u) == Finite(DigitsValue(u) as real)
  {
  }

  /** `Number(String(n))` is `n`: parsing inverts integer rendering. */
  lemma ParseNumberOfNatToString(n: nat)
    ensures ParseNumber(NatToString(n)) == Finite(n as real)
  {
    var s := NatToString(n);
    assert |s| > 0 && AllDigits(s) && DigitsValue(s) == n by { NatToStringRoundTrip(n); }
    ParseNumberOfDigits(s);
  }

  /** A trimmed digit string reads as its value. */
  lemma ParseNumberOfDigits(s: string)
    requires |s| > 0 && AllDigits(s)
    ensures ParseNumber(s) == Finite(DigitsValue(s) as real)
  {
    assert IsDigit(s[0]) && IsDigit(s[|s| - 1]);
    ParseNumberOfDigitLed(s);
    ParseUnsignedDigits(s);
  }

  /** `Number(text.replace(",", "."))`: how both screens read the typed quantity. */
  function ParseQuantity(text: string): (r: JsNumber)
    ensures ',' !in text ==> r == ParseNumber(text)
  {
    ParseNumber(ReplaceFirst(text, ',', '.'))
  }

  /** In `ip + "," + fp` with digits on both sides, the one comma is the first and becomes the point. */
  lemma CommaBetweenDigits(ip: string, fp: string)
    requires AllDigits(ip) && AllDigits(fp)
    ensures ReplaceFirst(ip + "," + fp, ',', '.') == ip + "." + fp
  {
    var s := ip + "," + fp;
    var r := ReplaceFirst(s, ',', '.');
    forall k | 0 <= k < |s| ensures r[k] == (ip + "." + fp)[k] {
      if k < |ip| {
        assert IsDigit(ip[k]);
      } else if k == |ip| {
        assert s[..k] == ip;
        assert forall j :: 0 <= j < k ==> IsDigit(s[..k][j]);
      } else {
        assert s[..k][|ip|] == ',';
      }
    }
  }

  /** The point in `ip + "." + fp` with digits on both sides is its first one. */
  lemma PointBetweenDigits(ip: string, fp: string)
    requires AllDigits(ip) && AllDigits(fp)
    ensures '.' in ip + "." + fp && IndexOf(ip + "." + fp, '.') == |ip|
  {
    var t := ip + "." + fp;
    assert t[|ip|] == '.';
  }

  /**
   * A decimal comma between digit strings reads exactly as the decimal point would: the value
   * `ip + fp / 10^|fp|`, and NaN for a lone comma.
   */
  lemma ParseQuantityCommaAsPoint(ip: string, fp: string)
    requires AllDigits(ip) && AllDigits(fp)
    ensures ParseQuantity(ip + "," + fp) == ParseNumber(ip + "." + fp)
    ensures |ip| + |fp| > 0 ==> ParseQuantity(ip + "," + fp) == Finite(DecimalValue(ip, fp))
    ensures |ip| + |fp| == 0 ==> ParseQuantity(ip + "," + fp) == NonFinite
  {
    CommaBetweenDigits(ip, fp);
    ParseNumberOfPointed(ip, fp);
    ParseUnsignedPointed(ip, fp);
  }

  /** `Number` reads `ip + "." + fp` as an unsigned literal: no sign, no space, not "Infinity". */
  lemma ParseNumberOfPointed(ip: string, fp: string)
    requires AllDigits(ip) && AllDigits(fp)
    ensures ParseNumber(ip + "." + fp) == ParseUnsigned(ip + "." + fp)
  {
    var t := ip + "." + fp;
    assert IsDigit(t[0]) || t[0] == '.';
    assert IsDigit(t[|t| - 1]) || t[|t| - 1] == '.';
    ParseNumberOfDigitLed(t);
  }

  /** The unsigned literal `ip + "." + fp` splits at its point into `ip` and `fp`. */
  lemma ParseUnsignedPointed(ip: string, fp: string)
    requires AllDigits(ip) && AllDigits(fp)
    ensures ParseUnsigned(ip + "." + fp) == if |ip| + |fp| > 0 then Finite(DecimalValue(ip, fp)) else NonFinite
  {
    var t := ip + "." + fp;
    PointBetweenDigits(ip, fp);
    assert t[..|ip|] == ip && t[|ip| + 1..] == fp;
  }

  lemma ReplaceCommaOneFive()
    ensures ReplaceFirst("1,5", ',', '.') == "1.5"
  {
  }

  lemma ParseUnsignedOneFive()
    ensures ParseUnsigned("1.5") == Finite(1.5)
  {
    var u := "1.5";
    assert IndexOf(u, '.') == 1;
    assert u[..1] == "1" && u[2..] == "5";
    assert DigitsValue("5") == 5 && DigitsValue("1") == 1;
  }

  /** A decimal comma is accepted: "1,5" reads as 1.5. */
  lemma ParseQuantityDecimalComma()
    ensures ParseQuantity("1,5") == Finite(1.5)
  {
    ReplaceCommaOneFive();
    ParseNumberOfDigitLed("1.5");
    ParseUnsignedOneFive();
  }

  lemma ReplaceCommaOneFiveZero()
    ensures ReplaceFirst("1,5,0", ',', '.') == "1.5,0"
  {
  }

  lemma ParseUnsignedOneFiveZero()
    ensures ParseUnsigned("1.5,0") == NonFinite
  {
    var u := "1.5,0";
    assert IndexOf(u, '.') == 1;
    assert !AllDigits(u[2..]) by { assert u[2..][1] == ','; }
  }

  /** Only the first comma is replaced, so "1,5,0" is NaN. */
  lemma ParseQuantitySecondCommaIsNaN()
    ensures ParseQuantity("1,5,0") == NonFinite
  {
    ReplaceCommaOneFiveZero();
    ParseNumberOfDigitLed("1.5,0");
    ParseUnsignedOneFiveZero();
  }
}
