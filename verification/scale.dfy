/**
 * Barcode dialects printed by weighing scales and by pre-packing (features/inventory/scale.ts):
 * a scale ticket starts with "20" or "21" and carries a 5-digit PLU (the internal article code)
 * followed by a weight field; a PLU-packed code is ten zeros followed by the PLU.
 */
module Scale {
  import opened Common
  import opened Text

  /** `isScaleBarcode`: the trimmed code starts with one of the scale prefixes "20" and "21". */
  predicate IsScaleBarcode(raw: string) {
    var s := Trim(raw);
    StartsWith(s, "20") || StartsWith(s, "21")
  }

  /** `isPluPackedBarcode`: the trimmed code matches `/^0{10}\d{3,5}$/`. */
  predicate IsPluPackedBarcode(raw: string) {
    var s := Trim(raw);
    StartsWith(s, "0000000000") && 3 <= |s| - 10 <= 5 && AllDigits(s[10..])
  }

  /** A PLU-packed code is 13 to 15 characters, all of them digits. */
  lemma PluPackedShape(raw: string)
    requires IsPluPackedBarcode(raw)
    ensures 13 <= |Trim(raw)| <= 15 && AllDigits(Trim(raw))
  {
    var s := Trim(raw);
    forall i | 0 <= i < |s| ensures IsDigit(s[i]) {
      if i < 10 {
        assert s[..10][i] == '0';
      } else {
        assert s[10..][i - 10] == s[i];
      }
    }
  }

  /** No code is both a scale ticket and a PLU-packed code: one starts with '2', the other with '0'. */
  lemma DialectsDisjoint(raw: string)
    ensures !(IsScaleBarcode(raw) && IsPluPackedBarcode(raw))
  {
    var s := Trim(raw);
    if IsPluPackedBarcode(raw) {
      assert s[0] == s[..10][0] == '0';
      assert s[..2][0] == '0';
    }
  }

  /** What `parseScaleBarcode` decodes: the PLU without leading zeros and, if any, a weight in kg. */
  datatype ScaleTicket = ScaleTicket(plu: string, weightKg: Option<real>)

  /**
   * The weight fallback chain of `parseScaleBarcode`: characters [7,13) as six digits over
   * 10000, else [7,12) as five digits over 1000, else the last four characters over 10000.
   */
  function ScaleWeight(s: string): (w: Option<real>)
    requires |s| >= 8
    ensures w.Some? ==> 0.0 <= w.value < 100.0
    ensures w.None? ==> !AllDigits(s[|s| - 4..])
  {
    if |s| >= 13 && AllDigits(s[7..13]) then
      WeightFieldBound(s[7..13], 10000);
      Some(DigitsValue(s[7..13]) as real / 10000.0)
    else if |s| >= 12 && AllDigits(s[7..12]) then
      WeightFieldBound(s[7..12], 1000);
      Some(DigitsValue(s[7..12]) as real / 1000.0)
    else if AllDigits(s[|s| - 4..]) then
      WeightFieldBound(s[|s| - 4..], 10000);
      Some(DigitsValue(s[|s| - 4..]) as real / 10000.0)
    else None
  }

  /** A weight field of at most six digits read over its scale divisor stays below 100 kg. */
  lemma WeightFieldBound(f: string, divisor: nat)
    requires AllDigits(f) && 1 <= |f| <= 6
    requires divisor == 10000 || (divisor == 1000 && |f| <= 5)
    ensures 0.0 <= DigitsValue(f) as real / divisor as real < 100.0
  {
    DigitsValueBound(f);
    if |f| <= 5 { Pow10Monotone(|f|, 5); } else { Pow10Monotone(|f|, 6); }
    assert Pow10(5) == 100000 && Pow10(6) == 1000000;
    var v := DigitsValue(f) as real;
    assert v < 100.0 * divisor as real;
  }

  /** A six-digit field at [7,13) always wins: weight = value / 10000. */
  lemma WeightSixDigits(s: string)
    requires |s| >= 13 && AllDigits(s[7..13])
    ensures ScaleWeight(s) == Some(DigitsValue(s[7..13]) as real / 10000.0)
  {
  }

  /** Without a six-digit field, a five-digit field at [7,12) gives weight = value / 1000. */
  lemma WeightFiveDigits(s: string)
    requires |s| >= 12 && AllDigits(s[7..12])
    requires |s| == 12 || !IsDigit(s[12])
    ensures ScaleWeight(s) == Some(DigitsValue(s[7..12]) as real / 1000.0)
  {
    if |s| >= 13 {
      assert s[7..13][5] == s[12];
    }
  }

  /**
   * Without a six- or five-digit field, the last four characters decide: over 10000 when they
   * are digits, no weight otherwise.
   */
  lemma WeightLastFour(s: string)
    requires |s| >= 8
    requires !(|s| >= 13 && AllDigits(s[7..13])) && !(|s| >= 12 && AllDigits(s[7..12]))
    ensures AllDigits(s[|s| - 4..]) ==> ScaleWeight(s) == Some(DigitsValue(s[|s| - 4..]) as real / 10000.0)
    ensures !AllDigits(s[|s| - 4..]) ==> ScaleWeight(s).None?
  {
  }

  /**
   * `parseScaleBarcode`: defined exactly for trimmed scale tickets of at least 8 characters whose
   * characters [2,7) are digits; the PLU is those five digits read as a number and written back.
   */
  function ParseScaleBarcode(raw: string): (r: Option<ScaleTicket>)
    ensures r.Some? <==> IsScaleBarcode(raw) && |Trim(raw)| >= 8 && AllDigits(Trim(raw)[2..7])
    ensures r.Some? ==> IsCanonicalDigits(r.value.plu)
    ensures r.Some? ==> DigitsValue(r.value.plu) == DigitsValue(Trim(raw)[2..7])
    ensures r.Some? ==> r.value.weightKg == ScaleWeight(Trim(raw))
  {
    var s := Trim(raw);
    TrimIdempotent(raw);
    if !IsScaleBarcode(s) || |s| < 8 then None
    else
      var pluPadded := s[2..7];
      if !AllDigits(pluPadded) then None
      else
        NatToStringRoundTrip(DigitsValue(pluPadded));
        Some(ScaleTicket(NatToString(DigitsValue(pluPadded)), ScaleWeight(s)))
  }

  /** The decoded PLU is the padded field with its leading zeros removed ("00000" gives "0"). */
  lemma ParsedPluStripsZeros(raw: string)
    requires ParseScaleBarcode(raw).Some?
    ensures ParseScaleBarcode(raw).value.plu == StripLeadingZeros(Trim(raw)[2..7])
  {
    var d := Trim(raw)[2..7];
    NumberToStringStripsZeros(d);
    CanonicalDigitsRoundTrip(ParseScaleBarcode(raw).value.plu);
  }

  /** A label as a scale prints it: "20" or "21", the 5-digit PLU, then the weight field, all digits. */
  predicate IsScaleLabel(s: string) {
    |s| >= 8 && (s[..2] == "20" || s[..2] == "21") && AllDigits(s[2..])
  }

  /** Every field of a label after the prefix is all digits. */
  lemma LabelDigits(s: string, a: nat, b: nat)
    requires IsScaleLabel(s) && 2 <= a <= b <= |s|
    ensures AllDigits(s[a..b])
  {
    forall i | 0 <= i < b - a ensures IsDigit(s[a..b][i]) {
      assert s[a..b][i] == s[2..][a - 2 + i];
    }
  }

  /** A label is already trimmed and is a scale ticket. */
  lemma ScaleLabelIsTicket(s: string)
    requires IsScaleLabel(s)
    ensures Trim(s) == s && IsScaleBarcode(s) && AllDigits(s[2..7])
  {
    assert s[0] == s[..2][0] && IsDigit(s[|s| - 1]) by { assert s[2..][|s| - 3] == s[|s| - 1]; }
    TrimFixpoint(s);
    LabelDigits(s, 2, 7);
  }

  /** A label parses, with the PLU stripped of its leading zeros and the weight chain applied. */
  lemma ScaleLabelParses(s: string)
    requires IsScaleLabel(s)
    ensures ParseScaleBarcode(s) == Some(ScaleTicket(StripLeadingZeros(s[2..7]), ScaleWeight(s)))
  {
    ScaleLabelIsTicket(s);
    ParsedPluStripsZeros(s);
  }

  /** A 13-digit label (five weight digits and the check digit read as one field): weight = value / 10000. */
  lemma ParseThirteenDigitLabel(s: string)
    requires IsScaleLabel(s) && |s| == 13
    ensures ParseScaleBarcode(s)
            == Some(ScaleTicket(StripLeadingZeros(s[2..7]), Some(DigitsValue(s[7..13]) as real / 10000.0)))
  {
    ScaleLabelParses(s);
    LabelDigits(s, 7, 13);
    WeightSixDigits(s);
  }

  /** A 12-digit label (a five-digit weight field, no check digit): weight = value / 1000. */
  lemma ParseTwelveDigitLabel(s: string)
    requires IsScaleLabel(s) && |s| == 12
    ensures ParseScaleBarcode(s)
            == Some(ScaleTicket(StripLeadingZeros(s[2..7]), Some(DigitsValue(s[7..12]) as real / 1000.0)))
  {
    ScaleLabelParses(s);
    LabelDigits(s, 7, 12);
    WeightFiveDigits(s);
  }

  /** The documented ticket "2100510006657" is a 13-digit label. */
  lemma DocumentedTicketIsLabel(s: string)
    requires s == "2100510006657"
    ensures IsScaleLabel(s) && |s| == 13 && s[2..7] == "00510" && s[7..13] == "006657"
  {
    assert s[2..] == "00510006657";
  }

  /** Its PLU field "00510" reads "510". */
  lemma DocumentedPluField(p: string)
    requires p == "00510"
    ensures StripLeadingZeros(p) == "510"
  {
    var q := p[1..];
    assert q == "0510" && q[1..] == "510";
    assert StripLeadingZeros(p) == StripLeadingZeros(q);
    assert StripLeadingZeros(q) == StripLeadingZeros(q[1..]);
  }

  /** The digits "6657" are worth 6657. */
  lemma DocumentedWeightDigits(w: string)
    requires w == "6657"
    ensures DigitsValue(w) == 6657
  {
    var w3, w2, w1 := w[..3], w[..3][..2], w[..3][..2][..1];
    assert w3 == "665" && w2 == "66" && w1 == "6";
    assert DigitsValue(w1) == 6;
    assert DigitsValue(w2) == 10 * DigitsValue(w1) + 6;
    assert DigitsValue(w3) == 10 * DigitsValue(w2) + 5;
    assert DigitsValue(w) == 10 * DigitsValue(w3) + 7;
  }

  /** Its weight field "006657" reads 6657. */
  lemma DocumentedWeightField(w: string)
    requires w == "006657"
    ensures DigitsValue(w) == 6657
  {
    assert w == Zeros(2) + "6657";
    ZeroPrefixValue(2, "6657");
    DocumentedWeightDigits("6657");
  }

  /** Its PLU field reads "510" and its weight field 6657. */
  lemma DocumentedTicketFields()
    ensures StripLeadingZeros("00510") == "510"
    ensures DigitsValue("006657") == 6657
  {
    DocumentedPluField("00510");
    DocumentedWeightField("006657");
  }

  /** The documented ticket decodes to PLU "510" and 0.6657 kg. */
  lemma DocumentedTicketExample(s: string)
    requires s == "2100510006657"
    ensures ParseScaleBarcode(s) == Some(ScaleTicket("510", Some(0.6657)))
  {
    DocumentedTicketIsLabel(s);
    ParseThirteenDigitLabel(s);
    DocumentedTicketFields();
  }

  /**
   * `toBaseScaleEAN` as written: prefix, a literal "0", the five PLU digits and six zeros. The
   * result is 14 characters long, one more than the 13-character base code the source's comment
   * shows.
   */
  function ToBaseScaleEAN(raw: string): (r: Option<string>)
    ensures r.Some? <==> IsScaleBarcode(raw) && |Trim(raw)| >= 7 && AllDigits(Trim(raw)[2..7])
    ensures r.Some? ==> |r.value| == 14 && r.value[8..] == "000000"
    ensures r.Some? ==> r.value == Trim(raw)[..2] + "0" + Trim(raw)[2..7] + "000000"
  {
    var s := Trim(raw);
    TrimIdempotent(raw);
    if !IsScaleBarcode(s) then None
    else
      if |s| < 7 || !AllDigits(s[2..7]) then None
      else Some(s[..2] + "0" + s[2..7] + "000000")
  }

  /**
   * The base code the source's comment describes ("2100510000000"): the ticket's first seven
   * characters followed by six zeros, i.e. a 13-digit label with its weight and check digit zeroed.
   */
  function IntendedBaseScaleEAN(raw: string): (r: Option<string>)
    ensures r.Some? <==> ToBaseScaleEAN(raw).Some?
    ensures r.Some? ==> |r.value| == 13 && r.value[..7] == Trim(raw)[..7] && r.value[7..] == "000000"
  {
    var s := Trim(raw);
    TrimIdempotent(raw);
    if !IsScaleBarcode(s) then None
    else
      if |s| < 7 || !AllDigits(s[2..7]) then None
      else Some(s[..7] + "000000")
  }

  /** For a 13-digit label the intended base code is a label of the same length with its weight zeroed. */
  lemma IntendedBaseOfLabel(s: string)
    requires IsScaleLabel(s) && |s| == 13
    ensures IntendedBaseScaleEAN(s) == Some(s[..7] + "000000")
    ensures IsScaleLabel(s[..7] + "000000")
  {
    ScaleLabelIsTicket(s);
    var b := s[..7] + "000000";
    var r := IntendedBaseScaleEAN(s).value;
    assert r == r[..7] + r[7..];
    assert b[..2] == s[..2];
    assert AllDigits(b[2..]) by {
      forall i | 2 <= i < 13 ensures IsDigit(b[i]) {
        if i < 7 { assert b[i] == s[i] == s[2..][i - 2]; }
      }
    }
  }

  /** The intended base code is its own base code, so repeated weighings land on one key. */
  lemma IntendedBaseIdempotent(raw: string)
    requires IntendedBaseScaleEAN(raw).Some?
    ensures IntendedBaseScaleEAN(IntendedBaseScaleEAN(raw).value) == IntendedBaseScaleEAN(raw)
  {
    var s := Trim(raw);
    var b := IntendedBaseScaleEAN(raw).value;
    assert IsScaleLabel(b) by {
      assert b[..2] == s[..2];
      assert AllDigits(b[2..]) by {
        forall i | 2 <= i < 13 ensures IsDigit(b[i]) {
          if i < 7 { assert b[i] == b[..7][i] == s[..7][i] == s[2..7][i - 2]; }
          else { assert b[i] == b[7..][i - 7]; }
        }
      }
    }
    IntendedBaseOfLabel(b);
    assert b[..7] + "000000" == b by { assert b == b[..7] + b[7..]; }
  }

  /** The two base-code rules: the code as written, and the 13-character code its comment describes. */
  datatype BaseRule = AsWritten | Intended

  function BaseScaleEAN(rule: BaseRule, raw: string): (r: Option<string>)
    ensures r.Some? <==> ToBaseScaleEAN(raw).Some?
    ensures rule == AsWritten ==> r == ToBaseScaleEAN(raw)
    ensures rule == Intended ==> r == IntendedBaseScaleEAN(raw)
  {
    match rule
    case AsWritten => ToBaseScaleEAN(raw)
    case Intended => IntendedBaseScaleEAN(raw)
  }

  /** The as-written base code of the documented ticket has 14 characters. */
  lemma AsWrittenBaseOfTicket(s: string)
    requires s == "2100510006657"
    ensures ToBaseScaleEAN(s) == Some("21000510000000")
  {
    DocumentedTicketIsLabel(s);
    ScaleLabelIsTicket(s);
    assert s[..2] == "21";
    assert "21" + "0" + "00510" + "000000" == "21000510000000";
  }

  /** The intended base code of the documented ticket is the 13-character "2100510000000". */
  lemma IntendedBaseOfTicket(s: string)
    requires s == "2100510006657"
    ensures IntendedBaseScaleEAN(s) == Some("2100510000000")
  {
    DocumentedTicketIsLabel(s);
    IntendedBaseOfLabel(s);
    DocumentedTicketHead(s);
    ZeroedWeight("2100510");
  }

  /** The first seven characters of the documented ticket. */
  lemma DocumentedTicketHead(s: string)
    requires s == "2100510006657"
    ensures s[..7] == "2100510"
  {
  }

  /** Its first seven characters with the weight field zeroed. */
  lemma ZeroedWeight(h: string)
    requires h == "2100510"
    ensures h + "000000" == "2100510000000"
  {
  }

  /** The as-written base code is itself a label, with PLU field "00051". */
  lemma AsWrittenBaseFields(b: string)
    requires b == "21000510000000"
    ensures IsScaleLabel(b) && b[..2] == "21" && b[2..7] == "00051"
  {
    assert b[2..] == "000510000000";
    assert b[2..7] == b[2..][..5];
  }

  /** Applying the as-written rule to its own output moves the PLU again. */
  lemma AsWrittenBaseOfBase(b: string)
    requires b == "21000510000000"
    ensures ToBaseScaleEAN(b) == Some("21000051000000")
  {
    AsWrittenBaseFields(b);
    ScaleLabelIsTicket(b);
    assert "21" + "0" + "00051" + "000000" == "21000051000000";
  }

  /**
   * The discrepancy: for the documented ticket the code builds "21000510000000" (14
   * characters), not the "2100510000000" its comment shows, and the as-written base code is not
   * its own base code.
   */
  lemma AsWrittenBaseMismatch(s: string)
    requires s == "2100510006657"
    ensures ToBaseScaleEAN(s) == Some("21000510000000")
    ensures IntendedBaseScaleEAN(s) == Some("2100510000000")
    ensures ToBaseScaleEAN(ToBaseScaleEAN(s).value) != ToBaseScaleEAN(s)
  {
    AsWrittenBaseOfTicket(s);
    IntendedBaseOfTicket(s);
    AsWrittenBaseOfBase("21000510000000");
  }

  /** Whenever a ticket parses, its base code exists and carries the same five PLU digits. */
  lemma ParseImpliesBase(raw: string)
    requires ParseScaleBarcode(raw).Some?
    ensures ToBaseScaleEAN(raw).Some?
    ensures ToBaseScaleEAN(raw).value[3..8] == Trim(raw)[2..7]
    ensures StripLeadingZeros(ToBaseScaleEAN(raw).value[3..8]) == ParseScaleBarcode(raw).value.plu
  {
    ParsedPluStripsZeros(raw);
  }

  /** A string that does not end in whitespace, as every normalised code is. */
  predicate NoTrailingWs(code: string) {
    |code| == 0 || !IsWhitespace(code[|code| - 1])
  }

  /** A code without trailing whitespace ends with its trimmed form. */
  lemma TrimIsSuffix(code: string)
    requires NoTrailingWs(code)
    ensures Trim(code) == code[|code| - |Trim(code)|..]
  {
    var t := Trim(code);
    var L := LeadingWs(code);
    if L + |t| < |code| {
      assert IsWhitespace(code[|code| - 1]);
    }
  }

  /**
   * The lookup key of a PLU-packed code: `String(Number(code.slice(-5)))`, which is the numeric
   * value of the 3 to 5 digits after the ten zeros, written without leading zeros.
   */
  function PluPackedKey(code: string): (k: string)
    requires IsPluPackedBarcode(code) && NoTrailingWs(code)
    ensures IsCanonicalDigits(k)
    ensures DigitsValue(k) == DigitsValue(Trim(code)[10..])
  {
    PackedLastFive(code);
    var t := Trim(code);
    var last5 := SliceLast(code, 5);
    ZeroPrefixValue(15 - |t|, t[10..]);
    NatToStringRoundTrip(DigitsValue(last5));
    NatToString(DigitsValue(last5))
  }

  /** The last five characters of a PLU-packed code are the digits after the zeros, zero-padded to five. */
  lemma PackedLastFive(code: string)
    requires IsPluPackedBarcode(code) && NoTrailingWs(code)
    ensures 13 <= |Trim(code)| <= 15 && AllDigits(Trim(code)[10..])
    ensures SliceLast(code, 5) == Zeros(15 - |Trim(code)|) + Trim(code)[10..]
  {
    PluPackedShape(code);
    TrimIsSuffix(code);
    var t := Trim(code);
    var last5 := SliceLast(code, 5);
    assert last5 == t[|t| - 5..];
    assert t[..10] == "0000000000";
    forall i | 0 <= i < 15 - |t| ensures last5[i] == '0' {
      assert last5[i] == t[|t| - 5 + i] == t[..10][|t| - 5 + i];
    }
    assert forall i :: 10 <= i < |t| ==> IsDigit(t[i]);
  }

  function Zeros(n: nat): (z: string)
    ensures |z| == n && forall i :: 0 <= i < n ==> z[i] == '0'
  {
    if n == 0 then "" else "0" + Zeros(n - 1)
  }

  /** Leading zeros do not change a digit string's value. */
  lemma {:induction false} ZeroPrefixValue(n: nat, d: string)
    requires AllDigits(d)
    ensures AllDigits(Zeros(n) + d)
    ensures DigitsValue(Zeros(n) + d) == DigitsValue(d)
  {
    if n > 0 {
      ZeroPrefixValue(n - 1, d);
      var s := Zeros(n) + d;
      assert s[1..] == Zeros(n - 1) + d;
      assert s[0] == '0';
      DigitsValueLeadingZero(s);
    } else {
      assert Zeros(n) + d == d;
    }
  }
}
