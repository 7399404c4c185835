/**
 * The article resolver of the expiry screen (`resolveInput`): a scanned or typed code is tried
 * as a scale ticket, then as a PLU-packed code, then as a plain primary code. It yields the
 * article found, the code under which the line is saved, and the weight a ticket suggests.
 */
module Resolver {
  import opened Common
  import opened Text
  import opened Scale
  import opened Catalog

  /** What `resolveInput` returns: `{ art, saveEAN, suggestedQty }`. */
  datatype Resolution = Resolution(art: Option<Article>, saveEAN: string, suggestedQty: Option<real>)

  /** The trailing apostrophe-free, trailing whitespace-free shape of every normalised code. */
  lemma NormalizeCodeNoTrailingWs(raw: string)
    ensures NoTrailingWs(NormalizeCode(raw))
  {
    var t := Trim(raw);
    var c := NormalizeCode(raw);
    if |c| > 0 && c != t {
      assert t == "'" + c;
      assert c[|c| - 1] == t[|t| - 1];
    }
  }

  /**
   * The code saved for a ticket whose PLU names article `found`: the base code when the
   * catalog holds it, otherwise the article's own primary code.
   */
  function ScaleSaveCode(rule: BaseRule, cat: seq<Article>, code: string, found: Article): (s: string)
    ensures BaseScaleEAN(rule, code).Some? && FindArticleByEAN(cat, BaseScaleEAN(rule, code).value).Some?
            ==> s == BaseScaleEAN(rule, code).value
    ensures !(BaseScaleEAN(rule, code).Some? && FindArticleByEAN(cat, BaseScaleEAN(rule, code).value).Some?)
            ==> s == found.ean
  {
    match BaseScaleEAN(rule, code)
    case Some(b) => if FindArticleByEAN(cat, b).Some? then b else found.ean
    case None => found.ean
  }

  /** The scale branch: a result only when the code parses as a ticket and its PLU names an article. */
  function ScaleBranch(rule: BaseRule, cat: seq<Article>, code: string): (r: Option<Resolution>)
    ensures r.Some? <==> IsScaleBarcode(code) && ParseScaleBarcode(code).Some?
                         && FindArticleByPLU(cat, ParseScaleBarcode(code).value.plu).Some?
    ensures r.Some? ==> r.value.art == FindArticleByPLU(cat, ParseScaleBarcode(code).value.plu)
    ensures r.Some? ==> r.value.saveEAN == ScaleSaveCode(rule, cat, code, r.value.art.value)
    ensures r.Some? ==> r.value.suggestedQty == ParseScaleBarcode(code).value.weightKg
  {
    if !IsScaleBarcode(code) then None
    else
      match ParseScaleBarcode(code)
      case None => None
      case Some(t) =>
        match FindArticleByPLU(cat, t.plu)
        case None => None
        case Some(found) => Some(Resolution(Some(found), ScaleSaveCode(rule, cat, code, found), t.weightKg))
  }

  /** The PLU-packed branch: the article named by the code's last digits, saved under its own code. */
  function PluPackedBranch(cat: seq<Article>, code: string): (r: Option<Resolution>)
    requires NoTrailingWs(code)
    ensures r.Some? <==> IsPluPackedBarcode(code) && FindArticleByPLU(cat, PluPackedKey(code)).Some?
    ensures r.Some? ==> r.value == Resolution(FindArticleByPLU(cat, PluPackedKey(code)), FindArticleByPLU(cat, PluPackedKey(code)).value.ean, None)
  {
    if !IsPluPackedBarcode(code) then None
    else
      match FindArticleByPLU(cat, PluPackedKey(code))
      case None => None
      case Some(found) => Some(Resolution(Some(found), found.ean, None))
  }

  /**
   * `resolveInput` with the base-code rule as a parameter. The three branches are tried in
   * order; the last looks the normalised code up directly and saves that code even when no
   * article is found.
   */
  function ResolveInput(rule: BaseRule, cat: seq<Article>, raw: string): (r: Resolution)
    ensures r.art.Some? ==> r.art.value in cat
    ensures r.art.None? ==> r == Resolution(None, NormalizeCode(raw), None)
    ensures r.suggestedQty.Some? ==> ScaleBranch(rule, cat, NormalizeCode(raw)) == Some(r)
    ensures NoTrailingWs(NormalizeCode(raw)) && ScaleBranch(rule, cat, NormalizeCode(raw)).Some? ==>
              r == ScaleBranch(rule, cat, NormalizeCode(raw)).value
    ensures NoTrailingWs(NormalizeCode(raw)) && ScaleBranch(rule, cat, NormalizeCode(raw)).None?
            && PluPackedBranch(cat, NormalizeCode(raw)).Some? ==>
              r == PluPackedBranch(cat, NormalizeCode(raw)).value
    ensures NoTrailingWs(NormalizeCode(raw)) && ScaleBranch(rule, cat, NormalizeCode(raw)).None?
            && PluPackedBranch(cat, NormalizeCode(raw)).None? ==>
              r == Resolution(FindArticleByEAN(cat, NormalizeCode(raw)), NormalizeCode(raw), None)
  {
    var code := NormalizeCode(raw);
    NormalizeCodeNoTrailingWs(raw);
    match ScaleBranch(rule, cat, code)
    case Some(res) =>
      assert FirstWithCodigo(cat, Trim(ParseScaleBarcode(code).value.plu)).value in cat;
      res
    case None =>
      match PluPackedBranch(cat, code)
      case Some(res) =>
        assert FirstWithCodigo(cat, Trim(PluPackedKey(code))).value in cat;
        res
      case None => Resolution(FindArticleByEAN(cat, code), code, None)
  }

  /**
   * No article is found exactly when every branch fails: the ticket does not parse or its PLU
   * is unknown, the PLU-packed key is unknown, and the primary code is unknown.
   */
  lemma NotFoundIffEveryBranchFails(rule: BaseRule, cat: seq<Article>, raw: string)
    ensures NoTrailingWs(NormalizeCode(raw))
    ensures ResolveInput(rule, cat, raw).art.None? <==>
              && ScaleBranch(rule, cat, NormalizeCode(raw)).None?
              && (!IsPluPackedBarcode(NormalizeCode(raw)) || FindArticleByPLU(cat, PluPackedKey(NormalizeCode(raw))).None?)
              && FindArticleByEAN(cat, NormalizeCode(raw)).None?
  {
    NormalizeCodeNoTrailingWs(raw);
  }

  /** A suggested quantity only comes from a ticket's weight, which is below 100 kg. */
  lemma SuggestedQtyIsWeight(rule: BaseRule, cat: seq<Article>, raw: string)
    requires ResolveInput(rule, cat, raw).suggestedQty.Some?
    ensures ParseScaleBarcode(NormalizeCode(raw)).Some?
    ensures ResolveInput(rule, cat, raw).suggestedQty == ParseScaleBarcode(NormalizeCode(raw)).value.weightKg
    ensures 0.0 <= ResolveInput(rule, cat, raw).suggestedQty.value < 100.0
  {
    ScaleWeightRange(NormalizeCode(raw));
  }

  /** A decoded weight is a finite number of kilograms below 100. */
  lemma ScaleWeightRange(code: string)
    requires ParseScaleBarcode(code).Some? && ParseScaleBarcode(code).value.weightKg.Some?
    ensures 0.0 <= ParseScaleBarcode(code).value.weightKg.value < 100.0
  {
  }

  /**
   * Whatever branch resolved the code, looking the saved code up again finds an article, as long
   * as the catalog stores its codes trimmed. The expiry screen relies on this when it re-reads
   * the saved code on "add".
   */
  lemma ResolvedCodeIsInCatalog(rule: BaseRule, cat: seq<Article>, raw: string)
    requires UniqueEans(cat) && forall a :: a in cat ==> IsTrimmed(a.ean)
    requires ResolveInput(rule, cat, raw).art.Some?
    ensures FindArticleByEAN(cat, ResolveInput(rule, cat, raw).saveEAN).Some?
  {
    var r := ResolveInput(rule, cat, raw);
    var code := NormalizeCode(raw);
    NormalizeCodeNoTrailingWs(raw);
    if ScaleBranch(rule, cat, code).Some? {
      var found := r.art.value;
      if r.saveEAN == found.ean { FindOwnEan(cat, found); }
    } else if PluPackedBranch(cat, code).Some? {
      FindOwnEan(cat, r.art.value);
    }
  }

  /** A code that is neither a ticket nor a PLU-packed code resolves exactly as a primary-code lookup. */
  lemma PlainCodeResolution(rule: BaseRule, cat: seq<Article>, raw: string)
    requires !IsScaleBarcode(NormalizeCode(raw)) && !IsPluPackedBarcode(NormalizeCode(raw))
    ensures ResolveInput(rule, cat, raw) == Resolution(FindArticleByEAN(cat, NormalizeCode(raw)), NormalizeCode(raw), None)
  {
    NormalizeCodeNoTrailingWs(raw);
  }

  // ---------- The documented weighing scenario ----------

  function LooseCheese(): Article { Article("7791234567890", "510", "Queso", 1.0, Some(1), None) }
  function BaseCheese(): Article { Article("2100510000000", "510", "Queso x kg", 1.0, Some(1), None) }

  /** A catalog holding an article with internal code 510 and a base entry at "2100510000000". */
  function ScenarioCatalog(): seq<Article> { [LooseCheese(), BaseCheese()] }

  lemma ScenarioPluLookup()
    ensures FindArticleByPLU(ScenarioCatalog(), "510") == Some(LooseCheese())
  {
    TrimFixpoint("510");
    assert FirstWithCodigo(ScenarioCatalog(), "510") == Some(LooseCheese());
  }

  lemma BaseCodeTrimmed(k: string)
    requires k == "2100510000000"
    ensures Trim(k) == k
  {
    TrimFixpoint(k);
  }

  lemma ScenarioBaseLookup()
    ensures FindArticleByEAN(ScenarioCatalog(), "2100510000000") == Some(BaseCheese())
  {
    var k := "2100510000000";
    var c := ScenarioCatalog();
    BaseCodeTrimmed(k);
    assert c[0].ean != k by { assert c[0].ean[0] != k[0]; }
    ArticleAtSkip(c, k);
    assert c[1..] == [BaseCheese()];
    ArticleAtHead(c[1..], k);
  }

  lemma ScenarioLongBaseLookup()
    ensures FindArticleByEAN(ScenarioCatalog(), "21000510000000").None?
  {
    var k := "21000510000000";
    TrimFixpoint(k);
    assert |k| == 14;
  }

  lemma ScenarioTicket(s: string)
    requires s == "2100510006657"
    ensures NormalizeCode(s) == s && IsScaleBarcode(s)
    ensures ParseScaleBarcode(s) == Some(ScaleTicket("510", Some(0.6657)))
  {
    DocumentedTicketIsLabel(s);
    ScaleLabelIsTicket(s);
    DocumentedTicketExample(s);
  }

  /**
   * Ticket "2100510006657" against that catalog: with the 13-character base rule the line is
   * saved under the base entry "2100510000000" with 0.6657 kg suggested; with the rule as
   * written the 14-character base code is never in the catalog, so the line is saved under the
   * article's own code instead.
   */
  lemma ScaleScenario(s: string)
    requires s == "2100510006657"
    ensures ResolveInput(Intended, ScenarioCatalog(), s)
            == Resolution(Some(LooseCheese()), "2100510000000", Some(0.6657))
    ensures ResolveInput(AsWritten, ScenarioCatalog(), s)
            == Resolution(Some(LooseCheese()), "7791234567890", Some(0.6657))
  {
    IntendedScenario(s);
    AsWrittenScenario(s);
  }

  /** Under the intended rule the ticket is saved under the catalog's base code. */
  lemma IntendedScenario(s: string)
    requires s == "2100510006657"
    ensures ResolveInput(Intended, ScenarioCatalog(), s)
            == Resolution(Some(LooseCheese()), "2100510000000", Some(0.6657))
  {
    ScenarioTicket(s);
    ScenarioPluLookup();
    IntendedBaseOfTicket(s);
    ScenarioBaseLookup();
    assert BaseScaleEAN(Intended, s) == Some("2100510000000");
    assert ScaleSaveCode(Intended, ScenarioCatalog(), s, LooseCheese()) == "2100510000000";
    assert ScaleBranch(Intended, ScenarioCatalog(), s) == Some(Resolution(Some(LooseCheese()), "2100510000000", Some(0.6657)));
  }

  /** Under the rule as written the base code misses, and the PLU's article code is saved. */
  lemma AsWrittenScenario(s: string)
    requires s == "2100510006657"
    ensures ResolveInput(AsWritten, ScenarioCatalog(), s)
            == Resolution(Some(LooseCheese()), "7791234567890", Some(0.6657))
  {
    ScenarioTicket(s);
    ScenarioPluLookup();
    ScenarioLongBaseLookup();
    AsWrittenBaseOfTicket(s);
  }
}
