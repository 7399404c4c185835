/**
 * The "add" action of the plain counting screen (`handleAgregar`): validate the typed code
 * and quantity, look the code up in the catalog, then either write a new line or ask the user
 * whether to add to the existing line or replace it. Each dialog is a decision value; each
 * answer is a transformation of the plain-line table.
 */
module PlainFlow {
  import opened Common
  import opened Text
  import opened Seqs
  import opened Tables
  import opened Catalog
  import opened Store

  /** Why an "add" is refused, in the order the screen checks. */
  datatype Reason = MissingCode | InvalidQuantity | NotFound

  /** What the screen does after validation. */
  datatype Decision =
    | Reject(reason: Reason)
    | Conflict(code: string, cant: real)
    | Insert(code: string, cant: real)

  /** The buttons of the "already counted" dialog. */
  datatype Choice = Cancelar | Sumar | Reemplazar

  /**
   * The checks of `handleAgregar` on the normalised code `e` and the parsed quantity `cant`:
   * an empty code, then a quantity that is not a finite number above 0, then an article
   * missing from the catalog are refused; a code with a line in the session is a conflict;
   * anything else is inserted.
   */
  function Decide(cat: seq<Article>, items: seq<ItemRow>, inv: int, e: string, cant: JsNumber): (d: Decision)
    ensures d == Reject(MissingCode) <==> e == ""
    ensures d == Reject(InvalidQuantity) <==> e != "" && !(cant.Finite? && cant.value > 0.0)
    ensures d == Reject(NotFound) <==> e != "" && cant.Finite? && cant.value > 0.0 && FindArticleByEAN(cat, e).None?
    ensures d.Conflict? ==> d.code == e && GetItem(items, inv, e).Some?
    ensures d.Insert? ==> d.code == e && GetItem(items, inv, e).None?
    ensures !d.Reject? ==> cant.Finite? && d.cant > 0.0 && d.cant == cant.value && FindArticleByEAN(cat, e).Some? && e != ""
  {
    if e == "" then Reject(MissingCode)
    else if !(cant.Finite? && cant.value > 0.0) then Reject(InvalidQuantity)
    else if FindArticleByEAN(cat, e).None? then Reject(NotFound)
    else if GetItem(items, inv, e).Some? then Conflict(e, cant.value)
    else Insert(e, cant.value)
  }

  /**
   * `handleAgregar` up to its first write, on the typed text: an empty normalised code, then a
   * quantity that does not read as a finite number above 0, then a code missing from the
   * catalog are refused; otherwise the normalised code and the read quantity go on, as a
   * conflict exactly when the session already has a line for the code.
   */
  function HandleAgregar(cat: seq<Article>, items: seq<ItemRow>, inv: int, eanText: string, cantidadText: string): (d: Decision)
    ensures d == Reject(MissingCode) <==> NormalizeCode(eanText) == ""
    ensures d == Reject(InvalidQuantity) <==>
              NormalizeCode(eanText) != "" && !(ParseQuantity(cantidadText).Finite? && ParseQuantity(cantidadText).value > 0.0)
    ensures d == Reject(NotFound) <==>
              NormalizeCode(eanText) != "" && ParseQuantity(cantidadText).Finite? && ParseQuantity(cantidadText).value > 0.0
              && FindArticleByEAN(cat, NormalizeCode(eanText)).None?
    ensures !d.Reject? ==> d.code == NormalizeCode(eanText) && d.code != "" && FindArticleByEAN(cat, d.code).Some?
                           && ParseQuantity(cantidadText).Finite? && d.cant == ParseQuantity(cantidadText).value && d.cant > 0.0
    ensures !d.Reject? ==> (d.Conflict? <==> GetItem(items, inv, d.code).Some?)
  {
    Decide(cat, items, inv, NormalizeCode(eanText), ParseQuantity(cantidadText))
  }

  /**
   * The write that follows a decision: nothing on a refusal or on "Cancelar"; on a conflict
   * `addToItemCantidad` for "Sumar" and `setItemCantidad` for "Reemplazar"; a fresh code is
   * written with `setItemCantidad`, whatever button would have been pressed.
   */
  function Apply(items: seq<ItemRow>, inv: int, d: Decision, choice: Choice, now: int): (r: seq<ItemRow>)
    ensures d.Reject? || (d.Conflict? && choice == Cancelar) ==> r == items
    ensures d.Insert? || (d.Conflict? && choice == Reemplazar) ==>
              GetItem(r, inv, d.code) == Some(ItemRow(inv, Trim(d.code), d.cant, now))
    ensures d.Conflict? && choice == Sumar ==>
              GetItem(r, inv, d.code).Some? && ItemQuantity(r, inv, d.code) >= 0.0
              && ItemQuantity(r, inv, d.code) == Max(0.0, ItemQuantity(items, inv, d.code) + d.cant)
    ensures !d.Reject? ==> forall i, k :: (i, k) != (inv, Trim(d.code)) ==> ItemAt(r, i, k) == ItemAt(items, i, k)
    ensures UniqueBy(items, ItemKey) ==> UniqueBy(r, ItemKey)
  {
    match d
    case Reject(_) => items
    case Insert(code, cant) => SetItemCantidad(items, inv, code, cant, now)
    case Conflict(code, cant) =>
      match choice
      case Cancelar => items
      case Sumar => AddToItemCantidad(items, inv, code, cant, now)
      case Reemplazar => SetItemCantidad(items, inv, code, cant, now)
  }

  /** Every stored quantity is non-negative: what the two writes of this screen keep. */
  predicate NonNegative(items: seq<ItemRow>) {
    forall x :: x in items ==> x.cantidad >= 0.0
  }

  /** No answer to any decision stores a negative quantity. */
  lemma ApplyKeepsNonNegative(cat: seq<Article>, items: seq<ItemRow>, inv: int, eanText: string, cantidadText: string,
                              choice: Choice, now: int)
    requires NonNegative(items)
    ensures NonNegative(Apply(items, inv, HandleAgregar(cat, items, inv, eanText, cantidadText), choice, now))
  {
    ApplyDecisionKeepsNonNegative(items, inv, HandleAgregar(cat, items, inv, eanText, cantidadText), choice, now);
  }

  /** Answering a decision that carries a positive quantity stores no negative quantity. */
  lemma ApplyDecisionKeepsNonNegative(items: seq<ItemRow>, inv: int, d: Decision, choice: Choice, now: int)
    requires NonNegative(items) && (!d.Reject? ==> d.cant > 0.0)
    ensures NonNegative(Apply(items, inv, d, choice, now))
  {
    match d
    case Reject(_) =>
    case Insert(code, cant) => SetKeepsNonNegative(items, inv, code, cant, now);
    case Conflict(code, cant) =>
      match choice
      case Cancelar =>
      case Sumar => AddKeepsNonNegative(items, inv, code, cant, now);
      case Reemplazar => SetKeepsNonNegative(items, inv, code, cant, now);
  }

  /** `setItemCantidad` with a non-negative quantity keeps every quantity non-negative. */
  lemma SetKeepsNonNegative(items: seq<ItemRow>, inv: int, ean: string, cantidad: real, now: int)
    requires NonNegative(items) && cantidad >= 0.0
    ensures NonNegative(SetItemCantidad(items, inv, ean, cantidad, now))
  {
    assert SetItemCantidad(items, inv, ean, cantidad, now) == Upsert(items, ItemKey, ItemRow(inv, Trim(ean), cantidad, now));
  }

  /** `addToItemCantidad` floors at zero, so it keeps every quantity non-negative. */
  lemma AddKeepsNonNegative(items: seq<ItemRow>, inv: int, ean: string, delta: real, now: int)
    requires NonNegative(items)
    ensures NonNegative(AddToItemCantidad(items, inv, ean, delta, now))
  {
    SetKeepsNonNegative(items, inv, ean, Max(0.0, ItemQuantity(items, inv, ean) + delta), now);
  }

  /**
   * "Sumar" on a conflict stores the existing quantity plus the new one: with non-negative
   * quantities the floor at zero never applies.
   */
  lemma SumAddsToExisting(cat: seq<Article>, items: seq<ItemRow>, inv: int, eanText: string, cantidadText: string, now: int)
    requires NonNegative(items)
    requires HandleAgregar(cat, items, inv, eanText, cantidadText).Conflict?
    ensures var d := HandleAgregar(cat, items, inv, eanText, cantidadText);
            ItemQuantity(Apply(items, inv, d, Sumar, now), inv, d.code) == ItemQuantity(items, inv, d.code) + d.cant
  {
    var d := HandleAgregar(cat, items, inv, eanText, cantidadText);
    assert GetItem(items, inv, d.code).value in items;
  }

  /**
   * The decision depends on the catalog only through the literal-code lookup: there is no
   * scale or PLU decoding on this screen.
   */
  lemma LiteralLookupOnly(cat1: seq<Article>, cat2: seq<Article>, items: seq<ItemRow>, inv: int, eanText: string, cantidadText: string)
    requires FindArticleByEAN(cat1, NormalizeCode(eanText)).Some? == FindArticleByEAN(cat2, NormalizeCode(eanText)).Some?
    ensures HandleAgregar(cat1, items, inv, eanText, cantidadText) == HandleAgregar(cat2, items, inv, eanText, cantidadText)
  {
  }

  /** Any positive quantity of an article found is accepted as typed: there is no whole-number gate. */
  lemma AcceptsAnyPositiveQuantity(cat: seq<Article>, items: seq<ItemRow>, inv: int, e: string, cant: JsNumber)
    requires e != "" && FindArticleByEAN(cat, e).Some?
    requires cant.Finite? && cant.value > 0.0
    ensures var d := Decide(cat, items, inv, e, cant);
            !d.Reject? && d.cant == cant.value
  {
  }

  /** "1,5" of any article found is accepted as 1.5. */
  lemma NoFractionalGate(cat: seq<Article>, items: seq<ItemRow>, inv: int, eanText: string)
    requires NormalizeCode(eanText) != "" && FindArticleByEAN(cat, NormalizeCode(eanText)).Some?
    ensures !HandleAgregar(cat, items, inv, eanText, "1,5").Reject?
    ensures HandleAgregar(cat, items, inv, eanText, "1,5").cant == 1.5
  {
    ParseQuantityDecimalComma();
    AcceptsAnyPositiveQuantity(cat, items, inv, NormalizeCode(eanText), Finite(1.5));
  }

  // ---------- The documented counting scenario ----------

  function Article9001(): Article { Article("9001", "9001", "Yerba", 1.0, None, None) }

  lemma Code9001(s: string)
    requires s == "9001"
    ensures NormalizeCode(s) == s && Trim(s) == s
  {
    TrimFixpoint(s);
  }

  lemma Quantity(s: string, n: nat)
    requires (s == "5" && n == 5) || (s == "3" && n == 3)
    ensures ParseQuantity(s) == Finite(n as real)
  {
    ParseNumberOfDigits(s);
    assert DigitsValue(s) == n;
  }

  lemma Found9001()
    ensures FindArticleByEAN([Article9001()], "9001") == Some(Article9001())
    ensures FindArticleByEAN([], "9001").None?
  {
    Code9001("9001");
  }

  /**
   * Session S starts empty. Without the article, adding "9001" x 5 is refused and nothing is
   * written. With it, the first add inserts 5; a second add of 3 is a conflict, which "Sumar"
   * resolves to 8 and "Reemplazar" to 3.
   */
  lemma CountingScenario(inv: int, t1: int, t2: int)
    ensures HandleAgregar([], [], inv, "9001", "5") == Reject(NotFound)
    ensures Apply([], inv, HandleAgregar([], [], inv, "9001", "5"), Sumar, t1) == []
    ensures var cat := [Article9001()];
            var first := Apply([], inv, HandleAgregar(cat, [], inv, "9001", "5"), Sumar, t1);
            && first == [ItemRow(inv, "9001", 5.0, t1)]
            && HandleAgregar(cat, first, inv, "9001", "3") == Conflict("9001", 3.0)
            && ItemQuantity(Apply(first, inv, Conflict("9001", 3.0), Sumar, t2), inv, "9001") == 8.0
            && ItemQuantity(Apply(first, inv, Conflict("9001", 3.0), Reemplazar, t2), inv, "9001") == 3.0
  {
    var cat := [Article9001()];
    Code9001("9001");
    Quantity("5", 5);
    Quantity("3", 3);
    Found9001();
    assert HandleAgregar(cat, [], inv, "9001", "5") == Insert("9001", 5.0);
    var first := Apply([], inv, Insert("9001", 5.0), Sumar, t1);
    assert first == [ItemRow(inv, "9001", 5.0, t1)];
    assert GetItem(first, inv, "9001") == Some(ItemRow(inv, "9001", 5.0, t1));
    assert ItemQuantity(first, inv, "9001") == 5.0;
  }
}
