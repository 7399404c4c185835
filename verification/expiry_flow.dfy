/**
 * The "add" action of the expiry screen: `handleAdd` validates code, quantity and date and
 * may ask to confirm a fraction of a non-weighed article; `addOrConsolidate` then finds a line
 * at the same date (`proceedAddSameDate`), lines at other dates (`handleOtherDates`) or none.
 * Each dialog is a decision value and each answer a transformation of the expiry table.
 */
module ExpiryFlow {
  import opened Common
  import opened Text
  import opened Seqs
  import opened Sorting
  import opened Catalog
  import opened Store

  /** Why an "add" is refused, in the order the screen checks. */
  datatype Reason = MissingCode | InvalidQuantity | MissingDate | PastDate | NotFound

  /** The outcome of validation: refused, a confirmation to ask first, or go ahead. */
  datatype Step =
    | Reject(reason: Reason)
    | ConfirmDecimal(code: string, fecha: int, cant: real)
    | Proceed(code: string, fecha: int, cant: real)

  /** `hasDecimals`: `Math.floor(n) !== n`. */
  predicate HasDecimals(n: real) {
    n.Floor as real != n
  }

  /** The integer `k` as a quantity. */
  function Whole(k: int): real { k as real }

  /**
   * A quantity has decimals exactly when no integer equals it; then it lies strictly between
   * its floor and the next integer.
   */
  lemma HasDecimalsIffNotWhole(n: real)
    ensures HasDecimals(n) <==> forall k :: Whole(k) != n
    ensures HasDecimals(n) ==> n.Floor as real < n < n.Floor as real + 1.0
  {
    if !HasDecimals(n) {
      assert Whole(n.Floor) == n;
    }
  }

  /**
   * `handleAdd` up to `addOrConsolidate`: an empty code, a quantity that is not a finite number
   * above 0, no date, a date not after the start of today, and a code not in the catalog are
   * refused in that order; a fraction of an article that is not weighed asks for confirmation.
   * `today` is the start of the current day, which the screen reads from the clock.
   */
  function HandleAdd(cat: seq<Article>, codeText: string, cantidadText: string, fecha: Option<int>, today: int): (st: Step)
    ensures st == Reject(MissingCode) <==> NormalizeCode(codeText) == ""
    ensures st == Reject(InvalidQuantity) <==>
              NormalizeCode(codeText) != "" && !(ParseQuantity(cantidadText).Finite? && ParseQuantity(cantidadText).value > 0.0)
    ensures st == Reject(MissingDate) <==>
              NormalizeCode(codeText) != "" && ParseQuantity(cantidadText).Finite? && ParseQuantity(cantidadText).value > 0.0
              && fecha.None?
    ensures st == Reject(PastDate) <==>
              NormalizeCode(codeText) != "" && ParseQuantity(cantidadText).Finite? && ParseQuantity(cantidadText).value > 0.0
              && fecha.Some? && fecha.value <= today
    ensures st == Reject(NotFound) <==>
              NormalizeCode(codeText) != "" && ParseQuantity(cantidadText).Finite? && ParseQuantity(cantidadText).value > 0.0
              && fecha.Some? && fecha.value > today && FindArticleByEAN(cat, NormalizeCode(codeText)).None?
    ensures !st.Reject? ==> st.code == NormalizeCode(codeText) && st.code != "" && fecha == Some(st.fecha) && st.fecha > today
                            && st.cant == ParseQuantity(cantidadText).value && st.cant > 0.0
                            && FindArticleByEAN(cat, st.code).Some?
    ensures st.ConfirmDecimal? <==> !st.Reject? && !IsWeighable(FindArticleByEAN(cat, st.code).value) && HasDecimals(st.cant)
  {
    var c := NormalizeCode(codeText);
    var cant := ParseQuantity(cantidadText);
    if c == "" then Reject(MissingCode)
    else if !(cant.Finite? && cant.value > 0.0) then Reject(InvalidQuantity)
    else if fecha.None? then Reject(MissingDate)
    else if fecha.value <= today then Reject(PastDate)
    else
      match FindArticleByEAN(cat, c)
      case None => Reject(NotFound)
      case Some(art) =>
        if !IsWeighable(art) && HasDecimals(cant.value) then ConfirmDecimal(c, fecha.value, cant.value)
        else Proceed(c, fecha.value, cant.value)
  }

  /** What `addOrConsolidate` finds: a line at the date, lines at other dates only, or nothing. */
  datatype Found =
    | SameDate
    | OtherDates(fechas: seq<int>, suma: real, fechaMin: int)
    | Fresh

  function Cantidad(r: VtoRow): real { r.cantidad }

  /**
   * `addOrConsolidate` before its dialogs: `getVtoItem` at the date first; otherwise the code's
   * lines from `getVtoItemsByEAN`, summarised as their dates, the sum of their quantities and
   * the earliest date.
   */
  function AddOrConsolidate(cat: seq<Article>, vtos: seq<VtoRow>, inv: int, ean: string, fecha: int): (f: Found)
    ensures f.SameDate? <==> GetVtoItem(vtos, inv, ean, fecha).Some?
    ensures f.Fresh? <==> GetVtoItem(vtos, inv, ean, fecha).None? && GetVtoItemsByEAN(cat, vtos, inv, ean) == []
    ensures f.OtherDates? ==>
              var rows := GetVtoItemsByEAN(cat, vtos, inv, ean);
              && |rows| > 0 && f.fechas == Map(rows, Fecha) && f.suma == Sum(rows, Cantidad)
              && f.fechaMin in f.fechas
              && (forall x :: x in vtos && x.inv == inv && x.ean == Trim(ean) ==> f.fechaMin <= x.fecha)
              && forall x :: x in vtos && x.inv == inv && x.ean == Trim(ean) ==> x.fecha != fecha
  {
    if GetVtoItem(vtos, inv, ean, fecha).Some? then SameDate
    else
      var rows := GetVtoItemsByEAN(cat, vtos, inv, ean);
      if |rows| == 0 then Fresh
      else
        var fechas := Map(rows, Fecha);
        var m := MinOfInts(fechas);
        assert forall x :: x in vtos && x.inv == inv && x.ean == Trim(ean) ==> m <= x.fecha by {
          forall x | x in vtos && x.inv == inv && x.ean == Trim(ean) ensures m <= x.fecha {
            MinOfMappedBelow(rows, Fecha, x);
          }
        }
        assert forall x :: x in vtos && x.inv == inv && x.ean == Trim(ean) ==> x.fecha != fecha by {
          forall x | x in vtos && x.inv == inv && x.ean == Trim(ean) ensures x.fecha != fecha {
            assert DateKey(x) != (inv, Trim(ean), fecha);
          }
        }
        OtherDates(fechas, Sum(rows, Cantidad), m)
  }

  /** The buttons: "Cancelar", then "Sumar" / "Sumar y mantener fecha más baja", then "Reemplazar" / "Reemplazar por nueva fecha". */
  datatype Choice = Cancelar | Sumar | Reemplazar

  /**
   * The write that answers the dialog. At the same date: `addToVtoItemCantidad` or
   * `setVtoItemCantidad`. With other dates: `consolidateVtoByEAN` at the earlier of the
   * earliest date and the new one with the sum plus the new quantity, or at the new date with
   * the new quantity only. With nothing: `setVtoItem` with the empty lot.
   */
  function Resolve(vtos: seq<VtoRow>, inv: int, ean: string, fecha: int, cant: real, f: Found, choice: Choice, now: int): (r: seq<VtoRow>)
    ensures choice == Cancelar && !f.Fresh? ==> r == vtos
    ensures f.SameDate? && choice == Reemplazar ==>
              VtoAt(r, inv, Trim(ean), fecha, "") == Some(VtoRow(inv, Trim(ean), cant, fecha, "", now))
    ensures f.SameDate? && choice == Sumar ==>
              VtoAt(r, inv, Trim(ean), fecha, "") ==
                Some(VtoRow(inv, Trim(ean), Max(0.0, VtoQuantity(vtos, inv, ean, fecha) + cant), fecha, "", now))
    ensures f.SameDate? ==>
              forall i, k, d, l :: (i, k, d, l) != (inv, Trim(ean), fecha, "") ==> VtoAt(r, i, k, d, l) == VtoAt(vtos, i, k, d, l)
    ensures f.OtherDates? ==> Filter(r, NotFor(inv, Trim(ean))) == Filter(vtos, NotFor(inv, Trim(ean)))
    ensures f.Fresh? ==> VtoAt(r, inv, Trim(ean), fecha, "") == Some(VtoRow(inv, Trim(ean), cant, fecha, "", now))
    ensures UniqueBy(vtos, VtoKey) ==> UniqueBy(r, VtoKey)
    ensures EmptyLots(vtos) ==> EmptyLots(r)
  {
    match f
    case SameDate =>
      (match choice
       case Cancelar => vtos
       case Sumar => AddToVtoItemCantidad(vtos, inv, ean, fecha, cant, now)
       case Reemplazar => SetVtoItemCantidad(vtos, inv, ean, fecha, cant, now))
    case OtherDates(_, suma, fechaMin) =>
      (match choice
       case Cancelar => vtos
       case Sumar => ConsolidateVtoByEAN(vtos, inv, ean, MinInt(fechaMin, fecha), suma + cant, now)
       case Reemplazar => ConsolidateVtoByEAN(vtos, inv, ean, fecha, cant, now))
    case Fresh =>
      SetVtoItemEmptyLot(vtos, inv, ean, cant, fecha, now);
      SetVtoItem(vtos, inv, ean, cant, fecha, "", now)
  }

  /**
   * The answer to the decimal confirmation: "Cancelar" (`continuar` false) writes nothing;
   * "Continuar" runs `addOrConsolidate` on the validated code, date and quantity, and `choice`
   * answers the dialog that one raises.
   */
  function AnswerDecimal(cat: seq<Article>, vtos: seq<VtoRow>, inv: int, st: Step, continuar: bool, choice: Choice, now: int): (r: seq<VtoRow>)
    requires st.ConfirmDecimal?
    ensures !continuar ==> r == vtos
    ensures continuar && choice == Cancelar && GetVtoItemsByEAN(cat, vtos, inv, st.code) != [] ==> r == vtos
    ensures continuar && GetVtoItem(vtos, inv, st.code, st.fecha).None? && GetVtoItemsByEAN(cat, vtos, inv, st.code) == [] ==>
              VtoAt(r, inv, Trim(st.code), st.fecha, "") == Some(VtoRow(inv, Trim(st.code), st.cant, st.fecha, "", now))
    ensures continuar && GetVtoItem(vtos, inv, st.code, st.fecha).Some? ==>
              forall i, k, d, l :: (i, k, d, l) != (inv, Trim(st.code), st.fecha, "") ==> VtoAt(r, i, k, d, l) == VtoAt(vtos, i, k, d, l)
    ensures UniqueBy(vtos, VtoKey) ==> UniqueBy(r, VtoKey)
    ensures EmptyLots(vtos) ==> EmptyLots(r)
  {
    if continuar then
      Resolve(vtos, inv, st.code, st.fecha, st.cant, AddOrConsolidate(cat, vtos, inv, st.code, st.fecha), choice, now)
    else vtos
  }

  /**
   * "Sumar y mantener fecha más baja" leaves exactly one line for the code: at the earlier of
   * the earliest existing date and the new one, holding the existing sum plus the new quantity.
   * (`AddOrConsolidate` guarantees that `fechaMin` is not after any of the code's dates.)
   */
  lemma KeepEarliestLeavesOneLine(vtos: seq<VtoRow>, inv: int, ean: string, fecha: int, cant: real, f: Found, now: int)
    requires UniqueBy(vtos, VtoKey) && EmptyLots(vtos) && f.OtherDates?
    ensures RowsFor(Resolve(vtos, inv, ean, fecha, cant, f, Sumar, now), inv, Trim(ean))
            == [VtoRow(inv, Trim(ean), f.suma + cant, MinInt(f.fechaMin, fecha), "", now)]
  {
    var keep, total := MinInt(f.fechaMin, fecha), f.suma + cant;
    var r := ConsolidateVtoByEAN(vtos, inv, ean, keep, total, now);
    assert Resolve(vtos, inv, ean, fecha, cant, f, Sumar, now) == r by {
      assert f == OtherDates(f.fechas, f.suma, f.fechaMin);
    }
    assert RowsFor(r, inv, Trim(ean)) == [VtoRow(inv, Trim(ean), total, keep, "", now)] by {
      ConsolidateLeavesOneRow(vtos, inv, ean, keep, total, now);
    }
  }

  /** "Reemplazar por nueva fecha" leaves exactly one line for the code: the new date and quantity. */
  lemma ReplaceLeavesOneLine(vtos: seq<VtoRow>, inv: int, ean: string, fecha: int, cant: real, f: Found, now: int)
    requires UniqueBy(vtos, VtoKey) && EmptyLots(vtos) && f.OtherDates?
    ensures RowsFor(Resolve(vtos, inv, ean, fecha, cant, f, Reemplazar, now), inv, Trim(ean))
            == [VtoRow(inv, Trim(ean), cant, fecha, "", now)]
  {
    ConsolidateLeavesOneRow(vtos, inv, ean, fecha, cant, now);
  }

  /** Answering at the same date touches no other date of the code, so no line of another date is lost. */
  lemma SameDateKeepsOtherDates(vtos: seq<VtoRow>, inv: int, ean: string, fecha: int, cant: real, choice: Choice, now: int,
                                other: int, lote: string)
    requires other != fecha
    ensures VtoAt(Resolve(vtos, inv, ean, fecha, cant, SameDate, choice, now), inv, Trim(ean), other, lote)
            == VtoAt(vtos, inv, Trim(ean), other, lote)
  {
  }

  // ---------- The documented expiry scenario ----------

  function Article9001(): Article { Article("9001", "9001", "Yerba", 1.0, None, None) }

  lemma Code9001(s: string)
    requires s == "9001"
    ensures NormalizeCode(s) == s && Trim(s) == s
    ensures FindArticleByEAN([Article9001()], s) == Some(Article9001())
  {
    TrimFixpoint(s);
  }

  lemma Quantity(s: string, n: nat)
    requires (s == "4" && n == 4) || (s == "2" && n == 2)
    ensures ParseQuantity(s) == Finite(n as real)
  {
    ParseNumberOfDigits(s);
    assert DigitsValue(s) == n;
  }

  lemma ScenarioFirstAdd(inv: int, d1: int, today: int, t1: int)
    requires today < d1
    ensures HandleAdd([Article9001()], "9001", "4", Some(d1), today) == Proceed("9001", d1, 4.0)
    ensures AddOrConsolidate([Article9001()], [], inv, "9001", d1) == Fresh
    ensures Resolve([], inv, "9001", d1, 4.0, Fresh, Sumar, t1) == [VtoRow(inv, "9001", 4.0, d1, "", t1)]
  {
    Code9001("9001");
    Quantity("4", 4);
    HasDecimalsIffNotWhole(4.0);
    assert Whole(4) == 4.0;
  }

  lemma ScenarioLookupAtD2(inv: int, d1: int, d2: int, t1: int)
    requires d1 != d2
    ensures GetVtoItem([VtoRow(inv, "9001", 4.0, d1, "", t1)], inv, "9001", d2).None?
    ensures GetVtoItemsByEAN([Article9001()], [VtoRow(inv, "9001", 4.0, d1, "", t1)], inv, "9001")
            == [VtoRow(inv, "9001", 4.0, d1, "", t1)]
  {
    Code9001("9001");
    var row := VtoRow(inv, "9001", 4.0, d1, "", t1);
    var rows := GetVtoItemsByEAN([Article9001()], [row], inv, "9001");
    assert forall x :: x in rows <==> x == row;
    assert |rows| <= 1 by {
      assert multiset(rows) == multiset(RowsFor([row], inv, "9001"));
      assert |RowsFor([row], inv, "9001")| <= 1;
    }
  }

  lemma ScenarioSecondAdd(d2: int, today: int)
    requires today < d2
    ensures HandleAdd([Article9001()], "9001", "2", Some(d2), today) == Proceed("9001", d2, 2.0)
  {
    Code9001("9001");
    Quantity("2", 2);
    HasDecimalsIffNotWhole(2.0);
    assert Whole(2) == 2.0;
  }

  lemma ScenarioSecondDecision(inv: int, d1: int, d2: int, t1: int)
    requires d1 < d2
    ensures AddOrConsolidate([Article9001()], [VtoRow(inv, "9001", 4.0, d1, "", t1)], inv, "9001", d2)
            == OtherDates([d1], 4.0, d1)
  {
    Code9001("9001");
    ScenarioLookupAtD2(inv, d1, d2, t1);
    var rows := GetVtoItemsByEAN([Article9001()], [VtoRow(inv, "9001", 4.0, d1, "", t1)], inv, "9001");
    assert Map(rows, Fecha) == [d1];
    assert Sum(rows, Cantidad) == 4.0;
    assert MinOfInts([d1]) == d1;
  }

  lemma ScenarioKeepEarliest(inv: int, d1: int, d2: int, t1: int, t2: int)
    requires d1 < d2
    ensures var first := [VtoRow(inv, "9001", 4.0, d1, "", t1)];
            RowsFor(Resolve(first, inv, "9001", d2, 2.0, OtherDates([d1], 4.0, d1), Sumar, t2), inv, "9001")
            == [VtoRow(inv, "9001", 6.0, d1, "", t2)]
  {
    var first := [VtoRow(inv, "9001", 4.0, d1, "", t1)];
    Code9001("9001");
    assert UniqueBy(first, VtoKey) && EmptyLots(first);
    ConsolidateLeavesOneRow(first, inv, "9001", d1, 6.0, t2);
    assert MinInt(d1, d2) == d1 && 4.0 + 2.0 == 6.0;
  }

  /**
   * Article "9001": 4 units at a future date D1 are inserted. Adding 2 units at D2 != D1 finds
   * the D1 line; "keep earliest" with D1 < D2 leaves the single line (9001, D1, 6).
   */
  lemma ExpiryScenario(inv: int, d1: int, d2: int, today: int, t1: int, t2: int)
    requires today < d1 < d2
    ensures var cat := [Article9001()];
            var first := Resolve([], inv, "9001", d1, 4.0, AddOrConsolidate(cat, [], inv, "9001", d1), Sumar, t1);
            && HandleAdd(cat, "9001", "2", Some(d2), today) == Proceed("9001", d2, 2.0)
            && AddOrConsolidate(cat, first, inv, "9001", d2) == OtherDates([d1], 4.0, d1)
            && RowsFor(Resolve(first, inv, "9001", d2, 2.0, OtherDates([d1], 4.0, d1), Sumar, t2), inv, "9001")
               == [VtoRow(inv, "9001", 6.0, d1, "", t2)]
  {
    ScenarioFirstAdd(inv, d1, today, t1);
    ScenarioSecondAdd(d2, today);
    ScenarioSecondDecision(inv, d1, d2, t1);
    ScenarioKeepEarliest(inv, d1, d2, t1, t2);
  }
}
