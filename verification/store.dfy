/**
 * The session store (features/inventory/inventoryService.ts): sessions, plain lines keyed by
 * (session, ean) and expiry lines keyed by (session, ean, date, lot), each table a sequence of
 * rows in storage order. Every write is a pure function from the old tables to the new ones,
 * so each operation is all-or-nothing by construction; `now` stands for `Date.now()`.
 */
module Store {
  import opened Common
  import opened Text
  import opened Seqs
  import opened Tables
  import opened Sorting
  import opened Catalog

  /** A row of `inventarios`. */
  datatype Session = Session(id: int, nombre: string, descripcion: string, fechaCreacion: int)

  /** A row of `inventario_items`: a plain counted quantity. */
  datatype ItemRow = ItemRow(inv: int, ean: string, cantidad: real, ts: int)

  /** A row of `inventario_vencimientos`: a quantity with an expiry date and a lot. */
  datatype VtoRow = VtoRow(inv: int, ean: string, cantidad: real, fecha: int, lote: string, ts: int)

  /** The three session tables and the AUTOINCREMENT counter of `inventarios`. */
  datatype Db = Db(sessions: seq<Session>, items: seq<ItemRow>, vtos: seq<VtoRow>, nextId: int)

  function SessionId(s: Session): int { s.id }
  function ItemKey(r: ItemRow): (int, string) { (r.inv, r.ean) }
  function VtoKey(r: VtoRow): (int, string, int, string) { (r.inv, r.ean, r.fecha, r.lote) }

  /** The table constraints: primary key of sessions, the two `ON CONFLICT` keys, ids below the counter. */
  predicate ValidDb(db: Db) {
    && UniqueBy(db.sessions, SessionId)
    && (forall s :: s in db.sessions ==> 1 <= s.id < db.nextId)
    && UniqueBy(db.items, ItemKey)
    && UniqueBy(db.vtos, VtoKey)
    && db.nextId >= 1
  }

  /** The app only ever writes the empty lot. */
  predicate EmptyLots(vtos: seq<VtoRow>) {
    forall r :: r in vtos ==> r.lote == ""
  }

  // ---------- Sessions ----------

  /** `getInventoryById`: the session with this id, if any. */
  function SessionAt(sessions: seq<Session>, id: int): (r: Option<Session>)
    ensures r.Some? ==> r.value in sessions && r.value.id == id
    ensures r.None? <==> forall s :: s in sessions ==> s.id != id
  {
    Lookup(sessions, SessionId, id)
  }

  /**
   * `createInventory`: a new session with the next AUTOINCREMENT id, trimmed name and note (an
   * absent note is stored as ""), created at `now`; the id is returned and no earlier session
   * had it.
   */
  function CreateInventory(db: Db, nombre: string, descripcion: Option<string>, now: int): (r: (Db, int))
    requires ValidDb(db)
    ensures ValidDb(r.0)
    ensures r.1 == db.nextId && SessionAt(db.sessions, r.1).None?
    ensures SessionAt(r.0.sessions, r.1) == Some(Session(r.1, Trim(nombre), Trim(descripcion.GetOr("")), now))
    ensures forall id :: id != r.1 ==> SessionAt(r.0.sessions, id) == SessionAt(db.sessions, id)
    ensures r.0.items == db.items && r.0.vtos == db.vtos
  {
    var id := db.nextId;
    var s := Session(id, Trim(nombre), Trim(descripcion.GetOr("")), now);
    var sessions := Upsert(db.sessions, SessionId, s);
    UpsertHit(db.sessions, SessionId, s);
    assert forall other :: other != id ==> SessionAt(sessions, other) == SessionAt(db.sessions, other) by {
      forall other | other != id { UpsertFrame(db.sessions, SessionId, s, other); }
    }
    UpsertUnique(db.sessions, SessionId, s);
    (Db(sessions, db.items, db.vtos, id + 1), id)
  }

  /**
   * `renameInventory`: name and note of session `id` replaced by their trimmed new values (an
   * absent note becomes ""), its creation time kept; every other session and all lines
   * unchanged, and nothing at all changes when no session has that id.
   */
  function RenameInventory(db: Db, id: int, nombre: string, descripcion: Option<string>): (r: Db)
    requires ValidDb(db)
    ensures ValidDb(r)
    ensures SessionAt(db.sessions, id).None? ==> r == db
    ensures SessionAt(db.sessions, id).Some? ==>
              SessionAt(r.sessions, id)
              == Some(Session(id, Trim(nombre), Trim(descripcion.GetOr("")), SessionAt(db.sessions, id).value.fechaCreacion))
    ensures forall other :: other != id ==> SessionAt(r.sessions, other) == SessionAt(db.sessions, other)
    ensures r.items == db.items && r.vtos == db.vtos && r.nextId == db.nextId
  {
    match SessionAt(db.sessions, id)
    case None => db
    case Some(prev) =>
      var s := Session(id, Trim(nombre), Trim(descripcion.GetOr("")), prev.fechaCreacion);
      var sessions := Upsert(db.sessions, SessionId, s);
      UpsertHit(db.sessions, SessionId, s);
      assert forall other :: other != id ==> SessionAt(sessions, other) == SessionAt(db.sessions, other) by {
        forall other | other != id { UpsertFrame(db.sessions, SessionId, s, other); }
      }
      UpsertUnique(db.sessions, SessionId, s);
      Db(sessions, db.items, db.vtos, db.nextId)
  }

  // ---------- Plain lines ----------

  /** The plain line of session `inv` stored under exactly `key`. */
  function ItemAt(items: seq<ItemRow>, inv: int, key: string): (r: Option<ItemRow>)
    ensures r.Some? ==> r.value in items && r.value.inv == inv && r.value.ean == key
    ensures r.None? <==> forall x :: x in items ==> ItemKey(x) != (inv, key)
  {
    Lookup(items, ItemKey, (inv, key))
  }

  /** `getItem`: the plain line of `inv` for the trimmed code. */
  function GetItem(items: seq<ItemRow>, inv: int, ean: string): (r: Option<ItemRow>)
    ensures r.Some? ==> r.value in items && r.value.inv == inv && r.value.ean == Trim(ean)
    ensures r.None? <==> forall x :: x in items ==> ItemKey(x) != (inv, Trim(ean))
  {
    ItemAt(items, inv, Trim(ean))
  }

  /** The counted quantity of a code, 0 when it has no line (`current?.cantidad ?? 0`). */
  function ItemQuantity(items: seq<ItemRow>, inv: int, ean: string): real
  {
    match GetItem(items, inv, ean)
    case Some(x) => x.cantidad
    case None => 0.0
  }

  /**
   * `setItemCantidad`: the line of (inv, trimmed code) holds exactly `cantidad`, written at
   * `now`; every other line is unchanged and the key stays unique.
   */
  function SetItemCantidad(items: seq<ItemRow>, inv: int, ean: string, cantidad: real, now: int): (r: seq<ItemRow>)
    ensures GetItem(r, inv, ean) == Some(ItemRow(inv, Trim(ean), cantidad, now))
    ensures forall i, k :: (i, k) != (inv, Trim(ean)) ==> ItemAt(r, i, k) == ItemAt(items, i, k)
    ensures UniqueBy(items, ItemKey) ==> UniqueBy(r, ItemKey)
  {
    var row := ItemRow(inv, Trim(ean), cantidad, now);
    var r := Upsert(items, ItemKey, row);
    UpsertHit(items, ItemKey, row);
    assert forall i, k :: (i, k) != (inv, Trim(ean)) ==> ItemAt(r, i, k) == ItemAt(items, i, k) by {
      forall i, k | (i, k) != (inv, Trim(ean)) { UpsertFrame(items, ItemKey, row, (i, k)); }
    }
    assert UniqueBy(items, ItemKey) ==> UniqueBy(r, ItemKey) by {
      if UniqueBy(items, ItemKey) { UpsertUnique(items, ItemKey, row); }
    }
    r
  }

  /**
   * `addToItemCantidad`: the line becomes max(0, current + delta), a missing line counting as
   * 0, so the stored quantity is never negative; every other line is unchanged.
   */
  function AddToItemCantidad(items: seq<ItemRow>, inv: int, ean: string, delta: real, now: int): (r: seq<ItemRow>)
    ensures GetItem(r, inv, ean).Some? && ItemQuantity(r, inv, ean) >= 0.0
    ensures ItemQuantity(items, inv, ean) + delta >= 0.0 ==> ItemQuantity(r, inv, ean) == ItemQuantity(items, inv, ean) + delta
    ensures ItemQuantity(items, inv, ean) + delta < 0.0 ==> ItemQuantity(r, inv, ean) == 0.0
    ensures forall i, k :: (i, k) != (inv, Trim(ean)) ==> ItemAt(r, i, k) == ItemAt(items, i, k)
    ensures UniqueBy(items, ItemKey) ==> UniqueBy(r, ItemKey)
  {
    SetItemCantidad(items, inv, ean, Max(0.0, ItemQuantity(items, inv, ean) + delta), now)
  }

  /** Accumulating a then b equals accumulating a + b when no step floors at zero. */
  lemma AccumulateAdditive(items: seq<ItemRow>, inv: int, ean: string, a: real, b: real, t1: int, t2: int)
    requires ItemQuantity(items, inv, ean) + a >= 0.0
    requires ItemQuantity(items, inv, ean) + a + b >= 0.0
    ensures AddToItemCantidad(AddToItemCantidad(items, inv, ean, a, t1), inv, ean, b, t2)
            == AddToItemCantidad(items, inv, ean, a + b, t2)
  {
    var q := ItemQuantity(items, inv, ean);
    var row1 := ItemRow(inv, Trim(ean), q + a, t1);
    var row2 := ItemRow(inv, Trim(ean), q + a + b, t2);
    AddWithoutFloor(items, inv, ean, a, t1);
    var once := Upsert(items, ItemKey, row1);
    assert ItemQuantity(once, inv, ean) == q + a by {
      UpsertHit(items, ItemKey, row1);
    }
    AddWithoutFloor(once, inv, ean, b, t2);
    AddWithoutFloor(items, inv, ean, a + b, t2);
    UpsertTwice(items, ItemKey, row1, row2);
  }

  /** Without flooring, accumulating writes exactly the current quantity plus `delta`. */
  lemma AddWithoutFloor(items: seq<ItemRow>, inv: int, ean: string, delta: real, now: int)
    requires ItemQuantity(items, inv, ean) + delta >= 0.0
    ensures AddToItemCantidad(items, inv, ean, delta, now)
            == Upsert(items, ItemKey, ItemRow(inv, Trim(ean), ItemQuantity(items, inv, ean) + delta, now))
  {
  }

  /** When the running total dips below zero the first step floors it, so the identity fails. */
  lemma AccumulateFloors(items: seq<ItemRow>, inv: int, ean: string, t1: int, t2: int)
    requires ItemQuantity(items, inv, ean) == 0.0
    ensures ItemQuantity(AddToItemCantidad(AddToItemCantidad(items, inv, ean, -1.0, t1), inv, ean, 1.0, t2), inv, ean) == 1.0
    ensures ItemQuantity(AddToItemCantidad(items, inv, ean, 0.0, t2), inv, ean) == 0.0
  {
  }

  function NotItemKey(inv: int, key: string): ItemRow -> bool {
    (x: ItemRow) => !(x.inv == inv && x.ean == key)
  }

  /** `removeItem`: the line of (inv, trimmed code) is gone; every other line is unchanged. */
  function RemoveItem(items: seq<ItemRow>, inv: int, ean: string): (r: seq<ItemRow>)
    ensures GetItem(r, inv, ean).None?
    ensures forall i, k :: (i, k) != (inv, Trim(ean)) ==> ItemAt(r, i, k) == ItemAt(items, i, k)
    ensures UniqueBy(items, ItemKey) ==> UniqueBy(r, ItemKey)
  {
    var p := NotItemKey(inv, Trim(ean));
    var r := Filter(items, p);
    assert forall i, k :: (i, k) != (inv, Trim(ean)) ==> ItemAt(r, i, k) == ItemAt(items, i, k) by {
      forall i, k | (i, k) != (inv, Trim(ean)) { LookupFilter(items, p, ItemKey, (i, k)); }
    }
    assert UniqueBy(items, ItemKey) ==> UniqueBy(r, ItemKey) by {
      if UniqueBy(items, ItemKey) { FilterUnique(items, p, ItemKey); }
    }
    r
  }

  // ---------- Expiry lines ----------

  /** The expiry line stored under exactly this key. */
  function VtoAt(vtos: seq<VtoRow>, inv: int, key: string, fecha: int, lote: string): (r: Option<VtoRow>)
    ensures r.Some? ==> r.value in vtos && VtoKey(r.value) == (inv, key, fecha, lote)
    ensures r.None? <==> forall x :: x in vtos ==> VtoKey(x) != (inv, key, fecha, lote)
  {
    Lookup(vtos, VtoKey, (inv, key, fecha, lote))
  }

  function DateKey(r: VtoRow): (int, string, int) { (r.inv, r.ean, r.fecha) }

  /**
   * `getVtoItem`: the first expiry line of (inv, trimmed code) at date `fecha`. The query has no
   * condition on the lot, so a line of any lot can be the one returned.
   */
  function GetVtoItem(vtos: seq<VtoRow>, inv: int, ean: string, fecha: int): (r: Option<VtoRow>)
    ensures r.Some? ==> r.value in vtos && DateKey(r.value) == (inv, Trim(ean), fecha)
    ensures r.None? <==> forall x :: x in vtos ==> DateKey(x) != (inv, Trim(ean), fecha)
  {
    Lookup(vtos, DateKey, (inv, Trim(ean), fecha))
  }

  /** When every line has the empty lot, the line found at a date is the one keyed with lot "". */
  lemma GetVtoItemEmptyLot(vtos: seq<VtoRow>, inv: int, ean: string, fecha: int)
    requires EmptyLots(vtos)
    ensures GetVtoItem(vtos, inv, ean, fecha) == VtoAt(vtos, inv, Trim(ean), fecha, "")
  {
    LookupSameRows(vtos, DateKey, (inv, Trim(ean), fecha), VtoKey, (inv, Trim(ean), fecha, ""));
  }

  /** The quantity `getVtoItem` reports, 0 when there is no line (`current?.cantidad ?? 0`). */
  function VtoQuantity(vtos: seq<VtoRow>, inv: int, ean: string, fecha: int): real
  {
    match GetVtoItem(vtos, inv, ean, fecha)
    case Some(x) => x.cantidad
    case None => 0.0
  }

  /** The upsert on `ON CONFLICT(inventario_id, ean, fecha_vto, lote)`, with its frame and key facts. */
  function UpsertVto(vtos: seq<VtoRow>, row: VtoRow): (r: seq<VtoRow>)
    ensures VtoAt(r, row.inv, row.ean, row.fecha, row.lote) == Some(row)
    ensures forall i, k, f, l :: (i, k, f, l) != VtoKey(row) ==> VtoAt(r, i, k, f, l) == VtoAt(vtos, i, k, f, l)
    ensures UniqueBy(vtos, VtoKey) ==> UniqueBy(r, VtoKey)
    ensures EmptyLots(vtos) && row.lote == "" ==> EmptyLots(r)
    ensures forall x :: x in r ==> x in vtos || x == row
  {
    var r := Upsert(vtos, VtoKey, row);
    UpsertHit(vtos, VtoKey, row);
    UpsertFrameAll(vtos, VtoKey, row);
    assert UniqueBy(vtos, VtoKey) ==> UniqueBy(r, VtoKey) by {
      if UniqueBy(vtos, VtoKey) { UpsertUnique(vtos, VtoKey, row); }
    }
    r
  }

  /**
   * `setVtoItemCantidad`: the line (inv, trimmed code, fecha, lot "") holds exactly `cantidad`;
   * every other line, including the other dates of the same code, is unchanged.
   */
  function SetVtoItemCantidad(vtos: seq<VtoRow>, inv: int, ean: string, fecha: int, cantidad: real, now: int): (r: seq<VtoRow>)
    ensures VtoAt(r, inv, Trim(ean), fecha, "") == Some(VtoRow(inv, Trim(ean), cantidad, fecha, "", now))
    ensures forall i, k, f, l :: (i, k, f, l) != (inv, Trim(ean), fecha, "") ==> VtoAt(r, i, k, f, l) == VtoAt(vtos, i, k, f, l)
    ensures UniqueBy(vtos, VtoKey) ==> UniqueBy(r, VtoKey)
    ensures EmptyLots(vtos) ==> EmptyLots(r)
  {
    UpsertVto(vtos, VtoRow(inv, Trim(ean), cantidad, fecha, "", now))
  }

  /**
   * `addToVtoItemCantidad`: the line (inv, trimmed code, fecha, "") becomes max(0, q + delta),
   * where q is what `getVtoItem` reports for that date (0 when nothing); other lines unchanged.
   */
  function AddToVtoItemCantidad(vtos: seq<VtoRow>, inv: int, ean: string, fecha: int, delta: real, now: int): (r: seq<VtoRow>)
    ensures VtoAt(r, inv, Trim(ean), fecha, "").Some?
    ensures VtoAt(r, inv, Trim(ean), fecha, "").value.cantidad >= 0.0
    ensures VtoQuantity(vtos, inv, ean, fecha) + delta >= 0.0 ==>
              VtoAt(r, inv, Trim(ean), fecha, "").value.cantidad == VtoQuantity(vtos, inv, ean, fecha) + delta
    ensures VtoQuantity(vtos, inv, ean, fecha) + delta < 0.0 ==> VtoAt(r, inv, Trim(ean), fecha, "").value.cantidad == 0.0
    ensures forall i, k, f, l :: (i, k, f, l) != (inv, Trim(ean), fecha, "") ==> VtoAt(r, i, k, f, l) == VtoAt(vtos, i, k, f, l)
    ensures UniqueBy(vtos, VtoKey) ==> UniqueBy(r, VtoKey)
    ensures EmptyLots(vtos) ==> EmptyLots(r)
  {
    SetVtoItemCantidad(vtos, inv, ean, fecha, Max(0.0, VtoQuantity(vtos, inv, ean, fecha) + delta), now)
  }

  /**
   * `setVtoItem`: the line keyed by (inv, trimmed code, fecha, trimmed lot) holds exactly
   * `cantidad`; every other line is unchanged.
   */
  function SetVtoItem(vtos: seq<VtoRow>, inv: int, ean: string, cantidad: real, fecha: int, lote: string, now: int): (r: seq<VtoRow>)
    ensures VtoAt(r, inv, Trim(ean), fecha, Trim(lote)) == Some(VtoRow(inv, Trim(ean), cantidad, fecha, Trim(lote), now))
    ensures forall i, k, f, l :: (i, k, f, l) != (inv, Trim(ean), fecha, Trim(lote)) ==> VtoAt(r, i, k, f, l) == VtoAt(vtos, i, k, f, l)
    ensures UniqueBy(vtos, VtoKey) ==> UniqueBy(r, VtoKey)
    ensures EmptyLots(vtos) && Trim(lote) == "" ==> EmptyLots(r)
  {
    UpsertVto(vtos, VtoRow(inv, Trim(ean), cantidad, fecha, Trim(lote), now))
  }

  /** Lots that differ only in surrounding whitespace address the same line. */
  lemma SetVtoItemTrimsLot(vtos: seq<VtoRow>, inv: int, ean: string, cantidad: real, fecha: int, lote: string, now: int)
    ensures SetVtoItem(vtos, inv, ean, cantidad, fecha, lote, now) == SetVtoItem(vtos, inv, ean, cantidad, fecha, Trim(lote), now)
  {
    TrimIdempotent(lote);
  }

  /** Inserting with the empty lot is the same write as setting the quantity at that date. */
  lemma SetVtoItemEmptyLot(vtos: seq<VtoRow>, inv: int, ean: string, cantidad: real, fecha: int, now: int)
    ensures SetVtoItem(vtos, inv, ean, cantidad, fecha, "", now) == SetVtoItemCantidad(vtos, inv, ean, fecha, cantidad, now)
  {
    assert Trim("") == "" by { TrimFixpoint(""); }
  }

  function IsFor(inv: int, key: string): VtoRow -> bool {
    (x: VtoRow) => x.inv == inv && x.ean == key
  }

  function NotFor(inv: int, key: string): VtoRow -> bool {
    (x: VtoRow) => !(x.inv == inv && x.ean == key)
  }

  /** The expiry lines of one code in one session, in storage order. */
  function RowsFor(vtos: seq<VtoRow>, inv: int, key: string): seq<VtoRow>
  {
    Filter(vtos, IsFor(inv, key))
  }

  function Fecha(r: VtoRow): int { r.fecha }

  /**
   * `getVtoItemsByEAN`: the expiry lines of (inv, trimmed code) joined with the catalog, so
   * none when the code has no article, ordered by date ascending.
   */
  function GetVtoItemsByEAN(cat: seq<Article>, vtos: seq<VtoRow>, inv: int, ean: string): (r: seq<VtoRow>)
    ensures forall x :: x in r <==> x in vtos && x.inv == inv && x.ean == Trim(ean) && FindArticleByEAN(cat, ean).Some?
    ensures SortedBy(r, Fecha)
    ensures FindArticleByEAN(cat, ean).Some? ==> multiset(r) == multiset(RowsFor(vtos, inv, Trim(ean)))
  {
    var joined := if FindArticleByEAN(cat, ean).Some? then RowsFor(vtos, inv, Trim(ean)) else [];
    var r := SortBy(joined, Fecha);
    assert forall x :: x in r <==> x in joined by {
      forall x ensures x in r <==> x in joined {
        assert x in r <==> x in multiset(r);
        assert x in joined <==> x in multiset(joined);
      }
    }
    r
  }

  function KeepOnly(inv: int, key: string, keep: int): VtoRow -> bool {
    (x: VtoRow) => !(x.inv == inv && x.ean == key && x.fecha != keep)
  }

  /**
   * `consolidateVtoByEAN`: in one transaction, delete the lines of (inv, trimmed code) at any
   * date but `fechaToKeep`, then upsert (inv, code, fechaToKeep, "") with `cantidadToKeep`.
   */
  function ConsolidateVtoByEAN(vtos: seq<VtoRow>, inv: int, ean: string, fechaToKeep: int, cantidadToKeep: real, now: int): (r: seq<VtoRow>)
    ensures forall x :: x in r && x.inv == inv && x.ean == Trim(ean) ==> x.fecha == fechaToKeep
    ensures VtoAt(r, inv, Trim(ean), fechaToKeep, "") == Some(VtoRow(inv, Trim(ean), cantidadToKeep, fechaToKeep, "", now))
    ensures Filter(r, NotFor(inv, Trim(ean))) == Filter(vtos, NotFor(inv, Trim(ean)))
    ensures UniqueBy(vtos, VtoKey) ==> UniqueBy(r, VtoKey)
    ensures EmptyLots(vtos) ==> EmptyLots(r)
  {
    var key := Trim(ean);
    var row := VtoRow(inv, key, cantidadToKeep, fechaToKeep, "", now);
    var kept := Filter(vtos, KeepOnly(inv, key, fechaToKeep));
    var r := UpsertVto(kept, row);
    assert Filter(r, NotFor(inv, key)) == Filter(vtos, NotFor(inv, key)) by {
      UpsertOutsideFilter(kept, VtoKey, row, NotFor(inv, key));
      FilterFilter(vtos, KeepOnly(inv, key, fechaToKeep), NotFor(inv, key));
    }
    assert UniqueBy(vtos, VtoKey) ==> UniqueBy(r, VtoKey) by {
      if UniqueBy(vtos, VtoKey) { FilterUnique(vtos, KeepOnly(inv, key, fechaToKeep), VtoKey); }
    }
    r
  }

  /**
   * With unique keys and only empty lots, exactly one line of the code is left after
   * consolidation: the one at the kept date with the kept quantity.
   */
  lemma ConsolidateLeavesOneRow(vtos: seq<VtoRow>, inv: int, ean: string, fechaToKeep: int, cantidadToKeep: real, now: int)
    requires UniqueBy(vtos, VtoKey) && EmptyLots(vtos)
    ensures RowsFor(ConsolidateVtoByEAN(vtos, inv, ean, fechaToKeep, cantidadToKeep, now), inv, Trim(ean))
            == [VtoRow(inv, Trim(ean), cantidadToKeep, fechaToKeep, "", now)]
  {
    var r := ConsolidateVtoByEAN(vtos, inv, ean, fechaToKeep, cantidadToKeep, now);
    var row := VtoRow(inv, Trim(ean), cantidadToKeep, fechaToKeep, "", now);
    var rows := RowsFor(r, inv, Trim(ean));
    FilterUnique(r, IsFor(inv, Trim(ean)), VtoKey);
    forall x | x in rows ensures x == row {
      UniqueKeyHolder(r, VtoKey, x, row);
    }
    UniqueSingleton(rows, VtoKey, row);
  }

  function ItemOfSession(inv: int): ItemRow -> bool { (x: ItemRow) => x.inv == inv }
  function ItemNotOfSession(inv: int): ItemRow -> bool { (x: ItemRow) => x.inv != inv }
  function VtoOfSession(inv: int): VtoRow -> bool { (x: VtoRow) => x.inv == inv }
  function VtoNotOfSession(inv: int): VtoRow -> bool { (x: VtoRow) => x.inv != inv }
  function NotSession(id: int): Session -> bool { (s: Session) => s.id != id }

  /**
   * `deleteInventory`: in one transaction, every plain line, every expiry line and the session
   * row of `id` are deleted; the other sessions and their lines are exactly as they were.
   */
  function DeleteInventory(db: Db, id: int): (r: Db)
    requires ValidDb(db)
    ensures ValidDb(r)
    ensures SessionAt(r.sessions, id).None?
    ensures forall x :: x in r.items ==> x.inv != id
    ensures forall x :: x in r.vtos ==> x.inv != id
    ensures forall other :: other != id ==> SessionAt(r.sessions, other) == SessionAt(db.sessions, other)
    ensures forall other :: other != id ==> Filter(r.items, ItemOfSession(other)) == Filter(db.items, ItemOfSession(other))
    ensures forall other :: other != id ==> Filter(r.vtos, VtoOfSession(other)) == Filter(db.vtos, VtoOfSession(other))
  {
    var r := Db(Filter(db.sessions, NotSession(id)), Filter(db.items, ItemNotOfSession(id)),
                Filter(db.vtos, VtoNotOfSession(id)), db.nextId);
    assert forall other :: other != id ==> SessionAt(r.sessions, other) == SessionAt(db.sessions, other) by {
      forall other | other != id { LookupFilter(db.sessions, NotSession(id), SessionId, other); }
    }
    assert forall other :: other != id ==> Filter(r.items, ItemOfSession(other)) == Filter(db.items, ItemOfSession(other)) by {
      forall other | other != id { FilterFilter(db.items, ItemNotOfSession(id), ItemOfSession(other)); }
    }
    assert forall other :: other != id ==> Filter(r.vtos, VtoOfSession(other)) == Filter(db.vtos, VtoOfSession(other)) by {
      forall other | other != id { FilterFilter(db.vtos, VtoNotOfSession(id), VtoOfSession(other)); }
    }
    FilterUnique(db.sessions, NotSession(id), SessionId);
    FilterUnique(db.items, ItemNotOfSession(id), ItemKey);
    FilterUnique(db.vtos, VtoNotOfSession(id), VtoKey);
    r
  }
}
