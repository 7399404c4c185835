/**
 * The per-session summary behind the session list (`getInventoriesWithStats`): distinct codes
 * counted in each table, their sum, and the last modification time, newest session first.
 */
module Stats {
  import opened Common
  import opened Seqs
  import opened Sorting
  import opened Store

  /** One row of the summary: the session's own columns plus the computed ones. */
  datatype SessionStats = SessionStats(
    session: Session,
    items: int,
    itemsCant: int,
    itemsVto: int,
    ultimaModificacion: int)

  function ItemEan(x: ItemRow): string { x.ean }
  function VtoEan(x: VtoRow): string { x.ean }
  function ItemTs(x: ItemRow): int { x.ts }
  function VtoTs(x: VtoRow): int { x.ts }

  /** The plain lines of session `inv`, in storage order. */
  function SessionItems(items: seq<ItemRow>, inv: int): seq<ItemRow>
  {
    Filter(items, ItemOfSession(inv))
  }

  /** The expiry lines of session `inv`, in storage order. */
  function SessionVtos(vtos: seq<VtoRow>, inv: int): seq<VtoRow>
  {
    Filter(vtos, VtoOfSession(inv))
  }

  /** `COUNT(DISTINCT i.ean)` over the plain lines of a session. */
  function ItemsCant(items: seq<ItemRow>, inv: int): (n: nat)
    ensures n <= |SessionItems(items, inv)|
    ensures forall e :: e in KeySet(SessionItems(items, inv), ItemEan) <==>
                        exists x :: x in items && x.inv == inv && x.ean == e
    ensures n == |set x | x in items && x.inv == inv :: x.ean|
  {
    var rows := SessionItems(items, inv);
    KeySetBound(rows, ItemEan);
    assert forall e :: e in KeySet(rows, ItemEan) <==> exists x :: x in items && x.inv == inv && x.ean == e by {
      forall e ensures e in KeySet(rows, ItemEan) <==> exists x :: x in items && x.inv == inv && x.ean == e {
        if e in KeySet(rows, ItemEan) {
          var i :| 0 <= i < |rows| && ItemEan(rows[i]) == e;
          assert rows[i] in rows;
        }
        if exists x :: x in items && x.inv == inv && x.ean == e {
          var x :| x in items && x.inv == inv && x.ean == e;
          assert x in rows;
          var i :| 0 <= i < |rows| && rows[i] == x;
          assert ItemEan(rows[i]) == e;
        }
      }
    }
    assert KeySet(rows, ItemEan) == set x | x in items && x.inv == inv :: x.ean;
    |KeySet(rows, ItemEan)|
  }

  /** `COUNT(DISTINCT v.ean)` over the expiry lines of a session. */
  function ItemsVto(vtos: seq<VtoRow>, inv: int): (n: nat)
    ensures n <= |SessionVtos(vtos, inv)|
    ensures forall e :: e in KeySet(SessionVtos(vtos, inv), VtoEan) <==>
                        exists x :: x in vtos && x.inv == inv && x.ean == e
    ensures n == |set x | x in vtos && x.inv == inv :: x.ean|
  {
    var rows := SessionVtos(vtos, inv);
    KeySetBound(rows, VtoEan);
    assert forall e :: e in KeySet(rows, VtoEan) <==> exists x :: x in vtos && x.inv == inv && x.ean == e by {
      forall e ensures e in KeySet(rows, VtoEan) <==> exists x :: x in vtos && x.inv == inv && x.ean == e {
        if e in KeySet(rows, VtoEan) {
          var i :| 0 <= i < |rows| && VtoEan(rows[i]) == e;
          assert rows[i] in rows;
        }
        if exists x :: x in vtos && x.inv == inv && x.ean == e {
          var x :| x in vtos && x.inv == inv && x.ean == e;
          assert x in rows;
          var i :| 0 <= i < |rows| && rows[i] == x;
          assert VtoEan(rows[i]) == e;
        }
      }
    }
    assert KeySet(rows, VtoEan) == set x | x in vtos && x.inv == inv :: x.ean;
    |KeySet(rows, VtoEan)|
  }

  /**
   * Under the `(inventario_id, ean)` key the distinct count of the plain table is its number of
   * lines for the session: each code has one line.
   */
  lemma ItemsCantCountsLines(items: seq<ItemRow>, inv: int)
    requires UniqueBy(items, ItemKey)
    ensures ItemsCant(items, inv) == |SessionItems(items, inv)|
  {
    var rows := SessionItems(items, inv);
    FilterUnique(items, ItemOfSession(inv), ItemKey);
    assert UniqueBy(rows, ItemEan) by {
      forall i, j | 0 <= i < j < |rows| ensures ItemEan(rows[i]) != ItemEan(rows[j]) {
        assert rows[i] in rows && rows[j] in rows;
        assert ItemKey(rows[i]) != ItemKey(rows[j]);
      }
    }
    DistinctCount(rows, ItemEan);
  }

  /**
   * `COALESCE(MAX(MAX(items.ts), MAX(vtos.ts)), fecha_creacion)`: the latest timestamp among the
   * session's lines of both tables, or the creation date when it has none.
   */
  function UltimaModificacion(db: Db, s: Session): (t: int)
    ensures |SessionItems(db.items, s.id)| == 0 && |SessionVtos(db.vtos, s.id)| == 0 ==> t == s.fechaCreacion
    ensures forall x :: x in db.items && x.inv == s.id ==> x.ts <= t
    ensures forall x :: x in db.vtos && x.inv == s.id ==> x.ts <= t
    ensures |SessionItems(db.items, s.id)| > 0 || |SessionVtos(db.vtos, s.id)| > 0 ==>
              (exists x :: x in db.items && x.inv == s.id && x.ts == t) ||
              (exists x :: x in db.vtos && x.inv == s.id && x.ts == t)
  {
    var its := SessionItems(db.items, s.id);
    var vts := SessionVtos(db.vtos, s.id);
    var a := MaxOf(its, ItemTs);
    var b := MaxOf(vts, VtoTs);
    match (a, b)
    case (None, None) => s.fechaCreacion
    case (Some(m), None) => m
    case (None, Some(n)) => n
    case (Some(m), Some(n)) => if m >= n then m else n
  }

  /** The summary row of one session: `items` is the sum of the two distinct counts. */
  function StatsOf(db: Db, s: Session): (st: SessionStats)
    ensures st.session == s
    ensures st.itemsCant == ItemsCant(db.items, s.id) && st.itemsVto == ItemsVto(db.vtos, s.id)
    ensures st.items == st.itemsCant + st.itemsVto
    ensures st.ultimaModificacion == UltimaModificacion(db, s)
  {
    var c := ItemsCant(db.items, s.id);
    var v := ItemsVto(db.vtos, s.id);
    SessionStats(s, c + v, c, v, UltimaModificacion(db, s))
  }

  function StatsFor(db: Db): Session -> SessionStats { (s: Session) => StatsOf(db, s) }

  /** Sorting ascending on the negated time orders by time descending. */
  function NewestFirst(st: SessionStats): int { -st.ultimaModificacion }

  /**
   * `getInventoriesWithStats`: one summary row per session, ordered by last modification,
   * newest first.
   */
  function InventoriesWithStats(db: Db): (r: seq<SessionStats>)
    ensures |r| == |db.sessions|
    ensures forall i, j :: 0 <= i < j < |r| ==> r[i].ultimaModificacion >= r[j].ultimaModificacion
    ensures forall st :: st in r <==> exists s :: s in db.sessions && st == StatsOf(db, s)
    ensures forall st :: st in r ==> st.items == st.itemsCant + st.itemsVto
  {
    var unsorted := Map(db.sessions, StatsFor(db));
    var r := SortBy(unsorted, NewestFirst);
    assert forall i, j :: 0 <= i < j < |r| ==> r[i].ultimaModificacion >= r[j].ultimaModificacion by {
      forall i, j | 0 <= i < j < |r| ensures r[i].ultimaModificacion >= r[j].ultimaModificacion {
        assert NewestFirst(r[i]) <= NewestFirst(r[j]);
      }
    }
    SortByMembers(unsorted, NewestFirst);
    SummaryRows(db);
    r
  }

  /** The unsorted summary holds one row per session. */
  lemma SummaryRows(db: Db)
    ensures forall st :: st in Map(db.sessions, StatsFor(db)) <==> exists s :: s in db.sessions && st == StatsOf(db, s)
  {
    MapImages(db.sessions, StatsFor(db));
    assert forall s :: StatsFor(db)(s) == StatsOf(db, s);
  }
}
