/**
 * The two spreadsheet exports of a session (`exportInventoryToExcel`,
 * `exportInventoryWithExpiryToExcel`): each joined line becomes one sheet row with the same
 * eight columns, expiry date last; a summary record and a time-stamped file name go with it.
 * Local calendar fields are given by a parameter `local`, standing for the device's timezone.
 */
module Export {
  import opened Common
  import opened Text

  /** The local calendar fields of an instant, as `Date` reports them (month from 1). */
  datatype Stamp = Stamp(year: nat, month: nat, day: nat, hour: nat, minute: nat)

  predicate ValidStamp(t: Stamp) {
    1 <= t.month <= 12 && 1 <= t.day <= 31 && t.hour < 24 && t.minute < 60
  }

  /** `fmtDate`: DD/MM/YYYY. */
  function FmtDate(t: Stamp): string {
    Pad2(t.day) + "/" + Pad2(t.month) + "/" + NatToString(t.year)
  }

  /** `fmtDateTime`: DD/MM/YYYY HH:MM. */
  function FmtDateTime(t: Stamp): string {
    FmtDate(t) + " " + Pad2(t.hour) + ":" + Pad2(t.minute)
  }

  /** A formatted date reads back as its day, month and year, at fixed positions. */
  lemma FmtDateFields(t: Stamp)
    requires ValidStamp(t)
    ensures var s := FmtDate(t);
            && |s| >= 7 && s[2] == '/' && s[5] == '/'
            && DigitsValue(s[..2]) == t.day && DigitsValue(s[3..5]) == t.month && DigitsValue(s[6..]) == t.year
  {
    var s := FmtDate(t);
    assert s[..2] == Pad2(t.day) && s[3..5] == Pad2(t.month) && s[6..] == NatToString(t.year);
    NatToStringRoundTrip(t.year);
  }

  /** The two exports: plain counts, and counts with expiry dates. */
  datatype Kind = Cantidades | Vencimientos

  /**
   * One line of the export query: a session line joined with its article. `fechaVto` is only
   * read by the expiry export.
   */
  datatype ExportLine = ExportLine(
    ean: string,
    codigo: string,
    descripcion: string,
    unidadesPorBulto: Option<real>,
    cantidad: real,
    ts: Option<int>,
    fechaVto: int)

  /** A spreadsheet cell. */
  datatype Value = Num(n: real) | Txt(s: string)

  /** The columns of both exports, in order. */
  function Columns(): seq<string> {
    ["ean", "codigo articulo", "descripcion", "unidades por bulto", "bultos", "cantidad",
     "fecha de ingreso", "fecha de vencimiento"]
  }

  /** `Math.max(1, r.unidades_por_bulto ?? 1)`. */
  function Upb(l: ExportLine): (u: real)
    ensures u >= 1.0
    ensures l.unidadesPorBulto.Some? && l.unidadesPorBulto.value >= 1.0 ==> u == l.unidadesPorBulto.value
    ensures l.unidadesPorBulto.None? || l.unidadesPorBulto.value < 1.0 ==> u == 1.0
  {
    Max(1.0, l.unidadesPorBulto.GetOr(1.0))
  }

  /** `Math.floor(cantidad / upb)`: the number of whole cases. */
  function Bultos(cantidad: real, upb: real): (b: int)
    requires upb >= 1.0
    ensures b as real * upb <= cantidad < (b + 1) as real * upb
    ensures cantidad >= 0.0 ==> b >= 0
  {
    var q := cantidad / upb;
    assert q * upb == cantidad;
    var f := q.Floor;
    assert f as real <= q < (f + 1) as real;
    assert f as real * upb <= q * upb by { MulMonotone(f as real, q, upb); }
    assert q * upb < (f + 1) as real * upb by { MulStrict(q, (f + 1) as real, upb); }
    assert cantidad >= 0.0 ==> q >= 0.0 by {
      if q < 0.0 { MulStrict(q, 0.0, upb); }
    }
    assert cantidad < (f + 1) as real * upb;
    f
  }

  lemma MulMonotone(a: real, b: real, c: real)
    requires a <= b && c >= 0.0
    ensures a * c <= b * c
  {
  }

  lemma MulStrict(a: real, b: real, c: real)
    requires a < b && c > 0.0
    ensures a * c < b * c
  {
  }

  /** The row one line becomes: the field values under `Columns()`. */
  datatype SheetRow = SheetRow(
    ean: string,
    codigo: string,
    descripcion: string,
    upb: real,
    bultos: int,
    cantidad: real,
    fechaIngreso: string,
    fechaVencimiento: string)

  /** `r.ts ? fmtDateTime(r.ts) : ""`: a missing or zero time gives an empty cell. */
  function FechaIngreso(l: ExportLine, local: int -> Stamp): string {
    if l.ts.Some? && l.ts.value != 0 then FmtDateTime(local(l.ts.value)) else ""
  }

  /**
   * The `rows.map` of either export: the line's fields, the clamped units per case, the whole
   * cases, the entry time, and the expiry date, empty in the plain export.
   */
  function ToSheetRow(kind: Kind, l: ExportLine, local: int -> Stamp): (r: SheetRow)
    ensures r.ean == l.ean && r.codigo == l.codigo && r.descripcion == l.descripcion && r.cantidad == l.cantidad
    ensures r.upb == Upb(l) && r.upb >= 1.0
    ensures r.bultos as real * r.upb <= r.cantidad < (r.bultos + 1) as real * r.upb
    ensures r.cantidad >= 0.0 ==> r.bultos >= 0
    ensures kind == Cantidades ==> r.fechaVencimiento == ""
    ensures kind == Vencimientos ==> r.fechaVencimiento == FmtDate(local(l.fechaVto)) && r.fechaVencimiento != ""
    ensures l.ts.Some? && l.ts.value != 0 ==> r.fechaIngreso == FmtDateTime(local(l.ts.value)) && r.fechaIngreso != ""
    ensures l.ts.None? || l.ts.value == 0 ==> r.fechaIngreso == ""
  {
    var u := Upb(l);
    SheetRow(l.ean, l.codigo, l.descripcion, u, Bultos(l.cantidad, u), l.cantidad, FechaIngreso(l, local),
             if kind == Cantidades then "" else FmtDate(local(l.fechaVto)))
  }

  /** The row as the sheet stores it: one cell per column, in column order. */
  function Cells(r: SheetRow): (cells: seq<(string, Value)>)
    ensures |cells| == |Columns()| && forall i :: 0 <= i < |cells| ==> cells[i].0 == Columns()[i]
    ensures cells[|cells| - 1] == ("fecha de vencimiento", Txt(r.fechaVencimiento))
  {
    [("ean", Txt(r.ean)), ("codigo articulo", Txt(r.codigo)), ("descripcion", Txt(r.descripcion)),
     ("unidades por bulto", Num(r.upb)), ("bultos", Num(r.bultos as real)), ("cantidad", Num(r.cantidad)),
     ("fecha de ingreso", Txt(r.fechaIngreso)), ("fecha de vencimiento", Txt(r.fechaVencimiento))]
  }

  /** The session's own columns (`getInventoryMeta`), when the session exists. */
  datatype Meta = Meta(nombre: string, descripcion: string, fechaCreacion: int)

  /** The "resumen" sheet's single record. */
  datatype Summary = Summary(
    inventarioId: int,
    nombre: string,
    observacion: string,
    fechaCreacion: string,
    fechaExportacion: string,
    totalFilas: nat,
    tipo: string)

  function Tipo(kind: Kind): string {
    match kind
    case Cantidades => "cantidades"
    case Vencimientos => "vencimientos"
  }

  function SheetName(kind: Kind): string {
    match kind
    case Cantidades => "inventario"
    case Vencimientos => "vencimientos"
  }

  function EmptyMessage(kind: Kind): string {
    match kind
    case Cantidades => "Este inventario no tiene \U{00ED}tems para exportar."
    case Vencimientos => "Este inventario (vencimientos) no tiene \U{00ED}tems para exportar."
  }

  /** The file name's prefix for each export. */
  function Prefix(kind: Kind): string {
    match kind
    case Cantidades => "inventario_"
    case Vencimientos => "inventario_vto_"
  }

  /** `inventario_[vto_]<id>_YYYYMMDD_HHMM.xlsx` at local time `t`. */
  function FileName(kind: Kind, id: nat, t: Stamp): string {
    Prefix(kind) + (NatToString(id) + "_" + NatToString(t.year)) + (Pad2(t.month) + Pad2(t.day))
      + "_" + (Pad2(t.hour) + Pad2(t.minute)) + ".xlsx"
  }

  /** What an export produces: the sheet's rows, the summary, and the file name. */
  datatype Workbook = Workbook(sheet: string, rows: seq<SheetRow>, summary: Summary, fileName: string, count: nat)

  function MapRows(kind: Kind, lines: seq<ExportLine>, local: int -> Stamp): (rows: seq<SheetRow>)
    ensures |rows| == |lines|
    ensures forall i :: 0 <= i < |lines| ==> rows[i] == ToSheetRow(kind, lines[i], local)
  {
    if |lines| == 0 then [] else [ToSheetRow(kind, lines[0], local)] + MapRows(kind, lines[1..], local)
  }

  /**
   * Either export: no lines is an error; otherwise one row per line in query order, a summary
   * counting them, and the file name stamped with the local time of `now`.
   */
  function ExportSession(kind: Kind, id: nat, lines: seq<ExportLine>, meta: Option<Meta>, local: int -> Stamp, now: int)
    : (r: Result<Workbook, string>)
    ensures r.Failure? <==> |lines| == 0
    ensures r.Failure? ==> r.error == EmptyMessage(kind)
    ensures r.Success? ==> |r.value.rows| == |lines| && r.value.count == |lines| && r.value.summary.totalFilas == |lines|
    ensures r.Success? ==> r.value.summary.tipo == Tipo(kind) && r.value.fileName == FileName(kind, id, local(now))
    ensures r.Success? ==> forall i :: 0 <= i < |lines| ==> r.value.rows[i] == ToSheetRow(kind, lines[i], local)
    ensures r.Success? ==> r.value.sheet == SheetName(kind) && r.value.summary.inventarioId == id
    ensures r.Success? ==> r.value.summary.fechaExportacion == FmtDateTime(local(now))
    ensures r.Success? && meta.None? ==>
              r.value.summary.nombre == "" && r.value.summary.observacion == "" && r.value.summary.fechaCreacion == ""
    ensures r.Success? && meta.Some? ==>
              r.value.summary.nombre == meta.value.nombre && r.value.summary.observacion == meta.value.descripcion
    ensures r.Success? && meta.Some? && meta.value.fechaCreacion != 0 ==>
              r.value.summary.fechaCreacion == FmtDateTime(local(meta.value.fechaCreacion))
    ensures r.Success? && meta.Some? && meta.value.fechaCreacion == 0 ==> r.value.summary.fechaCreacion == ""
  {
    if |lines| == 0 then Failure(EmptyMessage(kind))
    else
      var rows := MapRows(kind, lines, local);
      var summary := Summary(
        id,
        if meta.Some? then meta.value.nombre else "",
        if meta.Some? then meta.value.descripcion else "",
        if meta.Some? && meta.value.fechaCreacion != 0 then FmtDateTime(local(meta.value.fechaCreacion)) else "",
        FmtDateTime(local(now)),
        |rows|,
        Tipo(kind));
      Success(Workbook(SheetName(kind), rows, summary, FileName(kind, id, local(now)), |rows|))
  }

  /** The plain export leaves the expiry column empty; the expiry export fills it on every row. */
  lemma ExpiryColumnLast(kind: Kind, id: nat, lines: seq<ExportLine>, meta: Option<Meta>, local: int -> Stamp, now: int, i: nat)
    requires ExportSession(kind, id, lines, meta, local, now).Success? && i < |lines|
    ensures var row := ExportSession(kind, id, lines, meta, local, now).value.rows[i];
            && Cells(row)[7] == ("fecha de vencimiento", Txt(row.fechaVencimiento))
            && (row.fechaVencimiento == "" <==> kind == Cantidades)
  {
  }

  // ---------- Reading a file name back ----------

  /** What a file name records. */
  datatype FileKey = FileKey(kind: Kind, id: nat, t: Stamp)

  predicate EndsWith(s: string, p: string) {
    |p| <= |s| && s[|s| - |p|..] == p
  }

  /** The kind and the rest of the name after its prefix. */
  function SplitPrefix(rest: string): Option<(Kind, string)> {
    if StartsWith(rest, "inventario_vto_") then Some((Vencimientos, rest[15..]))
    else if StartsWith(rest, "inventario_") then Some((Cantidades, rest[11..]))
    else None
  }

  /** The id and the year around the first '_' of what follows the prefix. */
  function ParseIdYear(tail: string): Option<(nat, nat)> {
    if '_' !in tail then None
    else
      var i := IndexOf(tail, '_');
      var ids := tail[..i];
      var ys := tail[i + 1..];
      if |ids| > 0 && AllDigits(ids) && |ys| > 0 && AllDigits(ys) then Some((DigitsValue(ids), DigitsValue(ys)))
      else None
  }

  /** Two two-digit fields written one after the other. */
  function ParsePair(s: string): Option<(nat, nat)> {
    if |s| == 4 && AllDigits(s) then Some((DigitsValue(s[..2]), DigitsValue(s[2..]))) else None
  }

  /** The name cut at its fixed-width end: what precedes the date, the MMDD and the HHMM fields. */
  function SplitFixed(name: string): Option<(string, string, string)> {
    if |name| < 14 || !EndsWith(name, ".xlsx") || name[|name| - 10] != '_' then None
    else Some((name[..|name| - 14], name[|name| - 14..|name| - 10], name[|name| - 9..|name| - 5]))
  }

  /**
   * Reads `inventario_[vto_]<id>_<year><MM><DD>_<HH><MM>.xlsx` from the end: the fixed-width
   * fields first, then the prefix, then the id and the year around the remaining '_'.
   */
  function ParseFileName(name: string): Option<FileKey> {
    match SplitFixed(name)
    case None => None
    case Some((rest, mmdd, hhmm)) =>
      match (SplitPrefix(rest), ParsePair(mmdd), ParsePair(hhmm))
      case (Some((kind, tail)), Some((mo, d)), Some((h, mi))) =>
        (match ParseIdYear(tail)
         case Some((id, y)) => Some(FileKey(kind, id, Stamp(y, mo, d, h, mi)))
         case None => None)
      case _ => None
  }

  /** The first '_' after the id is the one that follows it. */
  lemma IdYearRoundTrip(id: nat, year: nat)
    ensures ParseIdYear(NatToString(id) + "_" + NatToString(year)) == Some((id, year))
  {
    var I := NatToString(id);
    var s := I + "_" + NatToString(year);
    assert s[|I|] == '_';
    var i := IndexOf(s, '_');
    assert i == |I|;
    assert s[..i] == I && s[i + 1..] == NatToString(year);
    NatToStringRoundTrip(id);
    NatToStringRoundTrip(year);
  }

  /** Two fixed-width two-digit fields read back as their values. */
  lemma PairRoundTrip(a: nat, b: nat)
    requires a < 100 && b < 100
    ensures ParsePair(Pad2(a) + Pad2(b)) == Some((a, b))
  {
    var s := Pad2(a) + Pad2(b);
    assert s[..2] == Pad2(a) && s[2..] == Pad2(b);
  }

  /** The fixed-width end is cut where it was written. */
  lemma SplitFixedRoundTrip(rest: string, md: string, hm: string)
    requires |md| == 4 && |hm| == 4
    ensures SplitFixed(rest + md + "_" + hm + ".xlsx") == Some((rest, md, hm))
  {
    var name := rest + md + "_" + hm + ".xlsx";
    var n := |rest|;
    assert name[n + 4] == '_';
    assert name[|name| - 5..] == ".xlsx";
    assert name[..n] == rest && name[n..n + 4] == md && name[n + 5..n + 9] == hm;
  }

  /** The prefix determines the kind: an id never starts with 'v'. */
  lemma PrefixSplits(kind: Kind, tail: string)
    requires |tail| > 0 && IsDigit(tail[0])
    ensures SplitPrefix(Prefix(kind) + tail) == Some((kind, tail))
  {
    var s := Prefix(kind) + tail;
    if kind == Cantidades {
      assert s[11] == tail[0];
      assert !StartsWith(s, "inventario_vto_") by {
        if |s| >= 15 { assert s[..15][11] == s[11]; }
      }
      assert s[..11] == "inventario_";
      assert s[11..] == tail;
    } else {
      assert s[..15] == "inventario_vto_";
      assert s[15..] == tail;
    }
  }

  /**
   * Reading a file name back gives the export kind, the session id and the minute it was
   * written: two exports get the same name only when they are of the same kind and session
   * within the same minute.
   */
  lemma FileNameRoundTrip(kind: Kind, id: nat, t: Stamp)
    requires ValidStamp(t)
    ensures ParseFileName(FileName(kind, id, t)) == Some(FileKey(kind, id, t))
  {
    var I := NatToString(id);
    var tail := I + "_" + NatToString(t.year);
    var md := Pad2(t.month) + Pad2(t.day);
    var hm := Pad2(t.hour) + Pad2(t.minute);
    SplitFixedRoundTrip(Prefix(kind) + tail, md, hm);
    assert tail[0] == I[0];
    PrefixSplits(kind, tail);
    PairRoundTrip(t.month, t.day);
    PairRoundTrip(t.hour, t.minute);
    IdYearRoundTrip(id, t.year);
  }
}
