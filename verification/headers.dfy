/**
 * Column lookup of the catalog importer: each canonical column has a list of accepted header
 * spellings (`headerMap`); `pick` tries them in order, each first among the slugged headers
 * and then among the headers as written; `validateHeadersFlexible` checks the first row for
 * the four required columns.
 */
module Headers {
  import opened Common
  import opened Seqs
  import opened Slug

  /**
   * One spreadsheet row as `sheet_to_json` yields it: header/cell pairs in column order, each
   * header once, each cell as its text (blank cells are "").
   */
  type Row = seq<(string, string)>

  /** The canonical columns, in the order `headerMap` declares them. */
  datatype Canonical = Ean | CodigoArticulo | Descripcion | UnidadesPorBulto | Pesable | PesablePorUnidad

  /** The canonical column's name, as the error message lists it. */
  function Name(c: Canonical): string {
    match c
    case Ean => "ean"
    case CodigoArticulo => "codigo_articulo"
    case Descripcion => "descripcion"
    case UnidadesPorBulto => "unidades_por_bulto"
    case Pesable => "pesable"
    case PesablePorUnidad => "pesable_por_unidad"
  }

  /** `headerMap`: the accepted spellings of each column, in the order they are tried. */
  function Synonyms(c: Canonical): seq<string> {
    match c
    case Ean => ["ean"]
    case CodigoArticulo => ["codigo_articulo", "codigo", "codarticulo", "codigo_interno", "plu"]
    case Descripcion => ["descripcion", "descripci\U{00F3}n", "desc"]
    case UnidadesPorBulto => ["unidades_por_bulto", "unidades_por_paquete", "uxb", "unidades_paquete", "unidadesxbolsa"]
    case Pesable => ["pesable"]
    case PesablePorUnidad => ["pesable_x_un", "pesable_por_unidad", "pesablexun", "pesable_x_unidad"]
  }

  /** An object built by assigning `pairs` in order: a later pair overwrites an earlier key. */
  function Assign<K, V>(pairs: seq<(K, V)>): map<K, V> {
    if |pairs| == 0 then map[]
    else Assign(pairs[..|pairs| - 1])[pairs[|pairs| - 1].0 := pairs[|pairs| - 1].1]
  }

  /** The keys of the object are exactly the keys assigned. */
  lemma {:induction false} AssignKeys<K, V>(pairs: seq<(K, V)>, k: K)
    ensures k in Assign(pairs) <==> exists i :: 0 <= i < |pairs| && pairs[i].0 == k
  {
    if |pairs| > 0 {
      var n := |pairs| - 1;
      AssignKeys(pairs[..n], k);
      if exists i :: 0 <= i < n && pairs[..n][i].0 == k {
        var i :| 0 <= i < n && pairs[..n][i].0 == k;
        assert pairs[i].0 == k;
      }
      if exists i :: 0 <= i < |pairs| && pairs[i].0 == k {
        var i :| 0 <= i < |pairs| && pairs[i].0 == k;
        if i < n { assert pairs[..n][i].0 == k; }
      }
    }
  }

  /** A key holds the value of its last assignment. */
  lemma {:induction false} AssignLastWins<K, V>(pairs: seq<(K, V)>, i: nat)
    requires i < |pairs| && forall j :: i < j < |pairs| ==> pairs[j].0 != pairs[i].0
    ensures pairs[i].0 in Assign(pairs) && Assign(pairs)[pairs[i].0] == pairs[i].1
  {
    var n := |pairs| - 1;
    if i < n {
      assert pairs[..n][i] == pairs[i];
      assert forall j :: i < j < n ==> pairs[..n][j] == pairs[j];
      AssignLastWins(pairs[..n], i);
    }
  }

  function SlugPair(p: (string, string)): (string, string) { (ToSlug(p.0), p.1) }

  /**
   * `slugRow`: the row re-keyed by slugged header. When two headers slug alike, the later
   * column overwrites the earlier one.
   */
  function SlugRow(row: Row): map<string, string> {
    Assign(Map(row, SlugPair))
  }

  /** Assigning mapped pairs: a key holds the value of its last assignment. */
  lemma AssignMappedLastWins<A, K, V>(row: seq<A>, f: A -> (K, V), i: nat)
    requires i < |row| && forall j :: i < j < |row| ==> f(row[j]).0 != f(row[i]).0
    ensures f(row[i]).0 in Assign(Map(row, f)) && Assign(Map(row, f))[f(row[i]).0] == f(row[i]).1
  {
    var pairs := Map(row, f);
    assert forall j :: i < j < |pairs| ==> pairs[j].0 != pairs[i].0;
    AssignLastWins(pairs, i);
  }

  /** Every slugged header is a key of the re-keyed row, holding the last such column's cell. */
  lemma SlugRowLastWins(row: Row, i: nat)
    requires i < |row| && forall j :: i < j < |row| ==> ToSlug(row[j].0) != ToSlug(row[i].0)
    ensures ToSlug(row[i].0) in SlugRow(row) && SlugRow(row)[ToSlug(row[i].0)] == row[i].1
  {
    assert forall j :: i < j < |row| ==> SlugPair(row[j]).0 != SlugPair(row[i]).0;
    AssignMappedLastWins(row, SlugPair, i);
  }

  /** The keys of the re-keyed row are exactly the slugged headers. */
  lemma SlugRowKeys(row: Row, k: string)
    ensures k in SlugRow(row) <==> exists i :: 0 <= i < |row| && ToSlug(row[i].0) == k
  {
    var pairs := Map(row, SlugPair);
    AssignKeys(pairs, k);
    if exists i :: 0 <= i < |row| && ToSlug(row[i].0) == k {
      var i :| 0 <= i < |row| && ToSlug(row[i].0) == k;
      assert pairs[i].0 == k;
    }
  }

  /** `variant in row`: some header is written exactly as `v`. */
  predicate HasHeader(row: Row, v: string) {
    exists i :: 0 <= i < |row| && row[i].0 == v
  }

  /** `row[variant]`: the cell under the first header written exactly as `v`. */
  function RawValue(row: Row, v: string): (r: Option<string>)
    ensures r.Some? <==> HasHeader(row, v)
    ensures r.Some? ==> exists i :: 0 <= i < |row| && row[i] == (v, r.value)
  {
    if |row| == 0 then None
    else if row[0].0 == v then Some(row[0].1)
    else
      var r := RawValue(row[1..], v);
      assert HasHeader(row, v) <==> HasHeader(row[1..], v) by {
        if HasHeader(row, v) {
          var i :| 0 <= i < |row| && row[i].0 == v;
          assert row[1..][i - 1] == row[i];
        }
        if HasHeader(row[1..], v) {
          var i :| 0 <= i < |row[1..]| && row[1..][i].0 == v;
          assert row[i + 1] == row[1..][i];
        }
      }
      if r.Some? then
        var i :| 0 <= i < |row[1..]| && row[1..][i] == (v, r.value);
        assert row[i + 1] == row[1..][i];
        r
      else r
  }

  /**
   * One spelling is found: among the slugged headers `srow` (the row's `slugRow`), or among
   * the headers as written.
   */
  predicate Resolvable(srow: map<string, string>, row: Row, v: string) {
    v in srow || HasHeader(row, v)
  }

  /** The cell one spelling finds: the slugged lookup wins over the literal one. */
  function CellFor(srow: map<string, string>, row: Row, v: string): string
    requires Resolvable(srow, row, v)
  {
    if v in srow then srow[v] else RawValue(row, v).value
  }

  /** The position of the first spelling that resolves, or the number of spellings if none does. */
  function FirstResolvable(srow: map<string, string>, row: Row, variants: seq<string>): (k: nat)
    ensures k <= |variants|
    ensures forall j :: 0 <= j < k ==> !Resolvable(srow, row, variants[j])
    ensures k < |variants| ==> Resolvable(srow, row, variants[k])
  {
    if |variants| == 0 then 0
    else if Resolvable(srow, row, variants[0]) then 0
    else 1 + FirstResolvable(srow, row, variants[1..])
  }

  /**
   * `pick`: the cell of the first spelling that resolves, or nothing (`undefined`) when none
   * does.
   */
  function PickFrom(srow: map<string, string>, row: Row, variants: seq<string>): (r: Option<string>)
    ensures r.None? <==> FirstResolvable(srow, row, variants) == |variants|
    ensures r.Some? ==> r.value == CellFor(srow, row, variants[FirstResolvable(srow, row, variants)])
  {
    if |variants| == 0 then None
    else if Resolvable(srow, row, variants[0]) then Some(CellFor(srow, row, variants[0]))
    else
      var k := FirstResolvable(srow, row, variants[1..]);
      assert k < |variants[1..]| ==> variants[1..][k] == variants[1 + k];
      PickFrom(srow, row, variants[1..])
  }

  /** Nothing is picked exactly when no spelling of the column resolves. */
  lemma PickNoneIff(srow: map<string, string>, row: Row, variants: seq<string>)
    ensures PickFrom(srow, row, variants).None? <==> forall v :: v in variants ==> !Resolvable(srow, row, v)
  {
    var k := FirstResolvable(srow, row, variants);
    if k < |variants| { assert variants[k] in variants; }
  }

  function Pick(row: Row, c: Canonical): Option<string> {
    PickFrom(SlugRow(row), row, Synonyms(c))
  }

  /** A header that slugs to the column's first spelling always wins, wherever it stands. */
  lemma PickPrefersFirstSpelling(row: Row, c: Canonical, i: nat)
    requires i < |row| && ToSlug(row[i].0) == Synonyms(c)[0]
    requires forall j :: i < j < |row| ==> ToSlug(row[j].0) != Synonyms(c)[0]
    ensures Pick(row, c) == Some(row[i].1)
  {
    SlugRowLastWins(row, i);
  }

  /**
   * The spreadsheet's own header for a column, however written: a header slugging to any
   * accepted spelling makes the column resolvable.
   */
  lemma SluggedHeaderResolves(row: Row, c: Canonical, i: nat)
    requires i < |row| && ToSlug(row[i].0) in Synonyms(c)
    ensures Pick(row, c).Some?
  {
    SlugRowKeys(row, ToSlug(row[i].0));
    PickNoneIff(SlugRow(row), row, Synonyms(c));
  }

  /** The columns the importer cannot do without, in the order they are checked. */
  function Required(): seq<Canonical> {
    [Ean, CodigoArticulo, Descripcion, UnidadesPorBulto]
  }

  function MissingIn(row: Row): Canonical -> bool {
    (c: Canonical) => Pick(row, c).None?
  }

  /** The result of `validateHeadersFlexible`: pass, or the error naming the missing columns. */
  datatype Validation = Valid | MissingColumns(cols: seq<Canonical>)

  /**
   * `validateHeadersFlexible`: no rows pass; otherwise every required column must resolve in
   * the first row, and the error lists each one that does not, in the required order.
   */
  function ValidateHeaders(rows: seq<Row>): (v: Validation)
    ensures |rows| == 0 ==> v == Valid
    ensures v == Valid <==> |rows| == 0 || forall c :: c in Required() ==> Pick(rows[0], c).Some?
    ensures v.MissingColumns? ==> |v.cols| > 0 && forall c :: c in v.cols <==> c in Required() && Pick(rows[0], c).None?
    ensures v.MissingColumns? ==> v.cols == Filter(Required(), MissingIn(rows[0]))
  {
    if |rows| == 0 then Valid
    else
      var missing := Filter(Required(), MissingIn(rows[0]));
      if |missing| == 0 then
        assert forall c :: c in Required() ==> c in missing || Pick(rows[0], c).Some?;
        Valid
      else
        assert missing[0] in missing;
        MissingColumns(missing)
  }

  /** `missing.join(", ")`. */
  function JoinNames(cols: seq<Canonical>): string {
    if |cols| == 0 then ""
    else if |cols| == 1 then Name(cols[0])
    else Name(cols[0]) + ", " + JoinNames(cols[1..])
  }

  /** The text of the validation error. */
  function MissingMessage(cols: seq<Canonical>): string {
    "Faltan columnas requeridas: " + JoinNames(cols)
  }
}
