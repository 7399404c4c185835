/**
 * The catalog importer (`pickAndImportCatalog`): the sheet's rows are normalised into articles
 * and filtered, the previous catalog is deleted, and the articles are inserted in batches of 800,
 * each batch in its own transaction.
 */
module CatalogImport {
  import opened Common
  import opened Text
  import opened Seqs
  import opened Catalog
  import opened Headers

  /** `normalizeEAN`: a missing cell is "", anything else is trimmed and loses one leading apostrophe. */
  function NormalizeEan(raw: Option<string>): (r: string)
    ensures raw.None? ==> r == ""
    ensures raw.Some? ==> Trim(raw.value) == r || Trim(raw.value) == "'" + r
    ensures raw.Some? ==> (Trim(raw.value) == "'" + r <==> StartsWith(Trim(raw.value), "'"))
  {
    match raw
    case None => ""
    case Some(s) => NormalizeCode(s)
  }

  /**
   * `normalizeUnits`: the cell with its first ',' read as '.'; a value that is not a finite
   * number above 0 becomes 1.
   */
  function NormalizeUnits(raw: Option<string>): (n: real)
    ensures n > 0.0
    ensures ParseQuantity(raw.GetOr("")).Finite? && ParseQuantity(raw.GetOr("")).value > 0.0
            ==> n == ParseQuantity(raw.GetOr("")).value
    ensures !(ParseQuantity(raw.GetOr("")).Finite? && ParseQuantity(raw.GetOr("")).value > 0.0) ==> n == 1.0
  {
    var s := Trim(ReplaceFirst(raw.GetOr(""), ',', '.'));
    ParseNumberTrimmed(ReplaceFirst(raw.GetOr(""), ',', '.'));
    match ParseNumber(s)
    case Finite(v) => if v <= 0.0 then 1.0 else v
    case NonFinite => 1.0
  }

  /** `Number` ignores surrounding whitespace, so trimming first changes nothing. */
  lemma ParseNumberTrimmed(s: string)
    ensures ParseNumber(Trim(s)) == ParseNumber(s)
  {
    TrimIdempotent(s);
  }

  /** `normalizeBool01`: 1 exactly when the trimmed cell is "1". */
  function NormalizeBool01(raw: Option<string>): (b: int)
    ensures b == 0 || b == 1
    ensures b == 1 <==> Trim(raw.GetOr("")) == "1"
  {
    if Trim(raw.GetOr("")) == "1" then 1 else 0
  }

  /** The text of a picked cell, "" when the column is missing, trimmed. */
  function PickedText(row: Row, c: Canonical): string {
    Trim(Pick(row, c).GetOr(""))
  }

  /** The article one sheet row becomes (the `rows.map` of `parseExcelAtUri`). */
  function NormalizeRow(row: Row): (a: Article)
    ensures a.unidadesPorBulto > 0.0 && a.unidadesPorBulto == NormalizeUnits(Pick(row, UnidadesPorBulto))
    ensures a.pesable.Some? && (a.pesable.value == 0 || a.pesable.value == 1)
    ensures a.pesablePorUnidad.Some? && (a.pesablePorUnidad.value == 0 || a.pesablePorUnidad.value == 1)
    ensures a.pesable == Some(NormalizeBool01(Pick(row, Pesable)))
    ensures a.pesablePorUnidad == Some(NormalizeBool01(Pick(row, PesablePorUnidad)))
    ensures IsWeighable(a) <==> PickedText(row, Pesable) == "1"
    ensures a.ean == NormalizeEan(Pick(row, Ean))
    ensures a.descripcion == PickedText(row, Descripcion) && a.codigo == PickedText(row, CodigoArticulo)
  {
    Article(
      NormalizeEan(Pick(row, Ean)),
      PickedText(row, CodigoArticulo),
      PickedText(row, Descripcion),
      NormalizeUnits(Pick(row, UnidadesPorBulto)),
      Some(NormalizeBool01(Pick(row, Pesable))),
      Some(NormalizeBool01(Pick(row, PesablePorUnidad))))
  }

  /** `r.ean && r.descripcion`: the rows kept have both a code and a description. */
  predicate Kept(a: Article) {
    a.ean != "" && a.descripcion != ""
  }

  /** Why parsing the sheet fails: the header check names the missing columns. */
  datatype ParseError = ParseError(missing: seq<Canonical>)

  /** The rows normalised and filtered, in sheet order. */
  function KeptArticles(rows: seq<Row>): (r: seq<Article>)
    ensures forall a :: a in r ==> Kept(a) && a.unidadesPorBulto > 0.0
    ensures forall a :: a in r <==> Kept(a) && exists i :: 0 <= i < |rows| && a == NormalizeRow(rows[i])
  {
    MapMembers(rows, NormalizeRow);
    Filter(Map(rows, NormalizeRow), Kept)
  }

  /**
   * `parseExcelAtUri` after the sheet is read: no rows give no articles; otherwise the headers
   * are validated on the first row, every row is normalised, and rows without a code or a
   * description are dropped, in sheet order.
   */
  function ParseRows(rows: seq<Row>): (r: Result<seq<Article>, ParseError>)
    ensures |rows| == 0 ==> r == Success([])
    ensures r.Failure? <==> ValidateHeaders(rows).MissingColumns?
    ensures r.Failure? ==> r.error.missing == ValidateHeaders(rows).cols
    ensures r.Success? ==> r.value == KeptArticles(rows)
  {
    if |rows| == 0 then Success([])
    else
      match ValidateHeaders(rows)
      case MissingColumns(cols) => Failure(ParseError(cols))
      case Valid => Success(KeptArticles(rows))
  }

  /** The batch size of the importer. */
  const BatchSize: nat := 800

  /** The batches in order, concatenated. */
  function Flatten<T>(bs: seq<seq<T>>): seq<T> {
    if |bs| == 0 then [] else bs[0] + Flatten(bs[1..])
  }

  lemma {:induction false} FlattenAppend<T>(bs: seq<seq<T>>, b: seq<T>)
    ensures Flatten(bs + [b]) == Flatten(bs) + b
  {
    if |bs| > 0 {
      assert (bs + [b])[1..] == bs[1..] + [b];
      FlattenAppend(bs[1..], b);
    } else {
      assert [b][1..] == [];
    }
  }

  /**
   * `rows.slice(i, i + n)` for i = 0, n, 2n, ...: consecutive slices of `n` rows, the last
   * one possibly shorter.
   */
  function Chunks<T>(s: seq<T>, n: nat): (bs: seq<seq<T>>)
    requires n > 0
    ensures Flatten(bs) == s
    ensures forall i :: 0 <= i < |bs| ==> 0 < |bs[i]| <= n
    ensures forall i :: 0 <= i < |bs| - 1 ==> |bs[i]| == n
    decreases |s|
  {
    if |s| == 0 then []
    else if |s| <= n then
      assert Flatten([s]) == s + Flatten([s][1..]);
      [s]
    else
      var rest := Chunks(s[n..], n);
      assert ([s[..n]] + rest)[1..] == rest;
      assert s == s[..n] + s[n..];
      [s[..n]] + rest
  }

  /** A slicing in full batches with a non-empty, not-longer last one is the one `Chunks` builds. */
  lemma {:induction false} ChunksUnique<T>(s: seq<T>, n: nat, bs: seq<seq<T>>)
    requires n > 0 && Flatten(bs) == s
    requires forall i :: 0 <= i < |bs| ==> 0 < |bs[i]| <= n
    requires forall i :: 0 <= i < |bs| - 1 ==> |bs[i]| == n
    ensures bs == Chunks(s, n)
    decreases |s|
  {
    if |bs| == 0 {
    } else if |bs| == 1 {
      assert Flatten(bs) == bs[0] + Flatten(bs[1..]);
      assert bs[1..] == [];
      assert s == bs[0];
    } else {
      assert s == bs[0] + Flatten(bs[1..]);
      assert |Flatten(bs[1..])| > 0 by {
        assert Flatten(bs[1..]) == bs[1] + Flatten(bs[2..]) by { assert bs[1..][1..] == bs[2..]; }
      }
      assert bs[0] == s[..n] && Flatten(bs[1..]) == s[n..];
      ChunksUnique(s[n..], n, bs[1..]);
    }
  }

  /**
   * The loop of `pickAndImportCatalog` that cuts the rows into batches; it computes exactly
   * `Chunks`, so the batches put back together are the rows, in order.
   */
  method SliceBatches<T>(rows: seq<T>, n: nat) returns (bs: seq<seq<T>>)
    requires n > 0
    ensures Flatten(bs) == rows
    ensures forall i :: 0 <= i < |bs| ==> 0 < |bs[i]| <= n
    ensures forall i :: 0 <= i < |bs| - 1 ==> |bs[i]| == n
    ensures bs == Chunks(rows, n)
  {
    bs := [];
    var i := 0;
    while i < |rows|
      invariant Flatten(bs) == rows[..MinNat(i, |rows|)]
      invariant forall k :: 0 <= k < |bs| ==> 0 < |bs[k]| <= n
      invariant forall k :: 0 <= k < |bs| - 1 ==> |bs[k]| == n
      invariant i < |rows| ==> forall k :: 0 <= k < |bs| ==> |bs[k]| == n
      decreases |rows| - i
    {
      var hi := MinNat(i + n, |rows|);
      FlattenAppend(bs, rows[i..hi]);
      assert rows[..hi] == rows[..i] + rows[i..hi];
      bs := bs + [rows[i..hi]];
      i := i + n;
    }
    assert rows[..MinNat(i, |rows|)] == rows;
    ChunksUnique(rows, n, bs);
  }

  function MinNat(a: nat, b: nat): nat { if a <= b then a else b }

  /**
   * One `insertBatch`: the rows are inserted one by one inside a transaction; an insert whose
   * code is already in the table violates the primary key, and the rollback restores the
   * table as it was before the batch.
   */
  function InsertBatch(cat: seq<Article>, batch: seq<Article>): (r: Option<seq<Article>>)
    requires UniqueEans(cat)
    ensures r.Some? <==> UniqueEans(cat + batch)
    ensures r.Some? ==> r.value == cat + batch
  {
    InsertRows(cat, batch)
  }

  /** The inserts of a batch, stopping at the first primary-key clash. */
  function InsertRows(cat: seq<Article>, batch: seq<Article>): (r: Option<seq<Article>>)
    requires UniqueEans(cat)
    ensures r.Some? <==> UniqueEans(cat + batch)
    ensures r.Some? ==> r.value == cat + batch
    decreases |batch|
  {
    if |batch| == 0 then
      assert cat + batch == cat;
      Some(cat)
    else if exists a :: a in cat && a.ean == batch[0].ean then
      assert !UniqueEans(cat + batch) by {
        var a :| a in cat && a.ean == batch[0].ean;
        var i :| 0 <= i < |cat| && cat[i] == a;
        assert (cat + batch)[i].ean == (cat + batch)[|cat|].ean;
      }
      None
    else
      var next := cat + [batch[0]];
      assert UniqueEans(next) by {
        forall i, j | 0 <= i < j < |next| ensures next[i].ean != next[j].ean {
          if j == |cat| { assert cat[i] in cat; }
        }
      }
      assert next + batch[1..] == cat + batch;
      InsertRows(next, batch[1..])
  }

  /** What the importer reports: the number of rows imported, or an error. */
  datatype Outcome = Imported(total: nat) | HeaderError(missing: seq<Canonical>) | InsertError

  /** The table after the import, and what the importer reports. */
  datatype ImportResult = ImportResult(catalog: seq<Article>, outcome: Outcome)

  /**
   * The batches one after the other, each committed on its own; the first failing batch stops
   * the import and leaves the committed batches in place. The flag says whether all succeeded.
   */
  function InsertBatches(cat: seq<Article>, bs: seq<seq<Article>>): (r: (seq<Article>, bool))
    requires UniqueEans(cat)
    ensures UniqueEans(r.0)
    ensures r.1 <==> UniqueEans(cat + Flatten(bs))
    ensures r.1 ==> r.0 == cat + Flatten(bs)
    ensures !r.1 ==> exists k :: 0 <= k < |bs| && r.0 == cat + Flatten(bs[..k])
    decreases |bs|
  {
    if |bs| == 0 then
      assert cat + Flatten(bs) == cat;
      (cat, true)
    else
      assert Flatten(bs) == bs[0] + Flatten(bs[1..]);
      assert cat + Flatten(bs) == (cat + bs[0]) + Flatten(bs[1..]);
      match InsertBatch(cat, bs[0])
      case None =>
        UniquePrefix(cat + bs[0], Flatten(bs[1..]));
        assert bs[..0] == [] && Flatten(bs[..0]) == [];
        (cat, false)
      case Some(c) =>
        var r := InsertBatches(c, bs[1..]);
        if !r.1 then
          var k :| 0 <= k < |bs[1..]| && r.0 == c + Flatten(bs[1..][..k]);
          FlattenFirstBatches(cat, bs, k);
          assert r.0 == cat + Flatten(bs[..k + 1]);
          r
        else r
  }

  /** The first `k + 1` batches put together: the first batch, then the next `k`. */
  lemma FlattenFirstBatches<T>(cat: seq<T>, bs: seq<seq<T>>, k: nat)
    requires k < |bs| - 1
    ensures (cat + bs[0]) + Flatten(bs[1..][..k]) == cat + Flatten(bs[..k + 1])
  {
    assert bs[..k + 1][1..] == bs[1..][..k];
    assert Flatten(bs[..k + 1]) == bs[0] + Flatten(bs[1..][..k]);
  }

  /** Dropping rows from the end keeps the codes unique. */
  lemma UniquePrefix(a: seq<Article>, b: seq<Article>)
    ensures UniqueEans(a + b) ==> UniqueEans(a)
  {
    if UniqueEans(a + b) {
      forall i, j | 0 <= i < j < |a| ensures a[i].ean != a[j].ean {
        assert (a + b)[i] == a[i] && (a + b)[j] == a[j];
      }
    }
  }

  /** All the parsed rows, batch after batch, into the emptied table. */
  function InsertAll(rows: seq<Article>): (r: (seq<Article>, bool))
    ensures UniqueEans(r.0)
    ensures r.1 <==> UniqueEans(rows)
    ensures r.1 ==> r.0 == rows
  {
    assert [] + rows == rows;
    InsertBatches([], Chunks(rows, BatchSize))
  }

  /** The batches before a non-empty one put together are a proper prefix of all of them put together. */
  lemma FlattenPrefix<T>(bs: seq<seq<T>>, k: nat)
    requires k < |bs| && |bs[k]| > 0
    ensures |Flatten(bs[..k])| < |Flatten(bs)| && Flatten(bs)[..|Flatten(bs[..k])|] == Flatten(bs[..k])
  {
    assert bs == bs[..k] + bs[k..];
    FlattenSplit(bs[..k], bs[k..]);
    assert Flatten(bs[k..]) == bs[k] + Flatten(bs[k + 1..]) by { assert bs[k..][1..] == bs[k + 1..]; }
  }

  /** A failed insert leaves a proper prefix of the rows in the table. */
  lemma InsertAllFailurePrefix(rows: seq<Article>)
    requires !InsertAll(rows).1
    ensures exists k :: 0 <= k < |rows| && InsertAll(rows).0 == rows[..k]
  {
    var bs := Chunks(rows, BatchSize);
    var c := InsertAll(rows).0;
    var k :| 0 <= k < |bs| && c == [] + Flatten(bs[..k]);
    assert c == Flatten(bs[..k]);
    FlattenPrefix(bs, k);
    assert rows[..|c|] == c;
  }

  /** Two rows with one code in a single batch: the batch is rolled back and nothing is left. */
  lemma InsertAllDuplicatePair(a: Article, b: Article)
    requires a.ean == b.ean
    ensures InsertAll([a, b]) == ([], false)
  {
    var rows := [a, b];
    assert !UniqueEans(rows) by { assert rows[0].ean == rows[1].ean; }
    assert Chunks(rows, BatchSize) == [rows];
    assert [] + rows == rows;
    assert InsertBatch([], rows).None?;
  }

  /**
   * `pickAndImportCatalog` as written: a header error changes nothing; otherwise the DELETE of
   * the previous catalog commits first, then the batches are inserted. A failing batch leaves the
   * table holding only the batches before it.
   */
  function ImportAsWritten(previous: seq<Article>, sheet: seq<Row>): (r: ImportResult)
    ensures UniqueEans(r.catalog) || r.catalog == previous
    ensures r.outcome.HeaderError? <==> ParseRows(sheet).Failure?
    ensures r.outcome.HeaderError? ==> r.catalog == previous
  {
    match ParseRows(sheet)
    case Failure(e) => ImportResult(previous, HeaderError(e.missing))
    case Success(rows) =>
      var (c, ok) := InsertAll(rows);
      ImportResult(c, if ok then Imported(|rows|) else InsertError)
  }

  /**
   * The import as an all-or-nothing replacement: the previous catalog is kept unless every row goes
   * in, in which case the table is exactly the rows.
   */
  function ImportAtomic(previous: seq<Article>, sheet: seq<Row>): (r: ImportResult)
    ensures r.outcome.HeaderError? <==> ParseRows(sheet).Failure?
    ensures r.outcome.Imported? <==> ParseRows(sheet).Success? && UniqueEans(ParseRows(sheet).value)
    ensures r.outcome.Imported? ==> r.catalog == ParseRows(sheet).value && r.outcome.total == |r.catalog|
    ensures !r.outcome.Imported? ==> r.catalog == previous
  {
    match ParseRows(sheet)
    case Failure(e) => ImportResult(previous, HeaderError(e.missing))
    case Success(rows) =>
      if UniqueEans(rows) then ImportResult(rows, Imported(|rows|)) else ImportResult(previous, InsertError)
  }

  /** On success the import as written leaves exactly the sheet's articles, and reports their number. */
  lemma AsWrittenSuccess(previous: seq<Article>, sheet: seq<Row>)
    requires ImportAsWritten(previous, sheet).outcome.Imported?
    ensures ParseRows(sheet).Success?
    ensures ImportAsWritten(previous, sheet).catalog == ParseRows(sheet).value
    ensures ImportAsWritten(previous, sheet).outcome.total == |ParseRows(sheet).value|
  {
  }

  /**
   * On an insert error the import as written has already lost the previous catalog: the table
   * holds a proper prefix of the sheet's articles, whatever it held before.
   */
  lemma AsWrittenFailureKeepsPrefix(previous: seq<Article>, sheet: seq<Row>)
    requires ImportAsWritten(previous, sheet).outcome.InsertError?
    ensures ParseRows(sheet).Success?
    ensures exists k :: 0 <= k < |ParseRows(sheet).value| && ImportAsWritten(previous, sheet).catalog == ParseRows(sheet).value[..k]
  {
    InsertAllFailurePrefix(ParseRows(sheet).value);
  }

  lemma {:induction false} FlattenSplit<T>(a: seq<seq<T>>, b: seq<seq<T>>)
    ensures Flatten(a + b) == Flatten(a) + Flatten(b)
  {
    if |a| > 0 {
      assert (a + b)[1..] == a[1..] + b;
      FlattenSplit(a[1..], b);
    } else {
      assert a + b == b;
    }
  }

  /** When the sheet's codes are unique, the two imports coincide. */
  lemma AtomicAgreesOnUniqueCodes(previous: seq<Article>, sheet: seq<Row>)
    requires ParseRows(sheet).Success? ==> UniqueEans(ParseRows(sheet).value)
    ensures ImportAsWritten(previous, sheet) == ImportAtomic(previous, sheet)
  {
  }

  /**
   * Two rows with the same code in the first batch: the import as written ends with an empty
   * catalog, whatever it held before; the atomic import keeps the previous one.
   */
  lemma DuplicateCodeEmptiesCatalog(previous: seq<Article>, sheet: seq<Row>, a: Article, b: Article)
    requires ParseRows(sheet) == Success([a, b]) && a.ean == b.ean
    ensures ImportAsWritten(previous, sheet) == ImportResult([], InsertError)
    ensures ImportAtomic(previous, sheet) == ImportResult(previous, InsertError)
  {
    InsertAllDuplicatePair(a, b);
    assert !UniqueEans([a, b]) by { assert [a, b][0].ean == [a, b][1].ean; }
  }
}
