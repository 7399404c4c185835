/**
 * The article catalog (table `articulos`) and its three lookups: by primary code (ean), by
 * internal code (PLU), and the fan-out of every article sharing one internal code.
 * The table is a sequence in storage order; `getFirstAsync` returns the first match.
 */
module Catalog {
  import opened Common
  import opened Text

  /**
   * One article: primary code, internal code, description, units per case, and the two
   * weighable flags, which may be absent (NULL) in the table.
   */
  datatype Article = Article(
    ean: string,
    codigo: string,
    descripcion: string,
    unidadesPorBulto: real,
    pesable: Option<int>,
    pesablePorUnidad: Option<int>)

  /** `ean` is the table's primary key. */
  predicate UniqueEans(c: seq<Article>) {
    forall i, j :: 0 <= i < j < |c| ==> c[i].ean != c[j].ean
  }

  /** `(art.pesable ?? 0) === 0` is false: the article is weighed, so fractions are expected. */
  predicate IsWeighable(a: Article) {
    a.pesable.GetOr(0) != 0
  }

  /** The first article whose primary code is exactly `key`. */
  function ArticleAt(c: seq<Article>, key: string): (r: Option<Article>)
    ensures r.None? <==> forall i :: 0 <= i < |c| ==> c[i].ean != key
    ensures r.Some? ==> exists i :: 0 <= i < |c| && c[i] == r.value && c[i].ean == key
                                    && forall j :: 0 <= j < i ==> c[j].ean != key
  {
    if |c| == 0 then None
    else if c[0].ean == key then Some(c[0])
    else
      var r := ArticleAt(c[1..], key);
      assert forall i :: 1 <= i < |c| ==> c[i] == c[1..][i - 1];
      r
  }

  /** The first article decides the lookup when it carries the key. */
  lemma ArticleAtHead(c: seq<Article>, key: string)
    requires |c| > 0 && c[0].ean == key
    ensures ArticleAt(c, key) == Some(c[0])
  {
  }

  /** Otherwise the lookup continues with the rest of the catalog. */
  lemma ArticleAtSkip(c: seq<Article>, key: string)
    requires |c| > 0 && c[0].ean != key
    ensures ArticleAt(c, key) == ArticleAt(c[1..], key)
  {
  }

  /** `findArticleByEAN`: the lookup key is the trimmed code. */
  function FindArticleByEAN(c: seq<Article>, ean: string): (r: Option<Article>)
    ensures r.Some? ==> r.value in c && r.value.ean == Trim(ean)
    ensures r.None? <==> forall a :: a in c ==> a.ean != Trim(ean)
  {
    ArticleAt(c, Trim(ean))
  }

  /** Under the primary key, any article whose code is the trimmed key is the one found. */
  lemma FindArticleByEANUnique(c: seq<Article>, ean: string, a: Article)
    requires UniqueEans(c) && a in c && a.ean == Trim(ean)
    ensures FindArticleByEAN(c, ean) == Some(a)
  {
    var r := FindArticleByEAN(c, ean);
    var i :| 0 <= i < |c| && c[i] == r.value && c[i].ean == Trim(ean);
    var k :| 0 <= k < |c| && c[k] == a;
    if i != k {
      assert c[i].ean == c[k].ean;
    }
  }

  /** A catalog article whose code is already trimmed is found by its own code. */
  lemma FindOwnEan(c: seq<Article>, a: Article)
    requires UniqueEans(c) && a in c && IsTrimmed(a.ean)
    ensures FindArticleByEAN(c, a.ean) == Some(a)
  {
    TrimFixpoint(a.ean);
    FindArticleByEANUnique(c, a.ean, a);
  }

  /** `findArticleByPLU`: the first article whose internal code equals the trimmed PLU exactly. */
  function FindArticleByPLU(c: seq<Article>, plu: string): (r: Option<Article>)
    ensures r.None? <==> forall i :: 0 <= i < |c| ==> c[i].codigo != Trim(plu)
    ensures r.Some? ==> exists i :: 0 <= i < |c| && c[i] == r.value && c[i].codigo == Trim(plu)
                                    && forall j :: 0 <= j < i ==> c[j].codigo != Trim(plu)
  {
    FirstWithCodigo(c, Trim(plu))
  }

  function FirstWithCodigo(c: seq<Article>, key: string): (r: Option<Article>)
    ensures r.None? <==> forall i :: 0 <= i < |c| ==> c[i].codigo != key
    ensures r.Some? ==> exists i :: 0 <= i < |c| && c[i] == r.value && c[i].codigo == key
                                    && forall j :: 0 <= j < i ==> c[j].codigo != key
  {
    if |c| == 0 then None
    else if c[0].codigo == key then Some(c[0])
    else
      var r := FirstWithCodigo(c[1..], key);
      assert forall i :: 1 <= i < |c| ==> c[i] == c[1..][i - 1];
      r
  }

  /** The articles whose trimmed internal code is `cod`, in catalog order. */
  function WithTrimmedCodigo(c: seq<Article>, cod: string): (r: seq<Article>)
    ensures |r| <= |c|
    ensures forall a :: a in r <==> a in c && Trim(a.codigo) == cod
  {
    if |c| == 0 then []
    else
      var rest := WithTrimmedCodigo(c[1..], cod);
      assert forall a :: a in c <==> a == c[0] || a in c[1..];
      if Trim(c[0].codigo) == cod then [c[0]] + rest else rest
  }

  /**
   * `findArticlesByCodigo`: every article whose trimmed internal code equals the trimmed
   * argument; a blank argument yields no article at all.
   */
  function FindArticlesByCodigo(c: seq<Article>, codigo: string): (r: seq<Article>)
    ensures Trim(codigo) == "" ==> r == []
    ensures Trim(codigo) != "" ==> forall a :: a in r <==> a in c && Trim(a.codigo) == Trim(codigo)
  {
    var cod := Trim(codigo);
    if cod == "" then [] else WithTrimmedCodigo(c, cod)
  }

  /** Every article found by PLU is among the fan-out for the same code, when codes are stored trimmed. */
  lemma PluLookupInFanOut(c: seq<Article>, plu: string)
    requires FindArticleByPLU(c, plu).Some? && Trim(plu) != ""
    requires forall a :: a in c ==> IsTrimmed(a.codigo)
    ensures FindArticleByPLU(c, plu).value in FindArticlesByCodigo(c, plu)
  {
    var a := FindArticleByPLU(c, plu).value;
    TrimFixpoint(a.codigo);
  }
}
