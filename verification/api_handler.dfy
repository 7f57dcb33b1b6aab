/** The catalog join: `create_product_mapping`, `extract_numeric_product_id`,
    `enrich_sales_data` and the rows `save_enriched_data` writes. */
module ApiHandler {
  import opened Wrappers
  import opened Text
  import opened Numbers
  import opened FileHandler

  /** One product of the catalog response; every field may be absent. */
  datatype Product = Product(
    id: Option<int>,
    title: Option<string>,
    category: Option<string>,
    brand: Option<string>,
    rating: Option<Dec>)

  /** A mapping entry: exactly title, category, brand and rating. */
  datatype ProductInfo = ProductInfo(
    title: Option<string>,
    category: Option<string>,
    brand: Option<string>,
    rating: Option<Dec>)

  function InfoOf(p: Product): ProductInfo {
    ProductInfo(p.title, p.category, p.brand, p.rating)
  }

  /** No later product carries the same id as the one at `i`. */
  predicate LastWithId(ps: seq<Product>, i: nat)
    requires i < |ps|
  {
    forall j :: i < j < |ps| ==> ps[j].id != ps[i].id
  }

  /** `create_product_mapping(api_products)`: products without an id are
      skipped; for a repeated id the last product wins. */
  function CreateProductMapping(ps: seq<Product>): (m: map<int, ProductInfo>)
    ensures forall id :: id in m <==> exists i :: 0 <= i < |ps| && ps[i].id == Some(id)
  {
    if |ps| == 0 then map[]
    else
      var ps' := ps[..|ps| - 1];
      var m := CreateProductMapping(ps');
      var p := ps[|ps| - 1];
      assert forall i :: 0 <= i < |ps'| ==> ps'[i] == ps[i];
      match p.id
      case None => m
      case Some(id) => m[id := InfoOf(p)]
  }

  /** For a repeated id the last product carrying it supplies the entry. */
  lemma {:induction false} MappingLastWins(ps: seq<Product>, i: nat)
    requires i < |ps| && ps[i].id.Some? && LastWithId(ps, i)
    ensures ps[i].id.value in CreateProductMapping(ps)
    ensures CreateProductMapping(ps)[ps[i].id.value] == InfoOf(ps[i])
  {
    var ps' := ps[..|ps| - 1];
    if i < |ps| - 1 {
      assert ps'[i] == ps[i];
      assert LastWithId(ps', i) by {
        forall j | i < j < |ps'| ensures ps'[j].id != ps'[i].id {
          assert ps'[j] == ps[j];
        }
      }
      MappingLastWins(ps', i);
      assert ps[|ps| - 1].id != ps[i].id;
    }
  }

  /** The first maximal run of ASCII digits in `s`, as `[start, end)`. */
  function FirstDigitRun(s: string): (run: Option<(nat, nat)>)
    ensures run.None? <==> forall i :: 0 <= i < |s| ==> !IsDigit(s[i])
    ensures run.Some? ==>
              && run.value.0 < run.value.1 <= |s|
              && (forall i :: 0 <= i < run.value.0 ==> !IsDigit(s[i]))
              && AllDigits(s[run.value.0..run.value.1])
              && (run.value.1 == |s| || !IsDigit(s[run.value.1]))
  {
    var start := NonDigits(s, 0);
    if start == |s| then None
    else
      var end := Digits(s, start);
      assert AllDigits(s[start..end]) by {
        forall k | 0 <= k < end - start ensures IsDigit(s[start..end][k]) {
          assert s[start..end][k] == s[start + k];
        }
      }
      Some((start, end))
  }

  /** Where the run of non-digits starting at `i` ends. */
  function NonDigits(s: string, i: nat): (j: nat)
    requires i <= |s|
    ensures i <= j <= |s|
    ensures forall k :: i <= k < j ==> !IsDigit(s[k])
    ensures j < |s| ==> IsDigit(s[j])
    decreases |s| - i
  {
    if i == |s| || IsDigit(s[i]) then i else NonDigits(s, i + 1)
  }

  /** Where the run of digits starting at `i` ends. */
  function Digits(s: string, i: nat): (j: nat)
    requires i <= |s|
    ensures i <= j <= |s|
    ensures forall k :: i <= k < j ==> IsDigit(s[k])
    ensures j < |s| ==> !IsDigit(s[j])
    decreases |s| - i
  {
    if i == |s| || !IsDigit(s[i]) then i else Digits(s, i + 1)
  }

  /** `extract_numeric_product_id(pid)`: `int` of the first run of digits
      (`re.search(r"\d+", ...)`), None when there is no digit. */
  function ExtractNumericId(pid: string): (r: Option<nat>)
    ensures r.None? <==> forall i :: 0 <= i < |pid| ==> !IsDigit(pid[i])
    ensures r.Some? ==> match FirstDigitRun(pid)
              case None => false
              case Some((i, j)) => r.value == DigitsValue(pid[i..j])
  {
    match FirstDigitRun(pid)
    case None => None
    case Some((i, j)) => Some(DigitsValue(pid[i..j]))
  }

  /** The documented example `P101 -> 101`, and an id with no digit. */
  lemma ExtractExamples()
    ensures ExtractNumericId("P101") == Some(101)
    ensures ExtractNumericId("XYZ") == None
  {
    assert !IsDigit('P') && IsDigit('1') && IsDigit('0');
    assert NonDigits("P101", 0) == 1;
    assert Digits("P101", 1) == 4;
    assert "P101"[1..4] == "101";
    assert DigitsValue("101") == 101 by {
      assert "101"[..2] == "10";
      assert "10"[..1] == "1";
    }
  }

  /** A record of `enrich_sales_data`: the copied transaction and the four
      added keys. */
  datatype Enriched = Enriched(
    tx: Transaction,
    apiCategory: Option<string>,
    apiBrand: Option<string>,
    apiRating: Option<Dec>,
    apiMatch: bool)

  /** The join condition, including the truthiness test that makes an
      extracted id of 0 never match. */
  predicate Matches(t: Transaction, m: map<int, ProductInfo>) {
    var id := ExtractNumericId(t.productId);
    id.Some? && id.value != 0 && id.value in m
  }

  /** One iteration of `enrich_sales_data`. */
  function EnrichOne(t: Transaction, m: map<int, ProductInfo>): (e: Enriched)
    ensures e.tx == t
    ensures e.apiMatch <==> Matches(t, m)
    ensures e.apiMatch ==> var info := m[ExtractNumericId(t.productId).value];
              e.apiCategory == info.category && e.apiBrand == info.brand && e.apiRating == info.rating
    ensures !e.apiMatch ==> e.apiCategory.None? && e.apiBrand.None? && e.apiRating.None?
  {
    var id := ExtractNumericId(t.productId);
    if id.Some? && id.value != 0 && id.value in m then
      var info := m[id.value];
      Enriched(t, info.category, info.brand, info.rating, true)
    else Enriched(t, None, None, None, false)
  }

  /** `enrich_sales_data(transactions, product_mapping)`: a left outer join,
      one output per input in the same order, each keeping its transaction. */
  function EnrichSalesData(ts: seq<Transaction>, m: map<int, ProductInfo>): (es: seq<Enriched>)
    ensures |es| == |ts|
    ensures forall i :: 0 <= i < |ts| ==> es[i].tx == ts[i]
    ensures forall i :: 0 <= i < |ts| ==> (es[i].apiMatch <==> Matches(ts[i], m))
    ensures forall i :: 0 <= i < |ts| && Matches(ts[i], m) ==>
              var info := m[ExtractNumericId(ts[i].productId).value];
              es[i].apiCategory == info.category && es[i].apiBrand == info.brand && es[i].apiRating == info.rating
    ensures forall i :: 0 <= i < |ts| && !es[i].apiMatch ==>
              es[i].apiCategory.None? && es[i].apiBrand.None? && es[i].apiRating.None?
  {
    seq(|ts|, i requires 0 <= i < |ts| => EnrichOne(ts[i], m))
  }

  /** A product id whose digits spell 0 (`P0`, `P000`) never matches, even
      when the catalog has a product with id 0. */
  lemma ZeroIdNeverMatches(t: Transaction, m: map<int, ProductInfo>)
    requires ExtractNumericId(t.productId) == Some(0)
    ensures !EnrichOne(t, m).apiMatch
  {
  }

  /** A product id without digits never matches, whatever the catalog. */
  lemma NoDigitsNeverMatches(t: Transaction, m: map<int, ProductInfo>)
    requires forall i :: 0 <= i < |t.productId| ==> !IsDigit(t.productId[i])
    ensures !EnrichOne(t, m).apiMatch
  {
  }

  /** With an empty catalog (the fetch failed) nothing matches. */
  lemma EmptyCatalogMatchesNothing(ts: seq<Transaction>)
    ensures forall i :: 0 <= i < |ts| ==> !EnrichSalesData(ts, map[])[i].apiMatch
  {
  }

  // ---------------------------------------------------------------------
  // save_enriched_data: header and rows
  // ---------------------------------------------------------------------

  /** A dict value as `str()` sees it. */
  datatype Cell = Text(s: string) | Whole(i: int) | Decimal(d: Dec) | Flag(b: bool)

  /** The keys an enriched record holds. */
  datatype Key =
    | TransactionIdKey | DateKey | ProductIdKey | ProductNameKey
    | QuantityKey | UnitPriceKey | CustomerIdKey | RegionKey
    | ApiCategoryKey | ApiBrandKey | ApiRatingKey | ApiMatchKey

  /** The dict key string of each key. */
  function KeyName(k: Key): (name: string)
    ensures |name| > 0 && '|' !in name
  {
    match k
    case TransactionIdKey => "TransactionID"
    case DateKey => "Date"
    case ProductIdKey => "ProductID"
    case ProductNameKey => "ProductName"
    case QuantityKey => "Quantity"
    case UnitPriceKey => "UnitPrice"
    case CustomerIdKey => "CustomerID"
    case RegionKey => "Region"
    case ApiCategoryKey => "API_Category"
    case ApiBrandKey => "API_Brand"
    case ApiRatingKey => "API_Rating"
    case ApiMatchKey => "API_Match"
  }

  /** The keys of an enriched record in insertion order: the eight parsed
      keys, then the four `update` adds. */
  const RecordKeys: seq<Key> := [
    TransactionIdKey, DateKey, ProductIdKey, ProductNameKey, QuantityKey, UnitPriceKey,
    CustomerIdKey, RegionKey, ApiCategoryKey, ApiBrandKey, ApiRatingKey, ApiMatchKey]

  /** `list(tx.keys())`: every enriched record has the same twelve keys,
      each once. */
  function KeysOf(e: Enriched): (ks: seq<Key>)
    ensures |ks| == 12
    ensures forall i, j :: 0 <= i < j < |ks| ==> KeyName(ks[i]) != KeyName(ks[j])
    ensures Names(ks) == ["TransactionID", "Date", "ProductID", "ProductName", "Quantity", "UnitPrice",
                          "CustomerID", "Region", "API_Category", "API_Brand", "API_Rating", "API_Match"]
  {
    RecordNames();
    RecordKeys
  }

  lemma RecordNames()
    ensures Names(RecordKeys) == ["TransactionID", "Date", "ProductID", "ProductName", "Quantity", "UnitPrice",
                                  "CustomerID", "Region", "API_Category", "API_Brand", "API_Rating", "API_Match"]
  {
  }

  /** The header strings of a key list. */
  function Names(ks: seq<Key>): (names: seq<string>)
    ensures |names| == |ks|
    ensures forall i :: 0 <= i < |ks| ==> names[i] == KeyName(ks[i])
  {
    seq(|ks|, i requires 0 <= i < |ks| => KeyName(ks[i]))
  }

  function OptText(s: Option<string>): Option<Cell> {
    match s
    case None => None
    case Some(v) => Some(Text(v))
  }

  /** `tx.get(h)`: None for a stored None. Every record holds every key,
      so the missing-key case of `get` does not arise. */
  function Get(e: Enriched, h: Key): Option<Cell> {
    match h
    case TransactionIdKey => Some(Text(e.tx.transactionId))
    case DateKey => Some(Text(e.tx.date))
    case ProductIdKey => Some(Text(e.tx.productId))
    case ProductNameKey => Some(Text(e.tx.productName))
    case QuantityKey => Some(Whole(e.tx.quantity))
    case UnitPriceKey => Some(Decimal(e.tx.unitPrice))
    case CustomerIdKey => Some(Text(e.tx.customerId))
    case RegionKey => Some(Text(e.tx.region))
    case ApiCategoryKey => OptText(e.apiCategory)
    case ApiBrandKey => OptText(e.apiBrand)
    case ApiRatingKey => if e.apiRating.Some? then Some(Decimal(e.apiRating.value)) else None
    case ApiMatchKey => Some(Flag(e.apiMatch))
  }

  /** `str(value)`. */
  function ShowCell(c: Cell): string {
    match c
    case Text(s) => s
    case Whole(i) => ShowInt(i)
    case Decimal(d) => ShowDec(d)
    case Flag(b) => if b then "True" else "False"
  }

  /** `"" if value is None else str(value)`. */
  function CellText(v: Option<Cell>): (s: string)
    ensures v.None? ==> s == ""
  {
    match v
    case None => ""
    case Some(c) => ShowCell(c)
  }

  /** The cells of one row, one per header, in header order. */
  function RowCells(headers: seq<Key>, e: Enriched): (cells: seq<string>)
    ensures |cells| == |headers|
    ensures forall k :: 0 <= k < |headers| && Get(e, headers[k]).None? ==> cells[k] == ""
    ensures forall k :: 0 <= k < |headers| && Get(e, headers[k]).Some? ==> cells[k] == ShowCell(Get(e, headers[k]).value)
  {
    seq(|headers|, k requires 0 <= k < |headers| => CellText(Get(e, headers[k])))
  }

  /** The lines `save_enriched_data` writes (each followed by a newline):
      nothing for an empty input, else the first record's keys joined by `|`
      and then one row per record. */
  function EnrichedFileLines(es: seq<Enriched>): (lines: seq<string>)
    ensures |es| == 0 ==> lines == []
    ensures |es| > 0 ==> |lines| == |es| + 1
    ensures |es| > 0 ==> Split(lines[0], '|') == Names(KeysOf(es[0]))
  {
    if |es| == 0 then []
    else
      var headers := KeysOf(es[0]);
      SplitJoin(Names(headers), '|');
      [Join(Names(headers), '|')] + seq(|es|, i requires 0 <= i < |es| => Join(RowCells(headers, es[i]), '|'))
  }

  /** Line `i + 1` of the saved file is record `i`'s row: when the record's
      values are pipe-free it splits back into that record's cells, and its
      first eight cells parse back to the record's transaction. */
  lemma SavedRowReadsBack(es: seq<Enriched>, i: nat)
    requires i < |es| && EnrichedPipeFree(es[i])
    requires ',' !in es[i].tx.productName && NoEdgeSpace(es[i].tx.productName)
    requires IsNormal(es[i].tx.unitPrice)
    ensures Split(EnrichedFileLines(es)[i + 1], '|') == RowCells(RecordKeys, es[i])
    ensures ParseLine(Join(Split(EnrichedFileLines(es)[i + 1], '|')[..8], '|')) == Some(es[i].tx)
  {
    assert EnrichedFileLines(es)[i + 1] == Join(RowCells(RecordKeys, es[i]), '|');
    RowSplits(es[i]);
    RowRestoresTransaction(es[i]);
  }

  /** No text value of the record contains the delimiter. */
  predicate EnrichedPipeFree(e: Enriched) {
    && PipeFree(e.tx)
    && (e.apiCategory.Some? ==> '|' !in e.apiCategory.value)
    && (e.apiBrand.Some? ==> '|' !in e.apiBrand.value)
  }

  /** When no value contains `|`, a written row splits back into exactly
      its twelve cells; the first eight are the line `parse_transactions`
      reads, and the last says whether the record matched. */
  lemma RowSplits(e: Enriched)
    requires EnrichedPipeFree(e)
    ensures var cells := RowCells(RecordKeys, e);
      && Split(Join(cells, '|'), '|') == cells
      && Join(cells[..8], '|') == FormatLine(e.tx)
      && (cells[11] == "True" <==> e.apiMatch)
      && (cells[10] == "" <==> e.apiRating.None?)
  {
    RowPipeFree(e);
    SplitJoin(RowCells(RecordKeys, e), '|');
    TransactionCells(e);
    CatalogCells(e);
    if e.apiRating.Some? {
      ShowDecNonEmpty(e.apiRating.value);
    }
  }

  /** The first eight cells are `str()` of the parsed fields. */
  lemma TransactionCells(e: Enriched)
    ensures RowCells(RecordKeys, e)[..8] ==
      [e.tx.transactionId, e.tx.date, e.tx.productId, e.tx.productName,
       ShowInt(e.tx.quantity), ShowDec(e.tx.unitPrice), e.tx.customerId, e.tx.region]
  {
  }

  /** The last four cells: category, brand, rating (empty when absent) and
      the match flag. */
  lemma CatalogCells(e: Enriched)
    ensures var cells := RowCells(RecordKeys, e);
      && cells[8] == CellText(OptText(e.apiCategory))
      && cells[9] == CellText(OptText(e.apiBrand))
      && cells[10] == (if e.apiRating.Some? then ShowDec(e.apiRating.value) else "")
      && cells[11] == (if e.apiMatch then "True" else "False")
  {
  }

  /** No cell of a pipe-free record contains `|`. */
  lemma RowPipeFree(e: Enriched)
    requires EnrichedPipeFree(e)
    ensures forall k :: 0 <= k < 12 ==> '|' !in RowCells(RecordKeys, e)[k]
  {
    forall k | 0 <= k < 12 ensures '|' !in RowCells(RecordKeys, e)[k] {
      CellPipeFree(e, RecordKeys[k]);
    }
  }

  lemma CellPipeFree(e: Enriched, h: Key)
    requires EnrichedPipeFree(e)
    ensures '|' !in CellText(Get(e, h))
  {
    match h
    case QuantityKey => ShowIntPlain(e.tx.quantity);
    case UnitPriceKey => ShowDecPlain(e.tx.unitPrice);
    case ApiRatingKey => if e.apiRating.Some? { ShowDecPlain(e.apiRating.value); }
    case _ =>
  }

  /** `str()` of a number is never empty, so a present rating is never
      confused with an absent one. */
  lemma ShowDecNonEmpty(d: Dec)
    ensures |ShowDec(d)| > 0
  {
  }

  /** A row of the enriched file still parses, by `parse_transactions`'s
      rules, to the transaction it was made from. */
  lemma RowRestoresTransaction(e: Enriched)
    requires EnrichedPipeFree(e)
    requires ',' !in e.tx.productName && NoEdgeSpace(e.tx.productName)
    requires IsNormal(e.tx.unitPrice)
    ensures ParseLine(Join(RowCells(RecordKeys, e)[..8], '|')) == Some(e.tx)
  {
    RowSplits(e);
    ParseFormatted(e.tx);
  }
}
