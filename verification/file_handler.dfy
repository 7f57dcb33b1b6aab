/** Ingestion, parsing and validation: the pure parts of
    `read_sales_data`, `parse_transactions` and `validate_and_filter`. */
module FileHandler {
  import opened Wrappers
  import opened Text
  import opened Numbers
  import opened Seqs

  /** One parsed sales record. Python keeps it as a dict with these eight
      keys; UnitPrice is an exact decimal instead of a binary float. */
  datatype Transaction = Transaction(
    transactionId: string,
    date: string,
    productId: string,
    productName: string,
    quantity: int,
    unitPrice: Dec,
    customerId: string,
    region: string)

  /** `t["Quantity"] * t["UnitPrice"]`, recomputed wherever the source needs it. */
  function Amount(t: Transaction): real {
    t.quantity as real * Value(t.unitPrice)
  }

  // ---------------------------------------------------------------------
  // read_sales_data: cleaning the lines of the decoded file
  // ---------------------------------------------------------------------

  predicate IsBlank(line: string) {
    forall i :: 0 <= i < |line| ==> IsSpace(line[i])
  }

  /** The filter-and-strip of one line: `line.strip()` if that is non-empty. */
  function CleanLine(line: string): (r: Option<string>)
    ensures r.None? <==> IsBlank(line)
    ensures r.Some? ==> r.value != "" && NoEdgeSpace(r.value) && Strip(r.value) == r.value
  {
    StripEmptyIffBlank(line);
    var s := Strip(line);
    StripIdempotent(line);
    if s == "" then None else Some(s)
  }

  /** `[line.strip() for line in lines[1:] if line.strip()]`: the header line
      is dropped, every other line stripped, blank lines removed. */
  function CleanLines(lines: seq<string>): (r: seq<string>)
    ensures |lines| == 0 ==> r == []
    ensures |lines| > 0 ==> |r| <= |lines| - 1
    ensures forall i :: 0 <= i < |r| ==> r[i] != "" && Strip(r[i]) == r[i]
  {
    if |lines| == 0 then []
    else
      var r := FilterMap(lines[1..], CleanLine);
      FilterMapByIndex(lines[1..], CleanLine);
      r
  }

  /** The cleaned lines are, in order, the stripped forms of exactly the
      non-blank raw lines after the first: the k-th cleaned line comes from
      raw line `1 + KeptIndices(...)[k]`, and no non-blank line is lost. */
  lemma CleanLinesSelection(lines: seq<string>)
    requires |lines| > 0
    ensures var idx := KeptIndices(lines[1..], CleanLine);
            && |CleanLines(lines)| == |idx|
            && (forall k :: 0 <= k < |idx| ==>
                  1 + idx[k] < |lines| && CleanLines(lines)[k] == Strip(lines[1 + idx[k]]))
            && (forall i :: 1 <= i < |lines| && !IsBlank(lines[i]) ==> i - 1 in idx)
  {
    var idx := KeptIndices(lines[1..], CleanLine);
    FilterMapByIndex(lines[1..], CleanLine);
    forall i | 1 <= i < |lines| && !IsBlank(lines[i]) ensures i - 1 in idx {
      assert lines[1..][i - 1] == lines[i];
    }
  }

  // ---------------------------------------------------------------------
  // parse_transactions
  // ---------------------------------------------------------------------

  /** No text field contains the field separator. */
  predicate PipeFree(t: Transaction) {
    && '|' !in t.transactionId && '|' !in t.date && '|' !in t.productId
    && '|' !in t.productName && '|' !in t.customerId && '|' !in t.region
  }

  /** One line of `parse_transactions`: exactly eight `|`-separated fields;
      commas in the product name become spaces and the name is stripped;
      commas are deleted from quantity and price before `int()` and
      `float()`; a conversion failure drops the line. */
  function ParseLine(line: string): (r: Option<Transaction>)
    ensures Occurrences(line, '|') != 7 ==> r.None?
    ensures r.Some? ==> PipeFree(r.value)
    ensures r.Some? ==> ',' !in r.value.productName && NoEdgeSpace(r.value.productName)
    ensures r.Some? ==> IsNormal(r.value.unitPrice)
  {
    var parts := Split(line, '|');
    if |parts| != 8 then None
    else
      var qty := ParseInt(RemoveChar(parts[4], ','));
      var price := ParseDecimal(RemoveChar(parts[5], ','));
      if qty.None? || price.None? then None
      else
        var name := CleanName(parts[3]);
        Some(Transaction(parts[0], parts[1], parts[2], name, qty.value, price.value, parts[6], parts[7]))
  }

  /** Eight pipe-free fields joined by `|` whose quantity and price convert,
      once their commas are deleted, are read as the record of those fields
      with the name cleaned. */
  lemma ParseLineFields(fs: seq<string>, q: int, p: Dec)
    requires |fs| == 8 && forall i :: 0 <= i < 8 ==> '|' !in fs[i]
    requires ParseInt(RemoveChar(fs[4], ',')) == Some(q)
    requires ParseDecimal(RemoveChar(fs[5], ',')) == Some(p)
    ensures ParseLine(Join(fs, '|')) == Some(Transaction(fs[0], fs[1], fs[2], CleanName(fs[3]), q, p, fs[6], fs[7]))
  {
    SplitJoin(fs, '|');
  }

  /** Eight pipe-free fields joined by `|` whose quantity or price does not
      convert are dropped: the `except` around the conversions. */
  lemma ParseLineDrops(fs: seq<string>)
    requires |fs| == 8 && forall i :: 0 <= i < 8 ==> '|' !in fs[i]
    requires ParseInt(RemoveChar(fs[4], ',')).None? || ParseDecimal(RemoveChar(fs[5], ',')).None?
    ensures ParseLine(Join(fs, '|')) == None
  {
    SplitJoin(fs, '|');
  }

  /** The characters `pname.replace(",", " ").strip()` removes from the ends
      of a name: whitespace, and commas, which became spaces. */
  predicate SpaceOrComma(c: char) {
    IsSpace(c) || c == ','
  }

  /** `pname.replace(",", " ").strip()`: the name less its leading and
      trailing run of whitespace and commas, with every comma inside it
      turned into a space. */
  function CleanName(s: string): (r: string)
    ensures ',' !in r && NoEdgeSpace(r)
    ensures '|' !in s ==> '|' !in r
    ensures var a := LeadingSpaces(s, SpaceOrComma);
      && a + |r| <= |s|
      && (forall k :: 0 <= k < |r| ==> r[k] == (if s[a + k] == ',' then ' ' else s[a + k]))
      && (forall i :: 0 <= i < a ==> SpaceOrComma(s[i]))
      && (forall i :: a + |r| <= i < |s| ==> SpaceOrComma(s[i]))
  {
    var spaced := ReplaceChar(s, ',', ' ');
    StripSubset(spaced);
    assert '|' !in s ==> '|' !in spaced;
    StripSpacedMiddle(s);
    StripSpacedEnds(s);
    Strip(spaced)
  }

  /** Stripping the comma-to-space text keeps the middle of the original,
      its commas turned into spaces. */
  lemma StripSpacedMiddle(s: string)
    ensures var r, a := Strip(ReplaceChar(s, ',', ' ')), LeadingSpaces(s, SpaceOrComma);
      && a + |r| <= |s|
      && (forall k :: 0 <= k < |r| ==> r[k] == (if s[a + k] == ',' then ' ' else s[a + k]))
  {
    var spaced := ReplaceChar(s, ',', ' ');
    SpacedLead(s);
    SpacedAt(s);
    MiddleChars(s, spaced, Strip(spaced), LeadingSpaces(s, SpaceOrComma));
  }

  lemma SpacedAt(s: string)
    ensures |ReplaceChar(s, ',', ' ')| == |s|
    ensures forall i :: 0 <= i < |s| ==> ReplaceChar(s, ',', ' ')[i] == (if s[i] == ',' then ' ' else s[i])
  {
  }

  lemma MiddleChars(s: string, spaced: string, r: string, a: nat)
    requires |spaced| == |s| && a + |r| <= |s| && r == spaced[a..a + |r|]
    requires forall i :: 0 <= i < |s| ==> spaced[i] == (if s[i] == ',' then ' ' else s[i])
    ensures forall k :: 0 <= k < |r| ==> r[k] == (if s[a + k] == ',' then ' ' else s[a + k])
  {
    forall k | 0 <= k < |r| ensures r[k] == (if s[a + k] == ',' then ' ' else s[a + k]) {
      assert r[k] == spaced[a + k];
    }
  }

  /** What stripping the comma-to-space text removes is whitespace and
      commas of the original. */
  lemma StripSpacedEnds(s: string)
    ensures var r, a := Strip(ReplaceChar(s, ',', ' ')), LeadingSpaces(s, SpaceOrComma);
      && a + |r| <= |s|
      && (forall i :: 0 <= i < a ==> SpaceOrComma(s[i]))
      && (forall i :: a + |r| <= i < |s| ==> SpaceOrComma(s[i]))
  {
    var spaced := ReplaceChar(s, ',', ' ');
    var r := Strip(spaced);
    SpacedLead(s);
    var a := LeadingSpaces(s, SpaceOrComma);
    forall i | a + |r| <= i < |s| ensures SpaceOrComma(s[i]) {
      assert IsSpace(spaced[i]);
    }
  }

  /** The comma-to-space text starts with a run of whitespace exactly as
      long as the original's run of whitespace and commas. */
  lemma SpacedLead(s: string)
    ensures LeadingSpaces(ReplaceChar(s, ',', ' '), IsSpace) == LeadingSpaces(s, SpaceOrComma)
  {
    LeadingSpacesAgree(ReplaceChar(s, ',', ' '), IsSpace, s, SpaceOrComma);
  }

  /** `parse_transactions(lines)`: the parsed lines, bad ones silently
      dropped, the rest in input order. */
  function ParseTransactions(lines: seq<string>): (r: seq<Transaction>)
    ensures |r| <= |lines|
    ensures forall i :: 0 <= i < |r| ==>
              PipeFree(r[i]) && ',' !in r[i].productName && IsNormal(r[i].unitPrice)
  {
    FilterMapByIndex(lines, ParseLine);
    FilterMap(lines, ParseLine)
  }

  /** Parsing keeps, in order, exactly the lines `ParseLine` accepts: the
      k-th record is the parse of input line `KeptIndices(...)[k]`. */
  lemma ParseSelection(lines: seq<string>)
    ensures var idx := KeptIndices(lines, ParseLine);
            && |ParseTransactions(lines)| == |idx|
            && (forall k :: 0 <= k < |idx| ==> Some(ParseTransactions(lines)[k]) == ParseLine(lines[idx[k]]))
            && (forall i :: 0 <= i < |lines| && ParseLine(lines[i]).Some? ==> i in idx)
  {
    FilterMapByIndex(lines, ParseLine);
  }

  /** The line `save_enriched_data` writes for the transaction part of a
      record: the eight fields joined by `|`. */
  function FormatLine(t: Transaction): string {
    Join([t.transactionId, t.date, t.productId, t.productName,
          ShowInt(t.quantity), ShowDec(t.unitPrice), t.customerId, t.region], '|')
  }

  /** Parsing inverts formatting for every record parsing can produce: pipe-
      free fields, a comma-free stripped product name, a normal price. */
  lemma ParseFormatted(t: Transaction)
    requires PipeFree(t) && ',' !in t.productName && NoEdgeSpace(t.productName)
    requires IsNormal(t.unitPrice)
    ensures ParseLine(FormatLine(t)) == Some(t)
  {
    FormatSplits(t);
    QuantityReadsBack(t.quantity);
    PriceReadsBack(t.unitPrice);
    CleanNameFixed(t.productName);
  }

  /** A formatted record splits back into its eight fields. */
  lemma FormatSplits(t: Transaction)
    requires PipeFree(t)
    ensures Split(FormatLine(t), '|') == [t.transactionId, t.date, t.productId, t.productName,
                                          ShowInt(t.quantity), ShowDec(t.unitPrice), t.customerId, t.region]
  {
    ShowIntPlain(t.quantity);
    ShowDecPlain(t.unitPrice);
    SplitJoin([t.transactionId, t.date, t.productId, t.productName,
               ShowInt(t.quantity), ShowDec(t.unitPrice), t.customerId, t.region], '|');
  }

  lemma QuantityReadsBack(q: int)
    ensures ParseInt(RemoveChar(ShowInt(q), ',')) == Some(q)
  {
    ShowIntPlain(q);
    IntRoundTrip(q);
  }

  lemma PriceReadsBack(p: Dec)
    requires IsNormal(p)
    ensures ParseDecimal(RemoveChar(ShowDec(p), ',')) == Some(p)
  {
    ShowDecPlain(p);
    DecRoundTrip(p);
    NormalIsFixed(p);
  }

  lemma CleanNameFixed(s: string)
    requires ',' !in s && NoEdgeSpace(s)
    ensures CleanName(s) == s
  {
    assert ReplaceChar(s, ',', ' ') == s;
    StripByUnchanged(s, IsSpace);
  }

  /** `str(i)` has neither `|` nor `,`. */
  lemma ShowIntPlain(i: int)
    ensures '|' !in ShowInt(i) && ',' !in ShowInt(i)
  {
    var s := ShowInt(i);
    assert forall k :: 0 <= k < |s| ==> s[k] != '|' && s[k] != ',';
  }

  /** `str(x)` of a decimal has neither `|` nor `,`. */
  lemma ShowDecPlain(d: Dec)
    ensures '|' !in ShowDec(d) && ',' !in ShowDec(d)
  {
    var s := ShowDec(d);
    assert forall k :: 0 <= k < |s| ==> s[k] != '|' && s[k] != ',';
  }

  // ---------------------------------------------------------------------
  // validate_and_filter
  // ---------------------------------------------------------------------

  /** The validity rule: positive quantity and price, and the `T`, `P` and
      `C` prefixes on the three identifiers. */
  predicate IsValid(t: Transaction) {
    && t.quantity > 0
    && Value(t.unitPrice) > 0.0
    && StartsWith(t.transactionId, 'T')
    && StartsWith(t.productId, 'P')
    && StartsWith(t.customerId, 'C')
  }

  /** The optional filters. Python tests each with its truthiness, so `None`,
      the empty region and an amount of 0 all switch that filter off. */
  datatype Criteria = Criteria(region: Option<string>, minAmount: Option<real>, maxAmount: Option<real>)

  predicate RegionFilterOn(c: Criteria) { c.region.Some? && c.region.value != "" }
  predicate MinFilterOn(c: Criteria) { c.minAmount.Some? && c.minAmount.value != 0.0 }
  predicate MaxFilterOn(c: Criteria) { c.maxAmount.Some? && c.maxAmount.value != 0.0 }

  predicate PassesFilters(t: Transaction, c: Criteria) {
    && (RegionFilterOn(c) ==> t.region == c.region.value)
    && (MinFilterOn(c) ==> Amount(t) >= c.minAmount.value)
    && (MaxFilterOn(c) ==> Amount(t) <= c.maxAmount.value)
  }

  function Passes(c: Criteria): Transaction -> bool {
    t => PassesFilters(t, c)
  }

  /** With every filter switched off, a record is kept exactly when it is
      valid. */
  lemma {:induction false} NoActiveFilter(ts: seq<Transaction>, c: Criteria)
    requires !RegionFilterOn(c) && !MinFilterOn(c) && !MaxFilterOn(c)
    ensures Filter(ts, Retains(c)) == Filter(ts, IsValid)
  {
    if |ts| > 0 {
      NoActiveFilter(ts[..|ts| - 1], c);
    }
  }

  /** The records `validate_and_filter` keeps: valid ones passing every
      active filter. */
  function Retains(c: Criteria): Transaction -> bool {
    t => IsValid(t) && PassesFilters(t, c)
  }

  datatype Summary = Summary(totalInput: nat, invalid: nat, finalCount: nat)

  /** What `validate_and_filter` returns (`valid, invalid, summary`), plus
      the region set and the amount range it prints. */
  datatype Validated = Validated(
    valid: seq<Transaction>,
    invalid: nat,
    summary: Summary,
    regions: set<string>,
    lowestAmount: real,
    highestAmount: real)

  /** `min(amounts)` on an empty list raises before anything is validated. */
  datatype ValidationError = EmptyInput

  function LowestAmount(ts: seq<Transaction>): (m: real)
    requires |ts| > 0
    ensures exists i :: 0 <= i < |ts| && m == Amount(ts[i])
    ensures forall i :: 0 <= i < |ts| ==> m <= Amount(ts[i])
  {
    if |ts| == 1 then Amount(ts[0])
    else
      var m := LowestAmount(ts[1..]);
      assert forall i :: 1 <= i < |ts| ==> ts[1..][i - 1] == ts[i];
      if Amount(ts[0]) < m then Amount(ts[0]) else m
  }

  function HighestAmount(ts: seq<Transaction>): (m: real)
    requires |ts| > 0
    ensures exists i :: 0 <= i < |ts| && m == Amount(ts[i])
    ensures forall i :: 0 <= i < |ts| ==> Amount(ts[i]) <= m
  {
    if |ts| == 1 then Amount(ts[0])
    else
      var m := HighestAmount(ts[1..]);
      assert forall i :: 1 <= i < |ts| ==> ts[1..][i - 1] == ts[i];
      if Amount(ts[0]) > m then Amount(ts[0]) else m
  }

  /** `validate_and_filter(transactions, region, min_amount, max_amount)`.
      The kept records are, in input order, the valid ones passing the active
      filters; `invalid` counts only the records failing validity, so records
      removed by a filter are in neither count. */
  method ValidateAndFilter(ts: seq<Transaction>, c: Criteria) returns (r: Result<Validated, ValidationError>)
    ensures r.Failure? <==> |ts| == 0
    ensures r.Success? ==> r.value.valid == Filter(ts, Retains(c))
    ensures r.Success? ==> r.value.valid == Filter(Filter(ts, IsValid), Passes(c))
    ensures r.Success? ==> forall i :: 0 <= i < |r.value.valid| ==>
              IsValid(r.value.valid[i]) && PassesFilters(r.value.valid[i], c)
    ensures r.Success? ==> r.value.invalid == CountFailing(ts, IsValid)
    ensures r.Success? ==> r.value.invalid + |Filter(ts, IsValid)| == |ts|
    ensures r.Success? ==> r.value.summary == Summary(|ts|, r.value.invalid, |r.value.valid|)
    ensures r.Success? ==> r.value.regions == set i | 0 <= i < |ts| :: ts[i].region
    ensures r.Success? ==> r.value.lowestAmount == LowestAmount(ts)
    ensures r.Success? ==> r.value.highestAmount == HighestAmount(ts)
    ensures r.Success? ==> forall i :: 0 <= i < |ts| ==>
              r.value.lowestAmount <= Amount(ts[i]) <= r.value.highestAmount
  {
    if |ts| == 0 {
      return Failure(EmptyInput);
    }
    var regions := set i | 0 <= i < |ts| :: ts[i].region;
    var low, high := LowestAmount(ts), HighestAmount(ts);
    var valid, invalid := Screen(ts, c);
    FilterTwice(ts, IsValid, Passes(c), Retains(c));
    r := Success(Validated(valid, invalid, Summary(|ts|, invalid, |valid|), regions, low, high));
  }

  /** The single pass of `validate_and_filter`: a record failing validity
      is counted, one failing a filter is dropped silently, the rest are
      kept in order. */
  method Screen(ts: seq<Transaction>, c: Criteria) returns (valid: seq<Transaction>, invalid: nat)
    ensures valid == Filter(ts, Retains(c))
    ensures invalid == CountFailing(ts, IsValid)
  {
    valid, invalid := [], 0;
    var i := 0;
    while i < |ts|
      invariant 0 <= i <= |ts|
      invariant valid == Filter(ts[..i], Retains(c))
      invariant invalid == CountFailing(ts[..i], IsValid)
    {
      var t := ts[i];
      assert ts[..i + 1][..i] == ts[..i];
      if !IsValid(t) {
        invalid := invalid + 1;
      } else if !PassesFilters(t, c) {
      } else {
        valid := valid + [t];
      }
      i := i + 1;
    }
    assert ts[..i] == ts;
  }
}
