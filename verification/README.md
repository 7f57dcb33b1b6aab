# Sales analytics pipeline — Dafny model

This project models the data pipeline of a small sales-analytics tool. The
tool reads a pipe-delimited sales file, parses and validates the
transactions, joins them with a product catalog fetched from a web API, and
writes a summary report. The model covers the three pure stages of that
pipeline:

- **Ingestion** (`utils/file_handler.py`). Line cleaning in
  `read_sales_data`, then `parse_transactions` and `validate_and_filter`.
- **Catalog join** (`utils/api_handler.py`). `create_product_mapping`,
  `extract_numeric_product_id`, `enrich_sales_data`, and the header and rows
  that `save_enriched_data` writes.
- **Report aggregation** (`utils/data_processor.py`). The figures
  `generate_sales_report` computes:
  - totals, the average and the date range;
  - region, product, customer and daily groups;
  - the region table ordered by revenue, with percentages;
  - the top-5 product and customer lists;
  - the daily trend and the peak day;
  - the enrichment summary.

Modules, one per file:

| module | file | contents |
|---|---|---|
| `Wrappers` | wrappers.dfy | `Option` and `Result` |
| `Text` | text.dfy | stripping by any whitespace class (Python's `strip` and the narrower one `int()` and `float()` skip), `split`, `join`, `replace`, `startswith` and string `<` |
| `Numbers` | numbers.dfy | `int(text)`, `float(text)` and `str()` of numbers, on exact decimals |
| `Seqs` | seqs.dfy | comprehensions (`FilterMap`, `Filter`) and `Sum` |
| `Sorting` | sorting.dfy | insertion sort by a strict order, with its correctness |
| `Grouping` | grouping.dfy | `defaultdict` accumulation as an insertion-ordered dict, and the partition law |
| `Ranking` | ranking.dfy | `sorted(items, key=..., reverse=True)[:n]` |
| `FileHandler` | file_handler.dfy | ingestion |
| `ApiHandler` | api_handler.dfy | catalog join and the enriched-file rows |
| `DataProcessor` | data_processor.dfy | report figures |

Modelling choices:

- A transaction is a datatype with the eight parsed keys.
- Unit prices and ratings are exact decimals `Dec(units, exp)`, whose value
  is `units / 10^exp`. Amounts and revenues are `real`.
- A Python dict built with `defaultdict` is a `Group`. It holds a key
  sequence in first-appearance order plus a map. That order is what
  determines `max`'s tie-break and the stable sort's tie-break.
- `sorted(..., key=k, reverse=True)` is stable. So it equals sorting by the
  strict order "higher `k` first, earlier dict position on ties". The model
  sorts by that order.
- The two places where the source raises become an explicit error result:
  - `min()` of an empty list in `validate_and_filter`;
  - `max()` of an empty dict in `generate_sales_report`.

## Model

| member | source | states |
|---|---|---|
| Text.Strip | utils/file_handler.py:14 | the result has no whitespace at either end; it is the slice of the input that starts after the leading whitespace; everything removed is whitespace |
| Text.StripEmptyIffBlank | utils/file_handler.py:16 | a line strips to the empty string exactly when every character is whitespace |
| Text.StripIdempotent | utils/file_handler.py:14 | stripping twice is the same as stripping once |
| Text.Split | utils/file_handler.py:31 | `split("\|")` yields one more piece than there are separators; no piece contains the separator; joining the pieces gives back the line |
| Text.SplitJoin | utils/file_handler.py:31 | splitting the join of separator-free pieces gives the pieces back |
| Text.ReplaceChar | utils/file_handler.py:37 | the length is unchanged; every comma becomes a space; nothing else changes |
| Text.RemoveChar | utils/file_handler.py:38-39 | no comma is left; the length drops by the number of commas; a comma-free text is unchanged |
| Text.RemoveCharAppend | utils/file_handler.py:38-39 | removing from a concatenation is removing from each part and concatenating, so the kept characters stay in order |
| Text.RemoveCharSingle | utils/file_handler.py:38-39 | a single character is dropped exactly when it is the removed one, and kept otherwise |
| Text.StrLtTransitive | utils/data_processor.py:17 | string order is transitive |
| Text.StrLtTotal | utils/data_processor.py:17 | any two different strings are ordered one way or the other |
| Text.StrLtIrreflexive | utils/data_processor.py:17 | no string precedes itself |
| Numbers.ShowNat | utils/api_handler.py:119 | `str(n)` is a non-empty digit string without a leading zero whose value is `n` |
| Numbers.IntRoundTrip | utils/file_handler.py:47 | `int(str(i)) == i` for every integer |
| Numbers.NumberText | utils/file_handler.py:47-48 | the text `int()` and `float()` read is the input less the whitespace they skip at both ends: Python's whitespace except the separators U+001C to U+001F |
| Numbers.ParseInt | utils/file_handler.py:47 | a text that is blank by that whitespace is rejected; a negative result comes from a text starting with `-` once that whitespace is skipped |
| Numbers.ParseIntValue | utils/file_handler.py:47 | `int()` accepts a text exactly when, once number whitespace is skipped, it is one or more digits with at most one leading `+` or `-`; the value is the digits' value, negated after `-`, so leading zeros are allowed |
| Numbers.LeadingZeros | utils/file_handler.py:47 | `int("007")` is 7 |
| Numbers.PlusSign | utils/file_handler.py:47 | `int("+5")` is 5 |
| Numbers.NotAnInteger | utils/file_handler.py:47 | `int("abc")` fails |
| Numbers.ParsedIntHasNoSeparator | utils/file_handler.py:47 | a text that parses as an integer holds none of U+001C to U+001F |
| Numbers.SeparatorNotSkipped | utils/file_handler.py:47-48 | a leading U+001F makes both `int()` and `float()` fail |
| Numbers.SpaceSkipped | utils/file_handler.py:47 | surrounding spaces and newlines are skipped: `" 5\n"` reads as 5 |
| Numbers.ParseDecimal | utils/file_handler.py:48 | a text that is blank by number whitespace is rejected; every result is in normal form; a negative result comes from a text starting with `-` |
| Numbers.ParseDecimalAccepts | utils/file_handler.py:48 | `float()` accepts a text exactly when, once number whitespace is skipped, it is an optional sign followed by digits with at most one `.` and at least one digit |
| Numbers.ParseDecimalPoint | utils/file_handler.py:48 | `w.f`, `+w.f` and `-w.f` read as the decimal whose value is `w + f / 10^len(f)`, negated after `-`; either part may be empty and trailing fraction zeros are allowed |
| Numbers.ParseDecimalWhole | utils/file_handler.py:48 | a digit string without a point, with or without a sign, reads as its integer value |
| Numbers.PointValueMeaning | utils/file_handler.py:48 | the decimal read from `w.f` has the value `w + f / 10^len(f)` |
| Numbers.TrailingZero | utils/file_handler.py:48 | `float("10.50")` is 10.5 |
| Numbers.NoPoint | utils/file_handler.py:48 | `float("10")` is 10 |
| Numbers.EmptyWhole | utils/file_handler.py:48 | `float(".5")` is 0.5 |
| Numbers.EmptyFraction | utils/file_handler.py:48 | `float("5.")` is 5 |
| Numbers.NotANumber | utils/file_handler.py:48 | `float("abc")` fails |
| Numbers.Normalize | utils/file_handler.py:48 | the result is normal, uses no more fraction digits, and keeps the sign |
| Numbers.NormalizeValue | utils/file_handler.py:48 | normalising keeps the number's value |
| Numbers.NormalizeUnique | utils/file_handler.py:48 | decimals of equal value normalise to the same decimal, so a parsed price is determined by its value |
| Numbers.NormalCrossEqual | utils/file_handler.py:48 | two normal decimals of equal value are identical |
| Numbers.DecRoundTrip | utils/file_handler.py:48 | `float(str(x))` gives back `x` in normal form |
| Numbers.ShowDec | utils/api_handler.py:119 | `str(x)` has no whitespace at either end and only digits, `.` and `-` |
| Seqs.FilterMapByIndex | utils/file_handler.py:13-17 | a comprehension's output is, in order, the images of exactly the kept input elements |
| Seqs.FilterTwice | utils/file_handler.py:67-86 | filtering by validity and then by the filters is filtering by both at once |
| Seqs.CountFailing | utils/file_handler.py:75 | the failures plus the kept elements are all the elements |
| Seqs.FilterCountsIndices | utils/data_processor.py:65 | the number of kept elements is the number of positions whose element passes |
| Sorting.InsertionSort | utils/data_processor.py:34-38 | sorting returns a permutation of its input |
| Sorting.SortSorted | utils/data_processor.py:34-38 | with a strict order that is total and transitive on distinct elements, every element of the result precedes every later one |
| Grouping.Keys | utils/data_processor.py:22-26 | dict keys in insertion order: distinct, and every record's key is present |
| Grouping.KeysFirstAppearance | utils/data_processor.py:22-26 | keys are in first-appearance order: for a key listed before another, some record with the earlier key comes before every record with the later key |
| Grouping.KeysOfRecords | utils/data_processor.py:22-26 | a key is present exactly when some record has it |
| Grouping.Accumulate | utils/data_processor.py:22-26 | the accumulated dict has a value for exactly its ordered keys, which are the keys in first-appearance order |
| Grouping.AccumulateMeaning | utils/data_processor.py:22-26 | each key's value is the fold of that key's records, in input order |
| Grouping.Partition | utils/data_processor.py:22-26 | summing each key's group total over all keys gives the total over all records |
| Grouping.SumEntries | utils/data_processor.py:22-26 | summing the groups' totals over the dict items gives the total over the records |
| Ranking.Ranked | utils/data_processor.py:90 | `sorted(items, key, reverse=True)` is a permutation of the items in which each precedes every item it outranks |
| Ranking.RankedDescending | utils/data_processor.py:90 | along a ranking the key never increases, and equal keys keep dict order |
| Ranking.Top | utils/data_processor.py:34-38 | `[:n]` keeps `min(n, len)` items, still ranked, all from the dict |
| Ranking.TopOutranksRest | utils/data_processor.py:34-38 | every item cut from the top `n` is outranked by every item kept |
| FileHandler.CleanLine | utils/file_handler.py:14-16 | a line is dropped exactly when it is blank; a kept line is non-empty and stripped |
| FileHandler.CleanLines | utils/file_handler.py:13-17 | no lines give no lines; there are at most as many cleaned lines as raw lines after the first; each cleaned line is non-empty and stripped |
| FileHandler.CleanLinesSelection | utils/file_handler.py:13-17 | the cleaned lines are, in order, the stripped forms of exactly the non-blank raw lines after the first |
| FileHandler.ParseLine | utils/file_handler.py:31-55 | a line without exactly eight fields gives nothing; a parsed record has pipe-free fields, a comma-free stripped name and a normal price |
| FileHandler.ParseLineFields | utils/file_handler.py:31-52 | eight pipe-free fields whose quantity and price read as numbers once commas are removed parse to the record of those fields: id, date, product id, customer and region as written, the cleaned name, and the two numbers |
| FileHandler.ParseLineDrops | utils/file_handler.py:31-54 | eight pipe-free fields whose quantity or price does not read as a number once commas are removed give nothing |
| FileHandler.CleanName | utils/file_handler.py:37-46 | the name is the input with its leading and trailing run of whitespace and commas removed, every remaining comma turned into a space and every other character kept; it has no comma and no edge whitespace |
| FileHandler.ParseTransactions | utils/file_handler.py:28-55 | the output is no longer than the input, and every record has the properties above |
| FileHandler.ParseSelection | utils/file_handler.py:28-55 | the output is, in order, the parses of exactly the lines that parse |
| FileHandler.ParseFormatted | utils/file_handler.py:31-55 | a record written back as its eight `\|`-joined fields parses to the same record |
| FileHandler.NoActiveFilter | utils/file_handler.py:79-84 | with no active filter, exactly the valid records are kept |
| FileHandler.LowestAmount | utils/file_handler.py:63-65 | `min(amounts)` is one of the amounts and no amount is smaller |
| FileHandler.HighestAmount | utils/file_handler.py:63-65 | `max(amounts)` is one of the amounts and no amount is larger |
| FileHandler.Screen | utils/file_handler.py:67-86 | the loop keeps, in order, exactly the valid records that pass the active filters, and counts exactly the records that fail validity |
| FileHandler.ValidateAndFilter | utils/file_handler.py:58-94 | see the list below the table |
| ApiHandler.CreateProductMapping | utils/api_handler.py:28-48 | the mapping's keys are exactly the ids that are present |
| ApiHandler.MappingLastWins | utils/api_handler.py:35-46 | for a repeated id, the entry comes from the last product with that id |
| ApiHandler.FirstDigitRun | utils/api_handler.py:59 | finds the first maximal run of digits: no digit before it, all digits inside it, a non-digit or the end after it; nothing exactly when there is no digit |
| ApiHandler.ExtractNumericId | utils/api_handler.py:54-60 | the value of the first run of digits; None exactly when there is no digit |
| ApiHandler.ExtractExamples | utils/api_handler.py:57 | `P101` gives 101; `XYZ` gives None |
| ApiHandler.EnrichOne | utils/api_handler.py:72-93 | the transaction is kept; a match happens exactly when the id is present, non-zero and in the mapping; a match copies the entry's category, brand and rating; otherwise all three are None |
| ApiHandler.EnrichSalesData | utils/api_handler.py:66-95 | one output per input, same order, each keeping its transaction, matched and filled as above |
| ApiHandler.ZeroIdNeverMatches | utils/api_handler.py:76 | an id whose digits spell 0 never matches |
| ApiHandler.NoDigitsNeverMatches | utils/api_handler.py:74-76 | an id without digits never matches |
| ApiHandler.EmptyCatalogMatchesNothing | utils/api_handler.py:76 | with an empty catalog nothing matches |
| ApiHandler.KeysOf | utils/api_handler.py:73-91 | every enriched record has twelve distinct keys, named in order TransactionID, Date, ProductID, ProductName, Quantity, UnitPrice, CustomerID, Region, then API_Category, API_Brand, API_Rating, API_Match as `update` adds them |
| ApiHandler.RowCells | utils/api_handler.py:116-119 | one cell per header, in header order: a missing or None value is the empty string, any other value is its `str()` |
| ApiHandler.EnrichedFileLines | utils/api_handler.py:105-120 | an empty input writes nothing; otherwise a header that splits back into the first record's keys, then one row per record |
| ApiHandler.SavedRowReadsBack | utils/api_handler.py:105-120 | line `i + 1` of the written file splits back into record `i`'s cells, and its first eight cells parse back to record `i`'s transaction |
| ApiHandler.RowSplits | utils/api_handler.py:113-120 | a row with pipe-free values splits back into its cells; its first eight cells are the record's transaction line; the last cell is `True` exactly on a match; the rating cell is empty exactly when there is no rating |
| ApiHandler.RowRestoresTransaction | utils/api_handler.py:115-120 | the first eight cells of a row parse back, by `parse_transactions`'s rules, to the original transaction |
| DataProcessor.AverageOrderValue | utils/data_processor.py:15 | zero for no transactions; otherwise average × count equals the total revenue |
| DataProcessor.EarliestDate | utils/data_processor.py:17-18 | a date of the input that no date precedes |
| DataProcessor.LatestDate | utils/data_processor.py:17-19 | a date of the input that precedes no date |
| DataProcessor.StartDate | utils/data_processor.py:17-18 | "N/A" for no transactions; otherwise a date of the input that no date precedes |
| DataProcessor.EndDate | utils/data_processor.py:17-19 | "N/A" for no transactions; otherwise a date of the input that precedes no date |
| DataProcessor.DateRangeOrdered | utils/data_processor.py:17-19 | the end date never precedes the start date |
| DataProcessor.RegionStatsMeaning | utils/data_processor.py:22-26 | a region's entry is the revenue and the number of that region's transactions |
| DataProcessor.ProductStatsMeaning | utils/data_processor.py:29-32 | a product's entry is the units and the revenue of the transactions with that name |
| DataProcessor.CustomerStatsMeaning | utils/data_processor.py:41-45 | a customer's entry is what they spent and how many orders they placed |
| DataProcessor.DailyStatsMeaning | utils/data_processor.py:54-60 | a date's entry is that day's revenue, its number of transactions and its set of customers, which is no larger than the count |
| DataProcessor.DayFold | utils/data_processor.py:54-59 | folding a day's sales gives its revenue and its number of sales |
| DataProcessor.DayCustomers | utils/data_processor.py:54-59 | a day's customer set holds exactly the customer ids of that day's sales |
| DataProcessor.DayCustomerCount | utils/data_processor.py:54-59 | a day has no more distinct customers than sales |
| DataProcessor.RegionRevenuePartition | utils/data_processor.py:22-26 | region revenues add up to the total revenue |
| DataProcessor.RegionCountPartition | utils/data_processor.py:22-26 | region counts add up to the number of transactions |
| DataProcessor.ProductsPartitionTotals | utils/data_processor.py:29-32 | product revenues add up to the total revenue, and product units to the units sold |
| DataProcessor.CustomerRevenuePartition | utils/data_processor.py:41-45 | customer spending adds up to the total revenue |
| DataProcessor.CustomerCountPartition | utils/data_processor.py:41-45 | customer order counts add up to the number of transactions |
| DataProcessor.DayRevenuePartition | utils/data_processor.py:54-59 | daily revenues add up to the total revenue |
| DataProcessor.DayCountPartition | utils/data_processor.py:54-59 | daily counts add up to the number of transactions |
| DataProcessor.RegionRanking | utils/data_processor.py:90 | all regions, each ahead of every region with lower revenue, ties in first-appearance order |
| DataProcessor.TopProducts | utils/data_processor.py:34-38 | at most five products, five unless there are fewer, ranked by units with ties in first-appearance order |
| DataProcessor.TopCustomers | utils/data_processor.py:47-51 | at most five customers, five unless there are fewer, ranked by spend with ties in first-appearance order |
| DataProcessor.TopProductsComplete | utils/data_processor.py:34-38 | a product left out sold no more units than any listed one |
| DataProcessor.TopCustomersComplete | utils/data_processor.py:47-51 | a customer left out spent no more than any listed one |
| DataProcessor.Share | utils/data_processor.py:91 | zero when the total is zero, so there is no division by zero; otherwise share × total = revenue × 100 |
| DataProcessor.SharesAddUp | utils/data_processor.py:90-91 | with a non-zero total revenue the region percentages add up to 100 |
| DataProcessor.DailyTrend | utils/data_processor.py:106 | all days, in strictly ascending date order |
| DataProcessor.PeakDay | utils/data_processor.py:62 | nothing for an empty dict; otherwise a day whose revenue no day exceeds, and every earlier day has strictly less revenue, so it is the first maximum |
| DataProcessor.EnrichedCount | utils/data_processor.py:65 | the number of positions whose record matched; with the unmatched records it makes up all the records; equal to the total exactly when every record matched |
| DataProcessor.EnrichmentRate | utils/data_processor.py:66 | between 0 and 100; 0 for no records; 100 exactly when every record matched; rate × count = matched × 100 |
| DataProcessor.PercentOf | utils/data_processor.py:66 | a part of a whole as a percentage lies between 0 and 100, times the whole gives the part times 100, and is 100 exactly for the whole |
| DataProcessor.FailedProducts | utils/data_processor.py:67-71 | strictly ascending, hence without duplicates, and containing exactly the names of unmatched records |
| DataProcessor.UnmatchedNames | utils/data_processor.py:67-71 | the set comprehension holds exactly the names that some unmatched record carries |
| DataProcessor.GenerateSalesReport | utils/data_processor.py:13-71 | fails exactly when there are no transactions; otherwise the report holds the figures above, and its peak day is a day no day's revenue exceeds, with every earlier day strictly below it, so ties go to the first day |

`FileHandler.ValidateAndFilter` states the following:

- It fails exactly on empty input.
- The kept records are, in input order, the valid ones that pass every
  active filter.
- That is the same as filtering by validity and then by the filters.
- `invalid` counts only the records that fail validity.
- Validity failures plus valid records equal the input length.
- The summary is `(len(input), invalid, len(kept))`.
- The region set is every region in the input.
- The lowest and highest amounts are `min` and `max` of all the input's
  amounts, valid or not, and bound every amount.

## Left out

- Reading files and decoding. The fallback over utf-8, latin-1 and cp1252
  and the file-not-found path of `read_sales_data` are I/O. The model starts
  from the decoded lines.
- Writing files. `save_enriched_data` and `generate_sales_report` write
  files, and the report step creates its directory. These are I/O. The model
  gives the lines and figures that would be written.
- `fetch_all_products`. It is an HTTP call. The product list is a parameter
  instead.
- Report text layout: `:,.2f` currency formatting, column padding and the
  `datetime.now()` timestamp. These are float formatting and clock access.
  The `print` diagnostics are side effects.
- `main.py`. Its interactive prompts and error handling glue are not part of
  this model.
- Floating point. Prices, amounts, revenues and percentages are exact. Binary
  rounding and the order-dependence of float sums are not modelled.
- Numbers.ParseInt: accepts only ASCII digits after an optional sign. Python's
  `int()` also accepts underscores between digits and non-ASCII decimal
  digits. The model rejects these. Python 3.11 and later also reject a
  decimal text of more than 4300 digits; the model reads any length.
- Numbers.ParseDecimal: accepts only positional notation. Python's `float()`
  also accepts exponents, `inf`, `nan`, underscores and non-ASCII digits.
  `-0.0` is read as 0, not as a signed zero.
- Numbers.ShowDec: renders positional notation. Python's `repr` switches to
  exponent notation for very large and very small magnitudes.
- ApiHandler.ExtractNumericId: `\d` in Python's `re` also matches non-ASCII
  decimal digits. The model counts only `0`–`9`. Its `int()` of the digit
  run reads any length, where Python 3.11 and later raise beyond 4300 digits.
- Catalog fields are typed. An id is an integer, title, category and brand
  are text, and rating is a decimal. JSON values of other
  types (a float id equal to an integer, a numeric brand) are not modelled.
- Rows of `save_enriched_data` use the keys of every record in the order of
  the first record's keys. The model's records all have the same twelve
  keys, a `Key` enumeration named by `KeyName`. That is the case for every
  output of `enrich_sales_data`, so the missing-key case of `tx.get` does
  not arise and is not modelled.
