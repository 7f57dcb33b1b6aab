/** `generate_sales_report`: the figures the report prints, computed from the
    transactions and the enriched records. Writing the text is left out. */
module DataProcessor {
  import opened Wrappers
  import opened Text
  import opened Seqs
  import opened Sorting
  import opened Grouping
  import opened Ranking
  import opened FileHandler
  import opened ApiHandler

  // ---------------------------------------------------------------------
  // Overall summary
  // ---------------------------------------------------------------------

  /** `sum(t["Quantity"] * t["UnitPrice"] for t in transactions)`. */
  function TotalRevenue(ts: seq<Transaction>): real {
    Sum(ts, Amount)
  }

  /** `total_revenue / total_transactions if total_transactions else 0`. */
  function AverageOrderValue(ts: seq<Transaction>): (avg: real)
    ensures |ts| == 0 ==> avg == 0.0
    ensures avg * |ts| as real == TotalRevenue(ts)
  {
    if |ts| == 0 then 0.0 else TotalRevenue(ts) / |ts| as real
  }

  /** `sorted(dates)[0]`: a date of the input that no date precedes. */
  function EarliestDate(ts: seq<Transaction>): (d: string)
    requires |ts| > 0
    ensures exists i :: 0 <= i < |ts| && ts[i].date == d
    ensures forall i :: 0 <= i < |ts| ==> !StrLt(ts[i].date, d)
  {
    if |ts| == 1 then StrLtIrreflexive(ts[0].date); ts[0].date
    else
      var ts' := ts[..|ts| - 1];
      var d := EarliestDate(ts');
      var last := ts[|ts| - 1].date;
      assert forall i :: 0 <= i < |ts'| ==> ts'[i] == ts[i];
      if StrLt(last, d) then
        assert forall i :: 0 <= i < |ts| ==> !StrLt(ts[i].date, last) by {
          forall i | 0 <= i < |ts| ensures !StrLt(ts[i].date, last) {
            if i == |ts| - 1 {
              StrLtIrreflexive(last);
            } else if StrLt(ts[i].date, last) {
              StrLtTransitive(ts[i].date, last, d);
            }
          }
        }
        last
      else d
  }

  /** `sorted(dates)[-1]`: a date of the input that precedes no date. */
  function LatestDate(ts: seq<Transaction>): (d: string)
    requires |ts| > 0
    ensures exists i :: 0 <= i < |ts| && ts[i].date == d
    ensures forall i :: 0 <= i < |ts| ==> !StrLt(d, ts[i].date)
  {
    if |ts| == 1 then StrLtIrreflexive(ts[0].date); ts[0].date
    else
      var ts' := ts[..|ts| - 1];
      var d := LatestDate(ts');
      var last := ts[|ts| - 1].date;
      assert forall i :: 0 <= i < |ts'| ==> ts'[i] == ts[i];
      if StrLt(d, last) then
        assert forall i :: 0 <= i < |ts| ==> !StrLt(last, ts[i].date) by {
          forall i | 0 <= i < |ts| ensures !StrLt(last, ts[i].date) {
            if i == |ts| - 1 {
              StrLtIrreflexive(last);
            } else if StrLt(last, ts[i].date) {
              StrLtTransitive(d, last, ts[i].date);
            }
          }
        }
        last
      else d
  }

  /** `dates[0] if dates else "N/A"`. */
  function StartDate(ts: seq<Transaction>): (d: string)
    ensures |ts| == 0 ==> d == "N/A"
    ensures |ts| > 0 ==> exists i :: 0 <= i < |ts| && ts[i].date == d
    ensures |ts| > 0 ==> forall i :: 0 <= i < |ts| ==> !StrLt(ts[i].date, d)
  {
    if |ts| == 0 then "N/A" else EarliestDate(ts)
  }

  /** `dates[-1] if dates else "N/A"`. */
  function EndDate(ts: seq<Transaction>): (d: string)
    ensures |ts| == 0 ==> d == "N/A"
    ensures |ts| > 0 ==> exists i :: 0 <= i < |ts| && ts[i].date == d
    ensures |ts| > 0 ==> forall i :: 0 <= i < |ts| ==> !StrLt(d, ts[i].date)
  {
    if |ts| == 0 then "N/A" else LatestDate(ts)
  }

  /** The printed date range never runs backwards. */
  lemma DateRangeOrdered(ts: seq<Transaction>)
    requires |ts| > 0
    ensures !StrLt(EndDate(ts), StartDate(ts))
  {
    var i :| 0 <= i < |ts| && ts[i].date == StartDate(ts);
  }

  // ---------------------------------------------------------------------
  // Region, product, customer and daily statistics
  // ---------------------------------------------------------------------

  /** `{"revenue": ..., "count": ...}` of one region. */
  datatype RegionStat = RegionStat(revenue: real, count: nat)

  const NoRegionSales := RegionStat(0.0, 0)

  function AddRegionSale(s: RegionStat, t: Transaction): RegionStat {
    RegionStat(s.revenue + Amount(t), s.count + 1)
  }

  function RegionOf(t: Transaction): string { t.region }

  /** `region_stats`: one entry per region, in order of first appearance. */
  function RegionStats(ts: seq<Transaction>): (g: Group<string, RegionStat>)
    ensures WellFormed(g) && g.order == Keys(ts, RegionOf)
  {
    Accumulate(ts, RegionOf, NoRegionSales, AddRegionSale)
  }

  /** Folding a group of sales gives its revenue and its size. */
  lemma {:induction false} RegionFold(ts: seq<Transaction>)
    ensures Fold(ts, NoRegionSales, AddRegionSale) == RegionStat(Sum(ts, Amount), |ts|)
  {
    if |ts| > 0 {
      RegionFold(ts[..|ts| - 1]);
    }
  }

  /** Each region's entry holds the revenue and the number of that region's
      transactions. */
  lemma RegionStatsMeaning(ts: seq<Transaction>, k: string)
    requires k in RegionStats(ts).stats
    ensures RegionStats(ts).stats[k] == RegionStat(Sum(Select(ts, RegionOf, k), Amount), |Select(ts, RegionOf, k)|)
  {
    AccumulateMeaning(ts, RegionOf, NoRegionSales, AddRegionSale);
    RegionFold(Select(ts, RegionOf, k));
  }

  /** `{"qty": ..., "rev": ...}` of one product name. */
  datatype ProductStat = ProductStat(qty: int, rev: real)

  const NoProductSales := ProductStat(0, 0.0)

  function AddProductSale(s: ProductStat, t: Transaction): ProductStat {
    ProductStat(s.qty + t.quantity, s.rev + Amount(t))
  }

  function ProductOf(t: Transaction): string { t.productName }

  function QuantityOf(t: Transaction): real { t.quantity as real }

  /** `product_stats`, keyed by product name. */
  function ProductStats(ts: seq<Transaction>): (g: Group<string, ProductStat>)
    ensures WellFormed(g) && g.order == Keys(ts, ProductOf)
  {
    Accumulate(ts, ProductOf, NoProductSales, AddProductSale)
  }

  lemma {:induction false} ProductFold(ts: seq<Transaction>)
    ensures Fold(ts, NoProductSales, AddProductSale).qty as real == Sum(ts, QuantityOf)
    ensures Fold(ts, NoProductSales, AddProductSale).rev == Sum(ts, Amount)
  {
    if |ts| > 0 {
      ProductFold(ts[..|ts| - 1]);
    }
  }

  /** Each product's entry holds the units sold and the revenue of the
      transactions with that name. */
  lemma ProductStatsMeaning(ts: seq<Transaction>, k: string)
    requires k in ProductStats(ts).stats
    ensures ProductStats(ts).stats[k].qty as real == Sum(Select(ts, ProductOf, k), QuantityOf)
    ensures ProductStats(ts).stats[k].rev == Sum(Select(ts, ProductOf, k), Amount)
  {
    AccumulateMeaning(ts, ProductOf, NoProductSales, AddProductSale);
    ProductFold(Select(ts, ProductOf, k));
  }

  /** `{"spent": ..., "count": ...}` of one customer. */
  datatype CustomerStat = CustomerStat(spent: real, count: nat)

  const NoCustomerSales := CustomerStat(0.0, 0)

  function AddCustomerSale(s: CustomerStat, t: Transaction): CustomerStat {
    CustomerStat(s.spent + Amount(t), s.count + 1)
  }

  function CustomerOf(t: Transaction): string { t.customerId }

  /** `customer_stats`, keyed by customer id. */
  function CustomerStats(ts: seq<Transaction>): (g: Group<string, CustomerStat>)
    ensures WellFormed(g) && g.order == Keys(ts, CustomerOf)
  {
    Accumulate(ts, CustomerOf, NoCustomerSales, AddCustomerSale)
  }

  lemma {:induction false} CustomerFold(ts: seq<Transaction>)
    ensures Fold(ts, NoCustomerSales, AddCustomerSale) == CustomerStat(Sum(ts, Amount), |ts|)
  {
    if |ts| > 0 {
      CustomerFold(ts[..|ts| - 1]);
    }
  }

  /** Each customer's entry holds what that customer spent, over how many
      orders. */
  lemma CustomerStatsMeaning(ts: seq<Transaction>, k: string)
    requires k in CustomerStats(ts).stats
    ensures CustomerStats(ts).stats[k] == CustomerStat(Sum(Select(ts, CustomerOf, k), Amount), |Select(ts, CustomerOf, k)|)
  {
    AccumulateMeaning(ts, CustomerOf, NoCustomerSales, AddCustomerSale);
    CustomerFold(Select(ts, CustomerOf, k));
  }

  /** `{"rev": ..., "count": ..., "customers": set()}` of one date. */
  datatype DayStat = DayStat(rev: real, count: nat, customers: set<string>)

  const NoDaySales := DayStat(0.0, 0, {})

  function AddDaySale(s: DayStat, t: Transaction): DayStat {
    DayStat(s.rev + Amount(t), s.count + 1, s.customers + {t.customerId})
  }

  function DateOf(t: Transaction): string { t.date }

  /** `daily`, keyed by date. */
  function DailyStats(ts: seq<Transaction>): (g: Group<string, DayStat>)
    ensures WellFormed(g) && g.order == Keys(ts, DateOf)
  {
    Accumulate(ts, DateOf, NoDaySales, AddDaySale)
  }

  /** Folding a day's sales gives its revenue and its size. */
  lemma {:induction false} DayFold(ts: seq<Transaction>)
    ensures Fold(ts, NoDaySales, AddDaySale).rev == Sum(ts, Amount)
    ensures Fold(ts, NoDaySales, AddDaySale).count == |ts|
  {
    if |ts| > 0 {
      DayFold(ts[..|ts| - 1]);
    }
  }

  /** Folding a day's sales collects exactly the customers who bought. */
  lemma {:induction false} DayCustomers(ts: seq<Transaction>)
    ensures forall c :: c in Fold(ts, NoDaySales, AddDaySale).customers <==>
              exists i :: 0 <= i < |ts| && ts[i].customerId == c
  {
    if |ts| > 0 {
      var ts' := ts[..|ts| - 1];
      DayCustomers(ts');
      var s := Fold(ts', NoDaySales, AddDaySale);
      var c := ts[|ts| - 1].customerId;
      forall x ensures x in s.customers + {c} <==> exists i :: 0 <= i < |ts| && ts[i].customerId == x {
        if x in s.customers {
          var i :| 0 <= i < |ts'| && ts'[i].customerId == x;
          assert ts[i] == ts'[i];
        }
        if exists i :: 0 <= i < |ts| && ts[i].customerId == x {
          var i :| 0 <= i < |ts| && ts[i].customerId == x;
          if i < |ts'| {
            assert ts'[i] == ts[i];
          }
        }
      }
    }
  }

  /** A day never has more distinct customers than sales. */
  lemma {:induction false} DayCustomerCount(ts: seq<Transaction>)
    ensures |Fold(ts, NoDaySales, AddDaySale).customers| <= |ts|
  {
    if |ts| > 0 {
      var ts' := ts[..|ts| - 1];
      DayCustomerCount(ts');
      var s := Fold(ts', NoDaySales, AddDaySale);
      var c := ts[|ts| - 1].customerId;
      if c in s.customers {
        assert s.customers + {c} == s.customers;
      }
    }
  }

  /** Each date's entry holds that day's revenue, its number of transactions
      and the customers who bought that day, no more of them than
      transactions. */
  lemma DailyStatsMeaning(ts: seq<Transaction>, k: string)
    requires k in DailyStats(ts).stats
    ensures var s := DailyStats(ts).stats[k];
      && s.rev == Sum(Select(ts, DateOf, k), Amount)
      && s.count == |Select(ts, DateOf, k)|
      && |s.customers| <= s.count
      && (forall c :: c in s.customers <==>
            exists i :: 0 <= i < |Select(ts, DateOf, k)| && Select(ts, DateOf, k)[i].customerId == c)
  {
    AccumulateMeaning(ts, DateOf, NoDaySales, AddDaySale);
    DayFold(Select(ts, DateOf, k));
    DayCustomers(Select(ts, DateOf, k));
    DayCustomerCount(Select(ts, DateOf, k));
  }

  // ---------------------------------------------------------------------
  // The groups split the totals
  // ---------------------------------------------------------------------

  function RegionRevenue(e: Entry<string, RegionStat>): real { e.stat.revenue }
  function RegionCount(e: Entry<string, RegionStat>): real { e.stat.count as real }
  function ProductRevenue(e: Entry<string, ProductStat>): real { e.stat.rev }
  function ProductQuantity(e: Entry<string, ProductStat>): real { e.stat.qty as real }
  function CustomerSpent(e: Entry<string, CustomerStat>): real { e.stat.spent }
  function CustomerCount(e: Entry<string, CustomerStat>): real { e.stat.count as real }
  function DayRevenue(e: Entry<string, DayStat>): real { e.stat.rev }
  function DayCount(e: Entry<string, DayStat>): real { e.stat.count as real }
  function One(t: Transaction): real { 1.0 }

  lemma CountAsSum(ts: seq<Transaction>)
    ensures Sum(ts, One) == |ts| as real
  {
    SumConstant(ts, One, 1.0);
  }

  /** The regions' revenues add up to the total revenue. */
  lemma RegionRevenuePartition(ts: seq<Transaction>)
    ensures Sum(Entries(RegionStats(ts)), RegionRevenue) == TotalRevenue(ts)
  {
    var g := RegionStats(ts);
    forall i | 0 <= i < |g.order|
      ensures RegionRevenue(Entries(g)[i]) == Sum(Select(ts, RegionOf, g.order[i]), Amount)
    {
      RegionStatsMeaning(ts, g.order[i]);
    }
    SumEntries(g, ts, RegionOf, Amount, RegionRevenue);
  }

  /** The regions' transaction counts add up to the number of transactions. */
  lemma RegionCountPartition(ts: seq<Transaction>)
    ensures Sum(Entries(RegionStats(ts)), RegionCount) == |ts| as real
  {
    var g := RegionStats(ts);
    forall i | 0 <= i < |g.order|
      ensures RegionCount(Entries(g)[i]) == Sum(Select(ts, RegionOf, g.order[i]), One)
    {
      RegionStatsMeaning(ts, g.order[i]);
      CountAsSum(Select(ts, RegionOf, g.order[i]));
    }
    SumEntries(g, ts, RegionOf, One, RegionCount);
    CountAsSum(ts);
  }

  /** The products' revenues add up to the total revenue and their units to
      the units sold. */
  lemma ProductsPartitionTotals(ts: seq<Transaction>)
    ensures Sum(Entries(ProductStats(ts)), ProductRevenue) == TotalRevenue(ts)
    ensures Sum(Entries(ProductStats(ts)), ProductQuantity) == Sum(ts, QuantityOf)
  {
    var g := ProductStats(ts);
    forall i | 0 <= i < |g.order|
      ensures ProductRevenue(Entries(g)[i]) == Sum(Select(ts, ProductOf, g.order[i]), Amount)
      ensures ProductQuantity(Entries(g)[i]) == Sum(Select(ts, ProductOf, g.order[i]), QuantityOf)
    {
      ProductStatsMeaning(ts, g.order[i]);
    }
    SumEntries(g, ts, ProductOf, Amount, ProductRevenue);
    SumEntries(g, ts, ProductOf, QuantityOf, ProductQuantity);
  }

  /** The customers' spending adds up to the total revenue. */
  lemma CustomerRevenuePartition(ts: seq<Transaction>)
    ensures Sum(Entries(CustomerStats(ts)), CustomerSpent) == TotalRevenue(ts)
  {
    var g := CustomerStats(ts);
    forall i | 0 <= i < |g.order|
      ensures CustomerSpent(Entries(g)[i]) == Sum(Select(ts, CustomerOf, g.order[i]), Amount)
    {
      CustomerStatsMeaning(ts, g.order[i]);
    }
    SumEntries(g, ts, CustomerOf, Amount, CustomerSpent);
  }

  /** The customers' transaction counts add up to the number of transactions. */
  lemma CustomerCountPartition(ts: seq<Transaction>)
    ensures Sum(Entries(CustomerStats(ts)), CustomerCount) == |ts| as real
  {
    var g := CustomerStats(ts);
    forall i | 0 <= i < |g.order|
      ensures CustomerCount(Entries(g)[i]) == Sum(Select(ts, CustomerOf, g.order[i]), One)
    {
      CustomerStatsMeaning(ts, g.order[i]);
      CountAsSum(Select(ts, CustomerOf, g.order[i]));
    }
    SumEntries(g, ts, CustomerOf, One, CustomerCount);
    CountAsSum(ts);
  }

  /** The days' revenues add up to the total revenue. */
  lemma DayRevenuePartition(ts: seq<Transaction>)
    ensures Sum(Entries(DailyStats(ts)), DayRevenue) == TotalRevenue(ts)
  {
    var g := DailyStats(ts);
    forall i | 0 <= i < |g.order|
      ensures DayRevenue(Entries(g)[i]) == Sum(Select(ts, DateOf, g.order[i]), Amount)
    {
      DailyStatsMeaning(ts, g.order[i]);
    }
    SumEntries(g, ts, DateOf, Amount, DayRevenue);
  }

  /** The days' transaction counts add up to the number of transactions. */
  lemma DayCountPartition(ts: seq<Transaction>)
    ensures Sum(Entries(DailyStats(ts)), DayCount) == |ts| as real
  {
    var g := DailyStats(ts);
    forall i | 0 <= i < |g.order|
      ensures DayCount(Entries(g)[i]) == Sum(Select(ts, DateOf, g.order[i]), One)
    {
      DailyStatsMeaning(ts, g.order[i]);
      CountAsSum(Select(ts, DateOf, g.order[i]));
    }
    SumEntries(g, ts, DateOf, One, DayCount);
    CountAsSum(ts);
  }

  // ---------------------------------------------------------------------
  // Rankings
  // ---------------------------------------------------------------------

  function RevenueScore(s: RegionStat): real { s.revenue }
  function QuantityScore(s: ProductStat): real { s.qty as real }
  function SpentScore(s: CustomerStat): real { s.spent }

  /** The region table: `sorted(region_stats.items(), key=revenue, reverse=True)`. */
  function RegionRanking(ts: seq<Transaction>): (r: seq<Entry<string, RegionStat>>)
    ensures multiset(r) == multiset(Entries(RegionStats(ts)))
    ensures SortedBy(r, RankOrder(RevenueScore))
  {
    Ranked(RegionStats(ts), RevenueScore)
  }

  /** `top_products`: the five best-selling product names by units. */
  function TopProducts(ts: seq<Transaction>): (r: seq<Entry<string, ProductStat>>)
    ensures |r| <= 5 && |r| <= |Keys(ts, ProductOf)|
    ensures |r| == 5 || |r| == |Keys(ts, ProductOf)|
    ensures SortedBy(r, RankOrder(QuantityScore))
    ensures forall x :: x in r ==> x in Entries(ProductStats(ts))
  {
    Top(ProductStats(ts), QuantityScore, 5)
  }

  /** `top_customers`: the five biggest spenders. */
  function TopCustomers(ts: seq<Transaction>): (r: seq<Entry<string, CustomerStat>>)
    ensures |r| <= 5 && |r| <= |Keys(ts, CustomerOf)|
    ensures |r| == 5 || |r| == |Keys(ts, CustomerOf)|
    ensures SortedBy(r, RankOrder(SpentScore))
    ensures forall x :: x in r ==> x in Entries(CustomerStats(ts))
  {
    Top(CustomerStats(ts), SpentScore, 5)
  }

  /** A product left out of the top five sold no more units than any listed
      one. */
  lemma TopProductsComplete(ts: seq<Transaction>, x: Entry<string, ProductStat>, y: Entry<string, ProductStat>)
    requires x in TopProducts(ts)
    requires y in Entries(ProductStats(ts)) && y !in TopProducts(ts)
    ensures y.stat.qty <= x.stat.qty
  {
    TopOutranksRest(ProductStats(ts), QuantityScore, 5, x, y);
  }

  /** A customer left out of the top five spent no more than any listed one. */
  lemma TopCustomersComplete(ts: seq<Transaction>, x: Entry<string, CustomerStat>, y: Entry<string, CustomerStat>)
    requires x in TopCustomers(ts)
    requires y in Entries(CustomerStats(ts)) && y !in TopCustomers(ts)
    ensures y.stat.spent <= x.stat.spent
  {
    TopOutranksRest(CustomerStats(ts), SpentScore, 5, x, y);
  }

  /** `(revenue / total_revenue) * 100 if total_revenue else 0`. */
  function Share(revenue: real, total: real): (pct: real)
    ensures total == 0.0 ==> pct == 0.0
    ensures total != 0.0 ==> pct * total == revenue * 100.0
  {
    if total != 0.0 then revenue / total * 100.0 else 0.0
  }

  function ShareOf(total: real): Entry<string, RegionStat> -> real {
    (e: Entry<string, RegionStat>) => Share(e.stat.revenue, total)
  }

  /** With a non-zero total revenue the region percentages add up to 100. */
  lemma SharesAddUp(ts: seq<Transaction>)
    requires TotalRevenue(ts) != 0.0
    ensures Sum(RegionRanking(ts), ShareOf(TotalRevenue(ts))) == 100.0
  {
    var es := Entries(RegionStats(ts));
    var ranking := RegionRanking(ts);
    assert ranking == InsertionSort(es, RankOrder(RevenueScore));
    SortSum(es, RankOrder(RevenueScore), RegionRevenue);
    RegionRevenuePartition(ts);
    SharesOfTotal(ranking, TotalRevenue(ts));
  }

  lemma SharesOfTotal(rs: seq<Entry<string, RegionStat>>, total: real)
    requires total != 0.0 && Sum(rs, RegionRevenue) == total
    ensures Sum(rs, ShareOf(total)) == 100.0
  {
    var c := 100.0 / total;
    forall x ensures ShareOf(total)(x) == RegionRevenue(x) * c {
      ShareScales(x.stat.revenue, total);
    }
    SumScale(rs, RegionRevenue, ShareOf(total), c);
  }

  lemma ShareScales(revenue: real, total: real)
    requires total != 0.0
    ensures Share(revenue, total) == revenue * (100.0 / total)
  {
  }

  /** The percentage column of the region table. */
  function Shares(regions: seq<Entry<string, RegionStat>>, total: real): (pcts: seq<real>)
    ensures |pcts| == |regions|
    ensures forall i :: 0 <= i < |regions| ==> pcts[i] == ShareOf(total)(regions[i])
  {
    seq(|regions|, i requires 0 <= i < |regions| => ShareOf(total)(regions[i]))
  }

  // ---------------------------------------------------------------------
  // Daily trend and peak day
  // ---------------------------------------------------------------------

  predicate EarlierDay(a: Entry<string, DayStat>, b: Entry<string, DayStat>) {
    StrLt(a.key, b.key)
  }

  /** `sorted(daily.items())`: dates are distinct keys, so the items are
      ordered by date alone. */
  function DailyTrend(ts: seq<Transaction>): (r: seq<Entry<string, DayStat>>)
    ensures multiset(r) == multiset(Entries(DailyStats(ts)))
    ensures SortedBy(r, EarlierDay)
  {
    var g := DailyStats(ts);
    var es := Entries(g);
    EntriesDistinct(g);
    forall a, b | a in es && b in es && a != b ensures EarlierDay(a, b) || EarlierDay(b, a) {
      var i :| 0 <= i < |es| && es[i] == a;
      var j :| 0 <= j < |es| && es[j] == b;
      StrLtTotal(a.key, b.key);
    }
    forall a, b, c | a in es && b in es && c in es && EarlierDay(a, b) && EarlierDay(b, c)
      ensures EarlierDay(a, c)
    {
      StrLtTransitive(a.key, b.key, c.key);
    }
    SortSorted(es, EarlierDay);
    InsertionSort(es, EarlierDay)
  }

  /** Why the report cannot be produced. */
  datatype ReportError = NoDailyData

  /** `max(daily.items(), key=rev)`: the first day, in order of appearance,
      with the highest revenue; `max` of nothing raises. */
  method PeakDay(g: Group<string, DayStat>) returns (r: Result<Entry<string, DayStat>, ReportError>)
    requires WellFormed(g)
    ensures r.Failure? <==> |g.order| == 0
    ensures r.Success? ==>
              && r.value in Entries(g)
              && (forall e :: e in Entries(g) ==> e.stat.rev <= r.value.stat.rev)
              && (forall i :: 0 <= i < r.value.pos ==> Entries(g)[i].stat.rev < r.value.stat.rev)
  {
    var es := Entries(g);
    if |es| == 0 {
      return Failure(NoDailyData);
    }
    var best := 0;
    var i := 1;
    while i < |es|
      invariant 0 <= best < i <= |es|
      invariant forall j :: 0 <= j < i ==> es[j].stat.rev <= es[best].stat.rev
      invariant forall j :: 0 <= j < best ==> es[j].stat.rev < es[best].stat.rev
    {
      if es[i].stat.rev > es[best].stat.rev {
        best := i;
      }
      i := i + 1;
    }
    return Success(es[best]);
  }

  // ---------------------------------------------------------------------
  // API enrichment summary
  // ---------------------------------------------------------------------

  predicate IsMatched(e: Enriched) { e.apiMatch }

  predicate IsUnmatched(e: Enriched) { !e.apiMatch }

  function NameOf(e: Enriched): string { e.tx.productName }

  /** `sum(1 for t in enriched_transactions if t.get("API_Match"))`. */
  function EnrichedCount(es: seq<Enriched>): (n: nat)
    ensures n <= |es|
    ensures n == |es| <==> forall i :: 0 <= i < |es| ==> es[i].apiMatch
    ensures n == |Satisfying(es, IsMatched)|
    ensures n + CountFailing(es, IsMatched) == |es|
  {
    FilterFull(es, IsMatched);
    FilterCountsIndices(es, IsMatched);
    |Filter(es, IsMatched)|
  }

  /** `enriched_count / len(enriched_transactions) * 100`, or 0 for no
      records. */
  function EnrichmentRate(es: seq<Enriched>): (rate: real)
    ensures 0.0 <= rate <= 100.0
    ensures |es| == 0 ==> rate == 0.0
    ensures |es| > 0 ==> (rate == 100.0 <==> forall i :: 0 <= i < |es| ==> es[i].apiMatch)
    ensures |es| > 0 ==> rate * |es| as real == EnrichedCount(es) as real * 100.0
  {
    if |es| == 0 then 0.0
    else
      PercentOf(EnrichedCount(es) as real, |es| as real);
      EnrichedCount(es) as real / |es| as real * 100.0
  }

  /** `part / whole * 100` for `0 <= part <= whole`: a percentage, 100
      exactly when the part is the whole. */
  lemma PercentOf(part: real, whole: real)
    requires 0.0 <= part <= whole && whole > 0.0
    ensures var pct := part / whole * 100.0;
      && 0.0 <= pct <= 100.0
      && pct * whole == part * 100.0
      && (pct == 100.0 <==> part == whole)
  {
    Ratio(part, whole, part / whole);
  }

  /** A ratio of a part to its whole lies in [0, 1] and is 1 only for the
      whole itself. */
  lemma Ratio(part: real, whole: real, q: real)
    requires 0.0 <= part <= whole && whole > 0.0 && q * whole == part
    ensures 0.0 <= q <= 1.0
    ensures q == 1.0 <==> part == whole
    ensures (q * 100.0) * whole == part * 100.0
  {
    if q < 0.0 {
      PositiveProduct(-q, whole);
    } else if q > 1.0 {
      PositiveProduct(q - 1.0, whole);
    } else if q < 1.0 {
      PositiveProduct(1.0 - q, whole);
    }
  }

  lemma PositiveProduct(a: real, b: real)
    requires a > 0.0 && b > 0.0
    ensures a * b > 0.0
  {
  }

  /** `sorted({t["ProductName"] for t in enriched if not t.get("API_Match")})`:
      each unmatched name once, in ascending order. */
  function FailedProducts(es: seq<Enriched>): (names: seq<string>)
    ensures SortedBy(names, StrLt)
    ensures forall p :: p in names <==> exists i :: 0 <= i < |es| && !es[i].apiMatch && es[i].tx.productName == p
  {
    var keys := Keys(Filter(es, IsUnmatched), NameOf);
    forall a, b | a in keys && b in keys && a != b ensures StrLt(a, b) || StrLt(b, a) {
      StrLtTotal(a, b);
    }
    forall a, b, c | a in keys && b in keys && c in keys && StrLt(a, b) && StrLt(b, c) ensures StrLt(a, c) {
      StrLtTransitive(a, b, c);
    }
    SortSorted(keys, StrLt);
    var names := InsertionSort(keys, StrLt);
    forall p ensures p in names <==> exists i :: 0 <= i < |es| && !es[i].apiMatch && es[i].tx.productName == p {
      assert p in names <==> p in multiset(keys);
      UnmatchedNames(es, p);
    }
    names
  }

  /** The distinct names of the unmatched records are exactly the names
      some unmatched record carries. */
  lemma UnmatchedNames(es: seq<Enriched>, p: string)
    ensures p in Keys(Filter(es, IsUnmatched), NameOf) <==>
      exists i :: 0 <= i < |es| && !es[i].apiMatch && es[i].tx.productName == p
  {
    KeysOfRecords(Filter(es, IsUnmatched), NameOf, p);
    if p in Keys(Filter(es, IsUnmatched), NameOf) {
      UnmatchedNameHasRecord(es, p);
    }
    if exists i :: 0 <= i < |es| && !es[i].apiMatch && es[i].tx.productName == p {
      var i :| 0 <= i < |es| && !es[i].apiMatch && es[i].tx.productName == p;
      UnmatchedRecordNamed(es, i);
    }
  }

  lemma UnmatchedNameHasRecord(es: seq<Enriched>, p: string)
    requires exists j :: 0 <= j < |Filter(es, IsUnmatched)| && NameOf(Filter(es, IsUnmatched)[j]) == p
    ensures exists i :: 0 <= i < |es| && !es[i].apiMatch && es[i].tx.productName == p
  {
    var failed := Filter(es, IsUnmatched);
    var j :| 0 <= j < |failed| && NameOf(failed[j]) == p;
    FilterFrom(es, IsUnmatched, failed[j]);
    var i :| 0 <= i < |es| && es[i] == failed[j];
  }

  lemma UnmatchedRecordNamed(es: seq<Enriched>, i: nat)
    requires i < |es| && !es[i].apiMatch
    ensures exists j :: 0 <= j < |Filter(es, IsUnmatched)| && NameOf(Filter(es, IsUnmatched)[j]) == es[i].tx.productName
  {
    var failed := Filter(es, IsUnmatched);
    FilterKeeps(es, IsUnmatched, i);
    var j :| 0 <= j < |failed| && failed[j] == es[i];
    assert NameOf(failed[j]) == es[i].tx.productName;
  }

  // ---------------------------------------------------------------------
  // The report
  // ---------------------------------------------------------------------

  /** Every figure `generate_sales_report` writes, in the order it writes
      them; `regionShares[i]` is the percentage printed beside `regions[i]`. */
  datatype Report = Report(
    recordsProcessed: nat,
    totalRevenue: real,
    averageOrderValue: real,
    startDate: string,
    endDate: string,
    regions: seq<Entry<string, RegionStat>>,
    regionShares: seq<real>,
    topProducts: seq<Entry<string, ProductStat>>,
    topCustomers: seq<Entry<string, CustomerStat>>,
    daily: seq<Entry<string, DayStat>>,
    peakDay: Entry<string, DayStat>,
    enrichedCount: nat,
    enrichedTotal: nat,
    enrichmentRate: real,
    failedProducts: seq<string>)

  /** `generate_sales_report(transactions, enriched_transactions)`: the
      figures of the report, or the error `max()` raises on an empty
      `daily` before anything is written. */
  method GenerateSalesReport(ts: seq<Transaction>, es: seq<Enriched>) returns (r: Result<Report, ReportError>)
    ensures r.Failure? <==> |ts| == 0
    ensures r.Success? ==>
              && r.value.recordsProcessed == |ts|
              && r.value.totalRevenue == TotalRevenue(ts)
              && r.value.averageOrderValue == AverageOrderValue(ts)
              && r.value.startDate == EarliestDate(ts) && r.value.endDate == LatestDate(ts)
              && r.value.regions == RegionRanking(ts)
              && |r.value.regionShares| == |r.value.regions|
              && (forall i :: 0 <= i < |r.value.regions| ==>
                    r.value.regionShares[i] == ShareOf(TotalRevenue(ts))(r.value.regions[i]))
              && r.value.topProducts == TopProducts(ts)
              && r.value.topCustomers == TopCustomers(ts)
              && r.value.daily == DailyTrend(ts)
              && r.value.peakDay in Entries(DailyStats(ts))
              && (forall e :: e in Entries(DailyStats(ts)) ==> e.stat.rev <= r.value.peakDay.stat.rev)
              && (forall i :: 0 <= i < r.value.peakDay.pos ==>
                    Entries(DailyStats(ts))[i].stat.rev < r.value.peakDay.stat.rev)
              && r.value.enrichedCount == EnrichedCount(es) <= r.value.enrichedTotal == |es|
              && r.value.enrichmentRate == EnrichmentRate(es)
              && r.value.failedProducts == FailedProducts(es)
  {
    var daily := DailyStats(ts);
    assert |ts| > 0 ==> ts[0].date in daily.order;
    var peak := PeakDay(daily);
    if peak.Failure? {
      return Failure(peak.error);
    }
    var total := TotalRevenue(ts);
    var average := AverageOrderValue(ts);
    var start, end := EarliestDate(ts), LatestDate(ts);
    var regions := RegionRanking(ts);
    var shares := Shares(regions, total);
    var products, customers, trend := TopProducts(ts), TopCustomers(ts), DailyTrend(ts);
    var matched, rate, failed := EnrichedCount(es), EnrichmentRate(es), FailedProducts(es);
    r := Success(Report(
      |ts|, total, average, start, end, regions, shares, products, customers, trend,
      peak.value, matched, |es|, rate, failed));
  }
}
