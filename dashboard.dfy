/**
 * The dashboard: the six-month movement chart, and the statistics, recent movements and
 * low-stock excerpt shown beside it. `now` is the current time in milliseconds.
 */
module Dashboard {
  import opened Entities
  import opened Seqs
  import opened Calendar
  import Alerts

  const ChartMonths: nat := 6
  const RecentLimit: nat := 5
  const LowStockLimit: nat := 5
  /** Thirty days in milliseconds. */
  const WindowMs: int := 30 * 24 * 60 * 60 * 1000

  /** One bar of the chart: the short month name and the number of movements in that month. */
  datatype MonthTotal = MonthTotal(month: string, total: nat)

  /** The chart's `k`-th month: `k = 0` is five months back, `k = 5` the current month. */
  function Bucket(now: int, k: int): (ym: YearMonth)
    ensures ValidMonth(ym)
  {
    MonthsBefore(MonthOf(now), ChartMonths - 1 - k)
  }

  /** The chart's months are consecutive calendar months ending with the current one. */
  lemma BucketsConsecutive(now: int, k: int)
    ensures MonthIndex(Bucket(now, k)) == MonthIndex(Bucket(now, 0)) + k
    ensures Bucket(now, ChartMonths - 1) == MonthOf(now)
  {
    MonthsBeforeIndex(MonthOf(now), ChartMonths - 1 - k);
    MonthsBeforeIndex(MonthOf(now), ChartMonths - 1);
    MonthsBeforeIndex(MonthOf(now), 0);
    MonthIndexInjective(Bucket(now, ChartMonths - 1), MonthOf(now));
  }

  /** The rows the chart is built from: the company's movements since the first day of the oldest month. */
  function MonthlyFetch(products: seq<Product>, movements: seq<Movement>, companyId: string, now: int)
    : (r: seq<Movement>)
    ensures forall m :: m in r <==>
      m in movements && OfCompany(products, companyId, m) && m.createdAt >= StartOfMonth(Bucket(now, 0))
    ensures forall m :: multiset(r)[m] ==
               if OfCompany(products, companyId, m) && m.createdAt >= StartOfMonth(Bucket(now, 0)) then multiset(movements)[m] else 0
  {
    FilterCounts(movements, (m: Movement) => OfCompany(products, companyId, m) && m.createdAt >= StartOfMonth(Bucket(now, 0)));
    Filter(movements, (m: Movement) => OfCompany(products, companyId, m) && m.createdAt >= StartOfMonth(Bucket(now, 0)))
  }

  /** The number of movements in `ms` dated in month `ym`. */
  function CountIn(ms: seq<Movement>, ym: YearMonth): nat
    decreases |ms|
  {
    if |ms| == 0 then 0
    else CountIn(ms[..|ms| - 1], ym) + (if MonthOf(ms[|ms| - 1].createdAt) == ym then 1 else 0)
  }

  /** The initialisation loop: the six chart months, oldest first, each with a count of 0. */
  method StartBuckets(now: int) returns (keys: seq<YearMonth>, monthly: map<YearMonth, nat>)
    ensures |keys| == ChartMonths
    ensures forall k :: 0 <= k < ChartMonths ==> keys[k] == Bucket(now, k)
    ensures forall ym :: ym in monthly <==> ym in keys
    ensures forall ym :: ym in monthly ==> monthly[ym] == 0
  {
    keys, monthly := [], map[];
    var i := ChartMonths as int - 1;
    while i >= 0
      invariant -1 <= i < ChartMonths
      invariant |keys| == ChartMonths - 1 - i
      invariant forall k :: 0 <= k < |keys| ==> keys[k] == Bucket(now, k)
      invariant forall ym :: ym in monthly <==> ym in keys
      invariant forall ym :: ym in monthly ==> monthly[ym] == 0
    {
      var date := MonthsBefore(MonthOf(now), i);
      assert date == Bucket(now, ChartMonths - 1 - i);
      keys := keys + [date];
      monthly := monthly[date := 0];
      i := i - 1;
    }
  }

  /**
   * The counting loop: starting from zero counts for the months in `keys`, one more for
   * the month of each movement when that month is among them, none for any other.
   */
  method CountMonths(fetched: seq<Movement>, keys: seq<YearMonth>, start: map<YearMonth, nat>)
    returns (monthly: map<YearMonth, nat>)
    requires forall ym :: ym in start <==> ym in keys
    requires forall ym :: ym in start ==> start[ym] == 0
    ensures forall ym :: ym in monthly <==> ym in keys
    ensures forall k :: 0 <= k < |keys| ==> monthly[keys[k]] == CountIn(fetched, keys[k])
  {
    monthly := start;
    var j := 0;
    while j < |fetched|
      invariant 0 <= j <= |fetched|
      invariant forall ym :: ym in monthly <==> ym in keys
      invariant forall k :: 0 <= k < |keys| ==> monthly[keys[k]] == CountIn(fetched[..j], keys[k])
    {
      var key := MonthOf(fetched[j].createdAt);
      if key in monthly {
        monthly := monthly[key := monthly[key] + 1];
      }
      assert fetched[..j + 1][..j] == fetched[..j];
      j := j + 1;
    }
    assert fetched[..|fetched|] == fetched;
  }

  /**
   * `getMonthlyMovements`: one entry per chart month, oldest first, labelled with the
   * month's short name and holding the number of fetched movements dated in that month
   * (0 for a month without any).
   */
  method GetMonthlyMovements(products: seq<Product>, movements: seq<Movement>, companyId: string, now: int)
    returns (chart: seq<MonthTotal>)
    ensures |chart| == ChartMonths
    ensures forall k :: 0 <= k < ChartMonths ==>
      chart[k] == MonthTotal(MonthName(Bucket(now, k).month),
                             CountIn(MonthlyFetch(products, movements, companyId, now), Bucket(now, k)))
  {
    var fetched := MonthlyFetch(products, movements, companyId, now);
    var keys, zeros := StartBuckets(now);
    var monthly := CountMonths(fetched, keys, zeros);
    chart := seq(ChartMonths, k requires 0 <= k < ChartMonths => MonthTotal(MonthName(keys[k].month), monthly[keys[k]]));
  }

  /** The movement's month is one of the chart's six. */
  predicate InChart(now: int, t: int)
  {
    MonthIndex(Bucket(now, 0)) <= MonthIndex(MonthOf(t)) <= MonthIndex(MonthOf(now))
  }

  /** The number of movements in `ms` dated in one of the chart's months. */
  function CountInChart(ms: seq<Movement>, now: int): nat
    decreases |ms|
  {
    if |ms| == 0 then 0
    else CountInChart(ms[..|ms| - 1], now) + (if InChart(now, ms[|ms| - 1].createdAt) then 1 else 0)
  }

  /** The totals of the first `k` chart months. */
  function ChartSum(ms: seq<Movement>, now: int, k: nat): nat
  {
    if k == 0 then 0 else ChartSum(ms, now, k - 1) + CountIn(ms, Bucket(now, k - 1))
  }

  /** How many of the first `k` chart months a timestamp falls in. */
  function Hits(now: int, t: int, k: nat): nat
  {
    if k == 0 then 0 else Hits(now, t, k - 1) + (if MonthOf(t) == Bucket(now, k - 1) then 1 else 0)
  }

  /** A timestamp falls in exactly one of the first `k` months if its month is among them, else in none. */
  lemma {:induction false} HitsWindow(now: int, t: int, k: nat)
    ensures Hits(now, t, k) ==
      if MonthIndex(Bucket(now, 0)) <= MonthIndex(MonthOf(t)) < MonthIndex(Bucket(now, 0)) + k then 1 else 0
  {
    if k > 0 {
      HitsWindow(now, t, k - 1);
      BucketsConsecutive(now, k - 1);
      if MonthIndex(MonthOf(t)) == MonthIndex(Bucket(now, k - 1)) {
        MonthIndexInjective(MonthOf(t), Bucket(now, k - 1));
      }
    }
  }

  lemma {:induction false} ChartSumSnoc(ms: seq<Movement>, m: Movement, now: int, k: nat)
    ensures ChartSum(ms + [m], now, k) == ChartSum(ms, now, k) + Hits(now, m.createdAt, k)
  {
    if k > 0 {
      ChartSumSnoc(ms, m, now, k - 1);
      assert (ms + [m])[..|ms|] == ms;
    }
  }

  lemma {:induction false} ChartSumEmpty(ms: seq<Movement>, now: int, k: nat)
    requires |ms| == 0
    ensures ChartSum(ms, now, k) == 0
  {
    if k > 0 {
      ChartSumEmpty(ms, now, k - 1);
    }
  }

  /**
   * The chart totals add up to the number of movements dated in the six charted months:
   * each such movement is counted once, any other not at all.
   */
  lemma {:induction false} ChartSumCounts(ms: seq<Movement>, now: int)
    ensures ChartSum(ms, now, ChartMonths) == CountInChart(ms, now)
    decreases |ms|
  {
    if |ms| > 0 {
      var init, last := ms[..|ms| - 1], ms[|ms| - 1];
      assert ms == init + [last];
      ChartSumCounts(init, now);
      ChartSumSnoc(init, last, now, ChartMonths);
      HitsWindow(now, last.createdAt, ChartMonths);
      BucketsConsecutive(now, ChartMonths - 1);
    } else {
      ChartSumEmpty(ms, now, ChartMonths);
    }
  }

  /** The company's movements of the last thirty days. */
  function RecentWindow(products: seq<Product>, movements: seq<Movement>, companyId: string, now: int)
    : (r: seq<Movement>)
    ensures forall m :: m in r <==> m in movements && OfCompany(products, companyId, m) && m.createdAt >= now - WindowMs
    ensures forall m :: multiset(r)[m] ==
               if OfCompany(products, companyId, m) && m.createdAt >= now - WindowMs then multiset(movements)[m] else 0
  {
    FilterCounts(movements, (m: Movement) => OfCompany(products, companyId, m) && m.createdAt >= now - WindowMs);
    Filter(movements, (m: Movement) => OfCompany(products, companyId, m) && m.createdAt >= now - WindowMs)
  }

  datatype DashboardStats = DashboardStats(totalProducts: nat, totalMovements: nat, lowStockCount: nat)

  datatype DashboardData = DashboardData(
    stats: DashboardStats,
    recentMovements: seq<Movement>,
    lowStockProducts: seq<Product>)

  /**
   * `getDashboardData`: the company's product count, its movement count over the last
   * thirty days, the five newest of those movements, the number of low-stock products
   * and the first five of them.
   */
  function GetDashboardData(products: seq<Product>, movements: seq<Movement>, companyId: string, now: int)
    : (d: DashboardData)
    ensures d.stats.totalProducts == |CompanyProducts(products, companyId)| <= |products|
    ensures d.stats.totalMovements == |RecentWindow(products, movements, companyId, now)|
    ensures forall m :: m in d.recentMovements ==>
      m in movements && OfCompany(products, companyId, m) && m.createdAt >= now - WindowMs
    ensures SortedDesc(d.recentMovements, MovementCreatedAt)
    ensures multiset(d.recentMovements) <= multiset(RecentWindow(products, movements, companyId, now))
    ensures |d.recentMovements| == if d.stats.totalMovements <= RecentLimit then d.stats.totalMovements else RecentLimit
    ensures d.stats.lowStockCount == |Alerts.LowStockProducts(products, companyId)|
    ensures |d.lowStockProducts| == if d.stats.lowStockCount <= LowStockLimit then d.stats.lowStockCount else LowStockLimit
    ensures d.lowStockProducts == Alerts.LowStockProducts(products, companyId)[..|d.lowStockProducts|]
    ensures d.stats.lowStockCount <= LowStockLimit ==> d.lowStockProducts == Alerts.LowStockProducts(products, companyId)
  {
    var window := RecentWindow(products, movements, companyId, now);
    SortDescKeeps(window, MovementCreatedAt);
    TakeSorted(SortDesc(window, MovementCreatedAt), MovementCreatedAt, RecentLimit);
    TakeWithin(SortDesc(window, MovementCreatedAt), RecentLimit);
    var low := Alerts.LowStockProducts(products, companyId);
    DashboardData(
      DashboardStats(|CompanyProducts(products, companyId)|, |window|, |low|),
      Take(SortDesc(window, MovementCreatedAt), RecentLimit),
      Take(low, LowStockLimit))
  }

  /**
   * The recent movements are the newest of the window: one of the company's movements of
   * the last thirty days that is not shown is no newer than any shown, and five are shown.
   */
  lemma RecentAreNewest(products: seq<Product>, movements: seq<Movement>, companyId: string, now: int, m: Movement)
    requires m in movements && OfCompany(products, companyId, m) && m.createdAt >= now - WindowMs
    requires m !in GetDashboardData(products, movements, companyId, now).recentMovements
    ensures |GetDashboardData(products, movements, companyId, now).recentMovements| == RecentLimit
    ensures forall y :: y in GetDashboardData(products, movements, companyId, now).recentMovements ==>
      y.createdAt >= m.createdAt
  {
    TakeSortedKeepsNewest(RecentWindow(products, movements, companyId, now), MovementCreatedAt, RecentLimit, m);
  }

  /** The count covers every low-stock product of the company, not only the five listed. */
  lemma LowStockCountIsComplete(products: seq<Product>, companyId: string, now: int, movements: seq<Movement>)
    ensures GetDashboardData(products, movements, companyId, now).stats.lowStockCount
            == Alerts.LowStockCount(products, companyId)
  {
    Alerts.LowStockCountIsLength(products, companyId);
  }
}
