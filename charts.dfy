/** The group-by, sort and `head(10)` chains that feed the charts of `create_visualizations`. */
module Charts {
  import opened Wrappers
  import opened Strings
  import opened Orders
  import opened Kpis

  /** One group of a `groupby`: its key, the sum of the value column over it and its size. */
  datatype Group = Group(key: string, total: int, count: nat)

  /** The column a group-by sums, if any; `value_counts` sums none. */
  predicate IsValueColumn(value: Option<Column>)
  {
    value.Some? ==> !value.value.IsText()
  }

  function Contribution(r: Row, value: Option<Column>): int
    requires IsValueColumn(value)
  {
    match value
    case None => 0
    case Some(c) => Number(r, c)
  }

  /** Number of rows whose `key` column equals `k`. */
  function CountWhere(rows: seq<Row>, key: Column, k: string): (n: nat)
    requires key.IsText()
    ensures n <= |rows|
    ensures n == 0 <==> forall i :: 0 <= i < |rows| ==> Text(rows[i], key) != k
  {
    if rows == [] then 0
    else
      assert forall i :: 0 < i < |rows| ==> rows[i] == rows[1..][i - 1];
      (if Text(rows[0], key) == k then 1 else 0) + CountWhere(rows[1..], key, k)
  }

  /** Sum of the value column over the rows whose `key` column equals `k`. */
  function SumWhere(rows: seq<Row>, key: Column, k: string, value: Option<Column>): (sum: int)
    requires key.IsText() && IsValueColumn(value)
    ensures value.None? ==> sum == 0
    ensures (forall i :: 0 <= i < |rows| ==> Text(rows[i], key) != k) ==> sum == 0
  {
    if rows == [] then 0
    else
      assert forall i :: 0 < i < |rows| ==> rows[i] == rows[1..][i - 1];
      (if Text(rows[0], key) == k then Contribution(rows[0], value) else 0) + SumWhere(rows[1..], key, k, value)
  }

  lemma {:induction false} CountWherePositive(rows: seq<Row>, key: Column, k: string)
    requires key.IsText()
    requires k in TextValues(rows, key)
    ensures CountWhere(rows, key, k) > 0
    decreases |rows|
  {
    if Text(rows[0], key) != k {
      assert TextValues(rows, key)[1..] == TextValues(rows[1..], key);
      CountWherePositive(rows[1..], key, k);
    }
  }

  function GroupsFor(rows: seq<Row>, key: Column, value: Option<Column>, ks: seq<string>): (gs: seq<Group>)
    requires key.IsText() && IsValueColumn(value)
    ensures |gs| == |ks|
    ensures forall i :: 0 <= i < |ks| ==>
              gs[i] == Group(ks[i], SumWhere(rows, key, ks[i], value), CountWhere(rows, key, ks[i]))
  {
    if ks == [] then []
    else [Group(ks[0], SumWhere(rows, key, ks[0], value), CountWhere(rows, key, ks[0]))]
         + GroupsFor(rows, key, value, ks[1..])
  }

  function Keys(gs: seq<Group>): seq<string>
  {
    seq(|gs|, i requires 0 <= i < |gs| => gs[i].key)
  }

  /** `df.groupby(key)[value]`: one group per distinct key, keys in ascending order. */
  function GroupBy(rows: seq<Row>, key: Column, value: Option<Column>): (gs: seq<Group>)
    requires key.IsText() && IsValueColumn(value)
    ensures Ascending(Keys(gs))
    ensures forall k :: k in Keys(gs) <==> k in TextValues(rows, key)
    ensures forall g :: g in gs ==>
              && g.count == CountWhere(rows, key, g.key) && g.count > 0
              && g.total == SumWhere(rows, key, g.key, value)
  {
    var ks := SortedUnique(TextValues(rows, key));
    var gs := GroupsFor(rows, key, value, ks);
    assert Keys(gs) == ks;
    forall g | g in gs ensures g.count > 0 {
      var i :| 0 <= i < |gs| && gs[i] == g;
      assert ks[i] in ks;
      CountWherePositive(rows, key, ks[i]);
    }
    gs
  }

  // ----- Sorting by an aggregate and taking the first rows -----

  /** What a chart sorts its groups by. */
  datatype Measure = BySum | ByCount | ByMean

  /** The sort key: the sum, the size, or the exact mean of a group. */
  function Rank(g: Group, m: Measure): real
  {
    match m
    case BySum => g.total as real
    case ByCount => g.count as real
    case ByMean => if g.count == 0 then 0.0 else g.total as real / g.count as real
  }

  predicate InOrder(a: Group, b: Group, m: Measure, ascending: bool)
  {
    if ascending then Rank(a, m) <= Rank(b, m) else Rank(b, m) <= Rank(a, m)
  }

  predicate Ordered(gs: seq<Group>, m: Measure, ascending: bool)
  {
    forall i, j :: 0 <= i < j < |gs| ==> InOrder(gs[i], gs[j], m, ascending)
  }

  lemma OrderedCons(x: Group, s: seq<Group>, m: Measure, ascending: bool)
    requires Ordered(s, m, ascending)
    requires forall y :: y in s ==> InOrder(x, y, m, ascending)
    ensures Ordered([x] + s, m, ascending)
  {
    forall i, j | 0 <= i < j < |[x] + s| ensures InOrder(([x] + s)[i], ([x] + s)[j], m, ascending) {
      if i == 0 {
        assert ([x] + s)[j] == s[j - 1] && s[j - 1] in s;
      } else {
        assert ([x] + s)[i] == s[i - 1] && ([x] + s)[j] == s[j - 1];
      }
    }
  }

  /** Inserts `g` after every group that does not come strictly after it, keeping the order. */
  function InsertGroup(g: Group, gs: seq<Group>, m: Measure, ascending: bool): (r: seq<Group>)
    requires Ordered(gs, m, ascending)
    ensures Ordered(r, m, ascending)
    ensures multiset(r) == multiset(gs) + multiset{g}
    ensures |r| == |gs| + 1
    ensures forall y :: y in r <==> y == g || y in gs
  {
    if gs == [] then [g]
    else if !InOrder(gs[0], g, m, ascending) then
      assert forall y :: y in gs ==> InOrder(g, y, m, ascending) by {
        forall y | y in gs ensures InOrder(g, y, m, ascending) {
          var j :| 0 <= j < |gs| && gs[j] == y;
          if j > 0 {
            assert InOrder(gs[0], gs[j], m, ascending);
          }
        }
      }
      OrderedCons(g, gs, m, ascending);
      [g] + gs
    else
      var rest := InsertGroup(g, gs[1..], m, ascending);
      assert gs == [gs[0]] + gs[1..];
      assert forall y :: y in rest ==> InOrder(gs[0], y, m, ascending) by {
        forall y | y in rest ensures InOrder(gs[0], y, m, ascending) {
          assert y in multiset(rest);
          if y != g {
            var j :| 0 <= j < |gs[1..]| && gs[1..][j] == y;
            assert InOrder(gs[0], gs[j + 1], m, ascending);
          }
        }
      }
      OrderedCons(gs[0], rest, m, ascending);
      [gs[0]] + rest
  }

  /** `sort_values(ascending=...)` on the aggregate `m`: an ordered permutation. */
  function SortGroups(gs: seq<Group>, m: Measure, ascending: bool): (r: seq<Group>)
    ensures Ordered(r, m, ascending)
    ensures multiset(r) == multiset(gs)
    ensures |r| == |gs|
    ensures forall y :: y in r <==> y in gs
  {
    if gs == [] then []
    else
      var n := |gs| - 1;
      assert gs == gs[..n] + [gs[n]];
      InsertGroup(gs[n], SortGroups(gs[..n], m, ascending), m, ascending)
  }

  /** `head(n)`: the first `n` groups, or all of them when there are fewer. */
  function Head(gs: seq<Group>, n: nat): (r: seq<Group>)
    ensures |r| == if |gs| < n then |gs| else n
    ensures forall i :: 0 <= i < |r| ==> r[i] == gs[i]
  {
    if |gs| <= n then gs else gs[..n]
  }

  /** A prefix holds each group at most as often as the whole list. */
  lemma PrefixMultiset(s: seq<Group>, k: nat)
    requires k <= |s|
    ensures multiset(s[..k]) <= multiset(s)
  {
    assert s == s[..k] + s[k..];
  }

  /** Sorting and keeping the first `n`: the kept groups are ordered, come from `gs` (each
      at most as often as there), and none left out comes before any kept one. */
  lemma HeadOfSorted(gs: seq<Group>, m: Measure, ascending: bool, n: nat)
    ensures var r := Head(SortGroups(gs, m, ascending), n);
            && |r| == (if |gs| < n then |gs| else n)
            && Ordered(r, m, ascending)
            && (forall g :: g in r ==> g in gs)
            && multiset(r) <= multiset(gs)
            && (forall g, h :: g in gs && g !in r && h in r ==> InOrder(h, g, m, ascending))
  {    var s := SortGroups(gs, m, ascending);
    var r := Head(s, n);
    assert r == s[..|r|];
    PrefixMultiset(s, |r|);
  }

  /** Sorting, keeping the first `n` and sorting those ascending: as `HeadOfSorted`, but
      the kept groups end up ascending. */
  lemma HeadOfSortedResorted(gs: seq<Group>, m: Measure, ascending: bool, n: nat)
    ensures var r := SortGroups(Head(SortGroups(gs, m, ascending), n), m, true);
            && |r| == (if |gs| < n then |gs| else n)
            && Ordered(r, m, true)
            && (forall g :: g in r ==> g in gs)
            && multiset(r) <= multiset(gs)
            && (forall g, h :: g in gs && g !in r && h in r ==> InOrder(h, g, m, ascending))
  {    HeadOfSorted(gs, m, ascending, n);
  }

  // ----- The charts -----

  /** The number of groups a "Top 10" chart keeps. */
  const TopN: nat := 10

  function SumOfTotals(gs: seq<Group>): int
  {
    if gs == [] then 0 else gs[0].total + SumOfTotals(gs[1..])
  }

  /** Monthly sales: `groupby('order_month')['total_order_value'].sum()`. */
  function MonthlySales(t: Table): (s: Option<seq<Group>>)
    ensures s.Some? <==> OrderMonth in t.columns && TotalOrderValue in t.columns
    ensures s.Some? ==> Ascending(Keys(s.value))
    ensures s.Some? ==> forall k :: k in Keys(s.value) <==> k in TextValues(t.rows, OrderMonth)
    ensures s.Some? ==> forall g :: g in s.value ==>
              && g.total == SumWhere(t.rows, OrderMonth, g.key, Some(TotalOrderValue))
              && g.count == CountWhere(t.rows, OrderMonth, g.key) > 0
  {
    if OrderMonth in t.columns && TotalOrderValue in t.columns
    then Some(GroupBy(t.rows, OrderMonth, Some(TotalOrderValue)))
    else None
  }

  /** State sales: summed per state, sorted ascending, first ten, so the ten lowest. */
  function StateSales(t: Table): (s: Option<seq<Group>>)
    ensures s.Some? <==> CustomerState in t.columns && TotalOrderValue in t.columns
    ensures s.Some? ==> |s.value| <= TopN && Ordered(s.value, BySum, true)
  {
    if CustomerState in t.columns && TotalOrderValue in t.columns
    then Some(Head(SortGroups(GroupBy(t.rows, CustomerState, Some(TotalOrderValue)), BySum, true), TopN))
    else None
  }

  /** Category counts: `value_counts()` (descending), first ten, re-sorted ascending. */
  function TopCategories(t: Table): (s: Option<seq<Group>>)
    ensures s.Some? <==> ProductCategory in t.columns
    ensures s.Some? ==> |s.value| <= TopN && Ordered(s.value, ByCount, true)
  {
    if ProductCategory in t.columns
    then Some(SortGroups(Head(SortGroups(GroupBy(t.rows, ProductCategory, None), ByCount, false), TopN), ByCount, true))
    else None
  }

  /** Mean delivery days per state, sorted ascending, first ten, sorted ascending again. */
  function StateDeliveryTimes(t: Table): (s: Option<seq<Group>>)
    ensures s.Some? <==> CustomerState in t.columns && DeliveryDays in t.columns
    ensures s.Some? ==> |s.value| <= TopN && Ordered(s.value, ByMean, true)
  {
    if CustomerState in t.columns && DeliveryDays in t.columns
    then Some(SortGroups(Head(SortGroups(GroupBy(t.rows, CustomerState, Some(DeliveryDays)), ByMean, true), TopN), ByMean, true))
    else None
  }

  /** Payment method counts: `value_counts()`, largest first. */
  function PaymentCounts(t: Table): (s: Option<seq<Group>>)
    ensures s.Some? <==> PaymentType in t.columns
    ensures s.Some? ==> Ordered(s.value, ByCount, false)
  {
    if PaymentType in t.columns
    then Some(SortGroups(GroupBy(t.rows, PaymentType, None), ByCount, false))
    else None
  }

  /** Mean review score per payment type, sorted ascending. */
  function PaymentReviewMeans(t: Table): (s: Option<seq<Group>>)
    ensures s.Some? <==> PaymentType in t.columns && ReviewScore in t.columns
    ensures s.Some? ==> Ordered(s.value, ByMean, true)
  {
    if PaymentType in t.columns && ReviewScore in t.columns
    then Some(SortGroups(GroupBy(t.rows, PaymentType, Some(ReviewScore)), ByMean, true))
    else None
  }

  // ----- What the charts show -----

  lemma {:induction false} NoRowsNoTotal(key: Column, c: Column, ks: seq<string>)
    requires key.IsText() && !c.IsText()
    ensures SumOfTotals(GroupsFor([], key, Some(c), ks)) == 0
    decreases |ks|
  {
    if ks != [] {
      NoRowsNoTotal(key, c, ks[1..]);
      assert GroupsFor([], key, Some(c), ks)[1..] == GroupsFor([], key, Some(c), ks[1..]);
    }
  }

  /** Removing the first row takes its value out of the one group whose key it has. */
  lemma {:induction false} PeelRow(rows: seq<Row>, key: Column, c: Column, ks: seq<string>)
    requires key.IsText() && !c.IsText()
    requires rows != [] && Ascending(ks)
    ensures SumOfTotals(GroupsFor(rows, key, Some(c), ks))
            == SumOfTotals(GroupsFor(rows[1..], key, Some(c), ks))
               + (if Text(rows[0], key) in ks then Number(rows[0], c) else 0)
    decreases |ks|
  {
    if ks != [] {
      PeelRow(rows, key, c, ks[1..]);
      assert GroupsFor(rows, key, Some(c), ks)[1..] == GroupsFor(rows, key, Some(c), ks[1..]);
      assert GroupsFor(rows[1..], key, Some(c), ks)[1..] == GroupsFor(rows[1..], key, Some(c), ks[1..]);
      AscendingHasNoDuplicates(ks);
      assert Text(rows[0], key) in ks <==> Text(rows[0], key) == ks[0] || Text(rows[0], key) in ks[1..];
      if Text(rows[0], key) == ks[0] {
        assert Text(rows[0], key) !in ks[1..];
      }
    }
  }

  /** The group sums partition the column total when every row's key is among the groups. */
  lemma {:induction false} GroupTotalsAddUp(rows: seq<Row>, key: Column, c: Column, ks: seq<string>)
    requires key.IsText() && !c.IsText()
    requires Ascending(ks)
    requires forall i :: 0 <= i < |rows| ==> Text(rows[i], key) in ks
    ensures SumOfTotals(GroupsFor(rows, key, Some(c), ks)) == Total(rows, c)
    decreases |rows|
  {
    if rows == [] {
      NoRowsNoTotal(key, c, ks);
    } else {
      assert Text(rows[0], key) in ks;
      GroupTotalsAddUp(rows[1..], key, c, ks);
      PeelRow(rows, key, c, ks);
    }
  }

  /** The monthly sales add up to the total revenue KPI. */
  lemma MonthlySalesAddUpToRevenue(t: Table)
    ensures MonthlySales(t).Some? <==> OrderMonth in t.columns && TotalOrderValue in t.columns
    ensures MonthlySales(t).Some? ==> SumOfTotals(MonthlySales(t).value) == CalculateKpis(t).totalRevenue
  {
    if MonthlySales(t).Some? {
      var ks := SortedUnique(TextValues(t.rows, OrderMonth));
      forall i | 0 <= i < |t.rows| ensures Text(t.rows[i], OrderMonth) in ks {
        assert TextValues(t.rows, OrderMonth)[i] == Text(t.rows[i], OrderMonth);
      }
      GroupTotalsAddUp(t.rows, OrderMonth, TotalOrderValue, ks);
    }
  }

  /** The "Top 10 States by Sales" chart holds the ten states with the LOWEST sales, ascending. */
  lemma StateSalesAreLowestTen(t: Table)
    ensures StateSales(t).Some? <==> CustomerState in t.columns && TotalOrderValue in t.columns
    ensures StateSales(t).Some? ==>
              var groups := GroupBy(t.rows, CustomerState, Some(TotalOrderValue));
              var r := StateSales(t).value;
              && |r| == (if |groups| < TopN then |groups| else TopN)
              && (forall i, j :: 0 <= i < j < |r| ==> r[i].total <= r[j].total)
              && (forall g :: g in r ==> g in groups)
              && multiset(r) <= multiset(groups)
              && (forall g, h :: g in groups && g !in r && h in r ==> h.total <= g.total)
  {    if StateSales(t).Some? {
      var groups := GroupBy(t.rows, CustomerState, Some(TotalOrderValue));
      var r := StateSales(t).value;
      assert r == Head(SortGroups(groups, BySum, true), TopN);
      HeadOfSorted(groups, BySum, true, TopN);
      forall i, j | 0 <= i < j < |r| ensures r[i].total <= r[j].total {
        assert InOrder(r[i], r[j], BySum, true);
      }
      forall g, h | g in groups && g !in r && h in r ensures h.total <= g.total {
        assert InOrder(h, g, BySum, true);
      }
    }
  }

  /** The category chart holds the ten most frequent categories, shown in ascending count. */
  lemma TopCategoriesAreHighestTen(t: Table)
    ensures TopCategories(t).Some? <==> ProductCategory in t.columns
    ensures TopCategories(t).Some? ==>
              var groups := GroupBy(t.rows, ProductCategory, None);
              var r := TopCategories(t).value;
              && |r| == (if |groups| < TopN then |groups| else TopN)
              && (forall i, j :: 0 <= i < j < |r| ==> r[i].count <= r[j].count)
              && (forall g :: g in r ==> g in groups)
              && multiset(r) <= multiset(groups)
              && (forall g, h :: g in groups && g !in r && h in r ==> g.count <= h.count)
  {    if TopCategories(t).Some? {
      HeadOfSortedResorted(GroupBy(t.rows, ProductCategory, None), ByCount, false, TopN);
    }
  }

  /** The delivery chart holds the ten states with the lowest mean delivery time, ascending. */
  lemma StateDeliveryTimesAreLowestTen(t: Table)
    ensures StateDeliveryTimes(t).Some? <==> CustomerState in t.columns && DeliveryDays in t.columns
    ensures StateDeliveryTimes(t).Some? ==>
              var groups := GroupBy(t.rows, CustomerState, Some(DeliveryDays));
              var r := StateDeliveryTimes(t).value;
              && |r| == (if |groups| < TopN then |groups| else TopN)
              && Ordered(r, ByMean, true)
              && (forall g :: g in r ==> g in groups)
              && multiset(r) <= multiset(groups)
              && (forall g, h :: g in groups && g !in r && h in r ==> Rank(h, ByMean) <= Rank(g, ByMean))
  {    if StateDeliveryTimes(t).Some? {
      var groups := GroupBy(t.rows, CustomerState, Some(DeliveryDays));
      var r := StateDeliveryTimes(t).value;
      assert r == SortGroups(Head(SortGroups(groups, ByMean, true), TopN), ByMean, true);
      HeadOfSortedResorted(groups, ByMean, true, TopN);
      forall g, h | g in groups && g !in r && h in r ensures Rank(h, ByMean) <= Rank(g, ByMean) {
        assert InOrder(h, g, ByMean, true);
      }
    }
  }

  /** The payment pie holds every payment type once, largest count first. */
  lemma PaymentCountsCoverEveryType(t: Table)
    ensures PaymentCounts(t).Some? <==> PaymentType in t.columns
    ensures PaymentCounts(t).Some? ==>
              var groups := GroupBy(t.rows, PaymentType, None);
              var r := PaymentCounts(t).value;
              && multiset(r) == multiset(groups)
              && (forall i, j :: 0 <= i < j < |r| ==> r[j].count <= r[i].count)
              && (forall g :: g in r ==> g.count == CountWhere(t.rows, PaymentType, g.key))
  {
  }

  /** The review-by-payment chart holds every payment type once with its mean score, ascending. */
  lemma PaymentReviewMeansCoverEveryType(t: Table)
    ensures PaymentReviewMeans(t).Some? <==> PaymentType in t.columns && ReviewScore in t.columns
    ensures PaymentReviewMeans(t).Some? ==>
              var groups := GroupBy(t.rows, PaymentType, Some(ReviewScore));
              var r := PaymentReviewMeans(t).value;
              && multiset(r) == multiset(groups)
              && Ordered(r, ByMean, true)
              && (forall g :: g in r ==>
                    g.count == CountWhere(t.rows, PaymentType, g.key)
                    && g.total == SumWhere(t.rows, PaymentType, g.key, Some(ReviewScore)))
  {
  }
}
