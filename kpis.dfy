/** `calculate_kpis`: the six headline numbers over a (filtered) table. */
module Kpis {
  import opened Orders
  import opened Filters

  /** An arithmetic mean kept exactly as its sum and its number of terms. */
  datatype Mean = Mean(total: int, count: nat)
  {
    /** The value the dashboard shows; 0 when there is nothing to average. */
    function Value(): real
    {
      if count == 0 then 0.0 else total as real / count as real
    }
  }

  datatype Kpis = Kpis(
    totalOrders: nat,
    totalRevenue: int,
    avgRating: Mean,
    avgFreightCost: Mean,
    totalCustomers: nat,
    avgPrice: Mean)
  {
    predicate IsAllZero()
    {
      && totalOrders == 0 && totalRevenue == 0 && totalCustomers == 0
      && avgRating.Value() == 0.0 && avgFreightCost.Value() == 0.0 && avgPrice.Value() == 0.0
    }
  }

  /** The distinct customer identifiers, whose number is `nunique()`. */
  function DistinctCustomers(rows: seq<Row>): (ids: set<string>)
    ensures forall i :: 0 <= i < |rows| ==> rows[i].customerId in ids
    ensures forall id :: id in ids ==> exists i :: 0 <= i < |rows| && rows[i].customerId == id
    ensures ids == {} <==> rows == []
  {
    assert rows != [] ==> rows[0].customerId in set r | r in rows :: r.customerId;
    set r | r in rows :: r.customerId
  }

  lemma {:induction false} DistinctCustomersAtMostRows(rows: seq<Row>)
    ensures |DistinctCustomers(rows)| <= |rows|
    decreases |rows|
  {
    if rows != [] {
      DistinctCustomersAtMostRows(rows[1..]);
      var rest := DistinctCustomers(rows[1..]);
      assert DistinctCustomers(rows) == rest + {rows[0].customerId} by {
        forall x | x in DistinctCustomers(rows)
          ensures x in rest + {rows[0].customerId}
        {
          var r :| r in rows && r.customerId == x;
          if r != rows[0] {
            assert r in rows[1..];
          }
        }
        forall x | x in rest
          ensures x in DistinctCustomers(rows)
        {
          var r :| r in rows[1..] && r.customerId == x;
          assert r in rows;
        }
      }
    }
  }

  /** `df[c].mean()` as a sum and a count, or 0 when the column is missing. */
  function ColumnMean(t: Table, c: Column): (m: Mean)
    requires !c.IsText()
    ensures c in t.columns && t.rows != [] ==> m.Value() * |t.rows| as real == Total(t.rows, c) as real
    ensures c !in t.columns || t.rows == [] ==> m.Value() == 0.0
  {
    if c in t.columns then Mean(Total(t.rows, c), |t.rows|) else Mean(0, 0)
  }

  function CalculateKpis(t: Table): (k: Kpis)
    ensures t.rows == [] ==> k.IsAllZero()
    ensures k.totalOrders == |t.rows|
    ensures k.totalCustomers <= k.totalOrders
    ensures CustomerUniqueId in t.columns ==> k.totalCustomers == |DistinctCustomers(t.rows)|
    ensures TotalOrderValue in t.columns ==> k.totalRevenue == Total(t.rows, TotalOrderValue)
    ensures TotalOrderValue !in t.columns ==> k.totalRevenue == 0
    ensures CustomerUniqueId !in t.columns ==> k.totalCustomers == 0
    ensures ReviewScore !in t.columns ==> k.avgRating.Value() == 0.0
    ensures FreightValue !in t.columns ==> k.avgFreightCost.Value() == 0.0
    ensures Price !in t.columns ==> k.avgPrice.Value() == 0.0
    ensures t.rows != [] && ReviewScore in t.columns ==> k.avgRating == Mean(Total(t.rows, ReviewScore), |t.rows|)
    ensures t.rows != [] && FreightValue in t.columns ==> k.avgFreightCost == Mean(Total(t.rows, FreightValue), |t.rows|)
    ensures t.rows != [] && Price in t.columns ==> k.avgPrice == Mean(Total(t.rows, Price), |t.rows|)
  {
    if |t.rows| == 0 then Kpis(0, 0, Mean(0, 0), Mean(0, 0), 0, Mean(0, 0))
    else
      DistinctCustomersAtMostRows(t.rows);
      Kpis(
        |t.rows|,
        if TotalOrderValue in t.columns then Total(t.rows, TotalOrderValue) else 0,
        ColumnMean(t, ReviewScore),
        ColumnMean(t, FreightValue),
        if CustomerUniqueId in t.columns then |DistinctCustomers(t.rows)| else 0,
        ColumnMean(t, Price))
  }

  /** A mean whose sum lies in `[lo * count, hi * count]` lies in `[lo, hi]`. */
  lemma MeanBounds(m: Mean, lo: int, hi: int)
    requires m.count > 0 && lo * m.count <= m.total <= hi * m.count
    ensures lo as real <= m.Value() <= hi as real
  {
    var n := m.count as real;
    var q := m.total as real / n;
    assert q * n == m.total as real;
    assert (lo * m.count) as real == lo as real * n;
    assert (hi * m.count) as real == hi as real * n;
    if q < lo as real {
      assert q * n < lo as real * n;
    }
    if q > hi as real {
      assert q * n > hi as real * n;
    }
  }

  /** A column mean lies between any bounds of the column's values. */
  lemma ColumnMeanBounds(t: Table, c: Column, lo: int, hi: int)
    requires !c.IsText() && c in t.columns && t.rows != []
    requires forall r :: r in t.rows ==> lo <= Number(r, c) <= hi
    ensures lo as real <= ColumnMean(t, c).Value() <= hi as real
  {
    TotalBounds(t.rows, c, lo, hi);
    MeanBounds(ColumnMean(t, c), lo, hi);
  }

  /** After filtering on the review range, the average rating lies inside that range. */
  lemma AverageRatingWithinSelectedRange(t: Table, sel: Selections)
    requires ReviewScore in t.columns
    ensures var k := CalculateKpis(Filtered(t, sel));
            && sel.minReview * k.avgRating.count <= k.avgRating.total <= sel.maxReview * k.avgRating.count
            && (k.totalOrders > 0 ==> sel.minReview as real <= k.avgRating.Value() <= sel.maxReview as real)
  {
    var f := Filtered(t, sel);
    FilteredIsSubsequence(t, sel);
    forall r | r in f.rows ensures sel.minReview <= r.reviewScore <= sel.maxReview {
      KeptIffEveryActivePredicateHolds(t, sel, r);
    }
    TotalBounds(f.rows, ReviewScore, sel.minReview, sel.maxReview);
    if f.rows != [] {
      ColumnMeanBounds(f, ReviewScore, sel.minReview, sel.maxReview);
    }
  }

  /** Selecting a single state that no order has leaves no rows, and every KPI is then 0. */
  lemma AbsentStateYieldsZeroKpis(t: Table, sel: Selections, state: string)
    requires CustomerState in t.columns && sel.states == [state] && state != All
    requires forall r :: r in t.rows ==> r.state != state
    ensures Filtered(t, sel).rows == []
    ensures CalculateKpis(Filtered(t, sel)).IsAllZero()
  {
    if Filtered(t, sel).rows != [] {
      var r := Filtered(t, sel).rows[0];
      KeptIffEveryActivePredicateHolds(t, sel, r);
    }
  }
}
