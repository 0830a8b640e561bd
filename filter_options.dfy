/** The sidebar's option lists and the selections its widgets start with. */
module FilterOptions {
  import opened Wrappers
  import opened Strings
  import opened Orders
  import opened Filters

  /** `options` is the sentinel followed by every distinct value of column `c`, once each,
      ascending or descending; just the sentinel when the table has no such column. */
  ghost predicate IsOptionList(options: seq<string>, t: Table, c: Column, ascending: bool)
    requires c.IsText()
  {
    && |options| >= 1
    && options[0] == All
    && (c !in t.columns ==> options == [All])
    && (c in t.columns ==>
          && (if ascending then Ascending(options[1..]) else Descending(options[1..]))
          && forall v :: v in options[1..] <==> v in TextValues(t.rows, c))
  }

  /** `['All'] + sorted(df[c].unique())`, or with `reverse=True`; `['All']` when `c` is missing. */
  function ColumnOptions(t: Table, c: Column, ascending: bool): (options: seq<string>)
    requires c.IsText()
    ensures IsOptionList(options, t, c, ascending)
  {
    if c !in t.columns then [All]
    else
      var values := TextValues(t.rows, c);
      var sorted := if ascending then SortedUnique(values) else SortedUniqueDescending(values);
      assert ([All] + sorted)[1..] == sorted;
      [All] + sorted
  }

  /** `IsOptionList` leaves no freedom: two lists meeting it are equal. */
  lemma OptionListIsUnique(a: seq<string>, b: seq<string>, t: Table, c: Column, ascending: bool)
    requires c.IsText()
    requires IsOptionList(a, t, c, ascending) && IsOptionList(b, t, c, ascending)
    ensures a == b
  {
    if c in t.columns {
      if ascending {
        AscendingUnique(a[1..], b[1..]);
      } else {
        DescendingUnique(a[1..], b[1..]);
      }
      assert a == [a[0]] + a[1..] && b == [b[0]] + b[1..];
    }
  }

  function MonthOptions(t: Table): (options: seq<string>)
    ensures IsOptionList(options, t, OrderMonth, true)
  {
    ColumnOptions(t, OrderMonth, true)
  }

  function CategoryOptions(t: Table): (options: seq<string>)
    ensures IsOptionList(options, t, ProductCategory, false)
  {
    ColumnOptions(t, ProductCategory, false)
  }

  function StateOptions(t: Table): (options: seq<string>)
    ensures IsOptionList(options, t, CustomerState, false)
  {
    ColumnOptions(t, CustomerState, false)
  }

  function PaymentOptions(t: Table): (options: seq<string>)
    ensures IsOptionList(options, t, PaymentType, true)
  {
    ColumnOptions(t, PaymentType, true)
  }

  /** The smallest review score, `df['review_score'].min()`. */
  function MinScore(rows: seq<Row>): (m: int)
    requires rows != []
    ensures exists r :: r in rows && r.reviewScore == m
    ensures forall r :: r in rows ==> m <= r.reviewScore
  {
    if |rows| == 1 then rows[0].reviewScore
    else
      var rest := MinScore(rows[1..]);
      assert forall r :: r in rows ==> r == rows[0] || r in rows[1..];
      if rows[0].reviewScore <= rest then rows[0].reviewScore else rest
  }

  /** The largest review score, `df['review_score'].max()`. */
  function MaxScore(rows: seq<Row>): (m: int)
    requires rows != []
    ensures exists r :: r in rows && r.reviewScore == m
    ensures forall r :: r in rows ==> r.reviewScore <= m
  {
    if |rows| == 1 then rows[0].reviewScore
    else
      var rest := MaxScore(rows[1..]);
      assert forall r :: r in rows ==> r == rows[0] || r in rows[1..];
      if rows[0].reviewScore >= rest then rows[0].reviewScore else rest
  }

  /** The review slider's bounds and starting range: the column's minimum and maximum, or
      `(1, 5)` without the column. On an empty table with the column the minimum is NaN and
      `int` raises, which is `None` here. */
  function ReviewRange(t: Table): (range: Option<(int, int)>)
    ensures ReviewScore !in t.columns ==> range == Some((1, 5))
    ensures ReviewScore in t.columns ==> (range.None? <==> t.rows == [])
    ensures ReviewScore in t.columns && range.Some? ==>
              && (exists r :: r in t.rows && r.reviewScore == range.value.0)
              && (exists r :: r in t.rows && r.reviewScore == range.value.1)
              && forall r :: r in t.rows ==> range.value.0 <= r.reviewScore <= range.value.1
  {
    if ReviewScore !in t.columns then Some((1, 5))
    else if t.rows == [] then None
    else Some((MinScore(t.rows), MaxScore(t.rows)))
  }

  /** What the widgets return before the user touches them: `['All']` in each multiselect,
      the full review range, and the first payment option. */
  function InitialSelections(t: Table): (sel: Option<Selections>)
    ensures sel.None? <==> ReviewScore in t.columns && t.rows == []
    ensures sel.Some? ==>
              && sel.value.months == [All] && sel.value.categories == [All] && sel.value.states == [All]
              && sel.value.payment == All
    ensures sel.Some? ==> ReviewRange(t) == Some((sel.value.minReview, sel.value.maxReview))
  {
    match ReviewRange(t)
    case None => None
    case Some((lo, hi)) => Some(Selections([All], [All], [All], lo, hi, PaymentOptions(t)[0]))
  }

  /** The dashboard opens showing every order. */
  lemma InitialSelectionsKeepEveryRow(t: Table)
    ensures InitialSelections(t).Some? ==> Filtered(t, InitialSelections(t).value) == t
  {
    if InitialSelections(t).Some? {
      var sel := InitialSelections(t).value;
      assert All in [All];
      UnrestrictedFilterIsIdentity(t, sel);
    }
  }
}
