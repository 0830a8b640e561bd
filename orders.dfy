/** The order dataset: one row per order, and the set of columns the loaded file has. */
module Orders {

  /** The columns the dashboard consults. Any of them may be missing from the file. */
  datatype Column =
    | OrderMonth        // order_month
    | ProductCategory   // product_category_name_english
    | CustomerState     // customer_state
    | PaymentType       // payment_type
    | CustomerUniqueId  // customer_unique_id
    | ReviewScore       // review_score
    | TotalOrderValue   // total_order_value, in cents
    | FreightValue      // freight_value, in cents
    | Price             // price, in cents
    | DeliveryDays      // delivery_days
  {
    /** Columns holding labels rather than numbers. */
    predicate IsText()
    {
      OrderMonth? || ProductCategory? || CustomerState? || PaymentType? || CustomerUniqueId?
    }
  }

  /** One order. Every field has a value; whether the column exists is recorded in the table. */
  datatype Row = Row(
    orderMonth: string,
    category: string,
    state: string,
    paymentType: string,
    customerId: string,
    reviewScore: int,
    totalOrderValue: int,
    freightValue: int,
    price: int,
    deliveryDays: int)

  /** A loaded data frame: the columns it has and its rows in file order. */
  datatype Table = Table(columns: set<Column>, rows: seq<Row>)

  function Text(r: Row, c: Column): string
    requires c.IsText()
  {
    if c == OrderMonth then r.orderMonth
    else if c == ProductCategory then r.category
    else if c == CustomerState then r.state
    else if c == PaymentType then r.paymentType
    else r.customerId
  }

  function Number(r: Row, c: Column): int
    requires !c.IsText()
  {
    if c == ReviewScore then r.reviewScore
    else if c == TotalOrderValue then r.totalOrderValue
    else if c == FreightValue then r.freightValue
    else if c == Price then r.price
    else r.deliveryDays
  }

  /** The column `c` as a list, one entry per row. */
  function TextValues(rows: seq<Row>, c: Column): (vs: seq<string>)
    requires c.IsText()
    ensures |vs| == |rows|
    ensures forall i :: 0 <= i < |rows| ==> vs[i] == Text(rows[i], c)
  {
    if rows == [] then [] else [Text(rows[0], c)] + TextValues(rows[1..], c)
  }

  /** `df[c].sum()` over a numeric column. */
  function Total(rows: seq<Row>, c: Column): (sum: int)
    requires !c.IsText()
    ensures (forall i :: 0 <= i < |rows| ==> Number(rows[i], c) >= 0) ==> sum >= 0
  {
    if rows == [] then 0
    else
      assert forall i :: 0 <= i < |rows[1..]| ==> rows[1..][i] == rows[i + 1];
      Number(rows[0], c) + Total(rows[1..], c)
  }

  /** The sum over two tables' rows put together is the sum of the two sums. */
  lemma {:induction false} TotalAppend(a: seq<Row>, b: seq<Row>, c: Column)
    requires !c.IsText()
    ensures Total(a + b, c) == Total(a, c) + Total(b, c)
    decreases |a|
  {
    if a == [] {
      assert a + b == b;
    } else {
      assert (a + b)[0] == a[0] && (a + b)[1..] == a[1..] + b;
      TotalAppend(a[1..], b, c);
    }
  }

  /** Every value of column `c` lies in `[lo, hi]`, so the sum lies in `[lo * n, hi * n]`. */
  lemma {:induction false} TotalBounds(rows: seq<Row>, c: Column, lo: int, hi: int)
    requires !c.IsText()
    requires forall r :: r in rows ==> lo <= Number(r, c) <= hi
    ensures lo * |rows| <= Total(rows, c) <= hi * |rows|
    decreases |rows|
  {
    if rows != [] {
      var n := |rows| - 1;
      assert rows[0] in rows;
      TotalBounds(rows[1..], c, lo, hi);
      Distribute(lo, n);
      Distribute(hi, n);
    }
  }

  lemma Distribute(x: int, n: nat)
    ensures x * (n + 1) == x + x * n
  {
  }
}
