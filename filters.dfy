/** The row filter of `apply_filters`: five guarded narrowing steps over a copy of the table. */
module Filters {
  import opened Orders

  /** The sentinel a selection uses for "do not filter on this column". */
  const All: string := "All"

  /** What the sidebar widgets return: three multiselects, the review slider and the payment box. */
  datatype Selections = Selections(
    months: seq<string>,
    categories: seq<string>,
    states: seq<string>,
    minReview: int,
    maxReview: int,
    payment: string)

  /** One narrowing step of the filter. */
  datatype Condition =
    | MonthIn(months: seq<string>)          // order_month.isin(months)
    | CategoryIn(categories: seq<string>)   // product_category_name_english.isin(categories)
    | StateIn(states: seq<string>)          // customer_state.isin(states)
    | ReviewBetween(lo: int, hi: int)       // lo <= review_score <= hi
    | PaymentIs(payment: string)            // payment_type == payment

  predicate Holds(c: Condition, r: Row)
  {
    match c
    case MonthIn(ms) => r.orderMonth in ms
    case CategoryIn(cs) => r.category in cs
    case StateIn(ss) => r.state in ss
    case ReviewBetween(lo, hi) => lo <= r.reviewScore <= hi
    case PaymentIs(p) => r.paymentType == p
  }

  predicate AllHold(conds: seq<Condition>, r: Row)
  {
    forall c :: c in conds ==> Holds(c, r)
  }

  /** The steps `apply_filters` takes for these columns and selections, in its order. */
  function ActiveConditions(columns: set<Column>, sel: Selections): (conds: seq<Condition>)
    ensures |conds| <= 5
    ensures forall c :: c in conds ==>
              c in [MonthIn(sel.months), CategoryIn(sel.categories), StateIn(sel.states),
                    ReviewBetween(sel.minReview, sel.maxReview), PaymentIs(sel.payment)]
    ensures MonthIn(sel.months) in conds <==> OrderMonth in columns && All !in sel.months
    ensures CategoryIn(sel.categories) in conds <==> ProductCategory in columns && All !in sel.categories
    ensures StateIn(sel.states) in conds <==> CustomerState in columns && All !in sel.states
    ensures ReviewBetween(sel.minReview, sel.maxReview) in conds <==> ReviewScore in columns
    ensures PaymentIs(sel.payment) in conds <==> PaymentType in columns && sel.payment != All
  {
    var m := if OrderMonth in columns && All !in sel.months then [MonthIn(sel.months)] else [];
    var c := if ProductCategory in columns && All !in sel.categories then [CategoryIn(sel.categories)] else [];
    var s := if CustomerState in columns && All !in sel.states then [StateIn(sel.states)] else [];
    var v := if ReviewScore in columns then [ReviewBetween(sel.minReview, sel.maxReview)] else [];
    var p := if PaymentType in columns && sel.payment != All then [PaymentIs(sel.payment)] else [];
    assert forall x :: x in m + c + s + v + p <==> x in m || x in c || x in s || x in v || x in p;
    m + c + s + v + p
  }

  /** The rows a filter keeps, written out predicate by predicate: each one applies only
      when its column exists and its selection is not the sentinel. */
  predicate Keep(columns: set<Column>, sel: Selections, r: Row)
  {
    && (OrderMonth in columns && All !in sel.months ==> r.orderMonth in sel.months)
    && (ProductCategory in columns && All !in sel.categories ==> r.category in sel.categories)
    && (CustomerState in columns && All !in sel.states ==> r.state in sel.states)
    && (ReviewScore in columns ==> sel.minReview <= r.reviewScore <= sel.maxReview)
    && (PaymentType in columns && sel.payment != All ==> r.paymentType == sel.payment)
  }

  /** Boolean indexing `rows[mask]`: the rows meeting every condition, in their order. */
  function Where(rows: seq<Row>, conds: seq<Condition>): (kept: seq<Row>)
    ensures |kept| <= |rows|
  {
    if rows == [] then []
    else
      var n := |rows| - 1;
      Where(rows[..n], conds) + (if AllHold(conds, rows[n]) then [rows[n]] else [])
  }

  /** The positions of the rows `Where` keeps. */
  function KeptIndices(rows: seq<Row>, conds: seq<Condition>): (idx: seq<nat>)
    ensures forall k :: 0 <= k < |idx| ==> idx[k] < |rows|
    ensures forall k, l :: 0 <= k < l < |idx| ==> idx[k] < idx[l]
    ensures forall i :: 0 <= i < |rows| ==> (i in idx <==> AllHold(conds, rows[i]))
  {
    if rows == [] then []
    else
      var n := |rows| - 1;
      KeptIndices(rows[..n], conds) + (if AllHold(conds, rows[n]) then [n] else [])
  }

  /** The filtered table: the same columns, and the rows at exactly the kept positions. */
  function Filtered(t: Table, sel: Selections): (f: Table)
    ensures f.columns == t.columns
    ensures |f.rows| <= |t.rows|
  {
    Table(t.columns, Where(t.rows, ActiveConditions(t.columns, sel)))
  }

  /** `apply_filters` after the widgets: copy the table, then narrow it step by step. */
  method ApplyFilters(t: Table, sel: Selections) returns (filtered: Table)
    ensures filtered == Filtered(t, sel)
  {
    var rows := t.rows;
    ghost var applied: seq<Condition> := [];
    WhereNothing(t.rows);

    var monthGuard := OrderMonth in t.columns && All !in sel.months;
    if monthGuard {
      rows := Where(rows, [MonthIn(sel.months)]);
    }
    NarrowStep(t.rows, applied, monthGuard, MonthIn(sel.months));
    applied := applied + if monthGuard then [MonthIn(sel.months)] else [];
    assert rows == Where(t.rows, applied);
    assert applied == if monthGuard then [MonthIn(sel.months)] else [];

    var categoryGuard := ProductCategory in t.columns && All !in sel.categories;
    if categoryGuard {
      rows := Where(rows, [CategoryIn(sel.categories)]);
    }
    NarrowStep(t.rows, applied, categoryGuard, CategoryIn(sel.categories));
    applied := applied + if categoryGuard then [CategoryIn(sel.categories)] else [];
    assert rows == Where(t.rows, applied);

    var stateGuard := CustomerState in t.columns && All !in sel.states;
    if stateGuard {
      rows := Where(rows, [StateIn(sel.states)]);
    }
    NarrowStep(t.rows, applied, stateGuard, StateIn(sel.states));
    applied := applied + if stateGuard then [StateIn(sel.states)] else [];
    assert rows == Where(t.rows, applied);

    var reviewGuard := ReviewScore in t.columns;
    if reviewGuard {
      rows := Where(rows, [ReviewBetween(sel.minReview, sel.maxReview)]);
    }
    NarrowStep(t.rows, applied, reviewGuard, ReviewBetween(sel.minReview, sel.maxReview));
    applied := applied + if reviewGuard then [ReviewBetween(sel.minReview, sel.maxReview)] else [];
    assert rows == Where(t.rows, applied);

    var paymentGuard := PaymentType in t.columns && sel.payment != All;
    if paymentGuard {
      rows := Where(rows, [PaymentIs(sel.payment)]);
    }
    NarrowStep(t.rows, applied, paymentGuard, PaymentIs(sel.payment));
    applied := applied + if paymentGuard then [PaymentIs(sel.payment)] else [];
    assert rows == Where(t.rows, applied);

    assert applied == ActiveConditions(t.columns, sel);
    filtered := Table(t.columns, rows);
  }

  /** One guarded step of `ApplyFilters`: narrowing by `c` when `guard` holds extends the applied conditions. */
  lemma NarrowStep(rows: seq<Row>, applied: seq<Condition>, guard: bool, c: Condition)
    ensures (if guard then Where(Where(rows, applied), [c]) else Where(rows, applied))
            == Where(rows, applied + if guard then [c] else [])
  {
    if guard {
      WhereThenWhere(rows, applied, [c]);
    } else {
      assert applied + [] == applied;
    }
  }

  // ----- Laws of Where -----

  lemma AllHoldAppend(a: seq<Condition>, b: seq<Condition>, r: Row)
    ensures AllHold(a + b, r) <==> AllHold(a, r) && AllHold(b, r)
  {
    assert forall c :: c in a + b <==> c in a || c in b;
  }

  lemma WhereSnoc(p: seq<Row>, x: Row, conds: seq<Condition>)
    ensures Where(p + [x], conds) == Where(p, conds) + (if AllHold(conds, x) then [x] else [])
  {
    assert (p + [x])[..|p|] == p;
  }

  lemma {:induction false} WhereNothing(rows: seq<Row>)
    ensures Where(rows, []) == rows
    decreases |rows|
  {
    if rows != [] {
      var n := |rows| - 1;
      WhereNothing(rows[..n]);
      assert rows == rows[..n] + [rows[n]];
    }
  }

  /** Narrowing twice is narrowing once by both sets of conditions. */
  lemma {:induction false} WhereThenWhere(rows: seq<Row>, a: seq<Condition>, b: seq<Condition>)
    ensures Where(Where(rows, a), b) == Where(rows, a + b)
    decreases |rows|
  {
    if rows != [] {
      var n := |rows| - 1;
      var p, last := rows[..n], rows[n];
      assert rows == p + [last];
      WhereThenWhere(p, a, b);
      AllHoldAppend(a, b, last);
      WhereSnoc(p, last, a);
      WhereSnoc(p, last, a + b);
      if AllHold(a, last) {
        WhereSnoc(Where(p, a), last, b);
        assert Where(rows, a) == Where(p, a) + [last];
      } else {
        assert Where(rows, a) == Where(p, a);
        assert Where(rows, a + b) == Where(p, a + b);
      }
    }
  }

  /** Only which conditions are present matters, not their order or repetition. */
  lemma {:induction false} WhereSameConditions(rows: seq<Row>, a: seq<Condition>, b: seq<Condition>)
    requires forall c :: c in a <==> c in b
    ensures Where(rows, a) == Where(rows, b)
    decreases |rows|
  {
    if rows != [] {
      WhereSameConditions(rows[..|rows| - 1], a, b);
    }
  }

  /** The rows kept are those at the kept positions, in order. */
  lemma {:induction false} WhereSelectsKeptIndices(rows: seq<Row>, conds: seq<Condition>)
    ensures |Where(rows, conds)| == |KeptIndices(rows, conds)|
    ensures forall k :: 0 <= k < |Where(rows, conds)| ==>
              Where(rows, conds)[k] == rows[KeptIndices(rows, conds)[k]]
    decreases |rows|
  {
    if rows != [] {
      var n := |rows| - 1;
      var p := rows[..n];
      WhereSelectsKeptIndices(p, conds);
      var w, idx := Where(p, conds), KeptIndices(p, conds);
      var extra := if AllHold(conds, rows[n]) then [rows[n]] else [];
      var extraIdx := if AllHold(conds, rows[n]) then [n] else [];
      assert rows == p + [rows[n]];
      WhereSnoc(p, rows[n], conds);
      assert Where(rows, conds) == w + extra;
      assert KeptIndices(rows, conds) == idx + extraIdx;
      forall k | 0 <= k < |w + extra| ensures (w + extra)[k] == rows[(idx + extraIdx)[k]] {
        if k < |w| {
          assert (w + extra)[k] == w[k] && (idx + extraIdx)[k] == idx[k];
        }
      }
    }
  }

  /** Each row value occurs in the result as often as in the input if it is kept, else never. */
  lemma {:induction false} WhereCounts(rows: seq<Row>, conds: seq<Condition>, r: Row)
    ensures multiset(Where(rows, conds))[r] == if AllHold(conds, r) then multiset(rows)[r] else 0
    decreases |rows|
  {
    if rows != [] {
      var n := |rows| - 1;
      WhereCounts(rows[..n], conds, r);
      assert rows == rows[..n] + [rows[n]];
    }
  }

  /** A step-by-step application of conditions, in any chosen order. */
  function ApplyEach(rows: seq<Row>, order: seq<Condition>): seq<Row>
    decreases |order|
  {
    if order == [] then rows else ApplyEach(Where(rows, [order[0]]), order[1..])
  }

  lemma {:induction false} ApplyEachIsWhere(rows: seq<Row>, order: seq<Condition>)
    ensures ApplyEach(rows, order) == Where(rows, order)
    decreases |order|
  {
    if order == [] {
      WhereNothing(rows);
    } else {
      ApplyEachIsWhere(Where(rows, [order[0]]), order[1..]);
      WhereThenWhere(rows, [order[0]], order[1..]);
      assert [order[0]] + order[1..] == order;
    }
  }

  // ----- Properties of the filter -----

  ghost predicate IsSubsequence(a: seq<Row>, b: seq<Row>)
  {
    exists idx: seq<nat> ::
      && |idx| == |a|
      && (forall k :: 0 <= k < |idx| ==> idx[k] < |b| && a[k] == b[idx[k]])
      && (forall k, l :: 0 <= k < l < |idx| ==> idx[k] < idx[l])
  }

  /** The filter keeps the schema and returns an order-preserving subsequence of the rows. */
  lemma FilteredIsSubsequence(t: Table, sel: Selections)
    ensures Filtered(t, sel).columns == t.columns
    ensures IsSubsequence(Filtered(t, sel).rows, t.rows)
  {
    var conds := ActiveConditions(t.columns, sel);
    var idx := KeptIndices(t.rows, conds);
    WhereSelectsKeptIndices(t.rows, conds);
    assert |idx| == |Where(t.rows, conds)|;
  }

  lemma StepHolds(guard: bool, c: Condition, r: Row)
    ensures AllHold(if guard then [c] else [], r) <==> (guard ==> Holds(c, r))
  {
    if guard {
      assert c in [c];
    }
  }

  lemma ActiveConditionsMeanKeep(columns: set<Column>, sel: Selections, r: Row)
    ensures AllHold(ActiveConditions(columns, sel), r) <==> Keep(columns, sel, r)
  {
    var gm := OrderMonth in columns && All !in sel.months;
    var gc := ProductCategory in columns && All !in sel.categories;
    var gs := CustomerState in columns && All !in sel.states;
    var gv := ReviewScore in columns;
    var gp := PaymentType in columns && sel.payment != All;
    var m := if gm then [MonthIn(sel.months)] else [];
    var c := if gc then [CategoryIn(sel.categories)] else [];
    var s := if gs then [StateIn(sel.states)] else [];
    var v := if gv then [ReviewBetween(sel.minReview, sel.maxReview)] else [];
    var p := if gp then [PaymentIs(sel.payment)] else [];
    assert ActiveConditions(columns, sel) == m + c + s + v + p;
    assert forall x :: x in m + c + s + v + p <==> x in m || x in c || x in s || x in v || x in p;
    StepHolds(gm, MonthIn(sel.months), r);
    StepHolds(gc, CategoryIn(sel.categories), r);
    StepHolds(gs, StateIn(sel.states), r);
    StepHolds(gv, ReviewBetween(sel.minReview, sel.maxReview), r);
    StepHolds(gp, PaymentIs(sel.payment), r);
  }

  /** A row is kept exactly when it meets every active predicate, and then with all its copies. */
  lemma KeptIffEveryActivePredicateHolds(t: Table, sel: Selections, r: Row)
    ensures r in Filtered(t, sel).rows <==> r in t.rows && Keep(t.columns, sel, r)
    ensures multiset(Filtered(t, sel).rows)[r] == if Keep(t.columns, sel, r) then multiset(t.rows)[r] else 0
  {
    ActiveConditionsMeanKeep(t.columns, sel, r);
    WhereCounts(t.rows, ActiveConditions(t.columns, sel), r);
  }

  /** Applying the five steps in any order gives the same table. */
  lemma FilterOrderIrrelevant(t: Table, sel: Selections, order: seq<Condition>)
    requires multiset(order) == multiset(ActiveConditions(t.columns, sel))
    ensures ApplyEach(t.rows, order) == Filtered(t, sel).rows
  {
    ApplyEachIsWhere(t.rows, order);
    forall c ensures c in order <==> c in ActiveConditions(t.columns, sel) {
      assert c in order <==> c in multiset(order);
    }
    WhereSameConditions(t.rows, order, ActiveConditions(t.columns, sel));
  }

  /** Filtering the filtered table again with the same selections changes nothing. */
  lemma FilterIdempotent(t: Table, sel: Selections)
    ensures Filtered(Filtered(t, sel), sel) == Filtered(t, sel)
  {
    var conds := ActiveConditions(t.columns, sel);
    WhereThenWhere(t.rows, conds, conds);
    WhereSameConditions(t.rows, conds + conds, conds);
  }

  /** With every selection unrestricted and a review range covering every score, nothing is removed. */
  lemma UnrestrictedFilterIsIdentity(t: Table, sel: Selections)
    requires All in sel.months && All in sel.categories && All in sel.states && sel.payment == All
    requires ReviewScore in t.columns ==> forall r :: r in t.rows ==> sel.minReview <= r.reviewScore <= sel.maxReview
    ensures Filtered(t, sel) == t
  {
    var conds := ActiveConditions(t.columns, sel);
    forall r | r in t.rows ensures AllHold(conds, r) {
      ActiveConditionsMeanKeep(t.columns, sel, r);
    }
    WhereKeepsAll(t.rows, conds);
  }

  lemma {:induction false} WhereKeepsAll(rows: seq<Row>, conds: seq<Condition>)
    requires forall r :: r in rows ==> AllHold(conds, r)
    ensures Where(rows, conds) == rows
    decreases |rows|
  {
    if rows != [] {
      var n := |rows| - 1;
      assert forall r :: r in rows[..n] ==> r in rows;
      WhereKeepsAll(rows[..n], conds);
      assert rows == rows[..n] + [rows[n]];
    }
  }

  /** A multiselect without the sentinel keeps only rows whose value it lists, so an empty
      list over an existing column keeps no row at all. */
  lemma MultiselectWithoutSentinel(t: Table, sel: Selections)
    ensures OrderMonth in t.columns && All !in sel.months ==>
              forall r :: r in Filtered(t, sel).rows ==> r.orderMonth in sel.months
    ensures ProductCategory in t.columns && All !in sel.categories ==>
              forall r :: r in Filtered(t, sel).rows ==> r.category in sel.categories
    ensures CustomerState in t.columns && All !in sel.states ==>
              forall r :: r in Filtered(t, sel).rows ==> r.state in sel.states
    ensures (OrderMonth in t.columns && sel.months == [])
            || (ProductCategory in t.columns && sel.categories == [])
            || (CustomerState in t.columns && sel.states == [])
            ==> Filtered(t, sel).rows == []
  {
    forall r | r in Filtered(t, sel).rows ensures Keep(t.columns, sel, r) {
      KeptIffEveryActivePredicateHolds(t, sel, r);
    }
    if Filtered(t, sel).rows != [] {
      var r := Filtered(t, sel).rows[0];
      assert Keep(t.columns, sel, r);
    }
  }
}
