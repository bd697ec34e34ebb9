// Customer-based recommendation (app.py:43-65): rank all customers by
// similarity to the query customer, then walk them in that order, collecting
// every product they bought in positive quantity until five distinct
// products are in hand.

module CustomerBased {
  import opened Retail
  import opened Matrices

  /** `ranking` is a permutation of the row indices 0..n-1: the reversed
      `argsort` of the query customer's similarity row. */
  predicate IsRanking(ranking: seq<int>, n: nat)
  {
    && |ranking| == n
    && (forall k :: 0 <= k < n ==> 0 <= ranking[k] < n)
    && (forall r :: 0 <= r < n ==> r in ranking)
  }

  /** Every entry of `ranking` names a row of `m`. */
  predicate RanksRowsOf(m: Matrix, ranking: seq<int>)
  {
    m.WellFormed() && forall k :: 0 <= k < |ranking| ==> 0 <= ranking[k] < |m.rows|
  }

  /** Row `r`'s customer has a positive quantity of `code`. */
  predicate BoughtBy(m: Matrix, r: int, code: StockCode)
    requires m.WellFormed() && 0 <= r < |m.rows|
  {
    exists j :: 0 <= j < |m.cols| && m.cells[r][j] > 0 && m.cols[j] == code
  }

  /** The list after the inner loop of app.py:59-61 has looked at the first
      `n` columns of `row`, starting from `acc`: each positive column not yet
      listed is appended. */
  function Visit(acc: seq<StockCode>, row: seq<int>, cols: seq<StockCode>, n: nat): (r: seq<StockCode>)
    requires n <= |row| && |row| == |cols|
    ensures acc <= r && |r| <= |acc| + n
    ensures NoDup(acc) ==> NoDup(r)
  {
    if n == 0 then acc
    else
      var a := Visit(acc, row, cols, n - 1);
      if row[n - 1] > 0 && cols[n - 1] !in a then a + [cols[n - 1]] else a
  }

  /** The list after the first `n` ranked customers have been walked in
      full, with no early exit: duplicate-free, at most one entry per column
      of each walked row. */
  function Walked(m: Matrix, ranking: seq<int>, n: nat): (r: seq<StockCode>)
    requires RanksRowsOf(m, ranking) && n <= |ranking|
    ensures NoDup(r) && |r| <= n * |m.cols|
  {
    if n == 0 then []
    else Visit(Walked(m, ranking, n - 1), m.cells[ranking[n - 1]], m.cols, |m.cols|)
  }

  /** The products a row bought in positive quantity, in column order. */
  function Purchases(row: seq<int>, cols: seq<StockCode>, n: nat): seq<StockCode>
    requires n <= |row| && |row| == |cols|
  {
    if n == 0 then []
    else Purchases(row, cols, n - 1) + if row[n - 1] > 0 then [cols[n - 1]] else []
  }

  lemma {:induction false} VisitSpec(acc: seq<StockCode>, row: seq<int>, cols: seq<StockCode>, n: nat)
    requires n <= |row| && |row| == |cols|
    ensures forall x :: x in Visit(acc, row, cols, n) <==>
              x in acc || exists j :: 0 <= j < n && row[j] > 0 && cols[j] == x
  {
    if n > 0 {
      VisitSpec(acc, row, cols, n - 1);
    }
  }

  /** The walked list holds exactly the products that one of the walked
      customers bought. */
  lemma {:induction false} WalkedSpec(m: Matrix, ranking: seq<int>, n: nat)
    requires RanksRowsOf(m, ranking) && n <= |ranking|
    ensures forall x :: x in Walked(m, ranking, n) <==>
              exists k :: 0 <= k < n && BoughtBy(m, ranking[k], x)
  {
    if n > 0 {
      WalkedSpec(m, ranking, n - 1);
      var r := ranking[n - 1];
      VisitSpec(Walked(m, ranking, n - 1), m.cells[r], m.cols, |m.cols|);
      forall x
        ensures x in Walked(m, ranking, n) <==> exists k :: 0 <= k < n && BoughtBy(m, ranking[k], x)
      {
        if BoughtBy(m, r, x) {
          assert x in Walked(m, ranking, n);
        }
        if exists k :: 0 <= k < n && BoughtBy(m, ranking[k], x) {
          var k :| 0 <= k < n && BoughtBy(m, ranking[k], x);
          if k < n - 1 {
            assert x in Walked(m, ranking, n - 1);
          }
        }
      }
    }
  }

  /** Walking more customers only ever extends the list. */
  lemma {:induction false} WalkedPrefix(m: Matrix, ranking: seq<int>, a: nat, b: nat)
    requires RanksRowsOf(m, ranking) && a <= b <= |ranking|
    ensures Walked(m, ranking, a) <= Walked(m, ranking, b)
  {
    if a < b {
      WalkedPrefix(m, ranking, a, b - 1);
    }
  }

  /** The walk of app.py:55-65, with its early exit: the inner loop appends
      each positive, not yet listed product of the current customer; after a
      customer, five or more products stop the walk; the list is cut to five.
      The result is what walking every customer and then cutting would give. */
  method Walk(m: Matrix, ranking: seq<int>) returns (items: seq<StockCode>)
    requires m.WellFormed() && IsRanking(ranking, |m.rows|)
    ensures items == Take(Walked(m, ranking, |ranking|), TopN)
    ensures |items| <= TopN && NoDup(items)
    ensures forall x :: x in items ==> exists k :: 0 <= k < |ranking| && BoughtBy(m, ranking[k], x)
  {
    items := [];
    var i := 0;
    while i < |ranking|
      invariant 0 <= i <= |ranking|
      invariant items == Walked(m, ranking, i)
      invariant |items| < TopN
    {
      var row := m.cells[ranking[i]];
      var j := 0;
      while j < |m.cols|
        invariant 0 <= j <= |m.cols|
        invariant items == Visit(Walked(m, ranking, i), row, m.cols, j)
      {
        if row[j] > 0 && m.cols[j] !in items {
          items := items + [m.cols[j]];
        }
        j := j + 1;
      }
      i := i + 1;
      if |items| >= TopN {
        break;
      }
    }
    WalkedPrefix(m, ranking, i, |ranking|);
    WalkedSpec(m, ranking, |ranking|);
    items := Take(items, TopN);
    ghost var full := Walked(m, ranking, |ranking|);
    assert items <= full;
    forall x | x in items
      ensures exists k :: 0 <= k < |ranking| && BoughtBy(m, ranking[k], x)
    {
      var p :| 0 <= p < |items| && items[p] == x;
      assert full[p] == x && x in full;
    }
  }

  /** app.py:43-65. `found` is false exactly when the customer id is not a
      row of the pivot; then the result is empty and nothing is ranked or
      walked. Otherwise the result is the first five distinct products of the
      walk over every ranked customer -- the query customer included, since
      the source does not skip it. */
  method CustomerBasedRecommendation(
    data: seq<Transaction>, rows: seq<CustomerId>, cols: seq<StockCode>,
    customer: CustomerId, ranking: seq<int>)
    returns (found: bool, items: seq<StockCode>)
    requires PivotLabels(data, rows, cols)
    requires customer in rows ==> IsRanking(ranking, |rows|)
    ensures found <==> customer in rows
    ensures found <==> exists i :: 0 <= i < |data| && data[i].customer == Some(customer)
    ensures !found ==> items == []
    ensures found ==> items == Take(Walked(Interaction(data, rows, cols), ranking, |ranking|), TopN)
    ensures |items| <= TopN && NoDup(items)
    ensures forall x :: x in items ==> exists c :: CustomerQty(data, c, x) > 0
    ensures forall x :: x in items ==>
              exists i :: 0 <= i < |data| && data[i].customer.Some? &&
                data[i].stockCode == x && data[i].quantity > 0
  {
    var m := Interaction(data, rows, cols);
    if customer !in m.rows {
      if exists i :: 0 <= i < |data| && data[i].customer == Some(customer) {
        var i :| 0 <= i < |data| && data[i].customer == Some(customer);
        assert data[i] in data;
        assert customer in Customers(data);
      }
      return false, [];
    }
    assert customer in Customers(data);
    found := true;
    items := Walk(m, ranking);
    forall x | x in items
      ensures exists c :: CustomerQty(data, c, x) > 0
      ensures exists i :: 0 <= i < |data| && data[i].customer.Some? &&
                data[i].stockCode == x && data[i].quantity > 0
    {
      var k :| 0 <= k < |ranking| && BoughtBy(m, ranking[k], x);
      var j :| 0 <= j < |m.cols| && m.cells[ranking[k]][j] > 0 && m.cols[j] == x;
      assert CustomerQty(data, rows[ranking[k]], x) > 0;
      PositiveCellWitness(data, rows[ranking[k]], x);
    }
  }

  /** A walked product has a positive cell in some ranked customer's row. */
  lemma WalkedIsPurchased(data: seq<Transaction>, rows: seq<CustomerId>, cols: seq<StockCode>,
                          ranking: seq<int>, x: StockCode)
    requires IsRanking(ranking, |rows|)
    requires x in Walked(Interaction(data, rows, cols), ranking, |ranking|)
    ensures exists c :: CustomerQty(data, c, x) > 0
  {
    var m := Interaction(data, rows, cols);
    WalkedSpec(m, ranking, |ranking|);
    var k :| 0 <= k < |ranking| && BoughtBy(m, ranking[k], x);
    var j :| 0 <= j < |m.cols| && m.cells[ranking[k]][j] > 0 && m.cols[j] == x;
    assert CustomerQty(data, rows[ranking[k]], x) > 0;
  }

  /** A product some customer bought is reached by the full walk. */
  lemma PurchasedIsWalked(data: seq<Transaction>, rows: seq<CustomerId>, cols: seq<StockCode>,
                          ranking: seq<int>, c: CustomerId, x: StockCode)
    requires PivotLabels(data, rows, cols) && IsRanking(ranking, |rows|)
    requires CustomerQty(data, c, x) > 0
    ensures x in Walked(Interaction(data, rows, cols), ranking, |ranking|)
  {
    var m := Interaction(data, rows, cols);
    PositiveCellIsLabelled(data, c, x);
    assert c in rows && x in cols;
    var r :| 0 <= r < |rows| && rows[r] == c;
    var j :| 0 <= j < |cols| && cols[j] == x;
    assert r in ranking;
    var k :| 0 <= k < |ranking| && ranking[k] == r;
    assert m.cells[r][j] > 0;
    assert BoughtBy(m, ranking[k], x);
    WalkedSpec(m, ranking, |ranking|);
  }

  /** Walking every customer lists exactly the products that some customer
      bought in positive (summed) quantity. */
  lemma FullWalkIsAllPurchases(data: seq<Transaction>, rows: seq<CustomerId>, cols: seq<StockCode>,
                               ranking: seq<int>, x: StockCode)
    requires PivotLabels(data, rows, cols) && IsRanking(ranking, |rows|)
    ensures x in Walked(Interaction(data, rows, cols), ranking, |ranking|) <==>
            exists c :: CustomerQty(data, c, x) > 0
  {
    if x in Walked(Interaction(data, rows, cols), ranking, |ranking|) {
      WalkedIsPurchased(data, rows, cols, ranking, x);
    }
    if exists c :: CustomerQty(data, c, x) > 0 {
      var c :| CustomerQty(data, c, x) > 0;
      PurchasedIsWalked(data, rows, cols, ranking, c, x);
    }
  }

  /** Starting from an empty list over duplicate-free columns, the inner loop
      lists a customer's purchases in column order, none dropped. */
  lemma {:induction false} VisitFromEmpty(row: seq<int>, cols: seq<StockCode>, n: nat)
    requires n <= |row| && |row| == |cols| && NoDup(cols)
    ensures Visit([], row, cols, n) == Purchases(row, cols, n)
    ensures forall x :: x in Purchases(row, cols, n) ==> exists j :: 0 <= j < n && cols[j] == x
  {
    if n > 0 {
      VisitFromEmpty(row, cols, n - 1);
    }
  }

  /** The query customer is not skipped: when it is ranked first (as it is
      whenever its self-similarity is the strict maximum, see
      StrictBestRankedFirst), the recommendation opens with the customer's
      own purchases, in column order. */
  lemma OwnPurchasesLead(m: Matrix, ranking: seq<int>)
    requires m.WellFormed() && IsRanking(ranking, |m.rows|) && NoDup(m.cols) && |ranking| > 0
    ensures var own := Purchases(m.cells[ranking[0]], m.cols, |m.cols|);
            var n := Min(TopN, |own|);
            n <= |Take(Walked(m, ranking, |ranking|), TopN)| &&
            Take(Walked(m, ranking, |ranking|), TopN)[..n] == own[..n]
  {
    VisitFromEmpty(m.cells[ranking[0]], m.cols, |m.cols|);
    WalkedPrefix(m, ranking, 1, |ranking|);
  }

  /** `xs` with each element kept at its first occurrence, appended to
      `acc` (elements already in `acc` are dropped). */
  function Dedup(acc: seq<StockCode>, xs: seq<StockCode>): seq<StockCode>
  {
    if xs == [] then acc
    else
      var a := Dedup(acc, xs[..|xs| - 1]);
      if xs[|xs| - 1] in a then a else a + [xs[|xs| - 1]]
  }

  /** The ranked customers' purchase lists, joined in rank order. */
  function Concat(m: Matrix, ranking: seq<int>, n: nat): seq<StockCode>
    requires RanksRowsOf(m, ranking) && n <= |ranking|
  {
    if n == 0 then []
    else Concat(m, ranking, n - 1) + Purchases(m.cells[ranking[n - 1]], m.cols, |m.cols|)
  }

  lemma {:induction false} DedupAppend(acc: seq<StockCode>, xs: seq<StockCode>, ys: seq<StockCode>)
    ensures Dedup(acc, xs + ys) == Dedup(Dedup(acc, xs), ys)
  {
    if ys != [] {
      var init := ys[..|ys| - 1];
      DedupAppend(acc, xs, init);
      assert (xs + ys)[..|xs + ys| - 1] == xs + init;
    } else {
      assert xs + ys == xs;
    }
  }

  /** One pass of the inner loop is the first-occurrence dedup of the row's
      purchases, in column order, onto the list so far. */
  lemma {:induction false} VisitIsDedup(acc: seq<StockCode>, row: seq<int>, cols: seq<StockCode>, n: nat)
    requires n <= |row| && |row| == |cols|
    ensures Visit(acc, row, cols, n) == Dedup(acc, Purchases(row, cols, n))
  {
    if n > 0 {
      VisitIsDedup(acc, row, cols, n - 1);
      var p := Purchases(row, cols, n - 1);
      if row[n - 1] > 0 {
        assert (p + [cols[n - 1]])[..|p|] == p;
      } else {
        assert Purchases(row, cols, n) == p;
      }
    }
  }

  /** The order the walk promises: the full walk lists the distinct
      products of the ranked customers' purchases, each at its first
      occurrence in rank-then-column order. */
  lemma {:induction false} WalkedIsDedupOfConcat(m: Matrix, ranking: seq<int>, n: nat)
    requires RanksRowsOf(m, ranking) && n <= |ranking|
    ensures Walked(m, ranking, n) == Dedup([], Concat(m, ranking, n))
  {
    if n > 0 {
      WalkedIsDedupOfConcat(m, ranking, n - 1);
      var row := m.cells[ranking[n - 1]];
      VisitIsDedup(Walked(m, ranking, n - 1), row, m.cols, |m.cols|);
      DedupAppend([], Concat(m, ranking, n - 1), Purchases(row, m.cols, |m.cols|));
    }
  }

  /** The ranked order: similarity scores never increase along `ranking`. */
  predicate RankedBy(ranking: seq<int>, scores: seq<real>)
    requires IsRanking(ranking, |scores|)
  {
    forall a, b :: 0 <= a < b < |ranking| ==> scores[ranking[a]] >= scores[ranking[b]]
  }

  /** A customer whose score beats every other comes first in any ranking
      that sorts by score. */
  lemma StrictBestRankedFirst(ranking: seq<int>, scores: seq<real>, k: int)
    requires IsRanking(ranking, |scores|) && RankedBy(ranking, scores) && 0 <= k < |scores|
    requires forall r :: 0 <= r < |scores| && r != k ==> scores[r] < scores[k]
    ensures ranking[0] == k
  {
    assert k in ranking;
    var p :| 0 <= p < |ranking| && ranking[p] == k;
    if p > 0 {
      assert scores[ranking[0]] >= scores[ranking[p]];
    }
  }
}
