// The two tables the recommenders read: the customer x stock-code quantity
// matrix (the `pivot_table` of app.py:44) and the invoice x stock-code
// presence matrix (the `groupby`/`unstack`/binarise chain of app.py:69-70).

module Matrices {
  import opened Retail

  /** A labelled integer table: `cells[i][j]` belongs to row label `rows[i]`
      and column label `cols[j]`. */
  datatype Matrix = Matrix(rows: seq<string>, cols: seq<StockCode>, cells: seq<seq<int>>)
  {
    predicate WellFormed()
    {
      |cells| == |rows| && forall i :: 0 <= i < |cells| ==> |cells[i]| == |cols|
    }
  }

  // ---------------------------------------------------------------------------
  // Customer x stock-code interaction matrix

  /** The customer ids present in the log (rows without one are dropped). */
  function Customers(data: seq<Transaction>): set<CustomerId>
  {
    set t | t in data && t.customer.Some? :: t.customer.value
  }

  /** The stock codes of the lines that carry a customer id. */
  function CustomerStockCodes(data: seq<Transaction>): set<StockCode>
  {
    set t | t in data && t.customer.Some? :: t.stockCode
  }

  /** Selects the lines in which customer `c` bought `code`. */
  function CustomerLine(c: CustomerId, code: StockCode): Transaction -> bool
  {
    (t: Transaction) => t.customer == Some(c) && t.stockCode == code
  }

  /** Summed quantity that customer `c` bought of `code`. */
  function CustomerQty(data: seq<Transaction>, c: CustomerId, code: StockCode): int
  {
    Total(data, CustomerLine(c, code))
  }

  /** The row and column labels pandas gives the pivot: each distinct
      customer id once, each distinct stock code once. Their order (pandas
      sorts them) is left to the caller. */
  predicate PivotLabels(data: seq<Transaction>, rows: seq<CustomerId>, cols: seq<StockCode>)
  {
    Enumerates(rows, Customers(data)) && Enumerates(cols, CustomerStockCodes(data))
  }

  /** The interaction matrix over the given labels. pandas aggregates each
      cell by its mean, but the recommender only asks whether a cell is
      positive, and a mean over a non-empty group is positive exactly when
      its sum is; an empty group is filled with 0 either way. */
  function Interaction(data: seq<Transaction>, rows: seq<CustomerId>, cols: seq<StockCode>): (m: Matrix)
    ensures m.WellFormed() && m.rows == rows && m.cols == cols
  {
    Matrix(rows, cols,
      seq(|rows|, i requires 0 <= i < |rows| =>
        seq(|cols|, j requires 0 <= j < |cols| => CustomerQty(data, rows[i], cols[j]))))
  }

  /** One row per distinct customer, one column per distinct stock code. */
  lemma InteractionShape(data: seq<Transaction>, rows: seq<CustomerId>, cols: seq<StockCode>)
    requires PivotLabels(data, rows, cols)
    ensures |Interaction(data, rows, cols).cells| == |Customers(data)|
    ensures |Interaction(data, rows, cols).cols| == |CustomerStockCodes(data)|
  {
    EnumerationSize(rows, Customers(data));
    EnumerationSize(cols, CustomerStockCodes(data));
  }

  /** A positive cell is backed by a log line in which that customer bought
      that product in positive quantity. */
  lemma PositiveCellWitness(data: seq<Transaction>, c: CustomerId, code: StockCode)
    requires CustomerQty(data, c, code) > 0
    ensures exists i :: 0 <= i < |data| && data[i].customer == Some(c) &&
              data[i].stockCode == code && data[i].quantity > 0
  {
    PositiveTotalWitness(data, CustomerLine(c, code));
  }

  /** A customer who never bought a product has a 0 cell for it. */
  lemma UnboughtCellIsZero(data: seq<Transaction>, c: CustomerId, code: StockCode)
    requires forall i :: 0 <= i < |data| ==> data[i].customer != Some(c) || data[i].stockCode != code
    ensures CustomerQty(data, c, code) == 0
  {
    EmptySelectionTotal(data, CustomerLine(c, code));
  }

  /** Whoever has a positive cell is a customer of the log, and the product
      is one of its stock codes: the pivot's labels cover every positive
      aggregate. */
  lemma PositiveCellIsLabelled(data: seq<Transaction>, c: CustomerId, code: StockCode)
    requires CustomerQty(data, c, code) > 0
    ensures c in Customers(data) && code in CustomerStockCodes(data)
  {
    PositiveCellWitness(data, c, code);
    var i :| 0 <= i < |data| && data[i].customer == Some(c) &&
             data[i].stockCode == code && data[i].quantity > 0;
    assert data[i] in data;
  }

  // ---------------------------------------------------------------------------
  // Invoice x stock-code presence matrix

  function Invoices(data: seq<Transaction>): set<InvoiceNo>
  {
    set t | t in data :: t.invoice
  }

  function StockCodes(data: seq<Transaction>): set<StockCode>
  {
    set t | t in data :: t.stockCode
  }

  /** Selects the lines of invoice `inv` for `code`. */
  function InvoiceLine(inv: InvoiceNo, code: StockCode): Transaction -> bool
  {
    (t: Transaction) => t.invoice == inv && t.stockCode == code
  }

  /** Summed quantity of `code` on invoice `inv`, whoever the customer. */
  function InvoiceQty(data: seq<Transaction>, inv: InvoiceNo, code: StockCode): int
  {
    Total(data, InvoiceLine(inv, code))
  }

  /** The labels of the unstacked invoice table. */
  predicate BasketLabels(data: seq<Transaction>, rows: seq<InvoiceNo>, cols: seq<StockCode>)
  {
    Enumerates(rows, Invoices(data)) && Enumerates(cols, StockCodes(data))
  }

  /** The binarised basket table: 1 where the invoice's summed quantity of
      the product is positive, 0 elsewhere (a return cancelling a purchase
      on the same invoice, or a pair that never occurs, gives 0). */
  function Presence(data: seq<Transaction>, rows: seq<InvoiceNo>, cols: seq<StockCode>): (m: Matrix)
    ensures m.WellFormed() && m.rows == rows && m.cols == cols
    ensures forall i, j :: 0 <= i < |rows| && 0 <= j < |cols| ==>
              (m.cells[i][j] == 0 || m.cells[i][j] == 1) &&
              (m.cells[i][j] == 1 <==> InvoiceQty(data, rows[i], cols[j]) > 0)
  {
    Matrix(rows, cols,
      seq(|rows|, i requires 0 <= i < |rows| =>
        seq(|cols|, j requires 0 <= j < |cols| =>
          if InvoiceQty(data, rows[i], cols[j]) > 0 then 1 else 0)))
  }

  /** One row per distinct invoice, one column per distinct stock code. */
  lemma PresenceShape(data: seq<Transaction>, rows: seq<InvoiceNo>, cols: seq<StockCode>)
    requires BasketLabels(data, rows, cols)
    ensures |Presence(data, rows, cols).cells| == |Invoices(data)|
    ensures |Presence(data, rows, cols).cols| == |StockCodes(data)|
  {
    EnumerationSize(rows, Invoices(data));
    EnumerationSize(cols, StockCodes(data));
  }

  /** A 1 in the basket table comes from a line of that invoice with a
      positive quantity of that product; a pair with no line at all is 0. */
  lemma PresenceProvenance(data: seq<Transaction>, rows: seq<InvoiceNo>, cols: seq<StockCode>, i: nat, j: nat)
    requires i < |rows| && j < |cols|
    ensures Presence(data, rows, cols).cells[i][j] == 1 ==>
              exists k :: 0 <= k < |data| && data[k].invoice == rows[i] &&
                data[k].stockCode == cols[j] && data[k].quantity > 0
    ensures (forall k :: 0 <= k < |data| ==> data[k].invoice != rows[i] || data[k].stockCode != cols[j]) ==>
              Presence(data, rows, cols).cells[i][j] == 0
  {
    var keep := InvoiceLine(rows[i], cols[j]);
    if Total(data, keep) > 0 {
      PositiveTotalWitness(data, keep);
    }
    if forall k :: 0 <= k < |data| ==> !keep(data[k]) {
      EmptySelectionTotal(data, keep);
    }
  }
}
