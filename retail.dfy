// The retail transaction log and the small sequence vocabulary shared by
// both recommenders.

module Retail {

  type CustomerId = string
  type StockCode = string
  type InvoiceNo = string

  /** How many products a recommender hands back (the `[:5]` slices). */
  const TopN: nat := 5

  datatype Option<T> = None | Some(value: T)

  /** One line of the log. A missing customer id (an empty cell of the
      spreadsheet) is `None`: pandas drops such rows from every table keyed
      by customer, but keeps them in tables keyed by invoice. Quantity is
      negative for returns. */
  datatype Transaction = Transaction(
    invoice: InvoiceNo,
    customer: Option<CustomerId>,
    stockCode: StockCode,
    quantity: int)

  /** The summed quantity of the log lines that `keep` selects. An empty
      selection sums to 0, which is also pandas' fill value for a missing
      (row, column) pair. */
  function Total(data: seq<Transaction>, keep: Transaction -> bool): int
  {
    if data == [] then 0
    else (if keep(data[0]) then data[0].quantity else 0) + Total(data[1..], keep)
  }

  /** A positive total has a positive line behind it. */
  lemma {:induction false} PositiveTotalWitness(data: seq<Transaction>, keep: Transaction -> bool)
    requires Total(data, keep) > 0
    ensures exists i :: 0 <= i < |data| && keep(data[i]) && data[i].quantity > 0
  {
    if keep(data[0]) && data[0].quantity > 0 {
    } else {
      PositiveTotalWitness(data[1..], keep);
      var i :| 0 <= i < |data[1..]| && keep(data[1..][i]) && data[1..][i].quantity > 0;
      assert data[i + 1] == data[1..][i];
    }
  }

  /** A selection with no line in it totals 0 (the `fill_value=0` /
      `fillna(0)` case). */
  lemma {:induction false} EmptySelectionTotal(data: seq<Transaction>, keep: Transaction -> bool)
    requires forall i :: 0 <= i < |data| ==> !keep(data[i])
    ensures Total(data, keep) == 0
  {
    if data != [] {
      assert forall i :: 0 <= i < |data[1..]| ==> data[1..][i] == data[i + 1];
      EmptySelectionTotal(data[1..], keep);
    }
  }

  predicate NoDup<T(==)>(s: seq<T>)
  {
    forall i, j :: 0 <= i < j < |s| ==> s[i] != s[j]
  }

  function Elements<T>(s: seq<T>): set<T>
  {
    set x | x in s
  }

  /** `labels` lists every element of `s` exactly once: the row or column
      index that pandas builds from the distinct keys of a table. */
  predicate Enumerates<T(==)>(labels: seq<T>, s: set<T>)
  {
    NoDup(labels) && Elements(labels) == s
  }

  /** A duplicate-free sequence is as long as its set of elements. */
  lemma {:induction false} NoDupCardinality<T>(s: seq<T>)
    requires NoDup(s)
    ensures |Elements(s)| == |s|
  {
    if s != [] {
      assert NoDup(s[1..]);
      NoDupCardinality(s[1..]);
      assert Elements(s) == {s[0]} + Elements(s[1..]);
      assert s[0] !in Elements(s[1..]);
    }
  }

  /** An enumeration of `s` has exactly |s| labels. */
  lemma EnumerationSize<T>(labels: seq<T>, s: set<T>)
    requires Enumerates(labels, s)
    ensures |labels| == |s|
  {
    NoDupCardinality(labels);
  }

  function Min(a: int, b: int): int
  {
    if a <= b then a else b
  }

  /** Python's slice `s[:n]`: the longest prefix of `s` with at most `n`
      elements. */
  function Take<T>(s: seq<T>, n: nat): (r: seq<T>)
    ensures r <= s && |r| == Min(n, |s|)
  {
    if |s| <= n then s else s[..n]
  }
}
