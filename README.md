# Retail recommendation core, modelled in Dafny

This project models the two recommenders of a small retail-analytics
dashboard (`app.py`). Both turn a transaction log into a short,
duplicate-free product list.

- **Customer-based.** The log is pivoted into a customer x stock-code
  matrix of aggregated quantities. An unknown customer id yields an empty
  list. Otherwise every customer is ranked by similarity to the query
  customer. The ranked customers are walked in order, and each one's
  positive-quantity products are appended in column order, skipping those
  already listed. The walk stops after the first customer that brings the
  list to five or more products, and the list is cut to five.
- **Product-based.** The log is grouped into an invoice x stock-code 0/1
  basket table. Association rules are mined from it. The rules whose
  antecedent contains the query product are kept, their consequents are
  gathered, and up to five distinct ones are returned.

Files:

- `retail.dfy` (module `Retail`): the transaction record, quantity sums,
  duplicate-freedom, label enumerations and Python's `[:n]` slice.
- `matrices.dfy` (module `Matrices`): the interaction matrix and the basket
  presence matrix, with their shape and provenance lemmas.
- `customer_based.dfy` (module `CustomerBased`): the ranked walk as an
  imperative method. It is proved against `Walked`, a specification function
  that walks every customer with no early exit.
- `product_based.dfy` (module `ProductBased`): the rule filter, the
  consequent-gathering loop and the dedup/truncate step.

Modelling choices:

- A missing customer id is `None`. pandas drops such lines from the
  customer pivot but keeps them in the invoice table, and so does the model.
- pandas sorts the pivot's row and column labels. The model takes the label
  order as an input: each distinct id exactly once (`PivotLabels`,
  `BasketLabels`).
- `pivot_table` aggregates by mean. The walk only asks whether a cell is
  positive, and a mean over a non-empty group is positive exactly when its
  integer sum is. A missing pair is 0 either way. So cells hold integer sums.
- The similarity ranking (cosine similarity, then `argsort()[::-1]`) is an
  input permutation of the row indices. It is required only when the
  customer is found, because the source computes it only then.
- The mined rules are an input list of (antecedent set, consequent set)
  pairs.
- `list(set(...))` and `list(frozenset)` have hash-dependent order. `ListOf`
  picks elements nondeterministically, so every proved property holds for
  every order.
- `CustomerBasedRecommendation` returns a flag `found` beside the list. It
  stands for the error message the source shows for an unknown customer.
  The list itself is `[]` in that case, as in the source.

The model follows the code as written, including two behaviours a reader
might not expect:

- The customer walk does not exclude the query customer. It also does not
  exclude products that customer already bought. `OwnPurchasesLead` proves
  that when the query customer is ranked first, the recommendation opens
  with that customer's own purchases.
- The product list comes out in hash order, not insertion or lift order.

## Model

| member | source | states |
|---|---|---|
| `Retail.PositiveTotalWitness` | app.py:44 | a positive summed quantity has a positive-quantity line among the selected lines |
| `Retail.EmptySelectionTotal` | app.py:69 | a selection with no lines sums to 0, the `fill_value=0` / `fillna(0)` value |
| `Matrices.Interaction` | app.py:44 | the contract gives only the shape: a well-formed table over the given row and column labels; each cell is defined in the body as `CustomerQty`, the integer sum of that customer's quantities of that product |
| `Matrices.InteractionShape` | app.py:44 | the pivot has one row per distinct customer id and one column per distinct stock code of the lines that carry a customer |
| `Matrices.PositiveCellWitness` | app.py:44 | a positive cell comes from a log line in which that customer bought that product in positive quantity |
| `Matrices.UnboughtCellIsZero` | app.py:44 | a (customer, product) pair with no line in the log has cell 0 |
| `Matrices.PositiveCellIsLabelled` | app.py:44 | a customer and product with a positive aggregate are among the pivot's labels |
| `Matrices.Presence` | app.py:69-70 | every basket cell is 0 or 1, and it is 1 iff the invoice's summed quantity of the product is positive |
| `Matrices.PresenceShape` | app.py:69 | the basket table has one row per distinct invoice and one column per distinct stock code |
| `Matrices.PresenceProvenance` | app.py:69-70 | a 1 comes from a positive-quantity line of that invoice and product; a pair with no line is 0 |
| `CustomerBased.Visit` | app.py:59-61 | one customer's pass of the inner loop keeps the list so far as a prefix, adds at most one product per column, and adds no duplicate |
| `CustomerBased.VisitSpec` | app.py:59-61 | one customer's pass adds exactly that customer's positive products not yet listed |
| `CustomerBased.Walked` | app.py:56-61 | the full walk over the first n ranked customers, with no early exit, is duplicate-free and has at most one entry per column of each walked row |
| `CustomerBased.WalkedSpec` | app.py:56-61 | after walking n ranked customers, the list holds exactly the products one of them bought |
| `CustomerBased.WalkedPrefix` | app.py:56-63 | walking more customers only extends the list, which makes the early break harmless |
| `CustomerBased.Walk` | app.py:55-65 | the early-exit walk returns the first five products of the full walk; at most five, no duplicates, each bought by a ranked customer |
| `CustomerBased.CustomerBasedRecommendation` | app.py:43-65 | an unknown customer gives `[]` and nothing is ranked; a known one gives the first five of the full walk; at most five, no duplicates, each with a positive summed quantity for some customer (so a positive-quantity line in the log) |
| `CustomerBased.WalkedIsPurchased` | app.py:56-61 | a product on the full walk has a positive aggregate for some customer |
| `CustomerBased.PurchasedIsWalked` | app.py:53-61 | a product with a positive aggregate for any customer is on the full walk, because the ranking covers every row |
| `CustomerBased.FullWalkIsAllPurchases` | app.py:44-61 | the full walk lists exactly the products some customer bought in positive summed quantity |
| `CustomerBased.DedupAppend` | app.py:56-61 | first-occurrence dedup of a joined list is the dedup of the second part onto the dedup of the first |
| `CustomerBased.VisitIsDedup` | app.py:59-61 | one pass is the first-occurrence dedup of the row's purchases, in column order, onto the list so far |
| `CustomerBased.WalkedIsDedupOfConcat` | app.py:55-61 | the full walk is the ranked customers' purchase lists joined in rank order, each product kept at its first occurrence: its order is rank-then-column |
| `CustomerBased.VisitFromEmpty` | app.py:59-61 | over distinct column labels, a first pass lists the customer's positive products in column order, none dropped |
| `CustomerBased.OwnPurchasesLead` | app.py:53-65 | the query customer is not skipped: ranked first, its own purchases open the recommendation |
| `CustomerBased.StrictBestRankedFirst` | app.py:50-53 | in a ranking sorted by descending score, the row with the strictly highest score comes first |
| `Retail.Take` | app.py:65 | `s[:n]` (here and at app.py:79) is the prefix of `s` whose length is the smaller of n and the length of `s` |
| `ProductBased.MatchingRules` | app.py:73 | the filtered rules are exactly the rules whose antecedent contains the query product |
| `ProductBased.BagHoldsConsequents` | app.py:75-77 | the gathered products are exactly the products of the gathered consequents |
| `ProductBased.RecommendableIff` | app.py:73-77 | a product is gathered iff it is in the consequent of a rule whose antecedent holds the query product |
| `ProductBased.ListOf` | app.py:79 | `list(s)` lists each element of the set once, in some order |
| `ProductBased.CollectConsequents` | app.py:75-77 | the gathered list holds every matching rule's consequent once per rule, repeats across rules kept |
| `ProductBased.ProductBasedRecommendation` | app.py:68-79 | at most five, no duplicates, each from a matching rule's consequent; exactly min(5, number of such products) of them; all of them when there are at most five; empty when no rule matches |
| `ProductBased.EmptyExactlyWhenNoRuleMatches` | app.py:72-79 | with non-empty consequents, nothing is recommendable iff no rule's antecedent holds the query product |
| `ProductBased.QueryNeverRecommended` | app.py:72-79 | with disjoint antecedents and consequents, the query product is never recommended |

## Left out

- The Streamlit UI, navigation and messages (`recommend_system`, `main`, app.py:82-118). They are presentation only.
- `load_data` (app.py:10-18). It is file I/O behind a caching decorator.
- `show_eda` (app.py:21-40). It computes floating-point statistics and draws a heatmap.
- Cosine similarity and `argsort` (app.py:50-53). They are floating-point, and their tie order is unstable. The ranking is an input permutation instead.
- `apriori` and `association_rules` (app.py:71-72). They are library calls with a 0.01 support threshold and a lift threshold of 1. The rules are an input. Nothing relates them to the basket table, so `Presence` and `ProductBasedRecommendation` are separate.
- The order pandas sorts pivot labels in. It is an input enumeration instead.
- The mean aggregation of `pivot_table`. It is replaced by the integer sum, which has the same sign. Non-integer or missing quantities are not modelled.
- Latent-factor recommenders. They are not part of this model and would be floating-point training anyway.
