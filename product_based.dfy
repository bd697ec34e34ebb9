// Product-based recommendation (app.py:68-79): among the association rules
// mined from the invoice baskets, keep those whose antecedent holds the query
// product, gather their consequents, and return up to five distinct ones.

module ProductBased {
  import opened Retail

  /** An association rule as the miner reports it: baskets holding every
      product of `antecedent` tend to hold those of `consequent` too. */
  datatype Rule = Rule(antecedent: set<StockCode>, consequent: set<StockCode>)

  /** The rule filter of app.py:73, order kept. */
  function MatchingRules(rules: seq<Rule>, product: StockCode): (r: seq<Rule>)
    ensures |r| <= |rules|
    ensures forall rule :: rule in r <==> rule in rules && product in rule.antecedent
  {
    if rules == [] then []
    else (if product in rules[0].antecedent then [rules[0]] else []) + MatchingRules(rules[1..], product)
  }

  /** Every product named in a consequent of `rules`. */
  function Consequents(rules: seq<Rule>): set<StockCode>
  {
    set k, x | 0 <= k < |rules| && x in rules[k].consequent :: x
  }

  /** The consequents gathered rule after rule, repeats kept: what the list
      of app.py:75-77 holds, up to order. */
  function ConsequentBag(rules: seq<Rule>): multiset<StockCode>
  {
    if rules == [] then multiset{}
    else ConsequentBag(rules[..|rules| - 1]) + multiset(rules[|rules| - 1].consequent)
  }

  /** The gathered bag holds exactly the products of the consequents. */
  lemma {:induction false} BagHoldsConsequents(rules: seq<Rule>)
    ensures forall x :: x in ConsequentBag(rules) <==> x in Consequents(rules)
  {
    if rules != [] {
      var init := rules[..|rules| - 1];
      BagHoldsConsequents(init);
      forall x
        ensures x in ConsequentBag(rules) <==> x in Consequents(rules)
      {
        if x in Consequents(init) {
          var k :| 0 <= k < |init| && x in init[k].consequent;
          assert rules[k] == init[k];
        }
        if x in Consequents(rules) {
          var k :| 0 <= k < |rules| && x in rules[k].consequent;
          if k < |init| {
            assert init[k] == rules[k];
          }
        }
      }
    }
  }

  /** A product is recommendable for `product` exactly when it is in the
      consequent of a rule whose antecedent contains `product`. */
  lemma RecommendableIff(rules: seq<Rule>, product: StockCode, x: StockCode)
    ensures x in Consequents(MatchingRules(rules, product)) <==>
            exists k :: 0 <= k < |rules| && product in rules[k].antecedent && x in rules[k].consequent
  {
  }

  /** `list(s)`: the elements of a set, each once, in an order the caller
      cannot rely on (Python's hash order). */
  method ListOf(s: set<StockCode>) returns (l: seq<StockCode>)
    ensures NoDup(l) && Elements(l) == s && |l| == |s|
    ensures multiset(l) == multiset(s)
  {
    l := [];
    var rest := s;
    while rest != {}
      invariant rest <= s
      invariant NoDup(l) && Elements(l) == s - rest
      invariant multiset(l) + multiset(rest) == multiset(s)
      decreases |rest|
    {
      var x :| x in rest;
      assert x !in l;
      assert Elements(l + [x]) == Elements(l) + {x};
      l := l + [x];
      rest := rest - {x};
    }
    NoDupCardinality(l);
  }

  /** The loop of app.py:75-77: each matching rule's consequent, listed,
      extends the collection. */
  method CollectConsequents(matching: seq<Rule>) returns (collected: seq<StockCode>)
    ensures multiset(collected) == ConsequentBag(matching)
  {
    collected := [];
    for i := 0 to |matching|
      invariant multiset(collected) == ConsequentBag(matching[..i])
    {
      var listed := ListOf(matching[i].consequent);
      collected := collected + listed;
      assert matching[..i + 1][..i] == matching[..i];
    }
    assert matching[..|matching|] == matching;
  }

  /** app.py:68-79 once the rules are mined: at most five distinct products,
      each from the consequent of a rule whose antecedent holds `product`;
      as many as there are such products, up to five, and all of them when
      there are no more than five. */
  method ProductBasedRecommendation(rules: seq<Rule>, product: StockCode) returns (r: seq<StockCode>)
    ensures |r| <= TopN && NoDup(r)
    ensures forall x :: x in r ==>
              exists k :: 0 <= k < |rules| && product in rules[k].antecedent && x in rules[k].consequent
    ensures |r| == Min(TopN, |Consequents(MatchingRules(rules, product))|)
    ensures |Consequents(MatchingRules(rules, product))| <= TopN ==>
              Elements(r) == Consequents(MatchingRules(rules, product))
    ensures (forall k :: 0 <= k < |rules| ==> product !in rules[k].antecedent) ==> r == []
  {
    var matching := MatchingRules(rules, product);
    var collected := CollectConsequents(matching);
    var distinct := ListOf(Elements(collected));
    r := Take(distinct, TopN);

    ghost var pool := Consequents(matching);
    BagHoldsConsequents(matching);
    assert Elements(collected) == pool by {
      forall x ensures x in collected <==> x in pool {
        assert x in collected <==> x in multiset(collected);
      }
    }
    assert r <= distinct;
    forall x | x in r
      ensures exists k :: 0 <= k < |rules| && product in rules[k].antecedent && x in rules[k].consequent
    {
      var p :| 0 <= p < |r| && r[p] == x;
      assert distinct[p] == x && x in distinct;
      RecommendableIff(rules, product, x);
    }
    if forall k :: 0 <= k < |rules| ==> product !in rules[k].antecedent {
      assert |matching| == 0;
    }
  }

  /** Rules mined by the miner never have an empty consequent; then the
      result is empty exactly when no rule's antecedent holds `product`. */
  lemma EmptyExactlyWhenNoRuleMatches(rules: seq<Rule>, product: StockCode)
    requires forall k :: 0 <= k < |rules| ==> rules[k].consequent != {}
    ensures Consequents(MatchingRules(rules, product)) == {} <==>
            forall k :: 0 <= k < |rules| ==> product !in rules[k].antecedent
  {
  }

  /** The miner keeps antecedent and consequent disjoint; then the query
      product is never recommended for itself. */
  lemma QueryNeverRecommended(rules: seq<Rule>, product: StockCode)
    requires forall k :: 0 <= k < |rules| ==> rules[k].antecedent !! rules[k].consequent
    ensures product !in Consequents(MatchingRules(rules, product))
  {
  }
}
