/**
 The "Precomputed Apriori Results" view: the frequent itemsets and the
 association rules mined upstream are shown filtered by the two sliders,
 keeping rows in their original order.
 */
module Filters {

  /** One row of the frequent-itemset table. */
  datatype Itemset = Itemset(items: set<string>, support: real)

  /** One row of the rule table (the columns the view filters on, plus the rule itself). */
  datatype Rule = Rule(antecedents: set<string>, consequents: set<string>, support: real, confidence: real)

  /** The rows satisfying `keep`, in their original order. */
  function Keep<T(!new)>(rows: seq<T>, keep: T -> bool): (r: seq<T>)
    ensures |r| <= |rows|
    ensures forall x :: x in r <==> x in rows && keep(x)
  {
    if |rows| == 0 then []
    else
      var rest := Keep(rows[1..], keep);
      assert rows == [rows[0]] + rows[1..];
      if keep(rows[0]) then [rows[0]] + rest else rest
  }

  /** Every kept row keeps its multiplicity; every other row is gone. */
  lemma {:induction false} KeepMultiplicity<T(!new)>(rows: seq<T>, keep: T -> bool)
    ensures forall x :: multiset(Keep(rows, keep))[x] == if keep(x) then multiset(rows)[x] else 0
  {
    if |rows| > 0 {
      KeepMultiplicity(rows[1..], keep);
      assert rows == [rows[0]] + rows[1..];
    }
  }

  /** Filtering a concatenation filters each part and keeps them in order, so the relative order of kept rows never changes. */
  lemma {:induction false} KeepConcat<T(!new)>(a: seq<T>, b: seq<T>, keep: T -> bool)
    ensures Keep(a + b, keep) == Keep(a, keep) + Keep(b, keep)
  {
    if |a| > 0 {
      assert (a + b)[1..] == a[1..] + b;
      KeepConcat(a[1..], b, keep);
    } else {
      assert a + b == b;
    }
  }

  /** `frequent_itemsets[frequent_itemsets["support"] >= min_support]`. */
  function FilterItemsets(rows: seq<Itemset>, minSupport: real): (r: seq<Itemset>)
    ensures forall x :: x in r <==> x in rows && x.support >= minSupport
    ensures forall x :: multiset(r)[x] == if x.support >= minSupport then multiset(rows)[x] else 0
  {
    KeepMultiplicity(rows, (x: Itemset) => x.support >= minSupport);
    Keep(rows, (x: Itemset) => x.support >= minSupport)
  }

  /** `rules[(rules["support"] >= min_support) & (rules["confidence"] >= min_confidence)]`. */
  function FilterRules(rows: seq<Rule>, minSupport: real, minConfidence: real): (r: seq<Rule>)
    ensures forall x :: x in r <==> x in rows && x.support >= minSupport && x.confidence >= minConfidence
    ensures forall x :: multiset(r)[x] ==
              if x.support >= minSupport && x.confidence >= minConfidence then multiset(rows)[x] else 0
  {
    KeepMultiplicity(rows, (x: Rule) => x.support >= minSupport && x.confidence >= minConfidence);
    Keep(rows, (x: Rule) => x.support >= minSupport && x.confidence >= minConfidence)
  }

  /** The itemset filter keeps the row order: filtering two blocks of rows is filtering each block. */
  lemma FilterItemsetsKeepsOrder(a: seq<Itemset>, b: seq<Itemset>, minSupport: real)
    ensures FilterItemsets(a + b, minSupport) == FilterItemsets(a, minSupport) + FilterItemsets(b, minSupport)
  {
    KeepConcat(a, b, (x: Itemset) => x.support >= minSupport);
  }

  /** The rule filter keeps the row order: filtering two blocks of rows is filtering each block. */
  lemma FilterRulesKeepsOrder(a: seq<Rule>, b: seq<Rule>, minSupport: real, minConfidence: real)
    ensures FilterRules(a + b, minSupport, minConfidence)
            == FilterRules(a, minSupport, minConfidence) + FilterRules(b, minSupport, minConfidence)
  {
    KeepConcat(a, b, (x: Rule) => x.support >= minSupport && x.confidence >= minConfidence);
  }

  lemma {:induction false} KeepTwice<T(!new)>(rows: seq<T>, first: T -> bool, second: T -> bool, both: T -> bool)
    requires forall x :: both(x) <==> first(x) && second(x)
    ensures Keep(Keep(rows, first), second) == Keep(rows, both)
  {
    if |rows| > 0 {
      KeepTwice(rows[1..], first, second, both);
    }
  }

  /** Moving a slider twice is moving it once to the stricter of the two positions. */
  lemma FilterItemsetsTwice(rows: seq<Itemset>, s1: real, s2: real)
    ensures FilterItemsets(FilterItemsets(rows, s1), s2) == FilterItemsets(rows, if s1 >= s2 then s1 else s2)
  {
    var m := if s1 >= s2 then s1 else s2;
    KeepTwice(rows, (x: Itemset) => x.support >= s1, (x: Itemset) => x.support >= s2,
              (x: Itemset) => x.support >= m);
  }

  /** Filtering rules twice is filtering once with the stricter support and the stricter confidence limit. */
  lemma FilterRulesTwice(rows: seq<Rule>, s1: real, c1: real, s2: real, c2: real)
    ensures FilterRules(FilterRules(rows, s1, c1), s2, c2)
            == FilterRules(rows, if s1 >= s2 then s1 else s2, if c1 >= c2 then c1 else c2)
  {
    var s, c := if s1 >= s2 then s1 else s2, if c1 >= c2 then c1 else c2;
    KeepTwice(rows, (x: Rule) => x.support >= s1 && x.confidence >= c1,
              (x: Rule) => x.support >= s2 && x.confidence >= c2,
              (x: Rule) => x.support >= s && x.confidence >= c);
  }
}
