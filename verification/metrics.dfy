/**
 The item pair probability checker: for two selected items it computes the
 support of each, their joint support, the confidence in both directions and
 the lift of item 1 towards item 2, then reads the lift as a positive,
 independent or negative association. Supports are exact ratios of basket
 counts to the number of baskets.
 */
module Metrics {
  import opened Results
  import opened Encoding

  /** Why the calculation stopped before computing anything. */
  datatype Refusal =
    | NotSelected  // an item select box was left empty
    | SameItem     // both select boxes hold the same item

  datatype Association = Positive | Independent | Negative

  datatype PairMetrics = PairMetrics(
    support1: real,
    support2: real,
    supportBoth: real,
    confidence12: real,
    confidence21: real,
    lift: real,
    association: Association)

  /** Reference count: the baskets whose item list holds `item`. */
  function BasketsHolding(baskets: seq<Basket>, item: string): (n: nat)
    ensures n <= |baskets|
  {
    if |baskets| == 0 then 0
    else (if item in baskets[0].items then 1 else 0) + BasketsHolding(baskets[1..], item)
  }

  /** Reference count: the baskets whose item list holds both `a` and `b`. */
  function BasketsHoldingBoth(baskets: seq<Basket>, a: string, b: string): (n: nat)
    ensures n <= BasketsHolding(baskets, a) && n <= BasketsHolding(baskets, b)
  {
    if |baskets| == 0 then 0
    else (if a in baskets[0].items && b in baskets[0].items then 1 else 0) + BasketsHoldingBoth(baskets[1..], a, b)
  }

  /** Holding both items does not depend on which one is named first. */
  lemma {:induction false} BasketsHoldingBothSymmetric(baskets: seq<Basket>, a: string, b: string)
    ensures BasketsHoldingBoth(baskets, a, b) == BasketsHoldingBoth(baskets, b, a)
  {
    if |baskets| > 0 {
      BasketsHoldingBothSymmetric(baskets[1..], a, b);
    }
  }

  /** The column of `item` in the presence matrix (pandas selects the column by its label). */
  function ColumnOf(universe: seq<string>, item: string): (j: nat)
    requires item in universe
    ensures j < |universe| && universe[j] == item
  {
    if universe[0] == item then 0 else 1 + ColumnOf(universe[1..], item)
  }

  /** `basket_ohe[item].sum()`. */
  function ColumnSum(presence: seq<seq<Bit>>, j: nat): nat
    requires forall i :: 0 <= i < |presence| ==> j < |presence[i]|
  {
    if |presence| == 0 then 0 else presence[0][j] + ColumnSum(presence[1..], j)
  }

  /** `&` of two presence cells. */
  function BitAnd(x: Bit, y: Bit): Bit
  {
    if x == 1 && y == 1 then 1 else 0
  }

  /** `(basket_ohe[item1] & basket_ohe[item2]).sum()`. */
  function AndSum(presence: seq<seq<Bit>>, j1: nat, j2: nat): nat
    requires forall i :: 0 <= i < |presence| ==> j1 < |presence[i]| && j2 < |presence[i]|
  {
    if |presence| == 0 then 0 else BitAnd(presence[0][j1], presence[0][j2]) + AndSum(presence[1..], j1, j2)
  }

  /** Summing a column of a valid matrix counts the baskets holding that column's item. */
  lemma {:induction false} ColumnSumCountsBaskets(e: Encoded, j: nat)
    requires Valid(e)
    requires j < |e.universe|
    decreases |e.presence|
    ensures ColumnSum(e.presence, j) == BasketsHolding(e.baskets, e.universe[j])
  {
    if |e.presence| > 0 {
      var rest := Encoded(e.baskets[1..], e.universe, e.presence[1..]);
      assert Valid(rest) by {
        forall i, k | 0 <= i < |rest.presence| && 0 <= k < |rest.universe|
          ensures rest.presence[i][k] == 1 <==> rest.universe[k] in rest.baskets[i].items
        {
          assert rest.presence[i] == e.presence[i + 1];
        }
      }
      ColumnSumCountsBaskets(rest, j);
    }
  }

  /** Summing the `&` of two columns of a valid matrix counts the baskets holding both items. */
  lemma {:induction false} AndSumCountsBaskets(e: Encoded, j1: nat, j2: nat)
    requires Valid(e)
    requires j1 < |e.universe| && j2 < |e.universe|
    decreases |e.presence|
    ensures AndSum(e.presence, j1, j2) == BasketsHoldingBoth(e.baskets, e.universe[j1], e.universe[j2])
  {
    if |e.presence| > 0 {
      var rest := Encoded(e.baskets[1..], e.universe, e.presence[1..]);
      assert Valid(rest) by {
        forall i, k | 0 <= i < |rest.presence| && 0 <= k < |rest.universe|
          ensures rest.presence[i][k] == 1 <==> rest.universe[k] in rest.baskets[i].items
        {
          assert rest.presence[i] == e.presence[i + 1];
        }
      }
      AndSumCountsBaskets(rest, j1, j2);
    }
  }

  /** The interpretation: lift above 1, exactly 1, or anything below (including 0). */
  function Classify(lift: real): (a: Association)
    ensures a == Positive <==> lift > 1.0
    ensures a == Independent <==> lift == 1.0
    ensures a == Negative <==> lift < 1.0
  {
    if lift > 1.0 then Positive else if lift == 1.0 then Independent else Negative
  }

  lemma RatioOfRatios(x: real, y: real, t: real)
    requires t > 0.0 && y > 0.0
    ensures (x / t) / (y / t) == x / y
  {
    var a, b := x / t, y / t;
    assert a * t == x && b * t == y;
    assert (a / b) * y == (a / b) * b * t;
    assert (a / b) * b == a;
  }

  lemma LiftOfRatios(x: real, y: real, z: real, t: real)
    requires t > 0.0 && y > 0.0 && z > 0.0
    ensures (x / y) / (z / t) == (x * t) / (y * z)
  {
    var q := x / y;
    assert q * y == x;
    var c := z / t;
    assert c * t == z;
    assert (q / c) * c == q;
    assert (q / c) * (y * z) == (q / c) * c * y * t;
  }

  lemma LiftOfCounts(n1: nat, n2: nat, n12: nat, total: nat)
    requires 0 < n1 && 0 < n2 && 0 < total
    ensures (n12 as real / n1 as real) / (n2 as real / total as real) == (n12 * total) as real / (n1 * n2) as real
  {
    LiftOfRatios(n12 as real, n1 as real, n2 as real, total as real);
    assert (n1 * n2) as real == n1 as real * n2 as real;
    assert (n12 * total) as real == n12 as real * total as real;
  }

  /**
   The arithmetic of the checker from the three counts and the basket total:
   supports as count / total, confidences and lift guarded against a zero
   support, and the classification of the lift.
   */
  function FromCounts(n1: nat, n2: nat, n12: nat, total: nat): (m: PairMetrics)
    requires total > 0
    ensures m.support1 == n1 as real / total as real
    ensures m.support2 == n2 as real / total as real
    ensures m.supportBoth == n12 as real / total as real
    ensures n1 == 0 ==> m.confidence12 == 0.0
    ensures n1 > 0 ==> m.confidence12 == n12 as real / n1 as real
    ensures n2 == 0 ==> m.confidence21 == 0.0
    ensures n2 > 0 ==> m.confidence21 == n12 as real / n2 as real
    ensures n1 > 0 && n2 > 0 ==> m.lift == (n12 * total) as real / (n1 * n2) as real
    ensures n1 == 0 || n2 == 0 ==> m.lift == 0.0
    ensures m.association == Classify(m.lift)
  {
    var t := total as real;
    var s1 := n1 as real / t;
    var s2 := n2 as real / t;
    var s12 := n12 as real / t;
    var conf12 := if s1 > 0.0 then s12 / s1 else 0.0;
    var conf21 := if s2 > 0.0 then s12 / s2 else 0.0;
    var lift := if s2 > 0.0 then conf12 / s2 else 0.0;
    assert s1 > 0.0 <==> n1 > 0;
    assert s2 > 0.0 <==> n2 > 0;
    assert n1 > 0 ==> conf12 == n12 as real / n1 as real
      by { if n1 > 0 { RatioOfRatios(n12 as real, n1 as real, t); } }
    assert n2 > 0 ==> conf21 == n12 as real / n2 as real
      by { if n2 > 0 { RatioOfRatios(n12 as real, n2 as real, t); } }
    assert n1 > 0 && n2 > 0 ==> lift == (n12 * total) as real / (n1 * n2) as real
      by {
        if n1 > 0 && n2 > 0 {
          assert lift == (n12 as real / n1 as real) / (n2 as real / t);
          LiftOfCounts(n1, n2, n12, total);
        }
      }
    PairMetrics(s1, s2, s12, conf12, conf21, lift, Classify(lift))
  }

  lemma JointOverProduct(x: real, y: real, z: real, t: real)
    requires t > 0.0 && y > 0.0 && z > 0.0
    ensures (x / t) / ((y / t) * (z / t)) == (x * t) / (y * z)
  {
    var a, b, c := x / t, y / t, z / t;
    assert a * t == x && b * t == y && c * t == z;
    assert b * c > 0.0;
    assert (a / (b * c)) * (b * c) == a;
    assert (a / (b * c)) * (y * z) == (a / (b * c)) * (b * c) * t * t;
  }

  /**
   Lift as the source defines it: the joint support divided by the product of
   the two supports, stated without division so that it needs no side
   condition; with both supports positive it fixes the lift uniquely.
   */
  ghost predicate LiftIsJointOverProduct(m: PairMetrics)
  {
    m.support1 > 0.0 && m.support2 > 0.0 ==> m.lift * (m.support1 * m.support2) == m.supportBoth
  }

  lemma RatioAtMostOne(x: real, y: real)
    requires 0.0 <= x <= y && y > 0.0
    ensures 0.0 <= x / y <= 1.0
  {
  }

  lemma RatioMonotone(x: real, y: real, t: real)
    requires x <= y && t > 0.0
    ensures x / t <= y / t
  {
  }

  /** The supports as count ratios: fractions, the joint one below each single one, zero exactly for a zero count. */
  lemma SupportFacts(n1: nat, n2: nat, n12: nat, total: nat)
    requires 0 < total && n1 <= total && n2 <= total && n12 <= n1 && n12 <= n2
    ensures var m := FromCounts(n1, n2, n12, total);
      && 0.0 <= m.supportBoth <= m.support1 <= 1.0
      && m.supportBoth <= m.support2 <= 1.0
      && (m.support1 == 0.0 <==> n1 == 0)
      && (m.support2 == 0.0 <==> n2 == 0)
  {
    var t := total as real;
    RatioAtMostOne(n12 as real, t);
    RatioAtMostOne(n1 as real, t);
    RatioAtMostOne(n2 as real, t);
    RatioMonotone(n12 as real, n1 as real, t);
    RatioMonotone(n12 as real, n2 as real, t);
  }

  /** A confidence is the joint support over the antecedent's support, and a fraction. */
  lemma ConfidenceFact(n: nat, n12: nat, total: nat, conf: real)
    requires 0 < n <= total && n12 <= n
    requires conf == n12 as real / n as real
    ensures conf == (n12 as real / total as real) / (n as real / total as real)
    ensures 0.0 <= conf <= 1.0
  {
    RatioOfRatios(n12 as real, n as real, total as real);
    RatioAtMostOne(n12 as real, n as real);
  }

  /** The lift is the joint support over the product of the two supports. */
  lemma LiftFact(n1: nat, n2: nat, n12: nat, total: nat, lift: real)
    requires 0 < n1 && 0 < n2 && 0 < total
    requires lift == (n12 * total) as real / (n1 * n2) as real
    ensures lift * ((n1 as real / total as real) * (n2 as real / total as real)) == n12 as real / total as real
    ensures lift >= 0.0
  {
    assert (n1 * n2) as real == n1 as real * n2 as real;
    assert (n12 * total) as real == n12 as real * total as real;
    JointOverProduct(n12 as real, n1 as real, n2 as real, total as real);
    var p := (n1 as real / total as real) * (n2 as real / total as real);
    assert p > 0.0;
    assert (n12 as real / total as real) / p * p == n12 as real / total as real;
  }

  /**
   What the checker's numbers mean when the three counts come from real
   baskets (the joint count never exceeds either single count, and no count
   exceeds the total): supports are fractions, the joint support is at most
   each single support, confidences are fractions equal to the joint support
   over the antecedent's support, and the lift is the joint support over the
   product of the supports, 0 when either support is 0.
   */
  lemma SupportLevelFacts(n1: nat, n2: nat, n12: nat, total: nat)
    requires 0 < total && n1 <= total && n2 <= total && n12 <= n1 && n12 <= n2
    ensures var m := FromCounts(n1, n2, n12, total);
      && 0.0 <= m.supportBoth <= m.support1 <= 1.0
      && m.supportBoth <= m.support2 <= 1.0
      && (m.support1 == 0.0 ==> m.confidence12 == 0.0)
      && (m.support1 > 0.0 ==> m.confidence12 == m.supportBoth / m.support1 && 0.0 <= m.confidence12 <= 1.0)
      && (m.support2 == 0.0 ==> m.confidence21 == 0.0)
      && (m.support2 > 0.0 ==> m.confidence21 == m.supportBoth / m.support2 && 0.0 <= m.confidence21 <= 1.0)
      && LiftIsJointOverProduct(m)
      && (m.support1 == 0.0 || m.support2 == 0.0 ==> m.lift == 0.0)
      && m.lift >= 0.0
      && (m.association == Positive <==> m.lift > 1.0)
      && (m.association == Independent <==> m.lift == 1.0)
      && (m.association == Negative <==> m.lift < 1.0)
  {
    var m := FromCounts(n1, n2, n12, total);
    SupportFacts(n1, n2, n12, total);
    if n1 > 0 {
      ConfidenceFact(n1, n12, total, m.confidence12);
    }
    if n2 > 0 {
      ConfidenceFact(n2, n12, total, m.confidence21);
    }
    if n1 > 0 && n2 > 0 {
      LiftFact(n1, n2, n12, total, m.lift);
    }
  }

  /**
   The "Calculate Association" action: stop when an item is unselected or
   both are the same; otherwise compute the supports, confidences, lift and
   interpretation from the presence matrix.
   */
  function Analyze(e: Encoded, item1: Option<string>, item2: Option<string>): (r: Result<PairMetrics, Refusal>)
    requires Valid(e)
    requires item1.Some? && item2.Some? && item1.value != item2.value ==> |e.baskets| > 0
    requires item1.Some? ==> item1.value in e.universe
    requires item2.Some? ==> item2.value in e.universe
    ensures r == Failure(NotSelected) <==> item1.None? || item2.None?
    ensures r == Failure(SameItem) <==> item1.Some? && item2.Some? && item1.value == item2.value
    ensures r.Success? <==> item1.Some? && item2.Some? && item1.value != item2.value
    ensures r.Success? ==>
              r.value == FromCounts(BasketsHolding(e.baskets, item1.value), BasketsHolding(e.baskets, item2.value),
                                    BasketsHoldingBoth(e.baskets, item1.value, item2.value), |e.baskets|)
    ensures r.Success? ==>
              && 0.0 <= r.value.supportBoth <= r.value.support1 <= 1.0
              && r.value.supportBoth <= r.value.support2 <= 1.0
    ensures r.Success? ==>
              && (r.value.support1 == 0.0 ==> r.value.confidence12 == 0.0)
              && (r.value.support1 > 0.0 ==>
                    r.value.confidence12 == r.value.supportBoth / r.value.support1
                    && 0.0 <= r.value.confidence12 <= 1.0)
              && (r.value.support2 == 0.0 ==> r.value.confidence21 == 0.0)
              && (r.value.support2 > 0.0 ==>
                    r.value.confidence21 == r.value.supportBoth / r.value.support2
                    && 0.0 <= r.value.confidence21 <= 1.0)
    ensures r.Success? ==>
              && r.value.lift >= 0.0
              && (r.value.support1 == 0.0 || r.value.support2 == 0.0 ==> r.value.lift == 0.0)
              && LiftIsJointOverProduct(r.value)
    ensures r.Success? ==>
              && (r.value.association == Positive <==> r.value.lift > 1.0)
              && (r.value.association == Independent <==> r.value.lift == 1.0)
              && (r.value.association == Negative <==> r.value.lift < 1.0)
  {
    if item1.None? || item2.None? then Failure(NotSelected)
    else if item1.value == item2.value then Failure(SameItem)
    else
      var j1 := ColumnOf(e.universe, item1.value);
      var j2 := ColumnOf(e.universe, item2.value);
      var n1 := ColumnSum(e.presence, j1);
      var n2 := ColumnSum(e.presence, j2);
      var n12 := AndSum(e.presence, j1, j2);
      ColumnSumCountsBaskets(e, j1);
      ColumnSumCountsBaskets(e, j2);
      AndSumCountsBaskets(e, j1, j2);
      var m := FromCounts(n1, n2, n12, |e.baskets|);
      SupportLevelFacts(n1, n2, n12, |e.baskets|);
      Success(m)
  }

  lemma CancelPositive(x: real, y: real, p: real)
    requires p > 0.0 && x * p == y * p
    ensures x == y
  {
    assert (x - y) * p == 0.0;
  }

  /** Exchanging the two counts exchanges the supports and confidences and keeps the lift. */
  lemma FromCountsSymmetric(n1: nat, n2: nat, n12: nat, total: nat)
    requires total > 0
    ensures var m, w := FromCounts(n1, n2, n12, total), FromCounts(n2, n1, n12, total);
            && w.support1 == m.support2 && w.support2 == m.support1
            && w.supportBoth == m.supportBoth
            && w.confidence12 == m.confidence21 && w.confidence21 == m.confidence12
            && w.lift == m.lift
            && w.association == m.association
  {
    if n1 > 0 && n2 > 0 {
      assert n1 * n2 == n2 * n1;
    }
  }

  /**
   Swapping the two selected items swaps the single supports and the two
   confidences and leaves the joint support, the lift and the interpretation
   unchanged: lift(1 -> 2) equals lift(2 -> 1).
   */
  lemma AnalyzeSymmetric(e: Encoded, a: string, b: string)
    requires Valid(e) && |e.baskets| > 0
    requires a in e.universe && b in e.universe && a != b
    ensures var m := Analyze(e, Some(a), Some(b)).value;
            var w := Analyze(e, Some(b), Some(a)).value;
            && w.support1 == m.support2 && w.support2 == m.support1
            && w.supportBoth == m.supportBoth
            && w.confidence12 == m.confidence21 && w.confidence21 == m.confidence12
            && w.lift == m.lift
            && w.association == m.association
  {
    BasketsHoldingBothSymmetric(e.baskets, a, b);
    FromCountsSymmetric(BasketsHolding(e.baskets, a), BasketsHolding(e.baskets, b),
                        BasketsHoldingBoth(e.baskets, a, b), |e.baskets|);
  }

  lemma ProductOrder(lift: real, x: real, y: real)
    requires y > 0.0 && lift == x / y
    ensures lift > 1.0 <==> x > y
    ensures lift == 1.0 <==> x == y
  {
  }

  /** The interpretation read off the counts (see `AssociationByCounts`). */
  lemma ClassifyByCounts(n1: nat, n2: nat, n12: nat, total: nat)
    requires total > 0
    ensures var m := FromCounts(n1, n2, n12, total);
            && (m.association == Positive <==> n1 > 0 && n2 > 0 && n12 * total > n1 * n2)
            && (m.association == Independent <==> n1 > 0 && n2 > 0 && n12 * total == n1 * n2)
            && (m.association == Negative <==> n1 == 0 || n2 == 0 || n12 * total < n1 * n2)
  {
    if n1 > 0 && n2 > 0 {
      assert n1 * n2 > 0;
      ProductOrder(FromCounts(n1, n2, n12, total).lift, (n12 * total) as real, (n1 * n2) as real);
    }
  }

  /**
   The interpretation read off the counts: the pair is positively associated
   exactly when both items occur and the joint count times the number of
   baskets exceeds the product of the single counts, independent when the two
   are equal, and negatively associated otherwise, which includes an item that
   no basket holds.
   */
  lemma AssociationByCounts(e: Encoded, a: string, b: string)
    requires Valid(e) && |e.baskets| > 0
    requires a in e.universe && b in e.universe && a != b
    ensures var n1, n2 := BasketsHolding(e.baskets, a), BasketsHolding(e.baskets, b);
            var n12, t := BasketsHoldingBoth(e.baskets, a, b), |e.baskets|;
            var m := Analyze(e, Some(a), Some(b)).value;
            && (m.association == Positive <==> n1 > 0 && n2 > 0 && n12 * t > n1 * n2)
            && (m.association == Independent <==> n1 > 0 && n2 > 0 && n12 * t == n1 * n2)
            && (m.association == Negative <==> n1 == 0 || n2 == 0 || n12 * t < n1 * n2)
  {
    ClassifyByCounts(BasketsHolding(e.baskets, a), BasketsHolding(e.baskets, b),
                     BasketsHoldingBoth(e.baskets, a, b), |e.baskets|);
  }

  /**
   With no transactions loaded the checker still answers an incomplete
   selection: it stops before any count is taken.
   */
  lemma EmptyTableStopsUnselected()
    ensures Encode([]).baskets == []
    ensures Analyze(Encode([]), None, None) == Failure(NotSelected)
  {
  }

  /**
   A worked case: baskets {milk, bread}, {milk}, {bread}, {milk, bread, eggs}.
   Milk and bread each have support 3/4, joint support 1/2, confidence 2/3
   either way and lift 8/9, so they read as negatively associated.
   */
  lemma MilkAndBread()
    ensures var baskets := [
              Basket(Key(1, "01-01-2015"), ["milk", "bread"]),
              Basket(Key(2, "01-01-2015"), ["milk"]),
              Basket(Key(3, "01-01-2015"), ["bread"]),
              Basket(Key(4, "01-01-2015"), ["milk", "bread", "eggs"])];
            var universe := ["bread", "eggs", "milk"];
            var e := Encoded(baskets, universe, Matrix(baskets, universe));
            Analyze(e, Some("milk"), Some("bread"))
            == Success(PairMetrics(0.75, 0.75, 0.5, 2.0 / 3.0, 2.0 / 3.0, 8.0 / 9.0, Negative))
  {
    var baskets := [
      Basket(Key(1, "01-01-2015"), ["milk", "bread"]),
      Basket(Key(2, "01-01-2015"), ["milk"]),
      Basket(Key(3, "01-01-2015"), ["bread"]),
      Basket(Key(4, "01-01-2015"), ["milk", "bread", "eggs"])];
    var universe := ["bread", "eggs", "milk"];
    var e := Encoded(baskets, universe, Matrix(baskets, universe));
    assert baskets[1..][1..][1..][1..] == [];
    assert BasketsHolding(baskets, "milk") == 3;
    assert BasketsHolding(baskets, "bread") == 3;
    assert BasketsHoldingBoth(baskets, "milk", "bread") == 2;
    var m := Analyze(e, Some("milk"), Some("bread")).value;
    assert m.support1 == 0.75 && m.support2 == 0.75 && m.supportBoth == 0.5;
    assert m.confidence12 == 2.0 / 3.0 && m.confidence21 == 2.0 / 3.0;
    assert LiftIsJointOverProduct(m);
    CancelPositive(m.lift, 8.0 / 9.0, 0.75 * 0.75);
  }
}
