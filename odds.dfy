/** The odds table of the calculate handler, in exact rational arithmetic. */
module Odds {
  import opened Packages

  /** A one-in figure or a cost: a number, or JavaScript's `Infinity`. */
  datatype Extended = Bounded(value: real) | Unbounded

  /** One row of the table: a package and what buying it would give. */
  datatype Row = Row(entries: real, price: real, probability: real, oneIn: Extended, costBasedOnOdds: Extended)

  /** The numbers the handler reports besides the competition id. */
  datatype Summary = Summary(
    othersEntries: real,
    yourEntries: real,
    overallEntries: real,
    currentOdds: real,
    packages: seq<Row>)

  /** `Math.round`: the nearest integer, halves rounded up. */
  function Round(x: real): (n: int)
    ensures n as real - 0.5 <= x < n as real + 0.5
  {
    (x + 0.5).Floor
  }

  /** `whole > 0 ? part / whole : 0`. */
  function Share(part: real, whole: real): real
  {
    if whole > 0.0 then part / whole else 0.0
  }

  /** `prob > 0 ? Math.round(1 / prob) : Infinity`. */
  function OneIn(prob: real): Extended
  {
    if prob > 0.0 then Bounded(Round(1.0 / prob) as real) else Unbounded
  }

  /** `oneIn !== Infinity ? oneIn * price : Infinity`. */
  function CostOf(oneIn: Extended, price: real): Extended
  {
    if oneIn.Bounded? then Bounded(oneIn.value * price) else Unbounded
  }

  /** The row for buying `pkg` on top of `your` entries when the others
      hold `others`. */
  function MakeRow(others: real, your: real, pkg: Package): Row
  {
    var newYour := your + pkg.entries;
    var newTotal := others + your + pkg.entries;
    var prob := Share(newYour, newTotal);
    var oneIn := OneIn(prob);
    Row(pkg.entries, pkg.price, prob, oneIn, CostOf(oneIn, pkg.price))
  }

  function Rows(others: real, your: real, pkgs: seq<Package>): seq<Row>
  {
    seq(|pkgs|, i requires 0 <= i < |pkgs| => MakeRow(others, your, pkgs[i]))
  }

  /** The reported figures for `others` entries sold, `your` entries held
      and the sorted packages `pkgs`. */
  function Summarize(others: real, your: real, pkgs: seq<Package>): Summary
  {
    var overall := others + your;
    Summary(others, your, overall, Share(your, overall), Rows(others, your, pkgs))
  }

  /** A share of a non-negative whole is a probability, and it is zero
      exactly when the part is. */
  lemma ShareIsProbability(part: real, whole: real)
    requires 0.0 <= part <= whole
    ensures 0.0 <= Share(part, whole) <= 1.0
    ensures Share(part, whole) == 0.0 <==> part == 0.0
  {
    if whole > 0.0 {
      assert part / whole <= whole / whole;
    }
  }

  /** The one-in figure is `Infinity` exactly when the probability is not
      positive; otherwise it is 1/prob rounded, and at least 1 for a
      probability of at most 1. */
  lemma OneInSpec(prob: real)
    ensures OneIn(prob).Unbounded? <==> prob <= 0.0
    ensures OneIn(prob).Bounded? ==>
      && OneIn(prob).value - 0.5 <= 1.0 / prob < OneIn(prob).value + 0.5
      && OneIn(prob).value == OneIn(prob).value.Floor as real
      && (prob <= 1.0 ==> OneIn(prob).value >= 1.0)
  {
    if prob > 0.0 && prob <= 1.0 {
      assert 1.0 / prob >= 1.0 by {
        assert prob * (1.0 / prob) == 1.0;
      }
    }
  }

  lemma MulNonNeg(a: real, b: real)
    requires a >= 0.0 && b >= 0.0
    ensures a * b >= 0.0
  {
  }

  /** The cost is the expected cost of one top-prize win: `Infinity`
      exactly when the probability is not positive, and otherwise, for a
      non-negative price, within half a price of price / prob. */
  lemma CostSpec(prob: real, price: real)
    ensures CostOf(OneIn(prob), price).Unbounded? <==> prob <= 0.0
    ensures prob > 0.0 && price >= 0.0 ==>
      && CostOf(OneIn(prob), price).Bounded?
      && price / prob - price / 2.0 <= CostOf(OneIn(prob), price).value <= price / prob + price / 2.0
  {
    OneInSpec(prob);
    if prob > 0.0 && price >= 0.0 {
      var n := OneIn(prob).value;
      var x := 1.0 / prob;
      assert price / prob == x * price;
      MulNonNeg(x - n + 0.5, price);
      MulNonNeg(n + 0.5 - x, price);
      assert CostOf(OneIn(prob), price).value == n * price;
    }
  }

  /** With non-negative counts, a row's probability lies in [0, 1], its
      one-in figure and cost are `Infinity` exactly when you would hold no
      entries at all, and otherwise the one-in figure is at least 1. */
  lemma RowSpec(others: real, your: real, pkg: Package)
    requires others >= 0.0 && your >= 0.0 && pkg.entries >= 0.0
    ensures var row := MakeRow(others, your, pkg);
      && row.entries == pkg.entries && row.price == pkg.price
      && 0.0 <= row.probability <= 1.0
      && (row.oneIn.Unbounded? <==> your + pkg.entries == 0.0)
      && (row.costBasedOnOdds.Unbounded? <==> your + pkg.entries == 0.0)
      && (row.oneIn.Bounded? ==> row.oneIn.value >= 1.0)
      && (row.costBasedOnOdds.Bounded? ==> row.costBasedOnOdds.value == row.oneIn.value * pkg.price)
  {
    var row := MakeRow(others, your, pkg);
    ShareIsProbability(your + pkg.entries, others + your + pkg.entries);
    OneInSpec(row.probability);
  }

  /** a / (t + a) grows with a, for t >= 0. */
  lemma FractionMonotone(t: real, a: real, b: real)
    requires t >= 0.0 && 0.0 < a <= b
    ensures a / (t + a) <= b / (t + b)
  {
    var ta, tb := t + a, t + b;
    var x, y := a / ta, b / tb;
    assert x * ta == a && y * tb == b;
    assert a * tb <= b * ta by {
      assert a * tb == a * t + a * b;
      assert b * ta == b * t + a * b;
      assert a * t <= b * t;
    }
    assert (x - y) * (ta * tb) <= 0.0 by {
      assert (x - y) * (ta * tb) == (x * ta) * tb - (y * tb) * ta;
    }
    assert ta * tb > 0.0;
  }

  /** A larger package never gives a smaller probability. */
  lemma ProbabilityMonotone(others: real, your: real, p: Package, q: Package)
    requires others >= 0.0 && your >= 0.0
    requires 0.0 <= p.entries <= q.entries
    ensures MakeRow(others, your, p).probability <= MakeRow(others, your, q).probability
  {
    var a := your + p.entries;
    var b := your + q.entries;
    ShareIsProbability(a, others + a);
    ShareIsProbability(b, others + b);
    if a > 0.0 {
      FractionMonotone(others, a, b);
      assert others + your + p.entries == others + a;
      assert others + your + q.entries == others + b;
    }
  }

  /** The summary's figures: `overallEntries` is the sum of both counts;
      `currentOdds` is 0 when there are no entries overall, else your
      share, a probability when both counts are non-negative; one row per
      package, in package order. */
  lemma SummarySpec(others: real, your: real, pkgs: seq<Package>)
    ensures var s := Summarize(others, your, pkgs);
      && s.othersEntries == others && s.yourEntries == your
      && s.overallEntries == others + your
      && (s.overallEntries <= 0.0 ==> s.currentOdds == 0.0)
      && (s.overallEntries > 0.0 ==> s.currentOdds * s.overallEntries == your)
      && (others >= 0.0 && your >= 0.0 ==> 0.0 <= s.currentOdds <= 1.0)
      && |s.packages| == |pkgs|
      && (forall i :: 0 <= i < |pkgs| ==>
            s.packages[i] == MakeRow(others, your, pkgs[i]))
  {
    if others >= 0.0 && your >= 0.0 {
      ShareIsProbability(your, others + your);
    }
  }

  /** Rows follow the packages' order, so sorted packages give rows sorted
      by price. */
  lemma RowsSortedByPrice(others: real, your: real, pkgs: seq<Package>)
    requires SortedByPrice(pkgs)
    ensures var rows := Rows(others, your, pkgs);
      forall i, j :: 0 <= i < j < |rows| ==> rows[i].price <= rows[j].price
  {
  }

  /** 90 entries sold and 10 held give overall 100 and odds 0.1; a package
      of 50 entries at price 10 gives probability 0.4, and `Math.round(2.5)`
      makes the one-in figure 3 and the cost 30. */
  lemma ExampleFigures()
    ensures Summarize(90.0, 10.0, []).overallEntries == 100.0
    ensures Summarize(90.0, 10.0, []).currentOdds == 0.1
    ensures MakeRow(90.0, 10.0, Package(50.0, 10.0)) ==
      Row(50.0, 10.0, 0.4, Bounded(3.0), Bounded(30.0))
  {
    assert Round(2.5) == 3;
  }
}
