/**
 * The per-product score: an energy score read off the rating text, a price score
 * relative to the budget, and their blend weighted by the eco priority.
 */
module Scoring {
  import opened Strings
  import opened Catalog

  /**
   * The ordered, case-sensitive substring ladder over the rating text:
   * "5 Star", "4 Star", "3 Star", then any text holding "NA", then everything else.
   */
  function EnergyScore(rating: string): (e: int)
    ensures 1 <= e <= 5
  {
    if Contains(rating, "5 Star") then 5
    else if Contains(rating, "4 Star") then 4
    else if Contains(rating, "3 Star") then 3
    else if Contains(rating, "NA") then 2
    else 1
  }

  ghost predicate Occurs(s: string, pat: string) {
    exists i :: OccursAt(s, pat, i)
  }

  /** Each rung of the ladder, stated with occurrence at a position instead of the scan. */
  lemma EnergyScoreLadder(rating: string)
    ensures EnergyScore(rating) == 5 <==> Occurs(rating, "5 Star")
    ensures EnergyScore(rating) == 4 <==> !Occurs(rating, "5 Star") && Occurs(rating, "4 Star")
    ensures EnergyScore(rating) == 3
        <==> !Occurs(rating, "5 Star") && !Occurs(rating, "4 Star") && Occurs(rating, "3 Star")
    ensures EnergyScore(rating) == 2
        <==> !Occurs(rating, "5 Star") && !Occurs(rating, "4 Star") && !Occurs(rating, "3 Star")
             && Occurs(rating, "NA")
    ensures EnergyScore(rating) == 1
        <==> !Occurs(rating, "5 Star") && !Occurs(rating, "4 Star") && !Occurs(rating, "3 Star")
             && !Occurs(rating, "NA")
  {
    ContainsMeansOccurs(rating, "5 Star");
    ContainsMeansOccurs(rating, "4 Star");
    ContainsMeansOccurs(rating, "3 Star");
    ContainsMeansOccurs(rating, "NA");
  }

  /** The ladder on the ratings that contain a rung. */
  lemma EnergyScoreRungs()
    ensures EnergyScore("5 Star") == 5 && EnergyScore("5 Star Plus") == 5
    ensures EnergyScore("4 Star") == 4 && EnergyScore("3 Star") == 3
    ensures EnergyScore("NA") == 2
  {
    assert IsPrefix("5 Star", "5 Star Plus");
    MissingCharNotContained("4 Star", "5 Star", 0);
    MissingCharNotContained("3 Star", "5 Star", 0);
    MissingCharNotContained("3 Star", "4 Star", 0);
    MissingCharNotContained("NA", "5 Star", 0);
    MissingCharNotContained("NA", "4 Star", 0);
    MissingCharNotContained("NA", "3 Star", 0);
    assert IsPrefix("NA", "NA");
  }

  /** A text holding none of the four rungs scores 1, because it lacks a character of each. */
  lemma EnergyScoreBottom(rating: string, k5: nat, k4: nat, k3: nat, kNA: nat)
    requires k5 < 6 && k4 < 6 && k3 < 6 && kNA < 2
    requires forall i :: 0 <= i < |rating| ==> rating[i] != "5 Star"[k5] && rating[i] != "4 Star"[k4]
    requires forall i :: 0 <= i < |rating| ==> rating[i] != "3 Star"[k3] && rating[i] != "NA"[kNA]
    ensures EnergyScore(rating) == 1
  {
    MissingCharNotContained(rating, "5 Star", k5);
    MissingCharNotContained(rating, "4 Star", k4);
    MissingCharNotContained(rating, "3 Star", k3);
    MissingCharNotContained(rating, "NA", kNA);
  }

  /** "2 Star", "1 Star" and an empty rating score 1, below "NA". */
  lemma EnergyScoreBottomExamples()
    ensures EnergyScore("2 Star") == 1 && EnergyScore("1 Star") == 1 && EnergyScore("") == 1
  {
    EnergyScoreBottom("2 Star", 0, 0, 0, 0);
    EnergyScoreBottom("1 Star", 0, 0, 0, 0);
    EnergyScoreBottom("", 0, 0, 0, 0);
  }

  /** The match is case-sensitive: the lower-case "5 star" scores 1, not 5. */
  lemma EnergyScoreCaseSensitive()
    ensures EnergyScore("5 star") == 1
  {
    EnergyScoreBottom("5 star", 2, 2, 2, 0);
  }

  function Min(x: real, y: real): (m: real)
    ensures m <= x && m <= y && (m == x || m == y)
  {
    if x <= y then x else y
  }

  lemma MulNonneg(x: real, y: real)
    requires x >= 0.0 && y >= 0.0
    ensures x * y >= 0.0
  {
  }

  /** `1 - min(price / budget, 1)`; the division is undefined for a zero budget. */
  function PriceScore(price: real, budget: real): (r: real)
    requires budget != 0.0
  {
    1.0 - Min(price / budget, 1.0)
  }

  lemma PriceScoreBounds(price: real, budget: real)
    requires budget > 0.0 && price >= 0.0
    ensures 0.0 <= PriceScore(price, budget) <= 1.0
    ensures price >= budget ==> PriceScore(price, budget) == 0.0
    ensures price < budget ==> PriceScore(price, budget) > 0.0
    ensures price == 0.0 ==> PriceScore(price, budget) == 1.0
  {
    var q := price / budget;
    assert q * budget == price;
    if price >= budget {
      assert q >= 1.0;
    } else if q >= 1.0 {
      MulNonneg(q - 1.0, budget);
      assert false;
    }
  }

  /** A cheaper product never has the lower price score. */
  lemma PriceScoreMonotone(p1: real, p2: real, budget: real)
    requires budget > 0.0 && p1 <= p2
    ensures PriceScore(p1, budget) >= PriceScore(p2, budget)
  {
    assert p1 / budget <= p2 / budget;
  }

  /** `energy * eco + priceScore * (1 - eco)`. */
  function Blend(energy: int, priceScore: real, eco: real): (r: real) {
    energy as real * eco + priceScore * (1.0 - eco)
  }

  /** For an eco priority in [0, 1] the blend lies between its two ingredients. */
  lemma BlendBetween(energy: int, priceScore: real, eco: real)
    requires 0.0 <= eco <= 1.0
    ensures Min(energy as real, priceScore) <= Blend(energy, priceScore, eco)
    ensures Blend(energy, priceScore, eco) <= -Min(-(energy as real), -priceScore)
    ensures eco == 1.0 ==> Blend(energy, priceScore, eco) == energy as real
    ensures eco == 0.0 ==> Blend(energy, priceScore, eco) == priceScore
  {
    var e := energy as real;
    var lo := Min(e, priceScore);
    var hi := -Min(-e, -priceScore);
    MulNonneg(e - lo, eco);
    MulNonneg(priceScore - lo, 1.0 - eco);
    MulNonneg(hi - e, eco);
    MulNonneg(hi - priceScore, 1.0 - eco);
    assert Blend(energy, priceScore, eco) - lo == (e - lo) * eco + (priceScore - lo) * (1.0 - eco);
    assert hi - Blend(energy, priceScore, eco) == (hi - e) * eco + (hi - priceScore) * (1.0 - eco);
  }

  /** The score the recommender stores on a product. */
  function ProductScore(a: Appliance, budget: real, eco: real): (r: real)
    requires budget != 0.0
  {
    Blend(EnergyScore(a.energyRating), PriceScore(a.price, budget), eco)
  }

  /** With a positive budget, a non-negative price and an eco priority in [0, 1], a score lies in [0, 5]. */
  lemma ProductScoreBounds(a: Appliance, budget: real, eco: real)
    requires budget > 0.0 && a.price >= 0.0 && 0.0 <= eco <= 1.0
    ensures 0.0 <= ProductScore(a, budget, eco) <= 5.0
  {
    PriceScoreBounds(a.price, budget);
    BlendBetween(EnergyScore(a.energyRating), PriceScore(a.price, budget), eco);
  }
}
