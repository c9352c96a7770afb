/**
 * The part of the `/api/recommend` handler that is logic: after the recommender
 * returns, every product of both lists whose consumption text is non-empty gets
 * an `annual_cost` at the configured electricity rate.
 */
module Api {
  import opened Wrappers
  import opened Catalog
  import opened Consumption
  import opened Recommender

  /** The configured price of one kWh. */
  const PricePerKwh: real := 7.5

  /** One product after the handler has looked at it. */
  function Annotated(p: Product, rate: real): (r: Product) {
    if ConsumptionGiven(p.item.annualConsumption) then
      p.(annualCost := Some(CalculateAnnualCost(p.item.annualConsumption.value, rate)))
    else
      p
  }

  /**
   * Only the cost changes, it is set exactly on products with a consumption text,
   * and annotating twice is annotating once. The last fact is why annotating the
   * two lists separately agrees with the handler, which annotates the one
   * dictionary shared by both lists twice.
   */
  lemma AnnotatedChangesOnlyCost(p: Product, rate: real)
    ensures Annotated(p, rate).item == p.item && Annotated(p, rate).score == p.score
    ensures ConsumptionGiven(p.item.annualConsumption) ==>
      Annotated(p, rate).annualCost == Some(CalculateAnnualCost(p.item.annualConsumption.value, rate))
    ensures !ConsumptionGiven(p.item.annualConsumption) ==> Annotated(p, rate) == p
    ensures Annotated(Annotated(p, rate), rate) == Annotated(p, rate)
  {
  }

  function AnnotatedAll(s: seq<Product>, rate: real): (r: seq<Product>)
    ensures |r| == |s|
  {
    seq(|s|, i requires 0 <= i < |s| => Annotated(s[i], rate))
  }

  /** The annotation loop, run over an array of products in place. */
  method AnnotateCosts(products: array<Product>, rate: real)
    modifies products
    ensures products[..] == AnnotatedAll(old(products[..]), rate)
  {
    var i := 0;
    while i < products.Length
      invariant 0 <= i <= products.Length
      invariant forall k :: 0 <= k < i ==> products[k] == Annotated(old(products[k]), rate)
      invariant forall k :: i <= k < products.Length ==> products[k] == old(products[k])
    {
      if ConsumptionGiven(products[i].item.annualConsumption) {
        var cost := CalculateAnnualCost(products[i].item.annualConsumption.value, rate);
        products[i] := products[i].(annualCost := Some(cost));
      }
      i := i + 1;
    }
  }

  /** What the handler answers (the energy data aside), or the exception the recommender raised. */
  function Respond(catalog: seq<Appliance>, categoryId: Option<int>, subcategoryId: Option<int>, budget: real, eco: real)
    : (r: Result<Recommendation, RecommendError>)
  {
    match Recommend(catalog, categoryId, subcategoryId, budget, eco)
    case Failure(e) => Failure(e)
    case Success(res) =>
      Success(Recommendation(AnnotatedAll(res.recommendations, PricePerKwh), AnnotatedAll(res.ecoPicks, PricePerKwh)))
  }

  /** The handler: recommend, then annotate `recommendations + eco_picks` in one loop. */
  method ApiRecommend(catalog: seq<Appliance>, categoryId: Option<int>, subcategoryId: Option<int>, budget: real, eco: real)
    returns (r: Result<Recommendation, RecommendError>)
    ensures r == Respond(catalog, categoryId, subcategoryId, budget, eco)
  {
    var results := RecommendAppliances(catalog, categoryId, subcategoryId, budget, eco);
    if results.Failure? {
      return Failure(results.error);
    }
    var recs, picks := results.value.recommendations, results.value.ecoPicks;
    var both := recs + picks;
    var products := new Product[|both|](i requires 0 <= i < |both| => both[i]);
    assert products[..] == both;
    AnnotateCosts(products, PricePerKwh);
    assert products[..|recs|] == AnnotatedAll(recs, PricePerKwh);
    assert products[|recs|..] == AnnotatedAll(picks, PricePerKwh);
    r := Success(Recommendation(products[..|recs|], products[|recs|..]));
  }

  /**
   * A response keeps the recommender's products and their order, and gives a cost
   * to exactly the products that state a consumption.
   */
  lemma RespondAnnotates(catalog: seq<Appliance>, categoryId: Option<int>, subcategoryId: Option<int>, budget: real, eco: real)
    requires Recommend(catalog, categoryId, subcategoryId, budget, eco).Success?
    ensures var before := Recommend(catalog, categoryId, subcategoryId, budget, eco).value;
      var after := Respond(catalog, categoryId, subcategoryId, budget, eco).value;
      && |after.recommendations| == |before.recommendations|
      && |after.ecoPicks| == |before.ecoPicks|
      && (forall i :: 0 <= i < |before.recommendations| ==>
            after.recommendations[i].item == before.recommendations[i].item
            && after.recommendations[i].score == before.recommendations[i].score
            && (after.recommendations[i].annualCost.Some?
                <==> ConsumptionGiven(before.recommendations[i].item.annualConsumption)))
      && (forall i :: 0 <= i < |before.ecoPicks| ==>
            after.ecoPicks[i].item == before.ecoPicks[i].item
            && after.ecoPicks[i].score == before.ecoPicks[i].score
            && (after.ecoPicks[i].annualCost.Some? <==> ConsumptionGiven(before.ecoPicks[i].item.annualConsumption)))
  {
    var before := Recommend(catalog, categoryId, subcategoryId, budget, eco).value;
    RecommendCostsUnset(catalog, categoryId, subcategoryId, budget, eco);
  }

  /** The recommender itself sets no cost. */
  lemma RecommendCostsUnset(catalog: seq<Appliance>, categoryId: Option<int>, subcategoryId: Option<int>, budget: real, eco: real)
    requires Recommend(catalog, categoryId, subcategoryId, budget, eco).Success?
    ensures var res := Recommend(catalog, categoryId, subcategoryId, budget, eco).value;
      && (forall p :: p in res.recommendations ==> p.annualCost.None?)
      && (forall p :: p in res.ecoPicks ==> p.annualCost.None?)
  {
    var rows := Candidates(catalog, categoryId, subcategoryId, budget);
    var scored := Scored(rows, budget, eco);
    var ranked := Ranked(rows, budget, eco);
    Ranking.SortByScorePermutes(scored);
    Eco.EcoPicksAreFirstQualifying(ranked);
    forall p | p in ranked ensures p.annualCost.None? {
      assert p in multiset(scored);
    }
  }
}
