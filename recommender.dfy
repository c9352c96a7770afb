/**
 * `recommend_appliances`: query the candidates, score each one, sort by score,
 * take the eco picks from the whole sorted list and the first fifty as the
 * recommendations. Recommend is the specification and RecommendAppliances the
 * step-by-step procedure proved to compute it.
 */
module Recommender {
  import opened Wrappers
  import opened Strings
  import opened Catalog
  import opened Scoring
  import opened Ranking
  import opened Eco

  const RecommendationLimit: nat := 50

  /** The exceptions the procedure can raise. */
  datatype RecommendError =
    | DivisionByZero                   // `price / budget` with a zero budget
    | UnreadableConsumption(id: string) // `float(...)` in the eco test, on this product

  datatype Recommendation = Recommendation(recommendations: seq<Product>, ecoPicks: seq<Product>)

  /** Each candidate as a product carrying its score and no cost yet. */
  function Scored(rows: seq<Appliance>, budget: real, eco: real): (r: seq<Product>)
    requires |rows| == 0 || budget != 0.0
  {
    seq(|rows|, i requires 0 <= i < |rows| => Product(rows[i], ProductScore(rows[i], budget, eco), None))
  }

  /** `products[:50]`. */
  function Top(ranked: seq<Product>): (r: seq<Product>)
    ensures |r| == if |ranked| < RecommendationLimit then |ranked| else RecommendationLimit
    ensures r == ranked[..|r|]
  {
    if |ranked| <= RecommendationLimit then ranked else ranked[..RecommendationLimit]
  }

  /** The ranked list: every candidate, scored and stably sorted by descending score. */
  function Ranked(rows: seq<Appliance>, budget: real, eco: real): (r: seq<Product>)
    requires |rows| == 0 || budget != 0.0
  {
    SortByScore(Scored(rows, budget, eco))
  }

  /** What `recommend_appliances` returns, or the exception it raises. */
  function Recommend(catalog: seq<Appliance>, categoryId: Option<int>, subcategoryId: Option<int>, budget: real, eco: real)
    : (r: Result<Recommendation, RecommendError>)
  {
    var rows := Candidates(catalog, categoryId, subcategoryId, budget);
    if |rows| > 0 && budget == 0.0 then Failure(DivisionByZero)
    else
      var ranked := Ranked(rows, budget, eco);
      match EcoPicks(ranked)
      case Failure(id) => Failure(UnreadableConsumption(id))
      case Success(picks) => Success(Recommendation(Top(ranked), picks))
  }

  /** The procedure: the row loop, the scoring loop, the in-place sort, the two selections. */
  method RecommendAppliances(catalog: seq<Appliance>, categoryId: Option<int>, subcategoryId: Option<int>, budget: real, eco: real)
    returns (r: Result<Recommendation, RecommendError>)
    ensures r == Recommend(catalog, categoryId, subcategoryId, budget, eco)
  {
    var rows := Candidates(catalog, categoryId, subcategoryId, budget);
    var products := new Product[|rows|];
    var i := 0;
    while i < |rows|
      invariant 0 <= i <= |rows|
      invariant forall k :: 0 <= k < i ==> products[k] == Product(rows[k], 0.0, None)
    {
      products[i] := Product(rows[i], 0.0, None);
      i := i + 1;
    }
    i := 0;
    while i < products.Length
      invariant 0 <= i <= products.Length
      invariant i > 0 ==> budget != 0.0
      invariant forall k :: 0 <= k < i ==> products[k] == Product(rows[k], ProductScore(rows[k], budget, eco), None)
      invariant forall k :: i <= k < products.Length ==> products[k] == Product(rows[k], 0.0, None)
    {
      if budget == 0.0 {
        return Failure(DivisionByZero);
      }
      var energy := EnergyScore(products[i].item.energyRating);
      var priceScore := PriceScore(products[i].item.price, budget);
      products[i] := products[i].(score := Blend(energy, priceScore, eco));
      i := i + 1;
    }
    assert products[..] == Scored(rows, budget, eco);
    InsertionSort(products);
    var ranked := products[..];
    var picks := EcoPicks(ranked);
    if picks.Failure? {
      return Failure(UnreadableConsumption(picks.error));
    }
    r := Success(Recommendation(Top(ranked), picks.value));
  }

  /** No candidates: no recommendations and no eco picks, whatever the budget. */
  lemma RecommendNoCandidates(catalog: seq<Appliance>, categoryId: Option<int>, subcategoryId: Option<int>, budget: real, eco: real)
    requires Candidates(catalog, categoryId, subcategoryId, budget) == []
    ensures Recommend(catalog, categoryId, subcategoryId, budget, eco) == Success(Recommendation([], []))
  {
  }

  /** A zero budget with at least one candidate (a product priced at most 0) raises. */
  lemma RecommendZeroBudget(catalog: seq<Appliance>, categoryId: Option<int>, subcategoryId: Option<int>, eco: real)
    ensures Recommend(catalog, categoryId, subcategoryId, 0.0, eco) == Failure(DivisionByZero)
        <==> exists a :: a in catalog && Eligible(a, categoryId, subcategoryId, 0.0)
  {
    var rows := Candidates(catalog, categoryId, subcategoryId, 0.0);
    if |rows| > 0 {
      assert rows[0] in rows;
    } else {
      forall a | a in catalog ensures !Eligible(a, categoryId, subcategoryId, 0.0) {
        CandidatesExactly(catalog, categoryId, subcategoryId, 0.0, a);
      }
    }
  }

  /** The ranked list is a stable sort of the scored candidates, descending by score. */
  lemma RankedIsStableSort(rows: seq<Appliance>, budget: real, eco: real)
    requires |rows| == 0 || budget != 0.0
    ensures SortedByScore(Ranked(rows, budget, eco))
    ensures multiset(Ranked(rows, budget, eco)) == multiset(Scored(rows, budget, eco))
    ensures forall k :: WithScore(Ranked(rows, budget, eco), k) == WithScore(Scored(rows, budget, eco), k)
  {
    var scored := Scored(rows, budget, eco);
    SortByScoreSorted(scored);
    SortByScorePermutes(scored);
    forall k ensures WithScore(SortByScore(scored), k) == WithScore(scored, k) {
      SortByScoreStable(scored, k);
    }
  }

  /** The recommendations are exactly the first min(50, n) of the n ranked products, in ranked order. */
  lemma RecommendTopFifty(catalog: seq<Appliance>, categoryId: Option<int>, subcategoryId: Option<int>, budget: real, eco: real)
    requires Recommend(catalog, categoryId, subcategoryId, budget, eco).Success?
    ensures var res := Recommend(catalog, categoryId, subcategoryId, budget, eco).value;
      var rows := Candidates(catalog, categoryId, subcategoryId, budget);
      var ranked := Ranked(rows, budget, eco);
      && |ranked| == |rows|
      && |res.recommendations| == (if |rows| < RecommendationLimit then |rows| else RecommendationLimit)
      && res.recommendations == ranked[..|res.recommendations|]
      && SortedByScore(res.recommendations)
  {
    var rows := Candidates(catalog, categoryId, subcategoryId, budget);
    RankedIsStableSort(rows, budget, eco);
    SortByScorePermutes(Scored(rows, budget, eco));
  }

  /** Every recommendation is an eligible catalog row, so within budget. */
  lemma RecommendWithinBudget(catalog: seq<Appliance>, categoryId: Option<int>, subcategoryId: Option<int>, budget: real, eco: real)
    requires Recommend(catalog, categoryId, subcategoryId, budget, eco).Success?
    ensures forall p :: p in Recommend(catalog, categoryId, subcategoryId, budget, eco).value.recommendations ==>
              p.item in catalog && Eligible(p.item, categoryId, subcategoryId, budget) && p.item.price <= budget
  {
    var rows := Candidates(catalog, categoryId, subcategoryId, budget);
    var scored := Scored(rows, budget, eco);
    var ranked := Ranked(rows, budget, eco);
    SortByScorePermutes(scored);
    forall p | p in Top(ranked) ensures p.item in catalog && Eligible(p.item, categoryId, subcategoryId, budget) {
      assert p in multiset(scored);
      var m :| 0 <= m < |scored| && scored[m] == p;
      assert p.item == rows[m];
    }
  }

  /**
   * At most three eco picks, each an eco product of the full ranked list (not only
   * of its first fifty), and they are its first qualifying products in ranked order.
   */
  lemma RecommendEcoPicks(catalog: seq<Appliance>, categoryId: Option<int>, subcategoryId: Option<int>, budget: real, eco: real)
    requires Recommend(catalog, categoryId, subcategoryId, budget, eco).Success?
    ensures var res := Recommend(catalog, categoryId, subcategoryId, budget, eco).value;
      var ranked := Ranked(Candidates(catalog, categoryId, subcategoryId, budget), budget, eco);
      && |res.ecoPicks| <= PickLimit
      && EcoQualifying(ranked).Success?
      && res.ecoPicks == EcoQualifying(ranked).value[..|res.ecoPicks|]
      && (|res.ecoPicks| < PickLimit ==> res.ecoPicks == EcoQualifying(ranked).value)
      && (forall p :: p in res.ecoPicks ==> p in ranked && IsEco(p))
  {
    EcoPicksAreFirstQualifying(Ranked(Candidates(catalog, categoryId, subcategoryId, budget), budget, eco));
  }

  /** With a positive budget, non-negative prices and an eco priority in [0, 1], every score is in [0, 5]. */
  lemma RecommendScoreBounds(catalog: seq<Appliance>, categoryId: Option<int>, subcategoryId: Option<int>, budget: real, eco: real)
    requires budget > 0.0 && 0.0 <= eco <= 1.0
    requires forall a :: a in catalog ==> a.price >= 0.0
    requires Recommend(catalog, categoryId, subcategoryId, budget, eco).Success?
    ensures forall p :: p in Recommend(catalog, categoryId, subcategoryId, budget, eco).value.recommendations ==>
              0.0 <= p.score <= 5.0
  {
    var rows := Candidates(catalog, categoryId, subcategoryId, budget);
    var scored := Scored(rows, budget, eco);
    var ranked := Ranked(rows, budget, eco);
    SortByScorePermutes(scored);
    forall p | p in Top(ranked) ensures 0.0 <= p.score <= 5.0 {
      assert p in multiset(scored);
      var m :| 0 <= m < |scored| && scored[m] == p;
      ProductScoreBounds(rows[m], budget, eco);
    }
  }

  /** The procedure raises on an unreadable consumption exactly when some candidate has one. */
  lemma RecommendUnreadable(catalog: seq<Appliance>, categoryId: Option<int>, subcategoryId: Option<int>, budget: real, eco: real)
    requires budget != 0.0
    ensures Recommend(catalog, categoryId, subcategoryId, budget, eco).Failure?
        <==> exists p :: p in Scored(Candidates(catalog, categoryId, subcategoryId, budget), budget, eco) && Unreadable(p)
  {
    var rows := Candidates(catalog, categoryId, subcategoryId, budget);
    var scored := Scored(rows, budget, eco);
    var ranked := SortByScore(scored);
    SortByScorePermutes(scored);
    EcoQualifyingFails(ranked);
    if exists p :: p in scored && Unreadable(p) {
      var p :| p in scored && Unreadable(p);
      assert p in multiset(ranked);
    }
    if EcoQualifying(ranked).Failure? {
      var i :| 0 <= i < |ranked| && Unreadable(ranked[i]);
      assert ranked[i] in multiset(scored);
    }
  }

  /** A single 5-star appliance at half the budget, the whole weight on efficiency. */
  lemma PureEfficiencyExample()
    ensures var a := Appliance("RF001", "LG 260L Smart Inverter", "LG", 1000.0, "5 Star", Some("180 kWh"),
                               [], "", 1, 1, "Kitchen Appliances", "Refrigerator");
      Recommend([a], None, None, 2000.0, 1.0) == Success(Recommendation([Product(a, 5.0, None)], [Product(a, 5.0, None)]))
  {
    var a := Appliance("RF001", "LG 260L Smart Inverter", "LG", 1000.0, "5 Star", Some("180 kWh"),
                       [], "", 1, 1, "Kitchen Appliances", "Refrigerator");
    assert Candidates([a], None, None, 2000.0) == [a];
    assert IsPrefix("5 Star", "5 Star");
    assert ProductScore(a, 2000.0, 1.0) == 5.0;
    var p := Product(a, 5.0, None);
    assert Scored([a], 2000.0, 1.0) == [p];
    assert SortByScore([p]) == [p];
    assert EcoTest(p) == Success(true);
    assert [p][1..] == [] && EcoQualifying([]) == Success([]);
    assert EcoQualifying([p]) == Success([p] + []);
    assert [p] + [] == [p];
    assert EcoPicks([p]) == Success([p]);
    assert Ranked([a], 2000.0, 1.0) == [p];
    assert Top([p]) == [p];
  }

  /** The same appliance with the whole weight on price: its price score 1 - 1000/2000. */
  lemma PurePriceExample()
    ensures var a := Appliance("RF001", "LG 260L Smart Inverter", "LG", 1000.0, "5 Star", Some("180 kWh"),
                               [], "", 1, 1, "Kitchen Appliances", "Refrigerator");
      Recommend([a], None, None, 2000.0, 0.0) == Success(Recommendation([Product(a, 0.5, None)], [Product(a, 0.5, None)]))
  {
    var a := Appliance("RF001", "LG 260L Smart Inverter", "LG", 1000.0, "5 Star", Some("180 kWh"),
                       [], "", 1, 1, "Kitchen Appliances", "Refrigerator");
    assert Candidates([a], None, None, 2000.0) == [a];
    assert IsPrefix("5 Star", "5 Star");
    assert PriceScore(1000.0, 2000.0) == 0.5;
    assert ProductScore(a, 2000.0, 0.0) == 0.5;
    var p := Product(a, 0.5, None);
    assert Scored([a], 2000.0, 0.0) == [p];
    assert SortByScore([p]) == [p];
    assert EcoTest(p) == Success(true);
    assert [p][1..] == [] && EcoQualifying([]) == Success([]);
    assert EcoQualifying([p]) == Success([p] + []);
    assert [p] + [] == [p];
    assert EcoPicks([p]) == Success([p]);
    assert Ranked([a], 2000.0, 0.0) == [p];
    assert Top([p]) == [p];
  }
}
