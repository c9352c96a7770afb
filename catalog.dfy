/**
 * The appliance records the recommender reads from its catalog, the products it
 * builds from them, and the candidate filter of its query.
 */
module Catalog {
  import opened Wrappers

  /**
   * One row of the candidate query: the appliance's own columns followed by the
   * names of its category and subcategory taken from the two joined tables.
   */
  datatype Appliance = Appliance(
    id: string,
    name: string,
    brand: string,
    price: real,
    energyRating: string,
    annualConsumption: Option<string>,
    features: seq<string>,
    imageUrl: string,
    categoryId: int,
    subcategoryId: int,
    categoryName: string,
    subcategoryName: string)

  /**
   * The dictionary the recommender builds per row and then updates in place:
   * `score` is written by the scoring pass, `annualCost` by the request handler.
   */
  datatype Product = Product(item: Appliance, score: real, annualCost: Option<string>)

  /** Python truthiness of an optional integer id: absent and 0 are false. */
  predicate IdGiven(id: Option<int>) {
    id.Some? && id.value != 0
  }

  /** Python truthiness of the nullable consumption text: absent and "" are false. */
  predicate ConsumptionGiven(c: Option<string>) {
    c.Some? && c.value != ""
  }

  /**
   * The WHERE clause of the candidate query: within budget and, when a
   * subcategory is given, in that subcategory, or else, when a category is given,
   * in that category.
   */
  predicate Eligible(a: Appliance, categoryId: Option<int>, subcategoryId: Option<int>, budget: real) {
    a.price <= budget &&
    if IdGiven(subcategoryId) then a.subcategoryId == subcategoryId.value
    else if IdGiven(categoryId) then a.categoryId == categoryId.value
    else true
  }

  /** The rows the query returns, in catalog order. */
  function Candidates(catalog: seq<Appliance>, categoryId: Option<int>, subcategoryId: Option<int>, budget: real)
    : (r: seq<Appliance>)
    ensures |r| <= |catalog|
    ensures forall a :: a in r ==> a in catalog && Eligible(a, categoryId, subcategoryId, budget)
  {
    if |catalog| == 0 then []
    else
      (if Eligible(catalog[0], categoryId, subcategoryId, budget) then [catalog[0]] else [])
      + Candidates(catalog[1..], categoryId, subcategoryId, budget)
  }

  /** Every eligible row of the catalog is a candidate, and nothing else is. */
  lemma {:induction false} CandidatesExactly(catalog: seq<Appliance>, categoryId: Option<int>, subcategoryId: Option<int>, budget: real, a: Appliance)
    ensures a in Candidates(catalog, categoryId, subcategoryId, budget)
        <==> a in catalog && Eligible(a, categoryId, subcategoryId, budget)
  {
    if |catalog| > 0 {
      CandidatesExactly(catalog[1..], categoryId, subcategoryId, budget, a);
      assert catalog == [catalog[0]] + catalog[1..];
    }
  }

  /** The query keeps catalog order: filtering a concatenation filters each part. */
  lemma {:induction false} CandidatesAppend(c1: seq<Appliance>, c2: seq<Appliance>, categoryId: Option<int>, subcategoryId: Option<int>, budget: real)
    ensures Candidates(c1 + c2, categoryId, subcategoryId, budget)
         == Candidates(c1, categoryId, subcategoryId, budget) + Candidates(c2, categoryId, subcategoryId, budget)
  {
    if |c1| == 0 {
      assert c1 + c2 == c2;
    } else {
      assert (c1 + c2)[1..] == c1[1..] + c2;
      CandidatesAppend(c1[1..], c2, categoryId, subcategoryId, budget);
    }
  }

  /** A given subcategory makes the category argument irrelevant. */
  lemma {:induction false} SubcategoryOverridesCategory(catalog: seq<Appliance>, categoryId: Option<int>, subcategoryId: Option<int>, budget: real)
    requires IdGiven(subcategoryId)
    ensures Candidates(catalog, categoryId, subcategoryId, budget) == Candidates(catalog, None, subcategoryId, budget)
    ensures forall a :: a in Candidates(catalog, categoryId, subcategoryId, budget) ==>
      a.subcategoryId == subcategoryId.value && a.price <= budget
  {
    if |catalog| > 0 {
      SubcategoryOverridesCategory(catalog[1..], categoryId, subcategoryId, budget);
    }
  }

  /** Without a subcategory, a given category selects exactly that category's rows within budget. */
  lemma CategoryFilter(catalog: seq<Appliance>, categoryId: Option<int>, subcategoryId: Option<int>, budget: real, a: Appliance)
    requires !IdGiven(subcategoryId) && IdGiven(categoryId)
    ensures a in Candidates(catalog, categoryId, subcategoryId, budget)
        <==> a in catalog && a.categoryId == categoryId.value && a.price <= budget
  {
    CandidatesExactly(catalog, categoryId, subcategoryId, budget, a);
  }

  /** With neither filter given, only the budget bound applies. */
  lemma BudgetOnlyFilter(catalog: seq<Appliance>, categoryId: Option<int>, subcategoryId: Option<int>, budget: real, a: Appliance)
    requires !IdGiven(subcategoryId) && !IdGiven(categoryId)
    ensures a in Candidates(catalog, categoryId, subcategoryId, budget) <==> a in catalog && a.price <= budget
  {
    CandidatesExactly(catalog, categoryId, subcategoryId, budget, a);
  }
}
