# Appliance recommender: a verified model of the recommendation core

This project models the part of the appliance recommender in `dtbs.py` that decides
what the shopper sees. `recommend_appliances` selects the candidate appliances
(within budget, then in the chosen subcategory or, if none is chosen, the chosen
category). It scores each one by blending an energy score read off the star rating
with a price score relative to the budget, weighting the two by the eco priority.
It sorts the products stably by descending score, picks the first three eco products
of the whole sorted list, and returns the first fifty as recommendations. After it
returns, the `/api/recommend` handler writes an annual cost onto every product of
both lists that states a consumption. `calculate_annual_cost` computes that cost:
the kWh figure times the electricity rate, printed with two decimals, or `"N/A"`.

How the model is laid out:

- `wrappers.dfy`: `Option` and `Result`.
- `strings.dfy`: substring search (Python's `in`) and `str.replace(pat, "")`.
- `decimal.dfy`: the decimal text the program reads with `float()` and writes with
  `:.2f`, plus round trips between the two.
- `catalog.dfy`: the appliance row, the product dictionary, and the filter of the
  candidate query.
- `scoring.dfy`: the energy ladder, the price score and the blend.
- `ranking.dfy`: the stable descending sort. `SortByScore` specifies it.
  `InsertionSort` sorts an array of products in place and is proved to compute it.
- `ecopicks.dfy`: module `Eco`, the eco-pick comprehension and its `[:3]`.
- `consumption.dfy`: `calculate_annual_cost`.
- `recommender.dfy`: `Recommend` specifies `recommend_appliances`.
  `RecommendAppliances` is the step-by-step procedure, with its build loop, its
  in-place scoring loop and its in-place sort.
- `api.dfy`: the handler's cost-annotation loop over `recommendations + eco_picks`.

Each product dictionary is a value (`Product`) held in an array. The scoring loop
and the annotation loop write its fields in place, so they become updates of array
elements. The exceptions the procedure can raise are modelled as `Failure` results:

- `DivisionByZero`: the budget is zero and at least one candidate exists.
- `UnreadableConsumption(id)`: an eco test reads a consumption text that is not a
  number. The id is that of the first such product in ranked order.

### Behaviour of the eco picks

The comprehension at dtbs.py:972-977 behaves in two ways that the model keeps:

- It calls `float` without a `try`. So one unreadable consumption text that the
  eco test reads makes the whole request raise.
- It runs over `products` after the sort, so the picks come in ranked order.

## Model

| member | source | states |
|---|---|---|
| Catalog.Candidates | dtbs.py:914-931 | every returned row is a catalog row that passes the WHERE clause, and there are no more of them than catalog rows |
| Catalog.CandidatesExactly | dtbs.py:919-931 | a row is a candidate if and only if it is in the catalog and satisfies the price bound and the subcategory-else-category filter |
| Catalog.CandidatesAppend | dtbs.py:934-950 | the filter keeps catalog order: filtering a concatenation is the concatenation of the filtered parts |
| Catalog.SubcategoryOverridesCategory | dtbs.py:924-927 | with a truthy subcategory id the category argument has no effect, and every candidate is in that subcategory and within budget |
| Catalog.CategoryFilter | dtbs.py:928-931 | without a truthy subcategory, a truthy category id selects exactly that category's rows within budget |
| Catalog.BudgetOnlyFilter | dtbs.py:919-921 | with neither id truthy (absent or 0), exactly the rows priced at most the budget are candidates |
| Scoring.EnergyScore | dtbs.py:954-964 | the energy score is one of 1..5 |
| Scoring.EnergyScoreLadder | dtbs.py:954-964 | each score 5, 4, 3, 2, 1 holds if and only if its substring occurs (at some position) and no higher rung's substring occurs |
| Scoring.EnergyScoreRungs | dtbs.py:955-962 | "5 Star", "5 Star Plus", "4 Star", "3 Star" and "NA" score 5, 5, 4, 3 and 2 |
| Scoring.EnergyScoreBottom | dtbs.py:963-964 | a rating lacking some character of each of the four rung texts scores 1 |
| Scoring.EnergyScoreBottomExamples | dtbs.py:961-964 | "2 Star", "1 Star" and the empty rating score 1, below "NA" |
| Scoring.EnergyScoreCaseSensitive | dtbs.py:955 | the match is case-sensitive: "5 star" scores 1 |
| Scoring.PriceScoreBounds | dtbs.py:966 | for a positive budget and non-negative price the price score is in [0, 1]; 0 at or above budget, positive below it, 1 for a free product |
| Scoring.PriceScoreMonotone | dtbs.py:966 | a cheaper product never has the lower price score |
| Scoring.BlendBetween | dtbs.py:967 | for an eco priority in [0, 1] the score lies between the energy score and the price score; priority 1 gives the energy score, 0 the price score |
| Scoring.ProductScoreBounds | dtbs.py:953-967 | with a positive budget, non-negative price and priority in [0, 1], a product's score is in [0, 5] |
| Ranking.InsertPermutes | dtbs.py:969 | one insertion step adds exactly the inserted product to the multiset |
| Ranking.InsertKeepsSorted | dtbs.py:969 | inserting into a descending list keeps it descending |
| Ranking.InsertIsStable | dtbs.py:969 | an inserted product comes after every earlier product of equal score |
| Ranking.SortByScoreSorted | dtbs.py:969 | the sorted list is descending by score |
| Ranking.SortByScorePermutes | dtbs.py:969 | the sorted list is a permutation of the input (same multiset, same length) |
| Ranking.SortByScoreStable | dtbs.py:969 | for each score, the products with that score appear in input order |
| Ranking.SortByScoreUnique | dtbs.py:969 | any descending order of the input that keeps ties in input order is the sorted list, so the sort is fully determined |
| Ranking.InsertAt | dtbs.py:969 | an insertion lands behind the last product scoring at least as much and in front of the lower-scored run at the end |
| Ranking.ShiftLower | dtbs.py:969 | the shift moves exactly the trailing lower-scored products one place right and stops behind a product scoring at least as much, or at the front |
| Ranking.InsertInPlace | dtbs.py:969 | in place, the array prefix becomes the insertion of the next element into the sorted prefix; the rest is untouched |
| Ranking.InsertionSort | dtbs.py:969 | the in-place sort leaves the array equal to the stable descending sort of its old contents |
| Eco.EcoTestMeaning | dtbs.py:974-976 | the test passes if and only if the rating contains "5 Star" or the stated consumption reads below 200; it raises if and only if the rating lacks "5 Star" and a non-empty consumption text is unreadable; the failure names the product's id, which is the model's choice of payload (Python's `ValueError` carries the text) |
| Eco.EcoPicks | dtbs.py:972-977 | at most three picks |
| Eco.EcoQualifyingMembers | dtbs.py:972-976 | when the comprehension completes, it keeps exactly the eco products of the list |
| Eco.EcoQualifyingFails | dtbs.py:972-976 | the comprehension raises if and only if some product is unreadable, and then reports the first unreadable one |
| Eco.EcoQualifyingAppend | dtbs.py:972-976 | the comprehension keeps list order: after a prefix that completes, the rest of the list decides the outcome and its products follow the prefix's |
| Eco.EcoPicksAreFirstQualifying | dtbs.py:972-977 | the picks are the first (up to three) qualifying products in list order, all of them when fewer than three qualify, each one an eco product of the list |
| Eco.EcoQualifyingNone | dtbs.py:972-976 | a list of products that all fail the test quietly yields no picks |
| Eco.EcoPicksSkipNonEco | dtbs.py:972-977 | products ahead of the first eco product do not change the picks |
| Recommender.RecommendAppliances | dtbs.py:908-982 | the procedure with its loops, in-place scoring and in-place sort returns exactly `Recommend`, including each exception |
| Recommender.RecommendNoCandidates | dtbs.py:953-982 | no candidates give empty recommendations and eco picks, even with a zero budget |
| Recommender.RecommendZeroBudget | dtbs.py:966 | a zero budget raises the division error if and only if some catalog row passes the filter |
| Recommender.RankedIsStableSort | dtbs.py:969 | the ranked list is descending, a permutation of the scored candidates, and keeps tied products in query order |
| Recommender.Top | dtbs.py:980 | `[:50]` keeps the first min(50, n) products, in order |
| Recommender.RecommendTopFifty | dtbs.py:980 | the recommendations are exactly the first min(50, n) ranked products, descending by score |
| Recommender.RecommendWithinBudget | dtbs.py:919-931 | every recommendation is a catalog row that passes the filter, so it is priced within budget |
| Recommender.RecommendEcoPicks | dtbs.py:972-981 | in a successful answer there are at most three eco picks, taken from the whole ranked list (not just the top fifty): its first qualifying products in ranked order |
| Recommender.RecommendScoreBounds | dtbs.py:953-967 | with a positive budget, non-negative prices and priority in [0, 1], every recommended score is in [0, 5] |
| Recommender.RecommendUnreadable | dtbs.py:972-977 | with a non-zero budget, the request raises if and only if some candidate has an unreadable consumption that the eco test reads |
| Recommender.PureEfficiencyExample | dtbs.py:953-981 | a single 5-star appliance at half the budget with eco priority 1 scores 5.0 and is both recommended and an eco pick |
| Recommender.PurePriceExample | dtbs.py:966-967 | the same appliance with eco priority 0 scores its price score 1 - 1000/2000 = 0.5 |
| Strings.ContainsMeansOccurs | dtbs.py:955 | the substring scan behind `in` finds a pattern if and only if it occurs at some position |
| Strings.RemoveAllSuffix | dtbs.py:1039 | `replace(' kWh', '')` on a figure followed by " kWh" leaves the figure |
| Decimal.NatToStringParses | dtbs.py:1039 | a whole number written in decimal reads back as itself |
| Decimal.RoundHalfEven | dtbs.py:1040 | the rounded integer is within one half of the value, and an exact tie rounds to the even neighbour |
| Decimal.NatToString | dtbs.py:1040 | the whole part is a non-empty run of digits with no leading zero, and it starts with '0' exactly for 0 |
| Decimal.FormatFixed2 | dtbs.py:1040 | the text ends in '.', digit, digit, and starts with '-' exactly when the value is negative |
| Decimal.Rounded2 | dtbs.py:1040 | the printed value is within 0.005 of the exact value |
| Decimal.FormatFixed2Parses | dtbs.py:1040 | the two-decimal text reads back as the value rounded to hundredths |
| Decimal.FormatFixed2Exact | dtbs.py:1040 | a value in whole hundredths prints exactly, without rounding |
| Consumption.KwhValueOfFigure | dtbs.py:1039 | a catalog figure "<digits> kWh" reads as its number |
| Consumption.KwhValueOfDecimalFigure | dtbs.py:1039 | a catalog figure "<digits>.<digits> kWh", such as "1.5 kWh", reads as its whole part plus its fraction |
| Consumption.AnnualCostNotAvailable | dtbs.py:1038-1042 | the cost is "N/A" if and only if the consumption text cannot be read |
| Consumption.AnnualCostValue | dtbs.py:1039-1040 | a readable figure gives a two-decimal text whose value is figure times rate rounded to hundredths, within 0.005 |
| Consumption.AnnualCostExact | dtbs.py:1040 | when figure times rate is in whole hundredths the text states it exactly |
| Consumption.AnnualCostExample | dtbs.py:1037-1040 | "300 kWh" at 7.50 per kWh costs "2250.00" |
| Consumption.AnnualCostUnreadableExample | dtbs.py:1041-1042 | "bad" costs "N/A" |
| Api.AnnotatedChangesOnlyCost | dtbs.py:1024-1029 | annotating changes only `annual_cost`; it is set to the calculated cost exactly when the consumption text is non-empty; annotating twice equals annotating once, which is why annotating a dictionary shared by both lists twice agrees with the model |
| Api.AnnotatedAll | dtbs.py:1024-1029 | annotating a list keeps its length |
| Api.AnnotateCosts | dtbs.py:1024-1029 | the in-place loop leaves each array element annotated from its old value |
| Api.ApiRecommend | dtbs.py:1014-1029 | the handler (recommend, then one annotation loop over both lists) returns exactly `Respond` |
| Api.RecommendCostsUnset | dtbs.py:935-950 | the recommender itself sets no cost on any product it returns |
| Api.RespondAnnotates | dtbs.py:1024-1029 | the response keeps the recommender's products, scores and order, and gives a cost to exactly the products that state a consumption |

## Left out

- The SQLite database is not modelled: its schema set-up and seeding in `init_db` (dtbs.py:11-897), the connection and the `execute` call (dtbs.py:910-911, 934), and the two JOINs (dtbs.py:915-918). The WHERE clause and its parameters (dtbs.py:919-931) are modelled, as `Catalog.Eligible`. The catalog is given as a sequence of rows that already carry their category and subcategory names. The query has no ORDER BY, so the model takes the rows in catalog order.
- `eval(row[6])` on the features column is left out: features are taken as an already-decoded list of strings. The column is nullable (dtbs.py:45), and `eval(None)` would raise; that case is not modelled.
- The Flask routes, the HTML/JavaScript page, `ENERGY_DATA` apart from the rate 7.50 (dtbs.py:900-901), and the `energy_data` key of the JSON answer are not modelled.
- The `float(...)` coercion of `budget` and `eco_priority` in the request handler (dtbs.py:1020-1021) is left out: the model takes them as numbers. A non-numeric request value raises there, and that case is not modelled.
- Filter ids arrive from the browser as JSON values, and SQLite compares them by column affinity. The model takes them as optional integers whose truthiness is "present and non-zero"; string ids are not modelled.
- Decimal.ParseDecimal: reads only the plain decimal grammar (an optional sign, digits, an optional point and digits, at least one digit). Python's `float` also accepts surrounding whitespace, exponents, underscores, "inf" and "nan"; the model treats such texts as unreadable.
- Decimal.FormatFixed2: prices, scores and costs are exact reals, not IEEE doubles. The rounding of `:.2f` is modelled as round-half-even on the exact value, so ties that decide differently on a binary double are not captured. NaN and infinities are not modelled.
- Recommender.RecommendAppliances: before scoring, a product carries the placeholder score 0.0; in Python the key is missing. No placeholder is ever returned, because the procedure either scores every product or raises.
- Api.ApiRecommend: in Python, a product that is both recommended and an eco pick is one dictionary in both lists, and it is annotated twice. The model annotates each list's copy once. Api.AnnotatedChangesOnlyCost proves annotation idempotent, so both ways give the same answer; aliasing by reference is not modelled.
- The `image_url` and `annual_consumption` columns may be NULL. Only `annual_consumption` is modelled as optional, because only it is read through a truthiness test (dtbs.py:975, 1025); `image_url` is carried as text.
- Consumption.CalculateAnnualCost: takes the consumption as text, so the call with `None` cannot be stated. In Python, `None.replace` raises and the bare `except` (dtbs.py:1041-1042) turns that into "N/A". The only caller tests the field for truthiness first (dtbs.py:1025), so the case cannot arise there.
