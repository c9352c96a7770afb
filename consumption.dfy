/**
 * Annual-consumption text such as "180 kWh": reading its number, as both the eco
 * test and the cost estimator do, and turning it into an annual cost string.
 */
module Consumption {
  import opened Wrappers
  import opened Strings
  import opened Decimal

  /** The unit suffix the catalog writes after every consumption figure. */
  const KwhSuffix: string := " kWh"

  /** What the cost estimator returns when the figure cannot be read. */
  const NotAvailable: string := "N/A"

  /** `float(text.replace(' kWh', ''))`; None where `float` would raise. */
  function KwhValue(text: string): (r: Option<real>) {
    ParseDecimal(RemoveAll(text, KwhSuffix))
  }

  /** The figures the catalog stores, "<digits> kWh", read back as their number. */
  lemma KwhValueOfFigure(n: nat)
    ensures KwhValue(NatToString(n) + KwhSuffix) == Some(n as real)
  {
    var w := NatToString(n);
    assert forall i :: 0 <= i < |w| ==> w[i] != KwhSuffix[0];
    RemoveAllSuffix(w, KwhSuffix);
    NatToStringParses(n);
  }

  /** Figures with a decimal point, "<digits>.<digits> kWh", read back as their number. */
  lemma KwhValueOfDecimalFigure(w: string, ds: string)
    requires |w| > 0 && AllDigits(w) && AllDigits(ds)
    ensures KwhValue(w + "." + ds + KwhSuffix) == Some(DigitsValue(w) as real + FractionValue(ds))
  {
    var u := w + "." + ds;
    DecimalTextHasNo(w, ds, KwhSuffix[0]);
    RemoveAllSuffix(u, KwhSuffix);
    ParseDecimalWholeDotFraction(w, ds);
  }

  /** The cost of `kwh` units at `pricePerKwh` each, printed with two decimals. */
  function CostText(kwh: real, pricePerKwh: real): (r: string) {
    FormatFixed2(kwh * pricePerKwh)
  }

  /**
   * `calculate_annual_cost`: the figure times the rate printed with two decimals,
   * or "N/A" when the figure cannot be read.
   */
  function CalculateAnnualCost(consumption: string, pricePerKwh: real): (r: string) {
    match KwhValue(consumption)
    case None => NotAvailable
    case Some(kwh) => CostText(kwh, pricePerKwh)
  }

  /** "N/A" comes back exactly when the figure cannot be read: no cost prints as "N/A". */
  lemma AnnualCostNotAvailable(consumption: string, pricePerKwh: real)
    ensures CalculateAnnualCost(consumption, pricePerKwh) == NotAvailable <==> KwhValue(consumption).None?
  {
    assert !AllDigits(NotAvailable) by {
      assert !IsDigit(NotAvailable[0]);
    }
    assert ParseDecimal(NotAvailable).None?;
    match KwhValue(consumption)
    case None =>
    case Some(kwh) =>
      var v := kwh * pricePerKwh;
      FormatFixed2Parses(v);
  }

  /**
   * A readable figure yields a two-decimal string whose value is the figure times
   * the rate, rounded to the hundredth.
   */
  lemma AnnualCostValue(consumption: string, pricePerKwh: real, kwh: real)
    requires KwhValue(consumption) == Some(kwh)
    ensures var cost := CalculateAnnualCost(consumption, pricePerKwh);
      && ParseDecimal(cost) == Some(Rounded2(kwh * pricePerKwh))
      && |cost| >= 4 && cost[|cost| - 3] == '.' && IsDigit(cost[|cost| - 2]) && IsDigit(cost[|cost| - 1])
    ensures Abs(Rounded2(kwh * pricePerKwh) - kwh * pricePerKwh) <= 0.005
  {
    var v := kwh * pricePerKwh;
    assert CalculateAnnualCost(consumption, pricePerKwh) == CostText(kwh, pricePerKwh);
    FormatFixed2Parses(v);
  }

  /** A cost in whole hundredths is printed without any rounding. */
  lemma AnnualCostExact(consumption: string, pricePerKwh: real, kwh: real, cents: int)
    requires KwhValue(consumption) == Some(kwh)
    requires kwh * pricePerKwh == cents as real / 100.0
    ensures ParseDecimal(CalculateAnnualCost(consumption, pricePerKwh)) == Some(kwh * pricePerKwh)
  {
    var v := kwh * pricePerKwh;
    assert CalculateAnnualCost(consumption, pricePerKwh) == CostText(kwh, pricePerKwh);
    FormatFixed2Exact(v, cents);
  }

  lemma Fixed2Of2250()
    ensures FormatFixed2(2250.0) == "2250.00"
  {
    RoundWhole(225000);
    assert Cents(2250.0) == 225000;
    assert NatToString(2250) == "2250";
    assert Magnitude2(225000) == Fixed2Text(2250, 0);
    assert Fixed2Text(2250, 0) == "2250" + "." + "00";
  }

  /** "300 kWh" at 7.50 per kWh costs "2250.00". */
  lemma AnnualCostExample()
    ensures CalculateAnnualCost("300 kWh", 7.5) == "2250.00"
  {
    assert NatToString(300) == "300";
    KwhValueOfFigure(300);
    assert "300" + KwhSuffix == "300 kWh";
    assert CostText(300.0, 7.5) == FormatFixed2(2250.0);
    Fixed2Of2250();
  }

  /** A figure that is not a number has no cost. */
  lemma AnnualCostUnreadableExample()
    ensures CalculateAnnualCost("bad", 7.5) == NotAvailable
  {
    MissingCharNotContained("bad", KwhSuffix, 0);
    RemoveAllAbsent("bad", KwhSuffix);
    assert !IsDigit("bad"[0]);
  }
}
