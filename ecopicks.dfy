/**
 * The eco picks: the first three products of the ranked list that are rated
 * "5 Star" or state a consumption below 200 kWh.
 */
module Eco {
  import opened Wrappers
  import opened Strings
  import opened Catalog
  import opened Consumption

  const PickLimit: nat := 3
  const LowConsumption: real := 200.0

  /**
   * The comprehension's test on one product. The consumption is read only when the
   * rating lacks "5 Star" and the text is non-empty; an unreadable figure there is
   * the `ValueError` raised by `float`. Python's exception carries the text; the
   * model reports the product's id instead, so that the failing product is named.
   */
  function EcoTest(p: Product): (r: Result<bool, string>) {
    if Contains(p.item.energyRating, "5 Star") then Success(true)
    else if !ConsumptionGiven(p.item.annualConsumption) then Success(false)
    else match KwhValue(p.item.annualConsumption.value)
      case None => Failure(p.item.id)
      case Some(kwh) => Success(kwh < LowConsumption)
  }

  /** The eco condition, stated without the scan: rated "5 Star" somewhere, or consumption under 200. */
  ghost predicate IsEco(p: Product) {
    (exists i :: OccursAt(p.item.energyRating, "5 Star", i))
    || (ConsumptionGiven(p.item.annualConsumption)
        && KwhValue(p.item.annualConsumption.value).Some?
        && KwhValue(p.item.annualConsumption.value).value < LowConsumption)
  }

  /** The products on which the comprehension raises. */
  ghost predicate Unreadable(p: Product) {
    !(exists i :: OccursAt(p.item.energyRating, "5 Star", i))
    && ConsumptionGiven(p.item.annualConsumption)
    && KwhValue(p.item.annualConsumption.value).None?
  }

  lemma EcoTestMeaning(p: Product)
    ensures EcoTest(p) == Success(true) <==> IsEco(p)
    ensures EcoTest(p).Failure? <==> Unreadable(p)
    ensures EcoTest(p).Failure? ==> EcoTest(p).error == p.item.id
  {
    ContainsMeansOccurs(p.item.energyRating, "5 Star");
  }

  /**
   * The comprehension over the whole list: the products that pass, in list order,
   * or the id of the first product on which it raises.
   */
  function EcoQualifying(s: seq<Product>): (r: Result<seq<Product>, string>) {
    if |s| == 0 then Success([])
    else match EcoTest(s[0])
      case Failure(id) => Failure(id)
      case Success(keep) =>
        match EcoQualifying(s[1..])
        case Failure(id) => Failure(id)
        case Success(rest) => Success((if keep then [s[0]] else []) + rest)
  }

  /** `[...][:3]` of the comprehension. */
  function EcoPicks(ranked: seq<Product>): (r: Result<seq<Product>, string>)
    ensures r.Success? ==> |r.value| <= PickLimit
  {
    match EcoQualifying(ranked)
    case Failure(id) => Failure(id)
    case Success(q) => Success(if |q| <= PickLimit then q else q[..PickLimit])
  }

  /** The comprehension keeps exactly the eco products of the list. */
  lemma {:induction false} EcoQualifyingMembers(s: seq<Product>, x: Product)
    requires EcoQualifying(s).Success?
    ensures x in EcoQualifying(s).value <==> x in s && IsEco(x)
  {
    if |s| > 0 {
      EcoTestMeaning(s[0]);
      EcoQualifyingMembers(s[1..], x);
      assert s == [s[0]] + s[1..];
    }
  }

  /** The comprehension raises exactly when some product of the list is unreadable, and names the first. */
  lemma {:induction false} EcoQualifyingFails(s: seq<Product>)
    ensures EcoQualifying(s).Failure? <==> exists i :: 0 <= i < |s| && Unreadable(s[i])
    ensures EcoQualifying(s).Failure? ==>
      exists i :: 0 <= i < |s| && Unreadable(s[i]) && s[i].item.id == EcoQualifying(s).error
                  && forall j :: 0 <= j < i ==> !Unreadable(s[j])
  {
    if |s| > 0 {
      EcoTestMeaning(s[0]);
      EcoQualifyingFails(s[1..]);
      if EcoQualifying(s).Failure? && !Unreadable(s[0]) {
        var i :| 0 <= i < |s[1..]| && Unreadable(s[1..][i]) && s[1..][i].item.id == EcoQualifying(s).error
                 && forall j :: 0 <= j < i ==> !Unreadable(s[1..][j]);
        assert Unreadable(s[i + 1]);
        forall j | 0 <= j < i + 1 ensures !Unreadable(s[j]) {
          if j > 0 { assert s[j] == s[1..][j - 1]; }
        }
      }
      if exists i :: 0 <= i < |s| && Unreadable(s[i]) {
        var i :| 0 <= i < |s| && Unreadable(s[i]);
        if i > 0 { assert Unreadable(s[1..][i - 1]); }
      }
    }
  }

  /**
   * The comprehension keeps list order: after a prefix it runs through, the rest
   * of the list decides and its passing products come after the prefix's.
   */
  lemma {:induction false} EcoQualifyingAppend(s: seq<Product>, u: seq<Product>)
    requires EcoQualifying(s).Success?
    ensures EcoQualifying(s + u)
         == match EcoQualifying(u)
            case Failure(id) => Failure(id)
            case Success(qu) => Success(EcoQualifying(s).value + qu)
  {
    if |s| == 0 {
      assert s + u == u;
      assert EcoQualifying(s).value == [];
      if EcoQualifying(u).Success? {
        assert [] + EcoQualifying(u).value == EcoQualifying(u).value;
      }
    } else {
      assert (s + u)[0] == s[0] && (s + u)[1..] == s[1..] + u;
      assert EcoTest(s[0]).Success? && EcoQualifying(s[1..]).Success?;
      EcoQualifyingAppend(s[1..], u);
      var keep := EcoTest(s[0]).value;
      var head: seq<Product> := if keep then [s[0]] else [];
      assert EcoQualifying(s).value == head + EcoQualifying(s[1..]).value;
      if EcoQualifying(u).Success? {
        assert head + (EcoQualifying(s[1..]).value + EcoQualifying(u).value)
            == (head + EcoQualifying(s[1..]).value) + EcoQualifying(u).value;
      }
    }
  }

  /** Picks are eco products of the ranked list, and they are the first qualifying ones, in ranked order. */
  lemma EcoPicksAreFirstQualifying(ranked: seq<Product>)
    requires EcoPicks(ranked).Success?
    ensures EcoQualifying(ranked).Success?
    ensures var picks, q := EcoPicks(ranked).value, EcoQualifying(ranked).value;
      && picks == q[..|picks|]
      && (|picks| < PickLimit ==> picks == q)
      && forall x :: x in picks ==> x in ranked && IsEco(x)
  {
    var picks, q := EcoPicks(ranked).value, EcoQualifying(ranked).value;
    forall x | x in picks ensures x in ranked && IsEco(x) {
      EcoQualifyingMembers(ranked, x);
    }
  }

  lemma {:induction false} EcoQualifyingNone(s: seq<Product>)
    requires forall i :: 0 <= i < |s| ==> EcoTest(s[i]) == Success(false)
    ensures EcoQualifying(s) == Success([])
  {
    if |s| > 0 {
      assert forall i :: 0 <= i < |s[1..]| ==> s[1..][i] == s[i + 1];
      EcoQualifyingNone(s[1..]);
      var none: seq<Product> := [];
      assert EcoTest(s[0]) == Success(false);
      assert EcoQualifying(s) == Success(none + none);
      assert none + none == none;
    }
  }

  /**
   * Products ahead of the first eco product do not affect the picks, so a pick can
   * lie anywhere in the ranked list, also after the first fifty.
   */
  lemma EcoPicksSkipNonEco(ranked: seq<Product>, n: nat)
    requires n <= |ranked|
    requires forall i :: 0 <= i < n ==> EcoTest(ranked[i]) == Success(false)
    ensures EcoPicks(ranked) == EcoPicks(ranked[n..])
  {
    EcoQualifyingNone(ranked[..n]);
    EcoQualifyingAppend(ranked[..n], ranked[n..]);
    assert ranked[..n] + ranked[n..] == ranked;
    if EcoQualifying(ranked[n..]).Success? {
      assert [] + EcoQualifying(ranked[n..]).value == EcoQualifying(ranked[n..]).value;
    }
  }
}
