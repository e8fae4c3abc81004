/**
 Service charge and tax on a sum of menu prices, added on top or taken out of it.
 Amounts are whole minor units, rates are basis points.
 */
module Charges {
  import opened Basics

  const BP: nat := 10_000

  /** The largest rate an outlet may set: 50%. */
  const MAX_RATE_BP: nat := 5_000

  /** The largest rates for which adding to a taken-out base misses a price by at most two minor units. */
  const DRIFT_SERVICE_BP: nat := 20_000
  const DRIFT_TAX_BP: nat := 6_666

  datatype OutletCharges = OutletCharges(included: bool, serviceChargeRateBp: nat, taxRateBp: nat)
  {
    predicate WithinCap() {
      serviceChargeRateBp <= MAX_RATE_BP && taxRateBp <= MAX_RATE_BP
    }

    predicate WithinDriftLimits() {
      serviceChargeRateBp <= DRIFT_SERVICE_BP && taxRateBp <= DRIFT_TAX_BP
    }

    function Added(): OutletCharges {
      this.(included := false)
    }

    function TakenOut(): OutletCharges {
      this.(included := true)
    }
  }

  datatype ChargeBreakdown = ChargeBreakdown(baseMinor: int, serviceChargeMinor: int, taxMinor: int, totalMinor: int)

  /** Whole minor units, halves rounded up. */
  function DivideRounded(numerator: nat, denominator: nat): nat
    requires denominator > 0
  {
    (numerator * 2 + denominator) / (denominator * 2)
  }

  /** `q` is `n / d` rounded to the nearest integer, halves up. */
  predicate IsNearest(q: int, n: int, d: int) {
    2 * d * q <= 2 * n + d < 2 * d * q + 2 * d
  }

  /**
   The parts are non-negative and lose nothing; the menu sum is the total when charges are included
   and the base when they are added; and each charge, or what is left when it is taken out, is the
   nearest integer to its exact share.
   */
  predicate IsSplit(parts: ChargeBreakdown, subtotal: int, charges: OutletCharges) {
    && parts.baseMinor >= 0 && parts.serviceChargeMinor >= 0 && parts.taxMinor >= 0
    && parts.baseMinor + parts.serviceChargeMinor + parts.taxMinor == parts.totalMinor
    && var beforeTax := parts.baseMinor + parts.serviceChargeMinor;
       if charges.included then
         && parts.totalMinor == subtotal
         && IsNearest(beforeTax, subtotal * BP, BP + charges.taxRateBp)
         && IsNearest(parts.baseMinor, beforeTax * BP, BP + charges.serviceChargeRateBp)
       else
         && parts.baseMinor == subtotal
         && IsNearest(parts.serviceChargeMinor, subtotal * charges.serviceChargeRateBp, BP)
         && IsNearest(parts.taxMinor, beforeTax * charges.taxRateBp, BP)
  }

  /** Refuses exactly the negative amounts, and splits any other. */
  function ComputeCharges(menuSubtotalMinor: int, charges: OutletCharges): (r: Result<ChargeBreakdown, RangeError>)
    ensures r.Err? <==> menuSubtotalMinor < 0
    ensures r.Ok? ==> IsSplit(r.value, menuSubtotalMinor, charges)
  {
    if menuSubtotalMinor < 0 then Err(RangeError)
    else
      BreakdownIsSplit(menuSubtotalMinor, charges);
      Ok(Breakdown(menuSubtotalMinor, charges))
  }

  function Breakdown(menuSubtotalMinor: nat, charges: OutletCharges): ChargeBreakdown {
    var service := charges.serviceChargeRateBp;
    var tax := charges.taxRateBp;
    if !charges.included then
      var serviceChargeMinor := DivideRounded(menuSubtotalMinor * service, BP);
      var taxMinor := DivideRounded((menuSubtotalMinor + serviceChargeMinor) * tax, BP);
      ChargeBreakdown(menuSubtotalMinor, serviceChargeMinor, taxMinor,
                      menuSubtotalMinor + serviceChargeMinor + taxMinor)
    else
      var beforeTax := DivideRounded(menuSubtotalMinor * BP, BP + tax);
      var baseMinor := DivideRounded(beforeTax * BP, BP + service);
      ChargeBreakdown(baseMinor, beforeTax - baseMinor, menuSubtotalMinor - beforeTax, menuSubtotalMinor)
  }

  // ----- Rounding: the result is the unique integer within half a unit, halves going up.

  lemma Nearest(n: nat, d: nat)
    requires d > 0
    ensures 2 * d * DivideRounded(n, d) <= 2 * n + d < 2 * d * DivideRounded(n, d) + 2 * d
  {
    DivMod(n * 2 + d, d * 2);
  }

  lemma DivMod(x: nat, y: nat)
    requires y > 0
    ensures y * (x / y) <= x < y * (x / y) + y
  {
    assert x == y * (x / y) + x % y;
  }

  lemma NearestUnique(n: nat, d: nat, q: int)
    requires d > 0
    requires 2 * d * q <= 2 * n + d < 2 * d * q + 2 * d
    ensures DivideRounded(n, d) == q
  {
    Nearest(n, d);
    SameQuotient(2 * d, DivideRounded(n, d), q, 2 * n + d);
  }

  lemma SameQuotient(m: nat, q: int, r: int, x: int)
    requires m > 0
    requires m * q <= x < m * q + m && m * r <= x < m * r + m
    ensures q == r
  {
    if q < r {
      TimesStep(m, q, r);
    } else if r < q {
      TimesStep(m, r, q);
    }
  }

  lemma TimesStep(m: nat, a: int, b: int)
    requires a < b
    ensures m * a + m <= m * b
  {
    TimesMonotone(m, a + 1, b);
    assert m * (a + 1) == m * a + m;
  }

  lemma TimesMonotone(m: nat, a: int, b: int)
    requires a <= b
    ensures m * a <= m * b
  {}

  lemma RoundedMonotone(n: nat, n': nat, d: nat)
    requires d > 0 && n <= n'
    ensures DivideRounded(n, d) <= DivideRounded(n', d)
  {
    Nearest(n, d);
    Nearest(n', d);
    var q, q' := DivideRounded(n, d), DivideRounded(n', d);
    if q' < q {
      TimesStep(2 * d, q', q);
    }
  }

  /** A whole number of units passes through the rounding. */
  lemma RoundedShift(k: nat, n: nat, d: nat)
    requires d > 0
    ensures DivideRounded(k * d + n, d) == k + DivideRounded(n, d)
  {
    Nearest(n, d);
    var q := DivideRounded(n, d);
    assert 2 * d * (k + q) == 2 * d * q + 2 * (k * d);
    NearestUnique(k * d + n, d, k + q);
  }

  /** Growing a gross amount by `rate` and rounding, as one rounding of the product. */
  lemma AddOn(x: nat, rate: nat)
    ensures x + DivideRounded(x * rate, BP) == DivideRounded(x * (BP + rate), BP)
  {
    RoundedShift(x, x * rate, BP);
    assert x * (BP + rate) == x * BP + x * rate;
  }

  /** What `AddOn` leaves, in the scaled integers in which nothing is rounded. */
  lemma AddOnError(x: nat, rate: nat)
    ensures var y := x + DivideRounded(x * rate, BP);
            -(BP as int) < 2 * (BP * y - x * (BP + rate)) <= BP
  {
    AddOn(x, rate);
    Nearest(x * (BP + rate), BP);
  }

  lemma TakeOutError(y: nat, rate: nat)
    ensures var x := DivideRounded(y * BP, BP + rate);
            -((BP + rate) as int) < 2 * (x * (BP + rate) - y * BP) <= BP + rate
  {
    Nearest(y * BP, BP + rate);
    var x := DivideRounded(y * BP, BP + rate);
    assert 2 * (BP + rate) * x == 2 * (x * (BP + rate));
  }

  /** Taking one charge out undoes adding it, in spite of both roundings. */
  lemma OneChargeInverts(x: nat, rate: nat)
    ensures DivideRounded((x + DivideRounded(x * rate, BP)) * BP, BP + rate) == x
  {
    AddOnError(x, rate);
    var y := x + DivideRounded(x * rate, BP);
    if rate == 0 {
      assert x * rate == 0;
    }
    assert 2 * (BP + rate) * x == 2 * (x * (BP + rate));
    NearestUnique(y * BP, BP + rate, x);
  }

  /** The other way round: adding to a taken-out amount misses the gross amount by less than the rate's share. */
  lemma OneChargeReadded(y: nat, rate: nat)
    ensures var x := DivideRounded(y * BP, BP + rate);
            var z := x + DivideRounded(x * rate, BP);
            -(BP + (BP + rate)) < 2 * BP * (z - y) <= BP + (BP + rate)
  {
    TakeOutError(y, rate);
    AddOnError(DivideRounded(y * BP, BP + rate), rate);
  }

  // ----- Main results

  /** Charges taken out of a total that was made by adding them come back exactly, for every rate. */
  lemma ExactInversion(subtotal: nat, charges: OutletCharges)
    ensures var added := Breakdown(subtotal, charges.Added());
            added.totalMinor >= 0
            && ComputeCharges(added.totalMinor, charges.TakenOut()) == Ok(added)
  {
    hide DivideRounded;
    var service, tax := charges.serviceChargeRateBp, charges.taxRateBp;
    var gross := subtotal + DivideRounded(subtotal * service, BP);
    OneChargeInverts(gross, tax);
    OneChargeInverts(subtotal, service);
  }

  /** Adding to the base taken out of a price. */
  function Readded(price: nat, charges: OutletCharges): int
  {
    PartsAddUp(price, charges.TakenOut());
    Breakdown(Breakdown(price, charges.TakenOut()).baseMinor, charges.Added()).totalMinor
  }

  /** A price survives the detour through its base exactly when it is itself a total with charges added. */
  lemma ReaddingRestores(price: nat, charges: OutletCharges)
    ensures Readded(price, charges) == price
       <==> exists subtotal: nat :: Breakdown(subtotal, charges.Added()).totalMinor == price
  {
    PartsAddUp(price, charges.TakenOut());
    if Readded(price, charges) == price {
      var base: nat := Breakdown(price, charges.TakenOut()).baseMinor;
      assert Breakdown(base, charges.Added()).totalMinor == price;
    }
    if subtotal: nat :| Breakdown(subtotal, charges.Added()).totalMinor == price {
      ExactInversion(subtotal, charges);
    }
  }

  /** In both modes every part is non-negative and the parts add up to the total. */
  lemma PartsAddUp(subtotal: nat, charges: OutletCharges)
    ensures var parts := Breakdown(subtotal, charges);
            && parts.baseMinor >= 0 && parts.serviceChargeMinor >= 0 && parts.taxMinor >= 0
            && parts.baseMinor + parts.serviceChargeMinor + parts.taxMinor == parts.totalMinor
            && (if charges.included then parts.totalMinor == subtotal else parts.baseMinor == subtotal)
  {
    if charges.included {
      TakenOutIsLess(subtotal, charges.taxRateBp);
      TakenOutIsLess(DivideRounded(subtotal * BP, BP + charges.taxRateBp), charges.serviceChargeRateBp);
    }
  }

  lemma BreakdownIsSplit(subtotal: nat, charges: OutletCharges)
    ensures IsSplit(Breakdown(subtotal, charges), subtotal, charges)
  {
    hide DivideRounded;
    PartsAddUp(subtotal, charges);
    var service, tax := charges.serviceChargeRateBp, charges.taxRateBp;
    if charges.included {
      Nearest(subtotal * BP, BP + tax);
      Nearest(DivideRounded(subtotal * BP, BP + tax) * BP, BP + service);
    } else {
      Nearest(subtotal * service, BP);
      Nearest((subtotal + DivideRounded(subtotal * service, BP)) * tax, BP);
    }
  }

  /** There is only one such split, so the contract determines every part. */
  lemma SplitIsUnique(a: ChargeBreakdown, b: ChargeBreakdown, subtotal: int, charges: OutletCharges)
    requires IsSplit(a, subtotal, charges) && IsSplit(b, subtotal, charges)
    ensures a == b
  {
    var service, tax := charges.serviceChargeRateBp, charges.taxRateBp;
    if charges.included {
      SameQuotient(2 * (BP + tax), a.baseMinor + a.serviceChargeMinor, b.baseMinor + b.serviceChargeMinor,
                   2 * (subtotal * BP) + BP + tax);
      SameQuotient(2 * (BP + service), a.baseMinor, b.baseMinor,
                   2 * ((a.baseMinor + a.serviceChargeMinor) * BP) + BP + service);
    } else {
      SameQuotient(2 * BP, a.serviceChargeMinor, b.serviceChargeMinor, 2 * (subtotal * service) + BP);
      SameQuotient(2 * BP, a.taxMinor, b.taxMinor, 2 * ((a.baseMinor + a.serviceChargeMinor) * tax) + BP);
    }
  }

  lemma TakenOutIsLess(y: nat, rate: nat)
    ensures DivideRounded(y * BP, BP + rate) <= y
  {
    TakenOutMoves(0, y, rate);
    NearestUnique(0, BP + rate, 0);
  }

  /** Neither the part taken out nor what is left shrinks when the gross amount grows. */
  lemma TakenOutMoves(y: nat, y': nat, rate: nat)
    requires y <= y'
    ensures 0 <= DivideRounded(y' * BP, BP + rate) - DivideRounded(y * BP, BP + rate) <= y' - y
  {
    var d := BP + rate;
    TimesMonotone(BP, y, y');
    RoundedMonotone(y * BP, y' * BP, d);
    var gap := y' - y;
    RoundedShift(gap, y * BP, d);
    TimesMonotone(gap, BP, d);
    assert y' * BP == gap * BP + y * BP;
    RoundedMonotone(y' * BP, gap * d + y * BP, d);
  }

  /** No part shrinks when the subtotal grows, including the parts found by subtraction. */
  lemma PartsMonotone(low: nat, high: nat, charges: OutletCharges)
    requires low <= high
    ensures var a, b := Breakdown(low, charges), Breakdown(high, charges);
            && a.baseMinor <= b.baseMinor && a.serviceChargeMinor <= b.serviceChargeMinor
            && a.taxMinor <= b.taxMinor && a.totalMinor <= b.totalMinor
  {
    var service, tax := charges.serviceChargeRateBp, charges.taxRateBp;
    if charges.included {
      TakenOutMoves(low, high, tax);
      TakenOutMoves(DivideRounded(low * BP, BP + tax), DivideRounded(high * BP, BP + tax), service);
    } else {
      TimesMonotone(service, low, high);
      RoundedMonotone(low * service, high * service, BP);
      var gross := low + DivideRounded(low * service, BP);
      var gross' := high + DivideRounded(high * service, BP);
      TimesMonotone(tax, gross, gross');
      RoundedMonotone(gross * tax, gross' * tax, BP);
    }
  }

  /** Re-adding one charge of at most 200% misses by at most one unit. */
  lemma ReaddedWithinOne(y: nat, rate: nat)
    requires rate <= DRIFT_SERVICE_BP
    ensures var x := DivideRounded(y * BP, BP + rate);
            -1 <= x + DivideRounded(x * rate, BP) - y <= 1
  {
    hide DivideRounded;
    OneChargeReadded(y, rate);
    var x := DivideRounded(y * BP, BP + rate);
    if rate == DRIFT_SERVICE_BP {
      TakeOutError(y, rate);
      AddOnError(x, rate);
      NoHalfBetweenMultiples(x, y);
    }
  }

  /** At exactly 200% the outer error cannot reach its bound: a multiple of BP is never half way between two. */
  lemma NoHalfBetweenMultiples(x: int, y: int)
    ensures x * (BP + DRIFT_SERVICE_BP) - y * BP != BP + BP / 2
  {
    var m := 3 * x - y;
    assert x * (BP + DRIFT_SERVICE_BP) - y * BP == BP * m;
    if m <= 1 {
      assert BP * m <= BP;
    } else {
      assert BP * m >= 2 * BP;
    }
  }

  /** With service up to 200% and tax up to 66.66%, the detour through the base misses a price by at most two minor units. */
  lemma ReaddingWithinTwo(price: nat, charges: OutletCharges)
    requires charges.WithinDriftLimits()
    ensures -2 <= Readded(price, charges) - price <= 2
  {
    hide DivideRounded;
    var service, tax := charges.serviceChargeRateBp, charges.taxRateBp;
    var beforeTax := DivideRounded(price * BP, BP + tax);
    var base := DivideRounded(beforeTax * BP, BP + service);
    var gross := base + DivideRounded(base * service, BP);
    ReaddedWithinOne(beforeTax, service);
    TakeOutError(price, tax);
    AddOnError(gross, tax);
    var total := gross + DivideRounded(gross * tax, BP);
    assert total == Readded(price, charges);
    var e := gross - beforeTax;
    Distribute(beforeTax, e, BP + tax);
    TimesMonotone(BP + tax, -1, e);
    TimesMonotone(BP + tax, e, 1);
    DriftOfTwo(BP + tax, price, total, beforeTax * (BP + tax), e * (BP + tax));
  }

  lemma DriftOfTwo(rate: int, price: int, total: int, beforeTax: int, e: int)
    requires BP <= rate <= BP + DRIFT_TAX_BP
    requires -rate < 2 * (beforeTax - price * BP) <= rate
    requires -rate <= e <= rate
    requires -(BP as int) < 2 * (BP * total - (beforeTax + e)) <= BP
    ensures -2 <= total - price <= 2
  {}

  /** In particular, for the rates an outlet may set. */
  lemma ReaddingDrift(price: nat, charges: OutletCharges)
    requires charges.WithinCap()
    ensures -2 <= Readded(price, charges) - price <= 2
  {
    ReaddingWithinTwo(price, charges);
  }

  /**
   Two units do occur below the cap, in both directions. Neither limit can be raised: one basis point
   more of tax, even with a service of 1%, or one more of service, even with a tax of 0.01%, misses a
   price by three.
   */
  lemma ReaddingDriftIsSharp()
    ensures Readded(1, OutletCharges(true, 5_000, 5_000)) == 3
    ensures Readded(3, OutletCharges(true, 4_999, 4_999)) == 1
    ensures Readded(8_331, OutletCharges(true, 100, DRIFT_TAX_BP + 1)) == 8_334
    ensures Readded(15_000, OutletCharges(true, DRIFT_SERVICE_BP + 1, 1)) == 15_003
  {
    assert Breakdown(1, OutletCharges(true, 5_000, 5_000)).baseMinor == 1;
    assert Breakdown(1, OutletCharges(false, 5_000, 5_000)).totalMinor == 3;
    assert Breakdown(3, OutletCharges(true, 4_999, 4_999)).baseMinor == 1;
    assert Breakdown(1, OutletCharges(false, 4_999, 4_999)).totalMinor == 1;
    assert Breakdown(8_331, OutletCharges(true, 100, 6_667)).baseMinor == 4_950;
    assert Breakdown(4_950, OutletCharges(false, 100, 6_667)).totalMinor == 8_334;
    assert Breakdown(15_000, OutletCharges(true, 20_001, 1)).baseMinor == 5_000;
    assert Breakdown(5_000, OutletCharges(false, 20_001, 1)).totalMinor == 15_003;
  }

  // ----- Several orders of one visit, each billed on its own

  function Sum(xs: seq<nat>): nat {
    if xs == [] then 0 else xs[0] + Sum(xs[1..])
  }

  function SumOfTotals(subtotals: seq<nat>, charges: OutletCharges): int {
    if subtotals == [] then 0
    else Breakdown(subtotals[0], charges).totalMinor + SumOfTotals(subtotals[1..], charges)
  }

  function SumOfBases(subtotals: seq<nat>, charges: OutletCharges): int {
    if subtotals == [] then 0
    else Breakdown(subtotals[0], charges).baseMinor + SumOfBases(subtotals[1..], charges)
  }

  /** One bill with added charges, against the exact product scaled by BP squared. */
  lemma AddedTotalError(subtotal: nat, charges: OutletCharges)
    requires charges.WithinCap()
    ensures var exact := subtotal * ((BP + charges.serviceChargeRateBp) * (BP + charges.taxRateBp));
            var total := Breakdown(subtotal, charges.Added()).totalMinor;
            -5 * BP * BP <= 4 * (BP * BP * total - exact) <= 5 * BP * BP
  {
    hide DivideRounded;
    AddOnError(subtotal, charges.serviceChargeRateBp);
    var gross := subtotal + DivideRounded(subtotal * charges.serviceChargeRateBp, BP);
    AddOnError(gross, charges.taxRateBp);
    TwoAddOns(subtotal, gross, Breakdown(subtotal, charges.Added()).totalMinor,
              BP + charges.serviceChargeRateBp, BP + charges.taxRateBp);
  }

  lemma TwoAddOns(subtotal: int, gross: int, total: int, service: int, tax: int)
    requires 0 <= tax <= BP + MAX_RATE_BP
    requires -(BP as int) <= 2 * (BP * gross - subtotal * service) <= BP
    requires -(BP as int) <= 2 * (BP * total - gross * tax) <= BP
    ensures -5 * BP * BP <= 4 * (BP * BP * total - subtotal * (service * tax)) <= 5 * BP * BP
  {
    var e := BP * gross - subtotal * service;
    TimesMonotone(tax, -(BP as int), 2 * e);
    TimesMonotone(tax, 2 * e, BP);
    Assoc(subtotal, service, tax);
    Distribute(subtotal * service, e, tax);
    Swap(gross, tax);
    assert (gross * BP) * tax == (subtotal * service + e) * tax;
    SumOfErrors(BP * total - gross * tax, e * tax, tax, gross * tax, total, subtotal * (service * tax));
  }

  lemma SumOfErrors(f: int, et: int, tax: int, gt: int, total: int, exact: int)
    requires 0 <= tax <= BP + MAX_RATE_BP
    requires f == BP * total - gt && BP * gt == exact + et
    requires -(BP as int) <= 2 * f <= BP && -(tax * BP) <= 2 * et <= tax * BP
    ensures -5 * BP * BP <= 4 * (BP * BP * total - exact) <= 5 * BP * BP
  {}

  lemma {:induction false} SplitTotalsError(subtotals: seq<nat>, charges: OutletCharges)
    requires charges.WithinCap()
    ensures var exact := Sum(subtotals) * ((BP + charges.serviceChargeRateBp) * (BP + charges.taxRateBp));
            var totals := SumOfTotals(subtotals, charges.Added());
            -5 * BP * BP * |subtotals| <= 4 * (BP * BP * totals - exact) <= 5 * BP * BP * |subtotals|
  {
    if subtotals != [] {
      SplitTotalsError(subtotals[1..], charges);
      AddedTotalError(subtotals[0], charges);
      var rate := (BP + charges.serviceChargeRateBp) * (BP + charges.taxRateBp);
      Distribute(subtotals[0], Sum(subtotals[1..]), rate);
    }
  }

  lemma Distribute(a: int, b: int, c: int)
    ensures (a + b) * c == a * c + b * c
  {}

  /**
   Billing n orders separately instead of together moves what a visit pays by at most 5(n + 1)/4
   minor units when charges are added, and not at all when they are in the price.
   */
  lemma SplitBillDrift(subtotals: seq<nat>, charges: OutletCharges)
    requires charges.WithinCap()
    ensures var n := |subtotals|;
            var gap := SumOfTotals(subtotals, charges) - Breakdown(Sum(subtotals), charges).totalMinor;
            if charges.included then gap == 0 else -5 * (n + 1) <= 4 * gap <= 5 * (n + 1)
  {
    hide Breakdown, Sum, SumOfTotals, DivideRounded;
    if charges.included {
      IncludedTotalsSplit(subtotals, charges);
      PartsAddUp(Sum(subtotals), charges);
    } else {
      assert charges == charges.Added();
      SplitTotalsError(subtotals, charges);
      AddedTotalError(Sum(subtotals), charges);
    }
  }

  lemma {:induction false} IncludedTotalsSplit(subtotals: seq<nat>, charges: OutletCharges)
    requires charges.included
    ensures SumOfTotals(subtotals, charges) == Sum(subtotals)
  {
    if subtotals != [] { IncludedTotalsSplit(subtotals[1..], charges); }
  }

  /** The base taken out of one price, against the exact quotient, scaled by both rates. */
  lemma TakenOutBaseError(price: nat, charges: OutletCharges)
    ensures var scale := (BP + charges.serviceChargeRateBp) * (BP + charges.taxRateBp);
            var base := Breakdown(price, charges.TakenOut()).baseMinor;
            -scale <= base * scale - price * (BP * BP) <= scale
  {
    TakeOutError(price, charges.taxRateBp);
    var beforeTax := DivideRounded(price * BP, BP + charges.taxRateBp);
    TakeOutError(beforeTax, charges.serviceChargeRateBp);
    TwoTakeOuts(price, beforeTax, Breakdown(price, charges.TakenOut()).baseMinor,
                BP + charges.serviceChargeRateBp, BP + charges.taxRateBp);
  }

  lemma TwoTakeOuts(price: int, beforeTax: int, base: int, service: int, tax: int)
    requires BP <= service && 0 <= tax
    requires -tax < 2 * (beforeTax * tax - price * BP) <= tax
    requires -service < 2 * (base * service - beforeTax * BP) <= service
    ensures -(service * tax) <= base * (service * tax) - price * (BP * BP) <= service * tax
  {
    var e, f := beforeTax * tax - price * BP, base * service - beforeTax * BP;
    TimesMonotone(tax, -service, 2 * f);
    TimesMonotone(tax, 2 * f, service);
    TimesMonotone(tax, BP, service);
    Assoc(base, service, tax);
    Distribute(beforeTax * BP, f, tax);
    Swap(beforeTax, tax);
    Halves(tax, service, f);
    assert base * (service * tax) - price * (BP * BP) == BP * e + f * tax;
  }

  lemma Halves(tax: int, service: int, f: int)
    requires tax * -service <= tax * (2 * f) <= tax * service
    ensures -(service * tax) <= 2 * (f * tax) <= service * tax
  {}

  lemma Assoc(a: int, b: int, c: int)
    ensures a * (b * c) == (a * b) * c
  {}

  lemma Swap(a: int, b: int)
    ensures (a * BP) * b == BP * (a * b)
  {}

  lemma {:induction false} SplitBasesError(prices: seq<nat>, charges: OutletCharges)
    ensures var scale := (BP + charges.serviceChargeRateBp) * (BP + charges.taxRateBp);
            var bases := SumOfBases(prices, charges.TakenOut());
            -(|prices| * scale) <= bases * scale - Sum(prices) * (BP * BP) <= |prices| * scale
  {
    if prices != [] {
      SplitBasesError(prices[1..], charges);
      TakenOutBaseError(prices[0], charges);
      var scale := (BP + charges.serviceChargeRateBp) * (BP + charges.taxRateBp);
      var rest := SumOfBases(prices[1..], charges.TakenOut());
      Distribute(Breakdown(prices[0], charges.TakenOut()).baseMinor, rest, scale);
      Distribute(prices[0], Sum(prices[1..]), BP * BP);
      Distribute(1, |prices[1..]|, scale);
    }
  }

  /** With charges in the price, at any rate, n separate bills report a base within n + 1 units of the joint one. */
  lemma SplitBaseDrift(prices: seq<nat>, charges: OutletCharges)
    requires charges.included
    ensures var gap := SumOfBases(prices, charges) - Breakdown(Sum(prices), charges).baseMinor;
            -(|prices| + 1) <= gap <= |prices| + 1
  {
    assert charges == charges.TakenOut();
    var scale := (BP + charges.serviceChargeRateBp) * (BP + charges.taxRateBp);
    SplitBasesError(prices, charges);
    TakenOutBaseError(Sum(prices), charges);
    FromScaled(scale, SumOfBases(prices, charges), Breakdown(Sum(prices), charges).baseMinor,
               Sum(prices) * (BP * BP), |prices|);
  }

  lemma FromScaled(scale: int, x: int, y: int, exact: int, n: int)
    requires scale > 0 && n >= 0
    requires -(n * scale) <= x * scale - exact <= n * scale
    requires -scale <= y * scale - exact <= scale
    ensures -(n + 1) <= x - y <= n + 1
  {
    Minus(x, y, scale);
    Distribute(n, 1, scale);
    AtMost(scale, x - y, n + 1);
    AtMost(scale, y - x, n + 1);
  }

  lemma Minus(a: int, b: int, c: int)
    ensures (a - b) * c == a * c - b * c
    ensures (b - a) * c == b * c - a * c
  {}

  lemma AtMost(scale: nat, x: int, n: int)
    requires scale > 0 && x * scale <= n * scale
    ensures x <= n
  {
    if x > n { TimesStep(scale, n, x); }
  }
}
