/** The buy-to-let evaluation of app.py: `annuity_payment`, `evaluate_listing`
    and the city filter at the end of `fetch_listings`. Python floats are
    modelled as exact reals; the guards, the order of the computations and the
    exceptions they can raise are kept. */
module Evaluate {
  import opened Common
  import opened JsonModel
  import Listings

  /** The exceptions the evaluation can raise. */
  datatype Error = ZeroDivisionError | ValueError | TypeError

  datatype Result<T> = Ok(value: T) | Raises(error: Error)

  // ------------------------------------------------------------ annuity

  function Pow(x: real, n: nat): real
  {
    if n == 0 then 1.0 else x * Pow(x, n - 1)
  }

  lemma {:induction false} PowPositive(x: real, n: nat)
    requires x > 0.0
    ensures Pow(x, n) > 0.0
  {
    if n > 0 {
      PowPositive(x, n - 1);
    }
  }

  lemma {:induction false} PowAboveOne(x: real, n: nat)
    requires x > 1.0 && n > 0
    ensures Pow(x, n) > 1.0
  {
    if n > 1 {
      PowAboveOne(x, n - 1);
      assert x * Pow(x, n - 1) > 1.0 * Pow(x, n - 1);
    }
  }

  /** `x ** n` for a positive base and an integer exponent. */
  function PyPow(x: real, n: int): real
    requires x > 0.0
  {
    if n >= 0 then Pow(x, n)
    else
      PowPositive(x, -n);
      1.0 / Pow(x, -n)
  }

  /** A base above one raised to a non-zero power is never one. */
  lemma PyPowNotOne(x: real, n: int)
    requires x > 1.0 && n != 0
    ensures PyPow(x, n) != 1.0
  {
    if n > 0 {
      PowAboveOne(x, n);
    } else {
      PowAboveOne(x, -n);
    }
  }

  /** `annuity_payment(principal, annual_rate, years)`: the zero-interest split
      when the rate is not positive, otherwise the annuity formula with the
      monthly rate and the number of months. A zero denominator raises
      ZeroDivisionError, as a term of zero years always does. */
  function AnnuityPayment(principal: real, annualRate: real, years: int): (p: Result<real>)
    ensures years == 0 ==> p == Raises(ZeroDivisionError)
    ensures p.Raises? ==> p.error == ZeroDivisionError
  {
    if annualRate <= 0.0 then
      if years * 12 == 0 then Raises(ZeroDivisionError)
      else Ok(principal / (years * 12) as real)
    else
      var r := annualRate / 12.0;
      var n := years * 12;
      var g := PyPow(1.0 + r, n);
      if g - 1.0 == 0.0 then Raises(ZeroDivisionError)
      else Ok(AnnuityFormula(principal, r, g))
  }

  /** The level payment of a loan over the months whose growth factor is g. */
  function AnnuityFormula(principal: real, r: real, g: real): real
    requires g != 1.0
  {
    principal * (r * g) / (g - 1.0)
  }

  /** The call raises exactly when the term is zero years, whatever the rate. */
  lemma AnnuityRaisesIffNoTerm(principal: real, annualRate: real, years: int)
    ensures AnnuityPayment(principal, annualRate, years).Raises? <==> years == 0
  {
    if annualRate > 0.0 && years != 0 {
      PyPowNotOne(1.0 + annualRate / 12.0, years * 12);
    }
  }

  /** The loan balance after k monthly payments p at monthly rate r. */
  function Balance(principal: real, r: real, p: real, k: nat): real
  {
    if k == 0 then principal else Balance(principal, r, p, k - 1) * (1.0 + r) - p
  }

  /** r·b = r·P·g − p·(g − 1): the balance b once the principal P has grown by
      the factor g and payments p have been made. */
  predicate ClosedForm(principal: real, r: real, p: real, b: real, g: real)
  {
    r * b == r * principal * g - p * (g - 1.0)
  }

  /** r·B(k) = r·P·(1+r)^k − p·((1+r)^k − 1), the closed form of the balance. */
  lemma {:induction false} BalanceClosedForm(principal: real, r: real, p: real, k: nat)
    ensures ClosedForm(principal, r, p, Balance(principal, r, p, k), Pow(1.0 + r, k))
  {
    if k == 0 {
      assert Balance(principal, r, p, 0) == principal;
      assert Pow(1.0 + r, 0) == 1.0;
    } else {
      BalanceClosedForm(principal, r, p, k - 1);
      ClosedFormStep(r, principal, p, Balance(principal, r, p, k - 1), Pow(1.0 + r, k - 1),
        Balance(principal, r, p, k), Pow(1.0 + r, k));
    }
  }

  /** One month of the closed form: from month k-1 (balance b, growth g) to
      month k (balance b', growth g'). */
  lemma ClosedFormStep(r: real, principal: real, p: real, b: real, g: real, b': real, g': real)
    requires ClosedForm(principal, r, p, b, g)
    requires b' == b * (1.0 + r) - p && g' == (1.0 + r) * g
    ensures ClosedForm(principal, r, p, b', g')
  {
    calc {
      r * b';
      r * (b * (1.0 + r) - p);
      (r * b) * (1.0 + r) - r * p;
      (r * principal * g - p * (g - 1.0)) * (1.0 + r) - r * p;
      r * principal * g' - p * (g' - 1.0);
    }
  }

  /** With a positive rate and term, paying the annuity every month for the
      whole term leaves nothing owed. */
  lemma AnnuityRepays(principal: real, annualRate: real, years: int)
    requires annualRate > 0.0 && years > 0
    ensures AnnuityPayment(principal, annualRate, years).Ok?
    ensures Balance(principal, annualRate / 12.0, AnnuityPayment(principal, annualRate, years).value, years * 12) == 0.0
  {
    var r := annualRate / 12.0;
    var n := years * 12;
    var g := Pow(1.0 + r, n);
    PowAboveOne(1.0 + r, n);
    var p := AnnuityFormula(principal, r, g);
    assert PyPow(1.0 + r, n) == g;
    assert AnnuityPayment(principal, annualRate, years) == Ok(p);
    BalanceClosedForm(principal, r, p, n);
    PaymentCancels(principal, r, g, Balance(principal, r, p, n));
  }

  /** The annuity cancels the closed form: r·B = 0 with r > 0 forces B = 0. */
  lemma PaymentCancels(principal: real, r: real, g: real, b: real)
    requires r > 0.0 && g > 1.0
    requires ClosedForm(principal, r, AnnuityFormula(principal, r, g), b, g)
    ensures b == 0.0
  {
    var p := AnnuityFormula(principal, r, g);
    assert p * (g - 1.0) == principal * (r * g);
  }

  /** With no positive rate the payments are the principal split evenly over the
      months, repaying it with no interest. */
  lemma AnnuityZeroRateRepays(principal: real, annualRate: real, years: int)
    requires annualRate <= 0.0 && years > 0
    ensures AnnuityPayment(principal, annualRate, years).Ok?
    ensures Balance(principal, 0.0, AnnuityPayment(principal, annualRate, years).value, years * 12) == 0.0
  {
    var p := principal / (years * 12) as real;
    ZeroRateBalance(principal, p, years * 12);
  }

  lemma {:induction false} ZeroRateBalance(principal: real, p: real, k: nat)
    ensures Balance(principal, 0.0, p, k) == principal - k as real * p
  {
    if k > 0 {
      ZeroRateBalance(principal, p, k - 1);
    }
  }

  /** Interest-free: 120 000 over ten years is 1 000 a month. */
  lemma ZeroRateExample()
    ensures AnnuityPayment(120000.0, 0.0, 10) == Ok(1000.0)
  {
  }

  // ------------------------------------------------------------ the row

  /** `float(x)` of a row value: numbers convert, a text must be digits with at
      most one '.', anything else raises. */
  function ToFloat(j: Json): (r: Result<real>)
    ensures j.Int? ==> r == Ok(j.i as real)
    ensures j.Float? ==> r == Ok(j.f)
    ensures j.Arr? || j.Obj? || j.Null? ==> r == Raises(TypeError)
  {
    match j
    case Null => Raises(TypeError)
    case Bool(b) => Ok(if b then 1.0 else 0.0)
    case Int(i) => Ok(i as real)
    case Float(f) => Ok(f)
    case Str(s) =>
      if forall q :: 0 <= q < |s| ==> IsDecimalChar(s[q]) then
        var v := ParseDecimal(s);
        if v.Some? then Ok(v.value) else Raises(ValueError)
      else Raises(ValueError)
    case Arr(_) => Raises(TypeError)
    case Obj(_) => Raises(TypeError)
  }

  /** `float(row.get(key, 0) or 0)`: a missing or falsy value reads as 0. */
  function RowFloat(row: map<string, Json>, key: string): (r: Result<real>)
    ensures (key !in row || !Truthy(row[key])) ==> r == Ok(0.0)
  {
    ToFloat(Or(if key in row then row[key] else Int(0), Int(0)))
  }

  /** The evaluation's assumptions (the command-line options). */
  datatype Args = Args(
    rentPerM2: real,
    fallbackRent: real,
    minRent: Option<real>,
    maxRent: Option<real>,
    ltv: real,
    mortgageRate: real,
    mortgageYears: int,
    registrationRate: real,
    notaryRate: real,
    renovationBuffer: real,
    vacancyRate: real,
    maintenanceRate: real,
    managementRate: real,
    propertyTaxMonthly: real,
    insuranceMonthly: real)

  /** An optional bound that is set and truthy. */
  predicate Bound(b: Option<real>) { b.Some? && b.value != 0.0 }

  /** The rent estimate before clamping: rent per m² times the area when both
      are non-zero, the fallback rent otherwise. */
  function BaseRent(args: Args, area: real): real
  {
    if args.rentPerM2 != 0.0 && area != 0.0 then args.rentPerM2 * area else args.fallbackRent
  }

  /** The estimate raised to the minimum, then lowered to the maximum: it never
      exceeds a set maximum, and reaches a set minimum unless a smaller maximum
      overrides it. */
  function EstimatedRent(args: Args, area: real): (rent: real)
    ensures Bound(args.maxRent) ==> rent <= args.maxRent.value
    ensures Bound(args.minRent) && (!Bound(args.maxRent) || args.maxRent.value >= args.minRent.value) ==>
      rent >= args.minRent.value
  {
    var base := BaseRent(args, area);
    var lo := if Bound(args.minRent) && base < args.minRent.value then args.minRent.value else base;
    if Bound(args.maxRent) && lo > args.maxRent.value then args.maxRent.value else lo
  }

  /** The clamp leaves an estimate already within the bounds alone, and
      otherwise moves it onto one of the bounds. */
  lemma EstimatedRentBounds(args: Args, area: real)
    ensures (!Bound(args.minRent) || BaseRent(args, area) >= args.minRent.value) &&
            (!Bound(args.maxRent) || BaseRent(args, area) <= args.maxRent.value) ==>
      EstimatedRent(args, area) == BaseRent(args, area)
    ensures EstimatedRent(args, area) == BaseRent(args, area) ||
      (Bound(args.minRent) && EstimatedRent(args, area) == args.minRent.value) ||
      (Bound(args.maxRent) && EstimatedRent(args, area) == args.maxRent.value)
  {
  }

  /** The command-line defaults: 10 a m², 1 000 when the area is unknown. */
  const DefaultArgs := Args(10.0, 1000.0, None, None, 0.8, 0.036, 25, 0.10, 0.03,
    10000.0, 0.05, 0.05, 0.0, 75.0, 25.0)

  /** 80 m² rents for 800; no area falls back to 1 000; a minimum of 900
      raises 800 to 900, and a maximum of 850 lowers 1 000 to 850. */
  lemma EstimatedRentExample()
    ensures EstimatedRent(DefaultArgs, 80.0) == 800.0
    ensures EstimatedRent(DefaultArgs, 0.0) == 1000.0
    ensures EstimatedRent(DefaultArgs.(minRent := Some(900.0)), 80.0) == 900.0
    ensures EstimatedRent(DefaultArgs.(maxRent := Some(850.0)), 0.0) == 850.0
  {
  }

  /** The figures `evaluate_listing` adds to a row. The yields and the price per
      m² are kept as the values Python stores: the integer 0 (or None) where a
      guard avoids a division by zero. */
  datatype Figures = Figures(
    price: real,
    area: real,
    estRent: real,
    purchaseTotal: real,
    equity: real,
    monthlyPI: real,
    monthlyCosts: real,
    monthlyNet: real,
    annualNet: real,
    grossYield: Json,
    netYieldOnPrice: Json,
    netYieldOnEquity: Json,
    ppsqm: Json)

  /** The arithmetic of `evaluate_listing` once price and area are numbers and
      the monthly mortgage payment `pi` is known. */
  function FiguresWith(price: real, area: real, args: Args, pi: real): Figures
  {
    var est := EstimatedRent(args, area);
    var registration := price * args.registrationRate;
    var notary := price * args.notaryRate;
    var purchaseTotal := price + registration + notary + args.renovationBuffer;
    var equity := purchaseTotal - price * args.ltv;
    var monthlyCosts := pi + est * args.vacancyRate + est * args.maintenanceRate +
      args.propertyTaxMonthly + args.insuranceMonthly + est * args.managementRate;
    var monthlyNet := est - monthlyCosts;
    var annualNet := monthlyNet * 12.0;
    Figures(
      price, area, est, purchaseTotal, equity, pi, monthlyCosts, monthlyNet, annualNet,
      if price != 0.0 then Float(est * 12.0 / price) else Int(0),
      if price != 0.0 then Float(annualNet / price) else Int(0),
      if equity != 0.0 then Float(annualNet / equity) else Int(0),
      if area != 0.0 then Float(price / area) else Null)
  }

  /** The figures, with the mortgage payment on a loan of `ltv` times the price. */
  function ComputeFigures(price: real, area: real, args: Args): (r: Result<Figures>)
    ensures args.mortgageYears == 0 ==> r == Raises(ZeroDivisionError)
    ensures r.Raises? ==> r.error == ZeroDivisionError
  {
    var pi := AnnuityPayment(price * args.ltv, args.mortgageRate, args.mortgageYears);
    if pi.Raises? then Raises(pi.error) else Ok(FiguresWith(price, area, args, pi.value))
  }

  /** The keys `evaluate_listing` writes. */
  const ComputedKeys: set<string> := {
    "purchase_price", "purchase_total", "equity_needed", "est_rent_month", "monthly_PI",
    "monthly_costs", "monthly_net_cashflow", "annual_net_cashflow", "gross_yield",
    "net_yield_on_price", "net_yield_on_equity", "ppsqm"}

  function FiguresRow(f: Figures): (m: map<string, Json>)
    ensures m.Keys == ComputedKeys
  {
    map[
      "purchase_price" := Float(f.price),
      "purchase_total" := Float(f.purchaseTotal),
      "equity_needed" := Float(f.equity),
      "est_rent_month" := Float(f.estRent),
      "monthly_PI" := Float(f.monthlyPI),
      "monthly_costs" := Float(f.monthlyCosts),
      "monthly_net_cashflow" := Float(f.monthlyNet),
      "annual_net_cashflow" := Float(f.annualNet),
      "gross_yield" := f.grossYield,
      "net_yield_on_price" := f.netYieldOnPrice,
      "net_yield_on_equity" := f.netYieldOnEquity,
      "ppsqm" := f.ppsqm]
  }

  /** `evaluate_listing(row, args)`: the row with the computed figures added
      (`{**row, ...}`, so a computed key replaces an input key of the same name),
      or the exception the conversion of price or area, or the annuity, raises. */
  function EvaluateListing(row: map<string, Json>, args: Args): (r: Result<map<string, Json>>)
    ensures r.Ok? ==> r.value.Keys == row.Keys + ComputedKeys
    ensures r.Ok? ==> forall k :: k in row && k !in ComputedKeys ==> r.value[k] == row[k]
  {
    var price := RowFloat(row, "price");
    if price.Raises? then Raises(price.error)
    else
      var area := RowFloat(row, "area_m2");
      if area.Raises? then Raises(area.error)
      else
        var f := ComputeFigures(price.value, area.value, args);
        if f.Raises? then Raises(f.error) else Ok(row + FiguresRow(f.value))
  }

  /** Purchase costs and equity: the total is the price with registration,
      notary and renovation added, the equity that total minus the loan; the
      payment is the annuity on the loan and the rent the clamped estimate. */
  lemma PurchaseFigures(price: real, area: real, args: Args)
    requires ComputeFigures(price, area, args).Ok?
    ensures var f := ComputeFigures(price, area, args).value;
      f.price == price && f.area == area &&
      f.purchaseTotal == price * (1.0 + args.registrationRate + args.notaryRate) + args.renovationBuffer &&
      f.equity == f.purchaseTotal - price * args.ltv &&
      f.monthlyPI == AnnuityPayment(price * args.ltv, args.mortgageRate, args.mortgageYears).value &&
      f.estRent == EstimatedRent(args, area)
  {
  }

  /** Cash flow: the monthly net is the rent less the payment, the
      rent-proportional costs and the fixed costs; the annual net is twelve of it. */
  lemma CashFlowFigures(price: real, area: real, args: Args, pi: real)
    ensures var f := FiguresWith(price, area, args, pi);
      f.monthlyNet == f.estRent * (1.0 - args.vacancyRate - args.maintenanceRate - args.managementRate)
        - pi - args.propertyTaxMonthly - args.insuranceMonthly &&
      f.annualNet == 12.0 * f.monthlyNet
  {
  }

  /** The ratios invert: each yield times its base gives back the amount it was
      computed from, and each is the integer 0 (the price per m², None) when its
      base is zero. */
  lemma RatioFigures(price: real, area: real, args: Args, pi: real)
    ensures var f := FiguresWith(price, area, args, pi);
      (price != 0.0 ==> f.grossYield.Float? && f.grossYield.f * price == 12.0 * f.estRent) &&
      (price != 0.0 ==> f.netYieldOnPrice.Float? && f.netYieldOnPrice.f * price == f.annualNet) &&
      (price == 0.0 ==> f.grossYield == Int(0) && f.netYieldOnPrice == Int(0)) &&
      (f.equity != 0.0 ==> f.netYieldOnEquity.Float? && f.netYieldOnEquity.f * f.equity == f.annualNet) &&
      (f.equity == 0.0 ==> f.netYieldOnEquity == Int(0)) &&
      (area != 0.0 ==> f.ppsqm.Float? && f.ppsqm.f * area == price) &&
      (area == 0.0 ==> f.ppsqm == Null)
  {
    var f := FiguresWith(price, area, args, pi);
    if price != 0.0 {
      DivInverts(f.estRent * 12.0, price);
      DivInverts(f.annualNet, price);
    }
    if f.equity != 0.0 {
      DivInverts(f.annualNet, f.equity);
    }
    if area != 0.0 {
      DivInverts(price, area);
    }
  }

  lemma DivInverts(a: real, b: real)
    requires b != 0.0
    ensures (a / b) * b == a
  {
  }

  /** The evaluation raises exactly when price or area is not a number, or when
      the mortgage term is zero years; a missing or falsy price or area reads as 0. */
  lemma EvaluateRaises(row: map<string, Json>, args: Args)
    ensures EvaluateListing(row, args).Raises? <==>
      RowFloat(row, "price").Raises? || RowFloat(row, "area_m2").Raises? || args.mortgageYears == 0
  {
    var price := RowFloat(row, "price");
    var area := RowFloat(row, "area_m2");
    if price.Ok? && area.Ok? {
      FiguresRaises(price.value, area.value, args);
    }
  }

  /** A successful evaluation records the price read from the row and the rent
      estimated from the area read from the row. */
  lemma EvaluateReadsRow(row: map<string, Json>, args: Args)
    requires EvaluateListing(row, args).Ok?
    ensures RowFloat(row, "price").Ok? && RowFloat(row, "area_m2").Ok?
    ensures var out := EvaluateListing(row, args).value;
      out["purchase_price"] == Float(RowFloat(row, "price").value) &&
      out["est_rent_month"] == Float(EstimatedRent(args, RowFloat(row, "area_m2").value))
  {
    var price := RowFloat(row, "price").value;
    var area := RowFloat(row, "area_m2").value;
    var f := ComputeFigures(price, area, args).value;
    PurchaseFigures(price, area, args);
    assert EvaluateListing(row, args).value == row + FiguresRow(f);
    FiguresRowReads(f);
  }

  /** A record as the adapters append it, handed to `evaluate_listing`: its price
      and area read back unchanged (a missing area as 0.0), so the evaluation
      raises only on a term of 0 years and otherwise reports the record's price. */
  lemma ListingRowEvaluates(l: Listings.Listing, args: Args)
    ensures RowFloat(Listings.ToRow(l), "price") == Ok(l.price)
    ensures RowFloat(Listings.ToRow(l), "area_m2") == Ok(if l.areaM2.Some? then l.areaM2.value else 0.0)
    ensures EvaluateListing(Listings.ToRow(l), args).Raises? <==> args.mortgageYears == 0
    ensures EvaluateListing(Listings.ToRow(l), args).Ok? ==>
      EvaluateListing(Listings.ToRow(l), args).value["purchase_price"] == Float(l.price)
  {
    var row := Listings.ToRow(l);
    EvaluateRaises(row, args);
    if EvaluateListing(row, args).Ok? {
      EvaluateReadsRow(row, args);
    }
  }

  lemma FiguresRowReads(f: Figures)
    ensures FiguresRow(f)["purchase_price"] == Float(f.price)
    ensures FiguresRow(f)["est_rent_month"] == Float(f.estRent)
  {
  }

  /** The figures raise exactly when the mortgage term is zero years. */
  lemma FiguresRaises(price: real, area: real, args: Args)
    ensures ComputeFigures(price, area, args).Raises? <==> args.mortgageYears == 0
  {
    AnnuityRaisesIffNoTerm(price * args.ltv, args.mortgageRate, args.mortgageYears);
  }

  // ------------------------------------------------------------ city filter

  /** `str(x.get("city", ""))` */
  function CityText(x: map<string, Json>): string
  {
    PyStr(if "city" in x then x["city"] else Str(""))
  }

  /** The filter test: the lower-cased filter occurs in the lower-cased city text. */
  predicate CityMatches(x: map<string, Json>, city: string)
  {
    Contains(LowerStr(CityText(x)), LowerStr(city))
  }

  /** The elements of xs that satisfy keep, in their order. */
  function Select<T>(xs: seq<T>, keep: T -> bool): (r: seq<T>)
    ensures |r| <= |xs|
  {
    if xs == [] then []
    else
      var n := |xs| - 1;
      Select(xs[..n], keep) + (if keep(xs[n]) then [xs[n]] else [])
  }

  lemma {:induction false} SelectMembers<T>(xs: seq<T>, keep: T -> bool, x: T)
    ensures x in Select(xs, keep) <==> x in xs && keep(x)
    decreases |xs|
  {
    if xs != [] {
      var n := |xs| - 1;
      SelectMembers(xs[..n], keep, x);
      assert xs == xs[..n] + [xs[n]];
    }
  }

  lemma {:induction false} SelectAppend<T>(a: seq<T>, b: seq<T>, keep: T -> bool)
    ensures Select(a + b, keep) == Select(a, keep) + Select(b, keep)
    decreases |b|
  {
    if b == [] {
      assert a + b == a;
    } else {
      var n := |b| - 1;
      assert (a + b)[..|a| + n] == a + b[..n];
      assert (a + b)[|a| + n] == b[n];
      SelectAppend(a, b[..n], keep);
    }
  }

  /** The list comprehension of the filter, over the listings in order. */
  function FilterCity(listings: seq<map<string, Json>>, city: string): (r: seq<map<string, Json>>)
    ensures |r| <= |listings|
  {
    Select(listings, x => CityMatches(x, city))
  }

  /** The end of `fetch_listings`: filter only when a non-empty city is given. */
  function CityFilter(listings: seq<map<string, Json>>, city: Option<string>): (r: seq<map<string, Json>>)
    ensures city.None? || city.value == "" ==> r == listings
  {
    if city.None? || city.value == "" then listings else FilterCity(listings, city.value)
  }

  /** A listing is kept exactly when it is one of the input and its city matches. */
  lemma FilterCityMembers(listings: seq<map<string, Json>>, city: string, x: map<string, Json>)
    ensures x in FilterCity(listings, city) <==> x in listings && CityMatches(x, city)
  {
    SelectMembers(listings, x => CityMatches(x, city), x);
  }

  /** The filter keeps input order: filtering consecutive runs gives consecutive results. */
  lemma FilterCityAppend(a: seq<map<string, Json>>, b: seq<map<string, Json>>, city: string)
    ensures FilterCity(a + b, city) == FilterCity(a, city) + FilterCity(b, city)
  {
    SelectAppend(a, b, x => CityMatches(x, city));
  }

  /** `str(None)` is "None": a listing whose city is None passes the filter "non". */
  lemma NoneCityExample()
    ensures CityMatches(map["city" := Null], "NON")
  {
    assert LowerStr("NON") == "non";
    assert LowerStr("None") == "none";
    assert StartsWith("none", "non");
  }
}
