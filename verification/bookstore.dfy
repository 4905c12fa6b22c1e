/**
 The bookstore calculator: what an order of copies of one book costs the
 bookstore wholesale (a 40% discount off the cover price plus tiered shipping),
 what the copies bring in when all sell at the cover price, and the profit.

 Amounts are exact `real` values; the calculator's single-precision rounding is
 not modelled.
 */
module Bookstore {

  /** The bookstore's discount off the cover price. */
  const BookstoreDiscount: real := 0.40

  /** Shipping for the first copy of an order. */
  const FirstCopyShipping: real := 3.00

  /** Shipping for each copy after the first. */
  const AdditionalCopyShipping: real := 0.75

  /** Why an order was refused. */
  datatype ValidationError = NonPositivePrice | NonPositiveCopies

  /** The verdict of validating an order. */
  datatype InputCheck = InputsValid | InputsInvalid(error: ValidationError)

  /**
   The price is checked before the number of copies, so a bad price is the
   error reported even when the number of copies is bad too.
   */
  function ValidateInputs(price: real, copies: int): (r: InputCheck)
    ensures r == InputsValid <==> price > 0.0 && copies > 0
    ensures r == InputsInvalid(NonPositivePrice) <==> price <= 0.0
    ensures r == InputsInvalid(NonPositiveCopies) <==> price > 0.0 && copies <= 0
  {
    if price <= 0.0 then InputsInvalid(NonPositivePrice)
    else if copies <= 0 then InputsInvalid(NonPositiveCopies)
    else InputsValid
  }

  /** The bookstore pays 60% of the cover price, which for a positive price is less than it. */
  function DiscountedPrice(price: real): (r: real)
    ensures r == 0.6 * price
    ensures price > 0.0 ==> 0.0 < r < price
  {
    price * (1.0 - BookstoreDiscount)
  }

  /** The cost of the copies themselves at the discounted price. */
  function BooksCost(discountedPrice: real, copies: int): real {
    discountedPrice * copies as real
  }

  /**
   Tiered shipping: $3.00 for a single copy, otherwise $3.00 plus $0.75 for
   every copy after the first. The two branches agree, so for every positive
   number of copies the cost is the one linear formula, and never below $3.00.
   */
  function ShippingCost(copies: int): (r: real)
    ensures copies >= 1 ==> r == 3.0 + 0.75 * (copies - 1) as real
    ensures copies >= 1 ==> r >= 3.0
  {
    if copies == 1 then FirstCopyShipping
    else FirstCopyShipping + AdditionalCopyShipping * (copies - 1) as real
  }

  /** What the copies bring in when every one sells at the cover price. */
  function TotalRevenue(price: real, copies: int): real {
    price * copies as real
  }

  /**
   Profit is revenue less cost, neither clamped nor rounded: it is negative
   exactly when the cost exceeds the revenue.
   */
  function Profit(revenue: real, cost: real): (r: real)
    ensures r + cost == revenue
    ensures r < 0.0 <==> revenue < cost
  {
    revenue - cost
  }

  /** Every figure the calculator reports for a valid order. */
  datatype CostReport = CostReport(
    coverPrice: real,
    copies: int,
    discountedPrice: real,
    booksCost: real,
    shippingCost: real,
    totalWholesaleCost: real,
    totalRevenue: real,
    profit: real)

  /** The calculator's outcome: a report, or the first validation error. */
  datatype Result = Success(report: CostReport) | Failure(error: ValidationError)

  /**
   Validation first, then the figures: the wholesale cost is the books plus
   shipping, the profit is the revenue less that cost, and altogether the profit
   is the 40% margin on the revenue less shipping.
   */
  function CalculateBookstoreCosts(price: real, copies: int): (r: Result)
    ensures r == Failure(NonPositivePrice) <==> price <= 0.0
    ensures r == Failure(NonPositiveCopies) <==> price > 0.0 && copies <= 0
    ensures r.Success? <==> price > 0.0 && copies > 0
    ensures r.Success? ==>
      var c := r.report;
      && c.coverPrice == price && c.copies == copies
      && c.discountedPrice == 0.6 * price
      && c.booksCost == c.discountedPrice * copies as real
      && c.shippingCost == 3.0 + 0.75 * (copies - 1) as real
      && c.totalWholesaleCost == c.booksCost + c.shippingCost
      && c.totalRevenue == price * copies as real
      && c.profit == c.totalRevenue - c.totalWholesaleCost
      && c.profit == 0.4 * price * copies as real - c.shippingCost
  {
    match ValidateInputs(price, copies)
    case InputsInvalid(e) => Failure(e)
    case InputsValid =>
      var discountedPrice := DiscountedPrice(price);
      var booksCost := BooksCost(discountedPrice, copies);
      var shippingCost := ShippingCost(copies);
      var totalWholesaleCost := booksCost + shippingCost;
      var totalRevenue := TotalRevenue(price, copies);
      var profit := Profit(totalRevenue, totalWholesaleCost);
      assert booksCost == 0.6 * (price * copies as real);
      Success(CostReport(price, copies, discountedPrice, booksCost, shippingCost,
                         totalWholesaleCost, totalRevenue, profit))
  }

  /** Each copy added to an order of at least one adds exactly $0.75 of shipping. */
  lemma ShippingIncrement(copies: int)
    requires copies >= 1
    ensures ShippingCost(copies + 1) == ShippingCost(copies) + 0.75
  {
  }

  /**
   Shipping counted in whole cents, one copy at a time: 300 cents for the first
   copy and 75 more for each copy after it.
   */
  function ShippingCents(copies: int): int
    decreases copies
  {
    if copies <= 1 then 300 else ShippingCents(copies - 1) + 75
  }

  /** The tiered shipping formula agrees with the copy-by-copy count in cents. */
  lemma {:induction false} ShippingMatchesCents(copies: int)
    requires copies >= 1
    ensures ShippingCost(copies) == ShippingCents(copies) as real / 100.0
    decreases copies
  {
    if copies > 1 {
      ShippingMatchesCents(copies - 1);
      ShippingIncrement(copies - 1);
    }
  }

  /**
   The bookstore keeps the discount: revenue less the cost of the books is 40%
   of the revenue.
   */
  lemma GrossMargin(price: real, copies: int)
    ensures TotalRevenue(price, copies) - BooksCost(DiscountedPrice(price), copies)
            == BookstoreDiscount * TotalRevenue(price, copies)
  {
  }

  /** A single cheap copy loses money: the profit is not clamped at zero. */
  lemma ProfitCanBeNegative()
    ensures CalculateBookstoreCosts(1.0, 1).Success?
    ensures CalculateBookstoreCosts(1.0, 1).report.profit == -2.6
  {
  }

  /** A bad price is reported even when the number of copies is bad too. */
  lemma PriceCheckedFirst(price: real, copies: int)
    requires price <= 0.0 && copies <= 0
    ensures CalculateBookstoreCosts(price, copies) == Failure(NonPositivePrice)
  {
  }

  /** The calculator's default order: 60 copies of a $24.95 book. */
  lemma DefaultOrder()
    ensures CalculateBookstoreCosts(24.95, 60)
            == Success(CostReport(24.95, 60, 14.97, 898.20, 47.25, 945.45, 1497.00, 551.55))
  {
  }
}
