# LAB3 calculators in Dafny

A model of the two calculators in the LAB3 Unity project, with the engine host
removed:

- **Dollar bills** (`DollarBillsCalculator`): an amount is validated (negative
  is rejected, zero needs no bills), then split into $100, $50, $20, $10, $5
  and $1 bills. Each step divides a running remainder by one denomination. The
  model keeps that step sequence as written, with C#'s truncating `/` and `%`,
  and proves four things about it. It is the generic greedy fold over the
  denomination list. Its bills add up to the amount. Each count is bounded by
  the denomination above it. It uses the fewest bills of any non-negative
  breakdown, and no other breakdown uses as few.
- **Bookstore** (`BookstoreProfitCalculator`): a cover price and a number of
  copies are validated, price first. The model then computes the 40%-discounted
  price, the cost of the books, tiered shipping ($3.00 for the first copy and
  $0.75 for each further copy), the total wholesale cost, the revenue at cover
  price and the profit. All amounts are exact `real` values.

Files:

- `greedy.dfy`, module `Greedy`: the greedy fold over any list of positive
  denominations, taken in list order (the calculator's list is descending, but
  the fold does not require it). It also proves that greedy is optimal, and the only
  optimum, for any list that meets an exchange condition: at each position,
  giving up one piece costs the greedy breakdown of the smaller denominations at
  least two more pieces.
- `bills.dfy`, module `Bills`: the calculator's validation, step and step
  sequence. It links them to the fold and proves the exchange condition for
  100/50/20/10/5.
- `bookstore.dfy`, module `Bookstore`: the bookstore constants and operations.
  Shipping also has a second definition, counted copy by copy in whole cents.

An amount of zero gives a "no bills needed" outcome that carries no
breakdown, because `ValidateAmount` stops the calculation before any step
runs. It does not give an all-zero breakdown.

## Model

| member | source | states |
|---|---|---|
| Bills.ValidateAmount | Assets/DollarBillsCalculator.cs:37-56 | only a positive amount passes; a negative amount and zero are two distinct outcomes |
| Bills.CalculateBillCount | Assets/DollarBillsCalculator.cs:58-70 | count times denomination plus new remainder is the old remainder; for a non-negative remainder the count is non-negative and the new remainder lies in `[0, d)`, so the count is the most bills that fit; for a negative remainder C#'s truncation gives a non-positive count and a remainder in `(-d, 0]` |
| Bills.BreakDown | Assets/DollarBillsCalculator.cs:26-32 | `100h + 50f + 20tw + 10te + 5fv + o` equals the amount; for a non-negative amount every count is non-negative, `f <= 1`, `tw <= 2`, `te <= 1`, `fv <= 1` and `o <= 4` |
| Bills.CalculateBills | Assets/DollarBillsCalculator.cs:19-35 | negative amount rejected and zero answered "no bills needed", neither with a breakdown; a breakdown exactly when the amount is positive, and its bills add up to the amount |
| Bills.BreakDownIsGreedyFold | Assets/DollarBillsCalculator.cs:26-32 | the step sequence equals the greedy fold over `[100, 50, 20, 10, 5]` with the remainder as ones |
| Bills.DenominationsCanonical | Assets/DollarBillsCalculator.cs:3-6 | the set 100/50/20/10/5/1 satisfies the exchange condition at every position, so greedy is optimal for it |
| Bills.BreakDownIsMinimal | Assets/DollarBillsCalculator.cs:3-6 | every non-negative breakdown of the amount uses at least as many bills as the calculator's, and one that uses as few is the calculator's |
| Bills.DefaultAmount | Assets/DollarBillsCalculator.cs:9-32 | the default $247 gives 2 x $100, 0 x $50, 2 x $20, 0 x $10, 1 x $5 and 2 x $1 |
| Greedy.Peel | Assets/DollarBillsCalculator.cs:26-32 | the greedy fold: non-negative counts whose weighted sum plus the ones is the amount; ones below the last denomination of the list; each count's value below the next larger denomination |
| Greedy.GreedyIsOptimal | Assets/DollarBillsCalculator.cs:3-6 | over a list that meets the exchange condition, no non-negative breakdown uses fewer pieces than greedy, and equality forces the greedy breakdown |
| Bookstore.ValidateInputs | Assets/BookstoreProfitCalculator.cs:46-65 | valid exactly when price > 0 and copies > 0; a non-positive price is the error whatever the copies; the copies error only when the price is positive |
| Bookstore.PriceCheckedFirst | Assets/BookstoreProfitCalculator.cs:50-65 | with both price and copies bad, the reported error is the price error |
| Bookstore.DiscountedPrice | Assets/BookstoreProfitCalculator.cs:67-73 | discounted price is 0.6 times the cover price, and strictly between 0 and the price for a positive price |
| Bookstore.ShippingCost | Assets/BookstoreProfitCalculator.cs:83-96 | for every copies >= 1 both branches give `3.00 + 0.75 * (copies - 1)`, which is at least 3.00 |
| Bookstore.ShippingIncrement | Assets/BookstoreProfitCalculator.cs:83-96 | each additional copy adds exactly $0.75 of shipping |
| Bookstore.ShippingMatchesCents | Assets/BookstoreProfitCalculator.cs:13-16 | the shipping formula equals an independent copy-by-copy count in whole cents (300 for the first copy, 75 for each further copy) |
| Bookstore.Profit | Assets/BookstoreProfitCalculator.cs:106-112 | profit plus cost is the revenue; profit is negative exactly when cost exceeds revenue (no clamping) |
| Bookstore.GrossMargin | Assets/BookstoreProfitCalculator.cs:75-104 | revenue at cover price less the cost of the books at the discounted price is 40% of the revenue |
| Bookstore.CalculateBookstoreCosts | Assets/BookstoreProfitCalculator.cs:23-44 | validation order and outcome; on success discounted price `0.6 * price`, books cost `discounted * copies`, shipping `3 + 0.75 * (copies - 1)`, wholesale `books + shipping`, revenue `price * copies`, profit `revenue - wholesale`, and so `profit == 0.4 * price * copies - shipping` |
| Bookstore.ProfitCanBeNegative | Assets/BookstoreProfitCalculator.cs:106-112 | one copy at $1.00 yields a profit of -2.60 |
| Bookstore.DefaultOrder | Assets/BookstoreProfitCalculator.cs:10-44 | 60 copies at $24.95 give 14.97, 898.20, 47.25, 945.45, 1497.00 and 551.55 |

## Left out

- Engine host: the `MonoBehaviour` base class, the `Start()` hooks and the serialized fields only supply the inputs. The inputs are parameters here.
- Logging and formatting: the `Debug.Log`/`Debug.LogError` messages and the two-decimal formatting are replaced by result datatypes (`BillsOutcome`, `Result`).
- Display filtering: the bills display hides zero counts. The model keeps all six counts.
- The bills header prints the configured field rather than the parameter. This is a display detail only.
- Single-precision floating point: the bookstore works in exact `real`. The default price `24.95f` is not exactly 24.95 as a float, and no rounding error is reproduced.
- Bookstore.ValidateInputs: `real` has no NaN or infinity. In the source, `price <= 0` is false for a NaN price, so NaN passes validation and, with copies > 0, every figure comes out NaN; a price of +infinity also passes and its profit is infinity minus infinity, NaN. The model's "valid exactly when price > 0" holds only for finite prices.
- 32-bit `int` bounds: the bills steps only divide and take remainders, so they cannot overflow. Copies times price in the bookstore is exact.
- Bookstore.ShippingCost: the contract speaks only of copies >= 1. The calculator never reaches shipping with fewer copies, although the function computes the source's second branch there too.
- Bookstore.BooksCost and Bookstore.TotalRevenue are single products with no contract of their own. Their meaning is stated through Bookstore.CalculateBookstoreCosts and Bookstore.GrossMargin.
